/**
  String steps the Markov engine relies on, as Go's `strings` and `regexp`
  packages perform them: joining words with one space, splitting on a
  single space, substring search and removal of every literal match.
  Strings are sequences of characters; every fixed offset used by the
  engine falls after the ASCII marker "<end/>", so byte and character
  offsets agree there.
 */
module Strings {

  /** No word contains a space (what Go's word scanner guarantees of its tokens). */
  predicate SpaceFree(words: seq<string>)
  {
    forall i :: 0 <= i < |words| ==> ' ' !in words[i]
  }

  /** strings.Join(words, " "). */
  function Join(words: seq<string>): string
  {
    if |words| == 0 then ""
    else if |words| == 1 then words[0]
    else words[0] + " " + Join(words[1..])
  }

  /** strings.Split(s, " "): the pieces between single spaces, at least one. */
  function Split(s: string): (parts: seq<string>)
    ensures |parts| >= 1
    ensures SpaceFree(parts)
    ensures Join(parts) == s
    decreases |s|
  {
    if |s| == 0 then [""]
    else
      var rest := Split(s[1..]);
      if s[0] == ' ' then [""] + rest
      else [[s[0]] + rest[0]] + rest[1..]
  }

  /** `pat` occurs in `s` starting at index `i`. */
  predicate MatchAt(s: string, pat: string, i: nat)
  {
    i + |pat| <= |s| && s[i..i + |pat|] == pat
  }

  /** strings.Contains(s, pat). */
  predicate Contains(s: string, pat: string)
  {
    exists i: nat | i <= |s| :: MatchAt(s, pat, i)
  }

  /**
    regexp.MustCompile(pat).ReplaceAllString(s, "") for a pattern with no
    metacharacters: matches are found left to right, without overlap, and
    each is deleted.
   */
  function RemoveAll(s: string, pat: string): (r: string)
    requires |pat| > 0
    ensures |r| <= |s|
    decreases |s|
  {
    if |s| < |pat| then s
    else if s[..|pat|] == pat then RemoveAll(s[|pat|..], pat)
    else [s[0]] + RemoveAll(s[1..], pat)
  }

  /** A text without a match comes back unchanged; a text with a match loses at least one pattern's length. */
  lemma {:induction false} RemoveAllBounds(s: string, pat: string)
    requires |pat| > 0
    ensures !Contains(s, pat) ==> RemoveAll(s, pat) == s
    ensures Contains(s, pat) ==> |RemoveAll(s, pat)| <= |s| - |pat|
    decreases |s|
  {
    if |s| < |pat| {
      assert !Contains(s, pat);
    } else if s[..|pat|] == pat {
      assert MatchAt(s, pat, 0);
    } else {
      ContainsTail(s, pat);
      RemoveAllBounds(s[1..], pat);
      if !Contains(s, pat) {
        assert s == [s[0]] + s[1..];
      }
    }
  }

  /** When `s` does not start with `pat`, the matches of `s` are those of `s[1..]`. */
  lemma ContainsTail(s: string, pat: string)
    requires |s| >= |pat| > 0 && s[..|pat|] != pat
    ensures Contains(s, pat) <==> Contains(s[1..], pat)
  {
    if Contains(s, pat) {
      var i: nat :| i <= |s| && MatchAt(s, pat, i);
      assert i != 0;
      assert s[1..][i - 1..i - 1 + |pat|] == s[i..i + |pat|];
      assert MatchAt(s[1..], pat, i - 1);
    }
    if Contains(s[1..], pat) {
      var i: nat :| i <= |s[1..]| && MatchAt(s[1..], pat, i);
      assert s[i + 1..i + 1 + |pat|] == s[1..][i..i + |pat|];
      assert MatchAt(s, pat, i + 1);
    }
  }

  /** Split of a space-free word followed by more text glues the word onto the first piece. */
  lemma {:induction false} SplitWord(a: string, t: string)
    requires ' ' !in a
    ensures Split(a + t) == [a + Split(t)[0]] + Split(t)[1..]
    decreases |a|
  {
    if |a| == 0 {
      assert a + t == t;
      assert a + Split(t)[0] == Split(t)[0];
      assert Split(t) == [Split(t)[0]] + Split(t)[1..];
    } else {
      assert (a + t)[0] == a[0];
      assert (a + t)[1..] == a[1..] + t;
      SplitWord(a[1..], t);
      assert [a[0]] + (a[1..] + Split(t)[0]) == a + Split(t)[0];
    }
  }

  /** A space-free word, a space, then text that splits into `rest`: the word comes back first. */
  lemma SplitCons(w: string, tail: string, rest: seq<string>)
    requires ' ' !in w && Split(tail) == rest
    ensures Split(w + " " + tail) == [w] + rest
  {
    var t := " " + tail;
    assert w + " " + tail == w + t;
    SplitWord(w, t);
    assert t[0] == ' ' && t[1..] == tail;
    assert Split(t) == [""] + rest;
    assert w + "" == w;
  }

  /** Splitting the join of space-free words gives the words back. */
  lemma {:induction false} SplitJoin(words: seq<string>)
    requires |words| >= 1 && SpaceFree(words)
    ensures Split(Join(words)) == words
  {
    assert ' ' !in words[0];
    if |words| == 1 {
      SplitWord(words[0], "");
      assert words[0] + "" == words[0];
    } else {
      var rest := words[1..];
      assert SpaceFree(rest) by {
        forall i | 0 <= i < |rest| ensures ' ' !in rest[i] {
          assert rest[i] == words[i + 1];
        }
      }
      SplitJoin(rest);
      SplitCons(words[0], Join(rest), rest);
      assert words == [words[0]] + rest;
    }
  }

  /** The key of a window determines the window: Join is injective on space-free words. */
  lemma JoinInjective(a: seq<string>, b: seq<string>)
    requires |a| >= 1 && SpaceFree(a) && |b| >= 1 && SpaceFree(b)
    ensures Join(a) == Join(b) <==> a == b
  {
    SplitJoin(a);
    SplitJoin(b);
  }

  /** Every character of a match is the pattern's character at that offset. */
  lemma MatchedChar(s: string, pat: string, i: nat, k: nat)
    requires MatchAt(s, pat, i) && i <= k < i + |pat|
    ensures s[k] == pat[k - i]
  {
    assert s[i..i + |pat|][k - i] == s[k];
  }

  /** A match of a space-free pattern cannot straddle a space. */
  lemma ContainsAroundSpace(a: string, b: string, pat: string)
    requires ' ' !in pat
    ensures Contains(a + " " + b, pat) ==> Contains(a, pat) || Contains(b, pat)
  {
    var s := a + " " + b;
    if Contains(s, pat) {
      var i: nat :| i <= |s| && MatchAt(s, pat, i);
      if i + |pat| <= |a| {
        assert a[i..i + |pat|] == s[i..i + |pat|];
        assert MatchAt(a, pat, i);
      } else if i > |a| {
        var j := i - |a| - 1;
        assert s[|a| + 1..] == b;
        assert s[i..i + |pat|] == s[|a| + 1..][j..j + |pat|];
        assert MatchAt(b, pat, j);
      } else {
        MatchedChar(s, pat, i, |a|);
        assert false;
      }
    }
  }

  /** Where `pat` does not start `s`, RemoveAll keeps the first character and goes on. */
  lemma RemoveAllKeep(s: string, pat: string)
    requires |pat| > 0 && |s| > 0 && !MatchAt(s, pat, 0)
    ensures RemoveAll(s, pat) == [s[0]] + RemoveAll(s[1..], pat)
  {
    if |s| < |pat| {
      assert RemoveAll(s[1..], pat) == s[1..];
      assert s == [s[0]] + s[1..];
    }
  }

  /** A leading space is never part of a match of a space-free pattern. */
  lemma RemoveAllSpace(b: string, pat: string)
    requires |pat| > 0 && ' ' !in pat
    ensures RemoveAll(" " + b, pat) == " " + RemoveAll(b, pat)
  {
    var s := " " + b;
    if MatchAt(s, pat, 0) {
      MatchedChar(s, pat, 0, 0);
      assert false;
    }
    RemoveAllKeep(s, pat);
    assert s[1..] == b;
  }

  /** A match at the front of `a + " " + b` lies inside `a`: both deletions skip it, and the rest splits as before. */
  lemma RemoveAllFrontMatch(a: string, b: string, pat: string)
    requires |pat| > 0 && ' ' !in pat && MatchAt(a + " " + b, pat, 0)
    requires |pat| <= |a| ==>
      RemoveAll(a[|pat|..] + " " + b, pat) == RemoveAll(a[|pat|..], pat) + " " + RemoveAll(b, pat)
    ensures RemoveAll(a + " " + b, pat) == RemoveAll(a, pat) + " " + RemoveAll(b, pat)
  {
    var s := a + " " + b;
    if |pat| > |a| {
      MatchedChar(s, pat, 0, |a|);
      assert false;
    }
    var rest := a[|pat|..];
    calc {
      RemoveAll(s, pat);
    == { assert s[|pat|..] == rest + " " + b; }
      RemoveAll(rest + " " + b, pat);
    ==
      RemoveAll(rest, pat) + " " + RemoveAll(b, pat);
    == { assert a[..|pat|] == s[..|pat|]; }
      RemoveAll(a, pat) + " " + RemoveAll(b, pat);
    }
  }

  /** A text that starts with no match of `pat` keeps no match at its front when more text follows it. */
  lemma NoFrontMatch(a: string, t: string, pat: string)
    requires !MatchAt(a + t, pat, 0)
    ensures !MatchAt(a, pat, 0)
  {
  }

  /** Without a match at the front of `a + " " + b`, the deletion keeps `a[0]` and goes on with the rest. */
  lemma RemoveAllFrontKeep(a: string, b: string, pat: string)
    requires |pat| > 0 && |a| > 0 && !MatchAt(a + " " + b, pat, 0)
    ensures RemoveAll(a + " " + b, pat) == [a[0]] + RemoveAll(a[1..] + " " + b, pat)
  {
    var s := a + " " + b;
    RemoveAllKeep(s, pat);
    assert s[1..] == a[1..] + " " + b;
  }

  /** A space-free pattern is deleted on each side of a space separately. */
  lemma {:induction false} RemoveAllAroundSpace(a: string, b: string, pat: string)
    requires |pat| > 0 && ' ' !in pat
    ensures RemoveAll(a + " " + b, pat) == RemoveAll(a, pat) + " " + RemoveAll(b, pat)
    decreases |a|
  {
    if |a| == 0 {
      assert a + " " + b == " " + b;
      RemoveAllSpace(b, pat);
    } else if MatchAt(a + " " + b, pat, 0) {
      if |pat| <= |a| {
        RemoveAllAroundSpace(a[|pat|..], b, pat);
      }
      RemoveAllFrontMatch(a, b, pat);
    } else {
      RemoveAllFrontKeep(a, b, pat);
      NoFrontMatch(a, " " + b, pat);
      RemoveAllKeep(a, pat);
      RemoveAllAroundSpace(a[1..], b, pat);
      var ra, rb := RemoveAll(a[1..], pat), RemoveAll(b, pat);
      assert [a[0]] + (ra + " " + rb) == ([a[0]] + ra) + " " + rb;
    }
  }

  /** Each word with every match of `pat` deleted. */
  function RemoveEach(words: seq<string>, pat: string): (r: seq<string>)
    requires |pat| > 0
    ensures |r| == |words|
    ensures forall i :: 0 <= i < |words| ==> r[i] == RemoveAll(words[i], pat)
  {
    seq(|words|, i requires 0 <= i < |words| => RemoveAll(words[i], pat))
  }

  /** Deleting a space-free pattern from joined words deletes it word by word. */
  lemma {:induction false} RemoveAllJoin(words: seq<string>, pat: string)
    requires |pat| > 0 && ' ' !in pat
    ensures RemoveAll(Join(words), pat) == Join(RemoveEach(words, pat))
  {
    if |words| == 0 {
      assert RemoveAll("", pat) == "";
    } else if |words| > 1 {
      RemoveAllJoin(words[1..], pat);
      RemoveAllAroundSpace(words[0], Join(words[1..]), pat);
      assert RemoveEach(words, pat)[1..] == RemoveEach(words[1..], pat);
    }
  }

  /** Joining words with spaces creates no new match of a space-free pattern. */
  lemma {:induction false} JoinAvoids(words: seq<string>, pat: string)
    requires |pat| > 0 && ' ' !in pat
    requires forall i :: 0 <= i < |words| ==> !Contains(words[i], pat)
    ensures !Contains(Join(words), pat)
  {
    if |words| > 1 {
      JoinAvoids(words[1..], pat);
      ContainsAroundSpace(words[0], Join(words[1..]), pat);
    }
  }
}
