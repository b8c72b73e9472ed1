/**
  The Markov chain of slack_markov.go: a window of words (`Prefix`) that
  slides in place, and a `Chain` object whose table of prefix keys to
  suffix lists is filled by Build and walked by Generate.
 */
module Markov {
  import opened Strings
  import opened ChainTable
  import opened Generation

  /** Prefix.Shift: drop the first word of the window and append `word`, in place. */
  method Shift(p: array<string>, word: string)
    requires p.Length >= 1
    modifies p
    ensures p[..] == old(p[..])[1..] + [word]
  {
    forall i | 0 <= i < p.Length - 1 {
      p[i] := p[i + 1];
    }
    p[p.Length - 1] := word;
  }

  /** The outcome of Generate: Go panics in rand.Intn(0) when no key can start a text. */
  datatype Generated = NoStartKey | Text(start: string, text: string)

  /** Chain: prefix keys of `prefixLen` words, each with the list of words seen after it. */
  class Chain {
    var chain: Table
    const prefixLen: nat

    /** Every key is the space-join of a window of exactly `prefixLen` words. */
    ghost predicate Valid()
      reads this
    {
      prefixLen >= 1 && forall key :: key in chain ==> |Split(key)| == prefixLen
    }

    /** NewChain: an empty table. */
    constructor (prefixLen: nat)
      requires prefixLen >= 1
      ensures Valid() && this.prefixLen == prefixLen && chain == map[]
    {
      this.prefixLen := prefixLen;
      chain := map[];
    }

    /**
      Build: for each token, append it to the list under the current
      window's key, then shift the token into the window.
     */
    method Build(tokens: seq<string>)
      requires Valid() && SpaceFree(tokens)
      modifies this
      ensures Valid()
      ensures chain == BuildTable(old(chain), prefixLen, tokens)
      ensures forall key :: Lookup(chain, key) == Lookup(old(chain), key) + Followers(prefixLen, tokens, key)
      ensures TotalSuffixes(chain) == TotalSuffixes(old(chain)) + |tokens|
    {
      var p := new string[prefixLen](_ => "");
      assert p[..] == Blanks(prefixLen);
      var i := 0;
      while i < |tokens|
        invariant 0 <= i <= |tokens|
        invariant p[..] == Window(prefixLen, tokens[..i])
        invariant chain == BuildTable(old(chain), prefixLen, tokens[..i])
        invariant Valid()
      {
        var s := tokens[i];
        var key := Join(p[..]);
        BuildStep(old(chain), prefixLen, tokens, i);
        chain := chain[key := Lookup(chain, key) + [s]];
        Shift(p, s);
        i := i + 1;
      }
      assert tokens[..i] == tokens;
      forall key {
        BuildLookup(old(chain), prefixLen, tokens, key);
      }
      BuildTotal(old(chain), prefixLen, tokens);
    }

    /** The keys that may start a text, gathered in map-iteration order (any order). */
    method PossiblePrefixes() returns (possible: seq<string>)
      ensures forall key :: key in possible <==> key in StartKeys(chain)
    {
      possible := [];
      var unvisited := chain.Keys;
      while unvisited != {}
        invariant unvisited <= chain.Keys
        invariant forall key :: key in possible <==> key in chain && key !in unvisited && IsStartKey(key)
        decreases unvisited
      {
        var each :| each in unvisited;
        if IsStartKey(each) {
          possible := possible + [each];
        }
        unvisited := unvisited - {each};
      }
    }

    /**
      The generation loop of Generate: from the window in `p`, take at most
      `n` steps, each drawing from `picks`, and return `first` followed by
      the words emitted.
     */
    method Emit(p: array<string>, first: string, n: int, single: bool, picks: seq<nat>) returns (words: seq<string>)
      requires p.Length >= 1 && |picks| >= n
      modifies p
      ensures words == [first] + Walk(chain, old(p[..]), n, single, picks, 0)
    {
      ghost var walk := Walk(chain, p[..], n, single, picks, 0);
      words := [first];
      var i := 0;
      while i < n
        invariant 0 <= i
        invariant p.Length >= 1
        invariant [first] + walk == words + Walk(chain, p[..], n, single, picks, i)
      {
        var word := Join(p[..]);
        var choices := Lookup(chain, word);
        if |choices| == 0 {
          assert Walk(chain, p[..], n, single, picks, i) == [];
          break;
        }
        var next := choices[picks[i] % |choices|];
        if single && Contains(next, EndTag) {
          assert Walk(chain, p[..], n, single, picks, i) == [];
          break;
        }
        ghost var window := p[..];
        ghost var done := words;
        ghost var marker := if i == n - 1 then [Truncated] else [];
        WalkStep(chain, window, n, single, picks, i, done, [first] + walk);
        words := words + [next];
        if i == n - 1 {
          words := words + [Truncated];
        }
        assert words == done + [next] + marker;
        Shift(p, next);
        assert p[..] == window[1..] + [next];
        i := i + 1;
      }
      assert words == [first] + walk;
    }

    /**
      Generate: pick a start key among those that begin with the marker and
      hold no second one (draw `startPick`), seed the window with its words
      and the output with the key, walk at most `n` steps drawing from
      `picks`, and return the space-joined output without its first six
      characters.
     */
    method Generate(n: int, single: bool, startPick: nat, picks: seq<nat>) returns (g: Generated)
      requires Valid() && |picks| >= n
      ensures g.NoStartKey? <==> StartKeys(chain) == {}
      ensures g.Text? ==> g.start in StartKeys(chain)
      ensures g.Text? ==> g.text == Render([g.start] + Walk(chain, Split(g.start), n, single, picks, 0))
    {
      var possible := PossiblePrefixes();
      if |possible| == 0 {
        assert forall key :: key !in StartKeys(chain);
        return NoStartKey;
      }
      var first := possible[startPick % |possible|];
      assert first in StartKeys(chain);
      var arr := Split(first);
      var p := new string[prefixLen];
      for i := 0 to prefixLen
        invariant p[..i] == arr[..i]
      {
        p[i] := arr[i];
      }
      assert p[..] == arr;
      var words := Emit(p, first, n, single, picks);
      g := Text(first, Join(words)[|EndTag|..]);
    }
  }
}
