/**
  The prefix-to-suffix table that Chain.Build fills, described as values.
  The window before each token is the last `L` words of the tokens seen so
  far, padded in front with empty strings; the token is appended to the
  list stored under that window's key (its words joined by spaces), so a
  list keeps duplicates and its order of arrival.
 */
module ChainTable {
  import opened Strings

  type Table = map<string, seq<string>>

  /** `c.chain[key]` in Go: a missing key reads as an empty list. */
  function Lookup(table: Table, key: string): seq<string>
  {
    if key in table then table[key] else []
  }

  /** `c.chain[key] = append(c.chain[key], s)`. */
  function Record(table: Table, key: string, s: string): (r: Table)
    ensures r.Keys == table.Keys + {key}
    ensures Lookup(r, key) == Lookup(table, key) + [s]
    ensures forall k :: k != key ==> Lookup(r, k) == Lookup(table, k)
  {
    table[key := Lookup(table, key) + [s]]
  }

  /** `make(Prefix, L)`: a window of `L` empty words. */
  function Blanks(L: nat): (w: seq<string>)
    ensures |w| == L && SpaceFree(w)
    ensures forall i :: 0 <= i < L ==> w[i] == ""
  {
    seq(L, _ => "")
  }

  /** The window in force once the tokens `seen` have been read: their last `L` words, padded with blanks. */
  function Window(L: nat, seen: seq<string>): (w: seq<string>)
    ensures |w| == L
  {
    (Blanks(L) + seen)[|seen|..]
  }

  /** The table after Build has read `tokens` into `table`. */
  function BuildTable(table: Table, L: nat, tokens: seq<string>): Table
    decreases |tokens|
  {
    if tokens == [] then table
    else
      var seen := tokens[..|tokens| - 1];
      Record(BuildTable(table, L, seen), Join(Window(L, seen)), tokens[|tokens| - 1])
  }

  /** Reference definition: the tokens that followed a window with key `key`, in stream order. */
  function Followers(L: nat, tokens: seq<string>, key: string): seq<string>
    decreases |tokens|
  {
    if tokens == [] then []
    else
      var seen := tokens[..|tokens| - 1];
      Followers(L, seen, key) + (if Join(Window(L, seen)) == key then [tokens[|tokens| - 1]] else [])
  }

  /** How many times the window `w` came right before the token `t` in `tokens`. */
  function Occurrences(L: nat, tokens: seq<string>, w: seq<string>, t: string): nat
    decreases |tokens|
  {
    if tokens == [] then 0
    else
      var seen := tokens[..|tokens| - 1];
      Occurrences(L, seen, w, t) + (if Window(L, seen) == w && tokens[|tokens| - 1] == t then 1 else 0)
  }

  /** The number of suffixes stored in the whole table. */
  ghost function TotalSuffixes(table: Table): nat
    decreases |table|
  {
    if table == map[] then 0
    else
      var k :| k in table;
      |table[k]| + TotalSuffixes(table - {k})
  }

  /** Shifting the window by the next token gives the window after that token. */
  lemma WindowShift(L: nat, seen: seq<string>, t: string)
    requires L >= 1
    ensures Window(L, seen + [t]) == Window(L, seen)[1..] + [t]
  {
    var padded := Blanks(L) + seen;
    assert Blanks(L) + (seen + [t]) == padded + [t];
    assert (padded + [t])[|seen| + 1..] == padded[|seen| + 1..] + [t];
  }

  /** Once `L` tokens have been read, the window is exactly the last `L` tokens. */
  lemma WindowIsLastTokens(L: nat, seen: seq<string>)
    requires |seen| >= L
    ensures Window(L, seen) == seen[|seen| - L..]
  {
    assert (Blanks(L) + seen)[|seen|..] == seen[|seen| - L..];
  }

  /** Windows of space-free tokens are space-free. */
  lemma WindowSpaceFree(L: nat, seen: seq<string>)
    requires SpaceFree(seen)
    ensures SpaceFree(Window(L, seen))
  {
    var padded := Blanks(L) + seen;
    forall i | 0 <= i < L ensures ' ' !in Window(L, seen)[i] {
      assert Window(L, seen)[i] == padded[|seen| + i];
      if |seen| + i >= L {
        assert padded[|seen| + i] == seen[|seen| + i - L];
      }
    }
  }

  /** One step of Build on the stream `tokens`: reading `tokens[i]` records it under the current window's key and shifts it in. */
  lemma BuildStep(table: Table, L: nat, tokens: seq<string>, i: nat)
    requires L >= 1 && SpaceFree(tokens) && i < |tokens|
    ensures BuildTable(table, L, tokens[..i + 1])
      == Record(BuildTable(table, L, tokens[..i]), Join(Window(L, tokens[..i])), tokens[i])
    ensures Window(L, tokens[..i + 1]) == Window(L, tokens[..i])[1..] + [tokens[i]]
    ensures |Split(Join(Window(L, tokens[..i])))| == L
  {
    var seen := tokens[..i];
    assert tokens[..i + 1] == seen + [tokens[i]];
    assert tokens[..i + 1][..i] == seen;
    WindowShift(L, seen, tokens[i]);
    assert SpaceFree(seen) by {
      forall k | 0 <= k < |seen| ensures ' ' !in seen[k] {
        assert seen[k] == tokens[k];
      }
    }
    WindowSpaceFree(L, seen);
    SplitJoin(Window(L, seen));
  }

  /**
    Build only appends: the list under every key is its old list followed by
    the tokens that came after that key's window, in stream order.
   */
  lemma {:induction false} BuildLookup(table: Table, L: nat, tokens: seq<string>, key: string)
    ensures Lookup(BuildTable(table, L, tokens), key) == Lookup(table, key) + Followers(L, tokens, key)
    decreases |tokens|
  {
    if tokens != [] {
      BuildLookup(table, L, tokens[..|tokens| - 1], key);
    }
  }

  /** A key is present after Build exactly when it was before or some token followed its window. */
  lemma {:induction false} BuildKeys(table: Table, L: nat, tokens: seq<string>, key: string)
    ensures key in BuildTable(table, L, tokens) <==> key in table || Followers(L, tokens, key) != []
    decreases |tokens|
  {
    if tokens != [] {
      BuildKeys(table, L, tokens[..|tokens| - 1], key);
    }
  }

  /** A key that some token followed is the key of a window: it splits into exactly `L` words. */
  lemma {:induction false} FollowedKeyShape(L: nat, tokens: seq<string>, key: string)
    requires L >= 1 && SpaceFree(tokens)
    requires Followers(L, tokens, key) != []
    ensures |Split(key)| == L
    decreases |tokens|
  {
    var seen := tokens[..|tokens| - 1];
    assert SpaceFree(seen) by {
      forall i | 0 <= i < |seen| ensures ' ' !in seen[i] {
        assert seen[i] == tokens[i];
      }
    }
    if Join(Window(L, seen)) == key {
      WindowSpaceFree(L, seen);
      SplitJoin(Window(L, seen));
    } else {
      FollowedKeyShape(L, seen, key);
    }
  }

  /**
    The weights of the random choice: a token occurs in the list under a
    window's key exactly as often as that window came right before it.
   */
  lemma {:induction false} FollowerCount(L: nat, tokens: seq<string>, w: seq<string>, t: string)
    requires L >= 1 && |w| == L && SpaceFree(w) && SpaceFree(tokens)
    ensures multiset(Followers(L, tokens, Join(w)))[t] == Occurrences(L, tokens, w, t)
    decreases |tokens|
  {
    if tokens != [] {
      var seen := tokens[..|tokens| - 1];
      assert SpaceFree(seen) by {
        forall i | 0 <= i < |seen| ensures ' ' !in seen[i] {
          assert seen[i] == tokens[i];
        }
      }
      FollowerCount(L, seen, w, t);
      WindowSpaceFree(L, seen);
      JoinInjective(Window(L, seen), w);
    }
  }

  /** Removing any one key removes exactly its own suffixes from the total. */
  lemma {:induction false} TotalWithout(table: Table, k: string)
    requires k in table
    ensures TotalSuffixes(table) == |table[k]| + TotalSuffixes(table - {k})
    decreases |table|
  {
    var k' :| k' in table && TotalSuffixes(table) == |table[k']| + TotalSuffixes(table - {k'});
    if k' != k {
      var both := table - {k'} - {k};
      assert table - {k} - {k'} == both;
      TotalWithout(table - {k'}, k);
      TotalWithout(table - {k}, k');
    }
  }

  /** Recording one suffix adds one to the total. */
  lemma TotalRecord(table: Table, key: string, s: string)
    ensures TotalSuffixes(Record(table, key, s)) == TotalSuffixes(table) + 1
  {
    var r := Record(table, key, s);
    TotalWithout(r, key);
    if key in table {
      TotalWithout(table, key);
      assert r - {key} == table - {key};
    } else {
      assert r - {key} == table;
    }
  }

  /** Every token read is stored exactly once: the total grows by the token count. */
  lemma {:induction false} BuildTotal(table: Table, L: nat, tokens: seq<string>)
    ensures TotalSuffixes(BuildTable(table, L, tokens)) == TotalSuffixes(table) + |tokens|
    decreases |tokens|
  {
    if tokens != [] {
      var seen := tokens[..|tokens| - 1];
      BuildTotal(table, L, seen);
      TotalRecord(BuildTable(table, L, seen), Join(Window(L, seen)), tokens[|tokens| - 1]);
    }
  }
}
