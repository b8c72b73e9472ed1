/**
  What Chain.Generate produces, described as values: which keys may start
  a text, the random walk from the start window, and the final text.
  Random draws are given as an oracle sequence of naturals; a draw among
  `k` candidates takes the oracle value modulo `k`, so every candidate is
  reachable and nothing outside the list is.
 */
module Generation {
  import opened Strings
  import opened ChainTable

  /** The end-of-message marker inserted after every message. */
  const EndTag := "<end/>"

  /** Appended when the walk used all its steps. */
  const Truncated := "[...]"

  /** A key that may start a text: "<end/>", then at least one character, and no second "<end/>". */
  predicate IsStartKey(key: string)
  {
    |key| > |EndTag| && key[..|EndTag|] == EndTag && !Contains(key[|EndTag|..], EndTag)
  }

  /** The keys of the table that may start a text. */
  ghost function StartKeys(table: Table): set<string>
  {
    set key | key in table && IsStartKey(key)
  }

  /**
    The words the walk appends from step `i` on (Go: the loop at steps
    `i .. n-1`), starting from `window`: look the window up, stop if nothing
    follows it, draw a candidate, stop in single mode if it contains the
    marker, otherwise emit it (and "[...]" after the last step) and shift.
   */
  function Walk(table: Table, window: seq<string>, n: int, single: bool, picks: seq<nat>, i: nat): seq<string>
    requires |window| >= 1 && |picks| >= n
    decreases n - i
  {
    if i >= n then []
    else
      var choices := Lookup(table, Join(window));
      if |choices| == 0 then []
      else
        var next := choices[picks[i] % |choices|];
        if single && Contains(next, EndTag) then []
        else [next] + (if i == n - 1 then [Truncated] else []) + Walk(table, window[1..] + [next], n, single, picks, i + 1)
  }

  /** One step of the walk that emits `next`: the output so far grows by `next` (and "[...]" at the last step). */
  lemma WalkStep(table: Table, window: seq<string>, n: int, single: bool, picks: seq<nat>, i: nat,
                 done: seq<string>, total: seq<string>)
    requires |window| >= 1 && |picks| >= n && i < n
    requires total == done + Walk(table, window, n, single, picks, i)
    requires |Lookup(table, Join(window))| > 0
    requires var choices := Lookup(table, Join(window));
      !(single && Contains(choices[picks[i] % |choices|], EndTag))
    ensures var choices := Lookup(table, Join(window));
      var next := choices[picks[i] % |choices|];
      var marker := if i == n - 1 then [Truncated] else [];
      total == done + [next] + marker + Walk(table, window[1..] + [next], n, single, picks, i + 1)
  {
  }

  /** `strings.Join(words, " ")[6:]`: the output with the leading marker cut off. */
  function Render(words: seq<string>): (text: string)
    requires |words| >= 1 && |words[0]| >= |EndTag|
    ensures text == words[0][|EndTag|..] + (if |words| == 1 then "" else " " + Join(words[1..]))
  {
    Join(words)[|EndTag|..]
  }

  /**
    At most `n - i` words follow, and "[...]" closes the output exactly when
    all the remaining steps produced a word.
   */
  lemma {:induction false} WalkShape(table: Table, window: seq<string>, n: int, single: bool, picks: seq<nat>, i: nat)
    requires |window| >= 1 && |picks| >= n && i < n
    ensures var words := Walk(table, window, n, single, picks, i);
      |words| < n - i || (|words| == n - i + 1 && words[n - i] == Truncated)
    decreases n - i
  {
    var choices := Lookup(table, Join(window));
    if |choices| > 0 {
      var next := choices[picks[i] % |choices|];
      if !(single && Contains(next, EndTag)) && i < n - 1 {
        WalkShape(table, window[1..] + [next], n, single, picks, i + 1);
      }
    }
  }

  /** Emitting `next` slides every later window one place: the window at `j + 1` before is the window at `j` after. */
  lemma SlideWindow(window: seq<string>, next: string, rest: seq<string>, j: nat)
    requires |window| >= 1 && j <= |rest|
    ensures (window + ([next] + rest))[j + 1..j + 1 + |window|] == (window[1..] + [next] + rest)[j..j + |window|]
  {
    assert window + ([next] + rest) == [window[0]] + (window[1..] + [next] + rest);
  }

  /**
    Every generated word is a candidate stored under the key of the window
    formed by the last |window| words before it.
   */
  lemma {:induction false} WalkFollows(table: Table, window: seq<string>, n: int, single: bool, picks: seq<nat>, i: nat, j: nat)
    requires |window| >= 1 && |picks| >= n
    requires j < |Walk(table, window, n, single, picks, i)| && i + j < n
    ensures Walk(table, window, n, single, picks, i)[j]
      in Lookup(table, Join((window + Walk(table, window, n, single, picks, i))[j..j + |window|]))
    decreases n - i
  {
    var words := Walk(table, window, n, single, picks, i);
    var choices := Lookup(table, Join(window));
    var next := choices[picks[i] % |choices|];
    var window' := window[1..] + [next];
    var rest := Walk(table, window', n, single, picks, i + 1);
    if j == 0 {
      assert (window + words)[..|window|] == window;
    } else {
      assert words == [next] + rest;
      WalkFollows(table, window', n, single, picks, i + 1, j - 1);
      SlideWindow(window, next, rest, j - 1);
    }
  }

  /**
    A walk that ends before its last step ends for one of the two reasons in
    the code: nothing follows the current window, or (single mode) the drawn
    word contains the marker.
   */
  lemma {:induction false} WalkStops(table: Table, window: seq<string>, n: int, single: bool, picks: seq<nat>, i: nat)
    requires |window| >= 1 && |picks| >= n
    requires i + |Walk(table, window, n, single, picks, i)| < n
    ensures var words := Walk(table, window, n, single, picks, i);
      var choices := Lookup(table, Join((window + words)[|words|..|words| + |window|]));
      choices == [] || (single && Contains(choices[picks[i + |words|] % |choices|], EndTag))
    decreases n - i
  {
    var words := Walk(table, window, n, single, picks, i);
    var choices := Lookup(table, Join(window));
    if |choices| == 0 || (single && Contains(choices[picks[i] % |choices|], EndTag)) {
      assert words == [];
      assert (window + words)[0..|window|] == window;
    } else {
      var next := choices[picks[i] % |choices|];
      var window' := window[1..] + [next];
      var rest := Walk(table, window', n, single, picks, i + 1);
      assert words == [next] + rest;
      WalkStops(table, window', n, single, picks, i + 1);
      SlideWindow(window, next, rest, |rest|);
    }
  }

  /** In single mode no emitted word contains the marker. */
  lemma {:induction false} WalkSingle(table: Table, window: seq<string>, n: int, picks: seq<nat>, i: nat)
    requires |window| >= 1 && |picks| >= n
    ensures forall k :: 0 <= k < |Walk(table, window, n, true, picks, i)| ==>
      !Contains(Walk(table, window, n, true, picks, i)[k], EndTag)
    decreases n - i
  {
    if i < n {
      var choices := Lookup(table, Join(window));
      if |choices| > 0 {
        var next := choices[picks[i] % |choices|];
        if !Contains(next, EndTag) {
          var rest := Walk(table, window[1..] + [next], n, true, picks, i + 1);
          var marker := if i == n - 1 then [Truncated] else [];
          WalkSingle(table, window[1..] + [next], n, picks, i + 1);
          assert forall k :: 0 <= k < |rest| ==> !Contains(rest[k], EndTag);
          assert !Contains(Truncated, EndTag);
          var words := [next] + marker + rest;
          assert words == Walk(table, window, n, true, picks, i);
          forall k | 0 <= k < |words| ensures !Contains(words[k], EndTag) {
            if k == 0 {
              assert words[k] == next;
            } else if k < 1 + |marker| {
              assert words[k] == Truncated;
              assert !Contains(words[k], EndTag);
            } else {
              assert words[k] == rest[k - 1 - |marker|];
              assert !Contains(words[k], EndTag);
            }
          }
        }
      }
    }
  }

  /**
    In single mode the text holds no marker at all: the start key has none
    after its first six characters and no word the walk adds has one.
   */
  lemma SingleTextHasNoMarker(table: Table, start: string, n: int, picks: seq<nat>)
    requires IsStartKey(start) && |picks| >= n
    ensures !Contains(Render([start] + Walk(table, Split(start), n, true, picks, 0)), EndTag)
  {
    var walked := Walk(table, Split(start), n, true, picks, 0);
    var words := [start] + walked;
    var head := start[|EndTag|..];
    assert words[0] == start && words[1..] == walked;
    if walked == [] {
      assert Render(words) == head;
    } else {
      WalkSingle(table, Split(start), n, picks, 0);
      JoinAvoids(walked, EndTag);
      assert Render(words) == head + " " + Join(walked);
      ContainsAroundSpace(head, Join(walked), EndTag);
    }
  }
}
