/**
  The glue around the chain in slack_markov.go: selecting one user's
  messages and concatenating them into a transcript with a marker after
  each, and buildPost, which trains a fresh chain on that transcript,
  generates a text and deletes the literal markers left in it.
 */
module Slack {
  import opened Strings
  import opened ChainTable
  import opened Generation
  import opened Markov

  datatype Option<T> = None | Some(value: T)

  /**
    One entry of the export's "messages" array: its "user" field when that
    is a string, and its "text" field when present.
   */
  datatype Message = Message(user: Option<string>, text: Option<string>)

  /** checkUser: the message is by `user`, or no user was asked for. */
  function CheckUser(m: Message, user: string): (ok: bool)
    ensures user == "" ==> ok
    ensures ok && user != "" ==> m.user == Some(user)
  {
    m.user == Some(user) || user == ""
  }

  /** A text followed by " <end/>", as parseScrape writes it. */
  function Terminated(text: string): string
  {
    text + " " + EndTag
  }

  /** What parseScrape appends for one message: its text and " <end/>", if it is selected and has a text. */
  function Chunk(m: Message, user: string): string
  {
    if CheckUser(m, user) && m.text.Some? then Terminated(m.text.value) else ""
  }

  /** The transcript parseScrape builds from `messages`, message by message. */
  function Transcript(messages: seq<Message>, user: string): string
  {
    if messages == [] then ""
    else Transcript(messages[..|messages| - 1], user) + Chunk(messages[|messages| - 1], user)
  }

  /** Reference definition: each text followed by " <end/>", in order, with nothing in between. */
  function Marked(texts: seq<string>): string
  {
    if texts == [] then "" else Terminated(texts[0]) + Marked(texts[1..])
  }

  /** The texts of all messages that have one, in order. */
  function Texts(messages: seq<Message>): seq<string>
  {
    if messages == [] then []
    else (if messages[0].text.Some? then [messages[0].text.value] else []) + Texts(messages[1..])
  }

  /** The messages checkUser accepts, in order. */
  function Selected(messages: seq<Message>, user: string): (kept: seq<Message>)
    ensures |kept| <= |messages|
    ensures forall i :: 0 <= i < |kept| ==> CheckUser(kept[i], user)
    ensures forall i :: 0 <= i < |messages| && CheckUser(messages[i], user) ==> messages[i] in kept
    ensures user == "" ==> kept == messages
    decreases |messages|
  {
    if messages == [] then []
    else
      var init, last := messages[..|messages| - 1], messages[|messages| - 1];
      var rest := Selected(init, user);
      assert forall i :: 0 <= i < |init| ==> init[i] == messages[i];
      rest + (if CheckUser(last, user) then [last] else [])
  }

  /** parseScrape over the decoded messages: accumulate the chunk of every message in turn. */
  method ParseScrape(messages: seq<Message>, user: string) returns (wholebody: string)
    ensures wholebody == Transcript(messages, user)
  {
    wholebody := "";
    for i := 0 to |messages|
      invariant wholebody == Transcript(messages[..i], user)
    {
      var result := messages[i];
      if CheckUser(result, user) {
        if result.text.Some? {
          var chunk := result.text.value;
          chunk := chunk + " " + EndTag;
          wholebody := wholebody + chunk;
        }
      }
      assert messages[..i + 1][..i] == messages[..i];
    }
    assert messages[..|messages|] == messages;
  }

  /** Appending one message appends its chunk. */
  lemma TranscriptSnoc(a: seq<Message>, m: Message, user: string)
    ensures Transcript(a + [m], user) == Transcript(a, user) + Chunk(m, user)
  {
    var am := a + [m];
    assert am[..|am| - 1] == a;
  }

  /** The transcript of two runs of messages is the two transcripts one after the other. */
  lemma {:induction false} TranscriptConcat(a: seq<Message>, b: seq<Message>, user: string)
    ensures Transcript(a + b, user) == Transcript(a, user) + Transcript(b, user)
    decreases |b|
  {
    if b == [] {
      assert a + b == a;
    } else {
      var init, last := b[..|b| - 1], b[|b| - 1];
      var x, y, c := Transcript(a, user), Transcript(init, user), Chunk(last, user);
      calc {
        Transcript(a + b, user);
      == { assert a + b == (a + init) + [last]; TranscriptSnoc(a + init, last, user); }
        Transcript(a + init, user) + c;
      == { TranscriptConcat(a, init, user); }
        (x + y) + c;
      == { assert (x + y) + c == x + (y + c); }
        x + (y + c);
      == { assert b == init + [last]; TranscriptSnoc(init, last, user); }
        x + Transcript(b, user);
      }
    }
  }

  /** Marking distributes over concatenation of text lists. */
  lemma {:induction false} MarkedConcat(a: seq<string>, b: seq<string>)
    ensures Marked(a + b) == Marked(a) + Marked(b)
    decreases |a|
  {
    if a != [] {
      assert (a + b)[1..] == a[1..] + b;
      MarkedConcat(a[1..], b);
    } else {
      assert a + b == b;
    }
  }

  /** Texts distributes over concatenation of message runs. */
  lemma {:induction false} TextsConcat(a: seq<Message>, b: seq<Message>)
    ensures Texts(a + b) == Texts(a) + Texts(b)
    decreases |a|
  {
    if a != [] {
      assert (a + b)[1..] == a[1..] + b;
      TextsConcat(a[1..], b);
    } else {
      assert a + b == b;
    }
  }

  /**
    The transcript is the text of every message checkUser accepts, in
    message order, each followed by " <end/>", with nothing in between.
   */
  lemma {:induction false} TranscriptIsMarkedSelection(messages: seq<Message>, user: string)
    ensures Transcript(messages, user) == Marked(Texts(Selected(messages, user)))
    decreases |messages|
  {
    if messages != [] {
      var init := messages[..|messages| - 1];
      var last := messages[|messages| - 1];
      var kept := if CheckUser(last, user) then [last] else [];
      TranscriptIsMarkedSelection(init, user);
      TextsConcat(Selected(init, user), kept);
      MarkedConcat(Texts(Selected(init, user)), Texts(kept));
      assert Marked(Texts(kept)) == Chunk(last, user) by {
        if CheckUser(last, user) && last.text.Some? {
          assert Texts(kept) == [last.text.value] + Texts([]);
          assert Marked([last.text.value]) == Terminated(last.text.value) + Marked([]);
        } else if CheckUser(last, user) {
          assert Texts(kept) == [] + Texts([]);
        }
      }
    }
  }

  /** With no user given every message is selected: the transcript marks every text, in order. */
  lemma TranscriptOfEveryone(messages: seq<Message>)
    ensures Transcript(messages, "") == Marked(Texts(messages))
  {
    TranscriptIsMarkedSelection(messages, "");
  }

  /**
    No separator is written between a marker and the next text, so the
    scanner sees the marker glued to the next message's first word.
   */
  lemma MarkerGluedToNextText(u: string, a: string, b: string)
    ensures Transcript([Message(Some(u), Some(a)), Message(Some(u), Some(b))], u)
      == a + " " + EndTag + b + " " + EndTag
  {
    var m1 := Message(Some(u), Some(a));
    var m2 := Message(Some(u), Some(b));
    calc {
      Transcript([m1, m2], u);
    == { assert [m1, m2] == [m1] + [m2]; TranscriptSnoc([m1], m2, u); }
      Transcript([m1], u) + Chunk(m2, u);
    == { assert [m1] == [] + [m1]; TranscriptSnoc([], m1, u); }
      ("" + Chunk(m1, u)) + Chunk(m2, u);
    == { assert "" + Chunk(m1, u) == Terminated(a); }
      Terminated(a) + Terminated(b);
    }
  }

  /**
    Deleting markers is not idempotent: deleting the marker nested inside
    "<en" + "d/>" joins the two halves into a new marker, which a second
    deletion removes.
   */
  lemma StripNotIdempotent()
    ensures RemoveAll("<en" + EndTag + "d/>", EndTag) == EndTag
    ensures RemoveAll(EndTag, EndTag) == ""
  {
    var s := "<en" + EndTag + "d/>";
    assert s[..6][3] != EndTag[3];
    assert s[1..][..6][2] != EndTag[2];
    assert s[2..][..6][1] != EndTag[1];
    assert s[3..][..6] == EndTag;
    assert s[3..][6..] == "d/>";
    assert RemoveAll(s[3..], EndTag) == "d/>";
    assert RemoveAll(s[2..], EndTag) == "nd/>";
    assert RemoveAll(s[1..], EndTag) == "end/>";
    assert "<" + "end/>" == EndTag;
    assert EndTag[..6] == EndTag && EndTag[6..] == "";
  }

  /** The table buildPost trains on the selected messages, scanned into words. */
  function TrainedTable(messages: seq<Message>, user: string, scan: string -> seq<string>, prefixLen: nat): Table
  {
    BuildTable(map[], prefixLen, scan(Transcript(messages, user)))
  }

  /**
    buildPost with the literal marker as the clean-up pattern: train a new
    chain on the user's transcript (scanned into words by `scan`, standing
    for fmt.Fscan), generate, and delete every "<end/>" left in the text.
   */
  method BuildPost(messages: seq<Message>, user: string, scan: string -> seq<string>, prefixLen: nat,
                   wordLen: int, single: bool, startPick: nat, picks: seq<nat>) returns (post: Generated)
    requires forall s :: SpaceFree(scan(s))
    requires prefixLen >= 1 && |picks| >= wordLen
    ensures post.NoStartKey? <==> StartKeys(TrainedTable(messages, user, scan, prefixLen)) == {}
    ensures post.Text? ==> post.start in StartKeys(TrainedTable(messages, user, scan, prefixLen))
    ensures post.Text? ==> post.text == RemoveAll(Render([post.start]
      + Walk(TrainedTable(messages, user, scan, prefixLen), Split(post.start), wordLen, single, picks, 0)), EndTag)
    ensures post.Text? && single ==> post.text == Render([post.start]
      + Walk(TrainedTable(messages, user, scan, prefixLen), Split(post.start), wordLen, true, picks, 0))
  {
    var c := new Chain(prefixLen);
    var cleanbody := ParseScrape(messages, user);
    c.Build(scan(cleanbody));
    var g := c.Generate(wordLen, single, startPick, picks);
    match g
    case NoStartKey =>
      post := NoStartKey;
    case Text(start, text) =>
      if single {
        SingleTextHasNoMarker(c.chain, start, wordLen, picks);
        RemoveAllBounds(text, EndTag);
      }
      post := Text(start, RemoveAll(text, EndTag));
  }
}
