/** The length-prefixed messages of the keyboard service and the loop that reads them in chunks. */
module Framing {
  import opened Net

  type Msg = seq<byte>

  function Concat(chunks: seq<Bytes>): Bytes {
    if chunks == [] then [] else Concat(chunks[..|chunks| - 1]) + chunks[|chunks| - 1]
  }

  /** All complete messages of a buffer, and what is left of it. */
  function Parse(buf: Bytes): (seq<Msg>, Bytes) {
    if buf == [] || |buf| < buf[0] as nat + 1 then ([], buf)
    else
      var n := buf[0] as nat + 1;
      var (msgs, rest) := Parse(buf[n..]);
      ([buf[1..n]] + msgs, rest)
  }

  /** The chunks received before the connection breaks, which shows as an empty one. */
  function Received(chunks: seq<Bytes>): seq<Bytes> {
    if chunks == [] || chunks[0] == [] then [] else [chunks[0]] + Received(chunks[1..])
  }

  /** The messages before the first one that is not text, which ends the service. */
  function Readable(msgs: seq<Msg>, isText: Msg -> bool): (r: seq<Msg>)
    ensures |r| <= |msgs| && r == msgs[..|r|]
    ensures forall k | 0 <= k < |r| :: isText(r[k])
    ensures |r| < |msgs| ==> !isText(msgs[|r|])
  {
    if msgs == [] || !isText(msgs[0]) then [] else [msgs[0]] + Readable(msgs[1..], isText)
  }

  predicate AllText(msgs: seq<Msg>, isText: Msg -> bool) {
    forall k | 0 <= k < |msgs| :: isText(msgs[k])
  }

  /** The service loop: however the bytes are cut into chunks, the messages it handles are those of
      parsing all of them at once up to the first that is not text, and without such a one its
      leftover is that of parsing all of them as well. */
  method Loop(chunks: seq<Bytes>, isText: Msg -> bool) returns (msgs: seq<Msg>, buf: Bytes, failed: bool)
    ensures var (all, rest) := Parse(Concat(Received(chunks)));
            && msgs == Readable(all, isText)
            && (failed <==> |msgs| < |all|)
            && (!failed ==> msgs == all && buf == rest)
  {
    msgs, buf, failed := [], [], false;
    assert Parse(Concat(chunks[..0])) == ([], []);
    hide Parse, Concat, Received, Readable, AllText;
    var i := 0;
    while i < |chunks|
      invariant 0 <= i <= |chunks|
      invariant forall k | 0 <= k < i :: chunks[k] != []
      invariant (msgs, buf) == Parse(Concat(chunks[..i])) && AllText(msgs, isText)
    {
      var data := chunks[i];
      if data == [] {
        ReceivedIs(chunks, i);
        ReadableAll(msgs, isText);
        return;
      }
      ghost var before := msgs;
      OneMoreChunk(chunks, i, msgs, buf);
      ghost var now := Parse(buf + data).0;
      var more;
      more, buf, failed := TakeMessages(buf + data, isText);
      msgs := msgs + more;
      i := i + 1;
      TextAppends(before, more, isText);
      if failed {
        FirstUnreadable(chunks, i, before, now, more, isText);
        return;
      }
    }
    ReceivedIs(chunks, i);
    ReadableAll(msgs, isText);
  }

  /** The inner loop: the complete messages of the buffer up to one that is not text. */
  method TakeMessages(buffer: Bytes, isText: Msg -> bool) returns (msgs: seq<Msg>, buf: Bytes, failed: bool)
    ensures AllText(msgs, isText)
    ensures !failed ==> (msgs, buf) == Parse(buffer)
    ensures failed ==> var all := Parse(buffer).0;
                       |msgs| < |all| && msgs == all[..|msgs|] && !isText(all[|msgs|])
  {
    msgs, buf, failed := [], buffer, false;
    assert [] + Parse(buf).0 == Parse(buf).0;
    while buf != []
      invariant Parse(buffer) == (msgs + Parse(buf).0, Parse(buf).1) && AllText(msgs, isText)
      decreases |buf|
    {
      var n := buf[0] as nat;
      n := n + 1;
      if |buf| < n {
        break;
      }
      if !isText(buf[1..n]) {
        return msgs, buf, true;
      }
      assert msgs + ([buf[1..n]] + Parse(buf[n..]).0) == msgs + [buf[1..n]] + Parse(buf[n..]).0;
      msgs := msgs + [buf[1..n]];
      buf := buf[n..];
    }
    assert Parse(buf) == ([], buf) && msgs + [] == msgs;
  }

  lemma OneMoreChunk(chunks: seq<Bytes>, i: nat, msgs: seq<Msg>, buf: Bytes)
    requires i < |chunks| && (msgs, buf) == Parse(Concat(chunks[..i]))
    ensures var (more, rest) := Parse(buf + chunks[i]);
            Parse(Concat(chunks[..i + 1])) == (msgs + more, rest)
  {
    assert chunks[..i + 1][..i] == chunks[..i];
    ParseInTwoParts(Concat(chunks[..i]), chunks[i]);
  }

  lemma TextAppends(a: seq<Msg>, b: seq<Msg>, isText: Msg -> bool)
    requires AllText(a, isText) && AllText(b, isText)
    ensures AllText(a + b, isText)
  {
  }

  lemma ReadableAll(msgs: seq<Msg>, isText: Msg -> bool)
    requires AllText(msgs, isText)
    ensures Readable(msgs, isText) == msgs
  {
  }

  lemma {:induction false} ReadableStops(msgs: seq<Msg>, k: nat, isText: Msg -> bool)
    requires k < |msgs| && (forall j | 0 <= j < k :: isText(msgs[j])) && !isText(msgs[k])
    ensures Readable(msgs, isText) == msgs[..k]
    decreases k
  {
    if k == 0 {
    } else {
      ReadableStops(msgs[1..], k - 1, isText);
      assert msgs[..k] == [msgs[0]] + msgs[1..][..k - 1];
    }
  }

  /** The first message of the chunks so far that is not text is the first of all. */
  lemma FirstUnreadable(chunks: seq<Bytes>, i: nat, before: seq<Msg>, now: seq<Msg>, more: seq<Msg>,
                        isText: Msg -> bool)
    requires i <= |chunks| && forall k | 0 <= k < i :: chunks[k] != []
    requires Parse(Concat(chunks[..i])).0 == before + now
    requires AllText(before, isText) && AllText(more, isText)
    requires |more| < |now| && more == now[..|more|] && !isText(now[|more|])
    ensures var all := Parse(Concat(Received(chunks))).0;
            before + more == Readable(all, isText) && |before + more| < |all|
  {
    var rest := ReceivedBeyond(chunks, i);
    ParseInTwoParts(Concat(chunks[..i]), rest);
    var all := Parse(Concat(Received(chunks))).0;
    TextAppends(before, more, isText);
    assert before + more == all[..|before + more|];
    assert forall j | 0 <= j < |before + more| :: all[j] == (before + more)[j];
    ReadableStops(all, |before + more|, isText);
  }

  lemma {:induction false} ReceivedBeyond(chunks: seq<Bytes>, i: nat) returns (rest: Bytes)
    requires i <= |chunks| && forall k | 0 <= k < i :: chunks[k] != []
    ensures Concat(Received(chunks)) == Concat(chunks[..i]) + rest
    decreases i
  {
    if i == 0 {
      rest := Concat(Received(chunks));
      assert chunks[..0] == [] && [] + rest == rest;
    } else {
      var cs := chunks[1..];
      rest := ReceivedBeyond(cs, i - 1);
      ConcatFirst(chunks[0], Received(cs));
      ConcatFirst(chunks[0], cs[..i - 1]);
      assert chunks[..i] == [chunks[0]] + cs[..i - 1];
      ConcatAssociates(chunks[0], Concat(cs[..i - 1]), rest);
    }
  }

  lemma {:induction false} ConcatFirst(c: Bytes, cs: seq<Bytes>)
    ensures Concat([c] + cs) == c + Concat(cs)
    decreases |cs|
  {
    if cs == [] {
      assert [c] + cs == [c] && Concat([c]) == [] + c;
    } else {
      var last := cs[|cs| - 1];
      ConcatFirst(c, cs[..|cs| - 1]);
      assert ([c] + cs)[..|cs|] == [c] + cs[..|cs| - 1];
      ConcatAssociates(c, Concat(cs[..|cs| - 1]), last);
    }
  }

  lemma {:induction false} ReceivedIs(chunks: seq<Bytes>, i: nat)
    requires i <= |chunks| && (forall k | 0 <= k < i :: chunks[k] != []) && (i < |chunks| ==> chunks[i] == [])
    ensures Received(chunks) == chunks[..i]
    decreases i
  {
    if i <= 0 {
    } else {
      ReceivedIs(chunks[1..], i - 1);
      assert chunks[..i] == [chunks[0]] + chunks[1..][..i - 1];
    }
  }

  /** Parsing can stop anywhere and go on with the leftover and the bytes that follow. */
  lemma {:induction false} ParseInTwoParts(a: Bytes, b: Bytes)
    ensures var (msgs, rest) := Parse(a);
            Parse(a + b) == (msgs + Parse(rest + b).0, Parse(rest + b).1)
    decreases |a|
  {
    if a == [] || |a| < a[0] as nat + 1 {
      assert [] + Parse(a + b).0 == Parse(a + b).0;
    } else {
      var n := a[0] as nat + 1;
      assert (a + b)[n..] == a[n..] + b && (a + b)[1..n] == a[1..n];
      ParseInTwoParts(a[n..], b);
      var (msgs, rest) := Parse(a[n..]);
      assert [a[1..n]] + (msgs + Parse(rest + b).0) == [a[1..n]] + msgs + Parse(rest + b).0;
    }
  }

  // ---- Framing and reading back ----

  const MAX_LENGTH := 255

  function Frame(msg: Msg): Bytes
    requires |msg| <= MAX_LENGTH
  {
    [|msg| as byte] + msg
  }

  predicate AllShort(msgs: seq<Msg>) {
    forall k | 0 <= k < |msgs| :: |msgs[k]| <= MAX_LENGTH
  }

  function FrameAll(msgs: seq<Msg>): Bytes
    requires AllShort(msgs)
  {
    if msgs == [] then [] else Frame(msgs[0]) + FrameAll(msgs[1..])
  }

  /** Empty, or shorter than the message it starts with. */
  predicate Incomplete(buf: Bytes) {
    buf != [] ==> |buf| <= buf[0] as nat
  }

  /** Nothing is lost or made up: the messages, framed again, and the leftover are the input. */
  lemma {:induction false} ParseKeepsEverything(buf: Bytes)
    ensures AllShort(Parse(buf).0) && Incomplete(Parse(buf).1)
    ensures FrameAll(Parse(buf).0) + Parse(buf).1 == buf
    decreases |buf|
  {
    if buf == [] || |buf| < buf[0] as nat + 1 {
    } else {
      var n := buf[0] as nat + 1;
      var (msgs, rest) := Parse(buf[n..]);
      ParseKeepsEverything(buf[n..]);
      FrameOfPrefix(buf, n);
      FrameOneMore(buf[1..n], msgs);
      ConcatAssociates(buf[..n], FrameAll(msgs), rest);
      assert buf[..n] + buf[n..] == buf;
    }
  }

  lemma ConcatAssociates(a: Bytes, b: Bytes, c: Bytes)
    ensures a + b + c == a + (b + c)
  {
  }

  lemma FrameOneMore(msg: Msg, msgs: seq<Msg>)
    requires |msg| <= MAX_LENGTH && AllShort(msgs)
    ensures AllShort([msg] + msgs) && FrameAll([msg] + msgs) == Frame(msg) + FrameAll(msgs)
  {
    assert ([msg] + msgs)[1..] == msgs;
  }

  lemma FrameOfPrefix(buf: Bytes, n: nat)
    requires buf != [] && n == buf[0] as nat + 1 <= |buf|
    ensures Frame(buf[1..n]) == buf[..n]
  {
  }

  /** Framed messages with an incomplete rest are read back, and every buffer reads as just one such
      pair. */
  lemma {:induction false} ParseUndoesFraming(msgs: seq<Msg>, rest: Bytes)
    requires AllShort(msgs) && Incomplete(rest)
    ensures Parse(FrameAll(msgs) + rest) == (msgs, rest)
    decreases |msgs|
  {
    var buf := FrameAll(msgs) + rest;
    if msgs == [] {
      assert buf == rest;
    } else {
      var n := |msgs[0]| + 1;
      assert buf == Frame(msgs[0]) + (FrameAll(msgs[1..]) + rest);
      assert buf[n..] == FrameAll(msgs[1..]) + rest && buf[1..n] == msgs[0];
      ParseUndoesFraming(msgs[1..], rest);
      assert [msgs[0]] + msgs[1..] == msgs;
    }
  }

  /** Sent in any chunks, a list of messages arrives as it is. */
  lemma ChunksDoNotMatter(msgs: seq<Msg>, chunks: seq<Bytes>)
    requires AllShort(msgs) && Concat(Received(chunks)) == FrameAll(msgs)
    ensures Parse(Concat(Received(chunks))) == (msgs, [])
  {
    ParseUndoesFraming(msgs, []);
    assert FrameAll(msgs) + [] == FrameAll(msgs);
  }
}
