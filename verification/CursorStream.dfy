/** The stream of cursor images to one subscriber: repeated images are replaced by their ids, and the
    receiver puts them back. */
module CursorStream {
  import opened Wrappers

  type Image = seq<nat>

  /** `Other` is any message that is not about a cursor image. */
  datatype Message =
    | CursorData(id: nat, image: Image)
    | CursorId(id: nat)
    | Other(content: nat)

  /** A subscriber's cache and what it has sent to its connection. */
  datatype Sent = Sent(cached: map<nat, Message>, wire: seq<Message>)

  const NOTHING := Sent(map[], [])

  /** One message handed to a caching subscriber. */
  function SendCached(s: Sent, msg: Message): Sent {
    if !msg.CursorData? then s.(wire := s.wire + [msg])
    else if msg.id in s.cached then s.(wire := s.wire + [s.cached[msg.id]])
    else Sent(s.cached[msg.id := CursorId(msg.id)], s.wire + [msg])
  }

  function AfterSend(s: Sent, caching: bool, msg: Message): Sent {
    if caching then SendCached(s, msg) else s.(wire := s.wire + [msg])
  }

  /** All messages handed to a subscriber since it subscribed. */
  function SendAll(caching: bool, handed: seq<Message>): Sent {
    if handed == [] then NOTHING
    else AfterSend(SendAll(caching, handed[..|handed| - 1]), caching, handed[|handed| - 1])
  }

  /** A subscriber: the connection itself, or, with `caching`, the one of the cursor service. */
  class Subscriber {
    const id: nat
    const caching: bool
    var cached: map<nat, Message>
    var wire: seq<Message>

    constructor (id: nat, caching: bool)
      ensures this.id == id && this.caching == caching && Value() == NOTHING
    {
      this.id, this.caching := id, caching;
      cached, wire := map[], [];
    }

    function Value(): Sent
      reads this
    {
      Sent(cached, wire)
    }

    method Send(msg: Message)
      modifies this
      ensures Value() == AfterSend(old(Value()), caching, msg)
      ensures !caching || !msg.CursorData? ==> wire == old(wire) + [msg] && cached == old(cached)
    {
      if caching && msg.CursorData? {
        if msg.id in cached {
          wire := wire + [cached[msg.id]];
        } else {
          wire := wire + [msg];
          cached := cached[msg.id := CursorId(msg.id)];
        }
      } else {
        wire := wire + [msg];
      }
    }
  }

  // ---- The receiver ----

  /** The images a receiver keeps by id, and what it has shown. */
  datatype Receiver = Receiver(images: map<nat, Image>, shown: seq<Message>)

  /** An id whose image is missing shows nothing. */
  function Receive(r: Receiver, msg: Message): Receiver {
    match msg
    case CursorData(id, image) => Receiver(r.images[id := image], r.shown + [msg])
    case CursorId(id) =>
      if id in r.images then r.(shown := r.shown + [CursorData(id, r.images[id])]) else r
    case Other(_) => r.(shown := r.shown + [msg])
  }

  /** What a receiver that starts with some images left from earlier makes of a stream. */
  function ReceiveAll(images: map<nat, Image>, wire: seq<Message>): Receiver {
    if wire == [] then Receiver(images, [])
    else Receive(ReceiveAll(images, wire[..|wire| - 1]), wire[|wire| - 1])
  }

  // ---- Compression preserves meaning ----

  predicate NoIds(handed: seq<Message>) {
    forall k | 0 <= k < |handed| :: !handed[k].CursorId?
  }

  predicate SameImage(a: Message, b: Message) {
    a.CursorData? && b.CursorData? && a.id == b.id ==> a.image == b.image
  }

  /** One image per id. */
  predicate Consistent(handed: seq<Message>) {
    forall j, k | 0 <= j < k < |handed| :: SameImage(handed[j], handed[k])
  }

  /** The image an id first came with. */
  function FirstImage(handed: seq<Message>, id: nat): Option<Image> {
    if handed == [] then None
    else
      var before, last := FirstImage(handed[..|handed| - 1], id), handed[|handed| - 1];
      if before.None? && last.CursorData? && last.id == id then Some(last.image) else before
  }

  lemma {:induction false} FirstImageIs(handed: seq<Message>, k: nat)
    requires k < |handed| && handed[k].CursorData? && Consistent(handed)
    ensures FirstImage(handed, handed[k].id) == Some(handed[k].image)
    decreases |handed|
  {
    var before, id := handed[..|handed| - 1], handed[k].id;
    if k < |handed| - 1 {
      FirstImageIs(before, k);
    } else if FirstImage(before, id).Some? {
      var j := FirstImageAt(before, id);
      assert SameImage(handed[j], handed[k]);
    }
  }

  lemma {:induction false} FirstImageAt(handed: seq<Message>, id: nat) returns (j: nat)
    requires FirstImage(handed, id).Some?
    ensures j < |handed| && handed[j] == CursorData(id, FirstImage(handed, id).value)
    decreases |handed|
  {
    var before := handed[..|handed| - 1];
    if FirstImage(before, id).Some? {
      j := FirstImageAt(before, id);
    } else {
      j := |handed| - 1;
    }
  }

  /** The receiver has the first image of every id in the subscriber's cache and has shown as many
      messages as were handed in. */
  lemma {:induction false} ReceiverKeepsUp(images: map<nat, Image>, handed: seq<Message>)
    requires NoIds(handed)
    ensures var s := SendAll(true, handed);
            var r := ReceiveAll(images, s.wire);
            && |r.shown| == |handed|
            && forall id :: id in s.cached <==> FirstImage(handed, id).Some?
    ensures var s := SendAll(true, handed);
            var r := ReceiveAll(images, s.wire);
            forall id | id in s.cached ::
              s.cached[id] == CursorId(id) && id in r.images && FirstImage(handed, id) == Some(r.images[id])
    decreases |handed|
  {
    if handed == [] {
    } else {
      ReceiverKeepsUp(images, handed[..|handed| - 1]);
      LastShown(images, handed);
    }
  }

  /** The last step of subscriber and receiver. */
  lemma LastShown(images: map<nat, Image>, handed: seq<Message>)
    requires handed != []
    ensures var s := SendAll(true, handed[..|handed| - 1]);
            var s' := SendAll(true, handed);
            && s'.wire[..|s.wire|] == s.wire && |s'.wire| == |s.wire| + 1
            && ReceiveAll(images, s'.wire) == Receive(ReceiveAll(images, s.wire), s'.wire[|s.wire|])
  {
  }

  lemma ConsistentOneMore(handed: seq<Message>)
    requires handed != []
    ensures var before, last := handed[..|handed| - 1], handed[|handed| - 1];
            Consistent(handed) <==>
              Consistent(before) && (last.CursorData? ==> FirstImage(handed, last.id) == Some(last.image))
  {
    var before, last := handed[..|handed| - 1], handed[|handed| - 1];
    if Consistent(handed) {
      if last.CursorData? {
        FirstImageIs(handed, |before|);
      }
      forall j, k | 0 <= j < k < |before| ensures SameImage(before[j], before[k]) {
        assert SameImage(handed[j], handed[k]);
      }
    }
    if Consistent(before) && (last.CursorData? ==> FirstImage(handed, last.id) == Some(last.image)) {
      forall j, k | 0 <= j < k < |handed| ensures SameImage(handed[j], handed[k]) {
        if k < |before| {
          assert SameImage(before[j], before[k]);
        } else if before[j].CursorData? && last.CursorData? && before[j].id == last.id {
          FirstImageIs(before, j);
        }
      }
    }
  }

  /** What the receiver shows for the last message. */
  lemma ShownLast(images: map<nat, Image>, handed: seq<Message>)
    requires handed != [] && NoIds(handed)
    ensures var before, last := handed[..|handed| - 1], handed[|handed| - 1];
            var shown := ReceiveAll(images, SendAll(true, before).wire).shown;
            && |shown| == |before|
            && (last.CursorData? ==> FirstImage(handed, last.id).Some?)
            && ReceiveAll(images, SendAll(true, handed).wire).shown
               == shown + [if last.CursorData? then CursorData(last.id, FirstImage(handed, last.id).value) else last]
  {
    var before, last := handed[..|handed| - 1], handed[|handed| - 1];
    ReceiverKeepsUp(images, before);
    LastShown(images, handed);
  }

  /** The receiver recovers the stream handed in exactly when no id was handed in with two images,
      whatever images it had left from before. */
  lemma {:induction false} RecoveredIffConsistent(images: map<nat, Image>, handed: seq<Message>)
    requires NoIds(handed)
    ensures ReceiveAll(images, SendAll(true, handed).wire).shown == handed <==> Consistent(handed)
    decreases |handed|
  {
    if handed == [] {
    } else {
      var before, last := handed[..|handed| - 1], handed[|handed| - 1];
      RecoveredIffConsistent(images, before);
      ShownLast(images, handed);
      ConsistentOneMore(handed);
      AppendEquals(ReceiveAll(images, SendAll(true, before).wire).shown,
                   if last.CursorData? then CursorData(last.id, FirstImage(handed, last.id).value) else last,
                   before, last);
      assert before + [last] == handed;
    }
  }

  lemma AppendEquals<T>(a: seq<T>, x: T, b: seq<T>, y: T)
    requires |a| == |b|
    ensures a + [x] == b + [y] <==> a == b && x == y
  {
    if a + [x] == b + [y] {
      assert a == (a + [x])[..|a|] == (b + [y])[..|b|] == b;
      assert (a + [x])[|a|] == (b + [y])[|b|];
    }
  }

  /** An id is never sent before its image in the same subscription. */
  lemma {:induction false} IdsFollowData(handed: seq<Message>, k: nat)
    requires NoIds(handed) && k < |SendAll(true, handed).wire| && SendAll(true, handed).wire[k].CursorId?
    ensures var wire := SendAll(true, handed).wire;
            exists j :: 0 <= j < k && wire[j].CursorData? && wire[j].id == wire[k].id
    decreases |handed|
  {
    var before := handed[..|handed| - 1];
    LastShown(map[], handed);
    var w, w' := SendAll(true, before).wire, SendAll(true, handed).wire;
    assert forall i | 0 <= i < |w| :: w'[..|w|][i] == w'[i];
    if k < |w| {
      IdsFollowData(before, k);
      var j :| 0 <= j < k && w[j].CursorData? && w[j].id == w[k].id;
      assert w'[j].CursorData? && w'[j].id == w'[k].id;
    } else {
      ReceiverKeepsUp(map[], before);
      var j := CachedWasSent(before, w'[k].id);
      assert w'[j].CursorData? && w'[j].id == w'[k].id;
    }
  }

  lemma {:induction false} CachedWasSent(handed: seq<Message>, id: nat) returns (j: nat)
    requires NoIds(handed) && id in SendAll(true, handed).cached
    ensures j < |SendAll(true, handed).wire|
    ensures SendAll(true, handed).wire[j].CursorData? && SendAll(true, handed).wire[j].id == id
    decreases |handed|
  {
    var before := handed[..|handed| - 1];
    LastShown(map[], handed);
    var w, w' := SendAll(true, before).wire, SendAll(true, handed).wire;
    if id in SendAll(true, before).cached {
      j := CachedWasSent(before, id);
      assert w'[..|w|][j] == w'[j];
    } else {
      j := |w|;
    }
  }

  // ---- What goes out ----

  /** An image of this id was handed in before. */
  predicate SentBefore(handed: seq<Message>, k: nat)
    requires k < |handed|
  {
    handed[k].CursorData? && exists j | 0 <= j < k :: handed[j].CursorData? && handed[j].id == handed[k].id
  }

  lemma SentBeforeIsCached(handed: seq<Message>)
    requires handed != [] && NoIds(handed)
    ensures var before, last := handed[..|handed| - 1], handed[|handed| - 1];
            SentBefore(handed, |handed| - 1) <==>
              last.CursorData? && last.id in SendAll(true, before).cached
  {
    var before, last := handed[..|handed| - 1], handed[|handed| - 1];
    ReceiverKeepsUp(map[], before);
    if last.CursorData? && FirstImage(before, last.id).Some? {
      var j := FirstImageAt(before, last.id);
      assert handed[j].CursorData? && handed[j].id == last.id;
    }
    if SentBefore(handed, |handed| - 1) {
      var j :| 0 <= j < |before| && handed[j].CursorData? && handed[j].id == last.id;
      FirstImageSome(before, j);
    }
  }

  lemma {:induction false} FirstImageSome(handed: seq<Message>, k: nat)
    requires k < |handed| && handed[k].CursorData?
    ensures FirstImage(handed, handed[k].id).Some?
    decreases |handed|
  {
    if k == |handed| - 1 {
    } else {
      FirstImageSome(handed[..|handed| - 1], k);
    }
  }

  /** A caching subscriber sends one message for each handed in: its id for an image whose id was handed
      in before, anything else as it is. */
  lemma {:induction false} WireIs(handed: seq<Message>, k: nat)
    requires NoIds(handed) && k < |handed|
    ensures |SendAll(true, handed).wire| == |handed|
    ensures SendAll(true, handed).wire[k] == if SentBefore(handed, k) then CursorId(handed[k].id) else handed[k]
    decreases |handed|
  {
    var before := handed[..|handed| - 1];
    LastShown(map[], handed);
    ReceiverKeepsUp(map[], before);
    if k < |before| {
      WireIs(before, k);
      assert SendAll(true, handed).wire[..|before|][k] == SendAll(true, handed).wire[k];
      assert SentBefore(before, k) <==> SentBefore(handed, k) by {
        assert forall j | 0 <= j <= k :: before[j] == handed[j];
      }
    } else {
      SentBeforeIsCached(handed);
      if before != [] {
        WireIs(before, 0);
      }
    }
  }

  /** One that does not cache sends everything as it is. */
  lemma {:induction false} PlainWireIs(handed: seq<Message>)
    ensures SendAll(false, handed) == Sent(map[], handed)
    decreases |handed|
  {
    if handed == [] {
    } else {
      PlainWireIs(handed[..|handed| - 1]);
      assert handed[..|handed| - 1] + [handed[|handed| - 1]] == handed;
    }
  }
}
