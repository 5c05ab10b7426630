/** The cursor service: its polling callback, and all interleavings of its thread with connections that
    come and go. */
module CursorService {
  import opened Wrappers
  import opened CursorStream
  import opened PubSub

  /** `cache` keeps the message of every cursor handle fetched since the last reset. */
  datatype Cursor = Cursor(hcursor: nat, data: Message, cache: map<nat, Message>)

  /** Before any cursor is known an empty message stands for it. */
  const EMPTY := Other(0)
  const NO_CURSOR := Cursor(0, EMPTY, map[])

  /** What the system says about the cursor; `image` is what fetching its bitmap gives, if it works. */
  datatype Probe = Failed | Unknown | Handle(h: nat, image: Option<Image>)

  /** The cursor state after a probe and the message to broadcast, or nothing if an error ends the
      callback. */
  function AfterProbe(c: Cursor, p: Probe): Option<(Cursor, Option<Message>)> {
    match p
    case Failed => None
    case Unknown => Some((c, None))
    case Handle(h, image) =>
      if h == c.hcursor then Some((c, None))
      else if h in c.cache then Some((Cursor(h, c.cache[h], c.cache), Some(c.cache[h])))
      else if image.None? then None
      else var msg := CursorData(h, image.value); Some((Cursor(h, msg, c.cache[h := msg]), Some(msg)))
  }

  function Broadcast(v: Service, msg: Option<Message>): Service {
    if msg.Some? then AfterSendShared(v, msg.value) else v
  }

  /** One undisturbed run of the callback. */
  function AfterCallback(v: Service, c: Cursor, p: Probe): (Service, Cursor, bool) {
    match AfterProbe(c, p)
    case None => (v, c, false)
    case Some((c', msg)) => (AfterSnapshot(Broadcast(v, msg), Some(c'.data)), c', true)
  }

  class StateCursor {
    var hcursor: nat
    var cursorData: Message
    var cachedCursorData: map<nat, Message>

    constructor ()
      ensures Value() == NO_CURSOR
    {
      hcursor, cursorData, cachedCursorData := 0, EMPTY, map[];
    }

    function Value(): Cursor
      reads this
    {
      Cursor(hcursor, cursorData, cachedCursorData)
    }

    method Reset()
      modifies this
      ensures Value() == NO_CURSOR
    {
      hcursor, cursorData, cachedCursorData := 0, EMPTY, map[];
    }

    method RunCursor(sp: ServiceInner, p: Probe) returns (ok: bool)
      requires sp.Valid()
      modifies this, sp, sp.subscribes.Values, sp.newSubscribes.Values
      ensures sp.Valid()
      ensures (sp.View(), Value(), ok) == AfterCallback(old(sp.View()), old(Value()), p)
    {
      hide ServiceInner.Valid, ServiceInner.View, AfterSendShared, AfterSnapshot, Sound;
      if p.Failed? {
        return false;
      }
      if p.Handle? && p.h != hcursor {
        var msg;
        if p.h in cachedCursorData {
          msg := cachedCursorData[p.h];
        } else if p.image.None? {
          return false;
        } else {
          msg := CursorData(p.h, p.image.value);
          cachedCursorData := cachedCursorData[p.h := msg];
        }
        hcursor := p.h;
        sp.SendShared(msg);
        cursorData := msg;
      }
      sp.Snapshot(Some(cursorData));
      return true;
    }
  }

  // ---- Interleavings ----

  /** Where the service thread is between two acquisitions of the service's lock. */
  datatype Pc = Top | Resetting | Calling | AtSnapshot | Sending | Swapping

  /** How a live subscriber got there: how many broadcasts had been made by the last reset and by the
      promotion, the message of the snapshot, and whether it joined between the snapshot's send and its
      promotion. */
  datatype Promotion = Promotion(resetAt: nat, at: nat, snapshot: Message, late: bool)

  datatype Ended = Ended(log: seq<Message>, sent: Sent)

  /** `logs`, `broadcasts`, `promoted`, `late` and `ended` record the history: what was handed to each
      current subscriber, all broadcasts and how many there were at the last reset, how each live one
      was promoted, who joined too late for the snapshot under way, and the subscriptions that are over. */
  datatype State = State(
    svc: Service,
    cursor: Cursor,
    pc: Pc,
    mayReset: bool,
    logs: map<nat, seq<Message>>,
    broadcasts: seq<Message>,
    resetAt: nat,
    promoted: map<nat, Promotion>,
    late: set<nat>,
    ended: seq<Ended>)

  datatype Event =
    | Join(id: nat)
    | Leave(id: nat)
    | Turn
    | Reset
    | Call(p: Probe)
    | CheckPending
    | SendPending
    | Swap

  const INITIAL :=
    State(Service(map[], map[], true, true, true), NO_CURSOR, Top, false, map[], [], 0, map[], {}, [])

  predicate Enabled(s: State, e: Event) {
    match e
    case Join(_) => true
    case Leave(_) => true
    case Turn => s.pc == Top
    case Reset => s.pc == Resetting
    case Call(_) => s.pc == Calling
    case CheckPending => s.pc == AtSnapshot
    case SendPending => s.pc == Sending
    case Swap => s.pc == Swapping
  }

  function Current(s: State, id: nat): Option<Sent> {
    if id in s.svc.live then Some(s.svc.live[id])
    else if id in s.svc.pending then Some(s.svc.pending[id])
    else None
  }

  /** The subscription of an id is over. */
  function EndOf(s: State, id: nat): seq<Ended> {
    if Current(s, id).Some? && id in s.logs then [Ended(s.logs[id], Current(s, id).value)] else []
  }

  function LogEach(logs: map<nat, seq<Message>>, ids: set<nat>, msg: Message): map<nat, seq<Message>> {
    map id | id in logs :: if id in ids then logs[id] + [msg] else logs[id]
  }

  function Step(s: State, e: Event): State
    requires Enabled(s, e)
  {
    match e
    case Join(id) =>
      if id in s.svc.live then s
      else s.(svc := AfterSubscribe(s.svc, id),
              logs := s.logs[id := []],
              late := if s.pc == Swapping then s.late + {id} else s.late,
              ended := s.ended + EndOf(s, id))
    case Leave(id) =>
      s.(svc := AfterUnsubscribe(s.svc, id), logs := s.logs - {id}, ended := s.ended + EndOf(s, id))
    case Turn =>
      if s.svc.live != map[] || s.svc.pending != map[] then s.(pc := Calling)
      else if s.mayReset then s.(pc := Resetting)
      else s
    case Reset =>
      s.(cursor := NO_CURSOR, pc := Top, mayReset := false, resetAt := |s.broadcasts|)
    case Call(p) =>
      (match AfterProbe(s.cursor, p)
       case None => s.(pc := Top, mayReset := true)
       case Some((c, msg)) =>
         if msg.None? then s.(cursor := c, pc := AtSnapshot)
         else s.(cursor := c, pc := AtSnapshot, svc := AfterSendShared(s.svc, msg.value),
                 logs := LogEach(s.logs, s.svc.live.Keys, msg.value),
                 broadcasts := s.broadcasts + [msg.value]))
    case CheckPending =>
      if s.svc.pending == map[] then s.(pc := Top, mayReset := true) else s.(pc := Sending)
    case SendPending =>
      s.(pc := Swapping, svc := AfterSendNew(s.svc, s.cursor.data),
         logs := LogEach(s.logs, s.svc.pending.Keys, s.cursor.data), late := {})
    case Swap =>
      s.(pc := Top, mayReset := true, svc := AfterSwap(s.svc),
         promoted := map id | id in s.svc.live.Keys + s.svc.pending.Keys ::
           if id in s.svc.pending then Promotion(s.resetAt, |s.broadcasts|, s.cursor.data, id in s.late)
           else if id in s.promoted then s.promoted[id]
           else Promotion(0, 0, EMPTY, false))
  }

  ghost predicate Enableds(s: State, es: seq<Event>)
    decreases |es|
  {
    es == [] || (Enabled(s, es[0]) && Enableds(Step(s, es[0]), es[1..]))
  }

  ghost function Run(s: State, es: seq<Event>): State
    requires Enableds(s, es)
    decreases |es|
  {
    if es == [] then s else Run(Step(s, es[0]), es[1..])
  }

  /** Undisturbed, the steps of the thread from the call on are one run of the callback. */
  lemma CallbackIsItsSteps(s: State, p: Probe)
    requires s.pc == Calling
    ensures var (v, c, ok) := AfterCallback(s.svc, s.cursor, p);
            var s1 := Step(s, Call(p));
            if !ok then s1.svc == v && s1.cursor == c && s1.pc == Top
            else
              && s1.pc == AtSnapshot && s1.cursor == c
              && var s2 := Step(s1, CheckPending);
              if s2.pc == Top then s2.svc == v && s2.cursor == c
              else Step(Step(s2, SendPending), Swap).svc == v && Step(Step(s2, SendPending), Swap).cursor == c
  {
  }

  // ---- Every subscription is decoded correctly ----

  /** What each subscriber sent is what its log compresses to. */
  ghost predicate Logged(s: State) {
    && Sound(s.svc) && s.svc.needSnapshot && s.svc.caching
    && s.logs.Keys == s.svc.live.Keys + s.svc.pending.Keys
    && (forall id | id in s.svc.live :: s.svc.live[id] == SendAll(true, s.logs[id]))
    && (forall id | id in s.svc.pending :: s.svc.pending[id] == SendAll(true, s.logs[id]))
  }

  /** The message is the cached one of its id, or not about a cursor at all. */
  predicate Genuine(msg: Message, cache: map<nat, Message>) {
    msg.Other? || (msg.CursorData? && msg.id in cache && cache[msg.id] == msg)
  }

  predicate AllGenuine(log: seq<Message>, cache: map<nat, Message>) {
    forall k | 0 <= k < |log| :: Genuine(log[k], cache)
  }

  /** The cache fixes one image per id for as long as any subscriber remembers it. */
  ghost predicate Fixed(s: State) {
    && (forall h | h in s.cursor.cache :: s.cursor.cache[h].CursorData? && s.cursor.cache[h].id == h)
    && Genuine(s.cursor.data, s.cursor.cache)
    && (forall id | id in s.logs :: AllGenuine(s.logs[id], s.cursor.cache))
    && (s.pc == Resetting ==> forall id | id in s.logs :: s.logs[id] == [])
  }

  ghost predicate EndedWell(s: State) {
    forall k | 0 <= k < |s.ended| ::
      s.ended[k].sent == SendAll(true, s.ended[k].log) && NoIds(s.ended[k].log) && Consistent(s.ended[k].log)
  }

  ghost predicate Faithful(s: State) {
    Logged(s) && Fixed(s) && EndedWell(s)
  }

  lemma GenuineIsConsistent(log: seq<Message>, cache: map<nat, Message>)
    requires AllGenuine(log, cache)
    ensures NoIds(log) && Consistent(log)
  {
    forall j, k | 0 <= j < k < |log| ensures SameImage(log[j], log[k]) {
      assert Genuine(log[j], cache) && Genuine(log[k], cache);
    }
  }

  lemma OneMoreHanded(log: seq<Message>, msg: Message)
    ensures SendAll(true, log + [msg]) == AfterSend(SendAll(true, log), true, msg)
  {
    assert (log + [msg])[..|log|] == log;
  }

  lemma EndsWell(s: State, id: nat)
    requires Faithful(s)
    ensures forall k | 0 <= k < |s.ended + EndOf(s, id)| ::
              var d := (s.ended + EndOf(s, id))[k];
              d.sent == SendAll(true, d.log) && NoIds(d.log) && Consistent(d.log)
  {
    if id in s.logs {
      GenuineIsConsistent(s.logs[id], s.cursor.cache);
    }
  }

  lemma JoinIsFaithful(s: State, id: nat)
    requires Faithful(s)
    ensures Faithful(Step(s, Join(id)))
  {
    EndsWell(s, id);
  }

  lemma LeaveIsFaithful(s: State, id: nat)
    requires Faithful(s)
    ensures Faithful(Step(s, Leave(id)))
  {
    EndsWell(s, id);
  }

  /** A probe only adds to the cache, and what it broadcasts is cached. */
  lemma ProbeKeepsCache(c: Cursor, p: Probe)
    requires AfterProbe(c, p).Some?
    requires Genuine(c.data, c.cache)
    requires forall h | h in c.cache :: c.cache[h].CursorData? && c.cache[h].id == h
    ensures var (c', msg) := AfterProbe(c, p).value;
            && (forall h | h in c.cache :: h in c'.cache && c'.cache[h] == c.cache[h])
            && (forall h | h in c'.cache :: c'.cache[h].CursorData? && c'.cache[h].id == h)
            && Genuine(c'.data, c'.cache) && (msg.Some? ==> Genuine(msg.value, c'.cache))
  {
  }

  lemma StaysGenuine(log: seq<Message>, cache: map<nat, Message>, cache': map<nat, Message>)
    requires AllGenuine(log, cache) && forall h | h in cache :: h in cache' && cache'[h] == cache[h]
    ensures AllGenuine(log, cache')
  {
    forall k | 0 <= k < |log| ensures Genuine(log[k], cache') {
      assert Genuine(log[k], cache);
    }
  }

  lemma CallIsLogged(s: State, p: Probe)
    requires Logged(s) && s.pc == Calling
    ensures Logged(Step(s, Call(p)))
  {
    var s' := Step(s, Call(p));
    var r := AfterProbe(s.cursor, p);
    if r.Some? && r.value.1.Some? {
      forall id | id in s'.svc.live ensures s'.svc.live[id] == SendAll(true, s'.logs[id]) {
        OneMoreHanded(s.logs[id], r.value.1.value);
      }
    }
  }

  lemma CallIsFixed(s: State, p: Probe)
    requires Faithful(s) && s.pc == Calling
    ensures Fixed(Step(s, Call(p)))
  {
    var s' := Step(s, Call(p));
    if AfterProbe(s.cursor, p).Some? {
      ProbeKeepsCache(s.cursor, p);
      forall id | id in s'.logs ensures AllGenuine(s'.logs[id], s'.cursor.cache) {
        StaysGenuine(s.logs[id], s.cursor.cache, s'.cursor.cache);
      }
    }
  }

  lemma CallIsFaithful(s: State, p: Probe)
    requires Faithful(s) && s.pc == Calling
    ensures Faithful(Step(s, Call(p)))
  {
    CallIsLogged(s, p);
    CallIsFixed(s, p);
    hide Logged, Fixed;
  }

  lemma SendPendingIsLogged(s: State)
    requires Logged(s) && s.pc == Sending
    ensures Logged(Step(s, SendPending))
  {
    var s' := Step(s, SendPending);
    forall id | id in s'.svc.pending ensures s'.svc.pending[id] == SendAll(true, s'.logs[id]) {
      OneMoreHanded(s.logs[id], s.cursor.data);
    }
  }

  lemma SendPendingIsFixed(s: State)
    requires Faithful(s) && s.pc == Sending
    ensures Fixed(Step(s, SendPending))
  {
    hide Logged, EndedWell;
    var s' := Step(s, SendPending);
    forall id | id in s'.logs ensures AllGenuine(s'.logs[id], s'.cursor.cache) {
      assert AllGenuine(s.logs[id], s.cursor.cache);
    }
  }

  lemma SendPendingIsFaithful(s: State)
    requires Faithful(s) && s.pc == Sending
    ensures Faithful(Step(s, SendPending))
  {
    SendPendingIsLogged(s);
    SendPendingIsFixed(s);
    hide Logged, Fixed;
  }

  lemma StepIsFaithful(s: State, e: Event)
    requires Faithful(s) && Enabled(s, e)
    ensures Faithful(Step(s, e))
  {
    match e
    case Join(id) => JoinIsFaithful(s, id);
    case Leave(id) => LeaveIsFaithful(s, id);
    case Call(p) => CallIsFaithful(s, p);
    case SendPending => SendPendingIsFaithful(s);
    case Turn =>
    case Reset =>
    case CheckPending =>
    case Swap =>
  }

  lemma {:induction false} RunIsFaithful(s: State, es: seq<Event>)
    requires Faithful(s) && Enableds(s, es)
    ensures Faithful(Run(s, es))
    decreases |es|
  {
    if es == [] {
    } else {
      StepIsFaithful(s, es[0]);
      RunIsFaithful(Step(s, es[0]), es[1..]);
    }
  }

  /** In every interleaving of cursor changes, errors, joins, leaves and resets, whatever images a
      receiver has left from before, it shows exactly the messages handed to its subscription. */
  lemma ReceiversSeeTheirStream(es: seq<Event>, images: map<nat, Image>, id: nat, k: nat)
    requires Enableds(INITIAL, es)
    ensures var s := Run(INITIAL, es);
            Current(s, id).Some? ==> id in s.logs && ReceiveAll(images, Current(s, id).value.wire).shown == s.logs[id]
    ensures var s := Run(INITIAL, es);
            k < |s.ended| ==> ReceiveAll(images, s.ended[k].sent.wire).shown == s.ended[k].log
  {
    RunIsFaithful(INITIAL, es);
    var s := Run(INITIAL, es);
    if id in s.logs {
      GenuineIsConsistent(s.logs[id], s.cursor.cache);
      RecoveredIffConsistent(images, s.logs[id]);
    }
    if k < |s.ended| {
      RecoveredIffConsistent(images, s.ended[k].log);
    }
  }

  /** Were the state reset beside a live subscriber that remembers an image, and did its handle come
      back with another image, the subscriber would be shown the first one. */
  lemma ResetWithSubscriberWouldLose(s: State, id: nat, k: nat, image: Image, images: map<nat, Image>)
    requires Logged(s) && s.pc == Resetting && id in s.svc.live && NoIds(s.logs[id])
    requires k < |s.logs[id]| && s.logs[id][k].CursorData?
    requires s.logs[id][k].id != NO_CURSOR.hcursor && s.logs[id][k].image != image
    ensures var es := [Reset, Turn, Call(Handle(s.logs[id][k].id, Some(image)))];
            && Enableds(s, es)
            && var s' := Run(s, es);
            && id in s'.logs && Current(s', id).Some?
            && ReceiveAll(images, Current(s', id).value.wire).shown != s'.logs[id]
  {
    var msg := CursorData(s.logs[id][k].id, image);
    var log := s.logs[id] + [msg];
    ResetThenCall(s, Handle(msg.id, Some(image)));
    NewImageIsHanded(AfterReset(s), id, msg);
    assert !SameImage(log[k], log[|log| - 1]);
    RecoveredIffConsistent(images, log);
  }

  function AfterReset(s: State): State {
    s.(cursor := NO_CURSOR, pc := Calling, mayReset := false, resetAt := |s.broadcasts|)
  }

  lemma ResetThenCall(s: State, p: Probe)
    requires s.pc == Resetting && s.svc.live != map[]
    ensures Enableds(s, [Reset, Turn, Call(p)])
    ensures Run(s, [Reset, Turn, Call(p)]) == Step(AfterReset(s), Call(p))
  {
    OneStep(AfterReset(s), Call(p), []);
    assert [Call(p)] + [] == [Call(p)];
    OneStep(Step(s, Reset), Turn, [Call(p)]);
    OneStep(s, Reset, [Turn] + [Call(p)]);
    assert [Reset] + ([Turn] + [Call(p)]) == [Reset, Turn, Call(p)];
  }

  lemma NewImageIsHanded(s: State, id: nat, msg: Message)
    requires Logged(s) && s.pc == Calling && s.cursor == NO_CURSOR && id in s.svc.live
    requires msg.CursorData? && msg.id != NO_CURSOR.hcursor
    ensures var s' := Step(s, Call(Handle(msg.id, Some(msg.image))));
            && id in s'.logs && s'.logs[id] == s.logs[id] + [msg]
            && Current(s', id) == Some(SendAll(true, s'.logs[id]))
  {
    CallIsLogged(s, Handle(msg.id, Some(msg.image)));
    NewImageIsLogged(s, id, msg);
    hide Step, SendAll, Sound, AfterProbe;
  }

  lemma NewImageIsLogged(s: State, id: nat, msg: Message)
    requires s.pc == Calling && s.cursor == NO_CURSOR && id in s.svc.live && id in s.logs
    requires msg.CursorData? && msg.id != NO_CURSOR.hcursor
    ensures var s' := Step(s, Call(Handle(msg.id, Some(msg.image))));
            id in s'.svc.live && id in s'.logs && s'.logs[id] == s.logs[id] + [msg]
  {
  }

  lemma OneStepTo(s: State, e: Event, s': State, es: seq<Event>)
    requires Enabled(s, e) && Step(s, e) == s' && Enableds(s', es)
    ensures Enableds(s, [e] + es) && Run(s, [e] + es) == Run(s', es)
  {
    OneStep(s, e, es);
  }

  lemma OneStep(s: State, e: Event, es: seq<Event>)
    requires Enabled(s, e) && Enableds(Step(s, e), es)
    ensures Enableds(s, [e] + es) && Run(s, [e] + es) == Run(Step(s, e), es)
  {
    assert ([e] + es)[1..] == es;
  }

  // ---- Every subscriber gets the snapshot and then every broadcast ----

  ghost predicate PendingWait(s: State) {
    forall id | id in s.svc.pending && id in s.logs ::
      s.logs[id] == if s.pc == Swapping && id !in s.late then [s.cursor.data] else []
  }

  /** The state's message is the last one broadcast since the reset, or empty if there was none. */
  predicate UpToDate(data: Message, broadcasts: seq<Message>, resetAt: nat) {
    && resetAt <= |broadcasts|
    && data == if resetAt == |broadcasts| then EMPTY else broadcasts[|broadcasts| - 1]
  }

  /** A promoted subscriber has the snapshot, which repeats the last broadcast since the reset, unless it
      joined after that was sent, and all broadcasts since its promotion, in order, each once. */
  predicate Delivered(p: Promotion, log: seq<Message>, broadcasts: seq<Message>) {
    && p.at <= |broadcasts|
    && UpToDate(p.snapshot, broadcasts[..p.at], p.resetAt)
    && log == (if p.late then [] else [p.snapshot]) + broadcasts[p.at..]
  }

  ghost predicate AllDelivered(s: State) {
    forall id | id in s.svc.live && id in s.logs ::
      id in s.promoted && Delivered(s.promoted[id], s.logs[id], s.broadcasts)
  }

  lemma StaysUpToDate(s: State, e: Event)
    requires UpToDate(s.cursor.data, s.broadcasts, s.resetAt) && Enabled(s, e)
    ensures UpToDate(Step(s, e).cursor.data, Step(s, e).broadcasts, Step(s, e).resetAt)
  {
  }

  lemma OneMoreDelivered(p: Promotion, log: seq<Message>, broadcasts: seq<Message>, msg: Message)
    requires Delivered(p, log, broadcasts)
    ensures Delivered(p, log + [msg], broadcasts + [msg])
  {
    assert (broadcasts + [msg])[p.at..] == broadcasts[p.at..] + [msg];
    assert (broadcasts + [msg])[..p.at] == broadcasts[..p.at];
  }

  lemma CallDelivers(s: State, p: Probe)
    requires Logged(s) && AllDelivered(s) && s.pc == Calling
    ensures AllDelivered(Step(s, Call(p)))
  {
    var r := AfterProbe(s.cursor, p);
    if r.Some? && r.value.1.Some? {
      forall id | id in s.svc.live && id in s.logs
        ensures Delivered(s.promoted[id], s.logs[id] + [r.value.1.value], s.broadcasts + [r.value.1.value])
      {
        OneMoreDelivered(s.promoted[id], s.logs[id], s.broadcasts, r.value.1.value);
      }
    }
  }

  lemma SwapDelivers(s: State)
    requires Logged(s) && PendingWait(s) && AllDelivered(s) && s.pc == Swapping
    requires UpToDate(s.cursor.data, s.broadcasts, s.resetAt)
    ensures AllDelivered(Step(s, Swap))
  {
    assert s.broadcasts[|s.broadcasts|..] == [] && s.broadcasts[..|s.broadcasts|] == s.broadcasts;
    forall id | id in s.svc.live + s.svc.pending
      ensures Delivered(Step(s, Swap).promoted[id], s.logs[id], s.broadcasts)
    {
      if id in s.svc.pending {
        assert id !in s.svc.live;
      } else {
        assert Delivered(s.promoted[id], s.logs[id], s.broadcasts);
      }
    }
  }

  lemma StepWaits(s: State, e: Event)
    requires Logged(s) && PendingWait(s) && Enabled(s, e)
    ensures PendingWait(Step(s, e))
  {
    match e
    case SendPending =>
      forall id | id in s.svc.pending && id in s.logs
        ensures s.logs[id] + [s.cursor.data] == [s.cursor.data]
      {
        assert s.logs[id] == [];
      }
    case Join(_) =>
    case Leave(_) =>
    case Call(_) =>
    case Turn =>
    case Reset =>
    case CheckPending =>
    case Swap =>
  }

  lemma StepDelivers(s: State, e: Event)
    requires Logged(s) && PendingWait(s) && AllDelivered(s) && Enabled(s, e)
    requires UpToDate(s.cursor.data, s.broadcasts, s.resetAt)
    ensures AllDelivered(Step(s, e))
  {
    match e
    case Call(p) => CallDelivers(s, p);
    case Swap => SwapDelivers(s);
    case Join(_) =>
    case Leave(_) =>
    case SendPending => assert s.svc.live.Keys !! s.svc.pending.Keys;
    case Turn =>
    case Reset =>
    case CheckPending =>
  }

  lemma {:induction false} RunDelivers(s: State, es: seq<Event>)
    requires Faithful(s) && PendingWait(s) && AllDelivered(s) && Enableds(s, es)
    requires UpToDate(s.cursor.data, s.broadcasts, s.resetAt)
    ensures PendingWait(Run(s, es)) && AllDelivered(Run(s, es))
    decreases |es|
  {
    if es == [] {
    } else {
      StaysUpToDate(s, es[0]);
      StepWaits(s, es[0]);
      StepDelivers(s, es[0]);
      StepIsFaithful(s, es[0]);
      RunDelivers(Step(s, es[0]), es[1..]);
    }
  }

  /** In every interleaving each live subscriber was handed the snapshot of its promotion, missing only
      if it joined between that snapshot's send and the promotion, and then every broadcast since. */
  lemma SnapshotThenEveryBroadcast(es: seq<Event>, id: nat)
    requires Enableds(INITIAL, es)
    requires id in Run(INITIAL, es).svc.live
    ensures var s := Run(INITIAL, es);
            id in s.logs && id in s.promoted && Delivered(s.promoted[id], s.logs[id], s.broadcasts)
  {
    RunIsFaithful(INITIAL, es);
    RunDelivers(INITIAL, es);
  }

  /** The snapshot for 1 is sent and the promotion is still to come. */
  function SnapshotSent(image: Image): State {
    var msg := CursorData(7, image);
    State(Service(map[], map[1 := Sent(map[7 := CursorId(7)], [msg])], true, true, true),
          Cursor(7, msg, map[7 := msg]), Swapping, false, map[1 := [msg]], [msg], 0, map[], {}, [])
  }

  lemma FirstSnapshotThen(image: Image, es: seq<Event>)
    requires Enableds(SnapshotSent(image), es)
    ensures var fs := [Join(1), Turn, Call(Handle(7, Some(image))), CheckPending, SendPending] + es;
            Enableds(INITIAL, fs) && Run(INITIAL, fs) == Run(SnapshotSent(image), es)
  {
    var call := Call(Handle(7, Some(image)));
    var s2 := CalledFirst();
    var s3 := AfterCall(image);
    var fs := [CheckPending] + ([SendPending] + es);
    FirstPendingThen(image, es);
    OneStepTo(s2, call, s3, fs) by {
      assert SendEach(map[], true, CursorData(7, image)) == map[];
    }
    hide AfterCall;
    OneStepTo(s2.(pc := Top), Turn, s2, [call] + fs) by {
      assert 1 in s2.svc.pending;
    }
    OneStepTo(INITIAL, Join(1), s2.(pc := Top), [Turn] + ([call] + fs)) by {
      assert INITIAL.ended + EndOf(INITIAL, 1) == [];
    }
    assert [Join(1)] + ([Turn] + ([call] + fs)) == [Join(1), Turn, call, CheckPending, SendPending] + es;
  }

  lemma FirstPendingThen(image: Image, es: seq<Event>)
    requires Enableds(SnapshotSent(image), es)
    ensures var fs := [CheckPending] + ([SendPending] + es);
            Enableds(AfterCall(image), fs) && Run(AfterCall(image), fs) == Run(SnapshotSent(image), es)
  {
    var s3 := AfterCall(image);
    OneStepTo(s3.(pc := Sending), SendPending, SnapshotSent(image), es) by {
      SnapshotIsSent(image);
    }
    OneStepTo(s3, CheckPending, s3.(pc := Sending), [SendPending] + es) by {
      assert 1 in s3.svc.pending;
    }
  }

  function CalledFirst(): State {
    INITIAL.(svc := INITIAL.svc.(pending := map[1 := NOTHING]), logs := map[1 := []], pc := Calling)
  }

  function AfterCall(image: Image): State {
    var msg := CursorData(7, image);
    CalledFirst().(cursor := Cursor(7, msg, map[7 := msg]), pc := AtSnapshot, broadcasts := [msg])
  }

  lemma SnapshotIsSent(image: Image)
    ensures Step(AfterCall(image).(pc := Sending), SendPending) == SnapshotSent(image)
  {
    var msg := CursorData(7, image);
    var sent := AfterSend(NOTHING, true, msg);
    assert sent == Sent(map[7 := CursorId(7)], [msg]) by {
      assert NOTHING.wire + [msg] == [msg];
    }
    var logs: map<nat, seq<Message>> := map[1 := []];
    assert SendEach(map[1 := NOTHING], true, msg) == map[1 := sent];
    assert LogEach(logs, {1}, msg) == map[1 := [msg]] by {
      assert logs[1] + [msg] == [msg];
    }
    assert map[1 := NOTHING].Keys == {1};
  }

  /** The exception is real: 2 joins between the send of the snapshot for 1 and the promotion, and is
      live without anything handed to it. */
  lemma LateJoinerHasNoSnapshot(image: Image)
    ensures var es := [Join(1), Turn, Call(Handle(7, Some(image))), CheckPending, SendPending] + [Join(2), Swap];
            && Enableds(INITIAL, es)
            && var s := Run(INITIAL, es);
            && s.svc.live.Keys == {1, 2} && s.svc.pending == map[]
            && s.logs == map[1 := [CursorData(7, image)], 2 := []]
  {
    var s := SnapshotSent(image);
    OneStep(Step(s, Join(2)), Swap, []);
    OneStep(s, Join(2), [Swap] + []);
    assert [Join(2)] + ([Swap] + []) == [Join(2), Swap];
    FirstSnapshotThen(image, [Join(2), Swap]);
  }
}
