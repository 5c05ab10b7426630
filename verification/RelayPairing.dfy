/** Pairing of the two ends of a relay. A task looks for its partner, then stores its stream, then
    sleeps and clears the entry: three lock acquisitions between which other tasks may run. */
module RelayPairing {
  import opened Wrappers
  import opened Net

  type Stream = nat
  type Uuid = string
  type Peers = map<Uuid, Stream>

  const WAIT: Time := 30 * SECOND

  function Waiting(t: Peers, uuid: Uuid): Option<Stream> {
    if uuid in t then Some(t[uuid]) else None
  }

  class WaitingStreams {
    var peers: Peers

    constructor ()
      ensures peers == map[]
    {
      peers := map[];
    }

    /** Used for the search and for the clean-up after the sleep. */
    method Remove(uuid: Uuid) returns (r: Option<Stream>)
      modifies this
      ensures peers == old(peers) - {uuid} && r == Waiting(old(peers), uuid)
    {
      r := if uuid in peers then Some(peers[uuid]) else None;
      peers := peers - {uuid};
    }

    /** The stream stored before, if any, is closed by being overwritten. */
    method Insert(uuid: Uuid, stream: Stream) returns (closed: Option<Stream>)
      modifies this
      ensures peers == old(peers)[uuid := stream] && closed == Waiting(old(peers), uuid)
    {
      closed := if uuid in peers then Some(peers[uuid]) else None;
      peers := peers[uuid := stream];
    }
  }

  // ---- The interleaved system ----

  /** `searching` and `unpaired` are the streams in the hands of their tasks, before and after the
      search; `pairs` maps the finder to the stream found; `timers` are the sleeping tasks and when
      they wake. */
  datatype State = State(
    uuids: map<Stream, Uuid>,
    searching: set<Stream>,
    unpaired: set<Stream>,
    peers: Peers,
    inserted: map<Stream, Time>,
    pairs: map<Stream, Stream>,
    dropped: set<Stream>,
    timers: map<Stream, Time>)

  datatype Event =
    | Arrive(x: Stream, uuid: Uuid)
    | Search(x: Stream)
    | Insert(x: Stream, now: Time)
    | Expire(x: Stream, now: Time)

  const INITIAL := State(map[], {}, {}, map[], map[], map[], {}, map[])

  predicate Enabled(s: State, e: Event) {
    match e
    case Arrive(x, uuid) => x !in s.uuids && uuid != ""
    case Search(x) => x in s.searching && x in s.uuids
    case Insert(x, _) => x in s.unpaired && x in s.uuids
    case Expire(x, now) => x in s.timers && x in s.uuids && s.timers[x] <= now
  }

  function Drop(s: State, x: Option<Stream>): set<Stream> {
    if x.Some? then s.dropped + {x.value} else s.dropped
  }

  function Step(s: State, e: Event): State
    requires Enabled(s, e)
  {
    match e
    case Arrive(x, uuid) => s.(uuids := s.uuids[x := uuid], searching := s.searching + {x})
    case Search(x) =>
      var found := Waiting(s.peers, s.uuids[x]);
      if found.Some? then
        s.(searching := s.searching - {x}, peers := s.peers - {s.uuids[x]}, pairs := s.pairs[x := found.value])
      else
        s.(searching := s.searching - {x}, unpaired := s.unpaired + {x})
    case Insert(x, now) =>
      s.(unpaired := s.unpaired - {x},
         peers := s.peers[s.uuids[x] := x],
         dropped := Drop(s, Waiting(s.peers, s.uuids[x])),
         inserted := s.inserted[x := now],
         timers := s.timers[x := now + WAIT])
    case Expire(x, _) =>
      s.(peers := s.peers - {s.uuids[x]},
         dropped := Drop(s, Waiting(s.peers, s.uuids[x])),
         timers := s.timers - {x})
  }

  ghost predicate Enableds(s: State, es: seq<Event>)
    decreases |es|
  {
    es == [] || (Enabled(s, es[0]) && Enableds(Step(s, es[0]), es[1..]))
  }

  ghost function Run(s: State, es: seq<Event>): State
    requires Enableds(s, es)
    decreases |es|
  {
    if es == [] then s else Run(Step(s, es[0]), es[1..])
  }

  // ---- Conservation ----

  predicate IsWaiting(s: State, x: Stream)
    requires x in s.uuids
  {
    Waiting(s.peers, s.uuids[x]) == Some(x)
  }

  /** In how many places a stream is; finding and being found count apart. */
  function Places(s: State, x: Stream): nat
    requires x in s.uuids
  {
    (if x in s.searching then 1 else 0) + (if x in s.unpaired then 1 else 0)
    + (if IsWaiting(s, x) then 1 else 0)
    + (if x in s.pairs then 1 else 0) + (if x in s.pairs.Values then 1 else 0)
    + (if x in s.dropped then 1 else 0)
  }

  ghost predicate Conserved(s: State) {
    && s.searching <= s.uuids.Keys && s.unpaired <= s.uuids.Keys && s.dropped <= s.uuids.Keys
    && s.timers.Keys <= s.uuids.Keys && s.pairs.Keys <= s.uuids.Keys && s.pairs.Values <= s.uuids.Keys
    && (forall u | u in s.peers :: s.peers[u] in s.uuids && s.uuids[s.peers[u]] == u)
    && (forall x | x in s.uuids :: Places(s, x) == 1)
  }

  /** Each pair is two different streams with one uuid, and no stream was found twice. */
  ghost predicate PairsMatch(s: State) {
    && (forall x | x in s.pairs :: x in s.uuids && s.pairs[x] in s.uuids && s.pairs[x] != x
                                   && s.uuids[x] == s.uuids[s.pairs[x]] && s.uuids[x] != "")
    && (forall x, y | x in s.pairs && y in s.pairs && s.pairs[x] == s.pairs[y] :: x == y)
  }

  /** A waiting stream's own task still sleeps, and wakes 30 s after the insert. */
  ghost predicate WaitsAreTimed(s: State) {
    forall u | u in s.peers :: var x := s.peers[u];
                               x in s.timers && x in s.inserted && s.timers[x] == s.inserted[x] + WAIT
  }

  ghost predicate Sound(s: State) {
    Conserved(s) && PairsMatch(s) && WaitsAreTimed(s) && forall x | x in s.uuids :: s.uuids[x] != ""
  }

  lemma PairValues(m: map<Stream, Stream>, x: Stream, y: Stream)
    requires x !in m
    ensures m[x := y].Values == m.Values + {y}
  {
    var m' := m[x := y];
    forall v | v in m.Values + {y} ensures v in m'.Values {
      if v == y {
        assert m'[x] == v;
      } else {
        var k :| k in m && m[k] == v;
        assert m'[k] == v;
      }
    }
  }

  lemma ArriveConserves(s: State, e: Event)
    requires Sound(s) && Enabled(s, e) && e.Arrive?
    ensures Conserved(Step(s, e))
  {
    forall x | x in Step(s, e).uuids ensures Places(Step(s, e), x) == 1 {
      assert x in s.uuids ==> Places(s, x) == 1;
    }
  }

  lemma ArriveIsSound(s: State, e: Event)
    requires Sound(s) && Enabled(s, e) && e.Arrive?
    ensures Sound(Step(s, e))
  {
    ArriveConserves(s, e);
  }

  lemma SearchKeepsPlaces(s: State, e: Event, x: Stream)
    requires Sound(s) && Enabled(s, e) && e.Search? && x in s.uuids
    ensures Places(Step(s, e), x) == 1
  {
    var found := Waiting(s.peers, s.uuids[e.x]);
    assert Places(s, e.x) == 1 && Places(s, x) == 1;
    if found.Some? {
      assert Places(s, found.value) == 1;
      PairValues(s.pairs, e.x, found.value);
    }
  }

  lemma SearchConserves(s: State, e: Event)
    requires Sound(s) && Enabled(s, e) && e.Search?
    ensures Conserved(Step(s, e))
  {
    hide Places;
    var found := Waiting(s.peers, s.uuids[e.x]);
    if found.Some? {
      FoundIsNew(s, e);
      PairValues(s.pairs, e.x, found.value);
    }
    forall x | x in Step(s, e).uuids ensures Places(Step(s, e), x) == 1 {
      SearchKeepsPlaces(s, e, x);
    }
  }

  lemma FoundIsNew(s: State, e: Event)
    requires Sound(s) && Enabled(s, e) && e.Search?
    ensures e.x !in s.pairs
  {
    assert Places(s, e.x) == 1;
  }

  lemma SearchPairs(s: State, e: Event)
    requires Sound(s) && Enabled(s, e) && e.Search?
    ensures PairsMatch(Step(s, e))
  {
    var found := Waiting(s.peers, s.uuids[e.x]);
    if found.Some? {
      var f := found.value;
      assert Places(s, f) == 1 && f !in s.pairs.Values;
      assert Places(s, e.x) == 1 && f != e.x;
      forall y | y in s.pairs ensures s.pairs[y] != f {
        assert s.pairs[y] in s.pairs.Values;
      }
    }
  }

  lemma SearchIsSound(s: State, e: Event)
    requires Sound(s) && Enabled(s, e) && e.Search?
    ensures Sound(Step(s, e))
  {
    SearchConserves(s, e);
    SearchPairs(s, e);
    assert WaitsAreTimed(Step(s, e));
  }

  lemma InsertKeepsPlaces(s: State, e: Event, x: Stream)
    requires Sound(s) && Enabled(s, e) && e.Insert? && x in s.uuids
    ensures Places(Step(s, e), x) == 1
  {
    assert Places(s, e.x) == 1 && Places(s, x) == 1;
  }

  lemma InsertConserves(s: State, e: Event)
    requires Sound(s) && Enabled(s, e) && e.Insert?
    ensures Conserved(Step(s, e))
  {
    hide Places;
    forall x | x in Step(s, e).uuids ensures Places(Step(s, e), x) == 1 {
      InsertKeepsPlaces(s, e, x);
    }
  }

  lemma InsertIsSound(s: State, e: Event)
    requires Sound(s) && Enabled(s, e) && e.Insert?
    ensures Sound(Step(s, e))
  {
    InsertConserves(s, e);
    assert Places(s, e.x) == 1;
  }

  lemma ExpireKeepsPlaces(s: State, e: Event, x: Stream)
    requires Sound(s) && Enabled(s, e) && e.Expire? && x in s.uuids
    ensures Places(Step(s, e), x) == 1
  {
    assert Places(s, x) == 1;
  }

  lemma ExpireIsSound(s: State, e: Event)
    requires Sound(s) && Enabled(s, e) && e.Expire?
    ensures Sound(Step(s, e))
  {
    hide Places;
    forall x | x in Step(s, e).uuids ensures Places(Step(s, e), x) == 1 {
      ExpireKeepsPlaces(s, e, x);
    }
  }

  lemma StepIsSound(s: State, e: Event)
    requires Sound(s) && Enabled(s, e)
    ensures Sound(Step(s, e))
  {
    match e
    case Arrive(_, _) => ArriveIsSound(s, e);
    case Search(_) => SearchIsSound(s, e);
    case Insert(_, _) => InsertIsSound(s, e);
    case Expire(_, _) => ExpireIsSound(s, e);
  }

  /** In every interleaving each stream is in exactly one place, pairs match, and every waiting
      stream has its timer pending. */
  lemma {:induction false} PairingIsSound(s: State, es: seq<Event>)
    requires Sound(s) && Enableds(s, es)
    ensures Sound(Run(s, es))
    decreases |es|
  {
    if es == [] {
    } else {
      StepIsSound(s, es[0]);
      PairingIsSound(Step(s, es[0]), es[1..]);
    }
  }

  lemma ReachablePairing(es: seq<Event>)
    requires Enableds(INITIAL, es)
    ensures Sound(Run(INITIAL, es))
  {
    PairingIsSound(INITIAL, es);
  }

  // ---- How a wait ends ----

  /** A waiting stream is found exactly by a search for its uuid, and dropped exactly by any insert
      or any expiry under its uuid, whoever it belongs to. */
  lemma WaitEndsIff(s: State, e: Event, x: Stream)
    requires Sound(s) && Enabled(s, e) && x in s.uuids && IsWaiting(s, x)
    ensures x in Step(s, e).pairs.Values <==> e.Search? && s.uuids[e.x] == s.uuids[x]
    ensures x in Step(s, e).dropped <==> (e.Insert? || e.Expire?) && s.uuids[e.x] == s.uuids[x]
    ensures IsWaiting(Step(s, e), x) <==> e.Arrive? || s.uuids[e.x] != s.uuids[x]
  {
    assert Places(s, x) == 1;
    if e.Search? && Waiting(s.peers, s.uuids[e.x]).Some? {
      assert Places(s, e.x) == 1;
      PairValues(s.pairs, e.x, s.peers[s.uuids[e.x]]);
    }
  }

  /** An insert or the timer of another stream under the same uuid. */
  predicate Disturbs(s: State, e: Event, x: Stream) {
    && (e.Insert? || e.Expire?) && e.x != x
    && e.x in s.uuids && x in s.uuids && s.uuids[e.x] == s.uuids[x]
  }

  /** The stream's own timer. */
  predicate TimesOut(e: Event, x: Stream) {
    e.Expire? && e.x == x
  }

  /** A waiting stream is dropped other than by its own timer exactly when another stream's insert or
      timer disturbs it. */
  lemma DroppedEarlyIff(s: State, e: Event, x: Stream)
    requires Sound(s) && Enabled(s, e) && x in s.uuids && IsWaiting(s, x)
    ensures x in Step(s, e).dropped && !TimesOut(e, x) <==> Disturbs(s, e, x)
    ensures TimesOut(e, x) ==> x in Step(s, e).dropped && e.now >= s.inserted[x] + WAIT
    ensures !TimesOut(e, x) && !Disturbs(s, e, x) ==>
              IsWaiting(Step(s, e), x) || (x in Step(s, e).pairs.Values && e.Search? && s.uuids[e.x] == s.uuids[x])
    ensures x in Step(s, e).uuids && (IsWaiting(Step(s, e), x) ==> Step(s, e).inserted[x] == s.inserted[x])
  {
    assert Places(s, x) == 1;
    WaitEndsIff(s, e, x);
  }

  /** Some step of the run disturbs the stream while it waits. */
  ghost predicate DisturbedWaiting(s: State, es: seq<Event>, x: Stream)
    requires Enableds(s, es)
    decreases |es|
  {
    es != [] && x in s.uuids && IsWaiting(s, x)
    && (Disturbs(s, es[0], x) || DisturbedWaiting(Step(s, es[0]), es[1..], x))
  }

  /** Its own timer fires while it waits, at the time it was set to or later. */
  ghost predicate TimedOutWaiting(s: State, es: seq<Event>, x: Stream, due: Time)
    requires Enableds(s, es)
    decreases |es|
  {
    es != [] && x in s.uuids && IsWaiting(s, x)
    && ((TimesOut(es[0], x) && es[0].now >= due) || TimedOutWaiting(Step(s, es[0]), es[1..], x, due))
  }

  lemma {:induction false} FoundStays(s: State, es: seq<Event>, x: Stream)
    requires Sound(s) && Enableds(s, es) && x in s.pairs.Values
    ensures x in Run(s, es).pairs.Values
    decreases |es|
  {
    if es == [] {
    } else {
      StepIsSound(s, es[0]);
      FoundStaysOneStep(s, es[0], x);
      FoundStays(Step(s, es[0]), es[1..], x);
    }
  }

  lemma FoundStaysOneStep(s: State, e: Event, x: Stream)
    requires Sound(s) && Enabled(s, e) && x in s.pairs.Values
    ensures x in Step(s, e).pairs.Values
  {
    if e.Search? && Waiting(s.peers, s.uuids[e.x]).Some? {
      assert Places(s, e.x) == 1;
      PairValues(s.pairs, e.x, s.peers[s.uuids[e.x]]);
    }
  }

  lemma {:induction false} DroppedStays(s: State, es: seq<Event>, x: Stream)
    requires Enableds(s, es) && x in s.dropped
    ensures x in Run(s, es).dropped
    decreases |es|
  {
    if es == [] {
    } else {
      DroppedStays(Step(s, es[0]), es[1..], x);
    }
  }

  lemma OnePlace(s: State, x: Stream)
    requires Sound(s) && x in s.uuids
    ensures x in s.dropped ==> !IsWaiting(s, x) && x !in s.pairs.Values
    ensures IsWaiting(s, x) ==> x !in s.pairs.Values
  {
    assert Places(s, x) == 1;
  }

  /** Over any run a waiting stream ends up waiting or found, unless another stream's insert or timer
      disturbs its wait or its own timer fires 30 s after its insert: exactly then it is dropped. */
  lemma {:induction false} WaitLastsIff(s: State, es: seq<Event>, x: Stream)
    requires Sound(s) && Enableds(s, es) && x in s.uuids && IsWaiting(s, x)
    ensures var s' := Run(s, es);
            && x in s'.uuids
            && (x in s'.dropped
                <==> DisturbedWaiting(s, es, x) || TimedOutWaiting(s, es, x, s.inserted[x] + WAIT))
            && (x !in s'.dropped <==> IsWaiting(s', x) || x in s'.pairs.Values)
    decreases |es|
  {
    hide Sound, Step, IsWaiting, Disturbs, Enabled;
    if es == [] {
      OnePlace(s, x);
    } else {
      var e, t := es[0], Step(s, es[0]);
      OnePlace(s, x);
      StepIsSound(s, e);
      DroppedEarlyIff(s, e, x);
      PairingIsSound(t, es[1..]);
      UuidsStay(t, es[1..], x);
      OnePlace(Run(t, es[1..]), x);
      OnePlace(t, x);
      if IsWaiting(t, x) {
        WaitLastsIff(t, es[1..], x);
      } else if x in t.dropped {
        DroppedStays(t, es[1..], x);
      } else {
        FoundStays(t, es[1..], x);
      }
    }
  }

  lemma {:induction false} UuidsStay(s: State, es: seq<Event>, x: Stream)
    requires Enableds(s, es) && x in s.uuids
    ensures x in Run(s, es).uuids
    decreases |es|
  {
    if es == [] {
    } else {
      UuidsStay(Step(s, es[0]), es[1..], x);
    }
  }

  lemma OneStep(s: State, e: Event, s': State, es: seq<Event>)
    requires Enabled(s, e) && Step(s, e) == s' && Enableds(s', es)
    ensures Enableds(s, [e] + es) && Run(s, [e] + es) == Run(s', es)
  {
    assert ([e] + es)[1..] == es;
  }

  // A run in which the timer of a stream that was paired ends a later wait under the same uuid:
  // stream 1 waits from 0 s and is found by 2, stream 3 waits from 20 s and is dropped at 30 s.

  const FIRST_PAIR: seq<Event> :=
    [Arrive(1, "u"), Search(1), Insert(1, 0), Arrive(2, "u"), Search(2)]

  const LATER_STREAM: seq<Event> :=
    [Arrive(3, "u"), Search(3), Insert(3, 20 * SECOND), Expire(1, 30 * SECOND)]

  const PAIRED := State(map[1 := "u", 2 := "u"], {}, {}, map[], map[1 := 0], map[2 := 1], {},
                        map[1 := 30 * SECOND])

  const CUT_SHORT := State(map[1 := "u", 2 := "u", 3 := "u"], {}, {}, map[], map[1 := 0, 3 := 20 * SECOND],
                           map[2 := 1], {3}, map[3 := 50 * SECOND])

  lemma LaterStreamIsCutShort()
    ensures Enableds(PAIRED, LATER_STREAM) && Run(PAIRED, LATER_STREAM) == CUT_SHORT
  {
    var s1 := PAIRED.(uuids := map[1 := "u", 2 := "u", 3 := "u"], searching := {3});
    var s2 := s1.(searching := {}, unpaired := {3});
    var s3 := s2.(unpaired := {}, peers := map["u" := 3], inserted := map[1 := 0, 3 := 20 * SECOND],
                  timers := map[1 := 30 * SECOND, 3 := 50 * SECOND]);
    var es: seq<Event> := [];
    OneStep(s3, Expire(1, 30 * SECOND), CUT_SHORT, es);
    es := [Expire(1, 30 * SECOND)] + es;
    OneStep(s2, Insert(3, 20 * SECOND), s3, es);
    es := [Insert(3, 20 * SECOND)] + es;
    OneStep(s1, Search(3), s2, es);
    es := [Search(3)] + es;
    OneStep(PAIRED, Arrive(3, "u"), s1, es);
    assert [Arrive(3, "u")] + es == LATER_STREAM;
  }

  lemma FirstPairThen(es: seq<Event>)
    requires Enableds(PAIRED, es)
    ensures Enableds(INITIAL, FIRST_PAIR + es) && Run(INITIAL, FIRST_PAIR + es) == Run(PAIRED, es)
  {
    var s1 := INITIAL.(uuids := map[1 := "u"], searching := {1});
    var s2 := s1.(searching := {}, unpaired := {1});
    var s3 := s2.(unpaired := {}, peers := map["u" := 1], inserted := map[1 := 0],
                  timers := map[1 := 30 * SECOND]);
    var s4 := s3.(uuids := map[1 := "u", 2 := "u"], searching := {2});
    var fs := es;
    OneStep(s4, Search(2), PAIRED, fs);
    fs := [Search(2)] + fs;
    OneStep(s3, Arrive(2, "u"), s4, fs);
    fs := [Arrive(2, "u")] + fs;
    OneStep(s2, Insert(1, 0), s3, fs);
    fs := [Insert(1, 0)] + fs;
    OneStep(s1, Search(1), s2, fs);
    fs := [Search(1)] + fs;
    OneStep(INITIAL, Arrive(1, "u"), s1, fs);
    assert [Arrive(1, "u")] + fs == FIRST_PAIR + es;
  }

  lemma StaleTimerDropsLaterStream()
    ensures Enableds(INITIAL, FIRST_PAIR + LATER_STREAM)
    ensures Run(INITIAL, FIRST_PAIR + LATER_STREAM) == CUT_SHORT
    ensures 3 in CUT_SHORT.dropped && CUT_SHORT.timers[3] == CUT_SHORT.inserted[3] + WAIT == 50 * SECOND
    ensures LATER_STREAM[3] == Expire(1, 30 * SECOND) && CUT_SHORT.pairs == map[2 := 1]
  {
    LaterStreamIsCutShort();
    FirstPairThen(LATER_STREAM);
  }
}
