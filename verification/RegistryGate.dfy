/** The registration gate over runs: the rate it allows, and exactly which registrations pass. */
module RegistryGate {
  import opened Wrappers
  import opened Net
  import opened PeerTable
  import opened Peers
  import opened Registry
  import opened RegistryRuns
  import IpBlocker

  // ---- At most three registrations in less than seven seconds ----

  ghost predicate AcceptsFor(s: State, e: Event, id: string) {
    Accepts(s, e) && e.rk.id == id
  }

  ghost function AcceptCount(s: State, es: seq<Event>, id: string): nat
    decreases |es|
  {
    if es == [] then 0
    else (if AcceptsFor(s, es[0], id) then 1 else 0) + AcceptCount(Step(s, es[0]), es[1..], id)
  }

  /** All registrations fall in the seven seconds from `start`, and the server does not restart. */
  predicate InGateWindow(es: seq<Event>, start: Time) {
    forall k | 0 <= k < |es| ::
      !es[k].Restart? && (es[k].Register? ==> start <= es[k].env.now < start + 7 * SECOND)
  }

  ghost predicate GatesBounded(s: State) {
    forall id | id in s.cache :: s.cache[id].regCount <= 3
  }

  lemma RegisterOnePeer(s: State, e: Event)
    requires e.Register?
    ensures ReachesMap(s, e) ==>
              var c := LookupOr(s.cache, s.table, e.rk.id, e.env.now, e.env.readOk);
              && e.rk.id in Step(s, e).cache
              && Step(s, e).cache == c[e.rk.id := Step(s, e).cache[e.rk.id]]
              && var p, p' := c[e.rk.id], Step(s, e).cache[e.rk.id];
              if Accepts(s, e) then
                && Gate(p.regCount, p.regTime, e.env.now) == Some((p'.regCount, p'.regTime))
                && var gated := p.(regCount := p'.regCount, regTime := p'.regTime);
                if Judge(p, e.rk, e.addr.ip) == Keep then p' == gated
                else p' == Rebound(gated, e.addr, e.rk.uuid, e.rk.pk, e.env.now).(guid := p'.guid)
              else p' == p
    ensures !ReachesMap(s, e) ==> Step(s, e).cache == s.cache && !Accepts(s, e)
  {
    RegisterIsBind(s, e);
    if ReachesMap(s, e) {
      BindOnePeer(LookupOr(s.cache, s.table, e.rk.id, e.env.now, e.env.readOk), s.table, e.rk, e.addr, e.env);
    }
  }

  /** A step changes the `reg_pk` record of a peer only by accepting its registration. */
  lemma GateStep(s: State, e: Event, id: string)
    requires !e.Restart? && id in s.cache
    ensures var p := s.cache[id];
            && id in Step(s, e).cache
            && var p' := Step(s, e).cache[id];
            if AcceptsFor(s, e, id) then Gate(p.regCount, p.regTime, e.env.now) == Some((p'.regCount, p'.regTime))
            else p'.regCount == p.regCount && p'.regTime == p.regTime
  {
    if e.Register? {
      RegisterOnePeer(s, e);
    }
  }

  lemma GateOfNewPeer(s: State, e: Event, id: string)
    requires id !in s.cache && id in Step(s, e).cache
    ensures var p := Step(s, e).cache[id];
            if AcceptsFor(s, e, id) then p.regCount == 1 && p.regTime == e.env.now else p.regCount == 0
  {
    if e.Register? {
      RegisterOnePeer(s, e);
    }
  }

  lemma GatesStayBounded(s: State, e: Event)
    requires GatesBounded(s)
    ensures GatesBounded(Step(s, e))
  {
    if !e.Restart? {
      forall id | id in Step(s, e).cache ensures Step(s, e).cache[id].regCount <= 3 {
        if id in s.cache {
          GateStep(s, e, id);
        } else {
          GateOfNewPeer(s, e, id);
        }
      }
    }
  }

  lemma {:induction false} GatesBoundedInRuns(s: State, es: seq<Event>)
    requires GatesBounded(s)
    ensures GatesBounded(Run(s, es))
    decreases |es|
  {
    if es == [] {
    } else {
      GatesStayBounded(s, es[0]);
      GatesBoundedInRuns(Step(s, es[0]), es[1..]);
    }
  }

  lemma {:induction false} AcceptsAfterTouch(s: State, es: seq<Event>, id: string, start: Time)
    requires InGateWindow(es, start)
    requires id in s.cache && start <= s.cache[id].regTime && s.cache[id].regCount <= 3
    ensures AcceptCount(s, es, id) <= 3 - s.cache[id].regCount
    decreases |es|
  {
    if es == [] {
    } else {
      GateStep(s, es[0], id);
      AcceptsAfterTouch(Step(s, es[0]), es[1..], id, start);
    }
  }

  lemma {:induction false} AcceptsInWindow(s: State, es: seq<Event>, id: string, start: Time)
    requires GatesBounded(s) && InGateWindow(es, start)
    ensures AcceptCount(s, es, id) <= 3
    decreases |es|
  {
    if es == [] {
    } else {
      var s' := Step(s, es[0]);
      GatesStayBounded(s, es[0]);
      if AcceptsFor(s, es[0], id) {
        RegisterIsBind(s, es[0]);
        if id in s.cache {
          GateStep(s, es[0], id);
        } else {
          GateOfNewPeer(s, es[0], id);
        }
        AcceptsAfterTouch(s', es[1..], id, start);
      } else {
        AcceptsInWindow(s', es[1..], id, start);
      }
    }
  }

  /** In any run, an interval shorter than 7 s without a restart accepts at most three registrations
      of an id. */
  lemma RegistrationRateLimit(es: seq<Event>, i: nat, j: nat, id: string, start: Time)
    requires i <= j <= |es| && InGateWindow(es[i..j], start)
    ensures AcceptCount(Run(INITIAL, es[..i]), es[i..j], id) <= 3
  {
    GatesBoundedInRuns(INITIAL, es[..i]);
    AcceptsInWindow(Run(INITIAL, es[..i]), es[i..j], id, start);
  }

  /** A peer and its limiter entry after n registrations at one instant. */
  function AfterRegistrations(rk: PkRequest, addr: SocketAddr, guid: Bytes, n: nat, messages: nat): State {
    State(map[rk.id := PeerRec(addr, 0, guid, rk.uuid, rk.pk, addr.ip, n, 0)],
          map[guid := Row(rk.id, rk.uuid, rk.pk, addr.ip)],
          map[addr.ip := IpBlocker.Entry(messages, 0, if messages == 0 then {} else {rk.id}, 0)])
  }

  predicate WellFormed(rk: PkRequest) {
    rk.uuid != [] && rk.pk != [] && Utf8Length(rk.id) >= MIN_ID_LENGTH
  }

  lemma FirstIsAccepted(rk: PkRequest, addr: SocketAddr, guid: Bytes)
    requires WellFormed(rk) && guid != []
    ensures RegisterPk(INITIAL, rk, addr, Env(0, guid, true, true))
         == (AfterRegistrations(rk, addr, guid, 1, 0), Accepted)
  {
    var s, env := AfterRegistrations(rk, addr, guid, 1, 0), Env(0, guid, true, true);
    var found := LookupOr(map[], map[], rk.id, 0, true);
    assert Find(map[], rk.id).None? && found == map[rk.id := DefaultPeer(0)];
    assert IpBlocker.CheckIp(map[], addr.ip, rk.id, 0) == (s.blocker, true);
    assert Gate(0, 0, 0) == Some((1, 0));
    var (c, t, reply) := Bind(found, map[], rk, addr, env);
    assert c[rk.id] == s.cache[rk.id] && c.Keys == {rk.id} && reply == Accepted;
    assert c == s.cache && t == s.table;
  }

  lemma NextIsAcceptedIff(rk: PkRequest, addr: SocketAddr, guid: Bytes, n: nat)
    requires WellFormed(rk) && guid != [] && 1 <= n <= 3
    ensures RegisterPk(AfterRegistrations(rk, addr, guid, n, n - 1), rk, addr, Env(0, guid, true, true))
         == if n < 3 then (AfterRegistrations(rk, addr, guid, n + 1, n), Accepted)
            else (AfterRegistrations(rk, addr, guid, n, n), TooFrequent)
  {
    var s := AfterRegistrations(rk, addr, guid, n, n - 1);
    var entry := IpBlocker.Entry(n, 0, {rk.id}, 0);
    assert {} + {rk.id} == {rk.id} && s.blocker[addr.ip := entry] == map[addr.ip := entry];
    assert IpBlocker.CheckEntry(s.blocker[addr.ip], rk.id, 0) == (entry, true);
    assert IpBlocker.CheckIp(s.blocker, addr.ip, rk.id, 0)
        == (AfterRegistrations(rk, addr, guid, n, n).blocker, true);
    assert LookupOr(s.cache, s.table, rk.id, 0, true) == s.cache;
    assert Judge(s.cache[rk.id], rk, addr.ip) == Keep;
    if n < 3 {
      assert s.cache[rk.id := s.cache[rk.id].(regCount := n + 1, regTime := 0)]
          == AfterRegistrations(rk, addr, guid, n + 1, n).cache;
    }
  }

  /** Neither number can be improved: of four registrations at one instant three are accepted, and the
      next is 7 s later. */
  lemma RegistrationRateLimitIsReached(rk: PkRequest, addr: SocketAddr, guid: Bytes)
    requires WellFormed(rk) && guid != []
    ensures var e := Register(rk, addr, Env(0, guid, true, true));
            && AcceptCount(INITIAL, [e, e, e, e], rk.id) == 3
            && AcceptsFor(Run(INITIAL, [e, e, e, e]), Register(rk, addr, Env(7 * SECOND, guid, true, true)), rk.id)
  {
    var e := Register(rk, addr, Env(0, guid, true, true));
    FirstIsAccepted(rk, addr, guid);
    NextIsAcceptedIff(rk, addr, guid, 1);
    NextIsAcceptedIff(rk, addr, guid, 2);
    NextIsAcceptedIff(rk, addr, guid, 3);
    LaterIsAccepted(rk, addr, guid);
    hide RegisterPk, AfterRegistrations;
    var s1 := AfterRegistrations(rk, addr, guid, 1, 0);
    var s2 := AfterRegistrations(rk, addr, guid, 2, 1);
    var s3 := AfterRegistrations(rk, addr, guid, 3, 2);
    var s4 := AfterRegistrations(rk, addr, guid, 3, 3);
    assert Run(s4, []) == s4 && AcceptCount(s4, [], rk.id) == 0;
    CountOneMore(s3, e, [], rk.id);
    CountOneMore(s2, e, [e], rk.id);
    CountOneMore(s1, e, [e, e], rk.id);
    CountOneMore(INITIAL, e, [e, e, e], rk.id);
    assert [e] + [] == [e] && [e] + [e] == [e, e] && [e] + [e, e] == [e, e, e] && [e] + [e, e, e] == [e, e, e, e];
    hide Run, AcceptCount;
  }

  lemma CountOneMore(s: State, e: Event, es: seq<Event>, id: string)
    ensures Run(s, [e] + es) == Run(Step(s, e), es)
    ensures AcceptCount(s, [e] + es, id) == (if AcceptsFor(s, e, id) then 1 else 0) + AcceptCount(Step(s, e), es, id)
  {
    assert ([e] + es)[1..] == es;
  }

  lemma LaterIsAccepted(rk: PkRequest, addr: SocketAddr, guid: Bytes)
    requires WellFormed(rk) && guid != []
    ensures RegisterPk(AfterRegistrations(rk, addr, guid, 3, 3), rk, addr,
                       Env(7 * SECOND, guid, true, true)).1 == Accepted
  {
    assert ElapsedSecs(0, 7 * SECOND) == 7;
  }

  // ---- Exactly which registrations are accepted ----

  /** Less than 7 s apart. */
  predicate Soon(t: Time, now: Time) {
    now < t + 7 * SECOND
  }

  /** Three acceptances in a row, each less than 7 s after the one before, and now less than 7 s after
      the last. */
  predicate ThreeInARow(ts: seq<Time>, now: Time) {
    var n := |ts|;
    n >= 3 && Soon(ts[n - 3], ts[n - 2]) && Soon(ts[n - 2], ts[n - 1]) && Soon(ts[n - 1], now)
  }

  ghost function TimesAfter(s: State, e: Event, id: string, ts: seq<Time>): seq<Time> {
    if e.Restart? then [] else if AcceptsFor(s, e, id) then ts + [e.env.now] else ts
  }

  /** When registrations of the id were accepted since the last restart, given those before the run. */
  ghost function AcceptTimes(s: State, es: seq<Event>, id: string, ts: seq<Time>): seq<Time>
    decreases |es|
  {
    if es == [] then ts else AcceptTimes(Step(s, es[0]), es[1..], id, TimesAfter(s, es[0], id, ts))
  }

  /** How many acceptances at the end are less than 7 s apart. */
  function Burst(ts: seq<Time>): nat {
    var n := |ts|;
    if n <= 1 then n
    else if Soon(ts[n - 2], ts[n - 1]) then Burst(ts[..n - 1]) + 1
    else 1
  }

  lemma BurstOfThree(ts: seq<Time>, now: Time)
    ensures ThreeInARow(ts, now) <==> ts != [] && Burst(ts) >= 3 && Soon(ts[|ts| - 1], now)
  {
    var n := |ts|;
    if n >= 2 {
      assert ts[..n - 1][n - 2] == ts[n - 2];
    }
    if n >= 3 {
      assert ts[..n - 1][n - 3] == ts[n - 3] && ts[..n - 1][..n - 2] == ts[..n - 2];
      assert Burst(ts[..n - 2]) >= 1;
    }
  }

  lemma SoonIsSixSeconds(t: Time, now: Time)
    ensures Soon(t, now) <==> ElapsedSecs(t, now) <= 6
  {
  }

  /** A peer's gate record shows the times of its acceptances. */
  ghost predicate GateShows(s: State, id: string, ts: seq<Time>) {
    if id !in s.cache then ts == []
    else s.cache[id].regCount == Burst(ts) && (ts != [] ==> s.cache[id].regTime == ts[|ts| - 1])
  }

  lemma StepShowsGate(s: State, e: Event, id: string, ts: seq<Time>)
    requires GateShows(s, id, ts)
    ensures GateShows(Step(s, e), id, TimesAfter(s, e, id, ts))
  {
    if !e.Restart? {
      if id in s.cache {
        GateStep(s, e, id);
        if AcceptsFor(s, e, id) {
          assert (ts + [e.env.now])[..|ts|] == ts;
          SoonIsSixSeconds(s.cache[id].regTime, e.env.now);
        }
      } else if id in Step(s, e).cache {
        GateOfNewPeer(s, e, id);
      } else if e.Register? {
        RegisterOnePeer(s, e);
      }
    }
  }

  lemma {:induction false} RunShowsGate(s: State, es: seq<Event>, id: string, ts: seq<Time>)
    requires GateShows(s, id, ts)
    ensures GateShows(Run(s, es), id, AcceptTimes(s, es, id, ts))
    decreases |es|
  {
    if es == [] {
    } else {
      StepShowsGate(s, es[0], id, ts);
      RunShowsGate(Step(s, es[0]), es[1..], id, TimesAfter(s, es[0], id, ts));
    }
  }

  /** The gate closes exactly after three in a row. */
  lemma GateClosesIff(p: PeerRec, ts: seq<Time>, now: Time)
    requires p.regCount == Burst(ts) && (ts != [] ==> p.regTime == ts[|ts| - 1])
    ensures Gate(p.regCount, p.regTime, now).None? <==> ThreeInARow(ts, now)
  {
    BurstOfThree(ts, now);
    SoonIsSixSeconds(p.regTime, now);
  }

  /** The reply to a registration from the message, the limiter's verdict, the plain map and the times
      of earlier acceptances. */
  ghost function PlainReply(s: State, e: Event, ts: seq<Time>): Reply
    requires e.Register?
  {
    if e.rk.uuid == [] || e.rk.pk == [] then Silent
    else if Utf8Length(e.rk.id) < 6 then UuidMismatch
    else if !IpBlocker.CheckIp(s.blocker, e.addr.ip, e.rk.id, e.env.now).1 then TooFrequent
    else if !MayBind(Bindings(s.table), e.rk, e.addr.ip) then UuidMismatch
    else if ThreeInARow(ts, e.env.now) then TooFrequent
    else Accepted
  }

  lemma ReplyInState(s: State, e: Event, ts: seq<Time>)
    requires Agrees(s) && Healthy(s, e) && e.Register? && GateShows(s, e.rk.id, ts)
    ensures RegisterPk(s, e.rk, e.addr, e.env).1 == PlainReply(s, e, ts)
  {
    if ReachesMap(s, e) {
      ReplyAtMap(s, e, ts);
    }
  }

  /** In every healthy run each registration is answered so. */
  lemma ReplyIs(es: seq<Event>, e: Event)
    requires HealthyRun(INITIAL, es) && Healthy(Run(INITIAL, es), e) && e.Register?
    ensures RegisterPk(Run(INITIAL, es), e.rk, e.addr, e.env).1
         == PlainReply(Run(INITIAL, es), e, AcceptTimes(INITIAL, es, e.rk.id, []))
  {
    var s, ts := Run(INITIAL, es), AcceptTimes(INITIAL, es, e.rk.id, []);
    assert Agrees(INITIAL);
    CacheRefinesTable(INITIAL, es);
    RunShowsGate(INITIAL, es, e.rk.id, []);
    hide Run, Agrees, GateShows, Healthy, RegisterPk, PlainReply, AcceptTimes, HealthyRun;
    ReplyInState(s, e, ts);
  }

  /** The limiter is asked about, and counts, every registration that is complete and long enough. */
  lemma LimiterIsAsked(s: State, e: Event)
    requires e.Register?
    ensures Step(s, e).blocker
         == if e.rk.uuid == [] || e.rk.pk == [] || Utf8Length(e.rk.id) < 6 then s.blocker
            else IpBlocker.CheckIp(s.blocker, e.addr.ip, e.rk.id, e.env.now).0
  {
  }

  lemma ReplyAtMap(s: State, e: Event, ts: seq<Time>)
    requires Agrees(s) && Healthy(s, e) && e.Register? && ReachesMap(s, e) && GateShows(s, e.rk.id, ts)
    ensures RegisterPk(s, e.rk, e.addr, e.env).1
         == if !MayBind(Bindings(s.table), e.rk, e.addr.ip) then UuidMismatch
            else if ThreeInARow(ts, e.env.now) then TooFrequent
            else Accepted
  {
    var c := LookupOr(s.cache, s.table, e.rk.id, e.env.now, true);
    RegisterIsBind(s, e);
    JudgeIsPlain(c, s.table, e.rk, e.addr.ip);
    GateClosesIff(c[e.rk.id], ts, e.env.now);
  }

  /** After 7 s without an acceptance three registrations are let through, however close they are:
      `us` are the acceptances since, fewer than three. */
  lemma QuietGivesThree(ts: seq<Time>, us: seq<Time>, now: Time)
    requires |us| <= 2 && (ts == [] || !Soon(ts[|ts| - 1], (us + [now])[0]))
    ensures !ThreeInARow(ts + us, now)
  {
  }

  /** So in any healthy run a registration that reaches the map and may bind is then accepted. */
  lemma NextThreeAreAccepted(es: seq<Event>, e: Event, ts: seq<Time>, us: seq<Time>)
    requires HealthyRun(INITIAL, es) && Healthy(Run(INITIAL, es), e) && e.Register?
    requires AcceptTimes(INITIAL, es, e.rk.id, []) == ts + us
    requires |us| <= 2 && (ts == [] || !Soon(ts[|ts| - 1], (us + [e.env.now])[0]))
    requires ReachesMap(Run(INITIAL, es), e) && MayBind(Bindings(Run(INITIAL, es).table), e.rk, e.addr.ip)
    ensures Accepts(Run(INITIAL, es), e)
  {
    hide RegisterPk, Run, AcceptTimes, HealthyRun, Healthy;
    ReplyIs(es, e);
    QuietGivesThree(ts, us, e.env.now);
  }
}
