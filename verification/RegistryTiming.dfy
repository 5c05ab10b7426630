/** The peers' addresses over runs of the registry, and for how long a peer counts as online. */
module RegistryTiming {
  import opened Wrappers
  import opened Net
  import opened PeerTable
  import opened Peers
  import opened Registry
  import opened RegistryRuns
  import opened RegistryGate

  // ---- Where hole punch messages go ----

  function TimeOf(e: Event, before: Time): Time {
    match e
    case Heartbeat(_, _, now) => now
    case Register(_, _, env) => env.now
    case Fetch(_, now, _) => now
    case Restart => before
  }

  /** The clock does not run backwards. */
  predicate Clocked(es: seq<Event>, now: Time)
    decreases |es|
  {
    es == [] || (now <= TimeOf(es[0], now) && Clocked(es[1..], TimeOf(es[0], now)))
  }

  function EndTime(es: seq<Event>, now: Time): Time
    decreases |es|
  {
    if es == [] then now else EndTime(es[1..], TimeOf(es[0], now))
  }

  /** A peer has the address it is given when it is loaded or created, or is bound and was last heard
      from its recorded ip or from the server's own host. */
  predicate Located(p: PeerRec) {
    (p.pk != [] ==> p.uuid != []) && (p.socketAddr == UNSPECIFIED || Placed(p))
  }

  predicate Placed(p: PeerRec) {
    p.uuid != [] && (p.socketAddr.ip == p.infoIp || p.socketAddr.ip == LOOPBACK)
  }

  ghost predicate AllLocated(s: State) {
    forall id | id in s.cache :: Located(s.cache[id])
  }

  lemma LookupOrLocates(s: State, id: string, now: Time, readOk: bool)
    requires SoundTable(s.table) && AllLocated(s)
    ensures forall i | i in LookupOr(s.cache, s.table, id, now, readOk) ::
              Located(LookupOr(s.cache, s.table, id, now, readOk)[i])
  {
  }

  lemma StepLocates(s: State, e: Event)
    requires SoundTable(s.table) && AllLocated(s)
    ensures AllLocated(Step(s, e))
  {
    match e
    case Heartbeat(_, _, _) =>
    case Register(_, _, _) =>
      RegisterOnePeer(s, e);
      LookupOrLocates(s, e.rk.id, e.env.now, e.env.readOk);
    case Fetch(_, _, _) =>
    case Restart =>
  }

  /** In every run, failing database calls included. */
  lemma {:induction false} RunLocates(s: State, es: seq<Event>)
    requires Anchored(s) && NamesGuids(es) && AllLocated(s)
    ensures AllLocated(Run(s, es))
    decreases |es|
  {
    if es == [] {
    } else {
      assert es[0] in es && forall e | e in es[1..] :: e in es;
      StepLocates(s, es[0]);
      StepKeepsUuids(s, es[0], "");
      RunLocates(Step(s, es[0]), es[1..]);
    }
  }

  lemma {:induction false} HealthyRunsNameGuids(s: State, es: seq<Event>)
    requires HealthyRun(s, es)
    ensures NamesGuids(es)
    decreases |es|
  {
    if es == [] {
    } else {
      HealthyRunsNameGuids(Step(s, es[0]), es[1..]);
      assert forall e | e in es :: e == es[0] || e in es[1..];
    }
  }

  // ---- Peers that were loaded and not heard from ----

  /** The step takes over the address the message comes from. */
  ghost predicate Hears(s: State, e: Event, id: string) {
    match e
    case Heartbeat(i, addr, now) => i == id && RegisterPeer(s.cache, i, addr, now).1 == Some(false)
    case Register(rk, addr, env) =>
      && rk.id == id && Accepts(s, e)
      && Judge(LookupOr(s.cache, s.table, id, env.now, env.readOk)[id], rk, addr.ip) == Change
    case Fetch(_, _, _) => false
    case Restart => false
  }

  /** When a peer in the map that was not heard from since was loaded or created there, given that
      before the step. */
  ghost function SilenceAfter(s: State, e: Event, id: string, silent: Option<Time>): Option<Time> {
    if id !in Step(s, e).cache || Hears(s, e, id) then None
    else if id in s.cache then silent
    else Some(TimeOf(e, 0))
  }

  ghost function Silence(s: State, es: seq<Event>, id: string, silent: Option<Time>): Option<Time>
    decreases |es|
  {
    if es == [] then silent else Silence(Step(s, es[0]), es[1..], id, SilenceAfter(s, es[0], id, silent))
  }

  /** Such a peer has no address and the expired time of that moment; any other has an address if all
      messages come from one. */
  ghost predicate SilenceShows(s: State, id: string, silent: Option<Time>, senders: bool) {
    id in s.cache ==>
      if silent.Some? then
        s.cache[id].socketAddr == UNSPECIFIED && s.cache[id].lastRegTime == ExpiredTime(silent.value)
      else
        senders ==> s.cache[id].socketAddr != UNSPECIFIED
  }

  /** No message comes from the unspecified address. */
  predicate HasSender(e: Event) {
    (e.Heartbeat? || e.Register?) ==> e.addr != UNSPECIFIED
  }

  predicate HaveSenders(es: seq<Event>) {
    forall k | 0 <= k < |es| :: HasSender(es[k])
  }

  lemma StepShowsSilence(s: State, e: Event, id: string, silent: Option<Time>, senders: bool)
    requires SilenceShows(s, id, silent, senders) && (senders ==> HasSender(e))
    ensures SilenceShows(Step(s, e), id, SilenceAfter(s, e, id, silent), senders)
  {
    if e.Register? {
      RegisterOnePeer(s, e);
    }
  }

  lemma {:induction false} RunShowsSilence(s: State, es: seq<Event>, id: string, silent: Option<Time>, senders: bool)
    requires SilenceShows(s, id, silent, senders) && (senders ==> HaveSenders(es))
    ensures SilenceShows(Run(s, es), id, Silence(s, es, id, silent), senders)
    decreases |es|
  {
    if es == [] {
    } else {
      StepShowsSilence(s, es[0], id, silent, senders);
      RunShowsSilence(Step(s, es[0]), es[1..], id, SilenceAfter(s, es[0], id, silent), senders);
    }
  }

  /** A peer that was heard from is bound and has its recorded ip or the server's own. */
  ghost predicate HeardIsPlaced(s: State, id: string, silent: Option<Time>) {
    id in s.cache && silent.None? ==> Placed(s.cache[id])
  }

  lemma StepPlacesHeard(s: State, e: Event, id: string, silent: Option<Time>)
    requires SoundTable(s.table) && AllLocated(s) && HeardIsPlaced(s, id, silent)
    ensures HeardIsPlaced(Step(s, e), id, SilenceAfter(s, e, id, silent))
  {
    if e.Register? {
      RegisterOnePeer(s, e);
    }
  }

  lemma {:induction false} RunPlacesHeard(s: State, es: seq<Event>, id: string, silent: Option<Time>)
    requires Anchored(s) && NamesGuids(es) && AllLocated(s) && HeardIsPlaced(s, id, silent)
    ensures HeardIsPlaced(Run(s, es), id, Silence(s, es, id, silent))
    decreases |es|
  {
    if es == [] {
    } else {
      assert es[0] in es && forall e | e in es[1..] :: e in es;
      StepLocates(s, es[0]);
      StepKeepsUuids(s, es[0], "");
      StepPlacesHeard(s, es[0], id, silent);
      RunPlacesHeard(Step(s, es[0]), es[1..], id, SilenceAfter(s, es[0], id, silent));
    }
  }

  lemma {:induction false} SilenceIsInTime(s: State, es: seq<Event>, id: string, silent: Option<Time>,
                                           start: Time, now: Time)
    requires start <= now && Clocked(es, now) && (silent.Some? ==> start <= silent.value <= now)
    ensures now <= EndTime(es, now)
    ensures var t := Silence(s, es, id, silent); t.Some? ==> start <= t.value <= EndTime(es, now)
    decreases |es|
  {
    if es == [] {
    } else {
      SilenceIsInTime(Step(s, es[0]), es[1..], id, SilenceAfter(s, es[0], id, silent), start, TimeOf(es[0], now));
    }
  }

  /** Since when the target of a request has been in the map without being heard from; the request
      itself may be what loads it. */
  ghost function SilentSince(es: seq<Event>, id: string, now: Time): Option<Time> {
    if id in Run(INITIAL, es).cache then Silence(INITIAL, es, id, None) else Some(now)
  }

  /** Below 2^31 ms a peer counts as offline exactly when 30 s have passed; beyond that the test is
      right exactly when the low 32 bits say so. */
  lemma OfflineTestIsRightIff(millis: nat)
    ensures (AsI32(millis) >= REG_TIMEOUT <==> millis >= REG_TIMEOUT)
       <==> millis < REG_TIMEOUT || REG_TIMEOUT <= millis % TWO_32 < TWO_31
    ensures millis < TWO_31 ==> (AsI32(millis) >= REG_TIMEOUT <==> millis >= REG_TIMEOUT)
  {
  }

  /** After 2^32 ms of silence a peer counts as online again. */
  lemma OfflineTestWraps()
    ensures AsI32(TWO_32) < REG_TIMEOUT <= TWO_32
  {
  }

  /** The peer that a request finds. */
  ghost function Target(es: seq<Event>, id: string, now: Time, readOk: bool): Option<PeerRec> {
    var s := Run(INITIAL, es);
    var c := Lookup(s.cache, s.table, id, now, readOk);
    if id in c then Some(c[id]) else None
  }

  /** In every healthy run, whatever the clock does, a target that has an address is bound, and its
      address has the ip on record or the server's own. */
  lemma PunchGoesToRecordedIp(es: seq<Event>, id: string, now: Time, readOk: bool)
    requires HealthyRun(INITIAL, es) && Target(es, id, now, readOk).Some?
    ensures var to := Target(es, id, now, readOk).value.socketAddr;
            var m := Bindings(Run(INITIAL, es).table);
            to == UNSPECIFIED || (id in m && (to.ip == m[id].ip || to.ip == LOOPBACK))
  {
    var s := Run(INITIAL, es);
    HealthyRunsNameGuids(INITIAL, es);
    RunLocates(INITIAL, es);
    CacheRefinesTable(INITIAL, es);
    if id in s.cache && Placed(s.cache[id]) {
      PlacedIsBound(s, id);
    }
  }

  lemma PlacedIsBound(s: State, id: string)
    requires Agrees(s) && id in s.cache && Placed(s.cache[id])
    ensures var to, m := s.cache[id].socketAddr, Bindings(s.table);
            id in m && (to.ip == m[id].ip || to.ip == LOOPBACK)
  {
    assert InStep(s.cache[id], id, s.table);
    FindIsUnique(s.table, s.cache[id].guid);
  }

  /** A target counts as online without an address exactly when it has not been heard from since it
      was loaded and the low 32 bits of the time since the expired time of that moment say so. */
  lemma PunchGoesNowhereIff(es: seq<Event>, id: string, now: Time, readOk: bool)
    requires HaveSenders(es) && Target(es, id, now, readOk).Some?
    ensures var p, t := Target(es, id, now, readOk).value, SilentSince(es, id, now);
            !Offline(p, now) && p.socketAddr == UNSPECIFIED
            <==> t.Some? && AsI32(ElapsedMillis(ExpiredTime(t.value), now)) < REG_TIMEOUT
  {
    RunShowsSilence(INITIAL, es, id, None, true);
  }

  /** A target that was heard from since it was loaded is bound. */
  lemma HeardTargetIsBound(es: seq<Event>, id: string, now: Time, readOk: bool)
    requires HealthyRun(INITIAL, es) && Target(es, id, now, readOk).Some?
    requires SilentSince(es, id, now).None?
    ensures var to := Target(es, id, now, readOk).value.socketAddr;
            var m := Bindings(Run(INITIAL, es).table);
            id in m && (to.ip == m[id].ip || to.ip == LOOPBACK)
  {
    HealthyRunsNameGuids(INITIAL, es);
    CacheRefinesTable(INITIAL, es);
    RunPlacesHeard(INITIAL, es, id, None);
    PlacedIsBound(Run(INITIAL, es), id);
  }

  lemma SilentTargetIsExpired(es: seq<Event>, id: string, now: Time, readOk: bool)
    requires Target(es, id, now, readOk).Some? && SilentSince(es, id, now).Some?
    ensures Target(es, id, now, readOk).value.lastRegTime == ExpiredTime(SilentSince(es, id, now).value)
  {
    RunShowsSilence(INITIAL, es, id, None, false);
  }

  lemma ExpiredIsOffline(p: PeerRec, loaded: Time, now: Time)
    requires HOUR <= loaded <= now && p.lastRegTime == ExpiredTime(loaded)
    requires ElapsedMillis(p.lastRegTime, now) < TWO_31
    ensures Offline(p, now)
  {
    assert ElapsedMillis(p.lastRegTime, now) >= 3_600_000;
  }

  /** On a clock of at least an hour a target that was not heard from counts as offline until 2^31 ms
      after its expired time, so an online one is always addressed at its recorded ip or the server's
      own. */
  lemma OldServerPunchesRecordedIp(es: seq<Event>, start: Time, id: string, now: Time, readOk: bool)
    requires HealthyRun(INITIAL, es)
    requires HOUR <= start && Clocked(es, start) && EndTime(es, start) <= now
    requires Target(es, id, now, readOk).Some?
    requires var p := Target(es, id, now, readOk).value;
             !Offline(p, now) && ElapsedMillis(p.lastRegTime, now) < TWO_31
    ensures var to := Target(es, id, now, readOk).value.socketAddr;
            var m := Bindings(Run(INITIAL, es).table);
            id in m && (to.ip == m[id].ip || to.ip == LOOPBACK)
  {
    hide Target, Offline, ElapsedMillis, ExpiredTime;
    SilenceIsInTime(INITIAL, es, id, None, start, start);
    var t := SilentSince(es, id, now);
    if t.Some? {
      SilentTargetIsExpired(es, id, now, readOk);
      ExpiredIsOffline(Target(es, id, now, readOk).value, t.value, now);
      assert false;
    }
    HeardTargetIsBound(es, id, now, readOk);
  }

  /** On a younger clock it fails: a peer registers, the server restarts, and a request two seconds
      after boot finds the peer online and without an address. */
  lemma YoungServerPunchesNowhere()
    ensures var es := [Register(PkRequest("abcdef", [1], [2]), SocketAddr("10.0.0.1", 9),
                                Env(SECOND, [7], true, true)),
                       Restart];
            && HealthyRun(INITIAL, es) && HaveSenders(es) && Clocked(es, 0)
            && var p := Target(es, "abcdef", 2 * SECOND, true);
            p.Some? && p.value.pk == [2] && !Offline(p.value, 2 * SECOND) && p.value.socketAddr == UNSPECIFIED
  {
    hide Utf8Length;
    var e := Register(PkRequest("abcdef", [1], [2]), SocketAddr("10.0.0.1", 9), Env(SECOND, [7], true, true));
    var es := [e, Restart];
    var row := Row("abcdef", [1], [2], "10.0.0.1");
    assert es[1..] == [Restart] && es[1..][1..] == [];
    RegisterIsBind(INITIAL, e);
    assert Find(INITIAL.table, "abcdef").None?;
    assert Step(INITIAL, e).table == map[[7] := row];
    FindIsUnique(Step(INITIAL, e).table, [7]);
    var s := Step(INITIAL, e);
    assert Run(INITIAL, es) == Run(s, [Restart]) == Run(Step(s, Restart), []) by {
      assert [Restart][1..] == [];
    }
  }

  // ---- What keeps a peer online ----

  /** The address and time of the last message of the peer that was heard since it was loaded. */
  ghost function HeardAfter(s: State, e: Event, id: string, heard: Option<(SocketAddr, Time)>)
    : Option<(SocketAddr, Time)>
  {
    if id !in Step(s, e).cache then None
    else if Hears(s, e, id) && (e.Heartbeat? || e.Register?) then Some((e.addr, TimeOf(e, 0)))
    else heard
  }

  ghost function LastHeard(s: State, es: seq<Event>, id: string, heard: Option<(SocketAddr, Time)>)
    : Option<(SocketAddr, Time)>
    decreases |es|
  {
    if es == [] then heard else LastHeard(Step(s, es[0]), es[1..], id, HeardAfter(s, es[0], id, heard))
  }

  ghost predicate HeardShows(s: State, id: string, heard: Option<(SocketAddr, Time)>) {
    match heard
    case None => id in s.cache ==> s.cache[id].socketAddr == UNSPECIFIED
    case Some((addr, t)) => id in s.cache && s.cache[id].socketAddr == addr && s.cache[id].lastRegTime == t
  }

  lemma StepShowsHeard(s: State, e: Event, id: string, heard: Option<(SocketAddr, Time)>)
    requires HeardShows(s, id, heard)
    ensures HeardShows(Step(s, e), id, HeardAfter(s, e, id, heard))
  {
    if e.Register? {
      RegisterOnePeer(s, e);
    }
  }

  lemma {:induction false} RunShowsHeard(s: State, es: seq<Event>, id: string, heard: Option<(SocketAddr, Time)>)
    requires HeardShows(s, id, heard)
    ensures HeardShows(Run(s, es), id, LastHeard(s, es, id, heard))
    decreases |es|
  {
    if es == [] {
    } else {
      StepShowsHeard(s, es[0], id, heard);
      RunShowsHeard(Step(s, es[0]), es[1..], id, HeardAfter(s, es[0], id, heard));
    }
  }

  /** In every run, failing calls included, a request finds a peer that was heard from at exactly the
      address of its last message heard; the peer counts as online for 30 s after it, and as offline from
      then on until 2^31 ms after it. */
  lemma HeardIsOnlineIff(es: seq<Event>, id: string, now: Time, readOk: bool)
    requires LastHeard(INITIAL, es, id, None).Some?
    ensures var (addr, t) := LastHeard(INITIAL, es, id, None).value;
            && Target(es, id, now, readOk).Some?
            && var p := Target(es, id, now, readOk).value;
            && p.socketAddr == addr
            && (t <= now < t + 0x8000_0000 * 1_000_000 ==> (Offline(p, now) <==> t + 30 * 1_000_000_000 <= now))
  {
    RunShowsHeard(INITIAL, es, id, None);
  }

  /** In agreement a registration is heard exactly when it is accepted and changes the binding. */
  lemma RegistrationIsHeardIff(s: State, e: Event)
    requires Agrees(s) && Healthy(s, e) && e.Register?
    ensures Hears(s, e, e.rk.id) <==>
              Accepts(s, e) && !(e.rk.id in Bindings(s.table)
                                 && Bindings(s.table)[e.rk.id] == Binding(e.rk.uuid, e.rk.pk, e.addr.ip))
  {
    RegisterIsBind(s, e);
    RefusalIsPlain(s, e);
    LookupOrAgrees(s, e.rk.id, e.env.now);
    hide Accepts, RegisterPk, Bind, Step, Judge, MayBind, Bindings, LookupOr, AgreesWith, Find;
    JudgeIsPlain(LookupOr(s.cache, s.table, e.rk.id, e.env.now, true), s.table, e.rk, e.addr.ip);
  }

  lemma LookupOrAgrees(s: State, id: string, now: Time)
    requires Agrees(s)
    ensures AgreesWith(LookupOr(s.cache, s.table, id, now, true), s.table)
  {
    LookupAgrees(s, id, now, true);
  }

  /** In agreement a heartbeat is heard, and not answered by a request for the key, exactly when the
      peer is in memory with a key and the message comes from the server's own host or the ip last heard
      from, or, of a peer not heard from yet, the ip on record. */
  lemma HeartbeatIsHeardIff(s: State, id: string, addr: SocketAddr, now: Time, heard: Option<(SocketAddr, Time)>)
    requires Agrees(s) && AllLocated(s) && HeardShows(s, id, heard)
    requires heard.Some? ==> heard.value.0.port != 0
    ensures Hears(s, Heartbeat(id, addr, now), id) <==>
              && id != "" && id in s.cache
              && id in Bindings(s.table) && Bindings(s.table)[id].pk != []
              && (addr.ip == "127.0.0.1"
                  || addr.ip == if heard.Some? then heard.value.0.ip else Bindings(s.table)[id].ip)
    ensures RegisterPeer(s.cache, id, addr, now).1
         == if id == "" then None else Some(!Hears(s, Heartbeat(id, addr, now), id))
  {
    if id in s.cache {
      assert InStep(s.cache[id], id, s.table) && Located(s.cache[id]);
      if s.cache[id].guid != [] {
        FindIsUnique(s.table, s.cache[id].guid);
      }
    }
  }

  /** In every healthy run a heartbeat is answered so, from what was heard before. */
  lemma HeartbeatReplyIs(es: seq<Event>, id: string, addr: SocketAddr, now: Time)
    requires HealthyRun(INITIAL, es) && id != ""
    requires var heard := LastHeard(INITIAL, es, id, None); heard.Some? ==> heard.value.0.port != 0
    ensures var s, heard := Run(INITIAL, es), LastHeard(INITIAL, es, id, None);
            RegisterPeer(s.cache, id, addr, now).1
            == Some(!(&& id in s.cache && id in Bindings(s.table) && Bindings(s.table)[id].pk != []
                      && (addr.ip == "127.0.0.1"
                          || addr.ip == if heard.Some? then heard.value.0.ip else Bindings(s.table)[id].ip)))
  {
    assert Agrees(INITIAL);
    HealthyRunsNameGuids(INITIAL, es);
    CacheRefinesTable(INITIAL, es);
    RunLocates(INITIAL, es);
    RunShowsHeard(INITIAL, es, id, None);
    HeartbeatIsHeardIff(Run(INITIAL, es), id, addr, now, LastHeard(INITIAL, es, id, None));
  }
}
