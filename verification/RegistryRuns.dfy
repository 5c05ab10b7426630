/** Runs of the registry: the cached table refines a plain map from ids to bindings. */
module RegistryRuns {
  import opened Wrappers
  import opened Net
  import opened PeerTable
  import opened Peers
  import opened Registry
  import IpBlocker

  /** `Fetch` stands for every other use of the peer map's lookup, punch hole requests included. */
  datatype Event =
    | Heartbeat(id: string, addr: SocketAddr, now: Time)
    | Register(rk: PkRequest, addr: SocketAddr, env: Env)
    | Fetch(id: string, now: Time, readOk: bool)
    | Restart

  const INITIAL := State(map[], map[], map[])

  ghost function Step(s: State, e: Event): State {
    match e
    case Heartbeat(id, addr, now) => s.(cache := RegisterPeer(s.cache, id, addr, now).0)
    case Register(rk, addr, env) => RegisterPk(s, rk, addr, env).0
    case Fetch(id, now, readOk) => s.(cache := Lookup(s.cache, s.table, id, now, readOk))
    case Restart => State(map[], s.table, map[])
  }

  ghost function Run(s: State, es: seq<Event>): State
    decreases |es|
  {
    if es == [] then s else Run(Step(s, es[0]), es[1..])
  }

  /** The registration is accepted. */
  ghost predicate Accepts(s: State, e: Event) {
    e.Register? && RegisterPk(s, e.rk, e.addr, e.env).1 == Accepted
  }

  /** The database calls of the step succeed and a fresh guid is fresh. */
  ghost predicate Healthy(s: State, e: Event) {
    e.Register? ==> e.env.readOk && e.env.writeOk && e.env.guid != [] && e.env.guid !in s.table
  }

  ghost predicate HealthyRun(s: State, es: seq<Event>)
    decreases |es|
  {
    es == [] || (Healthy(s, es[0]) && HealthyRun(Step(s, es[0]), es[1..]))
  }

  // ---- The cache agrees with the table ----

  ghost predicate InStep(p: PeerRec, id: string, t: Table) {
    if p.guid == [] then p.uuid == [] && Find(t, id).None?
    else p.guid in t && t[p.guid] == Row(id, p.uuid, p.pk, p.infoIp)
  }

  ghost predicate SoundTable(t: Table) {
    UniqueIds(t) && forall g | g in t :: g != [] && t[g].uuid != []
  }

  ghost predicate AgreesWith(c: Cache, t: Table) {
    SoundTable(t) && forall id | id in c :: InStep(c[id], id, t)
  }

  ghost predicate Agrees(s: State) {
    AgreesWith(s.cache, s.table)
  }

  lemma LookupAgrees(s: State, id: string, now: Time, readOk: bool)
    requires Agrees(s)
    ensures Agrees(s.(cache := Lookup(s.cache, s.table, id, now, readOk)))
  {
  }

  lemma HeartbeatAgrees(s: State, id: string, addr: SocketAddr, now: Time)
    requires Agrees(s)
    ensures Agrees(s.(cache := RegisterPeer(s.cache, id, addr, now).0))
  {
  }

  /** The database calls an admitted registration depends on. */
  ghost predicate ReadsWell(s: State, e: Event)
    requires e.Register?
  {
    e.rk.id in s.cache || e.env.readOk || Find(s.table, e.rk.id).None?
  }

  /** The registration gets past the checks that touch neither map nor table. */
  ghost predicate ReachesMap(s: State, e: Event)
    requires e.Register?
  {
    && e.rk.uuid != [] && e.rk.pk != [] && Utf8Length(e.rk.id) >= MIN_ID_LENGTH
    && IpBlocker.CheckIp(s.blocker, e.addr.ip, e.rk.id, e.env.now).1
  }

  /** The registration is accepted and changes the peer, so the table is written. */
  ghost predicate Writes(s: State, e: Event)
    requires e.Register? && ReachesMap(s, e)
  {
    Admit(LookupOr(s.cache, s.table, e.rk.id, e.env.now, e.env.readOk), e.rk, e.addr.ip, e.env.now).2
  }

  lemma InsertAgrees(c: Cache, t: Table, id: string, p: PeerRec, guid: Bytes)
    requires AgreesWith(c, t) && Find(t, id).None?
    requires guid != [] && guid !in t && p.guid == guid && p.uuid != []
    ensures AgreesWith(c[id := p], t[guid := Row(id, p.uuid, p.pk, p.infoIp)])
  {
    var c', t' := c[id := p], t[guid := Row(id, p.uuid, p.pk, p.infoIp)];
    forall i | i in c' ensures InStep(c'[i], i, t') {
      if i != id && c[i].guid == [] {
        assert Find(t, i).None?;
      }
    }
  }

  lemma UpdateAgrees(c: Cache, t: Table, id: string, p: PeerRec)
    requires AgreesWith(c, t) && id in c
    requires p.guid == c[id].guid != [] && p.uuid == c[id].uuid
    ensures AgreesWith(c[id := p], Updated(t, p.guid, id, p.pk, p.infoIp))
    ensures UpdateAccepted(t, p.guid, id, true)
  {
    var c', t' := c[id := p], Updated(t, p.guid, id, p.pk, p.infoIp);
    assert t[p.guid].id == id;
    forall i | i in c' ensures InStep(c'[i], i, t') {
      if i != id && c[i].guid == [] {
        assert Find(t, i).None?;
      }
    }
  }

  lemma RecountAgrees(c: Cache, t: Table, id: string, count: nat, time: Time)
    requires AgreesWith(c, t) && id in c
    ensures AgreesWith(c[id := c[id].(regCount := count, regTime := time)], t)
  {
  }

  /** What one admitted registration does to agreement. */
  lemma BindAgrees(c: Cache, t: Table, rk: PkRequest, addr: SocketAddr, env: Env)
    requires rk.id in c && AgreesWith(c, t)
    requires rk.uuid != [] && env.guid != [] && env.guid !in t
    ensures var (c', t', _) := Bind(c, t, rk, addr, env);
            AgreesWith(c', t') <==> (Admit(c, rk, addr.ip, env.now).2 ==> env.writeOk)
  {
    var (admitted, _, changed) := Admit(c, rk, addr.ip, env.now);
    RecountAgrees(c, t, rk.id, admitted[rk.id].regCount, admitted[rk.id].regTime);
    assert c[rk.id := c[rk.id]] == c;
    if changed {
      var p := Rebound(admitted[rk.id], addr, rk.uuid, rk.pk, env.now);
      if !env.writeOk {
        assert c[rk.id].guid != [] ==> t[c[rk.id].guid].uuid != [];
        assert Bind(c, t, rk, addr, env).0[rk.id] == p && !InStep(p, rk.id, t);
      } else if p.guid == [] {
        InsertAgrees(admitted, t, rk.id, p.(guid := env.guid), env.guid);
      } else {
        UpdateAgrees(admitted, t, rk.id, p);
      }
    }
  }

  /** A registration step in terms of what it does to the peer found or created. */
  lemma RegisterIsBind(s: State, e: Event)
    requires e.Register?
    ensures if ReachesMap(s, e) then
              var (c, t, reply) := Bind(LookupOr(s.cache, s.table, e.rk.id, e.env.now, e.env.readOk), s.table,
                                        e.rk, e.addr, e.env);
              && Step(s, e).cache == c && Step(s, e).table == t
              && RegisterPk(s, e.rk, e.addr, e.env).1 == reply
            else
              Step(s, e).cache == s.cache && Step(s, e).table == s.table && !Accepts(s, e)
  {
  }

  /** An admitted registration touches one peer. */
  lemma BindOnePeer(c: Cache, t: Table, rk: PkRequest, addr: SocketAddr, env: Env)
    requires rk.id in c
    ensures var (c', _, reply) := Bind(c, t, rk, addr, env);
            && rk.id in c' && c' == c[rk.id := c'[rk.id]]
            && var p, p' := c[rk.id], c'[rk.id];
            if reply == Accepted then
              && Gate(p.regCount, p.regTime, env.now) == Some((p'.regCount, p'.regTime))
              && var gated := p.(regCount := p'.regCount, regTime := p'.regTime);
              if Judge(p, rk, addr.ip) == Keep then p' == gated
              else p' == Rebound(gated, addr, rk.uuid, rk.pk, env.now).(guid := p'.guid)
            else p' == p
  {
  }

  /** A registration keeps cache and table in agreement exactly when the read it needs finds the row
      that is there and the write it needs succeeds. */
  lemma AgreementKeptIff(s: State, e: Event)
    requires Agrees(s) && e.Register? && e.env.guid != [] && e.env.guid !in s.table
    ensures Agrees(Step(s, e)) <==> (ReachesMap(s, e) ==> ReadsWell(s, e) && (Writes(s, e) ==> e.env.writeOk))
  {
    RegisterIsBind(s, e);
    if ReachesMap(s, e) {
      var c := LookupOr(s.cache, s.table, e.rk.id, e.env.now, e.env.readOk);
      if ReadsWell(s, e) {
        BindAgrees(c, s.table, e.rk, e.addr, e.env);
      } else {
        assert c[e.rk.id] == DefaultPeer(e.env.now);
        assert Step(s, e).cache[e.rk.id].guid == [];
        assert Find(Step(s, e).table, e.rk.id).Some?;
      }
    }
  }

  /** With healthy database calls every step keeps agreement. */
  lemma StepAgrees(s: State, e: Event)
    requires Agrees(s) && Healthy(s, e)
    ensures Agrees(Step(s, e))
  {
    match e
    case Heartbeat(id, addr, now) => HeartbeatAgrees(s, id, addr, now);
    case Register(_, _, _) => AgreementKeptIff(s, e);
    case Fetch(id, now, readOk) => LookupAgrees(s, id, now, readOk);
    case Restart =>
  }

  /** In every healthy run each cached peer with a guid equals its row, and one without has no row. */
  lemma {:induction false} CacheRefinesTable(s: State, es: seq<Event>)
    requires Agrees(s) && HealthyRun(s, es)
    ensures Agrees(Run(s, es))
    decreases |es|
  {
    if es == [] {
    } else {
      StepAgrees(s, es[0]);
      CacheRefinesTable(Step(s, es[0]), es[1..]);
    }
  }

  /** In a healthy run no insert ever hits the key or the unique index. */
  lemma InsertsNeverCollide(s: State, e: Event)
    requires Agrees(s) && Healthy(s, e) && e.Register? && ReachesMap(s, e) && Writes(s, e)
    ensures var p := LookupOr(s.cache, s.table, e.rk.id, e.env.now, true)[e.rk.id];
            p.guid == [] ==> InsertAccepted(s.table, e.rk.id, e.env.guid, true)
  {
  }

  // ---- Refinement of a plain map ----

  datatype Binding = Binding(uuid: Bytes, pk: Bytes, ip: Ip)

  ghost function BindingOf(row: Row): Binding {
    Binding(row.uuid, row.pk, row.info)
  }

  /** The table as a plain map from ids to bindings. */
  ghost function Bindings(t: Table): (m: map<string, Binding>)
    ensures forall id :: id in m <==> Find(t, id).Some?
    ensures forall id | id in m :: m[id] == BindingOf(t[Find(t, id).value])
  {
    assert forall id | Find(t, id).Some? :: id in (set g | g in t :: t[g].id);
    map id | id in (set g | g in t :: t[g].id) && Find(t, id).Some? :: BindingOf(t[Find(t, id).value])
  }

  /** A binding may be replaced under the same uuid unless both ip and pk differ. */
  predicate MayBind(m: map<string, Binding>, rk: PkRequest, ip: Ip) {
    rk.id in m ==> m[rk.id].uuid == rk.uuid && (m[rk.id].ip == ip || m[rk.id].pk == rk.pk)
  }

  function BindPlain(m: map<string, Binding>, e: Event, accepted: bool): map<string, Binding> {
    if accepted && e.Register? then m[e.rk.id := Binding(e.rk.uuid, e.rk.pk, e.addr.ip)] else m
  }

  lemma FindIsUnique(t: Table, g: Bytes)
    requires UniqueIds(t) && g in t
    ensures Find(t, t[g].id) == Some(g)
  {
  }

  lemma InsertBinds(t: Table, guid: Bytes, row: Row)
    requires UniqueIds(t) && guid !in t && Find(t, row.id).None?
    ensures Bindings(t[guid := row]) == Bindings(t)[row.id := BindingOf(row)]
  {
    var t' := t[guid := row];
    FindIsUnique(t', guid);
    forall id | id != row.id ensures Find(t', id) == Find(t, id) {
      if Find(t, id).Some? {
        FindIsUnique(t', Find(t, id).value);
      }
    }
  }

  lemma UpdateBinds(t: Table, guid: Bytes, row: Row)
    requires UniqueIds(t) && guid in t && t[guid].id == row.id
    ensures Bindings(t[guid := row]) == Bindings(t)[row.id := BindingOf(row)]
  {
    var t' := t[guid := row];
    assert UniqueIds(t');
    FindIsUnique(t', guid);
    FindIsUnique(t, guid);
    forall id | id != row.id ensures Find(t', id) == Find(t, id) {
      if Find(t, id).Some? {
        FindIsUnique(t', Find(t, id).value);
      }
    }
  }

  /** The verdict on a peer in step with the table is the plain map's. */
  lemma JudgeIsPlain(c: Cache, t: Table, rk: PkRequest, ip: Ip)
    requires rk.id in c && AgreesWith(c, t)
    ensures Judge(c[rk.id], rk, ip) != Mismatch <==> MayBind(Bindings(t), rk, ip)
    ensures Judge(c[rk.id], rk, ip) == Keep <==>
              rk.id in Bindings(t) && Bindings(t)[rk.id] == Binding(rk.uuid, rk.pk, ip)
  {
    var p := c[rk.id];
    if p.guid != [] {
      FindIsUnique(t, p.guid);
    }
  }

  /** The table written by an admitted registration. */
  lemma WrittenTable(c: Cache, t: Table, rk: PkRequest, addr: SocketAddr, env: Env)
    requires rk.id in c && Admit(c, rk, addr.ip, env.now).2
    requires SoundTable(t) && IsAnchored(c[rk.id], rk.id, t)
    ensures var row := Row(rk.id, rk.uuid, rk.pk, addr.ip);
            var p, t' := c[rk.id], Bind(c, t, rk, addr, env).1;
            if p.guid == [] then t' == if InsertAccepted(t, rk.id, env.guid, env.writeOk) then t[env.guid := row] else t
            else t' == if UpdateAccepted(t, p.guid, rk.id, env.writeOk) then t[p.guid := row] else t
  {
  }

  lemma BindRefines(c: Cache, t: Table, rk: PkRequest, addr: SocketAddr, env: Env)
    requires rk.id in c && AgreesWith(c, t)
    requires rk.uuid != [] && env.writeOk && env.guid != [] && env.guid !in t
    ensures var (_, t', reply) := Bind(c, t, rk, addr, env);
            Bindings(t') == if reply == Accepted then Bindings(t)[rk.id := Binding(rk.uuid, rk.pk, addr.ip)]
                            else Bindings(t)
  {
    var (_, reply, changed) := Admit(c, rk, addr.ip, env.now);
    if changed {
      var row := Row(rk.id, rk.uuid, rk.pk, addr.ip);
      WrittenTable(c, t, rk, addr, env);
      if c[rk.id].guid == [] {
        InsertBinds(t, env.guid, row);
      } else {
        FindIsUnique(t, c[rk.id].guid);
        UpdateBinds(t, c[rk.id].guid, row);
      }
    } else if reply == Accepted {
      JudgeIsPlain(c, t, rk, addr.ip);
      assert Bindings(t)[rk.id := Binding(rk.uuid, rk.pk, addr.ip)] == Bindings(t);
    }
  }

  /** One step does to the table what the plain map does. */
  lemma StepRefines(s: State, e: Event)
    requires Agrees(s) && Healthy(s, e)
    ensures Bindings(Step(s, e).table) == BindPlain(Bindings(s.table), e, Accepts(s, e))
  {
    if e.Register? {
      RegisterIsBind(s, e);
    }
    if e.Register? && ReachesMap(s, e) {
      BindRefines(LookupOr(s.cache, s.table, e.rk.id, e.env.now, true), s.table, e.rk, e.addr, e.env);
    }
  }

  /** A registration that reaches the map is refused for its uuid exactly when the plain map would
      refuse it, and is never accepted then. */
  lemma RefusalIsPlain(s: State, e: Event)
    requires Agrees(s) && Healthy(s, e) && e.Register?
    ensures ReachesMap(s, e) ==>
              (RegisterPk(s, e.rk, e.addr, e.env).1 == UuidMismatch
               <==> !MayBind(Bindings(s.table), e.rk, e.addr.ip))
    ensures Accepts(s, e) ==> MayBind(Bindings(s.table), e.rk, e.addr.ip)
  {
    RegisterIsBind(s, e);
    if ReachesMap(s, e) {
      var c := LookupOr(s.cache, s.table, e.rk.id, e.env.now, true);
      LookupAgrees(s, e.rk.id, e.env.now, true);
      hide RegisterPk, Step, Bindings;
      JudgeIsPlain(c, s.table, e.rk, e.addr.ip);
      MismatchIsJudged(c, s.table, e.rk, e.addr, e.env);
      hide Bind, Judge, MayBind;
    }
  }

  lemma MismatchIsJudged(c: Cache, t: Table, rk: PkRequest, addr: SocketAddr, env: Env)
    requires rk.id in c
    ensures Bind(c, t, rk, addr, env).2 == UuidMismatch <==> Judge(c[rk.id], rk, addr.ip) == Mismatch
  {
  }

  ghost function Acceptances(s: State, es: seq<Event>): (r: seq<bool>)
    ensures |r| == |es|
    decreases |es|
  {
    if es == [] then [] else [Accepts(s, es[0])] + Acceptances(Step(s, es[0]), es[1..])
  }

  function RunPlain(m: map<string, Binding>, es: seq<Event>, accepted: seq<bool>): map<string, Binding>
    requires |accepted| == |es|
    decreases |es|
  {
    if es == [] then m else RunPlain(BindPlain(m, es[0], accepted[0]), es[1..], accepted[1..])
  }

  /** Over any healthy run, restarts included, the server behaves as one plain map. */
  lemma {:induction false} RunRefinesPlainMap(s: State, es: seq<Event>)
    requires Agrees(s) && HealthyRun(s, es)
    ensures Bindings(Run(s, es).table) == RunPlain(Bindings(s.table), es, Acceptances(s, es))
    decreases |es|
  {
    if es == [] {
    } else {
      StepRefines(s, es[0]);
      StepAgrees(s, es[0]);
      RunRefinesPlainMap(Step(s, es[0]), es[1..]);
    }
  }

  // ---- Permanence ----

  /** A guid names the row of the peer's id and uuid. */
  ghost predicate IsAnchored(p: PeerRec, id: string, t: Table) {
    p.guid != [] ==> p.guid in t && t[p.guid].id == id && t[p.guid].uuid == p.uuid
  }

  /** Kept even when database calls fail. */
  ghost predicate AnchoredWith(c: Cache, t: Table) {
    SoundTable(t) && forall id | id in c :: IsAnchored(c[id], id, t)
  }

  ghost predicate Anchored(s: State) {
    AnchoredWith(s.cache, s.table)
  }

  ghost predicate NamesGuids(es: seq<Event>) {
    forall e | e in es && e.Register? :: e.env.guid != []
  }

  lemma BindStaysAnchored(c: Cache, t: Table, rk: PkRequest, addr: SocketAddr, env: Env)
    requires rk.id in c && rk.uuid != [] && env.guid != []
    requires AnchoredWith(c, t)
    ensures AnchoredWith(Bind(c, t, rk, addr, env).0, Bind(c, t, rk, addr, env).1)
  {
    if Admit(c, rk, addr.ip, env.now).2 {
      WrittenTable(c, t, rk, addr, env);
      var (c', t', _) := Bind(c, t, rk, addr, env);
      assert UniqueIds(t');
      forall i | i in c' ensures IsAnchored(c'[i], i, t') {
        if i != rk.id {
          assert c'[i] == c[i];
        }
      }
    }
  }

  /** Whatever the database calls do, no registration changes the uuid of a row or removes an id. */
  lemma BindKeepsUuids(c: Cache, t: Table, rk: PkRequest, addr: SocketAddr, env: Env, id: string)
    requires rk.id in c && rk.uuid != [] && env.guid != []
    requires AnchoredWith(c, t)
    ensures var t' := Bind(c, t, rk, addr, env).1;
            id in Bindings(t) ==> id in Bindings(t') && Bindings(t')[id].uuid == Bindings(t)[id].uuid
  {
    if Admit(c, rk, addr.ip, env.now).2 {
      var p, row := c[rk.id], Row(rk.id, rk.uuid, rk.pk, addr.ip);
      WrittenTable(c, t, rk, addr, env);
      if p.guid != [] {
        FindIsUnique(t, p.guid);
        UpdateBinds(t, p.guid, row);
      } else if InsertAccepted(t, rk.id, env.guid, env.writeOk) {
        InsertBinds(t, env.guid, row);
      }
    }
  }

  lemma StepKeepsUuids(s: State, e: Event, id: string)
    requires Anchored(s) && NamesGuids([e])
    ensures Anchored(Step(s, e))
    ensures id in Bindings(s.table) ==>
              id in Bindings(Step(s, e).table) && Bindings(Step(s, e).table)[id].uuid == Bindings(s.table)[id].uuid
  {
    if e.Register? {
      assert e in [e];
      RegisterIsBind(s, e);
    }
    if e.Register? && ReachesMap(s, e) {
      var c := LookupOr(s.cache, s.table, e.rk.id, e.env.now, e.env.readOk);
      BindStaysAnchored(c, s.table, e.rk, e.addr, e.env);
      BindKeepsUuids(c, s.table, e.rk, e.addr, e.env, id);
    }
  }

  /** Once an id has a row, no run changes its uuid: restarts and failing calls included. */
  lemma {:induction false} DurableUuidIsPermanent(s: State, es: seq<Event>, id: string)
    requires Anchored(s) && NamesGuids(es)
    requires id in Bindings(s.table)
    ensures id in Bindings(Run(s, es).table)
    ensures Bindings(Run(s, es).table)[id].uuid == Bindings(s.table)[id].uuid
    decreases |es|
  {
    if es == [] {
    } else {
      assert es[0] in es && forall e | e in es[1..] :: e in es;
      StepKeepsUuids(s, es[0], id);
      DurableUuidIsPermanent(Step(s, es[0]), es[1..], id);
    }
  }

  /** A change of pk answers a registration from the recorded ip. */
  lemma PkChangesFromRecordedIp(s: State, e: Event, id: string)
    requires Agrees(s) && Healthy(s, e) && id in Bindings(s.table)
    ensures id in Bindings(Step(s, e).table)
    ensures var before, after := Bindings(s.table)[id], Bindings(Step(s, e).table)[id];
            && after.uuid == before.uuid
            && (after.pk != before.pk ==>
                  Accepts(s, e) && e.rk.id == id && e.rk.pk == after.pk && e.addr.ip == before.ip == after.ip)
            && (after.ip != before.ip ==> Accepts(s, e) && e.rk.id == id && after.pk == before.pk)
  {
    StepRefines(s, e);
    if e.Register? {
      RefusalIsPlain(s, e);
    }
  }

  ghost function At(s: State, es: seq<Event>, k: nat): State
    requires k <= |es|
  {
    Run(s, es[..k])
  }

  lemma AtLater(s: State, es: seq<Event>, j: nat)
    requires j < |es|
    ensures At(s, es, j + 1) == At(Step(s, es[0]), es[1..], j)
  {
    assert es[..j + 1][1..] == es[1..][..j];
  }

  /** If a pk differs at the end of a healthy run, some registration in it changed the pk and came
      from the ip that was on record at that moment. */
  lemma {:induction false} PkChangeHasItsMoment(s: State, es: seq<Event>, id: string) returns (k: nat)
    requires Agrees(s) && HealthyRun(s, es) && id in Bindings(s.table)
    requires id in Bindings(Run(s, es).table) && Bindings(Run(s, es).table)[id].pk != Bindings(s.table)[id].pk
    ensures k < |es| && id in Bindings(At(s, es, k).table)
    ensures Accepts(At(s, es, k), es[k]) && es[k].rk.id == id
    ensures es[k].addr.ip == Bindings(At(s, es, k).table)[id].ip
    ensures es[k].rk.pk != Bindings(At(s, es, k).table)[id].pk
    decreases |es|
  {
    hide Step, Accepts, Agrees, Bindings, Healthy;
    var s' := Step(s, es[0]);
    PkChangesFromRecordedIp(s, es[0], id);
    StepAgrees(s, es[0]);
    if Bindings(s'.table)[id].pk != Bindings(s.table)[id].pk {
      k := 0;
    } else {
      var j := PkChangeHasItsMoment(s', es[1..], id);
      k := j + 1;
      AtLater(s, es, j);
    }
  }

  // ---- Without healthy calls ----

  /** The id is bound in the table, and in memory to a uuid of its own without a guid. */
  ghost predicate Usurped(s: State, id: string, uuid: Bytes) {
    && Anchored(s) && id in Bindings(s.table)
    && uuid != [] && id in s.cache && s.cache[id].guid == [] && s.cache[id].uuid == uuid
  }

  lemma BindStaysUsurped(s: State, e: Event, uuid: Bytes)
    requires e.Register? && ReachesMap(s, e) && e.env.guid != [] && Usurped(s, e.rk.id, uuid)
    ensures var (c, t, reply) := Bind(s.cache, s.table, e.rk, e.addr, e.env);
            && e.rk.id in c && c[e.rk.id].guid == [] && c[e.rk.id].uuid == uuid && t == s.table
            && (e.rk.uuid != uuid ==> reply == UuidMismatch)
  {
    var p := s.cache[e.rk.id];
    if Admit(s.cache, e.rk, e.addr.ip, e.env.now).2 {
      assert e.rk.uuid == uuid;
      WrittenTable(s.cache, s.table, e.rk, e.addr, e.env);
    }
  }

  lemma RegisterStaysUsurped(s: State, e: Event, id: string, uuid: Bytes)
    requires Usurped(s, id, uuid) && e.Register? && ReachesMap(s, e) && e.env.guid != []
    ensures var s' := Step(s, e);
            id in s'.cache && s'.cache[id].guid == [] && s'.cache[id].uuid == uuid
    ensures e.rk.id == id && e.rk.uuid != uuid ==> RegisterPk(s, e.rk, e.addr, e.env).1 == UuidMismatch
  {
    RegisterIsBind(s, e);
    hide Admit, Bind, Bindings, RegisterPk, Step;
    if e.rk.id == id {
      BindStaysUsurped(s, e, uuid);
    } else {
      BindOnePeer(LookupOr(s.cache, s.table, e.rk.id, e.env.now, e.env.readOk), s.table, e.rk, e.addr, e.env);
    }
  }

  /** Every step but a restart keeps this, whatever its database calls do, and refuses the id to any
      other uuid. */
  lemma StaysUsurped(s: State, e: Event, id: string, uuid: Bytes)
    requires Usurped(s, id, uuid) && !e.Restart? && NamesGuids([e])
    ensures Usurped(Step(s, e), id, uuid)
    ensures Bindings(Step(s, e).table)[id].uuid == Bindings(s.table)[id].uuid
    ensures e.Register? && e.rk.id == id && e.rk.uuid != uuid ==>
              !Accepts(s, e) && (ReachesMap(s, e) ==> RegisterPk(s, e.rk, e.addr, e.env).1 == UuidMismatch)
  {
    StepKeepsUuids(s, e, id);
    hide Bindings, Anchored;
    if e.Register? {
      assert e in [e];
      RegisterIsBind(s, e);
      hide RegisterPk;
      if ReachesMap(s, e) {
        RegisterStaysUsurped(s, e, id, uuid);
      }
    }
  }

  /** Until a restart the usurping uuid stays in memory, every registration of the id under another
      uuid is refused, the rightful one included, and the table keeps the rightful one. */
  lemma {:induction false} UsurpedUntilRestart(s: State, es: seq<Event>, id: string, uuid: Bytes, k: nat)
    requires Usurped(s, id, uuid) && NamesGuids(es) && forall e | e in es :: !e.Restart?
    ensures Usurped(Run(s, es), id, uuid)
    ensures Bindings(Run(s, es).table)[id].uuid == Bindings(s.table)[id].uuid
    ensures k < |es| && Accepts(At(s, es, k), es[k]) && es[k].rk.id == id ==> es[k].rk.uuid == uuid
    decreases |es|
  {
    if es == [] {
    } else {
      assert es[0] in es && forall e | e in es[1..] :: e in es;
      hide Step, Bindings, Usurped, Accepts, RegisterPk;
      StaysUsurped(s, es[0], id, uuid);
      UsurpedUntilRestart(Step(s, es[0]), es[1..], id, uuid, if k == 0 then 0 else k - 1);
      if 0 < k < |es| {
        AtLater(s, es, k - 1);
      }
    }
  }

  /** A restart forgets it: memory and table agree again. */
  lemma RestartRestores(s: State)
    requires Anchored(s)
    ensures Agrees(Step(s, Restart))
  {
  }

  /** It takes one failed read. */
  lemma FailedReadUsurps(s: State, e: Event)
    requires Anchored(s) && e.Register? && ReachesMap(s, e) && e.env.guid != []
    requires e.rk.id !in s.cache && !e.env.readOk && e.rk.id in Bindings(s.table)
    ensures Accepts(s, e) && Usurped(Step(s, e), e.rk.id, e.rk.uuid) && Step(s, e).table == s.table
  {
    RegisterIsBind(s, e);
    StepKeepsUuids(s, e, e.rk.id);
    var c := LookupOr(s.cache, s.table, e.rk.id, e.env.now, false);
    assert c[e.rk.id] == DefaultPeer(e.env.now);
    WrittenTable(c, s.table, e.rk, e.addr, e.env);
  }

  /** A run from the start: an id is registered, the server restarts, and while a read fails another
      uuid is accepted for the id. */
  lemma FailedReadBreaksAgreement()
    ensures var first := Register(PkRequest("abcdef", [1], [1]), SocketAddr("10.0.0.1", 9),
                                  Env(HOUR, [7], true, true));
            var second := Register(PkRequest("abcdef", [2], [2]), SocketAddr("10.0.0.2", 9),
                                   Env(HOUR, [8], false, true));
            var s := Run(INITIAL, [first, Restart]);
            && Agrees(s) && Accepts(s, second)
            && Run(INITIAL, [first, Restart, second]) == Step(s, second)
            && "abcdef" in Bindings(s.table) && Bindings(s.table)["abcdef"].uuid == [1]
            && Usurped(Step(s, second), "abcdef", [2]) && !Agrees(Step(s, second))
  {
    hide Utf8Length;
    var first := Register(PkRequest("abcdef", [1], [1]), SocketAddr("10.0.0.1", 9), Env(HOUR, [7], true, true));
    var second := Register(PkRequest("abcdef", [2], [2]), SocketAddr("10.0.0.2", 9), Env(HOUR, [8], false, true));
    var s := State(map[], map[[7] := Row("abcdef", [1], [1], "10.0.0.1")], map[]);
    FirstRegistration(first);
    RunRestart(INITIAL, first, second);
    FindIsUnique(s.table, [7]);
    FailedReadUsurps(s, second);
    assert Find(s.table, "abcdef").Some?;
  }

  lemma RunRestart(s: State, e: Event, e': Event)
    ensures Run(s, [e, Restart]) == State(map[], Step(s, e).table, map[])
    ensures Run(s, [e, Restart, e']) == Step(Run(s, [e, Restart]), e')
  {
    assert [e, Restart][1..] == [Restart] && [Restart][1..] == [];
    assert [e, Restart, e'][1..] == [Restart, e'] && [Restart, e'][1..] == [e'] && [e'][1..] == [];
    assert Run(Step(s, e), [Restart]) == Run(Step(Step(s, e), Restart), []);
    assert Run(Step(Step(s, e), Restart), [e']) == Run(Step(Step(Step(s, e), Restart), e'), []);
    assert Run(Step(s, e), [Restart, e']) == Run(Step(Step(s, e), Restart), [e']);
  }

  lemma FirstRegistration(e: Event)
    requires e.Register? && ReachesMap(INITIAL, e) && e.env.writeOk && e.env.guid != []
    ensures Step(INITIAL, e).table == map[e.env.guid := Row(e.rk.id, e.rk.uuid, e.rk.pk, e.addr.ip)]
  {
    RegisterIsBind(INITIAL, e);
    assert Find(INITIAL.table, e.rk.id).None?;
  }
}
