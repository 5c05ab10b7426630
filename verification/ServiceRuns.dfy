/** Runs of a service, whatever its kind: each subscriber gets its own stream, as if it were alone. */
module ServiceRuns {
  import opened Wrappers
  import opened CursorStream
  import opened PubSub

  /** A snapshot is one step here: its callback sends one message, or fails before it does. */
  datatype Event =
    | Join(id: nat)
    | Leave(id: nat)
    | Broadcast(msg: Message)
    | Snapshot(sent: Option<Message>)

  function Step(v: Service, e: Event): Service {
    match e
    case Join(id) => AfterSubscribe(v, id)
    case Leave(id) => AfterUnsubscribe(v, id)
    case Broadcast(msg) => AfterSendShared(v, msg)
    case Snapshot(msg) => AfterSnapshot(v, msg)
  }

  function Run(v: Service, es: seq<Event>): Service {
    if es == [] then v else Step(Run(v, es[..|es| - 1]), es[|es| - 1])
  }

  function Fresh(needSnapshot: bool, caching: bool): Service {
    Service(map[], map[], needSnapshot, caching, true)
  }

  // ---- One subscriber alone ----

  /** A live subscriber with the messages it was handed. */
  datatype Status = Absent | Pending | Live(handed: seq<Message>)

  /** A service with snapshots makes a new subscriber wait for one. */
  function Next(need: bool, id: nat, st: Status, e: Event): Status {
    match (e, st)
    case (Join(i), Absent) => if i != id then Absent else if need then Pending else Live([])
    case (Leave(i), _) => if i == id then Absent else st
    case (Broadcast(msg), Live(handed)) => Live(handed + [msg])
    case (Snapshot(msg), Pending) => Live(if msg.Some? then [msg.value] else [])
    case _ => st
  }

  function StatusOf(need: bool, id: nat, es: seq<Event>): Status {
    if es == [] then Absent else Next(need, id, StatusOf(need, id, es[..|es| - 1]), es[|es| - 1])
  }

  predicate Matches(v: Service, id: nat, st: Status) {
    match st
    case Absent => id !in v.live && id !in v.pending
    case Pending => id !in v.live && id in v.pending && v.pending[id] == NOTHING
    case Live(handed) => id in v.live && id !in v.pending && v.live[id] == SendAll(v.caching, handed)
  }

  lemma StepMatches(v: Service, id: nat, st: Status, e: Event)
    requires Sound(v) && Matches(v, id, st)
    ensures Sound(Step(v, e)) && Matches(Step(v, e), id, Next(v.needSnapshot, id, st, e))
    ensures Step(v, e).needSnapshot == v.needSnapshot && Step(v, e).caching == v.caching
  {
    match (e, st)
    case (Broadcast(msg), Live(handed)) => assert (handed + [msg])[..|handed|] == handed;
    case (Snapshot(msg), Pending) =>
      if msg.Some? {
        assert [msg.value][..0] == [];
      }
    case _ =>
  }

  lemma {:induction false} RunMatches(need: bool, caching: bool, id: nat, es: seq<Event>)
    ensures var v := Run(Fresh(need, caching), es);
            Sound(v) && v.needSnapshot == need && v.caching == caching && Matches(v, id, StatusOf(need, id, es))
    decreases |es|
  {
    if es == [] {
    } else {
      RunMatches(need, caching, id, es[..|es| - 1]);
      StepMatches(Run(Fresh(need, caching), es[..|es| - 1]), id, StatusOf(need, id, es[..|es| - 1]), es[|es| - 1]);
    }
  }

  /** In every run of a service that does not cache, a subscriber that would be live alone has been sent
      exactly the snapshot it was promoted by, if there was one, and every broadcast since, in order. */
  lemma PlainStream(need: bool, id: nat, es: seq<Event>)
    ensures var v, st := Run(Fresh(need, false), es), StatusOf(need, id, es);
            && (id in v.live <==> st.Live?) && (id in v.pending <==> st.Pending?)
            && (st.Live? ==> v.live[id].wire == st.handed)
  {
    RunMatches(need, false, id, es);
    if StatusOf(need, id, es).Live? {
      PlainWireIs(StatusOf(need, id, es).handed);
    }
  }

  predicate Stays(e: Event, id: nat) {
    e.Broadcast? || ((e.Join? || e.Leave?) && e.id != id)
  }

  function Broadcasts(es: seq<Event>): seq<Message> {
    if es == [] then []
    else Broadcasts(es[..|es| - 1]) + if es[|es| - 1].Broadcast? then [es[|es| - 1].msg] else []
  }

  /** Alone, a subscriber that joins, gets a snapshot and stays has the snapshot and then the broadcasts,
      none of those before the snapshot. */
  lemma {:induction false} SnapshotThenBroadcasts(es: seq<Event>, fs: seq<Event>, gs: seq<Event>, id: nat,
                                                  msg: Option<Message>)
    requires StatusOf(true, id, es).Absent?
    requires (forall e | e in fs :: Stays(e, id)) && (forall e | e in gs :: e.Snapshot? || Stays(e, id))
    ensures StatusOf(true, id, es + [Join(id)] + fs + [Snapshot(msg)] + gs)
         == Live((if msg.Some? then [msg.value] else []) + Broadcasts(gs))
    decreases |fs| + |gs|
  {
    var all := es + [Join(id)] + fs + [Snapshot(msg)] + gs;
    if gs != [] {
      var rest, last := gs[..|gs| - 1], gs[|gs| - 1];
      assert all[..|all| - 1] == es + [Join(id)] + fs + [Snapshot(msg)] + rest && all[|all| - 1] == last;
      assert last in gs && forall e | e in rest :: e in gs;
      SnapshotThenBroadcasts(es, fs, rest, id, msg);
    } else {
      var before := es + [Join(id)] + fs;
      assert all[..|all| - 1] == before && all[|all| - 1] == Snapshot(msg);
      WaitsPending(es, fs, id);
    }
  }

  lemma {:induction false} WaitsPending(es: seq<Event>, fs: seq<Event>, id: nat)
    requires StatusOf(true, id, es).Absent? && forall e | e in fs :: Stays(e, id)
    ensures StatusOf(true, id, es + [Join(id)] + fs) == Pending
    decreases |fs|
  {
    var all := es + [Join(id)] + fs;
    if fs == [] {
      assert all[..|all| - 1] == es && all[|all| - 1] == Join(id);
    } else {
      var rest, last := fs[..|fs| - 1], fs[|fs| - 1];
      assert all[..|all| - 1] == es + [Join(id)] + rest && all[|all| - 1] == last;
      assert last in fs && forall e | e in rest :: e in fs;
      WaitsPending(es, rest, id);
    }
  }
}
