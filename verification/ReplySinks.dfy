/** The table of TCP reply sinks, shared by the connection tasks of the rendezvous server.
    Every acquisition of its lock is one step; steps of different tasks interleave freely. */
module ReplySinks {
  import opened Wrappers
  import opened Net

  /** An accepted connection; its sink is named by it. */
  type Conn = nat

  type Table = map<SocketAddr, Conn>

  // ---- The three critical sections ----

  /** Parking a sink the task still holds. */
  function Parked(t: Table, addr: SocketAddr, sink: Option<Conn>): Table {
    if sink.Some? then t[addr := sink.value] else t
  }

  function At(t: Table, addr: SocketAddr): Option<Conn> {
    if addr in t then Some(t[addr]) else None
  }

  class TcpPunch {
    var sinks: Table

    constructor ()
      ensures sinks == map[]
    {
      sinks := map[];
    }

    /** A request that will be answered later gives its sink away; a repeated one has none left. */
    method Park(addr: SocketAddr, sink: Option<Conn>) returns (left: Option<Conn>)
      modifies this
      ensures sinks == Parked(old(sinks), addr, sink)
      ensures left == None
    {
      if sink.Some? {
        sinks := sinks[addr := sink.value];
      }
      return None;
    }

    /** The sink to answer an address on, if it is still there; nobody else can get it any more. */
    method Take(addr: SocketAddr) returns (sink: Option<Conn>)
      modifies this
      ensures sinks == old(sinks) - {addr}
      ensures sink == At(old(sinks), addr)
    {
      sink := if addr in sinks then Some(sinks[addr]) else None;
      sinks := sinks - {addr};
    }

    /** The end of a connection task. */
    method Close(addr: SocketAddr, sink: Option<Conn>)
      modifies this
      ensures sinks == if sink.None? then old(sinks) - {addr} else old(sinks)
    {
      if sink.None? {
        sinks := sinks - {addr};
      }
    }
  }

  // ---- The interleaved system ----

  /** A running task: its `sink` variable, and whether it has left its message loop. */
  datatype Task = Task(addr: SocketAddr, sink: Option<Conn>, closing: bool)

  /** `taken` are sinks out of the table on their way to one send, `spent` are used up or gone with
      their own task, `cut` were closed in the table by another task; `replies` counts the messages
      sent on each sink. */
  datatype State = State(
    tasks: map<Conn, Task>,
    table: Table,
    taken: set<Conn>,
    spent: set<Conn>,
    cut: set<Conn>,
    replies: map<Conn, nat>)

  datatype Event =
    | Accept(c: Conn, addr: SocketAddr)
    | Request(c: Conn)                     // punch_hole_request or request_relay
    | DirectReply(c: Conn)                 // test_nat_request or register_pk
    | LastMessage(c: Conn)                 // any other message, a timeout or the end of the stream
    | ReplyTo(addr: SocketAddr)            // some task takes the sink of an address
    | Send(c: Conn, sent: bool)            // the send on a taken sink is made, or fails
    | End(c: Conn)

  const INITIAL := State(map[], map[], {}, {}, {}, map[])

  predicate Enabled(s: State, e: Event) {
    match e
    case Accept(c, _) => c !in s.replies
    case Request(c) => c in s.tasks && !s.tasks[c].closing
    case DirectReply(c) => c in s.tasks && !s.tasks[c].closing
    case LastMessage(c) => c in s.tasks && !s.tasks[c].closing
    case ReplyTo(_) => true
    case Send(c, _) => c in s.taken && c in s.replies
    case End(c) => c in s.tasks && s.tasks[c].closing
  }

  function Replied(s: State, sink: Option<Conn>): map<Conn, nat> {
    if sink.Some? && sink.value in s.replies then s.replies[sink.value := s.replies[sink.value] + 1] else s.replies
  }

  function Step(s: State, e: Event): State
    requires Enabled(s, e)
  {
    match e
    case Accept(c, addr) =>
      s.(tasks := s.tasks[c := Task(addr, Some(c), false)], replies := s.replies[c := 0])
    case Request(c) =>
      var k := s.tasks[c];
      s.(tasks := s.tasks[c := k.(sink := None)],
         table := Parked(s.table, k.addr, k.sink),
         cut := if k.sink.Some? then With(s.cut, At(s.table, k.addr)) else s.cut)
    case DirectReply(c) =>
      var k := s.tasks[c];
      s.(tasks := s.tasks[c := k.(closing := true)], replies := Replied(s, k.sink))
    case LastMessage(c) =>
      s.(tasks := s.tasks[c := s.tasks[c].(closing := true)])
    case ReplyTo(addr) =>
      s.(table := s.table - {addr}, taken := With(s.taken, At(s.table, addr)))
    case Send(c, sent) =>
      s.(taken := s.taken - {c}, spent := s.spent + {c}, replies := if sent then Replied(s, Some(c)) else s.replies)
    case End(c) =>
      var k := s.tasks[c];
      if k.sink.Some? then
        s.(tasks := s.tasks - {c}, spent := With(s.spent, k.sink))
      else
        var closed := At(s.table, k.addr);
        s.(tasks := s.tasks - {c},
           table := s.table - {k.addr},
           spent := if closed == Some(c) then s.spent + {c} else s.spent,
           cut := if closed != Some(c) then With(s.cut, closed) else s.cut)
  }

  function With(cs: set<Conn>, c: Option<Conn>): set<Conn> {
    if c.Some? then cs + {c.value} else cs
  }

  ghost predicate Enableds(s: State, es: seq<Event>)
    decreases |es|
  {
    es == [] || (Enabled(s, es[0]) && Enableds(Step(s, es[0]), es[1..]))
  }

  ghost function Run(s: State, es: seq<Event>): State
    requires Enableds(s, es)
    decreases |es|
  {
    if es == [] then s else Run(Step(s, es[0]), es[1..])
  }

  // ---- Linearity ----

  predicate Held(s: State, c: Conn) {
    c in s.tasks && s.tasks[c].sink == Some(c)
  }

  /** Stored under the address of its own task, which is still running. */
  predicate Stored(s: State, c: Conn) {
    c in s.tasks && s.tasks[c].addr in s.table && s.table[s.tasks[c].addr] == c
  }

  /** In how many places the sink of a connection is. */
  function Places(s: State, c: Conn): nat {
    (if Held(s, c) then 1 else 0) + (if Stored(s, c) then 1 else 0)
    + (if c in s.taken then 1 else 0) + (if c in s.spent then 1 else 0) + (if c in s.cut then 1 else 0)
  }

  /** The sink is in one place, and answered at most once, which was its last use. */
  predicate SinkIsLinear(s: State, c: Conn)
    requires c in s.replies
  {
    && Places(s, c) == 1
    && s.replies[c] <= 1
    && (s.replies[c] == 1 ==> c in s.spent || (Held(s, c) && s.tasks[c].closing))
  }

  /** Tasks hold only their own sinks, and the table only those of running tasks under their addresses. */
  ghost predicate Owned(s: State) {
    && (forall c | c in s.tasks :: c in s.replies && (s.tasks[c].sink == None || s.tasks[c].sink == Some(c)))
    && (forall a | a in s.table :: s.table[a] in s.tasks && s.tasks[s.table[a]].addr == a)
    && s.taken <= s.replies.Keys && s.spent <= s.replies.Keys && s.cut <= s.replies.Keys
  }

  ghost predicate Linear(s: State) {
    Owned(s) && forall c | c in s.replies :: SinkIsLinear(s, c)
  }

  lemma HeldIsNotStored(s: State, c: Conn)
    requires Linear(s) && Held(s, c)
    ensures !Stored(s, c)
  {
    assert SinkIsLinear(s, c);
  }

  /** Whatever the step, each sink stays in one place. */
  lemma SinkStaysLinear(s: State, e: Event, c: Conn)
    requires Owned(s) && Enabled(s, e)
    requires if c in s.replies then SinkIsLinear(s, c) else e.Accept? && e.c == c
    ensures c in Step(s, e).replies && SinkIsLinear(Step(s, e), c)
  {
    match e
    case Accept(_, _) =>
    case Request(_) =>
    case DirectReply(_) =>
    case LastMessage(_) =>
    case ReplyTo(_) =>
    case Send(_, _) =>
    case End(_) =>
  }

  lemma OwnersStay(s: State, e: Event)
    requires Linear(s) && Enabled(s, e)
    ensures Owned(Step(s, e))
  {
    hide SinkIsLinear;
    if e.End? {
      EndClearsTable(s, e);
    }
  }

  /** The table keeps no sink of a task that ends: a sink it gave away is taken out, one it holds is
      not there. */
  lemma EndClearsTable(s: State, e: Event)
    requires Linear(s) && Enabled(s, e) && e.End?
    ensures Owned(Step(s, e))
  {
    hide SinkIsLinear;
    if Held(s, e.c) {
      HeldIsNotStored(s, e.c);
    }
  }

  lemma StepIsLinear(s: State, e: Event)
    requires Linear(s) && Enabled(s, e)
    ensures Linear(Step(s, e))
  {
    OwnersStay(s, e);
    hide SinkIsLinear, Owned;
    forall c | c in Step(s, e).replies ensures SinkIsLinear(Step(s, e), c) {
      SinkStaysLinear(s, e, c);
    }
  }

  /** In every interleaving, addresses shared or not, each sink is in exactly one place: held by its
      task, stored under its task's address, on its way to a send, used up, or cut. At most one reply
      is ever sent on it, and no entry of the table outlives its task. */
  lemma {:induction false} SinksAreLinear(s: State, es: seq<Event>)
    requires Linear(s) && Enableds(s, es)
    ensures Linear(Run(s, es))
    decreases |es|
  {
    if es == [] {
    } else {
      StepIsLinear(s, es[0]);
      SinksAreLinear(Step(s, es[0]), es[1..]);
    }
  }

  lemma ReachableSinks(es: seq<Event>, c: Conn, a: SocketAddr)
    requires Enableds(INITIAL, es)
    ensures var s := Run(INITIAL, es);
            && (c in s.replies ==> s.replies[c] <= 1 && Places(s, c) == 1)
            && (c in s.cut ==> c in s.replies && s.replies[c] == 0)
            && (a in s.table ==> s.table[a] in s.tasks && s.tasks[s.table[a]].addr == a)
  {
    SinksAreLinear(INITIAL, es);
  }

  /** A step sends a reply on a sink exactly when its task answers on it directly, or it was taken for a
      reply and the send is made; the count then goes up by one, and it stays with every other step. */
  lemma RepliesIff(s: State, e: Event, c: Conn)
    requires Linear(s) && Enabled(s, e) && c in s.replies
    ensures c in Step(s, e).replies
    ensures Step(s, e).replies[c]
         == if (e == DirectReply(c) && Held(s, c)) || e == Send(c, true) then 1 else s.replies[c]
    ensures e == Send(c, true) ==> s.replies[c] == 0
    ensures e == DirectReply(c) && Held(s, c) ==> s.replies[c] == 0
  {
    assert SinkIsLinear(s, c);
  }

  // ---- When a sink is cut ----

  /** Another task of the same address parks a sink, or ends after it gave its own away. */
  predicate Displaces(s: State, e: Event, c: Conn)
    requires Enabled(s, e)
  {
    && (e.Request? || e.End?) && e.c != c && c in s.tasks && s.tasks[e.c].addr == s.tasks[c].addr
    && (s.tasks[e.c].sink.Some? <==> e.Request?)
  }

  /** A sink is cut by a step exactly when it is stored and another task displaces it. */
  lemma CutIff(s: State, e: Event, c: Conn)
    requires Linear(s) && Enabled(s, e)
    ensures c in Step(s, e).cut <==> c in s.cut || (Stored(s, c) && Displaces(s, e, c))
  {
    if c in s.replies {
      assert SinkIsLinear(s, c);
    }
  }

  /** How a stored sink goes: a reply takes it, its own task ends, or another task displaces it. */
  lemma StoredEndsIff(s: State, e: Event, c: Conn)
    requires Linear(s) && Enabled(s, e) && Stored(s, c)
    ensures c in Step(s, e).taken <==> e == ReplyTo(s.tasks[c].addr)
    ensures c in Step(s, e).spent <==> e == End(c)
    ensures c in Step(s, e).cut <==> Displaces(s, e, c)
    ensures Stored(Step(s, e), c) <==> e != ReplyTo(s.tasks[c].addr) && e != End(c) && !Displaces(s, e, c)
  {
    CutIff(s, e, c);
    assert SinkIsLinear(s, c);
  }

  /** Some step of the run displaces the sink while it is stored. */
  ghost predicate EverDisplaced(s: State, es: seq<Event>, c: Conn)
    requires Enableds(s, es)
    decreases |es|
  {
    es != [] && ((Stored(s, c) && Displaces(s, es[0], c)) || EverDisplaced(Step(s, es[0]), es[1..], c))
  }

  lemma {:induction false} CutInRunIff(s: State, es: seq<Event>, c: Conn)
    requires Linear(s) && Enableds(s, es)
    ensures c in Run(s, es).cut <==> c in s.cut || EverDisplaced(s, es, c)
    decreases |es|
  {
    if es == [] {
    } else {
      CutIff(s, es[0], c);
      StepIsLinear(s, es[0]);
      CutInRunIff(Step(s, es[0]), es[1..], c);
    }
  }

  /** In any run from the start a sink is lost to another task exactly when one of its address
      displaces it while it is stored. */
  lemma SinkIsCutIff(es: seq<Event>, c: Conn)
    requires Enableds(INITIAL, es)
    ensures c in Run(INITIAL, es).cut <==> EverDisplaced(INITIAL, es, c)
  {
    CutInRunIff(INITIAL, es, c);
  }

  // ---- Distinct addresses ----

  predicate Distinct(s: State) {
    forall c, d | c in s.tasks && d in s.tasks && s.tasks[c].addr == s.tasks[d].addr :: c == d
  }

  /** The step accepts no connection from the address of a running task. */
  predicate NewAddress(s: State, e: Event) {
    e.Accept? ==> forall d | d in s.tasks :: s.tasks[d].addr != e.addr
  }

  ghost predicate NewAddresses(s: State, es: seq<Event>)
    requires Enableds(s, es)
    decreases |es|
  {
    es != [] ==> NewAddress(s, es[0]) && NewAddresses(Step(s, es[0]), es[1..])
  }

  lemma StaysDistinct(s: State, e: Event)
    requires Distinct(s) && Enabled(s, e) && NewAddress(s, e)
    ensures Distinct(Step(s, e))
  {
  }

  lemma {:induction false} NeverDisplaced(s: State, es: seq<Event>, c: Conn)
    requires Distinct(s) && Enableds(s, es) && NewAddresses(s, es)
    ensures !EverDisplaced(s, es, c)
    decreases |es|
  {
    if es == [] {
    } else {
      StaysDistinct(s, es[0]);
      NeverDisplaced(Step(s, es[0]), es[1..], c);
    }
  }

  /** While running tasks have distinct addresses, each sink is held, stored, taken for its reply or
      used up. */
  lemma DistinctSinksAreNeverCut(es: seq<Event>, c: Conn)
    requires Enableds(INITIAL, es) && NewAddresses(INITIAL, es)
    ensures var s := Run(INITIAL, es);
            && c !in s.cut
            && (c in s.replies ==> Held(s, c) || Stored(s, c) || c in s.taken || c in s.spent)
  {
    NeverDisplaced(INITIAL, es, c);
    SinkIsCutIff(es, c);
    ReachableSinks(es, c, UNSPECIFIED);
  }

  /** The address of a held sink is then free when it is parked. */
  lemma ParkingOverwritesNothing(s: State, c: Conn)
    requires Linear(s) && Distinct(s) && Enabled(s, Request(c)) && Held(s, c)
    ensures s.tasks[c].addr !in s.table
    ensures At(Step(s, Request(c)).table, s.tasks[c].addr) == Some(c)
  {
    HeldIsNotStored(s, c);
  }

  /** A run in which two connections of one address lose both their sinks unanswered: the second
      request overwrites the sink of the first, and the end of the first task clears that of the second. */
  lemma SharedAddressLosesSink(a: SocketAddr)
    ensures var es := [Accept(1, a), Request(1), Accept(2, a), Request(2)];
            Enableds(INITIAL, es) && Run(INITIAL, es) == FirstIsCut(a)
    ensures var es := [Accept(1, a), Request(1), Accept(2, a), Request(2), LastMessage(1), End(1)];
            && Enableds(INITIAL, es)
            && Run(INITIAL, es).cut == {1, 2} && Run(INITIAL, es).replies == map[1 := 0, 2 := 0]
            && 2 in Run(INITIAL, es).tasks
  {
    BothRequestsThen(a, []);
    assert [Accept(1, a), Request(1), Accept(2, a), Request(2)] + []
        == [Accept(1, a), Request(1), Accept(2, a), Request(2)];
    var t := FirstIsCut(a);
    OneStep(Step(t, LastMessage(1)), End(1), []);
    OneStep(t, LastMessage(1), [End(1)] + []);
    assert [LastMessage(1)] + ([End(1)] + []) == [LastMessage(1), End(1)];
    BothRequestsThen(a, [LastMessage(1), End(1)]);
    assert [Accept(1, a), Request(1), Accept(2, a), Request(2)] + [LastMessage(1), End(1)]
        == [Accept(1, a), Request(1), Accept(2, a), Request(2), LastMessage(1), End(1)];
  }

  function FirstIsCut(a: SocketAddr): State {
    State(map[1 := Task(a, None, false), 2 := Task(a, None, false)], map[a := 2], {}, {}, {1}, map[1 := 0, 2 := 0])
  }

  lemma BothRequestsThen(a: SocketAddr, es: seq<Event>)
    requires Enableds(FirstIsCut(a), es)
    ensures var fs := [Accept(1, a), Request(1), Accept(2, a), Request(2)] + es;
            Enableds(INITIAL, fs) && Run(INITIAL, fs) == Run(FirstIsCut(a), es)
  {
    var s1 := Step(INITIAL, Accept(1, a));
    var s2 := Step(s1, Request(1));
    var s3 := Step(s2, Accept(2, a));
    assert Step(s3, Request(2)) == FirstIsCut(a);
    var fs := es;
    OneStep(s3, Request(2), fs);
    fs := [Request(2)] + fs;
    OneStep(s2, Accept(2, a), fs);
    fs := [Accept(2, a)] + fs;
    OneStep(s1, Request(1), fs);
    fs := [Request(1)] + fs;
    OneStep(INITIAL, Accept(1, a), fs);
    assert [Accept(1, a)] + fs == [Accept(1, a), Request(1), Accept(2, a), Request(2)] + es;
  }

  lemma OneStep(s: State, e: Event, es: seq<Event>)
    requires Enabled(s, e) && Enableds(Step(s, e), es)
    ensures Enableds(s, [e] + es) && Run(s, [e] + es) == Run(Step(s, e), es)
  {
    assert ([e] + es)[1..] == es;
  }
}
