/** Services with live and pending subscribers, and the server that subscribes connections to them. */
module PubSub {
  import opened Wrappers
  import opened CursorStream

  /** A service as maps from subscriber ids to what each has cached and sent. */
  datatype Service = Service(
    live: map<nat, Sent>,
    pending: map<nat, Sent>,
    needSnapshot: bool,
    caching: bool,
    active: bool)

  function AfterSubscribe(v: Service, id: nat): Service {
    if id in v.live then v
    else if v.needSnapshot then v.(pending := v.pending[id := NOTHING])
    else v.(live := v.live[id := NOTHING])
  }

  function AfterUnsubscribe(v: Service, id: nat): Service {
    if id in v.live then v.(live := v.live - {id}) else v.(pending := v.pending - {id})
  }

  function SendEach(m: map<nat, Sent>, caching: bool, msg: Message): map<nat, Sent> {
    map id | id in m :: AfterSend(m[id], caching, msg)
  }

  function AfterSendShared(v: Service, msg: Message): Service {
    v.(live := SendEach(v.live, v.caching, msg))
  }

  function AfterSendNew(v: Service, msg: Message): Service {
    v.(pending := SendEach(v.pending, v.caching, msg))
  }

  function AfterSwap(v: Service): Service {
    v.(live := v.live + v.pending, pending := map[])
  }

  /** A snapshot whose callback sends one message, or fails before it sends any. */
  function AfterSnapshot(v: Service, msg: Option<Message>): Service {
    if v.pending == map[] then v
    else AfterSwap(if msg.Some? then AfterSendNew(v, msg.value) else v)
  }

  /** No subscriber is both live and pending, and only services with snapshots have pending ones. */
  predicate Sound(v: Service) {
    v.live.Keys !! v.pending.Keys && (!v.needSnapshot ==> v.pending == map[])
  }

  /** After a snapshot, even one whose callback failed, nobody is pending and everybody who was is live,
      with the snapshot's message if it was sent. */
  lemma SnapshotPromotes(v: Service, msg: Option<Message>)
    requires Sound(v)
    ensures var v' := AfterSnapshot(v, msg);
            && Sound(v') && v'.pending == map[]
            && v'.live.Keys == v.live.Keys + v.pending.Keys
            && (forall id | id in v.live :: v'.live[id] == v.live[id])
            && (forall id | id in v.pending ::
                  v'.live[id] == if msg.Some? then AfterSend(v.pending[id], v.caching, msg.value) else v.pending[id])
  {
  }

  /** A broadcast adds the message, as it is unless the subscribers cache, to what each live subscriber has
      sent, and leaves the pending ones alone. */
  lemma BroadcastIs(v: Service, msg: Message)
    ensures var v' := AfterSendShared(v, msg);
            && v'.live.Keys == v.live.Keys && v'.pending == v.pending
            && forall id | id in v.live ::
                 if !v.caching || !msg.CursorData? then
                   v'.live[id].wire == v.live[id].wire + [msg] && v'.live[id].cached == v.live[id].cached
                 else
                   v'.live[id].wire[..|v.live[id].wire|] == v.live[id].wire
                   && |v'.live[id].wire| == |v.live[id].wire| + 1
  {
  }

  class ServiceInner {
    var subscribes: map<nat, Subscriber>
    var newSubscribes: map<nat, Subscriber>
    var active: bool
    const needSnapshot: bool
    const caching: bool

    constructor (needSnapshot: bool, caching: bool)
      ensures Valid() && View() == Service(map[], map[], needSnapshot, caching, true)
      ensures this.needSnapshot == needSnapshot && this.caching == caching
      ensures subscribes == map[] && newSubscribes == map[]
    {
      this.needSnapshot, this.caching := needSnapshot, caching;
      subscribes, newSubscribes, active := map[], map[], true;
    }

    ghost predicate Valid()
      reads this, subscribes.Values, newSubscribes.Values
    {
      && Entries(subscribes) && Entries(newSubscribes)
      && subscribes.Keys !! newSubscribes.Keys
      && (!needSnapshot ==> newSubscribes == map[])
    }

    /** Every subscriber is stored under its own id. */
    ghost predicate Entries(m: map<nat, Subscriber>)
      reads m.Values
    {
      forall id | id in m :: m[id].id == id && m[id].caching == caching
    }

    ghost function View(): Service
      reads this, subscribes.Values, newSubscribes.Values
    {
      Service(Values(subscribes), Values(newSubscribes), needSnapshot, caching, active)
    }

    ghost function Values(m: map<nat, Subscriber>): map<nat, Sent>
      reads m.Values
    {
      map id | id in m :: m[id].Value()
    }

    method Subscribe(id: nat)
      requires Valid()
      modifies this
      ensures Valid() && View() == AfterSubscribe(old(View()), id)
    {
      if id in subscribes {
        return;
      }
      var sub := new Subscriber(id, caching);
      ghost var live, pending := subscribes, newSubscribes;
      if needSnapshot {
        newSubscribes := newSubscribes[id := sub];
        OneMoreEntry(pending, id, sub);
      } else {
        subscribes := subscribes[id := sub];
        OneMoreEntry(live, id, sub);
      }
      assert Values(live) == old(Values(live)) && Values(pending) == old(Values(pending));
    }

    lemma OneMoreEntry(m: map<nat, Subscriber>, id: nat, sub: Subscriber)
      requires Entries(m) && sub.id == id && sub.caching == caching
      ensures Entries(m[id := sub]) && Values(m[id := sub]) == Values(m)[id := sub.Value()]
    {
    }

    lemma ViewIsSound()
      requires Valid()
      ensures Sound(View())
    {
      assert View().live.Keys == subscribes.Keys && View().pending.Keys == newSubscribes.Keys;
    }

    method Unsubscribe(id: nat)
      requires Valid()
      modifies this
      ensures Valid() && View() == AfterUnsubscribe(old(View()), id)
    {
      if id in subscribes {
        subscribes := subscribes - {id};
        assert Values(subscribes) == old(Values(subscribes)) - {id};
      } else {
        newSubscribes := newSubscribes - {id};
        assert Values(newSubscribes) == old(Values(newSubscribes)) - {id};
      }
    }

    /** The loop over all subscribers of one map. */
    method SendToEach(m: map<nat, Subscriber>, msg: Message)
      requires Entries(m)
      modifies m.Values
      ensures forall id | id in m :: m[id].Value() == AfterSend(old(m[id].Value()), caching, msg)
      ensures !caching ==> forall id | id in m :: m[id].wire == old(m[id].wire) + [msg]
    {
      var todo := m.Keys;
      while todo != {}
        invariant todo <= m.Keys
        invariant forall id | id in m ::
                    m[id].Value() == if id in todo then old(m[id].Value())
                                     else AfterSend(old(m[id].Value()), caching, msg)
        invariant !caching ==> forall id | id in m && id !in todo :: m[id].wire == old(m[id].wire) + [msg]
      {
        var id :| id in todo;
        m[id].Send(msg);
        todo := todo - {id};
      }
    }

    method SendShared(msg: Message)
      requires Valid()
      modifies subscribes.Values
      ensures Valid() && View() == AfterSendShared(old(View()), msg)
      ensures !caching ==> forall id | id in subscribes :: subscribes[id].wire == old(subscribes[id].wire) + [msg]
    {
      hide AfterSend, Sound;
      Apart();
      SendToEach(subscribes, msg);
      assert Values(newSubscribes) == old(Values(newSubscribes));
      assert Values(subscribes) == SendEach(old(Values(subscribes)), caching, msg);
    }

    method SendNewSubscribes(msg: Message)
      requires Valid()
      modifies newSubscribes.Values
      ensures Valid() && View() == AfterSendNew(old(View()), msg)
      ensures !caching ==>
                forall id | id in newSubscribes :: newSubscribes[id].wire == old(newSubscribes[id].wire) + [msg]
    {
      hide AfterSend, Sound;
      Apart();
      SendToEach(newSubscribes, msg);
      assert Values(subscribes) == old(Values(subscribes));
      assert Values(newSubscribes) == SendEach(old(Values(newSubscribes)), caching, msg);
    }

    /** Live and pending subscribers are different objects. */
    lemma Apart()
      requires Valid()
      ensures subscribes.Values !! newSubscribes.Values
    {
      forall s | s in subscribes.Values ensures s !in newSubscribes.Values {
        var i :| i in subscribes && subscribes[i] == s;
      }
    }

    method SwapNewSubscribes()
      requires Valid()
      modifies this
      ensures Valid() && View() == AfterSwap(old(View()))
      ensures newSubscribes == map[]
      ensures subscribes == old(subscribes) + old(newSubscribes)
    {
      ghost var live, pending := subscribes, newSubscribes;
      subscribes := Drain(subscribes, newSubscribes);
      newSubscribes := map[];
      assert Values(live) == old(Values(live)) && Values(pending) == old(Values(pending));
      UnionOfEntries(live, pending);
    }

    lemma UnionOfEntries(a: map<nat, Subscriber>, b: map<nat, Subscriber>)
      requires Entries(a) && Entries(b)
      ensures Entries(a + b) && Values(a + b) == Values(a) + Values(b)
    {
    }

    /** Moving the pending subscribers over one by one. */
    static method Drain(subs: map<nat, Subscriber>, pending: map<nat, Subscriber>)
      returns (r: map<nat, Subscriber>)
      requires forall id | id in pending :: pending[id].id == id
      ensures r == subs + pending
    {
      r := subs;
      var todo := pending.Keys;
      while todo != {}
        invariant todo <= pending.Keys
        invariant forall id :: id in r <==> id in subs || (id in pending && id !in todo)
        invariant forall id | id in r :: r[id] == if id in pending && id !in todo then pending[id] else subs[id]
      {
        var id :| id in todo;
        r := r[pending[id].id := pending[id]];
        todo := todo - {id};
      }
    }

    /** Afterwards nobody is pending, and everybody who was is live. */
    method Snapshot(msg: Option<Message>)
      requires Valid()
      modifies this, newSubscribes.Values
      ensures Valid() && View() == AfterSnapshot(old(View()), msg)
      ensures Sound(View()) && View().pending == map[]
      ensures View().live.Keys == old(View().live.Keys + View().pending.Keys)
      ensures !caching && msg.Some? ==>
                forall id | id in old(View().pending) ::
                  View().live[id].wire == old(View().pending[id].wire) + [msg.value]
      ensures forall id | id in old(View().live) :: View().live[id] == old(View().live[id])
    {
      ViewIsSound();
      SnapshotPromotes(View(), msg);
      if |newSubscribes| > 0 {
        SomePending();
        if msg.Some? {
          SendNewSubscribes(msg.value);
        }
        SwapNewSubscribes();
      }
    }

    lemma SomePending()
      requires newSubscribes != map[]
      ensures View().pending != map[]
    {
      assert newSubscribes.Keys == View().pending.Keys;
    }
  }
}
