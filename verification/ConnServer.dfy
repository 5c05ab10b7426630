/** The server's connections, subscribed to all services that their permissions allow. */
module ConnServer {
  import opened CursorStream
  import opened PubSub

  class Server {
    var connections: set<nat>
    var services: map<string, ServiceInner>

    ghost predicate Valid()
      reads this
    {
      forall m, n | m in services && n in services && services[m] == services[n] :: m == n
    }

    /** A twostate fact: services other than one are as before when only that one was written. */
    twostate lemma OthersUnchanged(name: string)
      requires Valid() && services == old(services) && name in services
      requires forall n | n in services && n != name :: services[n] != services[name] && old(services[n].Valid())
      requires forall n | n in services && n != name :: unchanged(services[n])
      requires forall n | n in services && n != name ::
                 unchanged(services[n].subscribes.Values) && unchanged(services[n].newSubscribes.Values)
      ensures forall n | n in services && n != name ::
                services[n].Valid() && services[n].View() == old(services[n].View())
    {
    }

    method SubscribeTo(name: string, id: nat, noperms: seq<string>)
      requires Valid() && name in services && forall n | n in services :: services[n].Valid()
      modifies services[name]
      ensures forall n | n in services :: services[n].Valid()
      ensures forall n | n in services ::
                services[n].View() == if n == name then AfterAdd(old(services[n].View()), n, noperms, id)
                                      else old(services[n].View())
    {
      hide ServiceInner.Valid, ServiceInner.View;
      if name !in noperms {
        label one:
        services[name].Subscribe(id);
        OthersUnchanged@one(name);
      }
    }

    method AddConnection(id: nat, noperms: seq<string>)
      requires Valid() && forall n | n in services :: services[n].Valid()
      modifies this`connections, services.Values
      ensures Valid() && forall n | n in services :: services[n].Valid()
      ensures connections == old(connections) + {id}
      ensures forall n | n in services :: services[n].View() == AfterAdd(old(services[n].View()), n, noperms, id)
      ensures forall n | n in services && n in noperms :: services[n].View() == old(services[n].View())
      ensures forall n | n in services ::
                Subscribed(services[n].View(), id) <==> Subscribed(old(services[n].View()), id) || n !in noperms
      ensures forall n | n in services :: OthersSame(old(services[n].View()), services[n].View(), id)
    {
      hide ServiceInner.Valid, ServiceInner.View, AfterAdd, Subscribed, OthersSame;
      ghost var before := map n | n in services :: services[n].View();
      var todo := services.Keys;
      while todo != {}
        invariant todo <= services.Keys && connections == old(connections)
        invariant forall n | n in services :: services[n].Valid()
        invariant forall n | n in services ::
                    services[n].View() == if n in todo then before[n] else AfterAdd(before[n], n, noperms, id)
      {
        var name :| name in todo;
        SubscribeTo(name, id, noperms);
        todo := todo - {name};
      }
      forall n | n in services
        ensures n in noperms ==> services[n].View() == before[n]
        ensures Subscribed(services[n].View(), id) <==> Subscribed(before[n], id) || n !in noperms
        ensures OthersSame(before[n], services[n].View(), id)
      {
        AddedIs(before[n], n, noperms, id);
      }
      connections := connections + {id};
    }

    method UnsubscribeFrom(name: string, id: nat)
      requires Valid() && name in services && forall n | n in services :: services[n].Valid()
      modifies services[name]
      ensures forall n | n in services :: services[n].Valid()
      ensures forall n | n in services ::
                services[n].View() == if n == name then AfterUnsubscribe(old(services[n].View()), id)
                                      else old(services[n].View())
    {
      hide ServiceInner.Valid, ServiceInner.View;
      label one:
      services[name].Unsubscribe(id);
      OthersUnchanged@one(name);
    }

    method RemoveConnection(id: nat)
      requires Valid() && forall n | n in services :: services[n].Valid()
      modifies this`connections, services.Values
      ensures Valid() && forall n | n in services :: services[n].Valid()
      ensures connections == old(connections) - {id}
      ensures forall n | n in services :: services[n].View() == AfterUnsubscribe(old(services[n].View()), id)
      ensures forall n | n in services :: !Subscribed(services[n].View(), id)
      ensures forall n | n in services :: OthersSame(old(services[n].View()), services[n].View(), id)
    {
      hide ServiceInner.Valid, ServiceInner.View, AfterUnsubscribe, Subscribed, OthersSame, Sound;
      forall n | n in services ensures Sound(services[n].View()) {
        services[n].ViewIsSound();
      }
      ghost var before := map n | n in services :: services[n].View();
      var todo := services.Keys;
      while todo != {}
        invariant todo <= services.Keys && connections == old(connections)
        invariant forall n | n in services :: services[n].Valid()
        invariant forall n | n in services ::
                    services[n].View() == if n in todo then before[n] else AfterUnsubscribe(before[n], id)
      {
        var name :| name in todo;
        UnsubscribeFrom(name, id);
        todo := todo - {name};
      }
      forall n | n in services
        ensures !Subscribed(services[n].View(), id) && OthersSame(before[n], services[n].View(), id)
      {
        LeftIsGone(before[n], id);
      }
      connections := connections - {id};
    }
  }

  predicate Subscribed(v: Service, id: nat) {
    id in v.live || id in v.pending
  }

  /** Only services that are not barred are subscribed to. */
  function AfterAdd(v: Service, name: string, noperms: seq<string>, id: nat): Service {
    if name in noperms then v else AfterSubscribe(v, id)
  }

  /** The entries of every other subscriber are the same. */
  predicate OthersSame(v: Service, w: Service, id: nat) {
    v.live - {id} == w.live - {id} && v.pending - {id} == w.pending - {id}
  }

  lemma AddedIs(v: Service, name: string, noperms: seq<string>, id: nat)
    ensures var w := AfterAdd(v, name, noperms, id);
            && (name in noperms ==> w == v)
            && (Subscribed(w, id) <==> Subscribed(v, id) || name !in noperms)
            && OthersSame(v, w, id)
  {
  }

  lemma LeftIsGone(v: Service, id: nat)
    requires Sound(v)
    ensures !Subscribed(AfterUnsubscribe(v, id), id) && OthersSame(v, AfterUnsubscribe(v, id), id)
  {
  }

  /** A subscription is either live or pending, never both, and changes nobody else's. */
  lemma SubscribedEverywhere(v: Service, id: nat, other: nat)
    requires Sound(v)
    ensures Sound(AfterSubscribe(v, id))
    ensures id in AfterSubscribe(v, id).live <==> id !in AfterSubscribe(v, id).pending
    ensures id in AfterSubscribe(v, id).live <==> id in v.live || !v.needSnapshot
    ensures other != id ==>
              (Subscribed(AfterSubscribe(v, id), other) <==> Subscribed(v, other))
  {
  }

  /** Leaving undoes joining: what is left is the service without the subscriber. */
  lemma LeavingUndoesJoining(v: Service, id: nat)
    requires Sound(v)
    ensures AfterUnsubscribe(AfterSubscribe(v, id), id) == v.(live := v.live - {id}, pending := v.pending - {id})
  {
    assert id !in v.live ==> v.live - {id} == v.live;
    assert id !in v.pending ==> v.pending - {id} == v.pending;
    assert v.pending[id := NOTHING] - {id} == v.pending - {id};
    assert v.live[id := NOTHING] - {id} == v.live - {id};
  }

  /** Because no subscriber is both live and pending, unsubscribing removes it altogether; were it in
      both maps, it would stay pending. */
  lemma UnsubscribeRemovesIff(v: Service, id: nat)
    ensures Subscribed(AfterUnsubscribe(v, id), id) <==> id in v.live && id in v.pending
    ensures Sound(v) ==> Sound(AfterUnsubscribe(v, id))
  {
  }
}
