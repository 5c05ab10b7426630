/** Peers and the in-memory peer map in front of the database. */
module Peers {
  import opened Wrappers
  import opened Net
  import opened PeerTable

  /** The fields of a peer; `regCount` and `regTime` are the two parts of `reg_pk`. */
  datatype PeerRec = PeerRec(
    socketAddr: SocketAddr,
    lastRegTime: Time,
    guid: Bytes,
    uuid: Bytes,
    pk: Bytes,
    infoIp: Ip,
    regCount: nat,
    regTime: Time)

  type Cache = map<string, PeerRec>

  function DefaultPeer(now: Time): PeerRec {
    PeerRec(UNSPECIFIED, ExpiredTime(now), [], [], [], "", 0, ExpiredTime(now))
  }

  function LoadedPeer(guid: Bytes, row: Row, now: Time): PeerRec {
    DefaultPeer(now).(guid := guid, uuid := row.uuid, pk := row.pk, infoIp := row.info)
  }

  /** What `PeerMap.Get` leaves in the map: a missing peer is loaded when the read finds its row. */
  ghost function Lookup(c: Cache, t: Table, id: string, now: Time, readOk: bool): Cache {
    if id in c || !readOk || Find(t, id).None? then c
    else var g := Find(t, id).value; c[id := LoadedPeer(g, t[g], now)]
  }

  /** What `PeerMap.GetOr` leaves in the map: a peer that was not found is created. */
  ghost function LookupOr(c: Cache, t: Table, id: string, now: Time, readOk: bool): (r: Cache)
    ensures id in r
  {
    var c' := Lookup(c, t, id, now, readOk);
    if id in c' then c' else c'[id := DefaultPeer(now)]
  }

  function Rebound(p: PeerRec, addr: SocketAddr, uuid: Bytes, pk: Bytes, now: Time): PeerRec {
    p.(socketAddr := addr, uuid := uuid, pk := pk, lastRegTime := now, infoIp := addr.ip)
  }

  /** Map, table and success of `PeerMap.UpdatePk`: the first call inserts, later ones update. */
  ghost function UpdatedPk(c: Cache, t: Table, id: string, addr: SocketAddr, uuid: Bytes, pk: Bytes,
                           now: Time, guid: Bytes, writeOk: bool): (Cache, Table, bool)
    requires id in c
  {
    var p := Rebound(c[id], addr, uuid, pk, now);
    if p.guid == [] then
      if InsertAccepted(t, id, guid, writeOk) then
        (c[id := p.(guid := guid)], t[guid := Row(id, uuid, pk, addr.ip)], true)
      else
        (c[id := p], t, false)
    else if UpdateAccepted(t, p.guid, id, writeOk) then
      (c[id := p], Updated(t, p.guid, id, pk, addr.ip), true)
    else
      (c[id := p], t, false)
  }

  class Peer {
    var socketAddr: SocketAddr
    var lastRegTime: Time
    var guid: Bytes
    var uuid: Bytes
    var pk: Bytes
    var infoIp: Ip
    var regPk: (nat, Time)

    constructor (p: PeerRec)
      ensures Value() == p
    {
      socketAddr, lastRegTime, guid, uuid := p.socketAddr, p.lastRegTime, p.guid, p.uuid;
      pk, infoIp, regPk := p.pk, p.infoIp, (p.regCount, p.regTime);
    }

    function Value(): PeerRec
      reads this
    {
      PeerRec(socketAddr, lastRegTime, guid, uuid, pk, infoIp, regPk.0, regPk.1)
    }

    method SetRegPk(count: nat, time: Time)
      modifies this
      ensures Value() == old(Value()).(regCount := count, regTime := time)
    {
      regPk := (count, time);
    }

    method SetAddr(addr: SocketAddr, now: Time)
      modifies this
      ensures Value() == old(Value()).(socketAddr := addr, lastRegTime := now)
    {
      socketAddr := addr;
      lastRegTime := now;
    }

    method Rebind(addr: SocketAddr, uuid: Bytes, pk: Bytes, now: Time)
      modifies this
      ensures Value() == Rebound(old(Value()), addr, uuid, pk, now)
    {
      this.socketAddr := addr;
      this.uuid := uuid;
      this.pk := pk;
      this.lastRegTime := now;
      this.infoIp := addr.ip;
    }
  }

  class PeerMap {
    var entries: map<string, Peer>
    const db: Database

    constructor (db: Database)
      requires UniqueIds(db.rows)
      ensures Valid() && this.db == db && entries == map[]
    {
      this.db := db;
      entries := map[];
    }

    /** Every id has its own peer object. */
    ghost predicate Valid()
      reads this, db
    {
      && (forall i, j | i in entries && j in entries && entries[i] == entries[j] :: i == j)
      && UniqueIds(db.rows)
    }

    ghost function Cache(): Cache
      reads this, entries.Values
    {
      map id | id in entries :: entries[id].Value()
    }

    /** One atomic step: nothing happens between the lookup and the insert. */
    method Get(id: string, now: Time, readOk: bool) returns (r: Option<Peer>)
      requires Valid()
      modifies this`entries
      ensures Valid()
      ensures old(entries.Values) <= entries.Values && fresh(entries.Values - old(entries.Values))
      ensures Cache() == Lookup(old(Cache()), db.rows, id, now, readOk)
      ensures r == if id in entries then Some(entries[id]) else None
    {
      if id in entries {
        return Some(entries[id]);
      }
      var res := db.GetPeer(id, readOk);
      if res.Ok? && res.value.Some? {
        var (guid, row) := res.value.value;
        var peer := new Peer(LoadedPeer(guid, row, now));
        assert Cache() == old(Cache());
        Insert(id, peer);
        return Some(peer);
      }
      return None;
    }

    method GetOr(id: string, now: Time, readOk: bool) returns (r: Peer)
      requires Valid()
      modifies this`entries
      ensures Valid()
      ensures old(entries.Values) <= entries.Values && fresh(entries.Values - old(entries.Values))
      ensures Cache() == LookupOr(old(Cache()), db.rows, id, now, readOk)
      ensures id in entries && r == entries[id]
    {
      var p := Get(id, now, readOk);
      if p.Some? {
        return p.value;
      }
      r := new Peer(DefaultPeer(now));
      Insert(id, r);
    }

    method Insert(id: string, peer: Peer)
      requires Valid() && id !in entries && peer !in entries.Values
      modifies this`entries
      ensures Valid()
      ensures entries == old(entries)[id := peer]
      ensures entries.Values == old(entries.Values) + {peer}
      ensures Cache() == old(Cache())[id := peer.Value()]
    {
      ghost var before := entries;
      entries := entries[id := peer];
      assert entries.Values == before.Values + {peer} by {
        forall p | p in before.Values + {peer} ensures p in entries.Values {
          if p == peer {
            assert entries[id] == p;
          } else {
            var i :| i in before && before[i] == p;
            assert entries[i] == p;
          }
        }
      }
    }

    /** Writing one peer changes the map at its id only. */
    twostate lemma OnePeerChanged(id: string)
      requires entries == old(entries) && id in entries
      requires forall i, j | i in entries && j in entries && entries[i] == entries[j] :: i == j
      requires forall i | i in entries && i != id :: unchanged(entries[i])
      ensures Cache() == old(Cache())[id := entries[id].Value()]
    {
    }

    method UpdatePk(id: string, peer: Peer, addr: SocketAddr, uuid: Bytes, pk: Bytes,
                    now: Time, guid: Bytes, writeOk: bool) returns (ok: bool)
      requires Valid() && id in entries && peer == entries[id]
      modifies peer, db
      ensures Valid()
      ensures (Cache(), db.rows, ok)
           == UpdatedPk(old(Cache()), old(db.rows), id, addr, uuid, pk, now, guid, writeOk)
    {
      peer.Rebind(addr, uuid, pk, now);
      if peer.guid == [] {
        var res := db.InsertPeer(id, uuid, pk, addr.ip, guid, writeOk);
        if res.Err? {
          OnePeerChanged(id);
          return false;
        }
        peer.guid := res.value;
        OnePeerChanged(id);
      } else {
        var res := db.UpdatePk(peer.guid, id, pk, addr.ip, writeOk);
        OnePeerChanged(id);
        if res.Err? {
          return false;
        }
      }
      return true;
    }
  }
}
