/** The rendezvous server's message handlers over the shared peer map. */
module RendezvousServer {
  import opened Wrappers
  import opened Net
  import opened PeerTable
  import opened Peers
  import opened Registry
  import IpBlocker
  import RelayRotation

  datatype PunchFailure = LicenseMismatch | OfflinePeer | IdNotExist

  /** The answer to a punch hole request; all but failures go to the address of the target. */
  datatype Punch =
    | Failed(failure: PunchFailure)
    | RequestRelay(relay: string, to: SocketAddr)
    | FetchLocalAddr(relay: string, to: SocketAddr)
    | PunchHole(relay: string, to: SocketAddr)

  class RendezvousServer {
    const pm: PeerMap
    const blocker: IpBlocker.Blocker
    const rotation: RelayRotation.Rotation
    const relayServers: seq<string>
    const alwaysUseRelay: bool
    const localIp: string
    const inLan: Ip -> bool

    constructor (pm: PeerMap, relayServers: seq<string>, alwaysUseRelay: bool, localIp: string, inLan: Ip -> bool)
      requires pm.Valid()
      ensures this.pm == pm && fresh(blocker) && fresh(rotation) && blocker.entries == map[]
    {
      this.pm := pm;
      this.relayServers := relayServers;
      this.alwaysUseRelay := alwaysUseRelay;
      this.localIp := localIp;
      this.inLan := inLan;
      blocker := new IpBlocker.Blocker();
      rotation := new RelayRotation.Rotation();
    }

    ghost function View(): State
      reads pm, pm.entries.Values, pm.db, blocker
    {
      State(pm.Cache(), pm.db.rows, blocker.entries)
    }

    method HandleRegisterPk(rk: PkRequest, addr: SocketAddr, env: Env) returns (reply: Reply)
      requires pm.Valid()
      modifies pm`entries, pm.entries.Values, pm.db, blocker
      ensures pm.Valid()
      ensures (View(), reply) == RegisterPk(old(View()), rk, addr, env)
    {
      if rk.uuid == [] || rk.pk == [] {
        return Silent;
      }
      if Utf8Length(rk.id) < MIN_ID_LENGTH {
        return UuidMismatch;
      }
      var pass := blocker.Check(addr.ip, rk.id, env.now);
      if !pass {
        return TooFrequent;
      }
      var peer := pm.GetOr(rk.id, env.now, env.readOk);
      reply := BindPeer(peer, rk, addr, env);
    }

    method BindPeer(peer: Peer, rk: PkRequest, addr: SocketAddr, env: Env) returns (reply: Reply)
      requires pm.Valid() && rk.id in pm.entries && pm.entries[rk.id] == peer
      modifies peer, pm.db
      ensures pm.Valid()
      ensures (pm.Cache(), pm.db.rows, reply) == Bind(old(pm.Cache()), old(pm.db.rows), rk, addr, env)
    {
      var changed;
      reply, changed := AdmitPeer(peer, rk, addr.ip, env.now);
      if changed {
        var _ := pm.UpdatePk(rk.id, peer, addr, rk.uuid, rk.pk, env.now, env.guid, env.writeOk);
      }
    }

    method AdmitPeer(peer: Peer, rk: PkRequest, ip: Ip, now: Time) returns (reply: Reply, changed: bool)
      requires pm.Valid() && rk.id in pm.entries && pm.entries[rk.id] == peer
      modifies peer
      ensures (pm.Cache(), reply, changed) == Admit(old(pm.Cache()), rk, ip, now)
    {
      assert rk.id in pm.Cache() && pm.Cache()[rk.id] == peer.Value();
      hide PeerMap.Cache, ElapsedSecs;
      changed := true;
      if peer.uuid != [] {
        if peer.uuid != rk.uuid || (peer.infoIp != ip && peer.pk != rk.pk) {
          return UuidMismatch, false;
        }
        changed := peer.pk != rk.pk || peer.infoIp != ip;
      }
      var (count, time) := peer.regPk;
      if ElapsedSecs(time, now) > GATE_SECONDS {
        count := 0;
      } else if count > GATE_COUNT {
        return TooFrequent, false;
      }
      peer.SetRegPk(count + 1, now);
      pm.OnePeerChanged(rk.id);
      return Accepted, changed;
    }

    method UpdateAddr(id: string, addr: SocketAddr, now: Time) returns (requestPk: bool)
      requires pm.Valid() && id != ""
      modifies pm.entries.Values
      ensures pm.Valid()
      ensures (pm.Cache(), Some(requestPk)) == RegisterPeer(old(pm.Cache()), id, addr, now)
    {
      if id !in pm.entries {
        return true;
      }
      var peer := pm.entries[id];
      var ipChange := (if peer.socketAddr.port != 0 then addr.ip != peer.socketAddr.ip else addr.ip != peer.infoIp)
                      && addr.ip != LOOPBACK;
      requestPk := peer.pk == [] || ipChange;
      if !requestPk {
        peer.SetAddr(addr, now);
        pm.OnePeerChanged(id);
      }
    }

    method HandlePunchHoleRequest(id: string, keyOk: bool, addr: SocketAddr, ws: bool, now: Time, readOk: bool)
      returns (r: Punch)
      requires pm.Valid()
      modifies pm`entries, rotation
      ensures pm.Valid()
      ensures pm.Cache() == if keyOk then Lookup(old(pm.Cache()), pm.db.rows, id, now, readOk)
                            else old(pm.Cache())
      ensures r == Failed(LicenseMismatch) <==> !keyOk
      ensures r == Failed(IdNotExist) <==> keyOk && id !in pm.Cache()
      ensures r == Failed(OfflinePeer) <==> keyOk && id in pm.Cache() && Offline(pm.Cache()[id], now)
      ensures !r.Failed? ==> r.to == pm.Cache()[id].socketAddr && RightMeans(r, addr, ws)
      ensures r.FetchLocalAddr? <==> !r.Failed? && !r.RequestRelay? && !ws && r.to.ip == addr.ip
      ensures if r.Failed? then rotation.counter == old(rotation.counter)
              else RightRelay(r, addr, old(rotation.counter), rotation.counter)
    {
      hide RightRelay, RightMeans;
      if !keyOk {
        return Failed(LicenseMismatch);
      }
      var found := pm.Get(id, now, readOk);
      if found.None? {
        return Failed(IdNotExist);
      }
      var peer := found.value;
      if AsI32(ElapsedMillis(peer.lastRegTime, now)) >= REG_TIMEOUT {
        return Failed(OfflinePeer);
      }
      r := ConnectTo(peer.socketAddr, addr, ws);
    }

    /** The two ends are connected through a relay only when told to or when one of them is in the
        local network, by local addresses only when they share an ip, by a punch hole otherwise. */
    predicate RightMeans(r: Punch, addr: SocketAddr, ws: bool)
      requires !r.Failed?
    {
      match r
      case RequestRelay(relay, to) => relay != "" && (alwaysUseRelay || inLan(to.ip) != inLan(addr.ip))
      case FetchLocalAddr(_, to) => !ws && to.ip == addr.ip
      case PunchHole(_, to) => ws || to.ip != addr.ip
    }

    /** A relay that is wanted is the server's own address for a target in the local network and the
        rotation's next server for any other, and is used unless it is empty. Otherwise the message names
        the rotation's next server. The rotation moves by one for each server asked of it. */
    predicate RightRelay(r: Punch, addr: SocketAddr, before: nat, after: nat)
      requires !r.Failed?
    {
      var wanted := alwaysUseRelay || inLan(r.to.ip) != inLan(addr.ip);
      var (next, moved) := RelayRotation.Pick(relayServers, before);
      if wanted && inLan(r.to.ip) then
        if localIp != "" then r.RequestRelay? && r.relay == localIp && after == before
        else !r.RequestRelay? && (r.relay, after) == (next, moved)
      else if wanted && next != "" then r.RequestRelay? && r.relay == next && after == moved
      else if wanted then !r.RequestRelay? && (r.relay, after) == RelayRotation.Pick(relayServers, moved)
      else !r.RequestRelay? && (r.relay, after) == (next, moved)
    }

    method ConnectTo(to: SocketAddr, addr: SocketAddr, ws: bool) returns (r: Punch)
      modifies rotation
      ensures !r.Failed? && r.to == to && RightMeans(r, addr, ws)
      ensures r.FetchLocalAddr? <==> !r.RequestRelay? && !ws && to.ip == addr.ip
      ensures RightRelay(r, addr, old(rotation.counter), rotation.counter)
    {
      var peerInLan := inLan(to.ip);
      if alwaysUseRelay || peerInLan != inLan(addr.ip) {
        var relay := localIp;
        if !peerInLan {
          relay := rotation.GetRelayServer(relayServers);
        }
        if relay != "" {
          return RequestRelay(relay, to);
        }
      }
      var relay := rotation.GetRelayServer(relayServers);
      if !ws && to.ip == addr.ip {
        return FetchLocalAddr(relay, to);
      } else {
        return PunchHole(relay, to);
      }
    }
  }
}
