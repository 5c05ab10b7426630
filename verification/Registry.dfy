/** The registry's handlers as functions of the peer map, the table and the ip limiter. */
module Registry {
  import opened Wrappers
  import opened Net
  import opened PeerTable
  import opened Peers
  import IpBlocker

  datatype State = State(cache: Cache, table: Table, blocker: IpBlocker.Entries)

  datatype PkRequest = PkRequest(id: string, uuid: Bytes, pk: Bytes)

  /** Clock reading, fresh guid and the outcome of the database calls of one step. */
  datatype Env = Env(now: Time, guid: Bytes, readOk: bool, writeOk: bool)

  datatype Reply = Silent | UuidMismatch | TooFrequent | Accepted

  datatype Verdict = Mismatch | Keep | Change

  const MIN_ID_LENGTH := 6

  /** The length of a string in UTF-8, which is what the length of an id means. */
  function Utf8Length(s: string): (n: nat)
    ensures |s| <= n <= 4 * |s|
  {
    if s == "" then 0 else Utf8Width(s[0]) + Utf8Length(s[1..])
  }

  function Utf8Width(c: char): nat {
    if c as int < 0x80 then 1 else if c as int < 0x800 then 2 else if c as int < 0x1_0000 then 3 else 4
  }

  /** The bytes a character takes, and that they add up. */
  lemma {:induction false} Utf8LengthIs(s: string, c: char)
    ensures Utf8Length(s + [c])
         == Utf8Length(s) + if c as int <= 127 then 1 else if c as int <= 2047 then 2
                            else if c as int <= 65_535 then 3 else 4
  {
    if s == "" {
      assert s + [c] == [c] && [c][1..] == "";
    } else {
      assert (s + [c])[1..] == s[1..] + [c];
      Utf8LengthIs(s[1..], c);
    }
  }

  /** What a key registration asks of the peer on record. */
  function Judge(p: PeerRec, rk: PkRequest, ip: Ip): Verdict {
    if p.uuid == [] then Change
    else if p.uuid != rk.uuid || (p.infoIp != ip && p.pk != rk.pk) then Mismatch
    else if p.pk != rk.pk || p.infoIp != ip then Change
    else Keep
  }

  const GATE_SECONDS := 6
  const GATE_COUNT := 2

  /** The `reg_pk` record after a registration, unless there were too many in a row. */
  function Gate(count: nat, time: Time, now: Time): Option<(nat, Time)> {
    if ElapsedSecs(time, now) > GATE_SECONDS then Some((1, now))
    else if count > GATE_COUNT then None
    else Some((count + 1, now))
  }

  ghost function RegisterPk(s: State, rk: PkRequest, addr: SocketAddr, env: Env): (State, Reply) {
    if rk.uuid == [] || rk.pk == [] then (s, Silent)
    else if Utf8Length(rk.id) < MIN_ID_LENGTH then (s, UuidMismatch)
    else
      var (b, pass) := IpBlocker.CheckIp(s.blocker, addr.ip, rk.id, env.now);
      if !pass then (s.(blocker := b), TooFrequent)
      else
        var found := LookupOr(s.cache, s.table, rk.id, env.now, env.readOk);
        var (c, t, reply) := Bind(found, s.table, rk, addr, env);
        (State(c, t, b), reply)
  }

  /** The checks on the peer found or created: the map with its new `reg_pk`, the reply, and
      whether an accepted registration changes the peer. */
  function Admit(c: Cache, rk: PkRequest, ip: Ip, now: Time): (Cache, Reply, bool)
    requires rk.id in c
  {
    var p := c[rk.id];
    if Judge(p, rk, ip) == Mismatch then (c, UuidMismatch, false)
    else match Gate(p.regCount, p.regTime, now)
      case None => (c, TooFrequent, false)
      case Some(reg) =>
        (c[rk.id := p.(regCount := reg.0, regTime := reg.1)], Accepted, Judge(p, rk, ip) == Change)
  }

  ghost function Bind(c: Cache, t: Table, rk: PkRequest, addr: SocketAddr, env: Env): (Cache, Table, Reply)
    requires rk.id in c
  {
    var (admitted, reply, changed) := Admit(c, rk, addr.ip, env.now);
    if !changed then (admitted, t, reply)
    else
      var (c', t', _) := UpdatedPk(admitted, t, rk.id, addr, rk.uuid, rk.pk, env.now, env.guid, env.writeOk);
      (c', t', reply)
  }

  /** Whether a register_peer message comes from an address the peer must first prove a key for. */
  predicate AddressChanged(p: PeerRec, addr: SocketAddr) {
    addr.ip != LOOPBACK && addr.ip != if p.socketAddr.port != 0 then p.socketAddr.ip else p.infoIp
  }

  /** The map after register_peer and whether the peer is asked for its key; no reply without an id. */
  function RegisterPeer(c: Cache, id: string, addr: SocketAddr, now: Time): (Cache, Option<bool>) {
    if id == "" then (c, None)
    else if id !in c then (c, Some(true))
    else if c[id].pk == [] || AddressChanged(c[id], addr) then (c, Some(true))
    else (c[id := c[id].(socketAddr := addr, lastRegTime := now)], Some(false))
  }

  const REG_TIMEOUT := 30_000
  const TWO_31 := 0x8000_0000
  const TWO_32 := 0x1_0000_0000

  /** Truncation of milliseconds to a signed 32-bit number. */
  function AsI32(n: nat): int {
    var low := n % TWO_32;
    if low < TWO_31 then low else low - TWO_32
  }

  predicate Offline(p: PeerRec, now: Time) {
    AsI32(ElapsedMillis(p.lastRegTime, now)) >= REG_TIMEOUT
  }
}
