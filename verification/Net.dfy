/** Addresses, byte strings and the monotonic clock shared by the server components. */
module Net {
  newtype byte = x: int | 0 <= x < 256

  type Bytes = seq<byte>

  /** An IP address in its printed form; equal addresses print equally. */
  type Ip = string

  datatype SocketAddr = SocketAddr(ip: Ip, port: nat)

  /** The address of a peer that has not registered since it was loaded. */
  const UNSPECIFIED := SocketAddr("0.0.0.0", 0)
  const LOOPBACK: Ip := "127.0.0.1"

  /** A reading of the monotonic clock, in nanoseconds. */
  type Time = nat

  const SECOND: Time := 1_000_000_000
  const MILLISECOND: Time := 1_000_000
  const HOUR: Time := 3600 * SECOND

  /** Elapsed time saturates at zero. */
  function Elapsed(since: Time, now: Time): Time {
    if since <= now then now - since else 0
  }

  function ElapsedSecs(since: Time, now: Time): nat {
    Elapsed(since, now) / SECOND
  }

  function ElapsedMillis(since: Time, now: Time): nat {
    Elapsed(since, now) / MILLISECOND
  }

  /** An instant one hour ago, or now when the clock is younger than an hour. */
  function ExpiredTime(now: Time): Time {
    if now >= HOUR then now - HOUR else now
  }
}
