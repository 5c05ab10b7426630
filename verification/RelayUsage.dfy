/** Accounting of one relayed connection: the byte counters, the usage reports and the downgrade. */
module RelayUsage {
  import opened Arith

  /** What woke the loop: data from either end (and whether passing it on worked), the end of a
      stream, or the timer with the seconds since the last data. */
  datatype Input =
    | Data(bytes: nat, sent: bool)
    | Closed
    | Tick(idleSecs: nat)

  /** One turn of the loop: its input, the milliseconds since the last report, and whether the
      client is on the block list. */
  datatype Turn = Turn(input: Input, millis: nat, blocked: bool)

  /** What is stored for the usage listing, all in bits and milliseconds. */
  datatype Usage = Usage(elapsed: nat, total: nat, highest: nat, speed: nat)

  datatype Limits = Limits(startCheck: nat, threshold: nat)

  const IDLE_SECS := 30
  const REPORT_MILLIS := 1_000

  predicate Stops(t: Turn) {
    || t.input.Closed?
    || (t.input.Data? && t.input.bytes > 0 && !t.input.sent)
    || (t.input.Tick? && t.input.idleSecs > IDLE_SECS)
    || (t.millis >= REPORT_MILLIS && t.blocked)
  }

  predicate Reports(t: Turn) {
    !Stops(t) && t.millis >= REPORT_MILLIS
  }

  function BitsOf(t: Turn): nat {
    if t.input.Data? then t.input.bytes * 8 else 0
  }

  function Bits(ts: seq<Turn>): nat {
    if ts == [] then 0 else Bits(ts[..|ts| - 1]) + BitsOf(ts[|ts| - 1])
  }

  /** The turns the loop completes. */
  function Completed(ts: seq<Turn>): (r: seq<Turn>)
    ensures |r| <= |ts| && r == ts[..|r|]
    ensures forall k | 0 <= k < |r| :: !Stops(r[k])
    ensures |r| < |ts| ==> Stops(ts[|r|])
  {
    if ts == [] then []
    else
      var r := Completed(ts[..|ts| - 1]);
      if |r| == |ts| - 1 && !Stops(ts[|ts| - 1]) then ts else r
  }

  /** The turns that report. */
  function ReportTurns(ts: seq<Turn>): (r: seq<nat>)
    ensures forall k | 0 <= k < |r| :: r[k] < |ts| && Reports(ts[r[k]])
  {
    if ts == [] then []
    else
      var r := ReportTurns(ts[..|ts| - 1]);
      if Reports(ts[|ts| - 1]) then r + [|ts| - 1] else r
  }

  /** They are in order, and none is missing. */
  lemma {:induction false} ReportTurnsAreAll(ts: seq<Turn>)
    ensures forall j, k | 0 <= j < k < |ReportTurns(ts)| :: ReportTurns(ts)[j] < ReportTurns(ts)[k]
    ensures forall i | 0 <= i < |ts| && Reports(ts[i]) ::
              exists k :: 0 <= k < |ReportTurns(ts)| && ReportTurns(ts)[k] == i
  {
    if ts == [] {
    } else {
      var r := ReportTurns(ts[..|ts| - 1]);
      ReportTurnsAreAll(ts[..|ts| - 1]);
      forall i | 0 <= i < |ts| && Reports(ts[i])
        ensures exists k :: 0 <= k < |ReportTurns(ts)| && ReportTurns(ts)[k] == i
      {
        if i < |ts| - 1 {
          assert ts[..|ts| - 1][i] == ts[i];
          var k :| 0 <= k < |r| && r[k] == i;
          assert ReportTurns(ts)[k] == i;
        } else {
          assert ReportTurns(ts)[|r|] == i;
        }
      }
    }
  }

  /** What the reports must be, said about the turns alone: all bits and the time so far, the bits
      since the report before divided by the time since then, the highest speed so far. */
  predicate Faithful(ts: seq<Turn>, us: seq<Usage>) {
    |us| == |ReportTurns(ts)| && forall k | 0 <= k < |us| :: IsReport(ts, us, k)
  }

  predicate IsReport(ts: seq<Turn>, us: seq<Usage>, k: nat)
    requires k < |us| == |ReportTurns(ts)|
  {
    Follows(ts[..ReportTurns(ts)[k] + 1], Before(us, k), us[k])
  }

  /** A report made at the end of these turns, with its predecessor. */
  predicate Follows(ts: seq<Turn>, before: Usage, u: Usage)
    requires ts != [] && Reports(ts[|ts| - 1])
  {
    var n := ts[|ts| - 1].millis;
    && u.total == Bits(ts)
    && u.total >= before.total
    && u.elapsed == before.elapsed + n
    && u.speed == (u.total - before.total) / n
    && u.highest == Max(before.highest, u.speed)
  }

  /** The report before the k-th. */
  function Before(us: seq<Usage>, k: nat): Usage
    requires k <= |us|
  {
    if k == 0 then Usage(0, 0, 0, 0) else us[k - 1]
  }

  function Max(a: nat, b: nat): nat {
    if a < b then b else a
  }

  predicate Exceeds(u: Usage, limits: Limits) {
    u.elapsed > limits.startCheck && u.total > u.elapsed * limits.threshold
  }

  lemma ExceedsIs(u: Usage, limits: Limits)
    ensures Exceeds(u, limits) <==> u.elapsed > limits.startCheck && u.total > u.elapsed * limits.threshold
  {
  }

  predicate AnyExceeds(us: seq<Usage>, limits: Limits) {
    exists k | 0 <= k < |us| :: Exceeds(us[k], limits)
  }

  lemma OneMoreReport(us: seq<Usage>, u: Usage, limits: Limits)
    ensures AnyExceeds(us + [u], limits) <==> AnyExceeds(us, limits) || Exceeds(u, limits)
  {
    var us' := us + [u];
    assert us'[|us|] == u;
    if k :| 0 <= k < |us| && Exceeds(us[k], limits) {
      assert us'[k] == us[k];
    }
  }

  lemma NoReports(ts: seq<Turn>, limits: Limits)
    ensures Faithful(ts[..0], []) && !AnyExceeds([], limits)
  {
  }

  /** The loop. Its reports are faithful to the turns it completes, and the connection is downgraded
      exactly when some report exceeded the threshold after the start time. */
  method Relay(ts: seq<Turn>, limits: Limits) returns (us: seq<Usage>, downgrade: bool)
    ensures Faithful(Completed(ts), us)
    ensures downgrade <==> AnyExceeds(us, limits)
    ensures downgrade <==> exists k :: 0 <= k < |us| && us[k].elapsed > limits.startCheck
                                       && us[k].total > us[k].elapsed * limits.threshold
  {
    var elapsed: nat, total: nat, total_s: nat, highest_s: nat := 0, 0, 0, 0;
    us, downgrade := [], false;
    NoReports(ts, limits);
    hide Faithful, AnyExceeds, Completed, ReportTurns, Follows, Exceeds;
    var i := 0;
    while i < |ts|
      invariant 0 <= i <= |ts|
      invariant forall k | 0 <= k < i :: !Stops(ts[k])
      invariant total == Bits(ts[..i])
      invariant total_s <= total && total - total_s == Before(us, |us|).total
      invariant elapsed == Before(us, |us|).elapsed && highest_s == Before(us, |us|).highest
      invariant Faithful(ts[..i], us)
      invariant downgrade <==> AnyExceeds(us, limits)
    {
      var t := ts[i];
      if Stops(t) {
        CompletedIs(ts, i);
        ExceedsMeans(us, limits);
        return;
      }
      assert ts[..i + 1][..i] == ts[..i];
      if t.input.Data? {
        var nb := t.input.bytes * 8;
        total := total + nb;
        total_s := total_s + nb;
      }
      var n := t.millis;
      ghost var before := us;
      if n >= 1_000 {
        var u := Report(ts[..i + 1], Before(us, |us|), n, elapsed, total, total_s, highest_s);
        us := us + [u];
        elapsed, highest_s, total_s := u.elapsed, u.highest, 0;
        OneMoreReport(before, u, limits);
        assert Exceeds(u, limits) <==> elapsed > limits.startCheck && total > elapsed * limits.threshold by {
          ExceedsIs(u, limits);
        }
        if elapsed > limits.startCheck && !downgrade {
          if total > elapsed * limits.threshold {
            downgrade := true;
          }
        }
      }
      FaithfulExtends(ts, i, before, us);
      i := i + 1;
    }
    CompletedIs(ts, i);
    ExceedsMeans(us, limits);
  }

  lemma ExceedsMeans(us: seq<Usage>, limits: Limits)
    ensures AnyExceeds(us, limits)
            <==> exists k :: 0 <= k < |us| && us[k].elapsed > limits.startCheck
                             && us[k].total > us[k].elapsed * limits.threshold
  {
    forall k | 0 <= k < |us|
      ensures Exceeds(us[k], limits)
              <==> us[k].elapsed > limits.startCheck && us[k].total > us[k].elapsed * limits.threshold
    {
      ExceedsIs(us[k], limits);
    }
  }


  /** The report at the end of a turn, from the counters. */
  method Report(ghost ts: seq<Turn>, ghost before: Usage, n: nat, elapsed: nat, total: nat, total_s: nat,
                highest_s: nat)
    returns (u: Usage)
    requires ts != [] && Reports(ts[|ts| - 1]) && n == ts[|ts| - 1].millis
    requires total == Bits(ts) && total_s <= total && total - total_s == before.total
    requires elapsed == before.elapsed && highest_s == before.highest
    ensures Follows(ts, before, u)
    ensures u.total == total && u.elapsed == elapsed + n
  {
    var speed, highest := total_s / n, highest_s;
    if speed > highest {
      highest := speed;
    }
    return Usage(elapsed + n, total, highest, speed);
  }

  lemma {:induction false} CompletedIs(ts: seq<Turn>, i: nat)
    requires i <= |ts|
    requires forall k | 0 <= k < i :: !Stops(ts[k])
    requires i < |ts| ==> Stops(ts[i])
    ensures Completed(ts) == ts[..i]
  {
  }

  /** One more turn adds nothing or one report. */
  lemma FaithfulExtends(ts: seq<Turn>, i: nat, before: seq<Usage>, us: seq<Usage>)
    requires i < |ts| && Faithful(ts[..i], before)
    requires if Reports(ts[i]) then
               |us| == |before| + 1 && us[..|before|] == before
               && Follows(ts[..i + 1], Before(before, |before|), us[|before|])
             else us == before
    ensures Faithful(ts[..i + 1], us)
  {
    var ts' := ts[..i + 1];
    assert ts'[..i] == ts[..i];
    forall k | 0 <= k < |us| ensures IsReport(ts', us, k) {
      if k < |before| {
        assert IsReport(ts[..i], before, k);
        assert ts'[..ReportTurns(ts')[k] + 1] == ts[..i][..ReportTurns(ts')[k] + 1];
        assert us[..|before|][k] == us[k];
        assert k > 0 ==> us[..|before|][k - 1] == us[k - 1];
      } else {
        assert ReportTurns(ts')[k] == i && ts'[..i + 1] == ts';
        assert k > 0 ==> us[..|before|][k - 1] == us[k - 1];
      }
    }
  }

  /** The bits of a stretch of turns, from the totals at its ends: a report's total is the sum of the
      totals of all windows so far. */
  lemma {:induction false} BitsOfWindow(ts: seq<Turn>, i: nat, j: nat)
    requires i <= j <= |ts|
    ensures Bits(ts[i..j]) == Bits(ts[..j]) - Bits(ts[..i])
    decreases j
  {
    if i >= j {
    } else {
      BitsOfWindow(ts, i, j - 1);
      assert ts[i..j][..j - i - 1] == ts[i..j - 1];
      assert ts[..j][..j - 1] == ts[..j - 1];
    }
  }

  function WindowTotal(ts: seq<Turn>, k: nat): nat
    requires k < |ReportTurns(ts)|
  {
    var start := if k == 0 then 0 else ReportTurns(ts)[k - 1] + 1;
    ReportTurnsAreAll(ts);
    Bits(ts[start..ReportTurns(ts)[k] + 1])
  }

  function SumOfWindows(ts: seq<Turn>, k: nat): nat
    requires k <= |ReportTurns(ts)|
  {
    if k == 0 then 0 else SumOfWindows(ts, k - 1) + WindowTotal(ts, k - 1)
  }

  /** The bytes received from either end. */
  function Bytes(ts: seq<Turn>): nat {
    if ts == [] then 0
    else Bytes(ts[..|ts| - 1]) + if ts[|ts| - 1].input.Data? then ts[|ts| - 1].input.bytes else 0
  }

  lemma {:induction false} BitsAreEightTimesBytes(ts: seq<Turn>)
    ensures Bits(ts) == 8 * Bytes(ts)
    decreases |ts|
  {
    if ts == [] {
    } else {
      BitsAreEightTimesBytes(ts[..|ts| - 1]);
    }
  }

  function SumOfMillis(ts: seq<Turn>, k: nat): nat
    requires k <= |ReportTurns(ts)|
  {
    if k == 0 then 0 else SumOfMillis(ts, k - 1) + ts[ReportTurns(ts)[k - 1]].millis
  }

  /** At each report the total is eight times the bytes received so far, and the elapsed time the sum of
      the times between reports. */
  lemma {:induction false} ReportAddsUp(ts: seq<Turn>, us: seq<Usage>, k: nat)
    requires Faithful(ts, us) && k < |us|
    ensures us[k].total == 8 * Bytes(ts[..ReportTurns(ts)[k] + 1])
    ensures us[k].elapsed == SumOfMillis(ts, k + 1)
    decreases k
  {
    assert IsReport(ts, us, k);
    BitsAreEightTimesBytes(ts[..ReportTurns(ts)[k] + 1]);
    if k == 0 {
    } else {
      ReportAddsUp(ts, us, k - 1);
    }
  }

  /** What ends the loop: the end of a stream, data that cannot be passed on, more than 30 s without data
      at a tick of the timer, or a block found when a report is due after a second. */
  lemma StopsIff(t: Turn)
    ensures Stops(t) <==> match t.input
                          case Closed => true
                          case Data(bytes, sent) => (bytes > 0 && !sent) || (t.millis >= 1_000 && t.blocked)
                          case Tick(idle) => idle > 30 || (t.millis >= 1_000 && t.blocked)
    ensures Reports(t) <==> !Stops(t) && t.millis >= 1_000
  {
  }

  lemma TotalIs(ts: seq<Turn>, us: seq<Usage>, k: nat)
    requires Faithful(ts, us) && k < |us|
    ensures us[k].total == Bits(ts[..ReportTurns(ts)[k] + 1]) >= Before(us, k).total
    ensures us[k].speed == (us[k].total - Before(us, k).total) / ts[ReportTurns(ts)[k]].millis
  {
    assert IsReport(ts, us, k);
  }

  lemma WindowIs(ts: seq<Turn>, us: seq<Usage>, k: nat)
    requires Faithful(ts, us) && k < |us|
    ensures WindowTotal(ts, k) == us[k].total - Before(us, k).total
  {
    TotalIs(ts, us, k);
    if k > 0 {
      TotalIs(ts, us, k - 1);
    }
    ReportTurnsAreAll(ts);
    hide Bits, Faithful, ReportTurns;
    BitsOfWindow(ts, if k == 0 then 0 else ReportTurns(ts)[k - 1] + 1, ReportTurns(ts)[k] + 1);
    NoBits(ts);
  }

  lemma NoBits(ts: seq<Turn>)
    ensures Bits(ts[..0]) == 0
  {
  }

  /** At each report the total is the sum of all window totals, and the speed is that of the window. */
  lemma {:induction false} TotalIsSumOfWindows(ts: seq<Turn>, us: seq<Usage>, k: nat)
    requires Faithful(ts, us) && k < |us|
    ensures us[k].total == SumOfWindows(ts, k + 1)
    ensures us[k].speed == WindowTotal(ts, k) / ts[ReportTurns(ts)[k]].millis
    decreases k
  {
    TotalIs(ts, us, k);
    WindowIs(ts, us, k);
    hide Faithful, WindowTotal, ReportTurns, Bits;
    if k == 0 {
    } else {
      TotalIsSumOfWindows(ts, us, k - 1);
    }
  }

  /** The printed average never exceeds the printed highest speed, although both are rounded down. */
  lemma AverageNeverExceedsHighest(ts: seq<Turn>, us: seq<Usage>, k: nat)
    requires Faithful(ts, us) && k < |us|
    ensures us[k].elapsed > 0 && us[k].total / us[k].elapsed <= us[k].highest
  {
    TotalBelowHighest(ts, us, k);
    DivBelow(us[k].total, us[k].elapsed, us[k].highest);
  }

  lemma {:induction false} TotalBelowHighest(ts: seq<Turn>, us: seq<Usage>, k: nat)
    requires Faithful(ts, us) && k < |us|
    ensures us[k].elapsed > 0
    ensures us[k].total < us[k].elapsed * (us[k].highest + 1)
    decreases k
  {
    assert IsReport(ts, us, k);
    var b, n := Before(us, k), ts[ReportTurns(ts)[k]].millis;
    DivAbove(us[k].total - b.total, n, us[k].highest);
    if k <= 0 {
    } else {
      TotalBelowHighest(ts, us, k - 1);
      BoundsAdd(b.total, b.elapsed, b.highest, us[k].total - b.total, n, us[k].highest);
    }
  }

  lemma BoundsAdd(t: nat, e: nat, h: nat, w: nat, n: nat, g: nat)
    requires t < e * (h + 1) && w < n * (g + 1) && h <= g
    ensures t + w < (e + n) * (g + 1)
  {
    MulMonotone(e, h + 1, g + 1);
  }

  lemma DivAbove(w: nat, n: nat, h: nat)
    requires n > 0 && w / n <= h
    ensures w < n * (h + 1)
  {
    MulMonotone(n, w / n + 1, h + 1);
    assert w == n * (w / n) + w % n;
    assert n * (w / n + 1) == n * (w / n) + n;
  }

  lemma DivBelow(t: nat, e: nat, h: nat)
    requires e > 0 && t < e * (h + 1)
    ensures t / e <= h
  {
    assert t == e * (t / e) + t % e;
    if t / e >= h + 1 {
      MulMonotone(e, h + 1, t / e);
    }
  }

  /** The printed highest speed is the speed of some window so far, and no window was faster. */
  lemma {:induction false} HighestIsMaximum(ts: seq<Turn>, us: seq<Usage>, k: nat)
    requires Faithful(ts, us) && k < |us|
    ensures forall j | 0 <= j <= k :: us[j].speed <= us[k].highest
    ensures us[k].highest == 0 || exists j :: 0 <= j <= k && us[j].speed == us[k].highest
    decreases k
  {
    assert IsReport(ts, us, k);
    if k <= 0 {
    } else {
      HighestIsMaximum(ts, us, k - 1);
    }
  }
}
