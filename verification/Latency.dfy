/** The latency estimate a client keeps of its rendezvous server, in microseconds. */
module Latency {

  const MAX_SAMPLE := 1_000_000
  const MIN_CHANGE := 3000
  const MAX_FAILS1 := 3
  const MAX_FAILS2 := 6

  /** `published` are the values handed to the configuration, oldest first. */
  datatype Meter = Meter(ema: int, shown: int, fails: nat, published: seq<int>)

  const START := Meter(0, 0, 0, [])

  predicate Accepted(sample: int) {
    0 <= sample <= MAX_SAMPLE
  }

  /** The moving average: seeded by a sample when it is zero, with both terms rounded down after. */
  function NextEma(ema: int, sample: int): int {
    if ema == 0 then sample else sample / 30 + ema * 29 / 30
  }

  function Tolerance(latency: int): int {
    if latency / 5 < MIN_CHANGE then MIN_CHANGE else latency / 5
  }

  function Distance(a: int, b: int): int {
    if a < b then b - a else a - b
  }

  function Published(m: Meter, latency: int): Meter {
    m.(shown := latency, published := m.published + [latency])
  }

  function AfterResponse(m: Meter, sample: int): Meter {
    var m0 := m.(fails := 0);
    if !Accepted(sample) then m0
    else
      var m1 := m0.(ema := NextEma(m.ema, sample));
      if Distance(m1.ema, m1.shown) > Tolerance(m1.ema) || m1.shown <= 0 then Published(m1, m1.ema) else m1
  }

  function AfterTimeout(m: Meter): Meter {
    var m1 := m.(fails := m.fails + 1);
    if m1.fails > MAX_FAILS2 then m1.(shown := 0, published := m1.published + [-1])
    else if m1.fails > MAX_FAILS1 then m1.(shown := 0, published := m1.published + [0])
    else m1
  }

  class LatencyMeter {
    var emaLatency: int
    var oldLatency: int
    var fails: nat
    var published: seq<int>

    constructor ()
      ensures Value() == START
    {
      emaLatency, oldLatency, fails, published := 0, 0, 0, [];
    }

    function Value(): Meter
      reads this
    {
      Meter(emaLatency, oldLatency, fails, published)
    }

    method UpdateLatency(sample: int)
      modifies this
      ensures Value() == AfterResponse(old(Value()), sample)
    {
      fails := 0;
      var latency := sample;
      if latency < 0 || latency > 1_000_000 {
        return;
      }
      if emaLatency == 0 {
        emaLatency := latency;
      } else {
        emaLatency := latency / 30 + emaLatency * 29 / 30;
        latency := emaLatency;
      }
      var n := latency / 5;
      if n < 3000 {
        n := 3000;
      }
      if Distance(latency, oldLatency) > n || oldLatency <= 0 {
        published := published + [latency];
        oldLatency := latency;
      }
    }

    method Timeout()
      modifies this
      ensures Value() == AfterTimeout(old(Value()))
    {
      fails := fails + 1;
      if fails > MAX_FAILS2 {
        published := published + [-1];
        oldLatency := 0;
      } else if fails > MAX_FAILS1 {
        published := published + [0];
        oldLatency := 0;
      }
    }
  }

  // ---- Runs ----

  datatype Event = Response(sample: int) | Timeout

  function Step(m: Meter, e: Event): Meter {
    match e
    case Response(sample) => AfterResponse(m, sample)
    case Timeout => AfterTimeout(m)
  }

  function Run(m: Meter, es: seq<Event>): Meter {
    if es == [] then m else Step(Run(m, es[..|es| - 1]), es[|es| - 1])
  }

  /** Every accepted sample lies between the two bounds. */
  predicate SamplesWithin(es: seq<Event>, low: int, high: int) {
    forall k | 0 <= k < |es| && es[k].Response? && Accepted(es[k].sample) :: low <= es[k].sample <= high
  }

  /** The least sample rounded down to a multiple of 30. */
  function Floor(low: int): int {
    30 * (low / 30)
  }

  /** Rounding costs at most 29: from a zero average on, it stays at or above the least sample rounded
      down to a multiple of 30 and never exceeds the greatest. */
  lemma {:induction false} EmaIsBounded(m: Meter, es: seq<Event>, low: int, high: int)
    requires m.ema == 0 && SamplesWithin(es, low, high)
    ensures Run(m, es).ema == 0 || Floor(low) <= Run(m, es).ema <= high
    ensures Run(m, es).ema >= 0 && low - 29 <= Floor(low) <= low
    decreases |es|
  {
    if es == [] {
    } else {
      assert SamplesWithin(es[..|es| - 1], low, high);
      EmaIsBounded(m, es[..|es| - 1], low, high);
    }
  }

  function Repeated(sample: int, n: nat): seq<Event>
    ensures |Repeated(sample, n)| == n
  {
    if n == 0 then [] else Repeated(sample, n - 1) + [Response(sample)]
  }

  lemma SinksByOne(q: nat, r: nat)
    requires q > 0 && r < 30
    ensures NextEma(30 * q + r, 30 * q + 29) == if r == 0 then 30 * q else 30 * q + r - 1
  {
  }

  /** Equal samples that are one short of a multiple of 30 make the average sink by one a step, until
      it has come down to the bound, where it stays. */
  lemma {:induction false} EmaSinksToBound(q: nat, n: nat)
    requires q > 0 && Accepted(30 * q + 29)
    ensures Run(START, Repeated(30 * q + 29, n + 1)).ema == if n < 29 then 30 * q + 29 - n else Floor(30 * q + 29)
    decreases n
  {
    var es := Repeated(30 * q + 29, n + 1);
    assert es[..n] == Repeated(30 * q + 29, n);
    if n == 0 {
    } else {
      EmaSinksToBound(q, n - 1);
      SinksByOne(q, if n <= 29 then 30 - n else 0);
      hide NextEma;
    }
  }

  /** Each accepted sample moves a running average by a thirtieth of the difference, up to rounding; the
      first one is taken as it is. */
  lemma AverageMoves(m: Meter, sample: int)
    requires 0 <= sample <= 1_000_000 && m.ema >= 0
    ensures var next := AfterResponse(m, sample).ema;
            if m.ema == 0 then next == sample
            else 29 * m.ema + sample - 58 <= 30 * next <= 29 * m.ema + sample
  {
  }

  /** A sample out of range only ends the row of failures, as every response does. */
  lemma OddSampleIsIgnored(m: Meter, sample: int)
    ensures AfterResponse(m, sample).fails == 0
    ensures sample < 0 || sample > 1_000_000 ==> AfterResponse(m, sample) == m.(fails := 0)
  {
  }

  /** After every accepted sample the published value is within the tolerance of the average. It is
      published anew exactly when the old one is not, or was reset, and then as the average itself. */
  lemma PublishedIsClose(m: Meter, sample: int)
    requires Accepted(sample)
    ensures var m' := AfterResponse(m, sample);
            && Distance(m'.shown, m'.ema) <= Tolerance(m'.ema)
            && (m'.published == m.published || m'.published == m.published + [m'.ema])
            && (m'.published == m.published ==> m'.shown == m.shown > 0)
    ensures var m' := AfterResponse(m, sample);
            var bound := if m'.ema < 15_000 then 3000 else m'.ema / 5;
            if m.shown > 0 && m.shown - bound <= m'.ema <= m.shown + bound then
              m'.published == m.published && m'.shown == m.shown
            else
              m'.published == m.published + [m'.ema] && m'.shown == m'.ema
  {
    assert (m.published + [m.ema])[|m.published|] == m.ema;
  }

  function Timeouts(n: nat): seq<Event>
    ensures |Timeouts(n)| == n
  {
    if n == 0 then [] else Timeouts(n - 1) + [Timeout]
  }

  /** What n timeouts publish: nothing up to the third, 0 for the fourth to the sixth, -1 from then on. */
  function Alarms(n: nat): seq<int> {
    if n <= 3 then [] else Alarms(n - 1) + [if n <= 6 then 0 else -1]
  }

  function Alarmed(m: Meter, n: nat): Meter {
    m.(fails := n, shown := if n <= 3 then m.shown else 0, published := m.published + Alarms(n))
  }

  lemma AlarmsOneMore(m: Meter, n: nat)
    ensures AfterTimeout(Alarmed(m, n)) == Alarmed(m, n + 1)
  {
    assert n >= 3 ==>
        m.published + Alarms(n + 1) == m.published + Alarms(n) + [if n + 1 <= 6 then 0 else -1];
  }

  /** A row of timeouts behind a response publishes that, and from the fourth on resets the old latency,
      so that the next accepted sample is published. */
  lemma {:induction false} TimeoutsAlarm(m: Meter, n: nat)
    requires m.fails == 0
    ensures Run(m, Timeouts(n)) == Alarmed(m, n)
    decreases n
  {
    if n == 0 {
      assert m.published + [] == m.published;
    } else {
      TimeoutsAlarm(m, n - 1);
      AlarmsOneMore(m, n - 1);
      assert Timeouts(n)[..n - 1] == Timeouts(n - 1);
      hide Alarmed, AfterTimeout;
    }
  }

  /** What is published last is the old latency, unless that was reset to 0 after failures, which the
      configuration learns as 0 or -1. */
  predicate InTouch(m: Meter) {
    if m.published == [] then m.shown == 0
    else
      var last := m.published[|m.published| - 1];
      m.shown == last || (m.shown == 0 && last == -1)
  }

  lemma {:induction false} ConfigIsInTouch(es: seq<Event>)
    ensures InTouch(Run(START, es))
    decreases |es|
  {
    if es == [] {
    } else {
      ConfigIsInTouch(es[..|es| - 1]);
    }
  }

  /** Within any run, an average that was zero before the last stretch of events obeys the bounds of
      that stretch alone. */
  lemma {:induction false} SinceSeeding(es: seq<Event>, i: nat, low: int, high: int)
    requires i <= |es| && Run(START, es[..i]).ema == 0 && SamplesWithin(es[i..], low, high)
    ensures Run(START, es).ema == 0 || Floor(low) <= Run(START, es).ema <= high
    ensures low - 29 <= Floor(low) <= low
  {
    RunInTwoParts(START, es[..i], es[i..]);
    assert es[..i] + es[i..] == es;
    EmaIsBounded(Run(START, es[..i]), es[i..], low, high);
  }

  lemma {:induction false} RunInTwoParts(m: Meter, a: seq<Event>, b: seq<Event>)
    ensures Run(m, a + b) == Run(Run(m, a), b)
    decreases |b|
  {
    if b == [] {
      assert a + b == a;
    } else {
      assert (a + b)[..|a + b| - 1] == a + b[..|b| - 1];
      RunInTwoParts(m, a, b[..|b| - 1]);
    }
  }
}
