/** The per-ip limiter in front of register_pk, and what it guarantees over any sequence of calls. */
module IpBlocker {
  import opened Net

  const IP_BLOCK_DUR := 60
  const DAY_SECONDS := 3600 * 24
  const MAX_COUNT := 30
  const MAX_IDS := 300

  /** A message counter and the set of ids seen, each with the time of its last update. */
  datatype Entry = Entry(count: nat, countTime: Time, ids: set<string>, idsTime: Time)

  type Entries = map<Ip, Entry>

  predicate CountExpired(e: Entry, now: Time) {
    ElapsedSecs(e.countTime, now) > IP_BLOCK_DUR
  }

  predicate IdsExpired(e: Entry, now: Time) {
    ElapsedSecs(e.idsTime, now) > DAY_SECONDS
  }

  /** Too many messages: the entry is left alone. */
  predicate Throttled(e: Entry, now: Time) {
    !CountExpired(e, now) && e.count > MAX_COUNT
  }

  /** The entry after a message that is not throttled, and whether the message passes.
      Whether the id is new is decided before an expired id set is cleared. */
  function Counted(e: Entry, id: string, now: Time): (Entry, bool) {
    var c := e.(count := if CountExpired(e, now) then 1 else e.count + 1, countTime := now);
    var isNew := id !in e.ids;
    if !IdsExpired(e, now) && |e.ids| > MAX_IDS then
      (c, !isNew)
    else
      var kept := if IdsExpired(e, now) then {} else e.ids;
      (c.(ids := if isNew then kept + {id} else kept, idsTime := now), true)
  }

  function CheckEntry(e: Entry, id: string, now: Time): (Entry, bool) {
    if Throttled(e, now) then (e, false) else Counted(e, id, now)
  }

  function CheckIp(b: Entries, ip: Ip, id: string, now: Time): (Entries, bool) {
    if ip in b then
      var (e, pass) := CheckEntry(b[ip], id, now);
      (b[ip := e], pass)
    else
      (b[ip := Entry(0, now, {}, now)], true)
  }

  /** The clean-up done by the admin listing: entries idle for both durations are dropped. */
  function Retained(b: Entries, now: Time): Entries {
    map ip | ip in b && !(CountExpired(b[ip], now) && IdsExpired(b[ip], now)) :: b[ip]
  }

  class Blocker {
    var entries: Entries

    constructor ()
      ensures entries == map[]
    {
      entries := map[];
    }

    method Check(ip: Ip, id: string, now: Time) returns (pass: bool)
      modifies this
      ensures (entries, pass) == CheckIp(old(entries), ip, id, now)
    {
      hide ElapsedSecs;
      if ip !in entries {
        entries := entries[ip := Entry(0, now, {}, now)];
        return true;
      }
      var e := entries[ip];
      var count := e.count;
      if ElapsedSecs(e.countTime, now) > IP_BLOCK_DUR {
        count := 0;
      } else if count > MAX_COUNT {
        assert entries == entries[ip := e];
        return false;
      }
      var counted := e.(count := count + 1, countTime := now);
      entries := entries[ip := counted];
      var isNew := id !in e.ids;
      var ids := e.ids;
      if ElapsedSecs(e.idsTime, now) > DAY_SECONDS {
        ids := {};
      } else if |ids| > MAX_IDS {
        assert Counted(e, id, now) == (counted, !isNew);
        return !isNew;
      }
      if isNew {
        ids := ids + {id};
      }
      entries := entries[ip := counted.(ids := ids, idsTime := now)];
      assert Counted(e, id, now) == (counted.(ids := ids, idsTime := now), true);
      assert entries == old(entries)[ip := counted.(ids := ids, idsTime := now)];
      return true;
    }

    method Retain(now: Time)
      modifies this
      ensures entries == Retained(old(entries), now)
    {
      entries := map ip | ip in entries && (ElapsedSecs(entries[ip].countTime, now) <= IP_BLOCK_DUR
                                            || ElapsedSecs(entries[ip].idsTime, now) <= DAY_SECONDS)
                     :: entries[ip];
    }
  }

  // ---- Runs ----

  datatype Call = Check(ip: Ip, id: string, now: Time) | Retain(now: Time)

  function Next(b: Entries, c: Call): Entries {
    match c
    case Check(ip, id, now) => CheckIp(b, ip, id, now).0
    case Retain(now) => Retained(b, now)
  }

  function Run(b: Entries, cs: seq<Call>): Entries
    decreases |cs|
  {
    if cs == [] then b else Run(Next(b, cs[0]), cs[1..])
  }

  /** The call is a check of `ip` and passes. */
  predicate Passes(b: Entries, c: Call, ip: Ip) {
    c.Check? && c.ip == ip && CheckIp(b, ip, c.id, c.now).1
  }

  function PassCount(b: Entries, cs: seq<Call>, ip: Ip): nat
    decreases |cs|
  {
    if cs == [] then 0
    else (if Passes(b, cs[0], ip) then 1 else 0) + PassCount(Next(b, cs[0]), cs[1..], ip)
  }

  /** The ids under which messages of `ip` pass. */
  function Accepted(b: Entries, cs: seq<Call>, ip: Ip): set<string>
    decreases |cs|
  {
    if cs == [] then {}
    else (if Passes(b, cs[0], ip) then {cs[0].id} else {}) + Accepted(Next(b, cs[0]), cs[1..], ip)
  }

  /** The call forgets the ids recorded for `ip`. */
  predicate Clears(b: Entries, c: Call, ip: Ip) {
    ip in b
    && match c
       case Check(ip', _, now) => ip' == ip && !Throttled(b[ip], now) && IdsExpired(b[ip], now)
       case Retain(now) => ip !in Retained(b, now)
  }

  predicate NeverClears(b: Entries, cs: seq<Call>, ip: Ip)
    decreases |cs|
  {
    cs == [] || (!Clears(b, cs[0], ip) && NeverClears(Next(b, cs[0]), cs[1..], ip))
  }

  predicate Inv(b: Entries) {
    forall ip | ip in b :: b[ip].count <= MAX_COUNT + 1 && |b[ip].ids| <= MAX_IDS + 1
  }

  /** The counter never exceeds 31 and the recorded id set never exceeds 301. */
  lemma {:induction false} InvHolds(b: Entries, cs: seq<Call>)
    requires Inv(b)
    ensures Inv(Run(b, cs))
    decreases |cs|
  {
    if cs == [] {
    } else {
      InvHolds(Next(b, cs[0]), cs[1..]);
    }
  }

  predicate AllWithin(cs: seq<Call>, start: Time, length: Time) {
    forall k | 0 <= k < |cs| :: start <= cs[k].now < start + length
  }

  /** Once a message was counted in the window, the counter is not reset there any more. */
  lemma {:induction false} PassesAfterTouch(b: Entries, cs: seq<Call>, ip: Ip, start: Time)
    requires AllWithin(cs, start, 61 * SECOND)
    requires ip in b && start <= b[ip].countTime && b[ip].count <= 31
    ensures PassCount(b, cs, ip) <= 31 - b[ip].count
    decreases |cs|
  {
    if cs == [] {
    } else {
      assert !CountExpired(b[ip], cs[0].now);
      PassesAfterTouch(Next(b, cs[0]), cs[1..], ip, start);
    }
  }

  lemma {:induction false} PassesInWindow(b: Entries, cs: seq<Call>, ip: Ip, start: Time)
    requires Inv(b)
    requires AllWithin(cs, start, 61 * SECOND)
    ensures PassCount(b, cs, ip) <= 32
    decreases |cs|
  {
    if cs == [] {
    } else {
      var b' := Next(b, cs[0]);
      InvHolds(b, [cs[0]]);
      assert Run(b, [cs[0]]) == b';
      if Passes(b, cs[0], ip) {
        PassesAfterTouch(b', cs[1..], ip, start);
      } else {
        PassesInWindow(b', cs[1..], ip, start);
      }
    }
  }

  /** In any run, any interval shorter than 61 s lets at most 32 messages of an ip pass. */
  lemma IpRateLimit(cs: seq<Call>, i: nat, j: nat, ip: Ip, start: Time)
    requires i <= j <= |cs|
    requires AllWithin(cs[i..j], start, 61 * SECOND)
    ensures PassCount(Run(map[], cs[..i]), cs[i..j], ip) <= 32
  {
    InvHolds(map[], cs[..i]);
    PassesInWindow(Run(map[], cs[..i]), cs[i..j], ip, start);
  }

  /** While the id set is not cleared, an id passes only if it is recorded by the end. */
  lemma {:induction false} AcceptedAreRecorded(b: Entries, cs: seq<Call>, ip: Ip)
    requires ip in b && NeverClears(b, cs, ip)
    ensures ip in Run(b, cs)
    ensures Accepted(b, cs, ip) + b[ip].ids <= Run(b, cs)[ip].ids
    decreases |cs|
  {
    if cs == [] {
    } else {
      AcceptedAreRecorded(Next(b, cs[0]), cs[1..], ip);
    }
  }

  /** The first call may create the entry or clear it; only its own id can pass unrecorded. */
  lemma {:induction false} AllButOneRecorded(b: Entries, cs: seq<Call>, ip: Ip) returns (first: string)
    requires cs != [] && NeverClears(Next(b, cs[0]), cs[1..], ip)
    ensures ip in Run(b, cs) ==> Accepted(b, cs, ip) <= Run(b, cs)[ip].ids + {first}
    ensures ip !in Run(b, cs) ==> Accepted(b, cs, ip) == {}
    decreases |cs|
  {
    var b' := Next(b, cs[0]);
    if ip in b' {
      AcceptedAreRecorded(b', cs[1..], ip);
      first := if cs[0].Check? then cs[0].id else "";
    } else if cs[1..] == [] {
      first := "";
    } else {
      first := AllButOneRecorded(b', cs[1..], ip);
    }
  }

  /** In any run, at most 302 distinct ids of an ip pass from one clearing to the next. */
  lemma DistinctIdLimit(cs: seq<Call>, i: nat, j: nat, ip: Ip)
    requires i < j <= |cs|
    requires NeverClears(Run(map[], cs[..i + 1]), cs[i + 1..j], ip)
    ensures |Accepted(Run(map[], cs[..i]), cs[i..j], ip)| <= 302
  {
    var b, part := Run(map[], cs[..i]), cs[i..j];
    RunConcat(map[], cs[..i], [cs[i]]);
    assert cs[..i] + [cs[i]] == cs[..i + 1] && part[1..] == cs[i + 1..j];
    var first := AllButOneRecorded(b, part, ip);
    InvHolds(map[], cs[..i]);
    InvHolds(b, part);
    var end := Run(b, part);
    if ip in end {
      SubsetSize(Accepted(b, part, ip), end[ip].ids + {first});
    }
  }

  lemma {:induction false} RunConcat(b: Entries, cs: seq<Call>, ds: seq<Call>)
    ensures Run(b, cs + ds) == Run(Run(b, cs), ds)
    decreases |cs|
  {
    if cs == [] {
      assert cs + ds == ds;
    } else {
      assert (cs + ds)[1..] == cs[1..] + ds;
      RunConcat(Next(b, cs[0]), cs[1..], ds);
    }
  }

  lemma {:induction false} SubsetSize<T>(a: set<T>, b: set<T>)
    requires a <= b
    ensures |a| <= |b|
  {
    assert b == a + (b - a);
  }

  // ---- The limits are reached ----

  function Repeated(c: Call, n: nat): seq<Call> {
    if n == 0 then [] else [c] + Repeated(c, n - 1)
  }

  lemma {:induction false} RepeatedPass(b: Entries, ip: Ip, id: string, n: nat)
    requires ip in b && b[ip].countTime == b[ip].idsTime == 0 && b[ip].ids <= {id}
    requires b[ip].count + n <= 31
    ensures PassCount(b, Repeated(Check(ip, id, 0), n), ip) == n
    ensures var b' := Run(b, Repeated(Check(ip, id, 0), n));
            ip in b' && b'[ip].countTime == 0 && b'[ip].count == b[ip].count + n && b'[ip].ids <= {id}
    decreases n
  {
    if n <= 0 {
    } else {
      SubsetSize(b[ip].ids, {id});
      RepeatedPass(Next(b, Check(ip, id, 0)), ip, id, n - 1);
    }
  }

  /** 32 messages at one instant all pass, and 61 s later the next one does. */
  lemma IpRateLimitIsReached(ip: Ip, id: string)
    ensures var cs := Repeated(Check(ip, id, 0), 32);
            PassCount(map[], cs, ip) == 32 && Passes(Run(map[], cs), Check(ip, id, 61 * SECOND), ip)
  {
    var first := Check(ip, id, 0);
    RepeatedPass(Next(map[], first), ip, id, 31);
    assert Repeated(first, 32) == [first] + Repeated(first, 31);
    SubsetSize(Run(map[], Repeated(first, 32))[ip].ids, {id});
  }

  function Name(k: nat): string {
    if k == 0 then "" else "x" + Name(k - 1)
  }

  lemma {:induction false} NameLength(k: nat)
    ensures |Name(k)| == k
  {
    if k <= 0 {
    } else {
      NameLength(k - 1);
    }
  }

  /** Messages from one ip every 61 s, each under a new id. */
  function Visits(ip: Ip, k: nat, n: nat): seq<Call>
    decreases n
  {
    if n == 0 then [] else [Check(ip, Name(k), k * 61 * SECOND)] + Visits(ip, k + 1, n - 1)
  }

  /** The entry after k visits. */
  predicate Visited(b: Entries, ip: Ip, k: nat) {
    && ip in b && b[ip].countTime == b[ip].idsTime == k * 61 * SECOND - 61 * SECOND
    && |b[ip].ids| < k && forall id | id in b[ip].ids :: |id| < k
  }

  lemma VisitPasses(b: Entries, ip: Ip, k: nat)
    requires 1 <= k <= 301 && Visited(b, ip, k)
    ensures var c := Check(ip, Name(k), k * 61 * SECOND);
            Passes(b, c, ip) && !Clears(b, c, ip) && Visited(Next(b, c), ip, k + 1)
  {
    NameLength(k);
    var e, now := b[ip], k * 61 * SECOND;
    assert CountExpired(e, now) && !IdsExpired(e, now) && Name(k) !in e.ids;
    assert CheckEntry(e, Name(k), now) == (Entry(1, now, e.ids + {Name(k)}, now), true);
  }

  /** One visit before others that pass under longer ids. */
  lemma OneMoreVisit(b: Entries, ip: Ip, k: nat, n: nat)
    requires var c := Check(ip, Name(k), k * 61 * SECOND);
             && Passes(b, c, ip) && !Clears(b, c, ip)
             && NeverClears(Next(b, c), Visits(ip, k + 1, n), ip)
             && |Accepted(Next(b, c), Visits(ip, k + 1, n), ip)| == n
             && forall id | id in Accepted(Next(b, c), Visits(ip, k + 1, n), ip) :: |id| > k
    ensures NeverClears(b, Visits(ip, k, n + 1), ip)
    ensures |Accepted(b, Visits(ip, k, n + 1), ip)| == n + 1
    ensures forall id | id in Accepted(b, Visits(ip, k, n + 1), ip) :: |id| >= k
  {
    hide Passes, Clears, Next;
    var c, cs := Check(ip, Name(k), k * 61 * SECOND), Visits(ip, k + 1, n);
    NameLength(k);
    assert Visits(ip, k, n + 1)[0] == c && Visits(ip, k, n + 1)[1..] == cs;
    assert Name(k) !in Accepted(Next(b, c), cs, ip);
    assert Accepted(b, Visits(ip, k, n + 1), ip) == {Name(k)} + Accepted(Next(b, c), cs, ip);
  }

  lemma {:induction false} VisitsPass(b: Entries, ip: Ip, k: nat, n: nat)
    requires 1 <= k && k + n <= 302 && Visited(b, ip, k)
    ensures NeverClears(b, Visits(ip, k, n), ip)
    ensures |Accepted(b, Visits(ip, k, n), ip)| == n
    ensures forall id | id in Accepted(b, Visits(ip, k, n), ip) :: |id| >= k
    decreases n
  {
    hide Passes, Clears, Visited, Next;
    if n == 0 {
    } else {
      VisitPasses(b, ip, k);
      VisitsPass(Next(b, Check(ip, Name(k), k * 61 * SECOND)), ip, k + 1, n - 1);
      hide NeverClears, Accepted, Visits;
      OneMoreVisit(b, ip, k, n - 1);
    }
  }

  /** The first visit makes the entry. */
  lemma FirstVisit(ip: Ip, k: nat)
    requires k == 0
    ensures var c := Check(ip, Name(k), k * 61 * SECOND);
            Passes(map[], c, ip) && !Clears(map[], c, ip) && Visited(Next(map[], c), ip, k + 1)
  {
  }

  /** The visits from the first on. */
  lemma AllVisitsPass(ip: Ip, k: nat, n: nat)
    requires k == 0 && n <= 301
    ensures NeverClears(map[], Visits(ip, k, n + 1), ip)
    ensures |Accepted(map[], Visits(ip, k, n + 1), ip)| == n + 1
  {
    hide Passes, Clears, Visited, Next, NeverClears, Accepted, Visits;
    FirstVisit(ip, k);
    VisitsPass(Next(map[], Check(ip, Name(k), k * 61 * SECOND)), ip, k + 1, n);
    OneMoreVisit(map[], ip, k, n);
  }

  /** 302 distinct ids pass without a clearing: the first is not recorded, 301 more are. */
  lemma DistinctIdLimitIsReached(ip: Ip)
    ensures var cs := Visits(ip, 0, 302);
            NeverClears(map[], cs, ip) && |Accepted(map[], cs, ip)| == 302
  {
    hide Visits, NeverClears, Accepted;
    AllVisitsPass(ip, 0, 301);
  }

  // ---- Exactly which messages pass ----

  /** Less than 61 s apart. */
  predicate Near(t: Time, now: Time) {
    now < t + 61 * SECOND
  }

  /** The last k times are each less than 61 s after the one before. */
  predicate Chain(ts: seq<Time>, k: nat) {
    k <= |ts| && forall j | |ts| - k < j < |ts| :: Near(ts[j - 1], ts[j])
  }

  /** Thirty-one messages in a row behind an earlier one, and now less than 61 s after the last. */
  predicate Crowded(ts: seq<Time>, now: Time) {
    |ts| >= 32 && Chain(ts, 31) && Near(ts[|ts| - 1], now)
  }

  /** The times of an ip's messages that were not turned away for crowding, since its entry was made. */
  function TimesAfter(b: Entries, c: Call, ip: Ip, ts: seq<Time>): seq<Time> {
    if ip !in Next(b, c) then []
    else if c.Check? && c.ip == ip && !Crowded(ts, c.now) then ts + [c.now]
    else ts
  }

  function Times(b: Entries, cs: seq<Call>, ip: Ip, ts: seq<Time>): seq<Time>
    decreases |cs|
  {
    if cs == [] then ts else Times(Next(b, cs[0]), cs[1..], ip, TimesAfter(b, cs[0], ip, ts))
  }

  /** What the counter counts; the message that makes the entry counts as zero. */
  function Streak(ts: seq<Time>): nat {
    var n := |ts|;
    if n <= 1 then 0
    else if Near(ts[n - 2], ts[n - 1]) then Streak(ts[..n - 1]) + 1
    else 1
  }

  lemma {:induction false} StreakIsChain(ts: seq<Time>, k: nat)
    requires k >= 1
    ensures Streak(ts) >= k <==> |ts| > k && Chain(ts, k)
    decreases k
  {
    var n := |ts|;
    if k == 1 || n <= 1 {
    } else {
      var before := ts[..n - 1];
      StreakIsChain(before, k - 1);
      assert n > k && Chain(ts, k) ==> Near(ts[n - 2], ts[n - 1]);
      if n > k && Chain(before, k - 1) && Near(ts[n - 2], ts[n - 1]) {
        forall j | n - k < j < n ensures Near(ts[j - 1], ts[j]) {
          assert j < n - 1 ==> Near(before[j - 1], before[j]);
        }
      }
      if n > k && Chain(ts, k) {
        forall j | n - 1 - (k - 1) < j < n - 1 ensures Near(before[j - 1], before[j]) {
          assert Near(ts[j - 1], ts[j]);
        }
      }
    }
  }

  predicate CounterShows(b: Entries, ip: Ip, ts: seq<Time>) {
    if ip !in b then ts == []
    else ts != [] && b[ip].countTime == ts[|ts| - 1] && b[ip].count == Streak(ts)
  }

  lemma ThrottledIsCrowded(e: Entry, ts: seq<Time>, now: Time)
    requires ts != [] && e.countTime == ts[|ts| - 1] && e.count == Streak(ts)
    ensures Throttled(e, now) <==> Crowded(ts, now)
  {
    StreakIsChain(ts, 31);
  }

  lemma StepShowsCounter(b: Entries, c: Call, ip: Ip, ts: seq<Time>)
    requires CounterShows(b, ip, ts)
    ensures CounterShows(Next(b, c), ip, TimesAfter(b, c, ip, ts))
  {
    if ip in b && c.Check? && c.ip == ip {
      ThrottledIsCrowded(b[ip], ts, c.now);
      assert (ts + [c.now])[..|ts|] == ts;
    }
  }

  lemma {:induction false} RunShowsCounter(b: Entries, cs: seq<Call>, ip: Ip, ts: seq<Time>)
    requires CounterShows(b, ip, ts)
    ensures CounterShows(Run(b, cs), ip, Times(b, cs, ip, ts))
    decreases |cs|
  {
    if cs == [] {
    } else {
      StepShowsCounter(b, cs[0], ip, ts);
      RunShowsCounter(Next(b, cs[0]), cs[1..], ip, TimesAfter(b, cs[0], ip, ts));
    }
  }

  /** In every run a message passes exactly when its ip has no entry, or is not crowded and the id is
      recorded, fewer than 301 are, or none was recorded for more than a day. */
  lemma PassesIff(cs: seq<Call>, ip: Ip, id: string, now: Time)
    ensures var b := Run(map[], cs);
            CheckIp(b, ip, id, now).1
            <==> || ip !in b
                 || (&& !Crowded(Times(map[], cs, ip, []), now)
                     && (id in b[ip].ids || |b[ip].ids| < 301 || b[ip].idsTime + 86_401 * SECOND <= now))
  {
    var b, ts := Run(map[], cs), Times(map[], cs, ip, []);
    RunShowsCounter(map[], cs, ip, []);
    if ip in b {
      ThrottledIsCrowded(b[ip], ts, now);
    }
  }

  /** What a message that passes leaves recorded: after a day without one the record starts afresh, and
      an id that was recorded is then not recorded again at once. */
  lemma RecordedIdsAre(b: Entries, ip: Ip, id: string, now: Time)
    requires ip in b && CheckIp(b, ip, id, now).1
    ensures var e, e' := b[ip], CheckIp(b, ip, id, now).0[ip];
            var kept := if e.idsTime + 86_401 * SECOND <= now then {} else e.ids;
            if id in e.ids && e.idsTime + 86_401 * SECOND > now then
              e'.ids == e.ids && e'.idsTime == if |e.ids| > 300 then e.idsTime else now
            else e'.ids == kept + ({id} - e.ids) && e'.idsTime == now
  {
  }

  lemma OthersKeepEntries(b: Entries, ip: Ip, id: string, now: Time)
    ensures CheckIp(b, ip, id, now).0 - {ip} == b - {ip}
  {
  }

  /** The clean-up drops exactly the entries without a message for 61 s and without a recorded id for
      more than a day. */
  lemma RetainedIff(b: Entries, ip: Ip, now: Time)
    ensures ip in Retained(b, now) <==>
              ip in b && (now < b[ip].countTime + 61 * SECOND || now < b[ip].idsTime + 86_401 * SECOND)
    ensures ip in Retained(b, now) ==> Retained(b, now)[ip] == b[ip]
  {
  }
}
