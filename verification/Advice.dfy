/**
 * What the answers tell a client: whether it may pass, how long to wait, and how many more requests would pass. Each
 * law holds for every client of a shared, expiring store, and compares an answer with what later answers turn out to be.
 */
module Advice {
  import opened Basics
  import opened Keys
  import opened RedisStore
  import opened Limiters
  import opened Windows
  import opened Isolation
  import opened Expiry
  import opened Gateway
  import FixedWindow
  import LeakyBucket
  import Remaining
  import SlidingLog
  import SlidingWindowCounter
  import TokenBucket

  /** A pass carries no reason and no delay; a reject carries both, and nothing remains. */
  predicate Told(o: Outcome) {
    o.Ok? &&
    if o.value.allowed then o.value.reason.None? && o.value.retryAfter.None? && o.value.remaining >= 0
    else
      && o.value.reason == Some("rate_limit_exceeded") && o.value.remaining == 0
      && o.value.retryAfter.Some? && o.value.retryAfter.value >= 1
  }

  function Delay(o: Outcome): int
    requires Told(o) && !Passed(o)
  {
    o.value.retryAfter.value
  }

  function Budget(o: Outcome): int
    requires Told(o) && Passed(o)
  {
    o.value.remaining
  }

  // ---------- buckets ----------

  lemma {:induction false} StateSplits(c: Config, b: Option<Bucket>, ts: seq<int>, k: nat, n: nat)
    requires c.Valid() && k + n <= |ts|
    ensures TokenBucket.StateAt(c, TokenBucket.StateAt(c, b, ts, k), ts[k..], n) == TokenBucket.StateAt(c, b, ts, k + n)
  {
    if n > 0 {
      StateSplits(c, b, ts, k, n - 1);
      assert ts[k..][n - 1] == ts[k + n - 1];
    }
  }

  lemma {:induction false} LeakStateSplits(c: Config, b: Option<Bucket>, ts: seq<int>, k: nat, n: nat)
    requires c.Valid() && k + n <= |ts|
    ensures LeakyBucket.LeakStateAt(c, LeakyBucket.LeakStateAt(c, b, ts, k), ts[k..], n)
         == LeakyBucket.LeakStateAt(c, b, ts, k + n)
  {
    if n > 0 {
      LeakStateSplits(c, b, ts, k, n - 1);
      assert ts[k..][n - 1] == ts[k + n - 1];
    }
  }

  lemma VerdictSplits(c: Config, ts: seq<int>, k: nat, n: nat)
    requires c.Valid() && k + n < |ts|
    ensures TokenBucket.VerdictAt(c, TokenBucket.StateAt(c, None, ts, k), ts[k..], n) == TokenBucket.VerdictAt(c, None, ts, k + n)
    ensures LeakyBucket.LeakVerdictAt(c, LeakyBucket.LeakStateAt(c, None, ts, k), ts[k..], n)
         == LeakyBucket.LeakVerdictAt(c, None, ts, k + n)
  {
    StateSplits(c, None, ts, k, n);
    LeakStateSplits(c, None, ts, k, n);
    assert ts[k..][n] == ts[k + n];
  }

  /** What a call at ts[k] leaves behind. */
  lemma LeftBehind(c: Config, ts: seq<int>, k: nat)
    requires c.Valid() && k < |ts|
    ensures var after := TokenBucket.StateAt(c, None, ts, k + 1);
            after.Some? && TokenBucket.InRange(c, after) && after.value.last == ts[k]
    ensures var after := LeakyBucket.LeakStateAt(c, None, ts, k + 1);
            after.Some? && TokenBucket.InRange(c, after) && after.value.last == ts[k]
  {
    TokenBucket.LevelStaysInRange(c, None, ts, k + 1);
    LeakyBucket.WaterStaysInRange(c, None, ts, k + 1);
  }

  lemma BucketReject(c: Config, ts: seq<int>, k: nat)
    requires c.Valid() && k < |ts|
    ensures c.cost > c.capacity ==> !TokenBucket.VerdictAt(c, None, ts, k).allowed
    ensures c.cost > c.capacity ==> !LeakyBucket.LeakVerdictAt(c, None, ts, k).allowed
  {
    LeakyBucket.MirrorRun(c, None, ts, k);
  }

  lemma TokenBurstAfter(c: Config, b: Bucket, ts: seq<int>, n: nat)
    requires c.Valid() && TokenBucket.InRange(c, Some(b)) && n < |ts| && forall i :: 0 <= i <= n ==> ts[i] == b.last
    ensures TokenBucket.VerdictAt(c, Some(b), ts, n).allowed
       <==> n + 1 <= Remaining.TokenRemaining(Truncate(b.level), c.cost)
  {
    Remaining.BurstMatchesBudget(c, b, ts, n);
  }

  lemma LeakBurstAfter(c: Config, b: Bucket, ts: seq<int>, n: nat)
    requires c.Valid() && TokenBucket.InRange(c, Some(b)) && n < |ts| && forall i :: 0 <= i <= n ==> ts[i] == b.last
    ensures LeakyBucket.LeakVerdictAt(c, Some(b), ts, n).allowed
       <==> n + 1 <= Remaining.LeakRemaining(c.capacity, Truncate(b.level), c.cost)
                      - if Remaining.HidesSlot(c, b.level) then 1 else 0
  {
    Remaining.LeakBurstMatchesRoom(c, b, ts, n);
  }

  lemma SameMoments(ts: seq<int>, k: nat, n: nat, rest: seq<int>)
    requires k + 1 + n < |ts| && rest == ts[k + 1..] && forall i :: k <= i <= k + 1 + n ==> ts[i] == ts[k]
    ensures forall i :: 0 <= i <= n ==> rest[i] == ts[k]
  {
  }

  /** A burst that follows a call at ts[k] meets the bucket that the call left behind. */
  lemma MeetsLeftBehind(c: Config, ts: seq<int>, k: nat, n: nat, rest: seq<int>, after: Option<Bucket>)
    requires c.Valid() && k + 1 + n < |ts| && rest == ts[k + 1..] && forall i :: k <= i <= k + 1 + n ==> ts[i] == ts[k]
    requires after == TokenBucket.StateAt(c, None, ts, k + 1) || after == LeakyBucket.LeakStateAt(c, None, ts, k + 1)
    ensures after.Some? && TokenBucket.InRange(c, after) && forall i :: 0 <= i <= n ==> rest[i] == after.value.last
  {
    LeftBehind(c, ts, k);
    SameMoments(ts, k, n, rest);
  }

  lemma TokenBurst(c: Config, ts: seq<int>, k: nat, m: nat, after: Bucket)
    requires c.Valid() && k < m < |ts| && forall i :: k <= i <= m ==> ts[i] == ts[k]
    requires TokenBucket.StateAt(c, None, ts, k + 1) == Some(after)
    ensures TokenBucket.VerdictAt(c, None, ts, m).allowed
       <==> m - k <= Remaining.TokenRemaining(Truncate(after.level), c.cost)
  {
    var n := m - k - 1;
    var rest := ts[k + 1..];
    MeetsLeftBehind(c, ts, k, n, rest, Some(after));
    VerdictSplits(c, ts, k + 1, n);
    TokenBurstAfter(c, after, rest, n);
  }

  lemma LeakBurst(c: Config, ts: seq<int>, k: nat, m: nat, after: Bucket)
    requires c.Valid() && k < m < |ts| && forall i :: k <= i <= m ==> ts[i] == ts[k]
    requires LeakyBucket.LeakStateAt(c, None, ts, k + 1) == Some(after)
    ensures LeakyBucket.LeakVerdictAt(c, None, ts, m).allowed
       <==> m - k <= Remaining.LeakRemaining(c.capacity, Truncate(after.level), c.cost)
                      - if Remaining.HidesSlot(c, after.level) then 1 else 0
  {
    var n := m - k - 1;
    var rest := ts[k + 1..];
    MeetsLeftBehind(c, ts, k, n, rest, Some(after));
    VerdictSplits(c, ts, k + 1, n);
    LeakBurstAfter(c, after, rest, n);
  }

  /** The client's own requests and what they were told. */
  ghost predicate Heard(c: Client, events: seq<Event>, ts: seq<int>, os: seq<Outcome>) {
    ts == Times(Expiry.Own(c, events)) && os == Answers(c, events)
  }

  /** The advertised delay is exact: rejects until then, and the first request from then on passes. */
  predicate DelayHolds(ts: seq<int>, os: seq<Outcome>, k: nat, m: nat)
    requires k <= m < |os| == |ts| && Told(os[k])
  {
    !Passed(os[k]) && k < m && ts[m - 1] < ts[k] + Delay(os[k]) ==> (Passed(os[m]) <==> ts[m] >= ts[k] + Delay(os[k]))
  }

  /** Of the requests that follow at the same moment, as many pass as the answer said, less `excess`. */
  predicate BudgetHolds(ts: seq<int>, os: seq<Outcome>, k: nat, m: nat, excess: int)
    requires k <= m < |os| == |ts| && Told(os[k])
  {
    Passed(os[k]) && k < m && ts[m] == ts[k] ==> (Passed(os[m]) <==> m - k <= Budget(os[k]) - excess)
  }

  lemma TokenBucketAdvice(c: Client, params: Params, events: seq<Event>, cfg: Config, ts: seq<int>, os: seq<Outcome>, k: nat, m: nat)
    requires c.algorithm.TokenBucket? && ':' !in c.policy && LegalRun(events) && Fixed(c, params, events)
    requires TokenParams(params, cfg) && cfg.Valid() && Heard(c, events, ts, os) && k <= m < |ts|
    ensures Told(os[k]) && BudgetHolds(ts, os, k, m, 0)
    ensures cfg.cost <= cfg.capacity ==> DelayHolds(ts, os, k, m)
    ensures cfg.cost > cfg.capacity ==> !Passed(os[k])
  {
    OwnTimesSorted(c, events);
    TokenBucketAnswer(c, params, events, cfg, k);
    TokenBucketAnswer(c, params, events, cfg, m);
    BucketReject(cfg, ts, k);
    var v := TokenBucket.VerdictAt(cfg, None, ts, k);
    if v.allowed && k < m && ts[m] == ts[k] {
      TokenBurst(cfg, ts, k, m, TokenBucket.StateAt(cfg, None, ts, k + 1).value);
    }
    if !v.allowed && cfg.cost <= cfg.capacity && k < m && ts[m - 1] < ts[k] + v.retryAfter {
      TokenBucket.RetryAfterIsExact(cfg, None, ts, k, m);
    }
  }

  lemma LeakyBucketAdvice(c: Client, params: Params, events: seq<Event>, cfg: Config, ts: seq<int>, os: seq<Outcome>, k: nat, m: nat)
    requires c.algorithm.LeakyBucket? && ':' !in c.policy && LegalRun(events) && Fixed(c, params, events)
    requires LeakParams(params, cfg) && cfg.Valid() && Heard(c, events, ts, os) && k <= m < |ts|
    ensures var water := LeakyBucket.LeakStateAt(cfg, None, ts, k + 1).value.level;
            Told(os[k]) && BudgetHolds(ts, os, k, m, if Remaining.HidesSlot(cfg, water) then 1 else 0)
    ensures cfg.cost <= cfg.capacity ==> DelayHolds(ts, os, k, m)
    ensures cfg.cost > cfg.capacity ==> !Passed(os[k])
  {
    OwnTimesSorted(c, events);
    LeakyBucketAnswer(c, params, events, cfg, k);
    LeakyBucketAnswer(c, params, events, cfg, m);
    BucketReject(cfg, ts, k);
    var v := LeakyBucket.LeakVerdictAt(cfg, None, ts, k);
    if v.allowed && k < m && ts[m] == ts[k] {
      LeakBurst(cfg, ts, k, m, LeakyBucket.LeakStateAt(cfg, None, ts, k + 1).value);
    }
    if !v.allowed && cfg.cost <= cfg.capacity && k < m && ts[m - 1] < ts[k] + v.retryAfter {
      LeakyBucket.LeakRetryAfterIsExact(cfg, None, ts, k, m);
    }
  }

  // ---------- the sliding log ----------

  /** Request i is admitted exactly if fewer than `limit` were in the window. */
  predicate FitsAt(ts: seq<int>, s: seq<bool>, i: nat, lo: int, hi: int, limit: int)
    requires i < |ts| == |s|
  {
    s[i] <==> AdmittedWithin(ts, s, i, lo, hi) < limit
  }

  /** Requests of one moment are admitted until the window is full. */
  lemma {:induction false} BurstFills(ts: seq<int>, s: seq<bool>, k: nat, n: nat, lo: int, hi: int, limit: int)
    requires |s| == |ts| && k <= n <= |ts| && lo <= hi && AdmittedWithin(ts, s, k, lo, hi) <= limit
    requires forall i: nat | k <= i < n :: ts[i] == hi && FitsAt(ts, s, i, lo, hi, limit)
    ensures AdmittedWithin(ts, s, n, lo, hi) == Min(limit, AdmittedWithin(ts, s, k, lo, hi) + n - k)
  {
    if n > k {
      BurstFills(ts, s, k, n - 1, lo, hi, limit);
      assert FitsAt(ts, s, n - 1, lo, hi, limit);
    }
  }

  /** s holds the log's decisions. */
  ghost predicate Decided(window: int, limit: int, ts: seq<int>, s: seq<bool>)
    requires limit > 0
  {
    |s| == |ts| && forall i: nat | i < |ts| :: SlidingLog.DecidedAt(window, limit, ts, s, i)
  }

  lemma LogFitsAt(window: int, limit: int, ts: seq<int>, s: seq<bool>, i: nat, now: int)
    requires limit > 0 && window >= 0 && Sorted(ts) && i < |ts| && Decided(window, limit, ts, s) && ts[i] == now
    ensures FitsAt(ts, s, i, now - window, now, limit)
  {
    SlidingLog.LogIsRecentHistory(window, limit, ts, s, i);
    SlidingLog.AdmitsOnHistory(window, limit, ts, s, i, SlidingLog.LogAt(window, limit, ts, i));
    assert SlidingLog.DecidedAt(window, limit, ts, s, i);
  }

  lemma LogReports(window: int, limit: int, ts: seq<int>, s: seq<bool>, k: nat)
    requires limit > 0 && window >= 0 && Sorted(ts) && k < |ts| && Decided(window, limit, ts, s)
    ensures SlidingLog.VerdictAt(window, limit, ts, k).remaining
         == limit - AdmittedWithin(ts, s, k + 1, ts[k] - window, ts[k]) >= 0
  {
    SlidingLog.ReportsWindowCount(window, limit, ts, s, k);
    CountWithinLimit(window, limit, ts, k);
  }

  lemma BurstPasses(ts: seq<int>, s: seq<bool>, k: nat, m: nat, lo: int, hi: int, limit: int, remaining: int)
    requires |s| == |ts| && k < m < |ts| && lo <= hi && remaining == limit - AdmittedWithin(ts, s, k + 1, lo, hi) >= 0
    requires forall i: nat | k < i <= m :: ts[i] == hi && FitsAt(ts, s, i, lo, hi, limit)
    ensures s[m] <==> m - k <= remaining
  {
    BurstFills(ts, s, k + 1, m, lo, hi, limit);
    assert FitsAt(ts, s, m, lo, hi, limit);
  }

  lemma LogBurst(window: int, limit: int, ts: seq<int>, s: seq<bool>, k: nat, m: nat, remaining: int)
    requires limit > 0 && window >= 0 && Sorted(ts) && k < m < |ts| && ts[m] == ts[k] && Decided(window, limit, ts, s)
    requires remaining == SlidingLog.VerdictAt(window, limit, ts, k).remaining
    ensures s[m] <==> m - k <= remaining
  {
    LogReports(window, limit, ts, s, k);
    forall i: nat | k < i <= m ensures ts[i] == ts[k] && FitsAt(ts, s, i, ts[k] - window, ts[k], limit) {
      LogFitsAt(window, limit, ts, s, i, ts[k]);
    }
    BurstPasses(ts, s, k, m, ts[k] - window, ts[k], limit, remaining);
  }

  lemma CountWithinLimit(window: int, limit: int, ts: seq<int>, k: nat)
    requires limit > 0 && k < |ts|
    ensures SlidingLog.VerdictAt(window, limit, ts, k).count <= limit
  {
    SlidingLog.LogWithinLimit(window, limit, ts, k);
    SlidingLog.TrimShortens(SlidingLog.LogAt(window, limit, ts, k), ts[k] - window);
  }

  /** Some earlier request was admitted exactly one window before ts[k]. */
  predicate AtEdge(window: int, ts: seq<int>, s: seq<bool>, k: nat)
    requires k < |ts| == |s|
  {
    exists i :: 0 <= i < k && s[i] && ts[i] == ts[k] - window
  }

  /** The oldest entry stands at the window's start exactly if a request was admitted one window ago. */
  lemma OldestAtEdge(window: int, limit: int, ts: seq<int>, s: seq<bool>, k: nat, log: seq<int>)
    requires limit > 0 && Decided(window, limit, ts, s)
    requires limit > 0 && window >= 0 && Sorted(ts) && k < |ts| && !SlidingLog.VerdictAt(window, limit, ts, k).allowed
    requires log == SlidingLog.LogAt(window, limit, ts, k + 1) && log != []
    ensures log[0] == ts[k] - window <==> AtEdge(window, ts, s, k)
  {
    var lo, before := ts[k] - window, SlidingLog.LogAt(window, limit, ts, k);
    SlidingLog.LogAfterReject(window, limit, ts, k);
    SlidingLog.StepMember(window, limit, before, ts[k], lo);
    if log[0] == lo {
      assert lo in log;
      var i := SlidingLog.MembersSurvive(window, limit, ts, k, lo, lo);
      assert SlidingLog.DecidedAt(window, limit, ts, s, i);
    }
    if i: nat :| i < k && s[i] && ts[i] == lo {
      assert SlidingLog.DecidedAt(window, limit, ts, s, i);
      assert SlidingLog.Survives(window, ts, i, k, lo);
      SlidingLog.SurvivorsAreMembers(window, limit, ts, k, lo, i);
      assert lo in log;
      var j :| 0 <= j < |log| && log[j] == lo;
    }
  }

  lemma LogDelay(window: int, limit: int, ts: seq<int>, s: seq<bool>, k: nat, m: nat, edge: bool)
    requires limit > 0 && Decided(window, limit, ts, s)
    requires limit > 0 && window >= 0 && Sorted(ts) && k < m < |ts| && !SlidingLog.VerdictAt(window, limit, ts, k).allowed
    requires edge <==> AtEdge(window, ts, s, k)
    ensures var d := SlidingLog.VerdictAt(window, limit, ts, k).retryAfter + if edge then 0 else 1;
            ts[m - 1] < ts[k] + d ==> (SlidingLog.VerdictAt(window, limit, ts, m).allowed <==> ts[m] >= ts[k] + d)
  {
    var log := SlidingLog.LogAt(window, limit, ts, k + 1);
    SlidingLog.LogAfterReject(window, limit, ts, k);
    OldestAtEdge(window, limit, ts, s, k, log);
    if ts[m - 1] <= log[0] + window {
      SlidingLog.RetryLaw(window, limit, ts, log, k, m);
    }
  }

  /** Which of the answers let the request through one window before ts[k]. */
  predicate PassedAtEdge(window: int, ts: seq<int>, os: seq<Outcome>, k: nat)
    requires k < |ts| == |os|
  {
    exists i :: 0 <= i < k && Passed(os[i]) && ts[i] == ts[k] - window
  }

  /** The exact delay is the advertised one, and one millisecond more unless a request passed exactly one window ago. */
  lemma SlidingLogAdvice(c: Client, params: Params, events: seq<Event>, windowSec: int, limit: int,
                         ts: seq<int>, os: seq<Outcome>, k: nat, m: nat)
    requires c.algorithm.SlidingLog? && ':' !in c.policy && LegalRun(events) && Fixed(c, params, events)
    requires WindowParams(params, windowSec, limit) && windowSec > 0 && limit > 0 && Heard(c, events, ts, os) && k <= m < |ts|
    ensures Told(os[k]) && BudgetHolds(ts, os, k, m, 0)
    ensures !Passed(os[k]) ==>
      var d := Delay(os[k]) + if PassedAtEdge(windowSec * 1000, ts, os, k) then 0 else 1;
      k < m && ts[m - 1] < ts[k] + d ==> (Passed(os[m]) <==> ts[m] >= ts[k] + d)
  {
    var window := windowSec * 1000;
    OwnTimesSorted(c, events);
    forall i | 0 <= i < |ts| ensures os[i] == LogAnswer(window, limit, ts, i) {
      SlidingLogAnswer(c, params, events, windowSec, limit, i);
    }
    var v, s := SlidingLog.VerdictAt(window, limit, ts, k), Allowed(os);
    assert Decided(window, limit, ts, s) by {
      forall i: nat | i < |ts| ensures SlidingLog.DecidedAt(window, limit, ts, s, i) {
        assert os[i] == LogAnswer(window, limit, ts, i);
      }
    }
    if v.allowed {
      if k < m && ts[m] == ts[k] {
        LogBurst(window, limit, ts, s, k, m, v.remaining);
      }
      LogReports(window, limit, ts, s, k);
    } else if k < m {
      assert PassedAtEdge(window, ts, os, k) <==> AtEdge(window, ts, s, k);
      LogDelay(window, limit, ts, s, k, m, AtEdge(window, ts, s, k));
    }
  }

  // ---------- the window counters ----------

  /** Arrivals between two of the same window all count in it. */
  lemma {:induction false} SameWindowCounts(window: int, ts: seq<int>, k: nat, m: nat, start: int)
    requires window > 0 && Sorted(ts) && k <= m < |ts| && Start(ts[k], window) == Start(ts[m], window) == start
    ensures Arrivals(window, ts, m, start) == Arrivals(window, ts, k, start) + m - k
    ensures Arrivals(window, ts, m, start - window) == Arrivals(window, ts, k, start - window)
  {
    if k < m {
      StartGrows(ts[k], ts[m - 1], window);
      StartGrows(ts[m - 1], ts[m], window);
      SameWindowCounts(window, ts, k, m - 1, start);
    }
  }

  /** Within a window as many more requests pass as the answer said. */
  predicate WindowBudgetHolds(window: int, ts: seq<int>, os: seq<Outcome>, k: nat, m: nat)
    requires window > 0 && k <= m < |os| == |ts| && Told(os[k])
  {
    Passed(os[k]) && k < m && Start(ts[m], window) == Start(ts[k], window) ==> (Passed(os[m]) <==> m - k <= Budget(os[k]))
  }

  lemma StartNotNegative(now: nat, window: int)
    requires window > 0
    ensures 0 <= Start(now, window)
  {
    StartBounds(now, window);
  }

  /** The verdicts of handlers that run one at a time. */
  function FixedVerdicts(window: int, limit: int, ts: seq<int>): (vs: seq<FixedWindow.Verdict>)
    requires window > 0
    ensures |vs| == |ts| && forall n :: 0 <= n < |ts| ==> vs[n] == FixedWindow.VerdictAt(window, limit, ts, n)
  {
    seq(|ts|, n requires 0 <= n < |ts| => FixedWindow.VerdictAt(window, limit, ts, n))
  }

  lemma FixedDelay(window: int, limit: int, ts: seq<int>, k: nat, m: nat)
    requires window > 0 && limit > 0 && Sorted(ts) && k < m < |ts| && ts[k] >= 0
    requires !FixedWindow.VerdictAt(window, limit, ts, k).allowed
    ensures var next := ts[k] + FixedWindow.VerdictAt(window, limit, ts, k).retryAfter;
            ts[m - 1] < next ==> (FixedWindow.VerdictAt(window, limit, ts, m).allowed <==> ts[m] >= next)
  {
    var vs := FixedVerdicts(window, limit, ts);
    assert FixedWindow.Exact(window, limit, ts, vs) by {
      forall n | 0 <= n < |ts| ensures vs[n] == FixedWindow.ExactVerdict(window, limit, ts, n) {
        FixedWindow.VerdictIsExact(window, limit, ts, n);
      }
    }
    StartNotNegative(ts[k], window);
    FixedWindow.RetryOpensNextWindow(window, limit, ts, vs, k, m);
  }

  lemma FixedBurst(window: int, limit: int, ts: seq<int>, k: nat, m: nat)
    requires window > 0 && Sorted(ts) && k < m < |ts| && Start(ts[m], window) == Start(ts[k], window)
    requires FixedWindow.VerdictAt(window, limit, ts, k).allowed
    ensures FixedWindow.VerdictAt(window, limit, ts, m).allowed
       <==> m - k <= FixedWindow.VerdictAt(window, limit, ts, k).remaining
  {
    FixedWindow.VerdictIsExact(window, limit, ts, k);
    FixedWindow.VerdictIsExact(window, limit, ts, m);
    SameWindowCounts(window, ts, k, m, Start(ts[k], window));
  }

  lemma FixedWindowAdvice(c: Client, params: Params, events: seq<Event>, windowSec: int, limit: int,
                          ts: seq<int>, os: seq<Outcome>, k: nat, m: nat)
    requires c.algorithm.FixedWindow? && ':' !in c.policy && LegalRun(events) && Fixed(c, params, events)
    requires WindowParams(params, windowSec, limit) && windowSec > 0 && limit > 0 && Heard(c, events, ts, os) && k <= m < |ts|
    ensures Told(os[k]) && DelayHolds(ts, os, k, m) && WindowBudgetHolds(windowSec * 1000, ts, os, k, m)
  {
    var window := windowSec * 1000;
    OwnTimesSorted(c, events);
    WindowedAnswer(c, params, events, windowSec, limit, k);
    WindowedAnswer(c, params, events, windowSec, limit, m);
    assert ts[k] in ts;
    if k == m {
    } else if !FixedWindow.VerdictAt(window, limit, ts, k).allowed {
      FixedDelay(window, limit, ts, k, m);
    } else if Start(ts[m], window) == Start(ts[k], window) {
      FixedBurst(window, limit, ts, k, m);
    }
  }

  /** The estimate that request k met was a whole number. */
  predicate WholeEstimate(window: int, ts: seq<int>, k: nat)
    requires window > 0 && k < |ts|
  {
    var start := Start(ts[k], window);
    SlidingWindowCounter.IsWhole(SlidingWindowCounter.Estimate(
      window, Arrivals(window, ts, k, start) + 1, Arrivals(window, ts, k, start - window), ts[k] - start))
  }

  lemma CounterBurst(window: int, limit: int, ts: seq<int>, k: nat, m: nat)
    requires window > 0 && Sorted(ts) && k < m < |ts| && ts[m] == ts[k]
    requires SlidingWindowCounter.VerdictAt(window, limit, ts, k).allowed
    ensures SlidingWindowCounter.VerdictAt(window, limit, ts, m).allowed
       <==> m - k <= SlidingWindowCounter.VerdictAt(window, limit, ts, k).remaining - if WholeEstimate(window, ts, k) then 1 else 0
  {
    var start := Start(ts[k], window);
    SlidingWindowCounter.VerdictFromArrivals(window, limit, ts, k);
    SlidingWindowCounter.VerdictFromArrivals(window, limit, ts, m);
    SameWindowCounts(window, ts, k, m, start);
    SlidingWindowCounter.RemainingOverstatesIff(window, limit, Arrivals(window, ts, k, start) + 1,
                                                Arrivals(window, ts, k, start - window), ts[k], m - k);
  }

  lemma CounterDelay(window: int, limit: int, ts: seq<int>, k: nat)
    requires window > 0 && k < |ts| && !SlidingWindowCounter.VerdictAt(window, limit, ts, k).allowed
    ensures ts[k] + SlidingWindowCounter.VerdictAt(window, limit, ts, k).retryAfter == Start(ts[k], window) + window
    ensures SlidingWindowCounter.VerdictAt(window, limit, ts, k).retryAfter >= 1
  {
    var start := Start(ts[k], window);
    SlidingWindowCounter.VerdictFromArrivals(window, limit, ts, k);
    SlidingWindowCounter.AdvertisedTime(window, limit, Arrivals(window, ts, k, start) + 1,
                                        Arrivals(window, ts, k, start - window), ts[k]);
  }

  /** The answer says what the verdict says. */
  predicate Conveys(o: Outcome, v: SlidingWindowCounter.Verdict) {
    Told(o) && (Passed(o) <==> v.allowed) && if v.allowed then Budget(o) == v.remaining else Delay(o) == v.retryAfter
  }

  lemma DecisionConveys(window: int, limit: int, current: int, previous: int, now: int)
    requires window > 0
    ensures Conveys(Ok(SlidingWindowCounterDecision(window, limit, current, previous, now)),
                    SlidingWindowCounter.Judge(window, limit, current, previous, now))
  {
  }

  lemma AnswerConveys(window: int, limit: int, ts: seq<int>, n: nat)
    requires window > 0 && n < |ts|
    ensures Conveys(WindowAnswerAt(Algorithm.SlidingWindowCounter, window, limit, ts, n),
                    SlidingWindowCounter.VerdictAt(window, limit, ts, n))
  {
    var start, counts := Start(ts[n], window), CountsAt(window, ts, n);
    var current, previous := Hits(counts, start) + 1, Hits(Hit(counts, start), start - window);
    DecisionConveys(window, limit, current, previous, ts[n]);
    assert SlidingWindowCounter.VerdictAt(window, limit, ts, n) == SlidingWindowCounter.Judge(window, limit, current, previous, ts[n]);
  }

  lemma CounterAnswers(c: Client, params: Params, events: seq<Event>, windowSec: int, limit: int, ts: seq<int>, os: seq<Outcome>, n: nat)
    requires c.algorithm.SlidingWindowCounter? && ':' !in c.policy && LegalRun(events) && Fixed(c, params, events)
    requires WindowParams(params, windowSec, limit) && windowSec > 0 && Heard(c, events, ts, os) && n < |ts|
    ensures Conveys(os[n], SlidingWindowCounter.VerdictAt(windowSec * 1000, limit, ts, n))
  {
    WindowedAnswer(c, params, events, windowSec, limit, n);
    AnswerConveys(windowSec * 1000, limit, ts, n);
  }

  /** A request passes by what has arrived in its window and the one before, rejected requests included. */
  predicate PassesByArrivals(window: int, limit: int, ts: seq<int>, os: seq<Outcome>, m: nat)
    requires window > 0 && m < |os| == |ts|
  {
    var start, e := Start(ts[m], window), SlidingWindowCounter.Offset(ts[m], window);
    Passed(os[m]) <==> (Arrivals(window, ts, m, start) + 1) * window + Arrivals(window, ts, m, start - window) * (window - e)
                       < limit * window
  }

  lemma CounterPasses(window: int, limit: int, ts: seq<int>, os: seq<Outcome>, m: nat)
    requires window > 0 && m < |ts| == |os| && Conveys(os[m], SlidingWindowCounter.VerdictAt(window, limit, ts, m))
    ensures PassesByArrivals(window, limit, ts, os, m)
  {
    SlidingWindowCounter.AdmitsByArrivals(window, limit, ts, m, Start(ts[m], window), SlidingWindowCounter.Offset(ts[m], window));
  }

  lemma CounterBudget(window: int, limit: int, ts: seq<int>, os: seq<Outcome>, k: nat, m: nat)
    requires window > 0 && Sorted(ts) && k <= m < |ts| == |os|
    requires Conveys(os[k], SlidingWindowCounter.VerdictAt(window, limit, ts, k))
    requires Conveys(os[m], SlidingWindowCounter.VerdictAt(window, limit, ts, m))
    ensures BudgetHolds(ts, os, k, m, if WholeEstimate(window, ts, k) then 1 else 0)
  {
    if Passed(os[k]) && k < m && ts[m] == ts[k] {
      CounterBurst(window, limit, ts, k, m);
    }
  }

  lemma CounterRetry(window: int, limit: int, ts: seq<int>, os: seq<Outcome>, k: nat)
    requires window > 0 && Sorted(ts) && k < |ts| == |os|
    requires Conveys(os[k], SlidingWindowCounter.VerdictAt(window, limit, ts, k))
    requires k + 1 < |ts| ==> Conveys(os[k + 1], SlidingWindowCounter.VerdictAt(window, limit, ts, k + 1))
    ensures !Passed(os[k]) ==> ts[k] + Delay(os[k]) == Start(ts[k], window) + window
    ensures !Passed(os[k]) && k + 1 < |ts| && ts[k + 1] == ts[k] + Delay(os[k]) ==>
      (Passed(os[k + 1]) <==> Arrivals(window, ts, k + 1, Start(ts[k], window)) <= limit - 2)
  {
    if !Passed(os[k]) {
      CounterDelay(window, limit, ts, k);
      if k + 1 < |ts| && ts[k + 1] == ts[k] + Delay(os[k]) {
        SlidingWindowCounter.AdvertisedRetryWorksIff(window, limit, ts, k);
      }
    }
  }

  /**
   * The advertised time is the end of the window. It is neither always enough nor always the earliest; a request
   * sent exactly then, as the next one, passes if the window has seen at most limit - 2 attempts.
   */
  lemma SlidingWindowCounterAdvice(c: Client, params: Params, events: seq<Event>, windowSec: int, limit: int, window: int,
                                   ts: seq<int>, os: seq<Outcome>, k: nat, m: nat)
    requires c.algorithm.SlidingWindowCounter? && ':' !in c.policy && LegalRun(events) && Fixed(c, params, events)
    requires WindowParams(params, windowSec, limit) && windowSec > 0 && window == windowSec * 1000
    requires Heard(c, events, ts, os) && k <= m < |ts|
    ensures Told(os[k]) && PassesByArrivals(window, limit, ts, os, m)
    ensures BudgetHolds(ts, os, k, m, if WholeEstimate(window, ts, k) then 1 else 0)
    ensures !Passed(os[k]) ==> ts[k] + Delay(os[k]) == Start(ts[k], window) + window
    ensures !Passed(os[k]) && k + 1 < |ts| && ts[k + 1] == ts[k] + Delay(os[k]) ==>
      (Passed(os[k + 1]) <==> Arrivals(window, ts, k + 1, Start(ts[k], window)) <= limit - 2)
  {
    OwnTimesSorted(c, events);
    forall n: nat | n < |ts| ensures Conveys(os[n], SlidingWindowCounter.VerdictAt(window, limit, ts, n)) {
      CounterAnswers(c, params, events, windowSec, limit, ts, os, n);
    }
    CounterPasses(window, limit, ts, os, m);
    CounterBudget(window, limit, ts, os, k, m);
    CounterRetry(window, limit, ts, os, k);
  }
}
