/**
 * The leaky bucket script (redis_store.go, leakyBucketScript) on the hash of one client, and its
 * bisimulation with the token bucket: water held is capacity not left in tokens.
 */
module LeakyBucket {
  import opened Basics
  import opened TokenBucket
  import BucketOptimality

  /** Water held at `now`, before the request is poured in; an absent hash is an empty bucket. */
  function Held(c: Config, b: Option<Bucket>, now: int): real {
    var water := if b.None? then 0.0 else b.value.level;
    var leaked := water - Refill(c.rate, Elapsed(b, now));
    if leaked < 0.0 then 0.0 else leaked
  }

  function LeakStep(c: Config, b: Option<Bucket>, now: int): (r: (Verdict, Bucket))
    requires c.Valid()
  {
    var water := Held(c, b, now);
    if water + c.cost as real <= c.capacity as real then
      (Verdict(true, 0), Bucket(water + c.cost as real, now))
    else
      (Verdict(false, RetryAfter(c.rate, water + c.cost as real - c.capacity as real)), Bucket(water, now))
  }

  function LeakStateAt(c: Config, b: Option<Bucket>, ts: seq<int>, n: nat): Option<Bucket>
    requires c.Valid() && n <= |ts|
  {
    if n == 0 then b else Some(LeakStep(c, LeakStateAt(c, b, ts, n - 1), ts[n - 1]).1)
  }

  function LeakVerdictAt(c: Config, b: Option<Bucket>, ts: seq<int>, n: nat): Verdict
    requires c.Valid() && n < |ts|
  {
    LeakStep(c, LeakStateAt(c, b, ts, n), ts[n]).0
  }

  function LeakDecisions(c: Config, b: Option<Bucket>, ts: seq<int>): (s: seq<bool>)
    requires c.Valid()
    ensures |s| == |ts| && forall n :: 0 <= n < |ts| ==> s[n] == LeakVerdictAt(c, b, ts, n).allowed
  {
    seq(|ts|, n requires 0 <= n < |ts| => LeakVerdictAt(c, b, ts, n).allowed)
  }

  // ---------- bisimulation ----------

  /** The other bucket in the same condition. */
  function Mirror(c: Config, b: Option<Bucket>): Option<Bucket> {
    match b
    case None => None
    case Some(bucket) => Some(Bucket(c.capacity as real - bucket.level, bucket.last))
  }

  lemma MirrorStep(c: Config, b: Option<Bucket>, now: int)
    requires c.Valid()
    ensures LeakStep(c, Mirror(c, b), now).0 == Step(c, b, now).0
    ensures Some(LeakStep(c, Mirror(c, b), now).1) == Mirror(c, Some(Step(c, b, now).1))
  {
  }

  /** What can happen to a client's key: a request at some clock reading, or its disappearance. */
  datatype Event = Arrive(now: int) | Vanish

  function TokenTrace(c: Config, b: Option<Bucket>, events: seq<Event>): seq<Verdict>
    requires c.Valid()
    decreases events
  {
    if events == [] then []
    else match events[0]
      case Vanish => TokenTrace(c, None, events[1..])
      case Arrive(now) => var (v, after) := Step(c, b, now); [v] + TokenTrace(c, Some(after), events[1..])
  }

  function LeakTrace(c: Config, b: Option<Bucket>, events: seq<Event>): seq<Verdict>
    requires c.Valid()
    decreases events
  {
    if events == [] then []
    else match events[0]
      case Vanish => LeakTrace(c, None, events[1..])
      case Arrive(now) => var (v, after) := LeakStep(c, b, now); [v] + LeakTrace(c, Some(after), events[1..])
  }

  /** On equal parameters the two scripts give the same verdict and delay at every step of every run. */
  lemma {:induction false} TokenLeakyBisimulation(c: Config, b: Option<Bucket>, events: seq<Event>)
    requires c.Valid()
    ensures LeakTrace(c, Mirror(c, b), events) == TokenTrace(c, b, events)
    decreases events
  {
    if events != [] {
      match events[0]
      case Vanish =>
        TokenLeakyBisimulation(c, None, events[1..]);
      case Arrive(now) =>
        MirrorStep(c, b, now);
        TokenLeakyBisimulation(c, Some(Step(c, b, now).1), events[1..]);
    }
  }

  lemma {:induction false} MirrorRun(c: Config, b: Option<Bucket>, ts: seq<int>, n: nat)
    requires c.Valid() && n <= |ts|
    ensures LeakStateAt(c, b, ts, n) == Mirror(c, StateAt(c, Mirror(c, b), ts, n))
    ensures n < |ts| ==> LeakVerdictAt(c, b, ts, n) == VerdictAt(c, Mirror(c, b), ts, n)
  {
    if n > 0 {
      MirrorRun(c, b, ts, n - 1);
      MirrorStep(c, StateAt(c, Mirror(c, b), ts, n - 1), ts[n - 1]);
    }
    if n < |ts| {
      MirrorStep(c, StateAt(c, Mirror(c, b), ts, n), ts[n]);
    }
  }

  lemma MirrorDecisions(c: Config, b: Option<Bucket>, ts: seq<int>)
    requires c.Valid()
    ensures LeakDecisions(c, b, ts) == Decisions(c, Mirror(c, b), ts)
  {
    forall n | 0 <= n < |ts| ensures LeakDecisions(c, b, ts)[n] == Decisions(c, Mirror(c, b), ts)[n] {
      MirrorRun(c, b, ts, n);
    }
  }

  // ---------- the token bucket's theorems, carried over ----------

  lemma {:induction false} WaterStaysInRange(c: Config, b: Option<Bucket>, ts: seq<int>, n: nat)
    requires c.Valid() && InRange(c, b) && n <= |ts|
    ensures InRange(c, LeakStateAt(c, b, ts, n))
  {
    MirrorRun(c, b, ts, n);
    LevelStaysInRange(c, Mirror(c, b), ts, n);
  }

  lemma LeakIntervalRateBound(c: Config, b: Option<Bucket>, ts: seq<int>, i: nat, j: nat)
    requires c.Valid() && InRange(c, b) && i < j <= |ts|
    ensures (Count(LeakDecisions(c, b, ts), i, j) * c.cost) as real
         <= c.capacity as real + Refill(c.rate, Climb(ts, i, j))
  {
    MirrorDecisions(c, b, ts);
    IntervalRateBound(c, Mirror(c, b), ts, i, j);
  }

  lemma LeakRetryAfterIsExact(c: Config, b: Option<Bucket>, ts: seq<int>, k: nat, m: nat)
    requires c.Valid() && InRange(c, b) && Sorted(ts) && c.cost <= c.capacity
    requires k < m < |ts| && !LeakVerdictAt(c, b, ts, k).allowed
    requires ts[m - 1] < ts[k] + LeakVerdictAt(c, b, ts, k).retryAfter
    ensures LeakVerdictAt(c, b, ts, m).allowed <==> ts[m] >= ts[k] + LeakVerdictAt(c, b, ts, k).retryAfter
  {
    MirrorRun(c, b, ts, k);
    MirrorRun(c, b, ts, m);
    RetryAfterIsExact(c, Mirror(c, b), ts, k, m);
  }

  lemma LeakRetryAfterByClimb(c: Config, b: Option<Bucket>, ts: seq<int>, k: nat, m: nat)
    requires c.Valid() && InRange(c, b) && c.cost <= c.capacity
    requires k < m < |ts| && !LeakVerdictAt(c, b, ts, k).allowed
    requires Climb(ts, k, m) < LeakVerdictAt(c, b, ts, k).retryAfter
    ensures LeakVerdictAt(c, b, ts, m).allowed <==> Climb(ts, k, m + 1) >= LeakVerdictAt(c, b, ts, k).retryAfter
  {
    MirrorRun(c, b, ts, k);
    MirrorRun(c, b, ts, m);
    RetryAfterByClimb(c, Mirror(c, b), ts, k, m);
  }

  lemma LeakGreedyIsOptimal(c: Config, ts: seq<int>, s: seq<bool>, n: nat)
    requires c.Valid() && |s| == |ts| && n <= |ts|
    requires BucketOptimality.Conforms(c, ts, s)
    ensures BucketOptimality.Conforms(c, ts, LeakDecisions(c, None, ts))
    ensures Count(s, 0, n) <= Count(LeakDecisions(c, None, ts), 0, n)
  {
    MirrorDecisions(c, None, ts);
    BucketOptimality.GreedyIsOptimal(c, ts, s, n);
  }
}
