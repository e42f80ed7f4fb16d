/** The token bucket script (redis_store.go, tokenBucketScript) on the hash of one client. */
module TokenBucket {
  import opened Basics

  /** Parameters of either bucket: the rate is per second, the cost is charged per request. */
  datatype Config = Config(capacity: int, rate: real, cost: int) {
    predicate Valid() { capacity > 0 && rate > 0.0 && cost > 0 }
  }

  /** Tokens left (or water held) and the clock reading of the last script call. */
  datatype Bucket = Bucket(level: real, last: int)

  datatype Verdict = Verdict(allowed: bool, retryAfter: int)

  /** What a rate adds in a number of milliseconds. */
  function Refill(rate: real, elapsed: int): real { elapsed as real / 1000.0 * rate }

  predicate InRange(c: Config, b: Option<Bucket>) {
    b.Some? ==> 0.0 <= b.value.level <= c.capacity as real
  }

  /** Milliseconds since the last call; a clock that stepped back counts as no time. */
  function Elapsed(b: Option<Bucket>, now: int): (e: nat) {
    match b
    case None => 0
    case Some(bucket) => Max(now - bucket.last, 0)
  }

  /** Tokens on hand at `now`, before the request is charged; an absent hash is a full bucket. */
  function Available(c: Config, b: Option<Bucket>, now: int): real {
    var tokens := if b.None? then c.capacity as real else b.value.level;
    var refilled := tokens + Refill(c.rate, Elapsed(b, now));
    if refilled > c.capacity as real then c.capacity as real else refilled
  }

  /** Milliseconds until the rate has made up for a shortfall, never reported below 1. */
  function RetryAfter(rate: real, shortfall: real): int
    requires rate > 0.0
  {
    Max(Ceil(shortfall / rate * 1000.0), 1)
  }

  function Step(c: Config, b: Option<Bucket>, now: int): (r: (Verdict, Bucket))
    requires c.Valid()
  {
    var tokens := Available(c, b, now);
    if tokens >= c.cost as real then
      (Verdict(true, 0), Bucket(tokens - c.cost as real, now))
    else
      (Verdict(false, RetryAfter(c.rate, c.cost as real - tokens)), Bucket(tokens, now))
  }

  /** The bucket after the first n arrivals. */
  function StateAt(c: Config, b: Option<Bucket>, ts: seq<int>, n: nat): Option<Bucket>
    requires c.Valid() && n <= |ts|
  {
    if n == 0 then b else Some(Step(c, StateAt(c, b, ts, n - 1), ts[n - 1]).1)
  }

  function VerdictAt(c: Config, b: Option<Bucket>, ts: seq<int>, n: nat): Verdict
    requires c.Valid() && n < |ts|
  {
    Step(c, StateAt(c, b, ts, n), ts[n]).0
  }

  /** Which arrivals of the run are admitted. */
  function Decisions(c: Config, b: Option<Bucket>, ts: seq<int>): (s: seq<bool>)
    requires c.Valid()
    ensures |s| == |ts| && forall n :: 0 <= n < |ts| ==> s[n] == VerdictAt(c, b, ts, n).allowed
  {
    seq(|ts|, n requires 0 <= n < |ts| => VerdictAt(c, b, ts, n).allowed)
  }

  // ---------- arithmetic of refilling ----------

  lemma RefillAdds(rate: real, a: int, b: int)
    ensures Refill(rate, a) + Refill(rate, b) == Refill(rate, a + b)
  {
  }

  lemma RefillGrows(rate: real, a: int, b: int)
    requires rate > 0.0 && a <= b
    ensures Refill(rate, a) <= Refill(rate, b)
    ensures a < b ==> Refill(rate, a) < Refill(rate, b)
  {
  }

  /** The advertised delay is the exact one: the least whole number of milliseconds that covers the shortfall. */
  lemma RetryAfterIsLeast(rate: real, shortfall: real, d: int)
    requires rate > 0.0 && shortfall > 0.0
    ensures RetryAfter(rate, shortfall) == Ceil(shortfall / rate * 1000.0)
    ensures Refill(rate, d) >= shortfall <==> d >= RetryAfter(rate, shortfall)
  {
    var x := shortfall / rate * 1000.0;
    assert shortfall / rate > 0.0;
    assert x / 1000.0 * rate == shortfall;
    var gap := d as real - x;
    assert d as real / 1000.0 * rate == shortfall + gap / 1000.0 * rate;
    if gap >= 0.0 {
      assert gap / 1000.0 * rate >= 0.0;
    } else {
      assert gap / 1000.0 * rate < 0.0;
    }
  }

  // ---------- levels and rates over whole runs ----------

  /** Every reachable level lies between 0 and the capacity, whatever the clock does. */
  lemma {:induction false} LevelStaysInRange(c: Config, b: Option<Bucket>, ts: seq<int>, n: nat)
    requires c.Valid() && InRange(c, b) && n <= |ts|
    ensures InRange(c, StateAt(c, b, ts, n))
  {
    if n > 0 {
      LevelStaysInRange(c, b, ts, n - 1);
      RefillGrows(c.rate, 0, Elapsed(StateAt(c, b, ts, n - 1), ts[n - 1]));
    }
  }

  /** Sum of the forward steps of the clock over ts[i..j]. */
  function Climb(ts: seq<int>, i: nat, j: nat): nat
    requires i < j <= |ts|
  {
    if j == i + 1 then 0 else Climb(ts, i, j - 1) + Max(ts[j - 1] - ts[j - 2], 0)
  }

  lemma {:induction false} ClimbOfSorted(ts: seq<int>, i: nat, j: nat)
    requires Sorted(ts) && i < j <= |ts|
    ensures Climb(ts, i, j) == ts[j - 1] - ts[i]
  {
    if j > i + 1 {
      ClimbOfSorted(ts, i, j - 1);
    }
  }

  /** What one call charges. */
  function Charge(c: Config, admitted: bool): int { if admitted then c.cost else 0 }

  lemma ChargeCounts(c: Config, s: seq<bool>, i: nat, j: nat)
    requires i < j <= |s|
    ensures Count(s, i, j) * c.cost == Count(s, i, j - 1) * c.cost + Charge(c, s[j - 1])
  {
  }

  /** The books of a slice: what was charged, plus what is left, fits a full bucket and the refill since. */
  predicate Balanced(c: Config, charged: int, level: real, climb: int) {
    charged as real + level <= c.capacity as real + Refill(c.rate, climb)
  }

  lemma NextBalanced(c: Config, b: Bucket, now: int, charged: int, climb: int)
    requires c.Valid() && Balanced(c, charged, b.level, climb)
    ensures var (v, after) := Step(c, Some(b), now);
            Balanced(c, charged + Charge(c, v.allowed), after.level, climb + Max(now - b.last, 0))
  {
  }

  lemma FirstBalanced(c: Config, b: Option<Bucket>, now: int)
    requires c.Valid()
    ensures var (v, after) := Step(c, b, now); Balanced(c, Charge(c, v.allowed), after.level, 0)
  {
  }

  /** s holds the script's decision on arrival n. */
  predicate DecidedAt(c: Config, b: Option<Bucket>, ts: seq<int>, s: seq<bool>, n: nat)
    requires c.Valid() && |s| == |ts| && n < |ts|
  {
    s[n] == VerdictAt(c, b, ts, n).allowed
  }

  /** In any slice of any run the admitted cost, plus what is left, fits capacity and refill. */
  lemma {:induction false} SliceConserves(c: Config, b: Option<Bucket>, ts: seq<int>, s: seq<bool>, i: nat, j: nat)
    requires c.Valid() && |s| == |ts| && i < j <= |ts| && forall k: nat | k < |ts| :: DecidedAt(c, b, ts, s, k)
    ensures Balanced(c, Count(s, i, j) * c.cost, StateAt(c, b, ts, j).value.level, Climb(ts, i, j))
  {
    var before, spent := StateAt(c, b, ts, j - 1), Count(s, i, j - 1) * c.cost;
    assert DecidedAt(c, b, ts, s, j - 1);
    ChargeCounts(c, s, i, j);
    if j > i + 1 {
      SliceConserves(c, b, ts, s, i, j - 1);
      NextBalanced(c, before.value, ts[j - 1], spent, Climb(ts, i, j - 1));
    } else {
      assert spent == 0;
      FirstBalanced(c, before, ts[i]);
    }
  }

  /** Rate bound on any slice of any run, for clocks that may step back. */
  lemma IntervalRateBound(c: Config, b: Option<Bucket>, ts: seq<int>, i: nat, j: nat)
    requires c.Valid() && InRange(c, b) && i < j <= |ts|
    ensures (Count(Decisions(c, b, ts), i, j) * c.cost) as real
         <= c.capacity as real + Refill(c.rate, Climb(ts, i, j))
    ensures Sorted(ts) ==> Climb(ts, i, j) == ts[j - 1] - ts[i]
  {
    var s := Decisions(c, b, ts);
    assert forall k: nat | k < |ts| :: DecidedAt(c, b, ts, s, k);
    SliceConserves(c, b, ts, s, i, j);
    LevelStaysInRange(c, b, ts, j);
    if Sorted(ts) {
      ClimbOfSorted(ts, i, j);
    }
  }

  // ---------- the advertised retry time ----------

  /** An attempt before the delay has passed adds the refill and is rejected. */
  lemma EarlyAttempt(c: Config, b: Bucket, now: int, held: real, climb: int, climb': int)
    requires c.Valid() && held < c.cost as real && c.cost <= c.capacity
    requires b.level == held + Refill(c.rate, climb) && climb' == climb + Max(now - b.last, 0)
    requires climb' < RetryAfter(c.rate, c.cost as real - held)
    ensures Step(c, Some(b), now).1 == Bucket(held + Refill(c.rate, climb'), now)
    ensures !Step(c, Some(b), now).0.allowed
  {
    RefillAdds(c.rate, climb, Max(now - b.last, 0));
    RetryAfterIsLeast(c.rate, c.cost as real - held, climb');
  }

  /** Rejected attempts only let the bucket fill up: from a reject on, the level is exactly the refill. */
  lemma {:induction false} RejectsOnlyRefill(c: Config, b: Option<Bucket>, ts: seq<int>, k: nat, m: nat)
    requires c.Valid() && InRange(c, b) && c.cost <= c.capacity
    requires k < m <= |ts| && !VerdictAt(c, b, ts, k).allowed
    requires Climb(ts, k, m) < VerdictAt(c, b, ts, k).retryAfter
    ensures !VerdictAt(c, b, ts, m - 1).allowed
    ensures StateAt(c, b, ts, m)
         == Some(Bucket(Available(c, StateAt(c, b, ts, k), ts[k]) + Refill(c.rate, Climb(ts, k, m)), ts[m - 1]))
  {
    var held := Available(c, StateAt(c, b, ts, k), ts[k]);
    if m > k + 1 {
      RejectsOnlyRefill(c, b, ts, k, m - 1);
      EarlyAttempt(c, StateAt(c, b, ts, m - 1).value, ts[m - 1], held, Climb(ts, k, m - 1), Climb(ts, k, m));
    } else {
      assert Refill(c.rate, 0) == 0.0;
    }
  }

  /**
   * A reject at ts[k] is final until the clock has climbed by exactly retryAfter: every attempt before is rejected,
   * and the first attempt from that moment on is admitted, whatever was tried in between and however often the
   * clock stepped back.
   */
  lemma RetryAfterByClimb(c: Config, b: Option<Bucket>, ts: seq<int>, k: nat, m: nat)
    requires c.Valid() && InRange(c, b) && c.cost <= c.capacity
    requires k < m < |ts| && !VerdictAt(c, b, ts, k).allowed
    requires Climb(ts, k, m) < VerdictAt(c, b, ts, k).retryAfter
    ensures VerdictAt(c, b, ts, m).allowed <==> Climb(ts, k, m + 1) >= VerdictAt(c, b, ts, k).retryAfter
  {
    var held := Available(c, StateAt(c, b, ts, k), ts[k]);
    RejectsOnlyRefill(c, b, ts, k, m);
    RefillAdds(c.rate, Climb(ts, k, m), Max(ts[m] - ts[m - 1], 0));
    RetryAfterIsLeast(c.rate, c.cost as real - held, Climb(ts, k, m + 1));
  }

  /** For a clock that does not step back: rejects until ts[k] + retryAfter, and the first attempt from then on passes. */
  lemma RetryAfterIsExact(c: Config, b: Option<Bucket>, ts: seq<int>, k: nat, m: nat)
    requires c.Valid() && InRange(c, b) && Sorted(ts) && c.cost <= c.capacity
    requires k < m < |ts| && !VerdictAt(c, b, ts, k).allowed
    requires ts[m - 1] < ts[k] + VerdictAt(c, b, ts, k).retryAfter
    ensures VerdictAt(c, b, ts, m).allowed <==> ts[m] >= ts[k] + VerdictAt(c, b, ts, k).retryAfter
  {
    ClimbOfSorted(ts, k, m);
    ClimbOfSorted(ts, k, m + 1);
    RetryAfterByClimb(c, b, ts, k, m);
  }

  /** A request dearer than the whole bucket is never admitted; any other is admitted by a new bucket. */
  lemma AdmissibleIffAffordable(c: Config, now: int)
    requires c.Valid()
    ensures (exists b: Option<Bucket> :: Step(c, b, now).0.allowed) <==> c.cost <= c.capacity
  {
    if c.cost <= c.capacity {
      assert Available(c, None, now) == c.capacity as real;
      assert Step(c, None, now).0.allowed;
    }
  }
}
