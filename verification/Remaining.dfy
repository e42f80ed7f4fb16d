/**
 * The remaining budget the bucket limiters report (token_bucket.go, leaky_bucket.go), computed from a level that
 * Redis has truncated to a whole number.
 */
module Remaining {
  import opened Arithmetic
  import opened Basics
  import opened TokenBucket
  import LeakyBucket

  /** Requests the reported token count pays for (token_bucket.go); Redis replies with whole numbers. */
  function TokenRemaining(reported: int, cost: int): int
    requires cost > 0
  {
    Max((reported as real / cost as real).Floor, 0)
  }

  /** Requests that fit above the reported water level (leaky_bucket.go). */
  function LeakRemaining(capacity: int, reported: int, cost: int): int
    requires cost > 0
  {
    Max((Max(capacity - reported, 0) as real / cost as real).Floor, 0)
  }

  /** Truncating the level in the reply does not change the budget the token bucket reports. */
  lemma TokenRemainingIsExact(level: real, cost: int)
    requires level >= 0.0 && cost > 0
    ensures TokenRemaining(Truncate(level), cost) == (level / cost as real).Floor
  {
    FloorDivides(level, cost);
    FloorDivides(Truncate(level) as real, cost);
  }

  /** The fraction of water that truncation drops reaches into a slot that would otherwise be free. */
  predicate HidesSlot(c: Config, water: real)
    requires c.Valid()
  {
    water != Truncate(water) as real && (c.capacity - Truncate(water)) % c.cost == 0
  }

  /** The leaky bucket's report is one too high exactly when the lost fraction of water would have filled a slot. */
  lemma LeakRemainingOverstatesIff(c: Config, water: real)
    requires c.Valid() && 0.0 <= water <= c.capacity as real
    ensures LeakRemaining(c.capacity, Truncate(water), c.cost)
         == ((c.capacity as real - water) / c.cost as real).Floor
            + if HidesSlot(c, water) then 1 else 0
  {
    var room := c.capacity - Truncate(water);
    FloorDivides(room as real, c.cost);
    FloorDivides(c.capacity as real - water, c.cost);
    if water != Truncate(water) as real {
      assert (c.capacity as real - water).Floor == room - 1;
      PredecessorQuotient(room, c.cost);
    }
  }

  /** A second call at the same moment finds the level as the first one left it. */
  lemma SameMoment(c: Config, level: real, t: int)
    requires c.Valid() && level <= c.capacity as real
    ensures Step(c, Some(Bucket(level, t)), t).0.allowed <==> level >= c.cost as real
    ensures Step(c, Some(Bucket(level, t)), t).1 == Bucket(if level >= c.cost as real then level - c.cost as real else level, t)
  {
    assert Refill(c.rate, 0) == 0.0;
  }

  /** The k-th of a burst of requests, of which the level pays for q. */
  lemma BurstStep(c: Config, level: real, t: int, k: nat, q: nat)
    requires c.Valid() && level <= c.capacity as real
    requires (q * c.cost) as real <= level < ((q + 1) * c.cost) as real
    ensures var (v, after) := Step(c, Some(Bucket(level - (Min(k, q) * c.cost) as real, t)), t);
            (v.allowed <==> k < q) && after == Bucket(level - (Min(k + 1, q) * c.cost) as real, t)
  {
    SpendOneMore(c.cost, level, k, q);
    SameMoment(c, level - (Min(k, q) * c.cost) as real, t);
  }

  lemma {:induction false} BurstState(c: Config, b: Bucket, ts: seq<int>, n: nat, q: nat)
    requires c.Valid() && b.level <= c.capacity as real && n <= |ts| && forall i :: 0 <= i < n ==> ts[i] == b.last
    requires (q * c.cost) as real <= b.level < ((q + 1) * c.cost) as real
    ensures StateAt(c, Some(b), ts, n) == Some(Bucket(b.level - (Min(n, q) * c.cost) as real, b.last))
  {
    if n == 0 {
      assert Min(0, q) * c.cost == 0;
    } else {
      BurstState(c, b, ts, n - 1, q);
      BurstStep(c, b.level, b.last, n - 1, q);
    }
  }

  /** Of the requests that follow at the same moment, exactly the budget floor(level / cost) pass. */
  lemma BurstMatchesBudget(c: Config, b: Bucket, ts: seq<int>, n: nat)
    requires c.Valid() && InRange(c, Some(b)) && n < |ts| && forall i :: 0 <= i <= n ==> ts[i] == b.last
    ensures VerdictAt(c, Some(b), ts, n).allowed <==> n < TokenRemaining(Truncate(b.level), c.cost)
  {
    var q := (b.level / c.cost as real).Floor;
    TokenRemainingIsExact(b.level, c.cost);
    FloorQuotientBounds(b.level, c.cost);
    BurstState(c, b, ts, n, q);
    BurstStep(c, b.level, b.last, n, q);
  }

  /**
   * Of the requests that follow at the same moment, the leaky bucket passes as many as fit above the exact level:
   * the reported number, less one if a slot was hidden.
   */
  lemma LeakBurstMatchesRoom(c: Config, b: Bucket, ts: seq<int>, n: nat)
    requires c.Valid() && InRange(c, Some(b)) && n < |ts| && forall i :: 0 <= i <= n ==> ts[i] == b.last
    ensures LeakyBucket.LeakVerdictAt(c, Some(b), ts, n).allowed
       <==> n < ((c.capacity as real - b.level) / c.cost as real).Floor
    ensures LeakyBucket.LeakVerdictAt(c, Some(b), ts, n).allowed
       <==> n < LeakRemaining(c.capacity, Truncate(b.level), c.cost) - if HidesSlot(c, b.level) then 1 else 0
  {
    LeakRemainingOverstatesIff(c, b.level);
    var mirror := LeakyBucket.Mirror(c, Some(b));
    LeakyBucket.MirrorRun(c, Some(b), ts, n);
    BurstMatchesBudget(c, mirror.value, ts, n);
    TokenRemainingIsExact(mirror.value.level, c.cost);
  }

  /** Half a second after the first of two slots was filled, the second request is told that one more fits; it does not. */
  lemma LeakRemainingCanOverstate()
    ensures var c, ts := Config(2, 1.0, 1), [0, 500, 500];
            var held := LeakyBucket.LeakStateAt(c, None, ts, 2);
            && LeakyBucket.LeakVerdictAt(c, None, ts, 1).allowed
            && held.Some? && LeakRemaining(c.capacity, Truncate(held.value.level), c.cost) == 1
            && !LeakyBucket.LeakVerdictAt(c, None, ts, 2).allowed
  {
    var c, ts := Config(2, 1.0, 1), [0, 500, 500];
    assert LeakyBucket.LeakStateAt(c, None, ts, 0) == None;
    assert LeakyBucket.LeakStateAt(c, None, ts, 1) == Some(Bucket(1.0, 0));
    assert LeakyBucket.LeakStateAt(c, None, ts, 2) == Some(Bucket(1.5, 500));
    assert Truncate(1.5) == 1;
  }

  /** What is left after k of q affordable requests pays for another exactly if k < q. */
  lemma SpendOneMore(cost: int, level: real, k: nat, q: nat)
    requires cost > 0 && (q * cost) as real <= level < ((q + 1) * cost) as real
    ensures 0 <= Min(k, q) * cost
    ensures level - (Min(k, q) * cost) as real >= cost as real <==> k < q
    ensures k < q ==> Min(k + 1, q) * cost == Min(k, q) * cost + cost
    ensures k >= q ==> Min(k + 1, q) * cost == Min(k, q) * cost
  {
    ScaleAtLeast(0, Min(k, q), cost);
    assert (q + 1) * cost == q * cost + cost;
    if k < q {
      ScaleAtLeast(k + 1, q, cost);
      assert (k + 1) * cost == k * cost + cost;
    }
  }
}
