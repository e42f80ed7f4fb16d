/** The token bucket admits as much as any schedule that respects its rate bound. */
module BucketOptimality {
  import opened Basics
  import opened TokenBucket

  /**
   * A schedule conforms when no slice of it costs more than a full bucket and the refill meanwhile; a clock that
   * steps back counts as no time.
   */
  ghost predicate Conforms(c: Config, ts: seq<int>, s: seq<bool>)
    requires |s| == |ts|
  {
    forall i: nat, j: nat | i < j <= |ts| :: SliceFits(c, ts, s, i, j)
  }

  predicate SliceFits(c: Config, ts: seq<int>, s: seq<bool>, i: nat, j: nat)
    requires |s| == |ts| && i < j <= |ts|
  {
    (Count(s, i, j) * c.cost) as real <= c.capacity as real + Refill(c.rate, Climb(ts, i, j))
  }

  /** For a clock that does not step back the slices are bounded by the time they span. */
  lemma SliceOfSorted(c: Config, ts: seq<int>, s: seq<bool>, i: nat, j: nat)
    requires Sorted(ts) && |s| == |ts| && i < j <= |ts|
    ensures SliceFits(c, ts, s, i, j)
       <==> (Count(s, i, j) * c.cost) as real <= c.capacity as real + Refill(c.rate, ts[j - 1] - ts[i])
  {
    ClimbOfSorted(ts, i, j);
  }

  /** Tokens a schedule would find at arrival n, were it charged for what it admits even when short. */
  function Purse(c: Config, ts: seq<int>, s: seq<bool>, n: nat): real
    requires |s| == |ts| && n < |ts|
  {
    if n == 0 then c.capacity as real
    else
      var refilled := Purse(c, ts, s, n - 1) - Charge(c, s[n - 1]) as real + Refill(c.rate, Max(ts[n] - ts[n - 1], 0));
      if refilled > c.capacity as real then c.capacity as real else refilled
  }

  /** What is left of it after arrival n. */
  function Balance(c: Config, ts: seq<int>, s: seq<bool>, n: nat): real
    requires |s| == |ts| && n < |ts|
  {
    Purse(c, ts, s, n) - Charge(c, s[n]) as real
  }

  /** The balance is the refill since some moment at which the bucket was full, less what was charged since. */
  lemma {:induction false} BalanceSinceFull(c: Config, ts: seq<int>, s: seq<bool>, n: nat) returns (i: nat)
    requires c.Valid() && |s| == |ts| && n < |ts|
    ensures i <= n
    ensures Balance(c, ts, s, n)
         == c.capacity as real + Refill(c.rate, Climb(ts, i, n + 1)) - (Count(s, i, n + 1) * c.cost) as real
  {
    if n == 0 || Purse(c, ts, s, n) == c.capacity as real {
      i := n;
      ChargeCounts(c, s, n, n + 1);
      assert Count(s, n, n) * c.cost == 0;
      assert Refill(c.rate, 0) == 0.0;
    } else {
      i := BalanceSinceFull(c, ts, s, n - 1);
      ChargeCounts(c, s, i, n + 1);
      RefillAdds(c.rate, Climb(ts, i, n), Max(ts[n] - ts[n - 1], 0));
    }
  }

  /** From any moment on, the balance never exceeds a full bucket plus refill less charges. */
  lemma {:induction false} BalanceBounded(c: Config, ts: seq<int>, s: seq<bool>, i: nat, n: nat)
    requires c.Valid() && |s| == |ts| && i <= n < |ts|
    ensures Balance(c, ts, s, n) + (Count(s, i, n + 1) * c.cost) as real
         <= c.capacity as real + Refill(c.rate, Climb(ts, i, n + 1))
  {
    ChargeCounts(c, s, i, n + 1);
    if i < n {
      BalanceBounded(c, ts, s, i, n - 1);
      RefillAdds(c.rate, Climb(ts, i, n), Max(ts[n] - ts[n - 1], 0));
    } else {
      assert Count(s, i, n) * c.cost == 0;
      assert Refill(c.rate, 0) == 0.0;
    }
  }

  /** The interval conditions hold exactly when a bucket never runs short. */
  lemma ConformsIffSolvent(c: Config, ts: seq<int>, s: seq<bool>)
    requires c.Valid() && |s| == |ts|
    ensures Conforms(c, ts, s) <==> forall n: nat | n < |ts| :: Balance(c, ts, s, n) >= 0.0
  {
    if Conforms(c, ts, s) {
      forall n: nat | n < |ts| ensures Balance(c, ts, s, n) >= 0.0 {
        var i := BalanceSinceFull(c, ts, s, n);
        assert SliceFits(c, ts, s, i, n + 1);
      }
    }
    if forall n: nat | n < |ts| :: Balance(c, ts, s, n) >= 0.0 {
      forall i: nat, j: nat | i < j <= |ts| ensures SliceFits(c, ts, s, i, j) {
        BalanceBounded(c, ts, s, i, j - 1);
        assert Balance(c, ts, s, j - 1) >= 0.0;
      }
    }
  }

  /** g holds the script's decisions at a new client. */
  ghost predicate Scripted(c: Config, ts: seq<int>, g: seq<bool>)
    requires c.Valid()
  {
    |g| == |ts| && forall k: nat | k < |ts| :: DecidedAt(c, None, ts, g, k)
  }

  /** The script's own tokens are the purse of its own decisions. */
  lemma {:induction false} ScriptKeepsItsPurse(c: Config, ts: seq<int>, g: seq<bool>, n: nat)
    requires c.Valid() && n < |ts| && Scripted(c, ts, g)
    ensures Available(c, StateAt(c, None, ts, n), ts[n]) == Purse(c, ts, g, n)
    ensures StateAt(c, None, ts, n + 1).value.level == Balance(c, ts, g, n)
    ensures g[n] <==> Purse(c, ts, g, n) >= c.cost as real
  {
    if n > 0 {
      ScriptKeepsItsPurse(c, ts, g, n - 1);
    }
    assert DecidedAt(c, None, ts, g, n);
  }

  lemma ScriptConforms(c: Config, ts: seq<int>, g: seq<bool>)
    requires c.Valid() && Scripted(c, ts, g)
    ensures Conforms(c, ts, g)
  {
    forall n: nat | n < |ts| ensures Balance(c, ts, g, n) >= 0.0 {
      ScriptKeepsItsPurse(c, ts, g, n);
      LevelStaysInRange(c, None, ts, n + 1);
    }
    ConformsIffSolvent(c, ts, g);
  }

  /**
   * The exchange argument. Tokens in hand plus tokens spent is a potential on which the script never
   * falls behind; so a schedule that has spent as much has no more in hand.
   */
  lemma {:induction false} NeverBehind(c: Config, ts: seq<int>, g: seq<bool>, s: seq<bool>, n: nat)
    requires c.Valid() && |s| == |ts| && n < |ts| && Scripted(c, ts, g)
    requires forall k: nat | k < |ts| :: Balance(c, ts, s, k) >= 0.0
    ensures Count(s, 0, n + 1) <= Count(g, 0, n + 1)
    ensures Balance(c, ts, s, n) + (Count(s, 0, n + 1) * c.cost) as real
         <= Balance(c, ts, g, n) + (Count(g, 0, n + 1) * c.cost) as real
  {
    if n > 0 {
      NeverBehind(c, ts, g, s, n - 1);
    }
    PotentialAhead(c, ts, g, s, n);
    ScriptKeepsItsPurse(c, ts, g, n);
    assert Balance(c, ts, s, n) >= 0.0;
    ExchangeStep(c.cost, s[n], g[n], Count(s, 0, n), Count(g, 0, n), Purse(c, ts, s, n), Purse(c, ts, g, n));
    ChargeCounts(c, s, 0, n + 1);
    ChargeCounts(c, g, 0, n + 1);
  }

  /** One arrival: a schedule that admits where the script rejects must have admitted less before. */
  lemma ExchangeStep(cost: int, s: bool, g: bool, admitted: int, admitted': int, purse: real, purse': real)
    requires cost > 0 && admitted <= admitted'
    requires purse + (admitted * cost) as real <= purse' + (admitted' * cost) as real
    requires (g <==> purse' >= cost as real) && (s ==> purse >= cost as real)
    ensures admitted + (if s then 1 else 0) <= admitted' + (if g then 1 else 0)
  {
    assert admitted == admitted' ==> admitted * cost == admitted' * cost;
  }

  lemma SpentGrows(c: Config, a: int, b: int)
    requires c.Valid() && a <= b
    ensures a * c.cost <= b * c.cost
  {
  }

  lemma PotentialAhead(c: Config, ts: seq<int>, g: seq<bool>, s: seq<bool>, n: nat)
    requires c.Valid() && |s| == |g| == |ts| && n < |ts| && Count(s, 0, n) <= Count(g, 0, n)
    requires n > 0 ==> Balance(c, ts, s, n - 1) + (Count(s, 0, n) * c.cost) as real
                       <= Balance(c, ts, g, n - 1) + (Count(g, 0, n) * c.cost) as real
    ensures Purse(c, ts, s, n) + (Count(s, 0, n) * c.cost) as real
         <= Purse(c, ts, g, n) + (Count(g, 0, n) * c.cost) as real
  {
    SpentGrows(c, Count(s, 0, n), Count(g, 0, n));
  }

  /**
   * Greedy optimality: at a new client, on any clock, the script's admissions conform, and on every prefix no
   * conforming schedule has admitted more.
   */
  lemma GreedyIsOptimal(c: Config, ts: seq<int>, s: seq<bool>, n: nat)
    requires c.Valid() && |s| == |ts| && n <= |ts|
    requires Conforms(c, ts, s)
    ensures Conforms(c, ts, Decisions(c, None, ts))
    ensures Count(s, 0, n) <= Count(Decisions(c, None, ts), 0, n)
  {
    var g := Decisions(c, None, ts);
    assert Scripted(c, ts, g);
    ScriptConforms(c, ts, g);
    ConformsIffSolvent(c, ts, s);
    if n > 0 {
      NeverBehind(c, ts, g, s, n - 1);
    }
  }
}
