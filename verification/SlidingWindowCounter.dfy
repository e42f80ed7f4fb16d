/** The sliding window counter (sliding_window_counter.go) on the counters of one client. */
module SlidingWindowCounter {
  import opened Arithmetic
  import opened Basics
  import opened Windows

  datatype Verdict = Verdict(allowed: bool, remaining: int, retryAfter: int)

  /** Share of the previous window that still counts. */
  function Weight(window: int, elapsed: int): real
    requires window > 0
  {
    var w := (window - elapsed) as real / window as real;
    if w < 0.0 then 0.0 else if w > 1.0 then 1.0 else w
  }

  function Estimate(window: int, current: int, previous: int, elapsed: int): real
    requires window > 0
  {
    current as real + previous as real * Weight(window, elapsed)
  }

  /** The decision on the two counts the script returned; rejected requests have been counted too. */
  function Judge(window: int, limit: int, current: int, previous: int, now: int): Verdict
    requires window > 0
  {
    var start := Start(now, window);
    var estimate := Estimate(window, current, previous, now - start);
    if estimate < limit as real then Verdict(true, Max((limit as real - estimate).Floor, 0), 0)
    else Verdict(false, 0, Max(start + window - now, 1))
  }

  function Step(window: int, limit: int, counts: map<int, int>, now: int): (r: (Verdict, map<int, int>))
    requires window > 0
  {
    var start := Start(now, window);
    var after := Hit(counts, start);
    (Judge(window, limit, Hits(after, start), Hits(after, start - window), now), after)
  }

  function VerdictAt(window: int, limit: int, ts: seq<int>, n: nat): Verdict
    requires window > 0 && n < |ts|
  {
    Step(window, limit, CountsAt(window, ts, n), ts[n]).0
  }

  function Decisions(window: int, limit: int, ts: seq<int>): (s: seq<bool>)
    requires window > 0
    ensures |s| == |ts| && forall n :: 0 <= n < |ts| ==> s[n] == VerdictAt(window, limit, ts, n).allowed
  {
    seq(|ts|, n requires 0 <= n < |ts| => VerdictAt(window, limit, ts, n).allowed)
  }

  /** Milliseconds into the window, and none for a clock before the epoch. */
  function Offset(now: int, window: int): int
    requires window > 0
  {
    Max(now - Start(now, window), 0)
  }

  lemma ScaleOrder(a: real, b: real, d: real)
    requires d > 0.0
    ensures a < b <==> a * d < b * d
  {
  }

  lemma WeightFromOffset(window: int, now: int)
    requires window > 0
    ensures 0 <= Offset(now, window) < window
    ensures Weight(window, now - Start(now, window)) * window as real == (window - Offset(now, window)) as real
  {
    StartBounds(now, window);
    var left, d := (window - (now - Start(now, window))) as real, window as real;
    assert left / d * d == left;
    ScaleOrder(left / d, 0.0, d);
    ScaleOrder(1.0, left / d, d);
  }

  lemma ScaledEstimate(current: real, previous: real, w: real, d: real)
    ensures (current + previous * w) * d == current * d + previous * (w * d)
  {
  }

  lemma EstimateScaled(window: int, current: int, previous: int, now: int)
    requires window > 0
    ensures Estimate(window, current, previous, now - Start(now, window)) * window as real
         == (current * window + previous * (window - Offset(now, window))) as real
  {
    var w, d := Weight(window, now - Start(now, window)), window as real;
    WeightFromOffset(window, now);
    ScaledEstimate(current as real, previous as real, w, d);
    RealProduct(current, window);
    RealProduct(previous, window - Offset(now, window));
  }

  lemma ScaledBelow(x: real, total: int, limit: int, window: int)
    requires window > 0 && x * window as real == total as real
    ensures x < limit as real <==> total < limit * window
  {
  }

  lemma JudgeIsEstimate(window: int, limit: int, current: int, previous: int, now: int)
    requires window > 0
    ensures Judge(window, limit, current, previous, now).allowed
       <==> Estimate(window, current, previous, now - Start(now, window)) < limit as real
  {
  }

  /** The weighted estimate compared in whole numbers. */
  lemma EstimateBelow(window: int, limit: int, current: int, previous: int, now: int)
    requires window > 0
    ensures 0 <= Offset(now, window) < window
    ensures Judge(window, limit, current, previous, now).allowed
       <==> current * window + previous * (window - Offset(now, window)) < limit * window
  {
    assert 0 <= Offset(now, window) < window by {
      WeightFromOffset(window, now);
    }
    EstimateScaled(window, current, previous, now);
    JudgeIsEstimate(window, limit, current, previous, now);
    ScaledBelow(Estimate(window, current, previous, now - Start(now, window)),
                current * window + previous * (window - Offset(now, window)), limit, window);
  }

  /** The two counts the script returns. */
  lemma CountsSeen(window: int, ts: seq<int>, n: nat, start: int)
    requires window > 0 && n < |ts|
    ensures var after := Hit(CountsAt(window, ts, n), start);
            && Hits(after, start) == Arrivals(window, ts, n, start) + 1
            && Hits(after, start - window) == Arrivals(window, ts, n, start - window)
  {
    CountsAreArrivals(window, ts, n, start);
    CountsAreArrivals(window, ts, n, start - window);
  }

  lemma VerdictFromArrivals(window: int, limit: int, ts: seq<int>, n: nat)
    requires window > 0 && n < |ts|
    ensures VerdictAt(window, limit, ts, n)
         == Judge(window, limit, Arrivals(window, ts, n, Start(ts[n], window)) + 1,
                  Arrivals(window, ts, n, Start(ts[n], window) - window), ts[n])
  {
    var start, counts := Start(ts[n], window), CountsAt(window, ts, n);
    CountsSeen(window, ts, n, start);
    assert Step(window, limit, counts, ts[n]).0
        == Judge(window, limit, Hits(Hit(counts, start), start), Hits(Hit(counts, start), start - window), ts[n]);
  }

  /** The decision in terms of what arrived: the request itself, its window so far, and the window before. */
  lemma AdmitsByArrivals(window: int, limit: int, ts: seq<int>, n: nat, start: int, e: int)
    requires window > 0 && n < |ts| && start == Start(ts[n], window) && e == Offset(ts[n], window)
    ensures 0 <= e < window
    ensures VerdictAt(window, limit, ts, n).allowed
       <==> (Arrivals(window, ts, n, start) + 1) * window + Arrivals(window, ts, n, start - window) * (window - e)
            < limit * window
  {
    VerdictFromArrivals(window, limit, ts, n);
    EstimateBelow(window, limit, Arrivals(window, ts, n, start) + 1, Arrivals(window, ts, n, start - window), ts[n]);
  }

  lemma AdmittedBelowLimit(window: int, limit: int, ts: seq<int>, n: nat, start: int)
    requires window > 0 && n < |ts| && start == Start(ts[n], window) && VerdictAt(window, limit, ts, n).allowed
    ensures Arrivals(window, ts, n, start) + 1 < limit
  {
    var e := Offset(ts[n], window);
    AdmitsByArrivals(window, limit, ts, n, start, e);
    FirstTermBelow(window, limit, Arrivals(window, ts, n, start) + 1, Arrivals(window, ts, n, start - window), e);
  }

  lemma FirstTermBelow(window: int, limit: int, current: int, previous: nat, e: int)
    requires 0 <= e < window && current * window + previous * (window - e) < limit * window
    ensures current < limit
  {
  }

  /** An aligned window admits at most limit - 1 requests, and never more than arrived. */
  lemma {:induction false} WindowAdmitsBelowLimit(window: int, limit: int, ts: seq<int>, s: seq<bool>, n: nat, start: int)
    requires window > 0 && limit > 0 && n <= |ts| && s == Decisions(window, limit, ts)
    ensures AdmittedIn(window, ts, s, n, start) <= Min(Arrivals(window, ts, n, start), limit - 1)
  {
    if n > 0 {
      WindowAdmitsBelowLimit(window, limit, ts, s, n - 1, start);
      if s[n - 1] && Start(ts[n - 1], window) == start {
        AdmittedBelowLimit(window, limit, ts, n - 1, start);
      }
    }
  }

  lemma RollingInTwoWindows(window: int, ts: seq<int>, s: seq<bool>, n: nat, t: int, start: int)
    requires window > 0 && |s| == |ts| && n <= |ts| && start == Start(t, window)
    ensures AdmittedWithin(ts, s, n, t - window, t)
         <= AdmittedIn(window, ts, s, n, start - window) + AdmittedIn(window, ts, s, n, start)
  {
    forall u | t - window <= u <= t
      ensures Start(u, window) == start - window || Start(u, window) == start
    {
      SpansTwoWindows(u, t, window);
    }
    StretchInTwoWindows(window, ts, s, n, t - window, t, start - window);
  }

  /** Admissions in the closed rolling window that ends at arrival n stay below limit + (limit - 1) * offset / window. */
  predicate RollingBounded(window: int, limit: int, ts: seq<int>, s: seq<bool>, n: nat)
    requires window > 0 && |s| == |ts| && n < |ts|
  {
    AdmittedWithin(ts, s, n + 1, ts[n] - window, ts[n]) * window
      < limit * window + (limit - 1) * Offset(ts[n], window)
  }

  /**
   * Overshoot: when a request is admitted at offset e into its window, the closed rolling window of one
   * window's length that ends with it holds fewer than limit + (limit - 1) * e / window admissions.
   */
  lemma RollingOvershoot(window: int, limit: int, ts: seq<int>, s: seq<bool>, n: nat)
    requires window > 0 && limit > 0 && n < |ts| && s == Decisions(window, limit, ts) && s[n]
    ensures RollingBounded(window, limit, ts, s, n)
  {
    var start, e := Start(ts[n], window), Offset(ts[n], window);
    AdmitsByArrivals(window, limit, ts, n, start, e);
    RollingInTwoWindows(window, ts, s, n + 1, ts[n], start);
    WindowAdmitsBelowLimit(window, limit, ts, s, n + 1, start);
    WindowAdmitsBelowLimit(window, limit, ts, s, n + 1, start - window);
    OvershootArithmetic(window, limit, e, Arrivals(window, ts, n, start) + 1, Arrivals(window, ts, n, start - window),
                        AdmittedIn(window, ts, s, n + 1, start - window),
                        AdmittedWithin(ts, s, n + 1, ts[n] - window, ts[n]));
  }

  lemma OvershootArithmetic(window: int, limit: int, e: int, current: int, previous: int, p: int, q: int)
    requires window > 0 && 0 <= e < window && 0 <= p <= previous && p <= limit - 1 && q <= current + p
    requires current * window + previous * (window - e) < limit * window
    ensures q * window < limit * window + (limit - 1) * e
  {
    ScaleAtLeast(q, current + p, window);
    assert (current + p) * window == current * window + p * (window - e) + p * e;
    ScaleAtLeast(p, previous, window - e);
    ScaleAtLeast(p, limit - 1, e);
  }

  /** After silence the next request is the first of its window. */
  lemma FirstOfWindow(window: int, ts: seq<int>, n: nat, start: int, next: int)
    requires window > 0 && Sorted(ts) && n < |ts| && start == Start(ts[n], window) && next > start
    ensures Arrivals(window, ts, n + 1, next) == 0
  {
    forall k | 0 <= k < n + 1 ensures Start(ts[k], window) < next {
      StartGrows(ts[k], ts[n], window);
    }
    FutureUntouched(window, ts, n + 1, next);
  }

  /**
   * Recovery after the c attempts of a window, the last of them rejected or not, and then silence: at
   * offset e of the next window a request passes exactly when 1 + c * (window - e) / window < limit, and in
   * any later window exactly when limit >= 2.
   */
  lemma RecoveryIsExact(window: int, limit: int, ts: seq<int>, n: nat, start: int, next: int, e: int)
    requires window > 0 && Sorted(ts) && n + 1 < |ts|
    requires start == Start(ts[n], window) && next == Start(ts[n + 1], window) && start < next
    requires e == Offset(ts[n + 1], window)
    ensures next == start + window ==>
      (VerdictAt(window, limit, ts, n + 1).allowed
       <==> window + Arrivals(window, ts, n + 1, start) * (window - e) < limit * window)
    ensures next > start + window ==> (VerdictAt(window, limit, ts, n + 1).allowed <==> limit >= 2)
  {
    FirstOfWindow(window, ts, n, start, next);
    AdmitsByArrivals(window, limit, ts, n + 1, next, e);
    if next > start + window {
      FirstOfWindow(window, ts, n, start, next - window);
      OneBelow(limit, window);
    }
  }

  lemma OneBelow(limit: int, window: int)
    requires window > 0
    ensures window < limit * window <==> limit >= 2
  {
  }

  lemma AttemptsLeaveRoom(limit: int, window: int, c: int)
    requires window > 0
    ensures window + c * window < limit * window <==> c <= limit - 2
  {
    assert window + c * window == (1 + c) * window;
    if c <= limit - 2 {
      ScaleAtLeast(1 + c, limit - 1, window);
    } else {
      ScaleAtLeast(limit, 1 + c, window);
    }
  }

  lemma AdvertisedTime(window: int, limit: int, current: int, previous: int, now: int)
    requires window > 0 && !Judge(window, limit, current, previous, now).allowed
    ensures var retry := now + Judge(window, limit, current, previous, now).retryAfter;
            && retry == Start(now, window) + window
            && Start(retry, window) == retry
  {
    StartBounds(now, window);
    NextStart(now, window);
  }

  /** In particular a retry at the advertised time passes only after at most limit - 2 attempts. */
  lemma AdvertisedRetryWorksIff(window: int, limit: int, ts: seq<int>, n: nat)
    requires window > 0 && Sorted(ts) && n + 1 < |ts|
    requires !VerdictAt(window, limit, ts, n).allowed
    requires ts[n + 1] == ts[n] + VerdictAt(window, limit, ts, n).retryAfter
    ensures VerdictAt(window, limit, ts, n + 1).allowed
       <==> Arrivals(window, ts, n + 1, Start(ts[n], window)) <= limit - 2
  {
    var start := Start(ts[n], window);
    assert ts[n + 1] == start + window && Start(ts[n + 1], window) == start + window by {
      var after := CountsAt(window, ts, n + 1);
      AdvertisedTime(window, limit, Hits(after, start), Hits(after, start - window), ts[n]);
    }
    RecoveryIsExact(window, limit, ts, n, start, start + window, 0);
    AttemptsLeaveRoom(limit, window, Arrivals(window, ts, n + 1, start));
  }

  /** With a limit of 2 per second, the second of two requests a millisecond apart retries as told, in vain. */
  lemma AdvertisedRetryCanFail()
    ensures var ts := [0, 1, 1000];
            && !VerdictAt(1000, 2, ts, 1).allowed && ts[2] == ts[1] + VerdictAt(1000, 2, ts, 1).retryAfter
            && !VerdictAt(1000, 2, ts, 2).allowed
  {
    var ts := [0, 1, 1000];
    assert CountsAt(1000, ts, 1) == map[0 := 1];
    assert CountsAt(1000, ts, 2) == map[0 := 2];
    assert Weight(1000, 1) <= 1.0 && Weight(1000, 0) == 1.0;
    assert Sorted(ts);
    AdvertisedRetryWorksIff(1000, 2, ts, 1);
  }

  /** Nor is the advertised time the earliest: with a limit of 3 per second, a retry 400 ms before it can pass. */
  lemma EarlyRetryCanPass()
    ensures var ts := [0, 0, 1000, 1600];
            && !VerdictAt(1000, 3, ts, 2).allowed && ts[3] + 400 == ts[2] + VerdictAt(1000, 3, ts, 2).retryAfter
            && VerdictAt(1000, 3, ts, 3).allowed
  {
    var ts := [0, 0, 1000, 1600];
    assert CountsAt(1000, ts, 2) == map[0 := 2];
    assert CountsAt(1000, ts, 3) == map[0 := 2, 1000 := 1];
    assert Start(1000, 1000) == 1000 && Start(1600, 1000) == 1000;
    EstimateBelow(1000, 3, 1, 2, 1000);
    EstimateBelow(1000, 3, 2, 2, 1600);
  }

  // ---------- the reported remaining budget ----------

  predicate IsWhole(x: real) { x == x.Floor as real }

  /**
   * Further requests at the same moment pass as long as they are within the reported budget, less one
   * whenever the estimate is a whole number: the limit itself is not admitted.
   */
  lemma RemainingOverstatesIff(window: int, limit: int, current: int, previous: int, now: int, k: nat)
    requires window > 0 && k > 0 && Judge(window, limit, current, previous, now).allowed
    ensures Judge(window, limit, current + k, previous, now).allowed
       <==> k <= Judge(window, limit, current, previous, now).remaining
                 - if IsWhole(Estimate(window, current, previous, now - Start(now, window))) then 1 else 0
  {
    var estimate := Estimate(window, current, previous, now - Start(now, window));
    assert Estimate(window, current + k, previous, now - Start(now, window)) == estimate + k as real;
    RoomInWholes(estimate, limit, k);
  }

  lemma RoomInWholes(estimate: real, limit: int, k: int)
    requires estimate < limit as real
    ensures estimate + k as real < limit as real
       <==> k <= (limit as real - estimate).Floor - if IsWhole(estimate) then 1 else 0
  {
    var room := limit as real - estimate;
    if IsWhole(estimate) {
      assert room == (limit - estimate.Floor) as real;
    } else {
      assert IsWhole(room) ==> estimate == (limit - room.Floor) as real;
    }
  }

  /** With a limit of 2, the first request is told that one more will pass; the next, at the same moment, does not. */
  lemma RemainingCanOverstate()
    ensures VerdictAt(1000, 2, [0, 0], 0).allowed && VerdictAt(1000, 2, [0, 0], 0).remaining == 1
    ensures !VerdictAt(1000, 2, [0, 0], 1).allowed
  {
    var ts := [0, 0];
    assert CountsAt(1000, ts, 1) == map[0 := 1];
    assert Hits(Hit(CountsAt(1000, ts, 0), 0), -1000) == 0;
    assert Hits(Hit(CountsAt(1000, ts, 1), 0), -1000) == 0;
  }
}
