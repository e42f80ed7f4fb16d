/** Aligned windows and the per-window hit counters of one client. */
module Windows {
  import opened Arithmetic
  import opened Basics

  /** Start of the window of length `window` that contains `now` (integer division truncates toward zero). */
  function Start(now: int, window: int): int
    requires window > 0
  {
    Quotient(now, window) * window
  }

  lemma StartBounds(now: int, window: int)
    requires window > 0
    ensures InWindow(now, Start(now, window), window)
  {
    if now >= 0 {
      DivisionBounds(now, window);
    } else {
      DivisionBounds(-now, window);
      NegatedProduct((-now) / window, window);
    }
  }

  lemma DivisionBounds(n: nat, d: int)
    requires d > 0
    ensures 0 <= n / d * d <= n < n / d * d + d
  {
  }

  lemma NegatedProduct(a: int, b: int)
    ensures (-a) * b == -(a * b)
  {
  }

  /** `now` lies in the window of this start; windows before the epoch end, rather than begin, at their start. */
  predicate InWindow(now: int, start: int, window: int) {
    if now > 0 then 0 <= start <= now < start + window
    else start - window < now <= start <= 0
  }

  lemma StartGrows(a: int, b: int, window: int)
    requires window > 0 && a <= b
    ensures Start(a, window) <= Start(b, window)
  {
    StartBounds(a, window);
    StartBounds(b, window);
    MultiplesApart(Quotient(a, window), Quotient(b, window), window);
    WindowsOrdered(a, b, Start(a, window), Start(b, window), window);
  }

  lemma WindowsOrdered(a: int, b: int, start: int, start': int, window: int)
    requires window > 0 && a <= b && InWindow(a, start, window) && InWindow(b, start', window)
    ensures start' + window > start
    ensures b <= a + window ==> start' < start + 2 * window
  {
  }

  lemma MultiplesApart(p: int, q: int, window: int)
    requires window > 0
    ensures p < q ==> p * window + window <= q * window
    ensures q < p ==> q * window + window <= p * window
    ensures p + 1 < q ==> p * window + 2 * window <= q * window
  {
    if p < q {
      ScaleAtLeast(p + 1, q, window);
    }
    if q < p {
      ScaleAtLeast(q + 1, p, window);
    }
    if p + 1 < q {
      ScaleAtLeast(p + 2, q, window);
    }
  }

  /** Two moments no further apart than one window lie in the same window or in neighbours. */
  lemma SpansTwoWindows(a: int, b: int, window: int)
    requires window > 0 && a <= b <= a + window
    ensures Start(b, window) == Start(a, window) || Start(b, window) == Start(a, window) + window
  {
    StartBounds(a, window);
    StartBounds(b, window);
    WindowsOrdered(a, b, Start(a, window), Start(b, window), window);
    var p, q := Quotient(a, window), Quotient(b, window);
    MultiplesApart(p, q, window);
    if q == p + 1 {
      assert q * window == p * window + window;
    }
  }

  lemma StartOfMultiple(q: int, window: int)
    requires window > 0
    ensures Start(q * window, window) == q * window
  {
    StartBounds(q * window, window);
    MultiplesApart(Quotient(q * window, window), q, window);
  }

  /** A window's successor starts a window of its own. */
  lemma NextStart(now: int, window: int)
    requires window > 0
    ensures Start(Start(now, window) + window, window) == Start(now, window) + window
  {
    var q := Quotient(now, window);
    assert q * window + window == (q + 1) * window;
    StartOfMultiple(q + 1, window);
  }

  // ---------- counters ----------

  function Hits(counts: map<int, int>, start: int): int {
    if start in counts then counts[start] else 0
  }

  /** INCR on the counter of one window. */
  function Hit(counts: map<int, int>, start: int): map<int, int> {
    counts[start := Hits(counts, start) + 1]
  }

  function CountsAt(window: int, ts: seq<int>, n: nat): map<int, int>
    requires window > 0 && n <= |ts|
  {
    if n == 0 then map[] else Hit(CountsAt(window, ts, n - 1), Start(ts[n - 1], window))
  }

  /** How many of the first n requests fall into the window at `start`. */
  function Arrivals(window: int, ts: seq<int>, n: nat, start: int): nat
    requires window > 0 && n <= |ts|
  {
    if n == 0 then 0
    else Arrivals(window, ts, n - 1, start) + if Start(ts[n - 1], window) == start then 1 else 0
  }

  /** How many of the first n requests s admits in the window at `start`. */
  function AdmittedIn(window: int, ts: seq<int>, s: seq<bool>, n: nat, start: int): nat
    requires window > 0 && |s| == |ts| && n <= |ts|
  {
    if n == 0 then 0
    else AdmittedIn(window, ts, s, n - 1, start) + if s[n - 1] && Start(ts[n - 1], window) == start then 1 else 0
  }

  lemma {:induction false} CountsAreArrivals(window: int, ts: seq<int>, n: nat, start: int)
    requires window > 0 && n <= |ts|
    ensures Hits(CountsAt(window, ts, n), start) == Arrivals(window, ts, n, start)
  {
    if n > 0 {
      CountsAreArrivals(window, ts, n - 1, start);
    }
  }

  /** Admissions in any stretch of one window's length fall into two neighbouring aligned windows. */
  lemma {:induction false} StretchInTwoWindows(window: int, ts: seq<int>, s: seq<bool>, n: nat, lo: int, hi: int, start: int)
    requires window > 0 && |s| == |ts| && n <= |ts|
    requires forall t :: lo <= t <= hi ==> Start(t, window) == start || Start(t, window) == start + window
    ensures AdmittedWithin(ts, s, n, lo, hi)
         <= AdmittedIn(window, ts, s, n, start) + AdmittedIn(window, ts, s, n, start + window)
  {
    if n > 0 {
      StretchInTwoWindows(window, ts, s, n - 1, lo, hi, start);
    }
  }

  /** A window that lies ahead of every request so far is untouched. */
  lemma {:induction false} FutureUntouched(window: int, ts: seq<int>, n: nat, start: int)
    requires window > 0 && n <= |ts|
    requires forall k :: 0 <= k < n ==> Start(ts[k], window) < start
    ensures Arrivals(window, ts, n, start) == 0
  {
    if n > 0 {
      FutureUntouched(window, ts, n - 1, start);
    }
  }
}
