/** The fixed window limiter (fixed_window.go) on the counters of one client, run by concurrent handlers. */
module FixedWindow {
  import opened Basics
  import opened Windows

  datatype Verdict = Verdict(allowed: bool, remaining: int, retryAfter: int)

  /** The decision a handler takes on the count its INCR returned. */
  function Judge(window: int, limit: int, count: int, now: int): Verdict
    requires window > 0
  {
    if count <= limit then Verdict(true, Max(limit - count, 0), 0)
    else Verdict(false, 0, Max(Start(now, window) + window - now, 1))
  }

  /** A counter key; a key without a deadline never expires. */
  datatype Cell = Cell(count: int, deadline: Option<int>)

  /** Keys by window start, EXPIRE commands still to be issued, and the clock. */
  datatype State = State(cells: map<int, Cell>, pending: multiset<int>, clock: int)

  /**
   * Atomic steps: a handler's INCR, some time after the clock reading `stamp` that names its window; the EXPIRE it
   * issues later on a count of 1; and Redis dropping a key.
   */
  datatype Event = Incr(stamp: int, now: int) | Expire(start: int, now: int) | Vanish(start: int, now: int)

  function CountAt(st: State, start: int): int {
    if start in st.cells then st.cells[start].count else 0
  }

  function Next(window: int, st: State, e: Event): State
    requires window > 0
  {
    match e
    case Incr(stamp, now) =>
      var start := Start(stamp, window);
      var count := CountAt(st, start) + 1;
      var deadline := if start in st.cells then st.cells[start].deadline else None;
      State(st.cells[start := Cell(count, deadline)],
            if count == 1 then st.pending + multiset{start} else st.pending, now)
    case Expire(start, now) =>
      State(if start in st.cells
            then st.cells[start := Cell(st.cells[start].count, Some(now + window + 1000))] else st.cells,
            st.pending - multiset{start}, now)
    case Vanish(start, now) =>
      State(st.cells - {start}, st.pending, now)
  }

  /**
   * Time does not run backwards, no handler takes more than `lag` milliseconds from its clock reading to its INCR,
   * handlers issue only the EXPIREs they owe, and keys outlive their deadline.
   */
  predicate Legal(lag: int, st: State, e: Event) {
    && 0 <= st.clock <= e.now
    && (e.Incr? ==> 0 <= e.stamp <= e.now <= e.stamp + lag)
    && (e.Expire? ==> e.start in st.pending)
    && (e.Vanish? ==> e.start in st.cells && st.cells[e.start].deadline.Some?
                      && st.cells[e.start].deadline.value <= e.now)
  }

  function StateAt(window: int, events: seq<Event>, n: nat): State
    requires window > 0 && n <= |events|
  {
    if n == 0 then State(map[], multiset{}, 0) else Next(window, StateAt(window, events, n - 1), events[n - 1])
  }

  ghost predicate LegalRun(window: int, lag: int, events: seq<Event>)
    requires window > 0
  {
    forall n: nat | n < |events| :: LegalAt(window, lag, events, n)
  }

  predicate LegalAt(window: int, lag: int, events: seq<Event>, n: nat)
    requires window > 0 && n < |events|
  {
    Legal(lag, StateAt(window, events, n), events[n])
  }

  /** The clock readings of the requests among the first n steps, in the order of their INCR. */
  function Times(events: seq<Event>, n: nat): seq<int>
    requires n <= |events|
  {
    if n == 0 then [] else Extended(Times(events, n - 1), events[n - 1])
  }

  function Extended(ts: seq<int>, e: Event): seq<int> {
    if e.Incr? then ts + [e.stamp] else ts
  }

  /** What a handler decides on the count its INCR returns. */
  function Told(window: int, limit: int, st: State, stamp: int): Verdict
    requires window > 0
  {
    Judge(window, limit, CountAt(st, Start(stamp, window)) + 1, stamp)
  }

  /** What the handlers among the first n steps decide. */
  function Verdicts(window: int, limit: int, events: seq<Event>, n: nat): (vs: seq<Verdict>)
    requires window > 0 && n <= |events|
    ensures |vs| == |Times(events, n)|
  {
    if n == 0 then []
    else if events[n - 1].Incr? then
      Verdicts(window, limit, events, n - 1) + [Told(window, limit, StateAt(window, events, n - 1), events[n - 1].stamp)]
    else Verdicts(window, limit, events, n - 1)
  }

  /** Which of the verdicts let the request through. */
  function Passed(vs: seq<Verdict>): (s: seq<bool>)
    ensures |s| == |vs| && forall n :: 0 <= n < |vs| ==> s[n] == vs[n].allowed
  {
    seq(|vs|, n requires 0 <= n < |vs| => vs[n].allowed)
  }

  /** Counts are exact for every window that can still be hit; only finished windows are ever forgotten. */
  ghost predicate Faithful(window: int, st: State, ts: seq<int>)
    requires window > 0
  {
    && (forall w :: w in st.pending ==> w <= st.clock)
    && (forall w :: w in st.cells ==>
          && w <= st.clock && st.cells[w].count == Arrivals(window, ts, |ts|, w)
          && (st.cells[w].deadline.Some? ==> st.cells[w].deadline.value >= w + window + 1000))
    && (forall w :: w !in st.cells ==> Arrivals(window, ts, |ts|, w) == 0 || w + window + 1000 <= st.clock)
  }

  lemma {:induction false} ArrivalsOfPrefix(window: int, ts: seq<int>, t: int, n: nat, w: int)
    requires window > 0 && n <= |ts|
    ensures Arrivals(window, ts + [t], n, w) == Arrivals(window, ts, n, w)
  {
    if n > 0 {
      ArrivalsOfPrefix(window, ts, t, n - 1, w);
    }
  }

  lemma IncrStaysFaithful(window: int, st: State, ts: seq<int>, stamp: int, now: int)
    requires window > 0 && Faithful(window, st, ts) && Legal(1000, st, Incr(stamp, now))
    ensures Faithful(window, Next(window, st, Incr(stamp, now)), ts + [stamp])
    ensures CountAt(st, Start(stamp, window)) == Arrivals(window, ts, |ts|, Start(stamp, window))
  {
    StartBounds(stamp, window);
    var start := Start(stamp, window);
    forall w
      ensures Arrivals(window, ts + [stamp], |ts| + 1, w) == Arrivals(window, ts, |ts|, w) + if start == w then 1 else 0
    {
      ArrivalsOfPrefix(window, ts, stamp, |ts|, w);
    }
    assert CountAt(st, start) == Arrivals(window, ts, |ts|, start);
  }

  lemma CleanupStaysFaithful(window: int, st: State, ts: seq<int>, e: Event)
    requires window > 0 && Faithful(window, st, ts) && Legal(1000, st, e) && !e.Incr?
    ensures Faithful(window, Next(window, st, e), ts)
  {
  }

  lemma StepStaysFaithful(window: int, st: State, ts: seq<int>, e: Event)
    requires window > 0 && Faithful(window, st, ts) && Legal(1000, st, e)
    ensures Faithful(window, Next(window, st, e), Extended(ts, e))
  {
    if e.Incr? {
      IncrStaysFaithful(window, st, ts, e.stamp, e.now);
      assert e == Incr(e.stamp, e.now);
    } else {
      CleanupStaysFaithful(window, st, ts, e);
    }
  }

  /** The extra second of the TTL makes up for handlers that lag by up to a second. */
  lemma {:induction false} StaysFaithful(window: int, events: seq<Event>, n: nat)
    requires window > 0 && LegalRun(window, 1000, events) && n <= |events|
    ensures Faithful(window, StateAt(window, events, n), Times(events, n))
  {
    if n == 0 {
      assert Times(events, 0) == [];
    } else {
      StaysFaithful(window, events, n - 1);
      assert LegalAt(window, 1000, events, n - 1);
      StepStaysFaithful(window, StateAt(window, events, n - 1), Times(events, n - 1), events[n - 1]);
    }
  }

  // ---------- what the decisions add up to ----------

  /** The verdict on request n if it is counted exactly, rejected requests included. */
  function ExactVerdict(window: int, limit: int, ts: seq<int>, n: nat): Verdict
    requires window > 0 && n < |ts|
  {
    Judge(window, limit, Arrivals(window, ts, n, Start(ts[n], window)) + 1, ts[n])
  }

  ghost predicate Exact(window: int, limit: int, ts: seq<int>, vs: seq<Verdict>)
    requires window > 0 && |vs| == |ts|
  {
    forall n :: 0 <= n < |ts| ==> vs[n] == ExactVerdict(window, limit, ts, n)
  }

  /** Each window admits its first `limit` requests and no other. */
  ghost predicate AdmitsFirst(window: int, limit: int, ts: seq<int>, s: seq<bool>)
    requires window > 0 && |s| == |ts|
  {
    forall n :: 0 <= n < |ts| ==> (s[n] <==> Arrivals(window, ts, n, Start(ts[n], window)) < limit)
  }

  lemma ExactAdmitsFirst(window: int, limit: int, ts: seq<int>, vs: seq<Verdict>)
    requires window > 0 && |vs| == |ts| && Exact(window, limit, ts, vs)
    ensures AdmitsFirst(window, limit, ts, Passed(vs))
  {
  }

  lemma AppendExact(window: int, limit: int, ts: seq<int>, vs: seq<Verdict>, stamp: int, v: Verdict)
    requires window > 0 && |vs| == |ts| && Exact(window, limit, ts, vs)
    requires v == Judge(window, limit, Arrivals(window, ts, |ts|, Start(stamp, window)) + 1, stamp)
    ensures Exact(window, limit, ts + [stamp], vs + [v])
  {
    forall k | 0 <= k <= |ts| ensures (vs + [v])[k] == ExactVerdict(window, limit, ts + [stamp], k) {
      ArrivalsOfPrefix(window, ts, stamp, k, Start((ts + [stamp])[k], window));
    }
  }

  /**
   * However lagging handlers, delayed EXPIREs and expiring keys interleave, each request is told what its place
   * in its window deserves.
   */
  lemma {:induction false} HandlersAreExact(window: int, limit: int, events: seq<Event>, n: nat)
    requires window > 0 && LegalRun(window, 1000, events) && n <= |events|
    ensures Exact(window, limit, Times(events, n), Verdicts(window, limit, events, n))
  {
    if n > 0 {
      HandlersAreExact(window, limit, events, n - 1);
      if events[n - 1].Incr? {
        var st, stamp, ts := StateAt(window, events, n - 1), events[n - 1].stamp, Times(events, n - 1);
        assert CountAt(st, Start(stamp, window)) == Arrivals(window, ts, |ts|, Start(stamp, window)) by {
          StaysFaithful(window, events, n - 1);
          assert LegalAt(window, 1000, events, n - 1);
          IncrStaysFaithful(window, st, ts, stamp, events[n - 1].now);
        }
        AppendExact(window, limit, ts, Verdicts(window, limit, events, n - 1), stamp, Told(window, limit, st, stamp));
      }
    }
  }

  lemma {:induction false} WindowTotal(window: int, limit: int, ts: seq<int>, s: seq<bool>, n: nat, start: int)
    requires window > 0 && limit >= 0 && |s| == |ts| && n <= |ts| && AdmitsFirst(window, limit, ts, s)
    ensures AdmittedIn(window, ts, s, n, start) == Min(limit, Arrivals(window, ts, n, start))
  {
    if n > 0 {
      WindowTotal(window, limit, ts, s, n - 1, start);
    }
  }

  /** No stretch of one window's length, aligned or not, admits more than twice the limit. */
  lemma StretchBound(window: int, limit: int, ts: seq<int>, s: seq<bool>, lo: int)
    requires window > 0 && limit >= 0 && |s| == |ts| && AdmitsFirst(window, limit, ts, s)
    ensures AdmittedWithin(ts, s, |ts|, lo, lo + window) <= 2 * limit
  {
    var start := Start(lo, window);
    forall t | lo <= t <= lo + window
      ensures Start(t, window) == start || Start(t, window) == start + window
    {
      SpansTwoWindows(lo, t, window);
    }
    StretchInTwoWindows(window, ts, s, |ts|, lo, lo + window, start);
    WindowTotal(window, limit, ts, s, |ts|, start);
    WindowTotal(window, limit, ts, s, |ts|, start + window);
  }

  /** The conclusions for concurrent handlers. */
  lemma ConcurrentWindows(window: int, limit: int, events: seq<Event>, start: int, lo: int)
    requires window > 0 && limit > 0 && LegalRun(window, 1000, events)
    ensures var ts, s := Times(events, |events|), Passed(Verdicts(window, limit, events, |events|));
            && AdmitsFirst(window, limit, ts, s)
            && AdmittedIn(window, ts, s, |ts|, start) == Min(limit, Arrivals(window, ts, |ts|, start))
            && AdmittedWithin(ts, s, |ts|, lo, lo + window) <= 2 * limit
  {
    HandlersAreExact(window, limit, events, |events|);
    var ts, vs := Times(events, |events|), Verdicts(window, limit, events, |events|);
    ExactAdmitsFirst(window, limit, ts, vs);
    WindowTotal(window, limit, ts, Passed(vs), |ts|, start);
    StretchBound(window, limit, ts, Passed(vs), lo);
  }

  /** A run in which the last handler lags by 1001 ms: its window's key is gone, and so is its count. */
  function LateRun(window: int): seq<Event> {
    [Incr(0, 0), Expire(0, 0), Vanish(0, window + 1000), Incr(window - 1, window + 1000)]
  }

  lemma LateStates(window: int)
    requires window > 0
    ensures var events := LateRun(window);
            && StateAt(window, events, 0) == State(map[], multiset{}, 0)
            && StateAt(window, events, 1) == State(map[0 := Cell(1, None)], multiset{0}, 0)
            && StateAt(window, events, 2) == State(map[0 := Cell(1, Some(window + 1000))], multiset{}, 0)
            && StateAt(window, events, 3) == State(map[], multiset{}, window + 1000)
  {
    var events := LateRun(window);
    assert Start(0, window) == 0;
    var empty: multiset<int> := multiset{};
    assert empty + multiset{0} == multiset{0} && multiset{0} - multiset{0} == empty;
    assert StateAt(window, events, 1) == Next(window, StateAt(window, events, 0), Incr(0, 0));
    assert StateAt(window, events, 2) == Next(window, StateAt(window, events, 1), Expire(0, 0));
    assert StateAt(window, events, 3).cells == map[];
  }

  lemma LateRunOvershoots(window: int)
    requires window > 0
    ensures LegalRun(window, 1001, LateRun(window))
    ensures !AdmitsFirst(window, 1, Times(LateRun(window), 4), Passed(Verdicts(window, 1, LateRun(window), 4)))
  {
    var events := LateRun(window);
    LateStates(window);
    assert Start(0, window) == 0 && Start(window - 1, window) == 0;
    assert Times(events, 1) == [0] && Times(events, 2) == [0] && Times(events, 3) == [0];
    var ts := Times(events, 4);
    assert ts == [0, window - 1];
    assert Arrivals(window, ts, 1, 0) == Arrivals(window, ts, 0, 0) + 1;
    assert Passed(Verdicts(window, 1, events, 4))[1];
  }

  /** A second is exactly the lag that the limiter tolerates. */
  lemma ToleratesOneSecond(window: int, lag: int)
    requires window > 0
    ensures (forall events, limit :: LegalRun(window, lag, events) ==>
               AdmitsFirst(window, limit, Times(events, |events|), Passed(Verdicts(window, limit, events, |events|))))
       <==> lag <= 1000
  {
    if lag <= 1000 {
      forall events, limit | LegalRun(window, lag, events)
        ensures AdmitsFirst(window, limit, Times(events, |events|), Passed(Verdicts(window, limit, events, |events|)))
      {
        LegalWithin(window, lag, 1000, events);
        HandlersAreExact(window, limit, events, |events|);
        ExactAdmitsFirst(window, limit, Times(events, |events|), Verdicts(window, limit, events, |events|));
      }
    } else {
      LateRunOvershoots(window);
      LegalWithin(window, 1001, lag, LateRun(window));
    }
  }

  lemma LegalWithin(window: int, lag: int, lag': int, events: seq<Event>)
    requires window > 0 && lag <= lag' && LegalRun(window, lag, events)
    ensures LegalRun(window, lag', events)
  {
    forall n: nat | n < |events| ensures LegalAt(window, lag', events, n) {
      assert LegalAt(window, lag, events, n);
    }
  }

  lemma {:induction false} ArrivalsGrow(window: int, ts: seq<int>, n: nat, m: nat, start: int)
    requires window > 0 && n <= m <= |ts|
    ensures Arrivals(window, ts, n, start) <= Arrivals(window, ts, m, start)
  {
    if n < m {
      ArrivalsGrow(window, ts, n, m - 1, start);
    }
  }

  /** Until the next window starts, all requests share the window of one that was seen before. */
  lemma SameWindow(window: int, a: int, b: int)
    requires window > 0 && Start(a, window) >= 0 && a <= b < Start(a, window) + window
    ensures Start(b, window) == Start(a, window)
  {
    StartBounds(a, window);
    StartBounds(b, window);
    MultiplesApart(Quotient(a, window), Quotient(b, window), window);
  }

  /**
   * The advertised retry time is exact over runs: it is the start of the next window, later requests are rejected
   * until then, and the first of the next window passes; so if nobody has been ahead, request m passes exactly
   * from that time on.
   */
  lemma RetryOpensNextWindow(window: int, limit: int, ts: seq<int>, vs: seq<Verdict>, n: nat, m: nat)
    requires window > 0 && limit > 0 && |vs| == |ts| && Exact(window, limit, ts, vs)
    requires n < m < |ts| && ts[n] <= ts[m] && !vs[n].allowed && Start(ts[n], window) >= 0
    ensures ts[n] + vs[n].retryAfter == Start(ts[n], window) + window
    ensures ts[m] < ts[n] + vs[n].retryAfter ==> !vs[m].allowed
    ensures Arrivals(window, ts, m, Start(ts[m], window)) == 0 ==> vs[m].allowed
    ensures (forall k :: 0 <= k < m ==> ts[k] < ts[n] + vs[n].retryAfter)
            ==> (vs[m].allowed <==> ts[m] >= ts[n] + vs[n].retryAfter)
  {
    var start := Start(ts[n], window);
    var next := start + window;
    StartBounds(ts[n], window);
    if ts[m] < next {
      SameWindow(window, ts[n], ts[m]);
      ArrivalsGrow(window, ts, n, m, start);
    } else if forall k :: 0 <= k < m ==> ts[k] < next {
      StartGrows(next, ts[m], window);
      NextStart(ts[n], window);
      forall k | 0 <= k < m ensures Start(ts[k], window) < Start(ts[m], window) {
        StartBounds(ts[k], window);
      }
      FutureUntouched(window, ts, m, Start(ts[m], window));
    }
  }

  /** The reported remaining budget is the limit less what the window has admitted. */
  lemma RemainingIsExact(window: int, limit: int, ts: seq<int>, vs: seq<Verdict>, n: nat)
    requires window > 0 && limit >= 0 && |vs| == |ts| && Exact(window, limit, ts, vs) && n < |ts|
    ensures vs[n].remaining == limit - AdmittedIn(window, ts, Passed(vs), n + 1, Start(ts[n], window))
  {
    ExactAdmitsFirst(window, limit, ts, vs);
    WindowTotal(window, limit, ts, Passed(vs), n + 1, Start(ts[n], window));
  }

  // ---------- handlers one at a time ----------

  function VerdictAt(window: int, limit: int, ts: seq<int>, n: nat): Verdict
    requires window > 0 && n < |ts|
  {
    Judge(window, limit, Hits(CountsAt(window, ts, n), Start(ts[n], window)) + 1, ts[n])
  }

  function Decisions(window: int, limit: int, ts: seq<int>): (s: seq<bool>)
    requires window > 0
    ensures |s| == |ts| && forall n :: 0 <= n < |ts| ==> s[n] == VerdictAt(window, limit, ts, n).allowed
  {
    seq(|ts|, n requires 0 <= n < |ts| => VerdictAt(window, limit, ts, n).allowed)
  }

  /** Handlers that run one at a time are exact as well. */
  lemma VerdictIsExact(window: int, limit: int, ts: seq<int>, n: nat)
    requires window > 0 && n < |ts|
    ensures VerdictAt(window, limit, ts, n) == ExactVerdict(window, limit, ts, n)
  {
    CountsAreArrivals(window, ts, n, Start(ts[n], window));
  }

  lemma DecisionsAdmitFirst(window: int, limit: int, ts: seq<int>)
    requires window > 0
    ensures AdmitsFirst(window, limit, ts, Decisions(window, limit, ts))
  {
    forall n | 0 <= n < |ts|
      ensures Decisions(window, limit, ts)[n] <==> Arrivals(window, ts, n, Start(ts[n], window)) < limit
    {
      VerdictIsExact(window, limit, ts, n);
    }
  }

  /** What the decisions of a run add up to, per aligned window and per stretch of a window's length. */
  lemma DecisionTotals(window: int, limit: int, ts: seq<int>, s: seq<bool>, start: int, lo: int)
    requires window > 0 && limit >= 0 && s == Decisions(window, limit, ts)
    ensures AdmittedIn(window, ts, s, |ts|, start) == Min(limit, Arrivals(window, ts, |ts|, start))
    ensures AdmittedWithin(ts, s, |ts|, lo, lo + window) <= 2 * limit
  {
    DecisionsAdmitFirst(window, limit, ts);
    WindowTotal(window, limit, ts, s, |ts|, start);
    StretchBound(window, limit, ts, s, lo);
  }
}
