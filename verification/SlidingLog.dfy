/** The sliding log script (redis_store.go, slidingLogScript) on the log of one client. */
module SlidingLog {
  import opened Basics

  datatype Verdict = Verdict(allowed: bool, count: int, remaining: int, retryAfter: int)

  /** ZREMRANGEBYSCORE: drop every score below lo. */
  function Trim(log: seq<int>, lo: int): seq<int> {
    if log == [] then []
    else Trim(log[..|log| - 1], lo) + if log[|log| - 1] >= lo then [log[|log| - 1]] else []
  }

  /** ZADD: a sorted set keeps its scores in order. */
  function Insert(log: seq<int>, score: int): seq<int> {
    if log == [] || log[|log| - 1] <= score then log + [score]
    else Insert(log[..|log| - 1], score) + [log[|log| - 1]]
  }

  /** One script call; an absent key is an empty log, and both spans are in milliseconds. */
  function Step(window: int, limit: int, log: seq<int>, now: int): (r: (Verdict, seq<int>))
    requires limit > 0
  {
    var kept := Trim(log, now - window);
    if |kept| < limit then
      (Verdict(true, |kept| + 1, limit - (|kept| + 1), 0), Insert(kept, now))
    else
      (Verdict(false, |kept|, 0, Max(kept[0] + window - now, 1)), kept)
  }

  function LogAt(window: int, limit: int, ts: seq<int>, n: nat): seq<int>
    requires limit > 0 && n <= |ts|
  {
    if n == 0 then [] else Step(window, limit, LogAt(window, limit, ts, n - 1), ts[n - 1]).1
  }

  function VerdictAt(window: int, limit: int, ts: seq<int>, n: nat): Verdict
    requires limit > 0 && n < |ts|
  {
    Step(window, limit, LogAt(window, limit, ts, n), ts[n]).0
  }

  function Decisions(window: int, limit: int, ts: seq<int>): (s: seq<bool>)
    requires limit > 0
    ensures |s| == |ts| && forall n :: 0 <= n < |ts| ==> s[n] == VerdictAt(window, limit, ts, n).allowed
  {
    seq(|ts|, n requires 0 <= n < |ts| => VerdictAt(window, limit, ts, n).allowed)
  }

  // ---------- the full history, which the log never needs ----------

  /** Timestamps among the first n arrivals that s admits, from lo on. */
  function Admitted(ts: seq<int>, s: seq<bool>, n: nat, lo: int): seq<int>
    requires |s| == |ts| && n <= |ts|
  {
    if n == 0 then []
    else Admitted(ts, s, n - 1, lo) + if s[n - 1] && ts[n - 1] >= lo then [ts[n - 1]] else []
  }

  lemma {:induction false} AdmittedCounts(ts: seq<int>, s: seq<bool>, n: nat, lo: int, hi: int)
    requires |s| == |ts| && n <= |ts|
    requires forall k :: 0 <= k < n ==> ts[k] <= hi
    ensures |Admitted(ts, s, n, lo)| == AdmittedWithin(ts, s, n, lo, hi)
  {
    if n > 0 {
      AdmittedCounts(ts, s, n - 1, lo, hi);
    }
  }

  lemma {:induction false} AdmittedBounded(ts: seq<int>, s: seq<bool>, n: nat, lo: int, hi: int)
    requires |s| == |ts| && n <= |ts|
    requires forall k :: 0 <= k < n ==> ts[k] <= hi
    ensures forall x :: x in Admitted(ts, s, n, lo) ==> lo <= x <= hi
  {
    if n > 0 {
      AdmittedBounded(ts, s, n - 1, lo, hi);
    }
  }

  lemma TrimSnoc(log: seq<int>, x: int, lo: int)
    ensures Trim(log + [x], lo) == Trim(log, lo) + if x >= lo then [x] else []
  {
  }

  lemma {:induction false} TrimAdmitted(ts: seq<int>, s: seq<bool>, n: nat, lo: int, lo': int)
    requires |s| == |ts| && n <= |ts| && lo <= lo'
    ensures Trim(Admitted(ts, s, n, lo), lo') == Admitted(ts, s, n, lo')
  {
    if n > 0 {
      var front, t := Admitted(ts, s, n - 1, lo), ts[n - 1];
      TrimAdmitted(ts, s, n - 1, lo, lo');
      TrimSnoc(front, t, lo');
      assert Admitted(ts, s, n, lo) == if s[n - 1] && t >= lo then front + [t] else front;
    }
  }

  /** One call on a log that agrees with the history leaves a log that agrees with the history. */
  lemma StepFollowsHistory(window: int, limit: int, ts: seq<int>, s: seq<bool>, n: nat, log: seq<int>)
    requires limit > 0 && window >= 0 && |s| == |ts| && n < |ts|
    requires forall k :: 0 <= k < n ==> ts[k] <= ts[n]
    requires Trim(log, ts[n] - window) == Admitted(ts, s, n, ts[n] - window)
    requires s[n] == Step(window, limit, log, ts[n]).0.allowed
    ensures Step(window, limit, log, ts[n]).1 == Admitted(ts, s, n + 1, ts[n] - window)
  {
    var kept := Trim(log, ts[n] - window);
    AdmittedBounded(ts, s, n, ts[n] - window, ts[n]);
    if kept != [] {
      assert kept[|kept| - 1] in kept;
    }
  }

  lemma NextFollowsHistory(window: int, limit: int, ts: seq<int>, s: seq<bool>, n: nat, log: seq<int>)
    requires limit > 0 && window >= 0 && |s| == |ts| && n < |ts|
    requires forall k :: 0 <= k < n ==> ts[k] <= ts[n]
    requires if n == 0 then log == [] else log == Admitted(ts, s, n, ts[n - 1] - window)
    requires s[n] == Step(window, limit, log, ts[n]).0.allowed
    ensures Trim(log, ts[n] - window) == Admitted(ts, s, n, ts[n] - window)
    ensures Step(window, limit, log, ts[n]).1 == Admitted(ts, s, n + 1, ts[n] - window)
  {
    assert Trim(log, ts[n] - window) == Admitted(ts, s, n, ts[n] - window) by {
      if n > 0 {
        TrimAdmitted(ts, s, n, ts[n - 1] - window, ts[n] - window);
      }
    }
    StepFollowsHistory(window, limit, ts, s, n, log);
  }

  /** The log holds exactly the admitted timestamps of the last window. */
  lemma {:induction false} LogIsRecentHistory(window: int, limit: int, ts: seq<int>, s: seq<bool>, n: nat)
    requires limit > 0 && window >= 0 && Sorted(ts) && |s| == |ts| && n < |ts|
    requires forall k: nat | k <= n :: DecidedAt(window, limit, ts, s, k)
    ensures Trim(LogAt(window, limit, ts, n), ts[n] - window) == Admitted(ts, s, n, ts[n] - window)
    ensures LogAt(window, limit, ts, n + 1) == Admitted(ts, s, n + 1, ts[n] - window)
  {
    if n > 0 {
      LogIsRecentHistory(window, limit, ts, s, n - 1);
    }
    assert DecidedAt(window, limit, ts, s, n);
    NextFollowsHistory(window, limit, ts, s, n, LogAt(window, limit, ts, n));
  }

  /** s holds the script's decision on arrival n. */
  predicate DecidedAt(window: int, limit: int, ts: seq<int>, s: seq<bool>, n: nat)
    requires limit > 0 && |s| == |ts| && n < |ts|
  {
    s[n] == VerdictAt(window, limit, ts, n).allowed
  }

  lemma RecentHistory(window: int, limit: int, ts: seq<int>, n: nat)
    requires limit > 0 && window >= 0 && Sorted(ts) && n < |ts|
    ensures Trim(LogAt(window, limit, ts, n), ts[n] - window) == Admitted(ts, Decisions(window, limit, ts), n, ts[n] - window)
    ensures LogAt(window, limit, ts, n + 1) == Admitted(ts, Decisions(window, limit, ts), n + 1, ts[n] - window)
  {
    var s := Decisions(window, limit, ts);
    assert forall k: nat | k <= n :: DecidedAt(window, limit, ts, s, k);
    LogIsRecentHistory(window, limit, ts, s, n);
  }

  /**
   * Refinement of the full-history rule: a request is admitted exactly when fewer than `limit` of all the
   * requests admitted before it lie in the closed window ending at it.
   */
  lemma AdmitsByFullHistory(window: int, limit: int, ts: seq<int>, n: nat)
    requires limit > 0 && window >= 0 && Sorted(ts) && n < |ts|
    ensures VerdictAt(window, limit, ts, n).allowed
       <==> AdmittedWithin(ts, Decisions(window, limit, ts), n, ts[n] - window, ts[n]) < limit
  {
    RecentHistory(window, limit, ts, n);
    AdmitsOnHistory(window, limit, ts, Decisions(window, limit, ts), n, LogAt(window, limit, ts, n));
  }

  lemma AdmitsOnHistory(window: int, limit: int, ts: seq<int>, s: seq<bool>, n: nat, log: seq<int>)
    requires limit > 0 && |s| == |ts| && n < |ts| && Sorted(ts)
    requires Trim(log, ts[n] - window) == Admitted(ts, s, n, ts[n] - window)
    ensures Step(window, limit, log, ts[n]).0.allowed <==> AdmittedWithin(ts, s, n, ts[n] - window, ts[n]) < limit
  {
    AdmittedCounts(ts, s, n, ts[n] - window, ts[n]);
  }

  /** The reported count is the number of admissions in the window that ends now, this one included. */
  lemma ReportsWindowCount(window: int, limit: int, ts: seq<int>, s: seq<bool>, n: nat)
    requires limit > 0 && window >= 0 && Sorted(ts) && |s| == |ts| && n < |ts|
    requires forall k: nat | k <= n :: DecidedAt(window, limit, ts, s, k)
    ensures VerdictAt(window, limit, ts, n).count == AdmittedWithin(ts, s, n + 1, ts[n] - window, ts[n])
    ensures VerdictAt(window, limit, ts, n).remaining == limit - VerdictAt(window, limit, ts, n).count
  {
    var log := LogAt(window, limit, ts, n);
    assert |Trim(log, ts[n] - window)| == AdmittedWithin(ts, s, n, ts[n] - window, ts[n]) by {
      LogIsRecentHistory(window, limit, ts, s, n);
      AdmittedCounts(ts, s, n, ts[n] - window, ts[n]);
    }
    assert |Trim(log, ts[n] - window)| <= limit by {
      LogWithinLimit(window, limit, ts, n);
      TrimShortens(log, ts[n] - window);
    }
    assert DecidedAt(window, limit, ts, s, n);
    ReportMatches(window, limit, ts, s, n, log);
  }

  lemma ReportMatches(window: int, limit: int, ts: seq<int>, s: seq<bool>, n: nat, log: seq<int>)
    requires limit > 0 && window >= 0 && |s| == |ts| && n < |ts| && |Trim(log, ts[n] - window)| <= limit
    requires |Trim(log, ts[n] - window)| == AdmittedWithin(ts, s, n, ts[n] - window, ts[n])
    requires s[n] == Step(window, limit, log, ts[n]).0.allowed
    ensures var v := Step(window, limit, log, ts[n]).0;
            && v.count == AdmittedWithin(ts, s, n + 1, ts[n] - window, ts[n])
            && v.remaining == limit - v.count
  {
  }

  // ---------- any clock ----------

  lemma {:induction false} TrimMember(log: seq<int>, lo: int, x: int)
    ensures x in Trim(log, lo) <==> x in log && x >= lo
  {
    if log != [] {
      TrimMember(log[..|log| - 1], lo, x);
    }
  }

  lemma {:induction false} InsertMember(log: seq<int>, score: int, x: int)
    ensures x in Insert(log, score) <==> x in log || x == score
  {
    if log != [] {
      InsertMember(log[..|log| - 1], score, x);
    }
  }

  lemma {:induction false} TrimTwice(log: seq<int>, lo: int, lo': int)
    ensures Trim(Trim(log, lo), lo') == Trim(log, Max(lo, lo'))
  {
    if log != [] {
      var front, x := log[..|log| - 1], log[|log| - 1];
      TrimTwice(front, lo, lo');
      TrimSnoc(Trim(front, lo), x, lo');
      assert Trim(log, lo) == if x >= lo then Trim(front, lo) + [x] else Trim(front, lo);
    }
  }

  lemma {:induction false} TrimInserted(log: seq<int>, score: int, lo: int)
    ensures |Trim(Insert(log, score), lo)| == |Trim(log, lo)| + if score >= lo then 1 else 0
  {
    if log == [] || log[|log| - 1] <= score {
      TrimSnoc(log, score, lo);
    } else {
      var front, x := log[..|log| - 1], log[|log| - 1];
      TrimInserted(front, score, lo);
      TrimSnoc(Insert(front, score), x, lo);
    }
  }

  lemma {:induction false} TrimSorted(log: seq<int>, lo: int)
    requires Sorted(log)
    ensures Sorted(Trim(log, lo))
  {
    if log != [] {
      var front := log[..|log| - 1];
      TrimSorted(front, lo);
      forall k | 0 <= k < |Trim(front, lo)| ensures Trim(front, lo)[k] <= log[|log| - 1] {
        TrimMember(front, lo, Trim(front, lo)[k]);
      }
    }
  }

  lemma {:induction false} InsertSorted(log: seq<int>, score: int)
    requires Sorted(log)
    ensures Sorted(Insert(log, score))
  {
    if log != [] && log[|log| - 1] > score {
      var front := log[..|log| - 1];
      InsertSorted(front, score);
      forall k | 0 <= k < |Insert(front, score)| ensures Insert(front, score)[k] <= log[|log| - 1] {
        InsertMember(front, score, Insert(front, score)[k]);
      }
    }
  }

  lemma {:induction false} LogSorted(window: int, limit: int, ts: seq<int>, n: nat)
    requires limit > 0 && n <= |ts|
    ensures Sorted(LogAt(window, limit, ts, n))
  {
    if n > 0 {
      LogSorted(window, limit, ts, n - 1);
      var log := LogAt(window, limit, ts, n - 1);
      TrimSorted(log, ts[n - 1] - window);
      InsertSorted(Trim(log, ts[n - 1] - window), ts[n - 1]);
    }
  }

  /** Arrival i is recent at lo, and was at every call between i and n. */
  predicate Survives(window: int, ts: seq<int>, i: nat, n: nat, lo: int)
    requires i < n <= |ts|
  {
    ts[i] >= lo && forall j :: i < j < n ==> ts[i] >= ts[j] - window
  }

  /** How many of the first m admissions survive. */
  function Survivors(window: int, ts: seq<int>, s: seq<bool>, m: nat, n: nat, lo: int): nat
    requires |s| == |ts| && m <= n <= |ts|
  {
    if m == 0 then 0
    else Survivors(window, ts, s, m - 1, n, lo) + if s[m - 1] && Survives(window, ts, m - 1, n, lo) then 1 else 0
  }

  /** To survive one more call is to be recent at that call as well. */
  lemma SurvivesOneMore(window: int, ts: seq<int>, i: nat, n: nat, lo: int)
    requires i < n < |ts|
    ensures Survives(window, ts, i, n + 1, lo) <==> Survives(window, ts, i, n, Max(lo, ts[n] - window))
  {
  }

  lemma {:induction false} SurvivorsOneMore(window: int, ts: seq<int>, s: seq<bool>, m: nat, n: nat, lo: int)
    requires |s| == |ts| && m <= n < |ts|
    ensures Survivors(window, ts, s, m, n + 1, lo) == Survivors(window, ts, s, m, n, Max(lo, ts[n] - window))
  {
    if m > 0 {
      SurvivorsOneMore(window, ts, s, m - 1, n, lo);
      SurvivesOneMore(window, ts, m - 1, n, lo);
    }
  }

  lemma SurvivorsStep(window: int, ts: seq<int>, s: seq<bool>, n: nat, lo: int)
    requires |s| == |ts| && n < |ts|
    ensures Survivors(window, ts, s, n + 1, n + 1, lo)
         == Survivors(window, ts, s, n, n, Max(lo, ts[n] - window)) + if s[n] && ts[n] >= lo then 1 else 0
  {
    SurvivorsOneMore(window, ts, s, n, n, lo);
  }

  lemma {:induction false} LogHoldsSurvivors(window: int, limit: int, ts: seq<int>, s: seq<bool>, n: nat, lo: int)
    requires limit > 0 && |s| == |ts| && n <= |ts| && forall k: nat | k < n :: DecidedAt(window, limit, ts, s, k)
    ensures |Trim(LogAt(window, limit, ts, n), lo)| == Survivors(window, ts, s, n, n, lo)
  {
    if n > 0 {
      var log, now := LogAt(window, limit, ts, n - 1), ts[n - 1];
      assert DecidedAt(window, limit, ts, s, n - 1);
      LogHoldsSurvivors(window, limit, ts, s, n - 1, Max(lo, now - window));
      StepKept(window, limit, log, now, lo);
      SurvivorsStep(window, ts, s, n - 1, lo);
    }
  }

  /**
   * On any clock, as when handlers overtake each other: a request is admitted exactly when fewer than `limit` earlier
   * admissions have stayed within the window of every call since, this one included.
   */
  lemma AdmitsBySurvivors(window: int, limit: int, ts: seq<int>, n: nat)
    requires limit > 0 && n < |ts|
    ensures VerdictAt(window, limit, ts, n).allowed
       <==> Survivors(window, ts, Decisions(window, limit, ts), n, n, ts[n] - window) < limit
  {
    var s := Decisions(window, limit, ts);
    assert forall k: nat | k < n :: DecidedAt(window, limit, ts, s, k);
    LogHoldsSurvivors(window, limit, ts, s, n, ts[n] - window);
    AdmitsIfRoom(window, limit, LogAt(window, limit, ts, n), ts[n]);
  }

  lemma AdmitsIfRoom(window: int, limit: int, log: seq<int>, now: int)
    requires limit > 0
    ensures Step(window, limit, log, now).0.allowed <==> |Trim(log, now - window)| < limit
  {
  }

  lemma StepMember(window: int, limit: int, log: seq<int>, now: int, x: int)
    requires limit > 0
    ensures x in Step(window, limit, log, now).1
       <==> (x in log && x >= now - window) || (Step(window, limit, log, now).0.allowed && x == now)
  {
    TrimMember(log, now - window, x);
    InsertMember(Trim(log, now - window), now, x);
  }

  lemma StepKept(window: int, limit: int, log: seq<int>, now: int, lo: int)
    requires limit > 0
    ensures |Trim(Step(window, limit, log, now).1, lo)|
         == |Trim(log, Max(lo, now - window))| + if Step(window, limit, log, now).0.allowed && now >= lo then 1 else 0
  {
    TrimTwice(log, now - window, lo);
    TrimInserted(Trim(log, now - window), now, lo);
  }

  /** The log holds the timestamps of the survivors. */
  lemma {:induction false} MembersSurvive(window: int, limit: int, ts: seq<int>, n: nat, lo: int, x: int) returns (i: nat)
    requires limit > 0 && n <= |ts| && x in LogAt(window, limit, ts, n) && x >= lo
    ensures i < n && ts[i] == x && VerdictAt(window, limit, ts, i).allowed && Survives(window, ts, i, n, lo)
  {
    var log, now := LogAt(window, limit, ts, n - 1), ts[n - 1];
    StepMember(window, limit, log, now, x);
    if x == now && VerdictAt(window, limit, ts, n - 1).allowed {
      i := n - 1;
    } else {
      i := MembersSurvive(window, limit, ts, n - 1, Max(lo, now - window), x);
      SurvivesOneMore(window, ts, i, n - 1, lo);
    }
  }

  lemma {:induction false} SurvivorsAreMembers(window: int, limit: int, ts: seq<int>, n: nat, lo: int, i: nat)
    requires limit > 0 && i < n <= |ts| && VerdictAt(window, limit, ts, i).allowed && Survives(window, ts, i, n, lo)
    ensures ts[i] in LogAt(window, limit, ts, n)
  {
    var log, now := LogAt(window, limit, ts, n - 1), ts[n - 1];
    StepMember(window, limit, log, now, ts[i]);
    if i < n - 1 {
      SurvivesOneMore(window, ts, i, n - 1, lo);
      SurvivorsAreMembers(window, limit, ts, n - 1, Max(lo, now - window), i);
    }
  }

  /** The delay of a reject is counted from the oldest survivor, on any clock. */
  lemma DelayFromOldest(window: int, limit: int, ts: seq<int>, n: nat) returns (i: nat)
    requires limit > 0 && n < |ts| && !VerdictAt(window, limit, ts, n).allowed
    ensures i < n && VerdictAt(window, limit, ts, i).allowed && Survives(window, ts, i, n, ts[n] - window)
    ensures forall j: nat :: j < n && VerdictAt(window, limit, ts, j).allowed && Survives(window, ts, j, n, ts[n] - window)
              ==> ts[i] <= ts[j]
    ensures VerdictAt(window, limit, ts, n).retryAfter == Max(ts[i] + window - ts[n], 1)
  {
    var log, lo := LogAt(window, limit, ts, n), ts[n] - window;
    var kept := Trim(log, lo);
    LogSorted(window, limit, ts, n);
    TrimSorted(log, lo);
    TrimMember(log, lo, kept[0]);
    i := MembersSurvive(window, limit, ts, n, lo, kept[0]);
    forall j: nat | j < n && VerdictAt(window, limit, ts, j).allowed && Survives(window, ts, j, n, lo)
      ensures kept[0] <= ts[j]
    {
      SurvivorsAreMembers(window, limit, ts, n, lo, j);
      TrimMember(log, lo, ts[j]);
    }
  }

  // ---------- optimality ----------

  /** No closed window of the given length holds more than `limit` admissions. */
  ghost predicate Conforms(window: int, limit: int, ts: seq<int>, s: seq<bool>)
    requires |s| == |ts|
  {
    forall lo: int :: WindowHolds(window, limit, ts, s, lo)
  }

  predicate WindowHolds(window: int, limit: int, ts: seq<int>, s: seq<bool>, lo: int)
    requires |s| == |ts|
  {
    AdmittedWithin(ts, s, |ts|, lo, lo + window) <= limit
  }

  /** Every admission finds fewer than `limit` others in the window that ends at it. */
  ghost predicate LooksBack(window: int, limit: int, ts: seq<int>, s: seq<bool>)
    requires |s| == |ts|
  {
    forall n :: 0 <= n < |ts| && s[n] ==> AdmittedWithin(ts, s, n, ts[n] - window, ts[n]) < limit
  }

  lemma {:induction false} WindowBound(window: int, limit: int, ts: seq<int>, s: seq<bool>, n: nat, lo: int)
    requires limit > 0 && window >= 0 && |s| == |ts| && Sorted(ts) && n <= |ts|
    requires LooksBack(window, limit, ts, s)
    ensures AdmittedWithin(ts, s, n, lo, lo + window) <= limit
  {
    if n > 0 {
      WindowBound(window, limit, ts, s, n - 1, lo);
      var t := ts[n - 1];
      if s[n - 1] && lo <= t <= lo + window {
        WithinGrows(ts, s, n - 1, n - 1, lo, lo + window, t - window, t);
      }
    }
  }

  /** From the first arrival inside a window on, admissions in the window are admissions of a slice. */
  lemma {:induction false} WithinIsSlice(ts: seq<int>, s: seq<bool>, m: nat, n: nat, lo: int, hi: int)
    requires |s| == |ts| && m <= n <= |ts|
    requires forall k :: 0 <= k < m ==> ts[k] < lo
    requires forall k :: m <= k < n ==> lo <= ts[k] <= hi
    ensures AdmittedWithin(ts, s, n, lo, hi) == Count(s, m, n)
  {
    if m < n {
      WithinIsSlice(ts, s, m, n - 1, lo, hi);
    } else if n > 0 {
      WithinIsSlice(ts, s, n - 1, n - 1, lo, hi);
    }
  }

  lemma {:induction false} WindowEntry(ts: seq<int>, n: nat, lo: int) returns (m: nat)
    requires Sorted(ts) && n <= |ts|
    ensures m <= n
    ensures forall k :: 0 <= k < m ==> ts[k] < lo
    ensures forall k :: m <= k < n ==> ts[k] >= lo
  {
    if n == 0 || ts[n - 1] < lo {
      m := n;
    } else {
      m := WindowEntry(ts, n - 1, lo);
    }
  }

  /** A schedule that admits where the log is full must have admitted less before. */
  lemma CaughtUp(window: int, limit: int, ts: seq<int>, g: seq<bool>, s: seq<bool>, m: nat, k: nat)
    requires Sorted(ts) && |s| == |g| == |ts| && m <= k < |ts| && window >= 0
    requires forall i :: 0 <= i < m ==> ts[i] < ts[k] - window
    requires forall i :: m <= i < k ==> ts[i] >= ts[k] - window
    requires AdmittedWithin(ts, g, k, ts[k] - window, ts[k]) >= limit
    requires WindowHolds(window, limit, ts, s, ts[k] - window) && s[k]
    requires Count(s, 0, m) <= Count(g, 0, m)
    ensures Count(s, 0, k) < Count(g, 0, k)
  {
    var lo, hi := ts[k] - window, ts[k];
    WithinIsSlice(ts, g, m, k, lo, hi);
    WithinIsSlice(ts, s, m, k, lo, hi);
    WithinGrows(ts, s, k + 1, |ts|, lo, hi, lo, lo + window);
    CountSplits(s, 0, m, k);
    CountSplits(g, 0, m, k);
  }

  lemma {:induction false} NeverBehind(window: int, limit: int, ts: seq<int>, g: seq<bool>, s: seq<bool>, n: nat)
    requires limit > 0 && window >= 0 && Sorted(ts) && |s| == |ts| && n <= |ts|
    requires g == Decisions(window, limit, ts) && Conforms(window, limit, ts, s)
    ensures Count(s, 0, n) <= Count(g, 0, n)
  {
    if n > 0 {
      var k := n - 1;
      NeverBehind(window, limit, ts, g, s, k);
      if s[k] && !g[k] {
        var m := WindowEntry(ts, k, ts[k] - window);
        NeverBehind(window, limit, ts, g, s, m);
        AdmitsByFullHistory(window, limit, ts, k);
        assert WindowHolds(window, limit, ts, s, ts[k] - window);
        CaughtUp(window, limit, ts, g, s, m, k);
      }
    }
  }

  /** The log conforms, and on every prefix no conforming schedule has admitted more. */
  lemma GreedyIsOptimal(window: int, limit: int, ts: seq<int>, s: seq<bool>, n: nat)
    requires limit > 0 && window >= 0 && Sorted(ts) && |s| == |ts| && n <= |ts|
    requires Conforms(window, limit, ts, s)
    ensures Conforms(window, limit, ts, Decisions(window, limit, ts))
    ensures Count(s, 0, n) <= Count(Decisions(window, limit, ts), 0, n)
  {
    var g := Decisions(window, limit, ts);
    assert LooksBack(window, limit, ts, g) by {
      forall k | 0 <= k < |ts| && g[k] ensures AdmittedWithin(ts, g, k, ts[k] - window, ts[k]) < limit {
        AdmitsByFullHistory(window, limit, ts, k);
      }
    }
    forall lo: int ensures WindowHolds(window, limit, ts, g, lo) {
      WindowBound(window, limit, ts, g, |ts|, lo);
    }
    NeverBehind(window, limit, ts, g, s, n);
  }

  // ---------- the advertised retry time ----------

  lemma {:induction false} TrimKeeps(log: seq<int>, lo: int)
    requires forall k :: 0 <= k < |log| ==> log[k] >= lo
    ensures Trim(log, lo) == log
  {
    if log != [] {
      TrimKeeps(log[..|log| - 1], lo);
    }
  }

  lemma HistoryShape(ts: seq<int>, s: seq<bool>, k: nat, lo: int, log: seq<int>)
    requires |s| == |ts| && k < |ts| && Sorted(ts) && log == Admitted(ts, s, k + 1, lo)
    ensures Sorted(log) && (log != [] ==> lo <= log[0] <= ts[k])
  {
    AdmittedSorted(ts, s, k + 1, lo);
    AdmittedBounded(ts, s, k + 1, lo, ts[k]);
    if log != [] {
      assert log[0] in log;
    }
  }

  lemma SomeHistory(window: int, limit: int, ts: seq<int>, k: nat, log: seq<int>) returns (s: seq<bool>)
    requires limit > 0 && window >= 0 && Sorted(ts) && k < |ts| && log == LogAt(window, limit, ts, k + 1)
    ensures |s| == |ts| && log == Admitted(ts, s, k + 1, ts[k] - window)
  {
    s := Decisions(window, limit, ts);
    RecentHistory(window, limit, ts, k);
  }

  lemma LogShape(window: int, limit: int, ts: seq<int>, k: nat, log: seq<int>)
    requires limit > 0 && window >= 0 && Sorted(ts) && k < |ts| && log == LogAt(window, limit, ts, k + 1)
    ensures Sorted(log) && (log != [] ==> ts[k] - window <= log[0] <= ts[k])
  {
    var s := SomeHistory(window, limit, ts, k, log);
    HistoryShape(ts, s, k, ts[k] - window, log);
  }

  /** After a reject the log is full, sorted and inside the window. */
  lemma LogAfterReject(window: int, limit: int, ts: seq<int>, k: nat)
    requires limit > 0 && window >= 0 && Sorted(ts) && k < |ts|
    requires !VerdictAt(window, limit, ts, k).allowed
    ensures var log := LogAt(window, limit, ts, k + 1);
            && |log| >= limit && Sorted(log)
            && ts[k] - window <= log[0] <= ts[k]
            && VerdictAt(window, limit, ts, k).retryAfter == Max(log[0] + window - ts[k], 1)
  {
    LogShape(window, limit, ts, k, LogAt(window, limit, ts, k + 1));
  }

  lemma {:induction false} AdmittedSorted(ts: seq<int>, s: seq<bool>, n: nat, lo: int)
    requires |s| == |ts| && n <= |ts| && Sorted(ts)
    ensures Sorted(Admitted(ts, s, n, lo))
  {
    if n > 0 {
      var front := Admitted(ts, s, n - 1, lo);
      AdmittedSorted(ts, s, n - 1, lo);
      AdmittedBounded(ts, s, n - 1, lo, ts[n - 1]);
      assert forall k :: 0 <= k < |front| ==> front[k] in front;
    }
  }

  lemma {:induction false} TrimShortens(log: seq<int>, lo: int)
    ensures |Trim(log, lo)| <= |log|
    ensures log != [] && log[0] < lo ==> |Trim(log, lo)| < |log|
  {
    if log != [] {
      TrimShortens(log[..|log| - 1], lo);
    }
  }

  /** A full log admits again exactly once its oldest entry is out of the window; until then it does not change. */
  lemma FullLogStep(window: int, limit: int, log: seq<int>, now: int)
    requires limit > 0 && |log| == limit && Sorted(log)
    ensures Step(window, limit, log, now).0.allowed <==> now > log[0] + window
    ensures now <= log[0] + window ==> Step(window, limit, log, now).1 == log
  {
    if now > log[0] + window {
      TrimShortens(log, now - window);
    } else {
      TrimKeeps(log, now - window);
    }
  }

  lemma {:induction false} LogWithinLimit(window: int, limit: int, ts: seq<int>, n: nat)
    requires limit > 0 && n <= |ts|
    ensures |LogAt(window, limit, ts, n)| <= limit
  {
    if n > 0 {
      LogWithinLimit(window, limit, ts, n - 1);
      TrimShortens(LogAt(window, limit, ts, n - 1), ts[n - 1] - window);
      InsertLengthens(Trim(LogAt(window, limit, ts, n - 1), ts[n - 1] - window), ts[n - 1]);
    }
  }

  lemma {:induction false} InsertLengthens(log: seq<int>, score: int)
    ensures |Insert(log, score)| == |log| + 1
  {
    if log != [] {
      InsertLengthens(log[..|log| - 1], score);
    }
  }

  /** While the oldest entry is inside the window, rejects leave the log as it is. */
  lemma {:induction false} RejectsKeepLog(window: int, limit: int, ts: seq<int>, log: seq<int>, k: nat, m: nat)
    requires limit > 0 && Sorted(ts) && k < m <= |ts|
    requires !VerdictAt(window, limit, ts, k).allowed
    requires log == LogAt(window, limit, ts, k + 1) && |log| == limit && Sorted(log)
    requires ts[m - 1] <= log[0] + window
    ensures LogAt(window, limit, ts, m) == log
    ensures !VerdictAt(window, limit, ts, m - 1).allowed
  {
    if m > k + 1 {
      RejectsKeepLog(window, limit, ts, log, k, m - 1);
      FullLogStep(window, limit, log, ts[m - 1]);
    }
  }

  /**
   * After a reject at ts[k] whose oldest surviving entry is o, every request up to o + window is rejected
   * and the first one later is admitted. The advertised delay ends one millisecond before that moment,
   * except that it is never below 1.
   */
  lemma RetryLaw(window: int, limit: int, ts: seq<int>, log: seq<int>, k: nat, m: nat)
    requires limit > 0 && window >= 0 && Sorted(ts) && k < m < |ts|
    requires !VerdictAt(window, limit, ts, k).allowed
    requires log == LogAt(window, limit, ts, k + 1) && log != []
    requires ts[m - 1] <= log[0] + window
    ensures VerdictAt(window, limit, ts, m).allowed <==> ts[m] > log[0] + window
    ensures VerdictAt(window, limit, ts, k).retryAfter == Max(log[0] + window + 1 - ts[k] - 1, 1)
  {
    var delay := VerdictAt(window, limit, ts, k).retryAfter;
    assert |log| == limit && Sorted(log) && delay == Max(log[0] + window - ts[k], 1) by {
      LogAfterReject(window, limit, ts, k);
      LogWithinLimit(window, limit, ts, k + 1);
    }
    assert LogAt(window, limit, ts, m) == log by {
      RejectsKeepLog(window, limit, ts, log, k, m);
    }
    FullLogStep(window, limit, log, ts[m]);
  }

  /** So waiting exactly as advertised works only if the oldest entry was about to leave the window. */
  lemma AdvertisedRetryWorksIff(window: int, limit: int, ts: seq<int>, log: seq<int>, k: nat)
    requires limit > 0 && window >= 0 && Sorted(ts) && k + 1 < |ts|
    requires !VerdictAt(window, limit, ts, k).allowed
    requires log == LogAt(window, limit, ts, k + 1) && log != []
    requires ts[k + 1] == ts[k] + VerdictAt(window, limit, ts, k).retryAfter
    ensures VerdictAt(window, limit, ts, k + 1).allowed <==> log[0] + window == ts[k]
  {
    LogAfterReject(window, limit, ts, k);
    RetryLaw(window, limit, ts, log, k, k + 1);
  }

  /** With a limit of 1 per second, the second of two requests a millisecond apart retries as told, in vain. */
  lemma AdvertisedRetryCanFail()
    ensures var ts := [0, 1, 1000];
            && !VerdictAt(1000, 1, ts, 1).allowed && ts[2] == ts[1] + VerdictAt(1000, 1, ts, 1).retryAfter
            && !VerdictAt(1000, 1, ts, 2).allowed
  {
    var ts := [0, 1, 1000];
    assert LogAt(1000, 1, ts, 0) == [];
    assert LogAt(1000, 1, ts, 1) == [0];
    assert Trim([0], -999) == [0] && Trim([0], 0) == [0];
    assert LogAt(1000, 1, ts, 2) == [0];
  }
}
