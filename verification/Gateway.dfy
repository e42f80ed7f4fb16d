/**
 * End to end: the decisions a client gets from the shared, expiring store, in any legal run, are the
 * decisions of the per-client algorithm on the client's own arrival times since the last reset of its policy.
 */
module Gateway {
  import opened Basics
  import opened Keys
  import opened RedisStore
  import opened Limiters
  import opened Windows
  import opened Isolation
  import opened Expiry
  import TokenBucket
  import BucketOptimality
  import LeakyBucket
  import SlidingLog
  import FixedWindow
  import SlidingWindowCounter

  function Times(rs: seq<Request>): (ts: seq<int>)
    ensures |ts| == |rs|
  {
    if rs == [] then [] else Times(rs[..|rs| - 1]) + [rs[|rs| - 1].now]
  }

  /** What the client's requests are told since the last reset of its policy. */
  function Answers(c: Client, events: seq<Event>): (os: seq<Outcome>)
    ensures |os| == |Expiry.Own(c, events)|
  {
    if events == [] then []
    else
      var front, e := events[..|events| - 1], events[|events| - 1];
      if e.Call? && e.r.client == c then Answers(c, front) + [ServeRequest(StoreAfter(front), e.r).0]
      else if e == Purge(c.policy, Now(e)) then []
      else Answers(c, front)
  }

  predicate Passed(o: Outcome) { o.Ok? && o.value.allowed }

  /** Which of the answers let the request through. */
  function Allowed(os: seq<Outcome>): (s: seq<bool>)
    ensures |s| == |os| && forall n :: 0 <= n < |os| ==> s[n] == Passed(os[n])
  {
    seq(|os|, n requires 0 <= n < |os| => Passed(os[n]))
  }

  // ---------- runs read their past only ----------

  lemma {:induction false} TokenPrefix(c: Config, ts: seq<int>, m: nat, n: nat)
    requires c.Valid() && n <= m <= |ts|
    ensures TokenBucket.StateAt(c, None, ts[..m], n) == TokenBucket.StateAt(c, None, ts, n)
  {
    if n > 0 { TokenPrefix(c, ts, m, n - 1); }
  }

  lemma {:induction false} LeakPrefix(c: Config, ts: seq<int>, m: nat, n: nat)
    requires c.Valid() && n <= m <= |ts|
    ensures LeakyBucket.LeakStateAt(c, None, ts[..m], n) == LeakyBucket.LeakStateAt(c, None, ts, n)
  {
    if n > 0 { LeakPrefix(c, ts, m, n - 1); }
  }

  lemma {:induction false} LogPrefix(window: int, limit: int, ts: seq<int>, m: nat, n: nat)
    requires limit > 0 && n <= m <= |ts|
    ensures SlidingLog.LogAt(window, limit, ts[..m], n) == SlidingLog.LogAt(window, limit, ts, n)
  {
    if n > 0 { LogPrefix(window, limit, ts, m, n - 1); }
  }

  lemma {:induction false} CountsPrefix(window: int, ts: seq<int>, m: nat, n: nat)
    requires window > 0 && n <= m <= |ts|
    ensures CountsAt(window, ts[..m], n) == CountsAt(window, ts, n)
  {
    if n > 0 { CountsPrefix(window, ts, m, n - 1); }
  }

  lemma {:induction false} TimesPrefix(rs: seq<Request>, n: nat)
    requires n <= |rs|
    ensures Times(rs[..n]) == Times(rs)[..n]
  {
    if n < |rs| {
      TimesPrefix(rs[..|rs| - 1], n);
      assert rs[..|rs| - 1][..n] == rs[..n];
    } else {
      assert rs[..n] == rs;
    }
  }

  lemma {:induction false} TimesAt(rs: seq<Request>, n: nat)
    requires n < |rs|
    ensures Times(rs)[n] == rs[n].now
  {
    if n < |rs| - 1 {
      TimesAt(rs[..|rs| - 1], n);
    }
  }

  // ---------- a client alone on the store is its algorithm ----------

  predicate AllFrom(c: Client, params: Params, rs: seq<Request>) {
    forall r :: r in rs ==> r.client == c && r.params == params
  }

  lemma ServeToken(c: Client, params: Params, d: Data, b: Option<Bucket>, now: int, cfg: Config)
    requires c.algorithm.TokenBucket? && HoldsTokens(d, ClientKey(c.algorithm, c.policy, c.name))
    requires ReadBucket(params, "refill_rate_per_sec", "tokens_per_request") == Ok(cfg) && cfg.Valid()
    requires TokensAt(d, ClientKey(c.algorithm, c.policy, c.name)) == b
    ensures var (outcome, after) := ServeRequest(d, Request(c, params, now));
            && outcome == Ok(TokenBucketDecision(cfg, b, now))
            && HoldsTokens(after, ClientKey(c.algorithm, c.policy, c.name))
            && TokensAt(after, ClientKey(c.algorithm, c.policy, c.name)) == Some(TokenBucket.Step(cfg, b, now).1)
  {
  }

  lemma ServeLeak(c: Client, params: Params, d: Data, b: Option<Bucket>, now: int, cfg: Config)
    requires c.algorithm.LeakyBucket? && HoldsWater(d, ClientKey(c.algorithm, c.policy, c.name))
    requires ReadBucket(params, "leak_rate_per_sec", "water_per_request") == Ok(cfg) && cfg.Valid()
    requires WaterAt(d, ClientKey(c.algorithm, c.policy, c.name)) == b
    ensures var (outcome, after) := ServeRequest(d, Request(c, params, now));
            && outcome == Ok(LeakyBucketDecision(cfg, b, now))
            && HoldsWater(after, ClientKey(c.algorithm, c.policy, c.name))
            && WaterAt(after, ClientKey(c.algorithm, c.policy, c.name)) == Some(LeakyBucket.LeakStep(cfg, b, now).1)
  {
  }

  lemma {:induction false} TokenBucketAlone(c: Client, params: Params, rs: seq<Request>, cfg: Config)
    requires c.algorithm.TokenBucket? && AllFrom(c, params, rs)
    requires ReadBucket(params, "refill_rate_per_sec", "tokens_per_request") == Ok(cfg) && cfg.Valid()
    ensures var d, key := After(map[], rs), ClientKey(c.algorithm, c.policy, c.name);
            HoldsTokens(d, key) && TokensAt(d, key) == TokenBucket.StateAt(cfg, None, Times(rs), |rs|)
  {
    if rs != [] {
      var front, r := rs[..|rs| - 1], rs[|rs| - 1];
      assert forall x :: x in front ==> x in rs;
      assert r in rs && r == Request(c, params, r.now);
      TokenBucketAlone(c, params, front, cfg);
      ServeToken(c, params, After(map[], front), TokenBucket.StateAt(cfg, None, Times(front), |front|), r.now, cfg);
      assert Times(rs)[..|front|] == Times(front);
      TokenPrefix(cfg, Times(rs), |front|, |front|);
    }
  }

  lemma {:induction false} SlidingLogAlone(c: Client, params: Params, rs: seq<Request>, windowSec: int, limit: int)
    requires c.algorithm.SlidingLog? && AllFrom(c, params, rs)
    requires ReadWindow(params) == Ok((windowSec, limit)) && windowSec > 0 && limit > 0
    ensures var d, key := After(map[], rs), ClientKey(c.algorithm, c.policy, c.name);
            HoldsLog(d, key) && LogAt(d, key) == SlidingLog.LogAt(windowSec * 1000, limit, Times(rs), |rs|)
  {
    if rs != [] {
      var front, r := rs[..|rs| - 1], rs[|rs| - 1];
      assert forall x :: x in front ==> x in rs;
      SlidingLogAlone(c, params, front, windowSec, limit);
      LogPrefix(windowSec * 1000, limit, Times(rs), |front|, |front|);
      assert r in rs;
    }
  }

  lemma {:induction false} LeakyBucketAlone(c: Client, params: Params, rs: seq<Request>, cfg: Config)
    requires c.algorithm.LeakyBucket? && AllFrom(c, params, rs)
    requires ReadBucket(params, "leak_rate_per_sec", "water_per_request") == Ok(cfg) && cfg.Valid()
    ensures var d, key := After(map[], rs), ClientKey(c.algorithm, c.policy, c.name);
            HoldsWater(d, key) && WaterAt(d, key) == LeakyBucket.LeakStateAt(cfg, None, Times(rs), |rs|)
  {
    if rs != [] {
      var front, r := rs[..|rs| - 1], rs[|rs| - 1];
      assert forall x :: x in front ==> x in rs;
      assert r in rs && r == Request(c, params, r.now);
      LeakyBucketAlone(c, params, front, cfg);
      ServeLeak(c, params, After(map[], front), LeakyBucket.LeakStateAt(cfg, None, Times(front), |front|), r.now, cfg);
      assert Times(rs)[..|front|] == Times(front);
      LeakPrefix(cfg, Times(rs), |front|, |front|);
    }
  }

  /** The counter keys of a client hold these counts. */
  ghost predicate HoldsCounts(c: Client, d: Data, counts: map<int, int>) {
    forall w :: HoldsCount(c, d, counts, w)
  }

  predicate HoldsCount(c: Client, d: Data, counts: map<int, int>, w: int) {
    var key := WindowKey(c.algorithm, c.policy, c.name, w);
    HoldsCounter(d, key) && CounterAt(d, key) == Hits(counts, w)
  }

  lemma HitKeepsCounts(c: Client, d: Data, counts: map<int, int>, start: int, deadline: Option<int>)
    requires c.algorithm.Windowed() && ':' !in c.policy && HoldsCounts(c, d, counts)
    ensures var key := WindowKey(c.algorithm, c.policy, c.name, start);
            HoldsCounts(c, d[key := Entry(Counter(Hits(counts, start) + 1), deadline)], Hit(counts, start))
  {
    var d' := d[WindowKey(c.algorithm, c.policy, c.name, start) := Entry(Counter(Hits(counts, start) + 1), deadline)];
    forall w ensures HoldsCount(c, d', Hit(counts, start), w) {
      assert HoldsCount(c, d, counts, w);
      if w != start {
        WindowKeysDiffer(c.algorithm, c.policy, c.name, w, start);
      }
    }
  }

  lemma FixedWindowHits(d: Data, key: string, counts: map<int, int>, start: int, windowSec: int, limit: int, now: int)
    returns (deadline: Option<int>)
    requires windowSec > 0 && HoldsCounter(d, key) && CounterAt(d, key) == Hits(counts, start)
    ensures FixedWindowOn(d, key, windowSec, limit, now)
         == (WindowAnswer(Algorithm.FixedWindow, windowSec * 1000, limit, counts, start, now),
             d[key := Entry(Counter(Hits(counts, start) + 1), deadline)])
  {
    deadline := FixedWindowOn(d, key, windowSec, limit, now).1[key].deadline;
  }

  lemma SlidingWindowCounterHits(d: Data, key: string, previous: string, counts: map<int, int>, start: int,
                                 windowSec: int, limit: int, now: int)
    requires windowSec > 0 && key != previous && HoldsCounter(d, key) && CounterAt(d, key) == Hits(counts, start)
    requires HoldsCounter(d, previous) && CounterAt(d, previous) == Hits(counts, start - windowSec * 1000)
    ensures SlidingWindowCounterOn(d, key, previous, windowSec, limit, now)
         == (WindowAnswer(Algorithm.SlidingWindowCounter, windowSec * 1000, limit, counts, start, now),
             d[key := Entry(Counter(Hits(counts, start) + 1), Some(now + (windowSec * 2 + 1) * 1000))])
  {
  }

  /** A request in the window at `start` counts up that window's key. */
  lemma WindowUpdate(c: Client, d: Data, counts: map<int, int>, key: string, previous: string, start: int,
                     windowSec: int, limit: int, now: int) returns (deadline: Option<int>)
    requires c.algorithm.Windowed() && ':' !in c.policy && HoldsCounts(c, d, counts) && windowSec > 0
    requires key == WindowKey(c.algorithm, c.policy, c.name, start)
    requires previous == WindowKey(c.algorithm, c.policy, c.name, start - windowSec * 1000)
    ensures WindowOn(c.algorithm, d, key, previous, windowSec, limit, now)
         == (WindowAnswer(c.algorithm, windowSec * 1000, limit, counts, start, now),
             d[key := Entry(Counter(Hits(counts, start) + 1), deadline)])
  {
    assert HoldsCount(c, d, counts, start) && HoldsCount(c, d, counts, start - windowSec * 1000);
    if c.algorithm.FixedWindow? {
      deadline := FixedWindowHits(d, key, counts, start, windowSec, limit, now);
    } else {
      WindowKeysDiffer(c.algorithm, c.policy, c.name, start, start - windowSec * 1000);
      SlidingWindowCounterHits(d, key, previous, counts, start, windowSec, limit, now);
      deadline := Some(now + (windowSec * 2 + 1) * 1000);
    }
  }

  lemma ServeHits(c: Client, params: Params, d: Data, counts: map<int, int>, now: int, windowSec: int, limit: int, start: int)
    requires c.algorithm.Windowed() && ':' !in c.policy && HoldsCounts(c, d, counts)
    requires ReadWindow(params) == Ok((windowSec, limit)) && windowSec > 0 && start == Start(now, windowSec * 1000)
    ensures HoldsCounts(c, ServeRequest(d, Request(c, params, now)).1, Hit(counts, start))
    ensures ServeRequest(d, Request(c, params, now)).0 == WindowAnswer(c.algorithm, windowSec * 1000, limit, counts, start, now)
  {
    var key, previous := WindowKey(c.algorithm, c.policy, c.name, start), WindowKey(c.algorithm, c.policy, c.name, start - windowSec * 1000);
    ServesWindow(c.algorithm, d, c.policy, c.name, now, params, windowSec, limit, start, key, previous);
    var deadline := WindowUpdate(c, d, counts, key, previous, start, windowSec, limit, now);
    HitKeepsCounts(c, d, counts, start, deadline);
  }

  /** The answer of either window algorithm to a request in the window at `start`, on the counts so far. */
  function WindowAnswer(a: Algorithm, window: int, limit: int, counts: map<int, int>, start: int, now: int): Outcome
    requires window > 0
  {
    if a.FixedWindow? then Ok(FixedWindowDecision(window, limit, Hits(counts, start) + 1, now))
    else
      Ok(SlidingWindowCounterDecision(window, limit, Hits(counts, start) + 1, Hits(Hit(counts, start), start - window), now))
  }

  lemma {:induction false} CountersAlone(c: Client, params: Params, rs: seq<Request>, windowSec: int, limit: int)
    requires c.algorithm.Windowed() && ':' !in c.policy && AllFrom(c, params, rs)
    requires ReadWindow(params) == Ok((windowSec, limit)) && windowSec > 0
    ensures HoldsCounts(c, After(map[], rs), CountsAt(windowSec * 1000, Times(rs), |rs|))
  {
    if rs != [] {
      var front, r := rs[..|rs| - 1], rs[|rs| - 1];
      assert forall x :: x in front ==> x in rs;
      CountersAlone(c, params, front, windowSec, limit);
      CountsPrefix(windowSec * 1000, Times(rs), |front|, |front|);
      assert r in rs && r == Request(c, params, r.now);
      ServeHits(c, params, After(map[], front), CountsAt(windowSec * 1000, Times(front), |front|), r.now, windowSec, limit,
                Start(r.now, windowSec * 1000));
    }
  }

  // ---------- answers on the shared store ----------

  /** The n-th answer of a token bucket policy to these arrivals. */
  function TokenAnswer(cfg: Config, ts: seq<int>, n: nat): Outcome
    requires cfg.Valid() && n < |ts|
  {
    Ok(TokenBucketDecision(cfg, TokenBucket.StateAt(cfg, None, ts, n), ts[n]))
  }

  function LeakAnswer(cfg: Config, ts: seq<int>, n: nat): Outcome
    requires cfg.Valid() && n < |ts|
  {
    Ok(LeakyBucketDecision(cfg, LeakyBucket.LeakStateAt(cfg, None, ts, n), ts[n]))
  }

  function LogAnswer(window: int, limit: int, ts: seq<int>, n: nat): Outcome
    requires limit > 0 && n < |ts|
  {
    Ok(SlidingLogDecision(window, limit, SlidingLog.LogAt(window, limit, ts, n), ts[n]))
  }

  function WindowAnswerAt(a: Algorithm, window: int, limit: int, ts: seq<int>, n: nat): Outcome
    requires window > 0 && n < |ts|
  {
    WindowAnswer(a, window, limit, CountsAt(window, ts, n), Start(ts[n], window), ts[n])
  }

  lemma {:induction false} OwnFromClient(c: Client, params: Params, events: seq<Event>)
    requires Fixed(c, params, events)
    ensures AllFrom(c, params, Expiry.Own(c, events))
  {
    if events != [] {
      var front := events[..|events| - 1];
      assert forall x :: x in front ==> x in events;
      assert events[|events| - 1] in events;
      OwnFromClient(c, params, front);
    }
  }

  lemma ClockAdvances(events: seq<Event>)
    requires events != [] && LegalRun(events)
    ensures LegalRun(events[..|events| - 1]) && Clock(events[..|events| - 1]) <= Clock(events)
  {
  }

  lemma TimesSnoc(rs: seq<Request>, r: Request)
    ensures Times(rs + [r]) == Times(rs) + [r.now]
  {
    assert (rs + [r])[..|rs|] == rs;
  }

  lemma SortedSnoc(ts: seq<int>, t: int)
    requires Sorted(ts) && forall u :: u in ts ==> u <= t
    ensures Sorted(ts + [t])
  {
    assert forall i :: 0 <= i < |ts| ==> ts[i] in ts;
  }

  lemma {:induction false} OwnTimesSorted(c: Client, events: seq<Event>)
    requires LegalRun(events)
    ensures Sorted(Times(Expiry.Own(c, events)))
    ensures 0 <= Clock(events) && forall t :: t in Times(Expiry.Own(c, events)) ==> 0 <= t <= Clock(events)
  {
    if events != [] {
      var front, e := events[..|events| - 1], events[|events| - 1];
      var own := Expiry.Own(c, front);
      ClockAdvances(events);
      OwnTimesSorted(c, front);
      if e.Call? && e.r.client == c {
        assert Expiry.Own(c, events) == own + [e.r];
        TimesSnoc(own, e.r);
        SortedSnoc(Times(own), e.r.now);
      } else if e != Purge(c.policy, Now(e)) {
        assert Expiry.Own(c, events) == own;
      }
    }
  }

  /** The legal, fixed-parameter run up to one more request of the client. */
  lemma LastStep(c: Client, params: Params, events: seq<Event>)
    requires events != [] && ':' !in c.policy && LegalRun(events) && Fixed(c, params, events)
    ensures var front, e := events[..|events| - 1], events[|events| - 1];
            && LegalRun(front) && Fixed(c, params, front) && AllFrom(c, params, Expiry.Own(c, front))
            && (e.Call? && e.r.client == c ==>
                  && e.r == Request(c, params, e.r.now)
                  && ServeRequest(StoreAfter(front), e.r).0 == ServeRequest(After(map[], Expiry.Own(c, front)), e.r).0)
  {
    var front, e := events[..|events| - 1], events[|events| - 1];
    assert forall x :: x in front ==> x in events;
    assert e in events;
    OwnFromClient(c, params, front);
    if e.Call? && e.r.client == c {
      AnsweredAsIfAlone(front, e.r);
    }
  }

  lemma ServeLog(c: Client, params: Params, d: Data, log: seq<int>, now: int, windowSec: int, limit: int)
    requires c.algorithm.SlidingLog? && HoldsLog(d, ClientKey(c.algorithm, c.policy, c.name))
    requires ReadWindow(params) == Ok((windowSec, limit)) && windowSec > 0 && limit > 0
    requires LogAt(d, ClientKey(c.algorithm, c.policy, c.name)) == log
    ensures ServeRequest(d, Request(c, params, now)).0 == Ok(SlidingLogDecision(windowSec * 1000, limit, log, now))
  {
  }

  /** What answering the n-th request of a client alone comes to. */
  function AloneAnswer(rs: seq<Request>, n: nat): Outcome
    requires n < |rs|
  {
    ServeRequest(After(map[], rs[..n]), rs[n]).0
  }

  /** On the shared store a client is answered as if alone. */
  lemma {:induction false} AnsweredAlone(c: Client, params: Params, events: seq<Event>, n: nat)
    requires ':' !in c.policy && LegalRun(events) && Fixed(c, params, events) && n < |Expiry.Own(c, events)|
    ensures Answers(c, events)[n] == AloneAnswer(Expiry.Own(c, events), n)
  {
    var front, e := events[..|events| - 1], events[|events| - 1];
    var own, before := Expiry.Own(c, events), Expiry.Own(c, front);
    LastStep(c, params, events);
    if n < |before| {
      AnsweredAlone(c, params, front, n);
      assert own[..n] == before[..n];
    } else {
      assert own[..n] == before;
    }
  }

  /** The n-th own request, after the n before it. */
  lemma OwnPrefix(c: Client, params: Params, events: seq<Event>, n: nat)
    requires ':' !in c.policy && LegalRun(events) && Fixed(c, params, events) && n < |Expiry.Own(c, events)|
    ensures var own := Expiry.Own(c, events);
            && AllFrom(c, params, own[..n]) && own[n] == Request(c, params, own[n].now)
            && Times(own[..n]) == Times(own)[..n] && Times(own)[n] == own[n].now
            && Answers(c, events)[n] == AloneAnswer(own, n)
  {
    var own := Expiry.Own(c, events);
    OwnFromClient(c, params, events);
    assert own[n] in own && forall r :: r in own[..n] ==> r in own;
    TimesPrefix(own, n);
    TimesAt(own, n);
    AnsweredAlone(c, params, events, n);
  }

  lemma TokenBucketAnswer(c: Client, params: Params, events: seq<Event>, cfg: Config, n: nat)
    requires c.algorithm.TokenBucket? && ':' !in c.policy && LegalRun(events) && Fixed(c, params, events)
    requires TokenParams(params, cfg) && cfg.Valid()
    requires n < |Expiry.Own(c, events)|
    ensures Answers(c, events)[n] == TokenAnswer(cfg, Times(Expiry.Own(c, events)), n)
  {
    var own := Expiry.Own(c, events);
    ReadsTokenBucket(params, cfg);
    OwnPrefix(c, params, events, n);
    TokenBucketAlone(c, params, own[..n], cfg);
    ServeToken(c, params, After(map[], own[..n]), TokenBucket.StateAt(cfg, None, Times(own)[..n], n), own[n].now, cfg);
    TokenPrefix(cfg, Times(own), n, n);
  }

  lemma LeakyBucketAnswer(c: Client, params: Params, events: seq<Event>, cfg: Config, n: nat)
    requires c.algorithm.LeakyBucket? && ':' !in c.policy && LegalRun(events) && Fixed(c, params, events)
    requires LeakParams(params, cfg) && cfg.Valid()
    requires n < |Expiry.Own(c, events)|
    ensures Answers(c, events)[n] == LeakAnswer(cfg, Times(Expiry.Own(c, events)), n)
  {
    var own := Expiry.Own(c, events);
    ReadsLeakyBucket(params, cfg);
    OwnPrefix(c, params, events, n);
    LeakyBucketAlone(c, params, own[..n], cfg);
    ServeLeak(c, params, After(map[], own[..n]), LeakyBucket.LeakStateAt(cfg, None, Times(own)[..n], n), own[n].now, cfg);
    LeakPrefix(cfg, Times(own), n, n);
  }

  lemma SlidingLogAnswer(c: Client, params: Params, events: seq<Event>, windowSec: int, limit: int, n: nat)
    requires c.algorithm.SlidingLog? && ':' !in c.policy && LegalRun(events) && Fixed(c, params, events)
    requires WindowParams(params, windowSec, limit) && windowSec > 0 && limit > 0
    requires n < |Expiry.Own(c, events)|
    ensures Answers(c, events)[n] == LogAnswer(windowSec * 1000, limit, Times(Expiry.Own(c, events)), n)
  {
    var own := Expiry.Own(c, events);
    ReadsWindow(params, windowSec, limit);
    OwnPrefix(c, params, events, n);
    SlidingLogAlone(c, params, own[..n], windowSec, limit);
    ServeLog(c, params, After(map[], own[..n]), SlidingLog.LogAt(windowSec * 1000, limit, Times(own)[..n], n), own[n].now, windowSec, limit);
    LogPrefix(windowSec * 1000, limit, Times(own), n, n);
  }

  lemma WindowedAnswer(c: Client, params: Params, events: seq<Event>, windowSec: int, limit: int, n: nat)
    requires c.algorithm.Windowed() && ':' !in c.policy && LegalRun(events) && Fixed(c, params, events)
    requires WindowParams(params, windowSec, limit) && windowSec > 0
    requires n < |Expiry.Own(c, events)|
    ensures Answers(c, events)[n] == WindowAnswerAt(c.algorithm, windowSec * 1000, limit, Times(Expiry.Own(c, events)), n)
  {
    var own := Expiry.Own(c, events);
    ReadsWindow(params, windowSec, limit);
    OwnPrefix(c, params, events, n);
    CountersAlone(c, params, own[..n], windowSec, limit);
    ServeHits(c, params, After(map[], own[..n]), CountsAt(windowSec * 1000, Times(own)[..n], n), own[n].now, windowSec, limit,
              Start(own[n].now, windowSec * 1000));
    CountsPrefix(windowSec * 1000, Times(own), n, n);
  }

  // ---------- the promises of the five policies, on the shared store ----------

  /** A token bucket policy admits each client's requests as fast as any schedule within its rate bound. */
  lemma TokenBucketPromise(c: Client, params: Params, events: seq<Event>, cfg: Config, s: seq<bool>, n: nat)
    requires c.algorithm.TokenBucket? && ':' !in c.policy && LegalRun(events) && Fixed(c, params, events)
    requires TokenParams(params, cfg) && cfg.Valid()
    requires n <= |s| == |Expiry.Own(c, events)| && BucketOptimality.Conforms(cfg, Times(Expiry.Own(c, events)), s)
    ensures BucketOptimality.Conforms(cfg, Times(Expiry.Own(c, events)), Allowed(Answers(c, events)))
    ensures Count(s, 0, n) <= Count(Allowed(Answers(c, events)), 0, n)
  {
    var ts := Times(Expiry.Own(c, events));
    assert Allowed(Answers(c, events)) == TokenBucket.Decisions(cfg, None, ts) by {
      forall k | 0 <= k < |ts| ensures Allowed(Answers(c, events))[k] == TokenBucket.Decisions(cfg, None, ts)[k] {
        TokenBucketAnswer(c, params, events, cfg, k);
      }
    }
    BucketOptimality.GreedyIsOptimal(cfg, ts, s, n);
  }

  /** So does a leaky bucket policy. */
  lemma LeakyBucketPromise(c: Client, params: Params, events: seq<Event>, cfg: Config, s: seq<bool>, n: nat)
    requires c.algorithm.LeakyBucket? && ':' !in c.policy && LegalRun(events) && Fixed(c, params, events)
    requires LeakParams(params, cfg) && cfg.Valid()
    requires n <= |s| == |Expiry.Own(c, events)| && BucketOptimality.Conforms(cfg, Times(Expiry.Own(c, events)), s)
    ensures BucketOptimality.Conforms(cfg, Times(Expiry.Own(c, events)), Allowed(Answers(c, events)))
    ensures Count(s, 0, n) <= Count(Allowed(Answers(c, events)), 0, n)
  {
    var ts := Times(Expiry.Own(c, events));
    assert Allowed(Answers(c, events)) == LeakyBucket.LeakDecisions(cfg, None, ts) by {
      forall k | 0 <= k < |ts| ensures Allowed(Answers(c, events))[k] == LeakyBucket.LeakDecisions(cfg, None, ts)[k] {
        LeakyBucketAnswer(c, params, events, cfg, k);
      }
    }
    LeakyBucket.LeakGreedyIsOptimal(cfg, ts, s, n);
  }

  /** A sliding log policy admits at most `limit` per closed window, and on every prefix the most that allows. */
  lemma SlidingLogPromise(c: Client, params: Params, events: seq<Event>, windowSec: int, limit: int, s: seq<bool>, n: nat)
    requires c.algorithm.SlidingLog? && ':' !in c.policy && LegalRun(events) && Fixed(c, params, events)
    requires WindowParams(params, windowSec, limit) && windowSec > 0 && limit > 0
    requires n <= |s| == |Expiry.Own(c, events)|
    requires SlidingLog.Conforms(windowSec * 1000, limit, Times(Expiry.Own(c, events)), s)
    ensures SlidingLog.Conforms(windowSec * 1000, limit, Times(Expiry.Own(c, events)), Allowed(Answers(c, events)))
    ensures Count(s, 0, n) <= Count(Allowed(Answers(c, events)), 0, n)
  {
    var ts := Times(Expiry.Own(c, events));
    OwnTimesSorted(c, events);
    assert Allowed(Answers(c, events)) == SlidingLog.Decisions(windowSec * 1000, limit, ts) by {
      forall k | 0 <= k < |ts| ensures Allowed(Answers(c, events))[k] == SlidingLog.Decisions(windowSec * 1000, limit, ts)[k] {
        SlidingLogAnswer(c, params, events, windowSec, limit, k);
      }
    }
    SlidingLog.GreedyIsOptimal(windowSec * 1000, limit, ts, s, n);
  }

  lemma WindowDecisions(c: Client, params: Params, events: seq<Event>, windowSec: int, limit: int)
    requires c.algorithm.Windowed() && ':' !in c.policy && LegalRun(events) && Fixed(c, params, events)
    requires WindowParams(params, windowSec, limit) && windowSec > 0
    ensures Allowed(Answers(c, events))
         == if c.algorithm.FixedWindow? then FixedWindow.Decisions(windowSec * 1000, limit, Times(Expiry.Own(c, events)))
            else SlidingWindowCounter.Decisions(windowSec * 1000, limit, Times(Expiry.Own(c, events)))
  {
    var ts, s := Times(Expiry.Own(c, events)), Allowed(Answers(c, events));
    forall k | 0 <= k < |ts|
      ensures c.algorithm.FixedWindow? ==> s[k] == FixedWindow.Decisions(windowSec * 1000, limit, ts)[k]
      ensures !c.algorithm.FixedWindow? ==> s[k] == SlidingWindowCounter.Decisions(windowSec * 1000, limit, ts)[k]
    {
      WindowedAnswer(c, params, events, windowSec, limit, k);
    }
  }

  /** A fixed window policy admits exactly min(limit, arrivals) per aligned window and 2 * limit per any window's length. */
  lemma FixedWindowPromise(c: Client, params: Params, events: seq<Event>, windowSec: int, limit: int,
                           ts: seq<int>, s: seq<bool>, start: int, lo: int)
    requires c.algorithm.FixedWindow? && ':' !in c.policy && LegalRun(events) && Fixed(c, params, events)
    requires WindowParams(params, windowSec, limit) && windowSec > 0
    requires ts == Times(Expiry.Own(c, events)) && s == Allowed(Answers(c, events))
    ensures AdmittedIn(windowSec * 1000, ts, s, |ts|, start) == Min(limit, Arrivals(windowSec * 1000, ts, |ts|, start))
    ensures AdmittedWithin(ts, s, |ts|, lo, lo + windowSec * 1000) <= 2 * limit
  {
    WindowDecisions(c, params, events, windowSec, limit);
    FixedWindow.DecisionTotals(windowSec * 1000, limit, ts, s, start, lo);
  }

  /** A sliding window counter policy bounds every rolling window that ends with an admission. */
  lemma SlidingWindowCounterPromise(c: Client, params: Params, events: seq<Event>, windowSec: int, limit: int,
                                    ts: seq<int>, s: seq<bool>, n: nat)
    requires c.algorithm.SlidingWindowCounter? && ':' !in c.policy && LegalRun(events) && Fixed(c, params, events)
    requires WindowParams(params, windowSec, limit) && windowSec > 0 && limit > 0
    requires ts == Times(Expiry.Own(c, events)) && s == Allowed(Answers(c, events))
    requires n < |ts| && s[n]
    ensures SlidingWindowCounter.RollingBounded(windowSec * 1000, limit, ts, s, n)
  {
    WindowDecisions(c, params, events, windowSec, limit);
    SlidingWindowCounter.RollingOvershoot(windowSec * 1000, limit, ts, s, n);
  }
}
