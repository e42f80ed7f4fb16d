/**
 * Key expiry and resets. Redis may drop a key once its TTL has run out; no client can tell. Runs interleave
 * requests of any clients with such drops and with resets of policies, and each request of a client whose
 * parameters stay fixed is answered as on a store that never drops a key and holds only the client's own
 * history since its policy was last reset.
 */
module Expiry {
  import opened Basics
  import opened Keys
  import opened RedisStore
  import opened Limiters
  import opened Windows
  import opened Isolation
  import TokenBucket
  import LeakyBucket
  import SlidingLog
  import Reset

  // ---------- one key, held by the faithful store full, perhaps already dropped from the expiring store d ----------

  /** d holds what full holds, or has dropped a key whose deadline has passed. */
  ghost predicate Shadows(d: Data, full: Data, key: string, clock: int) {
    && (key in d ==> key in full && d[key] == full[key])
    && (key in full && key !in d ==> full[key].deadline.Some? && full[key].deadline.value <= clock)
  }

  /** Both stores got the same entry under one key. */
  ghost predicate SameWrite(d: Data, d': Data, full: Data, full': Data, key: string) {
    key in d' && key in full' && d'[key] == full'[key] && d' == d[key := d'[key]] && full' == full[key := full'[key]]
  }

  /** A full refill fits into the bucket's TTL. */
  lemma TtlCoversRefill(c: Config, elapsed: int)
    requires c.Valid() && elapsed >= BucketTtl(c.capacity, c.rate) * 1000
    ensures TokenBucket.Refill(c.rate, elapsed) >= c.capacity as real
  {
  }

  /** A bucket hash as the scripts leave it. */
  predicate FreshBucket(c: Config, b: Bucket, deadline: Option<int>)
    requires c.rate > 0.0
  {
    TokenBucket.InRange(c, Some(b)) && deadline == Some(b.last + BucketTtl(c.capacity, c.rate) * 1000)
  }

  ghost predicate SoundTokens(c: Config, d: Data, key: string)
    requires c.rate > 0.0
  {
    HoldsTokens(d, key) && (key in d ==> FreshBucket(c, TokensAt(d, key).value, d[key].deadline))
  }

  ghost predicate SoundWater(c: Config, d: Data, key: string)
    requires c.rate > 0.0
  {
    HoldsWater(d, key) && (key in d ==> FreshBucket(c, WaterAt(d, key).value, d[key].deadline))
  }

  /** After its TTL a bucket behaves like a new one. */
  lemma StaleBucketIsNew(c: Config, b: Bucket, now: int)
    requires c.Valid() && TokenBucket.InRange(c, Some(b))
    requires now >= b.last + BucketTtl(c.capacity, c.rate) * 1000
    ensures TokenBucket.Step(c, Some(b), now) == TokenBucket.Step(c, None, now)
    ensures LeakyBucket.LeakStep(c, Some(b), now) == LeakyBucket.LeakStep(c, None, now)
  {
    TtlCoversRefill(c, now - b.last);
  }

  lemma StepInRange(c: Config, b: Option<Bucket>, now: int)
    requires c.Valid() && TokenBucket.InRange(c, b)
    ensures TokenBucket.InRange(c, Some(TokenBucket.Step(c, b, now).1)) && TokenBucket.Step(c, b, now).1.last == now
    ensures TokenBucket.InRange(c, Some(LeakyBucket.LeakStep(c, b, now).1)) && LeakyBucket.LeakStep(c, b, now).1.last == now
  {
  }

  lemma TokenBucketShadowed(c: Config, d: Data, full: Data, key: string, clock: int, now: int)
    requires c.Valid() && SoundTokens(c, full, key) && Shadows(d, full, key, clock) && clock <= now
    ensures var (r, d') := TokenBucketOn(d, key, c, now);
            var (q, full') := TokenBucketOn(full, key, c, now);
            r == q && SoundTokens(c, full', key) && SameWrite(d, d', full, full', key)
  {
    StepInRange(c, TokensAt(full, key), now);
    if key in full && key !in d {
      StaleBucketIsNew(c, TokensAt(full, key).value, now);
    }
  }

  lemma LeakyBucketShadowed(c: Config, d: Data, full: Data, key: string, clock: int, now: int)
    requires c.Valid() && SoundWater(c, full, key) && Shadows(d, full, key, clock) && clock <= now
    ensures var (r, d') := LeakyBucketOn(d, key, c, now);
            var (q, full') := LeakyBucketOn(full, key, c, now);
            r == q && SoundWater(c, full', key) && SameWrite(d, d', full, full', key)
  {
    StepInRange(c, WaterAt(full, key), now);
    if key in full && key !in d {
      StaleBucketIsNew(c, WaterAt(full, key).value, now);
    }
  }

  /** The deadline of a log lies beyond the window of each of its entries. */
  ghost predicate SoundLog(windowSec: int, d: Data, key: string) {
    && HoldsLog(d, key)
    && (key in d ==> d[key].deadline.Some?
                     && forall x :: x in LogAt(d, key) ==> x + windowSec * 1000 < d[key].deadline.value)
  }

  lemma {:induction false} TrimsAway(log: seq<int>, lo: int)
    requires forall x :: x in log ==> x < lo
    ensures SlidingLog.Trim(log, lo) == []
  {
    if log != [] {
      var front := log[..|log| - 1];
      assert log[|log| - 1] in log && forall x :: x in front ==> x in log;
      TrimsAway(front, lo);
    }
  }

  lemma {:induction false} TrimSubset(log: seq<int>, lo: int)
    ensures forall x :: x in SlidingLog.Trim(log, lo) ==> x in log
  {
    if log != [] {
      TrimSubset(log[..|log| - 1], lo);
    }
  }

  lemma {:induction false} InsertSubset(log: seq<int>, score: int)
    ensures forall x :: x in SlidingLog.Insert(log, score) ==> x in log || x == score
  {
    if log != [] {
      InsertSubset(log[..|log| - 1], score);
    }
  }

  lemma SlidingLogShadowed(windowSec: int, limit: int, d: Data, full: Data, key: string, clock: int, now: int)
    requires windowSec > 0 && limit > 0 && SoundLog(windowSec, full, key) && Shadows(d, full, key, clock) && clock <= now
    requires forall x :: x in LogAt(full, key) ==> x <= clock
    ensures var (r, d') := SlidingLogOn(d, key, windowSec, limit, now);
            var (q, full') := SlidingLogOn(full, key, windowSec, limit, now);
            r == q && SoundLog(windowSec, full', key) && SameWrite(d, d', full, full', key)
            && forall x :: x in LogAt(full', key) ==> x <= now
  {
    var log, lo := LogAt(full, key), now - windowSec * 1000;
    TrimSubset(log, lo);
    InsertSubset(SlidingLog.Trim(log, lo), now);
    if key in full && key !in d {
      TrimsAway(log, lo);
      assert SlidingLog.Trim([], lo) == [];
    }
  }

  // ---------- counters: one key per window ----------

  /** A counter's deadline lies `reach` or more beyond the start of its window. */
  ghost predicate SoundCounter(d: Data, key: string, start: int, reach: int) {
    HoldsCounter(d, key) && (key in d ==> CounterAt(d, key) > 0 && d[key].deadline.Some? && d[key].deadline.value >= start + reach)
  }

  lemma FixedWindowShadowed(windowSec: int, limit: int, d: Data, full: Data, key: string, start: int, clock: int, now: int)
    requires windowSec > 0 && 0 <= clock <= now && start == Start(now, windowSec * 1000)
    requires SoundCounter(full, key, start, windowSec * 1000) && Shadows(d, full, key, clock)
    ensures var (r, d') := FixedWindowOn(d, key, windowSec, limit, now);
            var (q, full') := FixedWindowOn(full, key, windowSec, limit, now);
            r == q && SoundCounter(full', key, start, windowSec * 1000) && SameWrite(d, d', full, full', key)
  {
  }

  lemma SlidingWindowCounterShadowed(windowSec: int, limit: int, d: Data, full: Data, key: string, previous: string,
                                     start: int, clock: int, now: int)
    requires windowSec > 0 && 0 <= clock <= now && start == Start(now, windowSec * 1000) && key != previous
    requires SoundCounter(full, key, start, windowSec * 2000) && Shadows(d, full, key, clock)
    requires SoundCounter(full, previous, start - windowSec * 1000, windowSec * 2000) && Shadows(d, full, previous, clock)
    ensures var (r, d') := SlidingWindowCounterOn(d, key, previous, windowSec, limit, now);
            var (q, full') := SlidingWindowCounterOn(full, key, previous, windowSec, limit, now);
            r == q && SoundCounter(full', key, start, windowSec * 2000) && SameWrite(d, d', full, full', key)
  {
  }

  // ---------- runs ----------

  /** A request, a key that Redis drops, or a reset of a policy. */
  datatype Event = Call(r: Request) | Vanish(key: string, now: int) | Purge(policy: string, now: int)

  function Next(d: Data, e: Event): Data {
    match e
    case Call(r) => ServeRequest(d, r).1
    case Vanish(key, _) => d - {key}
    case Purge(policy, _) => Without(d, ResetPattern(policy))
  }

  function StoreAfter(events: seq<Event>): Data {
    if events == [] then map[] else Next(StoreAfter(events[..|events| - 1]), events[|events| - 1])
  }

  function Now(e: Event): int { if e.Call? then e.r.now else e.now }

  function Clock(events: seq<Event>): int {
    if events == [] then 0 else Now(events[|events| - 1])
  }

  /** Only a key whose TTL has run out may vanish. */
  predicate Legal(d: Data, e: Event) {
    e.Vanish? ==> e.key in d && d[e.key].deadline.Some? && d[e.key].deadline.value <= e.now
  }

  /** The clock starts at or after the epoch and does not run backwards; policy ids contain no separator. */
  predicate LegalRun(events: seq<Event>) {
    events == [] ||
    var front, e := events[..|events| - 1], events[|events| - 1];
    && LegalRun(front) && Clock(front) <= Now(e) && Legal(StoreAfter(front), e)
    && (e.Call? ==> ':' !in e.r.client.policy) && (e.Purge? ==> PlainId(e.policy))
  }

  /** The requests of one client since the last reset of its policy. */
  function Own(c: Client, events: seq<Event>): seq<Request> {
    if events == [] then []
    else
      var own, e := Own(c, events[..|events| - 1]), events[|events| - 1];
      if e.Call? && e.r.client == c then own + [e.r]
      else if e == Purge(c.policy, Now(e)) then []
      else own
  }

  /** The client's keys in the faithful store are as its limiter leaves them. */
  ghost predicate Sound(c: Client, params: Params, full: Data, clock: int) {
    match c.algorithm
    case FixedWindow =>
      var read := ReadWindow(params);
      read.Ok? && read.value.0 > 0 ==>
        forall start :: SoundCounter(full, WindowKey(c.algorithm, c.policy, c.name, start), start, Reach(c.algorithm, read.value.0))
    case SlidingWindowCounter =>
      var read := ReadWindow(params);
      read.Ok? && read.value.0 > 0 ==>
        forall start :: SoundCounter(full, WindowKey(c.algorithm, c.policy, c.name, start), start, Reach(c.algorithm, read.value.0))
    case SlidingLog =>
      var read, key := ReadWindow(params), ClientKey(c.algorithm, c.policy, c.name);
      read.Ok? ==> SoundLog(read.value.0, full, key) && forall x :: x in LogAt(full, key) ==> x <= clock
    case TokenBucket =>
      var read := ReadBucket(params, "refill_rate_per_sec", "tokens_per_request");
      read.Ok? ==> SoundTokens(read.value, full, ClientKey(c.algorithm, c.policy, c.name))
    case LeakyBucket =>
      var read := ReadBucket(params, "leak_rate_per_sec", "water_per_request");
      read.Ok? ==> SoundWater(read.value, full, ClientKey(c.algorithm, c.policy, c.name))
  }

  ghost predicate ShadowsAll(c: Client, d: Data, full: Data, clock: int) {
    forall k :: OwnsKey(c, k) ==> Shadows(d, full, k, clock)
  }

  lemma SameWriteShadows(c: Client, d: Data, d': Data, full: Data, full': Data, key: string, clock: int, now: int)
    requires ShadowsAll(c, d, full, clock) && clock <= now
    requires SameWrite(d, d', full, full', key) || (d' == d && full' == full)
    ensures ShadowsAll(c, d', full', now)
  {
  }

  // ---------- one step of a run ----------

  /** What a request of the client itself keeps. */
  ghost predicate Keeps(r: Request, d: Data, full: Data) {
    var (o, d') := ServeRequest(d, r);
    var (q, full') := ServeRequest(full, r);
    o == q && Sound(r.client, r.params, full', r.now) && ShadowsAll(r.client, d', full', r.now)
  }

  lemma BucketsKeep(r: Request, d: Data, full: Data, clock: int)
    requires r.client.algorithm.TokenBucket? || r.client.algorithm.LeakyBucket?
    requires Sound(r.client, r.params, full, clock) && ShadowsAll(r.client, d, full, clock) && clock <= r.now
    ensures Keeps(r, d, full)
  {
    var Client(a, p, c) := r.client;
    var key := ClientKey(a, p, c);
    var d', full' := ServeRequest(d, r).1, ServeRequest(full, r).1;
    assert OwnsKey(r.client, key);
    if a.TokenBucket? {
      var read := ReadBucket(r.params, "refill_rate_per_sec", "tokens_per_request");
      if read.Ok? && read.value.Valid() {
        TokenBucketShadowed(read.value, d, full, key, clock, r.now);
      }
    } else {
      var read := ReadBucket(r.params, "leak_rate_per_sec", "water_per_request");
      if read.Ok? && read.value.Valid() {
        LeakyBucketShadowed(read.value, d, full, key, clock, r.now);
      }
    }
    SameWriteShadows(r.client, d, d', full, full', key, clock, r.now);
  }

  lemma LogKeeps(r: Request, d: Data, full: Data, clock: int)
    requires r.client.algorithm.SlidingLog?
    requires Sound(r.client, r.params, full, clock) && ShadowsAll(r.client, d, full, clock) && clock <= r.now
    ensures Keeps(r, d, full)
  {
    var Client(a, p, c) := r.client;
    var key, read := ClientKey(a, p, c), ReadWindow(r.params);
    var d', full' := ServeRequest(d, r).1, ServeRequest(full, r).1;
    assert OwnsKey(r.client, key);
    if read.Ok? && read.value.0 > 0 && read.value.1 > 0 {
      SlidingLogShadowed(read.value.0, read.value.1, d, full, key, clock, r.now);
    }
    SameWriteShadows(r.client, d, d', full, full', key, clock, r.now);
  }

  /** A counter written for one window leaves the others' as they were. */
  lemma OtherWindowsSound(c: Client, full: Data, full': Data, start: int, windowSec: int, reach: int)
    requires c.algorithm.Windowed() && ':' !in c.policy
    requires forall w :: SoundCounter(full, WindowKey(c.algorithm, c.policy, c.name, w), w, reach)
    requires var key := WindowKey(c.algorithm, c.policy, c.name, start);
             key in full' && full' == full[key := full'[key]] && SoundCounter(full', key, start, reach)
    ensures forall w :: SoundCounter(full', WindowKey(c.algorithm, c.policy, c.name, w), w, reach)
  {
    forall w ensures SoundCounter(full', WindowKey(c.algorithm, c.policy, c.name, w), w, reach) {
      if w != start {
        WindowKeysDiffer(c.algorithm, c.policy, c.name, w, start);
      }
      assert SoundCounter(full, WindowKey(c.algorithm, c.policy, c.name, w), w, reach);
    }
  }

  lemma WindowKeysDiffer(a: Algorithm, p: string, c: string, start: int, start': int)
    requires ':' !in p && start != start'
    ensures WindowKey(a, p, c, start) != WindowKey(a, p, c, start')
  {
    if WindowKey(a, p, c, start) == WindowKey(a, p, c, start') {
      WindowKeyInjective(a, p, c, start, a, p, c, start');
    }
  }

  /** How far beyond its start a window's counter must live. */
  function Reach(a: Algorithm, windowSec: int): int { windowSec * if a.FixedWindow? then 1000 else 2000 }

  lemma WindowShadowed(a: Algorithm, windowSec: int, limit: int, d: Data, full: Data, key: string, previous: string,
                       start: int, clock: int, now: int)
    requires windowSec > 0 && 0 <= clock <= now && start == Start(now, windowSec * 1000) && key != previous
    requires SoundCounter(full, key, start, Reach(a, windowSec)) && Shadows(d, full, key, clock)
    requires SoundCounter(full, previous, start - windowSec * 1000, Reach(a, windowSec)) && Shadows(d, full, previous, clock)
    ensures var (r, d') := WindowOn(a, d, key, previous, windowSec, limit, now);
            var (q, full') := WindowOn(a, full, key, previous, windowSec, limit, now);
            r == q && SoundCounter(full', key, start, Reach(a, windowSec)) && SameWrite(d, d', full, full', key)
  {
    if a.FixedWindow? {
      FixedWindowShadowed(windowSec, limit, d, full, key, start, clock, now);
    } else {
      SlidingWindowCounterShadowed(windowSec, limit, d, full, key, previous, start, clock, now);
    }
  }

  lemma WindowKeeps(r: Request, d: Data, full: Data, clock: int)
    requires r.client.algorithm.Windowed() && ':' !in r.client.policy
    requires Sound(r.client, r.params, full, clock) && ShadowsAll(r.client, d, full, clock) && 0 <= clock <= r.now
    ensures Keeps(r, d, full)
  {
    var Client(a, p, c) := r.client;
    var read := ReadWindow(r.params);
    var d', full' := ServeRequest(d, r).1, ServeRequest(full, r).1;
    if read.Ok? && read.value.0 > 0 {
      var windowSec, limit := read.value.0, read.value.1;
      var start := Start(r.now, windowSec * 1000);
      var key, previous := WindowKey(a, p, c, start), WindowKey(a, p, c, start - windowSec * 1000);
      assert Shadows(d, full, key, clock) && Shadows(d, full, previous, clock) by {
        assert OwnsKey(r.client, key) && OwnsKey(r.client, previous);
      }
      WindowKeysDiffer(a, p, c, start, start - windowSec * 1000);
      ServesWindow(a, d, p, c, r.now, r.params, windowSec, limit, start, key, previous);
      ServesWindow(a, full, p, c, r.now, r.params, windowSec, limit, start, key, previous);
      WindowShadowed(a, windowSec, limit, d, full, key, previous, start, clock, r.now);
      OtherWindowsSound(r.client, full, full', start, windowSec, Reach(a, windowSec));
      SameWriteShadows(r.client, d, d', full, full', key, clock, r.now);
    } else {
      SameWriteShadows(r.client, d, d', full, full', "", clock, r.now);
    }
  }

  lemma RequestKeeps(r: Request, d: Data, full: Data, clock: int)
    requires ':' !in r.client.policy && 0 <= clock <= r.now
    requires Sound(r.client, r.params, full, clock) && ShadowsAll(r.client, d, full, clock)
    ensures Keeps(r, d, full)
  {
    match r.client.algorithm
    case FixedWindow => WindowKeeps(r, d, full, clock);
    case SlidingWindowCounter => WindowKeeps(r, d, full, clock);
    case SlidingLog => LogKeeps(r, d, full, clock);
    case TokenBucket => BucketsKeep(r, d, full, clock);
    case LeakyBucket => BucketsKeep(r, d, full, clock);
  }

  /** A reset of another policy spares the client. */
  ghost predicate SparedBy(c: Client, policy: string) {
    PlainId(c.policy) && (policy == c.policy || Reset.Spared(c.algorithm, c.name, policy))
  }

  /** Other clients' requests, expiring keys and other policies' resets do not disturb a client's shadow. */
  lemma OtherEventKeeps(c: Client, d: Data, full: Data, e: Event, clock: int)
    requires ':' !in c.policy && ShadowsAll(c, d, full, clock) && clock <= Now(e) && Legal(d, e)
    requires e.Call? ==> e.r.client != c && ':' !in e.r.client.policy
    requires e.Purge? ==> PlainId(e.policy) && e.policy != c.policy && SparedBy(c, e.policy)
    ensures ShadowsAll(c, Next(d, e), full, Now(e))
  {
    if e.Call? {
      OthersInvisible(c, d, e.r);
    }
    if e.Purge? {
      forall k | OwnsKey(c, k) ensures Shadows(Next(d, e), full, k, Now(e)) {
        Reset.ResetDeletesIff(c.algorithm, c.policy, c.name, e.policy, k);
      }
    }
  }

  /** Its own policy's reset leaves a client nothing. */
  lemma OwnPurgeForgets(c: Client, params: Params, d: Data, clock: int)
    requires PlainId(c.policy)
    ensures ShadowsAll(c, Without(d, ResetPattern(c.policy)), map[], clock)
    ensures Sound(c, params, map[], clock)
  {
    forall k | OwnsKey(c, k) ensures k !in Without(d, ResetPattern(c.policy)) {
      Reset.ResetDeletesIff(c.algorithm, c.policy, c.name, c.policy, k);
    }
  }

  lemma TimeKeepsSound(c: Client, params: Params, full: Data, clock: int, now: int)
    requires Sound(c, params, full, clock) && clock <= now
    ensures Sound(c, params, full, now)
  {
  }

  /** Every request of the client in the run carries these parameters, and resets of other policies spare it. */
  ghost predicate Fixed(c: Client, params: Params, events: seq<Event>) {
    forall e :: e in events ==>
      (e.Call? && e.r.client == c ==> e.r.params == params) && (e.Purge? ==> SparedBy(c, e.policy))
  }

  lemma {:induction false} RunShadowed(c: Client, params: Params, events: seq<Event>)
    requires ':' !in c.policy && LegalRun(events) && Fixed(c, params, events)
    ensures 0 <= Clock(events)
    ensures Sound(c, params, After(map[], Own(c, events)), Clock(events))
    ensures ShadowsAll(c, StoreAfter(events), After(map[], Own(c, events)), Clock(events))
  {
    if events != [] {
      var front, e := events[..|events| - 1], events[|events| - 1];
      assert forall x :: x in front ==> x in events;
      RunShadowed(c, params, front);
      var own, clock := Own(c, front), Clock(front);
      if e.Call? && e.r.client == c {
        assert e in events;
        RequestKeeps(e.r, StoreAfter(front), After(map[], own), clock);
        assert (own + [e.r])[..|own|] == own;
      } else if e == Purge(c.policy, Now(e)) {
        assert e in events;
        OwnPurgeForgets(c, params, StoreAfter(front), Now(e));
      } else {
        assert e in events;
        OtherEventKeeps(c, StoreAfter(front), After(map[], own), e, clock);
        TimeKeepsSound(c, params, After(map[], own), clock, Now(e));
      }
    }
  }

  /**
   * Expiry, other clients and other policies' resets are invisible, and a reset of the client's policy is complete:
   * after any legal run, a request is answered as it would be by a store that never expires a key and has served
   * only the same client's requests since that reset.
   */
  lemma AnsweredAsIfAlone(events: seq<Event>, r: Request)
    requires ':' !in r.client.policy && LegalRun(events) && Fixed(r.client, r.params, events) && Clock(events) <= r.now
    ensures ServeRequest(StoreAfter(events), r).0 == ServeRequest(After(map[], Own(r.client, events)), r).0
  {
    RunShadowed(r.client, r.params, events);
    RequestKeeps(r, StoreAfter(events), After(map[], Own(r.client, events)), Clock(events));
  }

  /** So runs that differ only in what vanished, in other traffic, and in what preceded a reset answer the client alike. */
  lemma ExpiryIsInvisible(events: seq<Event>, events': seq<Event>, r: Request)
    requires ':' !in r.client.policy && LegalRun(events) && LegalRun(events')
    requires Fixed(r.client, r.params, events) && Fixed(r.client, r.params, events')
    requires Clock(events) <= r.now && Clock(events') <= r.now
    requires Own(r.client, events) == Own(r.client, events')
    ensures ServeRequest(StoreAfter(events), r).0 == ServeRequest(StoreAfter(events'), r).0
  {
    AnsweredAsIfAlone(events, r);
    AnsweredAsIfAlone(events', r);
  }
}
