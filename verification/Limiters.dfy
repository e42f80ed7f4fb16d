/** The five limiters (the limiter package): parameter reading, key names, TTLs and decisions over the store. */
module Limiters {
  import opened Arithmetic
  import opened Basics
  import opened Keys
  import opened RedisStore
  import opened Windows
  import FixedWindow
  import LeakyBucket
  import Remaining
  import SlidingLog
  import SlidingWindowCounter
  import TokenBucket

  /** A dynamically typed parameter: numbers decoded from JSON are Float. */
  datatype Any = Float(r: real) | Int(n: int) | Int64(m: int) | NotNumeric

  type Params = map<string, Any>

  datatype Decision = Decision(allowed: bool, reason: Option<string>, remaining: int, retryAfter: Option<int>)

  type Outcome = Result<Decision, Error>

  function Decide(allowed: bool, remaining: int, retryAfter: int): Decision {
    if allowed then Decision(true, None, remaining, None)
    else Decision(false, Some("rate_limit_exceeded"), 0, Some(retryAfter))
  }

  // ---------- reading parameters ----------

  function ReadPositiveInt(params: Params, key: string): (r: Result<int, Error>)
    ensures r.Ok? ==> r.value >= 0
  {
    if key !in params then Err(MissingField)
    else match params[key]
      case Float(r) => if r <= 0.0 then Err(NotPositive) else Ok(Truncate(r))
      case Int(n) => if n <= 0 then Err(NotPositive) else Ok(n)
      case _ => Err(Error.NotNumeric)
  }

  function ReadPositiveFloat(params: Params, key: string): (r: Result<real, Error>)
    ensures r.Ok? ==> r.value > 0.0
  {
    if key !in params then Err(MissingField)
    else match params[key]
      case Float(r) => if r <= 0.0 then Err(NotPositive) else Ok(r)
      case Int(n) => if n <= 0 then Err(NotPositive) else Ok(n as real)
      case _ => Err(Error.NotNumeric)
  }

  /** Window length in seconds and the limit. */
  function ReadWindow(params: Params): (r: Result<(int, int), Error>)
    ensures r.Ok? ==> r.value.0 >= 0 && r.value.1 >= 0
  {
    match ReadPositiveInt(params, "window_size_sec")
    case Err(e) => Err(e)
    case Ok(window) =>
      match ReadPositiveInt(params, "limit")
      case Err(e) => Err(e)
      case Ok(limit) => Ok((window, limit))
  }

  function ReadBucket(params: Params, rateField: string, costField: string): (r: Result<Config, Error>)
    ensures r.Ok? ==> r.value.rate > 0.0
  {
    match ReadPositiveInt(params, "capacity")
    case Err(e) => Err(e)
    case Ok(capacity) =>
      match ReadPositiveFloat(params, rateField)
      case Err(e) => Err(e)
      case Ok(rate) =>
        var cost := if costField in params then ReadPositiveInt(params, costField) else Ok(1);
        match cost
        case Err(e) => Err(e)
        case Ok(cost) => Ok(TokenBucket.Config(capacity, rate, cost))
  }

  // ---------- what the fields mean ----------

  /** The field holds a positive number with whole part z. */
  predicate HoldsWhole(params: Params, key: string, z: int) {
    key in params &&
    match params[key]
    case Float(r) => r > 0.0 && z as real <= r < z as real + 1.0
    case Int(n) => n > 0 && n == z
    case _ => false
  }

  /** The field holds the positive number x. */
  predicate HoldsNumber(params: Params, key: string, x: real) {
    key in params && x > 0.0 && (params[key] == Float(x) || (params[key].Int? && params[key].n as real == x))
  }

  predicate WindowParams(params: Params, windowSec: int, limit: int) {
    HoldsWhole(params, "window_size_sec", windowSec) && HoldsWhole(params, "limit", limit)
  }

  predicate TokenParams(params: Params, c: Config) {
    && HoldsWhole(params, "capacity", c.capacity) && HoldsNumber(params, "refill_rate_per_sec", c.rate)
    && (if "tokens_per_request" in params then HoldsWhole(params, "tokens_per_request", c.cost) else c.cost == 1)
  }

  predicate LeakParams(params: Params, c: Config) {
    && HoldsWhole(params, "capacity", c.capacity) && HoldsNumber(params, "leak_rate_per_sec", c.rate)
    && (if "water_per_request" in params then HoldsWhole(params, "water_per_request", c.cost) else c.cost == 1)
  }

  lemma ReadsWhole(params: Params, key: string, z: int)
    ensures ReadPositiveInt(params, key) == Ok(z) <==> HoldsWhole(params, key, z)
  {
  }

  lemma ReadsNumber(params: Params, key: string, x: real)
    ensures ReadPositiveFloat(params, key) == Ok(x) <==> HoldsNumber(params, key, x)
  {
  }

  /** Each parameter is read from its own field. */
  lemma ReadsWindow(params: Params, windowSec: int, limit: int)
    ensures ReadWindow(params) == Ok((windowSec, limit)) <==> WindowParams(params, windowSec, limit)
  {
    ReadsWhole(params, "window_size_sec", windowSec);
    ReadsWhole(params, "limit", limit);
  }

  lemma ReadsTokenBucket(params: Params, c: Config)
    ensures ReadBucket(params, "refill_rate_per_sec", "tokens_per_request") == Ok(c) <==> TokenParams(params, c)
  {
    ReadsWhole(params, "capacity", c.capacity);
    ReadsNumber(params, "refill_rate_per_sec", c.rate);
    ReadsWhole(params, "tokens_per_request", c.cost);
  }

  lemma ReadsLeakyBucket(params: Params, c: Config)
    ensures ReadBucket(params, "leak_rate_per_sec", "water_per_request") == Ok(c) <==> LeakParams(params, c)
  {
    ReadsWhole(params, "capacity", c.capacity);
    ReadsNumber(params, "leak_rate_per_sec", c.rate);
    ReadsWhole(params, "water_per_request", c.cost);
  }

  /** What is wrong with a required field, if anything. */
  function Complaint(params: Params, key: string): Option<Error> {
    if key !in params then Some(MissingField)
    else if params[key].NotNumeric? || params[key].Int64? then Some(Error.NotNumeric)
    else if (params[key].Float? && params[key].r > 0.0) || (params[key].Int? && params[key].n > 0) then None
    else Some(NotPositive)
  }

  /** Of two complaints the first is reported. */
  function First(a: Option<Error>, b: Option<Error>): Option<Error> { if a.Some? then a else b }

  predicate Refuses<T>(r: Result<T, Error>, complaint: Option<Error>) {
    if complaint.Some? then r == Err(complaint.value) else r.Ok?
  }

  /** Reading fails exactly on a missing, non-numeric or non-positive field, and reports the first. */
  lemma RefusesFields(params: Params, rateField: string, costField: string)
    ensures Refuses(ReadWindow(params), First(Complaint(params, "window_size_sec"), Complaint(params, "limit")))
    ensures Refuses(ReadBucket(params, rateField, costField),
                    First(Complaint(params, "capacity"),
                          First(Complaint(params, rateField), if costField in params then Complaint(params, costField) else None)))
  {
  }

  /** Seconds a bucket needs to refill or drain completely, and one more. */
  function BucketTtl(capacity: int, rate: real): int
    requires rate > 0.0
  {
    Max(Ceil(capacity as real / rate) + 1, 2)
  }

  /** One second more than the least whole number of seconds that refills the bucket; the clamp to 2 never binds. */
  lemma BucketTtlIsLeast(capacity: int, rate: real, seconds: int)
    requires capacity > 0 && rate > 0.0
    ensures TokenBucket.Refill(rate, seconds * 1000) >= capacity as real <==> seconds >= BucketTtl(capacity, rate) - 1
    ensures BucketTtl(capacity, rate) >= 2
  {
    var x := capacity as real / rate;
    assert x * rate == capacity as real && x > 0.0;
    RefillOfSeconds(rate, seconds);
    if seconds as real >= x {
      ScaleAtMost(x, seconds as real, rate);
    } else {
      ScaleLess(seconds as real, x, rate);
    }
    assert BucketTtl(capacity, rate) == Ceil(x) + 1;
  }

  lemma RefillOfSeconds(rate: real, seconds: int)
    ensures TokenBucket.Refill(rate, seconds * 1000) == seconds as real * rate
  {
    assert (seconds * 1000) as real == seconds as real * 1000.0;
  }

  // ---------- decisions ----------

  function FixedWindowDecision(window: int, limit: int, count: int, now: int): Decision
    requires window > 0
  {
    var v := FixedWindow.Judge(window, limit, count, now);
    Decide(v.allowed, v.remaining, v.retryAfter)
  }

  function SlidingWindowCounterDecision(window: int, limit: int, current: int, previous: int, now: int): Decision
    requires window > 0
  {
    var v := SlidingWindowCounter.Judge(window, limit, current, previous, now);
    Decide(v.allowed, v.remaining, v.retryAfter)
  }

  function SlidingLogDecision(window: int, limit: int, log: seq<int>, now: int): Decision
    requires limit > 0
  {
    var v := SlidingLog.Step(window, limit, log, now).0;
    Decide(v.allowed, v.remaining, v.retryAfter)
  }

  function TokenBucketDecision(c: Config, b: Option<Bucket>, now: int): Decision
    requires c.Valid()
  {
    var (v, after) := TokenBucket.Step(c, b, now);
    Decide(v.allowed, Remaining.TokenRemaining(Truncate(after.level), c.cost), v.retryAfter)
  }

  function LeakyBucketDecision(c: Config, b: Option<Bucket>, now: int): Decision
    requires c.Valid()
  {
    var (v, after) := LeakyBucket.LeakStep(c, b, now);
    Decide(v.allowed, Remaining.LeakRemaining(c.capacity, Truncate(after.level), c.cost), v.retryAfter)
  }

  // ---------- what one request does to the keys it uses ----------

  function FixedWindowOn(data: Data, key: string, windowSec: int, limit: int, now: int): (Outcome, Data)
    requires windowSec > 0
  {
    if !HoldsCounter(data, key) then (Err(WrongType), data)
    else
      var count := CounterAt(data, key) + 1;
      var deadline := if count == 1 then Some(now + (windowSec + 1) * 1000) else DeadlineAt(data, key);
      (Ok(FixedWindowDecision(windowSec * 1000, limit, count, now)), data[key := Entry(Counter(count), deadline)])
  }

  function SlidingLogOn(data: Data, key: string, windowSec: int, limit: int, now: int): (Outcome, Data) {
    if windowSec <= 0 || limit <= 0 then (Err(InvalidArgs), data)
    else if !HoldsLog(data, key) then (Err(WrongType), data)
    else
      var log := SlidingLog.Step(windowSec * 1000, limit, LogAt(data, key), now).1;
      (Ok(SlidingLogDecision(windowSec * 1000, limit, LogAt(data, key), now)),
       data[key := Entry(ScoreLog(log), Some(now + (windowSec + 1) * 1000))])
  }

  function SlidingWindowCounterOn(data: Data, current: string, previous: string, windowSec: int, limit: int, now: int)
    : (Outcome, Data)
    requires windowSec > 0
  {
    if !HoldsCounter(data, current) then (Err(WrongType), data)
    else
      var count := CounterAt(data, current) + 1;
      var after := data[current := Entry(Counter(count), Some(now + (windowSec * 2 + 1) * 1000))];
      if !HoldsCounter(after, previous) then (Err(WrongType), after)
      else (Ok(SlidingWindowCounterDecision(windowSec * 1000, limit, count, CounterAt(after, previous), now)), after)
  }

  function TokenBucketOn(data: Data, key: string, c: Config, now: int): (Outcome, Data)
    requires c.rate > 0.0
  {
    if !c.Valid() then (Err(InvalidArgs), data)
    else if !HoldsTokens(data, key) then (Err(WrongType), data)
    else
      var after := TokenBucket.Step(c, TokensAt(data, key), now).1;
      (Ok(TokenBucketDecision(c, TokensAt(data, key), now)),
       data[key := Entry(TokenHash(after.level, after.last), Some(now + BucketTtl(c.capacity, c.rate) * 1000))])
  }

  function LeakyBucketOn(data: Data, key: string, c: Config, now: int): (Outcome, Data)
    requires c.rate > 0.0
  {
    if !c.Valid() then (Err(InvalidArgs), data)
    else if !HoldsWater(data, key) then (Err(WrongType), data)
    else
      var after := LeakyBucket.LeakStep(c, WaterAt(data, key), now).1;
      (Ok(LeakyBucketDecision(c, WaterAt(data, key), now)),
       data[key := Entry(WaterHash(after.level, after.last), Some(now + BucketTtl(c.capacity, c.rate) * 1000))])
  }

  function SlidingWindowCounterAt(data: Data, policy: string, client: string, start: int, windowSec: int, limit: int, now: int)
    : (Outcome, Data)
    requires windowSec > 0
  {
    SlidingWindowCounterOn(data, WindowKey(Algorithm.SlidingWindowCounter, policy, client, start),
                           WindowKey(Algorithm.SlidingWindowCounter, policy, client, start - windowSec * 1000), windowSec, limit, now)
  }

  /** One request of one client, as the limiter of the policy's algorithm serves it. */
  function Serve(a: Algorithm, data: Data, policy: string, client: string, now: int, params: Params): (Outcome, Data) {
    match a
    case FixedWindow => (
      match ReadWindow(params)
      case Err(e) => (Err(e), data)
      case Ok((windowSec, limit)) =>
        if windowSec == 0 then (Err(DivideByZero), data)
        else FixedWindowOn(data, WindowKey(a, policy, client, Start(now, windowSec * 1000)), windowSec, limit, now)
    )
    case SlidingLog => (
      match ReadWindow(params)
      case Err(e) => (Err(e), data)
      case Ok((windowSec, limit)) => SlidingLogOn(data, ClientKey(a, policy, client), windowSec, limit, now)
    )
    case SlidingWindowCounter => (
      match ReadWindow(params)
      case Err(e) => (Err(e), data)
      case Ok((windowSec, limit)) =>
        if windowSec == 0 then (Err(DivideByZero), data)
        else SlidingWindowCounterAt(data, policy, client, Start(now, windowSec * 1000), windowSec, limit, now)
    )
    case TokenBucket => (
      match ReadBucket(params, "refill_rate_per_sec", "tokens_per_request")
      case Err(e) => (Err(e), data)
      case Ok(c) => TokenBucketOn(data, ClientKey(a, policy, client), c, now)
    )
    case LeakyBucket => (
      match ReadBucket(params, "leak_rate_per_sec", "water_per_request")
      case Err(e) => (Err(e), data)
      case Ok(c) => LeakyBucketOn(data, ClientKey(a, policy, client), c, now)
    )
  }

  /** Once the parameters are read, a window limiter works on its window's keys. */
  lemma ServesFixedWindow(data: Data, policy: string, client: string, now: int, params: Params, windowSec: int, limit: int)
    requires ReadWindow(params) == Ok((windowSec, limit)) && windowSec > 0
    ensures Serve(Algorithm.FixedWindow, data, policy, client, now, params)
         == FixedWindowOn(data, WindowKey(Algorithm.FixedWindow, policy, client, Start(now, windowSec * 1000)), windowSec, limit, now)
  {
  }

  lemma ServesSlidingWindowCounter(data: Data, policy: string, client: string, now: int, params: Params, windowSec: int, limit: int)
    requires ReadWindow(params) == Ok((windowSec, limit)) && windowSec > 0
    ensures Serve(Algorithm.SlidingWindowCounter, data, policy, client, now, params)
         == SlidingWindowCounterOn(
              data, WindowKey(Algorithm.SlidingWindowCounter, policy, client, Start(now, windowSec * 1000)),
              WindowKey(Algorithm.SlidingWindowCounter, policy, client, Start(now, windowSec * 1000) - windowSec * 1000),
              windowSec, limit, now)
  {
  }

  /** The keys of a window and of the one before it. */
  ghost predicate WindowKeys(a: Algorithm, policy: string, client: string, now: int, windowSec: int,
                             start: int, key: string, previous: string)
    requires windowSec > 0
  {
    && start == Start(now, windowSec * 1000) && key == WindowKey(a, policy, client, start)
    && previous == WindowKey(a, policy, client, start - windowSec * 1000)
  }

  lemma ServesWindow(a: Algorithm, data: Data, policy: string, client: string, now: int, params: Params,
                     windowSec: int, limit: int, start: int, key: string, previous: string)
    requires a.Windowed() && ReadWindow(params) == Ok((windowSec, limit)) && windowSec > 0
    requires WindowKeys(a, policy, client, now, windowSec, start, key, previous)
    ensures Serve(a, data, policy, client, now, params) == WindowOn(a, data, key, previous, windowSec, limit, now)
  {
    if a.FixedWindow? {
      ServesFixedWindow(data, policy, client, now, params, windowSec, limit);
    } else {
      ServesSlidingWindowCounter(data, policy, client, now, params, windowSec, limit);
    }
  }

  /** Either window limiter on its keys. */
  function WindowOn(a: Algorithm, data: Data, key: string, previous: string, windowSec: int, limit: int, now: int): (Outcome, Data)
    requires windowSec > 0
  {
    if a.FixedWindow? then FixedWindowOn(data, key, windowSec, limit, now)
    else SlidingWindowCounterOn(data, key, previous, windowSec, limit, now)
  }

  /** Parameters that were cut to 0 are refused, whatever the store holds. */
  lemma RefusesZeros(data: Data, policy: string, client: string, now: int, params: Params, windowSec: int, limit: int, c: Config)
    ensures WindowParams(params, windowSec, limit) && windowSec == 0 ==>
      && Serve(Algorithm.FixedWindow, data, policy, client, now, params) == (Err(DivideByZero), data)
      && Serve(Algorithm.SlidingWindowCounter, data, policy, client, now, params) == (Err(DivideByZero), data)
    ensures WindowParams(params, windowSec, limit) && (windowSec == 0 || limit == 0) ==>
      Serve(Algorithm.SlidingLog, data, policy, client, now, params) == (Err(InvalidArgs), data)
    ensures TokenParams(params, c) && (c.capacity == 0 || c.cost == 0) ==>
      Serve(Algorithm.TokenBucket, data, policy, client, now, params) == (Err(InvalidArgs), data)
    ensures LeakParams(params, c) && (c.capacity == 0 || c.cost == 0) ==>
      Serve(Algorithm.LeakyBucket, data, policy, client, now, params) == (Err(InvalidArgs), data)
  {
    ReadsWindow(params, windowSec, limit);
    ReadsTokenBucket(params, c);
    ReadsLeakyBucket(params, c);
  }

  /** The deadline under a key is so many milliseconds after `now`. */
  predicate ExpiresIn(data: Data, key: string, now: int, span: int) {
    key in data && data[key].deadline == Some(now + span)
  }

  /** A served request renews its key's TTL; only the fixed window sets it once, when the counter is new. */
  lemma LogDeadline(data: Data, policy: string, client: string, now: int, params: Params, windowSec: int, limit: int)
    requires WindowParams(params, windowSec, limit)
    ensures var (r, after) := Serve(Algorithm.SlidingLog, data, policy, client, now, params);
            r.Ok? ==> ExpiresIn(after, ClientKey(Algorithm.SlidingLog, policy, client), now, (windowSec + 1) * 1000)
  {
    ReadsWindow(params, windowSec, limit);
  }

  lemma SlidingWindowCounterDeadline(data: Data, policy: string, client: string, now: int, params: Params, windowSec: int, limit: int,
                                     key: string)
    requires WindowParams(params, windowSec, limit) && windowSec > 0
    requires key == WindowKey(Algorithm.SlidingWindowCounter, policy, client, Start(now, windowSec * 1000))
    ensures var (r, after) := Serve(Algorithm.SlidingWindowCounter, data, policy, client, now, params);
            r.Ok? ==> ExpiresIn(after, key, now, (2 * windowSec + 1) * 1000)
  {
    ReadsWindow(params, windowSec, limit);
    ServesSlidingWindowCounter(data, policy, client, now, params, windowSec, limit);
  }

  lemma FixedWindowDeadline(data: Data, policy: string, client: string, now: int, params: Params, windowSec: int, limit: int,
                            key: string)
    requires WindowParams(params, windowSec, limit) && windowSec > 0
    requires key == WindowKey(Algorithm.FixedWindow, policy, client, Start(now, windowSec * 1000))
    ensures var (r, after) := Serve(Algorithm.FixedWindow, data, policy, client, now, params);
            r.Ok? ==> if key !in data || CounterAt(data, key) == 0 then ExpiresIn(after, key, now, (windowSec + 1) * 1000)
                      else key in after && after[key].deadline == data[key].deadline
  {
    ReadsWindow(params, windowSec, limit);
    ServesFixedWindow(data, policy, client, now, params, windowSec, limit);
  }

  lemma BucketDeadlines(data: Data, policy: string, client: string, now: int, params: Params, c: Config)
    ensures var (r, after) := Serve(Algorithm.TokenBucket, data, policy, client, now, params);
            TokenParams(params, c) && r.Ok? ==>
              ExpiresIn(after, ClientKey(Algorithm.TokenBucket, policy, client), now, BucketTtl(c.capacity, c.rate) * 1000)
    ensures var (r, after) := Serve(Algorithm.LeakyBucket, data, policy, client, now, params);
            LeakParams(params, c) && r.Ok? ==>
              ExpiresIn(after, ClientKey(Algorithm.LeakyBucket, policy, client), now, BucketTtl(c.capacity, c.rate) * 1000)
  {
    ReadsTokenBucket(params, c);
    ReadsLeakyBucket(params, c);
  }

  // ---------- the limiters ----------

  method AllowFixedWindow(store: Store, policy: string, client: string, now: int, params: Params) returns (r: Outcome)
    modifies store
    ensures (r, store.data) == Serve(Algorithm.FixedWindow, old(store.data), policy, client, now, params)
  {
    var windowSec := ReadPositiveInt(params, "window_size_sec");
    if windowSec.Err? {
      return Err(windowSec.error);
    }
    var limit := ReadPositiveInt(params, "limit");
    if limit.Err? {
      return Err(limit.error);
    }
    var window := windowSec.value * 1000;
    if window == 0 {
      return Err(DivideByZero);
    }
    var start := Start(now, window);
    var key := WindowKey(Algorithm.FixedWindow, policy, client, start);
    ServesFixedWindow(store.data, policy, client, now, params, windowSec.value, limit.value);
    r := CountInWindow(store, key, windowSec.value, limit.value, start, now);
  }

  /** The rest of Allow, once its window and key are known. */
  method CountInWindow(store: Store, key: string, windowSec: int, limit: int, start: int, now: int) returns (r: Outcome)
    requires windowSec > 0 && start == Start(now, windowSec * 1000)
    modifies store
    ensures (r, store.data) == FixedWindowOn(old(store.data), key, windowSec, limit, now)
  {
    var window := windowSec * 1000;
    var count := store.Incr(key);
    if count.Err? {
      return Err(count.error);
    }
    if count.value == 1 {
      var _ := store.Expire(key, windowSec + 1, now);  // a positive TTL passes the adapter's guard
    }
    assert store.data == FixedWindowOn(old(store.data), key, windowSec, limit, now).1;
    var remaining := limit - count.value;
    if count.value <= limit {
      if remaining < 0 {
        remaining := 0;
      }
      return Ok(Decision(true, None, remaining, None));
    }
    var retryAfter := start + window - now;
    if retryAfter < 1 {
      retryAfter := 1;
    }
    assert FixedWindow.Judge(window, limit, count.value, now) == FixedWindow.Verdict(false, 0, retryAfter);
    return Ok(Decision(false, Some("rate_limit_exceeded"), 0, Some(retryAfter)));
  }

  method AllowSlidingLog(store: Store, policy: string, client: string, now: int, params: Params) returns (r: Outcome)
    modifies store
    ensures (r, store.data) == Serve(Algorithm.SlidingLog, old(store.data), policy, client, now, params)
  {
    var windowSec := ReadPositiveInt(params, "window_size_sec");
    if windowSec.Err? {
      return Err(windowSec.error);
    }
    var limit := ReadPositiveInt(params, "limit");
    if limit.Err? {
      return Err(limit.error);
    }
    var key := ClientKey(Algorithm.SlidingLog, policy, client);
    var result := store.EvalSlidingLog(key, now, windowSec.value, limit.value);
    if result.Err? {
      return Err(result.error);
    }
    var reply := result.value;
    var decision := Decision(reply.allowed, None, reply.remaining, None);
    if !reply.allowed {
      decision := decision.(reason := Some("rate_limit_exceeded"), retryAfter := Some(reply.retryAfter));
    }
    return Ok(decision);
  }

  method AllowSlidingWindowCounter(store: Store, policy: string, client: string, now: int, params: Params)
    returns (r: Outcome)
    modifies store
    ensures (r, store.data) == Serve(Algorithm.SlidingWindowCounter, old(store.data), policy, client, now, params)
  {
    var windowSec := ReadPositiveInt(params, "window_size_sec");
    if windowSec.Err? {
      return Err(windowSec.error);
    }
    var limit := ReadPositiveInt(params, "limit");
    if limit.Err? {
      return Err(limit.error);
    }
    assert ReadWindow(params) == Ok((windowSec.value, limit.value));
    var window := windowSec.value * 1000;
    if window == 0 {
      return Err(DivideByZero);
    }
    var start := Start(now, window);
    var currentKey := WindowKey(Algorithm.SlidingWindowCounter, policy, client, start);
    var previousKey := WindowKey(Algorithm.SlidingWindowCounter, policy, client, start - window);
    ServesWindow(Algorithm.SlidingWindowCounter, store.data, policy, client, now, params, windowSec.value, limit.value,
                 start, currentKey, previousKey);
    r := EstimateInWindow(store, currentKey, previousKey, windowSec.value, limit.value, start, now);
  }

  /** The rest of Allow, once its window and keys are known. */
  method EstimateInWindow(store: Store, currentKey: string, previousKey: string, windowSec: int, limit: int, start: int, now: int)
    returns (r: Outcome)
    requires windowSec > 0 && start == Start(now, windowSec * 1000)
    modifies store
    ensures (r, store.data) == SlidingWindowCounterOn(old(store.data), currentKey, previousKey, windowSec, limit, now)
  {
    var window := windowSec * 1000;
    var result := store.EvalSlidingWindowCounter(currentKey, previousKey, windowSec * 2 + 1, now);
    if result.Err? {
      return Err(result.error);
    }
    assert store.data == SlidingWindowCounterOn(old(store.data), currentKey, previousKey, windowSec, limit, now).1;
    var decision := WeighCounts(window, limit, result.value.current, result.value.previous, start, now);
    return Ok(decision);
  }

  method WeighCounts(window: int, limit: int, current: int, previous: int, start: int, now: int) returns (d: Decision)
    requires window > 0 && start == Start(now, window)
    ensures d == SlidingWindowCounterDecision(window, limit, current, previous, now)
  {
    var elapsed := now - start;
    var previousWeight := (window - elapsed) as real / window as real;
    if previousWeight < 0.0 {
      previousWeight := 0.0;
    }
    if previousWeight > 1.0 {
      previousWeight := 1.0;
    }
    assert previousWeight == SlidingWindowCounter.Weight(window, elapsed);
    var estimate := current as real + previous as real * previousWeight;
    assert estimate == SlidingWindowCounter.Estimate(window, current, previous, now - Start(now, window));
    var remaining := (limit as real - estimate).Floor;
    if remaining < 0 {
      remaining := 0;
    }
    if estimate < limit as real {
      return Decision(true, None, remaining, None);
    }
    var retryAfter := start + window - now;
    if retryAfter < 1 {
      retryAfter := 1;
    }
    return Decision(false, Some("rate_limit_exceeded"), 0, Some(retryAfter));
  }

  method AllowTokenBucket(store: Store, policy: string, client: string, now: int, params: Params) returns (r: Outcome)
    modifies store
    ensures (r, store.data) == Serve(Algorithm.TokenBucket, old(store.data), policy, client, now, params)
  {
    var config := ReadBucket(params, "refill_rate_per_sec", "tokens_per_request");
    if config.Err? {
      return Err(config.error);
    }
    var c := config.value;
    var key := ClientKey(Algorithm.TokenBucket, policy, client);
    var ttlSec := Ceil(c.capacity as real / c.rate) + 1;
    if ttlSec < 2 {
      ttlSec := 2;
    }
    var result := store.EvalTokenBucket(key, now, c, ttlSec);
    if result.Err? {
      return Err(result.error);
    }
    var remaining := (result.value.level as real / c.cost as real).Floor;
    if remaining < 0 {
      remaining := 0;
    }
    if result.value.allowed {
      return Ok(Decision(true, None, remaining, None));
    }
    return Ok(Decision(false, Some("rate_limit_exceeded"), 0, Some(result.value.retryAfter)));
  }

  method AllowLeakyBucket(store: Store, policy: string, client: string, now: int, params: Params) returns (r: Outcome)
    modifies store
    ensures (r, store.data) == Serve(Algorithm.LeakyBucket, old(store.data), policy, client, now, params)
  {
    var config := ReadBucket(params, "leak_rate_per_sec", "water_per_request");
    if config.Err? {
      return Err(config.error);
    }
    var c := config.value;
    var key := ClientKey(Algorithm.LeakyBucket, policy, client);
    var ttlSec := Ceil(c.capacity as real / c.rate) + 1;
    if ttlSec < 2 {
      ttlSec := 2;
    }
    var result := store.EvalLeakyBucket(key, now, c, ttlSec);
    if result.Err? {
      return Err(result.error);
    }
    var headroom := c.capacity - result.value.level;
    if headroom < 0 {
      headroom := 0;
    }
    var remaining := (headroom as real / c.cost as real).Floor;
    if remaining < 0 {
      remaining := 0;
    }
    if result.value.allowed {
      return Ok(Decision(true, None, remaining, None));
    }
    return Ok(Decision(false, Some("rate_limit_exceeded"), 0, Some(result.value.retryAfter)));
  }

  /** The limiter for an algorithm name (factory.go). */
  function BuildLimiter(name: string): (r: Result<Algorithm, Error>)
    ensures r.Ok? ==> r.value.Name() == name
    ensures r.Err? ==> r.error == UnsupportedAlgorithm && forall a: Algorithm :: a.Name() != name
  {
    match name
    case "fixed_window" => Ok(Algorithm.FixedWindow)
    case "sliding_log" => Ok(Algorithm.SlidingLog)
    case "sliding_window_counter" => Ok(Algorithm.SlidingWindowCounter)
    case "token_bucket" => Ok(Algorithm.TokenBucket)
    case "leaky_bucket" => Ok(Algorithm.LeakyBucket)
    case _ => Err(UnsupportedAlgorithm)
  }

  /** Which name stands for which limiter. */
  lemma LimiterNames(name: string)
    ensures BuildLimiter(name) == Ok(Algorithm.FixedWindow) <==> name == "fixed_window"
    ensures BuildLimiter(name) == Ok(Algorithm.SlidingLog) <==> name == "sliding_log"
    ensures BuildLimiter(name) == Ok(Algorithm.SlidingWindowCounter) <==> name == "sliding_window_counter"
    ensures BuildLimiter(name) == Ok(Algorithm.TokenBucket) <==> name == "token_bucket"
    ensures BuildLimiter(name) == Ok(Algorithm.LeakyBucket) <==> name == "leaky_bucket"
  {
  }

  method Allow(a: Algorithm, store: Store, policy: string, client: string, now: int, params: Params) returns (r: Outcome)
    modifies store
    ensures (r, store.data) == Serve(a, old(store.data), policy, client, now, params)
  {
    match a
    case FixedWindow => r := AllowFixedWindow(store, policy, client, now, params);
    case SlidingLog => r := AllowSlidingLog(store, policy, client, now, params);
    case SlidingWindowCounter => r := AllowSlidingWindowCounter(store, policy, client, now, params);
    case TokenBucket => r := AllowTokenBucket(store, policy, client, now, params);
    case LeakyBucket => r := AllowLeakyBucket(store, policy, client, now, params);
  }
}
