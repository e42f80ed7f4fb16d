/** The Redis store (redis_store.go): its contents, and its commands and scripts as atomic updates. */
module RedisStore {
  import opened Basics
  import opened Keys
  import TokenBucket
  import LeakyBucket
  import SlidingLog

  type Bucket = TokenBucket.Bucket
  type Config = TokenBucket.Config

  datatype Value =
    | Counter(count: int)
    | TokenHash(tokens: real, lastRefill: int)
    | WaterHash(waterLevel: real, lastLeak: int)
    | ScoreLog(scores: seq<int>)

  /** A key's value and the moment its TTL runs out, if it has one; times are in milliseconds. */
  datatype Entry = Entry(value: Value, deadline: Option<int>)

  type Data = map<string, Entry>

  datatype Error =
    | MissingField | NotPositive | NotNumeric  // reading parameters
    | InvalidArgs                              // guards of the store methods
    | WrongType                                // a command on a key of another type
    | DivideByZero                             // Go panics on an integer division by zero
    | Unavailable                              // Redis failed
    | UnsupportedAlgorithm

  predicate HoldsCounter(data: Data, key: string) { key in data ==> data[key].value.Counter? }
  predicate HoldsTokens(data: Data, key: string) { key in data ==> data[key].value.TokenHash? }
  predicate HoldsWater(data: Data, key: string) { key in data ==> data[key].value.WaterHash? }
  predicate HoldsLog(data: Data, key: string) { key in data ==> data[key].value.ScoreLog? }

  function CounterAt(data: Data, key: string): int
    requires HoldsCounter(data, key)
  {
    if key in data then data[key].value.count else 0
  }

  function DeadlineAt(data: Data, key: string): Option<int> {
    if key in data then data[key].deadline else None
  }

  function TokensAt(data: Data, key: string): Option<Bucket>
    requires HoldsTokens(data, key)
  {
    if key in data then Some(TokenBucket.Bucket(data[key].value.tokens, data[key].value.lastRefill)) else None
  }

  function WaterAt(data: Data, key: string): Option<Bucket>
    requires HoldsWater(data, key)
  {
    if key in data then Some(TokenBucket.Bucket(data[key].value.waterLevel, data[key].value.lastLeak)) else None
  }

  function LogAt(data: Data, key: string): seq<int>
    requires HoldsLog(data, key)
  {
    if key in data then data[key].value.scores else []
  }

  /** What EXPIRE makes of the data; a missing key stays missing. */
  function WithDeadline(data: Data, key: string, deadline: int): Data {
    if key in data then data[key := data[key].(deadline := Some(deadline))] else data
  }

  /** The data without the keys that match a pattern. */
  function Without(data: Data, pattern: string): Data {
    map k | k in data && !Glob(pattern, k) :: data[k]
  }

  // ---------- deletion by SCAN, page by page ----------

  /** The data after n pages have been deleted, when other clients write traffic[i] after page i. */
  function Scanned(data: Data, pages: seq<set<string>>, traffic: seq<Data>, n: nat): Data
    requires n <= |pages| == |traffic|
  {
    if n == 0 then data else Scanned(data, pages, traffic, n - 1) - pages[n - 1] + traffic[n - 1]
  }

  /** The same traffic without the deletion. */
  function Written(data: Data, traffic: seq<Data>, n: nat): Data
    requires n <= |traffic|
  {
    if n == 0 then data else Written(data, traffic, n - 1) + traffic[n - 1]
  }

  ghost predicate Writes(traffic: seq<Data>, key: string) { exists i :: 0 <= i < |traffic| && key in traffic[i] }

  /** What SCAN promises: it returns matching keys only, and every one that was there from the start at least once. */
  ghost predicate FullScan(data: Data, pattern: string, pages: seq<set<string>>) {
    && (forall i, k :: 0 <= i < |pages| && k in pages[i] ==> Glob(pattern, k))
    && (forall k :: k in data && Glob(pattern, k) ==> exists i :: 0 <= i < |pages| && k in pages[i])
  }

  ghost predicate SameAt(d: Data, e: Data, key: string) {
    (key in d <==> key in e) && (key in d ==> d[key] == e[key])
  }

  lemma SameEverywhere(d: Data, e: Data)
    requires forall k :: SameAt(d, e, k)
    ensures d == e
  {
    forall k ensures k in d <==> k in e {
      assert SameAt(d, e, k);
    }
    forall k | k in d ensures d[k] == e[k] {
      assert SameAt(d, e, k);
    }
  }

  /** At any page, a key that does not match is as if nothing had been deleted. */
  lemma {:induction false} ScanSpares(data: Data, pattern: string, pages: seq<set<string>>, traffic: seq<Data>, n: nat, key: string)
    requires n <= |pages| == |traffic| && FullScan(data, pattern, pages) && !Glob(pattern, key)
    ensures SameAt(Scanned(data, pages, traffic, n), Written(data, traffic, n), key)
  {
    if n > 0 {
      ScanSpares(data, pattern, pages, traffic, n - 1, key);
    }
  }

  lemma {:induction false} ScanDrops(data: Data, pages: seq<set<string>>, traffic: seq<Data>, n: nat, key: string)
    requires n <= |pages| == |traffic| && !Writes(traffic, key)
    ensures key in Scanned(data, pages, traffic, n) <==> key in data && forall i :: 0 <= i < n ==> key !in pages[i]
  {
    if n > 0 {
      ScanDrops(data, pages, traffic, n - 1, key);
    }
  }

  /** After the last page, a matching key is left only if it was written meanwhile. */
  lemma ScanClears(data: Data, pattern: string, pages: seq<set<string>>, traffic: seq<Data>, key: string)
    requires |pages| == |traffic| && FullScan(data, pattern, pages) && Glob(pattern, key)
    requires key in Scanned(data, pages, traffic, |pages|)
    ensures Writes(traffic, key)
  {
    if !Writes(traffic, key) {
      ScanDrops(data, pages, traffic, |pages|, key);
      assert false;
    }
  }

  lemma {:induction false} WrittenQuietly(data: Data, traffic: seq<Data>, n: nat)
    requires n <= |traffic| && forall t :: t in traffic ==> t == map[]
    ensures Written(data, traffic, n) == data
  {
    if n > 0 {
      WrittenQuietly(data, traffic, n - 1);
      assert traffic[n - 1] in traffic;
    }
  }

  /** Without concurrent traffic, exactly the matching keys go. */
  lemma QuietScan(data: Data, pattern: string, pages: seq<set<string>>, traffic: seq<Data>)
    requires |pages| == |traffic| && FullScan(data, pattern, pages) && forall t :: t in traffic ==> t == map[]
    ensures Scanned(data, pages, traffic, |pages|) == Without(data, pattern)
  {
    WrittenQuietly(data, traffic, |pages|);
    assert forall i :: 0 <= i < |traffic| ==> traffic[i] in traffic;
    var after := Scanned(data, pages, traffic, |pages|);
    forall k ensures SameAt(after, Without(data, pattern), k) {
      if Glob(pattern, k) {
        if k in after {
          ScanClears(data, pattern, pages, traffic, k);
          assert false;
        }
      } else {
        ScanSpares(data, pattern, pages, traffic, |pages|, k);
      }
    }
    SameEverywhere(after, Without(data, pattern));
  }

  datatype LogReply = LogReply(allowed: bool, count: int, remaining: int, retryAfter: int, windowStart: int, windowSec: int)
  datatype CounterReply = CounterReply(current: int, previous: int)

  /** The level is a whole number: Redis truncates the numbers a script returns. */
  datatype BucketReply = BucketReply(allowed: bool, level: int, last: int, retryAfter: int)

  class Store {
    var data: Data

    constructor ()
      ensures data == map[]
    {
      data := map[];
    }

    method Incr(key: string) returns (r: Result<int, Error>)
      modifies this
      ensures !HoldsCounter(old(data), key) ==> r == Err(WrongType) && data == old(data)
      ensures HoldsCounter(old(data), key) ==>
        && r == Ok(CounterAt(old(data), key) + 1)
        && data == old(data)[key := Entry(Counter(CounterAt(old(data), key) + 1), DeadlineAt(old(data), key))]
    {
      if key !in data {
        data := data[key := Entry(Counter(0), None)];
      }
      if !data[key].value.Counter? {
        return Err(WrongType);
      }
      var count := data[key].value.count + 1;
      data := data[key := data[key].(value := Counter(count))];
      return Ok(count);
    }

    /** EXPIRE behind the adapter's guard; `now` is the server's clock. */
    method Expire(key: string, seconds: int, now: int) returns (r: Result<(), Error>)
      modifies this
      ensures seconds <= 0 ==> r == Err(InvalidArgs) && data == old(data)
      ensures seconds > 0 ==> r == Ok(()) && data == WithDeadline(old(data), key, now + seconds * 1000)
    {
      if seconds <= 0 {
        return Err(InvalidArgs);
      }
      if key in data {
        data := data[key := data[key].(deadline := Some(now + seconds * 1000))];
      }
      return Ok(());
    }

    method EvalSlidingLog(key: string, now: int, windowSec: int, limit: int) returns (r: Result<LogReply, Error>)
      modifies this
      ensures windowSec <= 0 || limit <= 0 ==> r == Err(InvalidArgs) && data == old(data)
      ensures windowSec > 0 && limit > 0 && !HoldsLog(old(data), key) ==> r == Err(WrongType) && data == old(data)
      ensures windowSec > 0 && limit > 0 && HoldsLog(old(data), key) ==>
        var (v, log) := SlidingLog.Step(windowSec * 1000, limit, LogAt(old(data), key), now);
        && r == Ok(LogReply(v.allowed, v.count, v.remaining, v.retryAfter, now - windowSec * 1000, windowSec))
        && data == old(data)[key := Entry(ScoreLog(log), Some(now + (windowSec + 1) * 1000))]
    {
      if windowSec <= 0 || limit <= 0 {
        return Err(InvalidArgs);
      }
      if key in data && !data[key].value.ScoreLog? {
        return Err(WrongType);
      }
      var window := windowSec * 1000;
      var deadline := now + (windowSec + 1) * 1000;
      var log := if key in data then data[key].value.scores else [];
      log := SlidingLog.Trim(log, now - window);
      var count := |log|;
      if count < limit {
        log := SlidingLog.Insert(log, now);
        count := count + 1;
        data := data[key := Entry(ScoreLog(log), Some(deadline))];
        return Ok(LogReply(true, count, limit - count, 0, now - window, window / 1000));
      }
      var retryAfter := 1;
      if log != [] {
        retryAfter := log[0] + window - now;
        if retryAfter < 1 {
          retryAfter := 1;
        }
      }
      data := data[key := Entry(ScoreLog(log), Some(deadline))];
      return Ok(LogReply(false, count, 0, retryAfter, now - window, window / 1000));
    }

    method EvalSlidingWindowCounter(currentKey: string, previousKey: string, ttlSec: int, now: int)
      returns (r: Result<CounterReply, Error>)
      modifies this
      ensures ttlSec <= 0 ==> r == Err(InvalidArgs) && data == old(data)
      ensures ttlSec > 0 && HoldsCounter(old(data), currentKey) && HoldsCounter(old(data), previousKey) ==>
        && data == old(data)[currentKey := Entry(Counter(CounterAt(old(data), currentKey) + 1), Some(now + ttlSec * 1000))]
        && HoldsCounter(data, previousKey)
        && r == Ok(CounterReply(CounterAt(old(data), currentKey) + 1, CounterAt(data, previousKey)))
      ensures ttlSec > 0 && !HoldsCounter(old(data), currentKey) ==> r == Err(WrongType) && data == old(data)
      ensures ttlSec > 0 && HoldsCounter(old(data), currentKey) && !HoldsCounter(old(data), previousKey) ==>
        && r == Err(WrongType)
        && data == old(data)[currentKey := Entry(Counter(CounterAt(old(data), currentKey) + 1), Some(now + ttlSec * 1000))]
    {
      if ttlSec <= 0 {
        return Err(InvalidArgs);
      }
      var incr := Incr(currentKey);
      if incr.Err? {
        return Err(incr.error);
      }
      var _ := Expire(currentKey, ttlSec, now);
      var previous := 0;
      if previousKey in data {
        if !data[previousKey].value.Counter? {
          return Err(WrongType);
        }
        previous := data[previousKey].value.count;
      }
      return Ok(CounterReply(incr.value, previous));
    }

    method EvalTokenBucket(key: string, now: int, c: Config, ttlSec: int) returns (r: Result<BucketReply, Error>)
      modifies this
      ensures !c.Valid() || ttlSec <= 0 ==> r == Err(InvalidArgs) && data == old(data)
      ensures c.Valid() && ttlSec > 0 && !HoldsTokens(old(data), key) ==> r == Err(WrongType) && data == old(data)
      ensures c.Valid() && ttlSec > 0 && HoldsTokens(old(data), key) ==>
        var (v, after) := TokenBucket.Step(c, TokensAt(old(data), key), now);
        && r == Ok(BucketReply(v.allowed, Truncate(after.level), now, v.retryAfter))
        && data == old(data)[key := Entry(TokenHash(after.level, after.last), Some(now + ttlSec * 1000))]
    {
      if c.capacity <= 0 || c.rate <= 0.0 || c.cost <= 0 || ttlSec <= 0 {
        return Err(InvalidArgs);
      }
      if key in data && !data[key].value.TokenHash? {
        return Err(WrongType);
      }
      var tokens, lastRefill := c.capacity as real, now;
      if key in data {
        tokens, lastRefill := data[key].value.tokens, data[key].value.lastRefill;
      }
      var elapsed := now - lastRefill;
      if elapsed < 0 {
        elapsed := 0;
      }
      tokens := tokens + elapsed as real / 1000.0 * c.rate;
      if tokens > c.capacity as real {
        tokens := c.capacity as real;
      }
      assert tokens == TokenBucket.Available(c, TokensAt(data, key), now);
      var allowed, retryAfter := false, 0;
      if tokens >= c.cost as real {
        allowed := true;
        tokens := tokens - c.cost as real;
      } else {
        var need := c.cost as real - tokens;
        retryAfter := Ceil(need / c.rate * 1000.0);
        if retryAfter < 1 {
          retryAfter := 1;
        }
      }
      data := data[key := Entry(TokenHash(tokens, now), Some(now + ttlSec * 1000))];
      return Ok(BucketReply(allowed, Truncate(tokens), now, retryAfter));
    }

    method EvalLeakyBucket(key: string, now: int, c: Config, ttlSec: int) returns (r: Result<BucketReply, Error>)
      modifies this
      ensures !c.Valid() || ttlSec <= 0 ==> r == Err(InvalidArgs) && data == old(data)
      ensures c.Valid() && ttlSec > 0 && !HoldsWater(old(data), key) ==> r == Err(WrongType) && data == old(data)
      ensures c.Valid() && ttlSec > 0 && HoldsWater(old(data), key) ==>
        var (v, after) := LeakyBucket.LeakStep(c, WaterAt(old(data), key), now);
        && r == Ok(BucketReply(v.allowed, Truncate(after.level), now, v.retryAfter))
        && data == old(data)[key := Entry(WaterHash(after.level, after.last), Some(now + ttlSec * 1000))]
    {
      if c.capacity <= 0 || c.rate <= 0.0 || c.cost <= 0 || ttlSec <= 0 {
        return Err(InvalidArgs);
      }
      if key in data && !data[key].value.WaterHash? {
        return Err(WrongType);
      }
      var water, lastLeak := 0.0, now;
      if key in data {
        water, lastLeak := data[key].value.waterLevel, data[key].value.lastLeak;
      }
      var elapsed := now - lastLeak;
      if elapsed < 0 {
        elapsed := 0;
      }
      water := water - elapsed as real / 1000.0 * c.rate;
      if water < 0.0 {
        water := 0.0;
      }
      assert water == LeakyBucket.Held(c, WaterAt(data, key), now);
      var allowed, retryAfter := false, 0;
      if water + c.cost as real <= c.capacity as real {
        allowed := true;
        water := water + c.cost as real;
      } else {
        var overflow := water + c.cost as real - c.capacity as real;
        retryAfter := Ceil(overflow / c.rate * 1000.0);
        if retryAfter < 1 {
          retryAfter := 1;
        }
      }
      data := data[key := Entry(WaterHash(water, now), Some(now + ttlSec * 1000))];
      return Ok(BucketReply(allowed, Truncate(water), now, retryAfter));
    }

    /**
     * The SCAN loop. `pages` are the batches one full iteration returns and `traffic` what other clients write
     * after each of them has been deleted; Redis may fail on a page.
     */
    method ScanDelete(pattern: string, pages: seq<set<string>>, traffic: seq<Data>, failsAt: Option<nat>)
      returns (r: Result<(), Error>)
      requires |pages| == |traffic| && FullScan(data, pattern, pages)
      modifies this
      ensures r == if failsAt.Some? && failsAt.value < |pages| then Err(Unavailable) else Ok(())
      ensures data == Scanned(old(data), pages, traffic, if r.Ok? then |pages| else failsAt.value)
    {
      var cursor := 0;
      while cursor < |pages|
        invariant 0 <= cursor <= |pages|
        invariant failsAt.Some? ==> cursor <= failsAt.value
        invariant data == Scanned(old(data), pages, traffic, cursor)
      {
        if failsAt == Some(cursor) {
          return Err(Unavailable);
        }
        data := data - pages[cursor];
        data := data + traffic[cursor];  // others get their turn before the next page
        cursor := cursor + 1;
      }
      return Ok(());
    }
  }
}
