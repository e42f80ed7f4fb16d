/** Parameter validation of policies (service.go) and what the limiters can read of its results. */
module Validation {
  import opened Basics
  import opened Keys
  import opened Limiters
  import RedisStore

  datatype PolicyError =
    | NotFound | Conflict | InvalidInput | Unsupported | Disabled | NoActivePolicy | ActivePolicyMissing | Failed

  /** Unicode white space, as strings.TrimSpace removes it. */
  predicate IsSpace(c: char) {
    || '\t' <= c <= '\r' || c == ' ' || c == '\U{85}' || c == '\U{A0}' || c == '\U{1680}'
    || '\U{2000}' <= c <= '\U{200A}' || c == '\U{2028}' || c == '\U{2029}' || c == '\U{202F}'
    || c == '\U{205F}' || c == '\U{3000}'
  }

  predicate Blank(s: string) {
    forall i :: 0 <= i < |s| ==> IsSpace(s[i])
  }

  function ValidateAlgorithm(name: string): Result<Algorithm, PolicyError> {
    if Blank(name) then Err(InvalidInput)
    else match BuildLimiter(name)
      case Ok(a) => Ok(a)
      case Err(_) => Err(Unsupported)
  }

  /** A missing field reads as nil. */
  function Field(params: Params, key: string): Any {
    if key in params then params[key] else Any.NotNumeric
  }

  function ToPositiveInt(value: Any): Option<int> {
    match value
    case Float(r) => if r > 0.0 then Some(Truncate(r)) else None
    case Int(n) => if n > 0 then Some(n) else None
    case Int64(n) => if n > 0 then Some(n) else None
    case NotNumeric => None
  }

  function ToPositiveFloat(value: Any): Option<real> {
    match value
    case Float(r) => if r > 0.0 then Some(r) else None
    case Int(n) => if n > 0 then Some(n as real) else None
    case Int64(n) => if n > 0 then Some(n as real) else None
    case NotNumeric => None
  }

  function ValidateWindow(params: Params): Result<Params, PolicyError> {
    match ToPositiveInt(Field(params, "window_size_sec"))
    case None => Err(InvalidInput)
    case Some(window) =>
      match ToPositiveInt(Field(params, "limit"))
      case None => Err(InvalidInput)
      case Some(limit) => Ok(map["window_size_sec" := Int(window), "limit" := Int(limit)])
  }

  function ValidateBucket(params: Params, rateField: string, costField: string): Result<Params, PolicyError> {
    match ToPositiveInt(Field(params, "capacity"))
    case None => Err(InvalidInput)
    case Some(capacity) =>
      match ToPositiveFloat(Field(params, rateField))
      case None => Err(InvalidInput)
      case Some(rate) =>
        match if costField in params then ToPositiveInt(params[costField]) else Some(1)
        case None => Err(InvalidInput)
        case Some(cost) => Ok(map["capacity" := Int(capacity), rateField := Float(rate), costField := Int(cost)])
  }

  function RateField(a: Algorithm): string {
    if a.TokenBucket? then "refill_rate_per_sec" else "leak_rate_per_sec"
  }

  function CostField(a: Algorithm): string {
    if a.TokenBucket? then "tokens_per_request" else "water_per_request"
  }

  function ValidateParams(a: Algorithm, params: Params): Result<Params, PolicyError> {
    match a
    case FixedWindow => ValidateWindow(params)
    case SlidingLog => ValidateWindow(params)
    case SlidingWindowCounter => ValidateWindow(params)
    case TokenBucket => ValidateBucket(params, RateField(a), CostField(a))
    case LeakyBucket => ValidateBucket(params, RateField(a), CostField(a))
  }

  /** What the JSON column gives back: every number is decoded as a float. */
  function Stored(params: Params): Params {
    map k | k in params :: StoredValue(params[k])
  }

  function StoredValue(v: Any): Any {
    match v
    case Float(r) => Float(r)
    case Int(n) => Float(n as real)
    case Int64(n) => Float(n as real)
    case NotNumeric => Any.NotNumeric
  }

  // ---------- what is accepted, and what is stored ----------

  predicate Positive(v: Any) {
    match v
    case Float(r) => r > 0.0
    case Int(n) => n > 0
    case Int64(n) => n > 0
    case NotNumeric => false
  }

  /** The required fields hold positive numbers, and so does the cost if it is given. */
  predicate Acceptable(a: Algorithm, params: Params) {
    match a
    case TokenBucket =>
      && "capacity" in params && Positive(params["capacity"])
      && "refill_rate_per_sec" in params && Positive(params["refill_rate_per_sec"])
      && ("tokens_per_request" in params ==> Positive(params["tokens_per_request"]))
    case LeakyBucket =>
      && "capacity" in params && Positive(params["capacity"])
      && "leak_rate_per_sec" in params && Positive(params["leak_rate_per_sec"])
      && ("water_per_request" in params ==> Positive(params["water_per_request"]))
    case _ =>
      && "window_size_sec" in params && Positive(params["window_size_sec"])
      && "limit" in params && Positive(params["limit"])
  }

  lemma AcceptsIff(a: Algorithm, params: Params)
    ensures ValidateParams(a, params).Ok? <==> Acceptable(a, params)
    ensures ValidateParams(a, params).Err? ==> ValidateParams(a, params).error == InvalidInput
  {
  }

  lemma SupportsIff(name: string)
    ensures ValidateAlgorithm(name).Ok? <==> BuildLimiter(name).Ok?
    ensures ValidateAlgorithm(name).Ok? ==> ValidateAlgorithm(name) == Ok(BuildLimiter(name).value)
    ensures ValidateAlgorithm(name).Err? ==> ValidateAlgorithm(name).error == if Blank(name) then InvalidInput else Unsupported
  {
    if BuildLimiter(name).Ok? {
      assert !IsSpace(name[0]);
    }
  }

  /** The number is stored without its fraction. */
  predicate KeepsWhole(submitted: Any, stored: Any) {
    stored.Float? && stored.r == stored.r.Floor as real &&
    match submitted
    case Float(r) => stored.r <= r < stored.r + 1.0
    case Int(n) => stored.r == n as real
    case Int64(n) => stored.r == n as real
    case NotNumeric => false
  }

  /** The number is stored as it is. */
  predicate KeepsNumber(submitted: Any, stored: Any) {
    stored.Float? &&
    match submitted
    case Float(r) => stored.r == r
    case Int(n) => stored.r == n as real
    case Int64(n) => stored.r == n as real
    case NotNumeric => false
  }

  predicate KeepsCost(field: string, submitted: Params, params: Params)
    requires field in params
  {
    if field in submitted then KeepsWhole(submitted[field], params[field]) else params[field] == Float(1.0)
  }

  /** Each stored field comes from the submitted field of its name, and nothing else is stored. */
  lemma StoredWindow(a: Algorithm, params: Params, submitted: Params)
    requires !a.TokenBucket? && !a.LeakyBucket? && Validated(a, params, submitted)
    ensures params.Keys == {"window_size_sec", "limit"} <= submitted.Keys
    ensures KeepsWhole(submitted["window_size_sec"], params["window_size_sec"])
    ensures KeepsWhole(submitted["limit"], params["limit"])
  {
    AcceptsIff(a, submitted);
  }

  lemma StoredTokenBucket(params: Params, submitted: Params)
    requires Validated(Algorithm.TokenBucket, params, submitted)
    ensures params.Keys == {"capacity", "refill_rate_per_sec", "tokens_per_request"}
    ensures "capacity" in submitted && KeepsWhole(submitted["capacity"], params["capacity"])
    ensures "refill_rate_per_sec" in submitted
         && KeepsNumber(submitted["refill_rate_per_sec"], params["refill_rate_per_sec"])
    ensures KeepsCost("tokens_per_request", submitted, params)
  {
    AcceptsIff(Algorithm.TokenBucket, submitted);
  }

  lemma StoredLeakyBucket(params: Params, submitted: Params)
    requires Validated(Algorithm.LeakyBucket, params, submitted)
    ensures params.Keys == {"capacity", "leak_rate_per_sec", "water_per_request"}
    ensures "capacity" in submitted && KeepsWhole(submitted["capacity"], params["capacity"])
    ensures "leak_rate_per_sec" in submitted && KeepsNumber(submitted["leak_rate_per_sec"], params["leak_rate_per_sec"])
    ensures KeepsCost("water_per_request", submitted, params)
  {
    AcceptsIff(Algorithm.LeakyBucket, submitted);
  }

  // ---------- what validation guarantees the limiters ----------

  /** A number has one whole part. */
  lemma SameWhole(r: real, x: real, z: int)
    requires x == x.Floor as real && x <= r < x + 1.0 && z as real <= r < z as real + 1.0
    ensures x == z as real
  {
    assert x.Floor - 1 < z < x.Floor + 1;
  }

  lemma WholeAsSubmitted(params: Params, submitted: Params, key: string, z: int)
    requires key in params && HoldsWhole(submitted, key, z) && KeepsWhole(submitted[key], params[key])
    ensures HoldsWhole(params, key, z) <==> z > 0
  {
    assert params[key].r == z as real by {
      match submitted[key]
      case Float(r) => SameWhole(r, params[key].r, z);
      case _ =>
    }
    WholePart(z as real, z);
  }

  lemma WholePart(x: real, z: int)
    requires x == z as real
    ensures z as real <= x < z as real + 1.0 && (x > 0.0 <==> z > 0)
  {
  }

  lemma NumberAsSubmitted(params: Params, submitted: Params, key: string, x: real)
    requires key in params && HoldsNumber(submitted, key, x) && KeepsNumber(submitted[key], params[key])
    ensures HoldsNumber(params, key, x)
  {
  }

  lemma CostAsSubmitted(params: Params, submitted: Params, key: string, z: int)
    requires key in params && KeepsCost(key, submitted, params)
    requires if key in submitted then HoldsWhole(submitted, key, z) else z == 1
    ensures HoldsWhole(params, key, z) <==> z > 0
  {
    if key in submitted {
      WholeAsSubmitted(params, submitted, key, z);
    }
  }

  /** What was submitted is what the limiters will read, as long as it is at least 1. */
  lemma WindowAsSubmitted(a: Algorithm, params: Params, submitted: Params, windowSec: int, limit: int)
    requires !a.TokenBucket? && !a.LeakyBucket? && Validated(a, params, submitted)
    requires WindowParams(submitted, windowSec, limit)
    ensures WindowParams(params, windowSec, limit) <==> windowSec > 0 && limit > 0
  {
    StoredWindow(a, params, submitted);
    WholeAsSubmitted(params, submitted, "window_size_sec", windowSec);
    WholeAsSubmitted(params, submitted, "limit", limit);
  }

  lemma TokenBucketAsSubmitted(params: Params, submitted: Params, c: RedisStore.Config)
    requires Validated(Algorithm.TokenBucket, params, submitted) && TokenParams(submitted, c)
    ensures TokenParams(params, c) <==> c.Valid()
  {
    StoredTokenBucket(params, submitted);
    WholeAsSubmitted(params, submitted, "capacity", c.capacity);
    NumberAsSubmitted(params, submitted, "refill_rate_per_sec", c.rate);
    CostAsSubmitted(params, submitted, "tokens_per_request", c.cost);
  }

  lemma LeakyBucketAsSubmitted(params: Params, submitted: Params, c: RedisStore.Config)
    requires Validated(Algorithm.LeakyBucket, params, submitted) && LeakParams(submitted, c)
    ensures LeakParams(params, c) <==> c.Valid()
  {
    StoredLeakyBucket(params, submitted);
    WholeAsSubmitted(params, submitted, "capacity", c.capacity);
    NumberAsSubmitted(params, submitted, "leak_rate_per_sec", c.rate);
    CostAsSubmitted(params, submitted, "water_per_request", c.cost);
  }

  /** The integer fields a policy of this algorithm submits. */
  function IntegerFields(a: Algorithm): set<string> {
    if a.TokenBucket? || a.LeakyBucket? then {"capacity", CostField(a)} else {"window_size_sec", "limit"}
  }

  /** Some integer field was submitted as a number strictly between 0 and 1, which truncates to 0. */
  predicate SubUnit(a: Algorithm, params: Params) {
    exists k :: k in IntegerFields(a) && k in params && params[k].Float? && 0.0 < params[k].r < 1.0
  }

  /** Parameters that validation accepted and the database stored. */
  ghost predicate Validated(a: Algorithm, params: Params, submitted: Params) {
    ValidateParams(a, submitted).Ok? && params == Stored(ValidateParams(a, submitted).value)
  }

  lemma ValidatedWindow(a: Algorithm, params: Params, submitted: Params)
    requires !a.TokenBucket? && !a.LeakyBucket? && Validated(a, params, submitted)
    ensures ReadWindow(params).Ok? <==> !SubUnit(a, submitted)
    ensures ReadWindow(params).Ok? ==> ReadWindow(params).value.0 > 0 && ReadWindow(params).value.1 > 0
    ensures ReadWindow(params).Err? ==> ReadWindow(params).error == RedisStore.NotPositive
  {
  }

  lemma ValidatedBucket(a: Algorithm, params: Params, submitted: Params)
    requires (a.TokenBucket? || a.LeakyBucket?) && Validated(a, params, submitted)
    ensures ReadBucket(params, RateField(a), CostField(a)).Ok? <==> !SubUnit(a, submitted)
    ensures ReadBucket(params, RateField(a), CostField(a)).Ok? ==> ReadBucket(params, RateField(a), CostField(a)).value.Valid()
    ensures ReadBucket(params, RateField(a), CostField(a)).Err? ==>
      ReadBucket(params, RateField(a), CostField(a)).error == RedisStore.NotPositive
  {
  }

  /**
   * Validating what is stored, as an update that keeps the parameters does, succeeds exactly when they are
   * readable, and then changes nothing.
   */
  lemma RevalidationKeeps(a: Algorithm, params: Params, submitted: Params)
    requires Validated(a, params, submitted)
    ensures ValidateParams(a, params).Ok? <==> !SubUnit(a, submitted)
    ensures ValidateParams(a, params).Ok? ==> Stored(ValidateParams(a, params).value) == params
  {
    if a.TokenBucket? || a.LeakyBucket? {
      RevalidatedBucket(a, params, submitted);
    } else {
      RevalidatedWindow(a, params, submitted);
    }
  }

  lemma RevalidatedWindow(a: Algorithm, params: Params, submitted: Params)
    requires !a.TokenBucket? && !a.LeakyBucket? && Validated(a, params, submitted)
    ensures ValidateParams(a, params).Ok? <==> !SubUnit(a, submitted)
    ensures ValidateParams(a, params).Ok? ==> Stored(ValidateParams(a, params).value) == params
  {
  }

  lemma RevalidatedBucket(a: Algorithm, params: Params, submitted: Params)
    requires (a.TokenBucket? || a.LeakyBucket?) && Validated(a, params, submitted)
    ensures ValidateParams(a, params).Ok? <==> !SubUnit(a, submitted)
    ensures ValidateParams(a, params).Ok? ==> Stored(ValidateParams(a, params).value) == params
  {
  }
}
