# Verification model of the rate-limiting gateway

This project models the five rate limiters of the gateway, the Redis store they share, the policy service that
selects them, and the dispatch loop of the simulation front end, and proves what they promise: bounds and
optimality over whole runs, exact retry times, the equivalence of two of the algorithms, isolation of clients,
and the invisibility of key expiry. Check it with `dafny verify dfyconfig.toml` (Dafny 4.11).

## How it is built

- **Algorithms on one client.** `TokenBucket`, `LeakyBucket`, `SlidingLog`, `Windows`, `FixedWindow` and
  `SlidingWindowCounter` give each algorithm as a step on the state of one client, and runs as functions of the
  arrival times. `BucketOptimality` holds the exchange
  argument for the buckets, `Remaining` their reported budgets.
- **The store.** `RedisStore.Store` is a class with one field, the map from key to value and deadline; its
  commands and scripts are methods that update it and are proved equal to the steps above. `Keys` and `Reset`
  hold key names, the glob pattern of a reset, and exactly which keys it reaches.
- **The limiters.** `Limiters` reads parameters, names keys, computes TTLs and decides, as methods over the store;
  `Serve` is the function they are proved to compute.
- **Many clients.** `Isolation` (any interleaving, any clocks, any parameters), `Expiry` (keys may vanish after
  their TTL, policies may be reset) and `Gateway` (the promises of the five policies for every client of a shared,
  expiring store, counted from the last reset of its policy). `Advice` holds what the answers are worth: the delay and
  the remaining budget they tell a client, against what later requests get.
- **Policies.** `Validation`, `PolicyService` (the calls one at a time, as a class), `PolicyProtocol` (the calls
  interleaved between their SQL statements) and `Simulate` (`Evaluate`, end to end).
- **The front end.** `Dispatch`.

## Assumptions

- Numbers are exact: rates, bucket levels and weights are reals, integers are unbounded. Float rounding, the
  decimal form in which Redis stores a level, and overflow at extreme parameters are abstracted away. The truncation of
  script replies to integers and of parameters by `int(v)` is modelled.
- Time is an `int` in milliseconds. The Redis server's clock is the `now` of the call; only `FixedWindow` lets a
  handler lag behind its clock reading. Lemmas that need a clock
  that does not step back say `Sorted`, `Legal` or `LegalRun`; the others hold for arbitrary clocks. Runs with expiry start at or
  after the epoch: before it Go's division rounds window starts toward zero, and a counter's TTL could run out inside its window.
- Scripts and SQL statements are atomic. A key with a TTL may vanish at any moment from its deadline on, or stay.
- `SCAN` returns matching keys only, and at least once every matching key that was there from the start. Log members
  (`now:uuid`) are distinct. Policy ids are UUIDs, so they contain no colon and no glob metacharacter.

## What the proofs turned up

Each failure comes with the exact condition and with a lemma at a concrete input that reaches it.

- The sliding log advertises a delay one millisecond short of the exact one: a retry at the advertised moment is
  admitted only if the oldest entry stood exactly at the window's start (`SlidingLog.AdvertisedRetryWorksIff`, reached in
  `SlidingLog.AdvertisedRetryCanFail`).
- The sliding window counter counts rejected requests, so each window admits at most `limit - 1`, a limit of 1
  admits nothing, and a retry at the advertised moment passes only after at most `limit - 2` attempts
  (`SlidingWindowCounter.AdvertisedRetryWorksIff`, reached in `SlidingWindowCounter.AdvertisedRetryCanFail`). Nor is that
  moment the earliest: a retry may pass before it (`SlidingWindowCounter.EarlyRetryCanPass`); the exact condition for any
  request is `SlidingWindowCounter.AdmitsByArrivals`.
- The leaky bucket can report one request too many as remaining, exactly when truncation hides the fraction of water that
  fills the last slot (`Remaining.LeakRemainingOverstatesIff` and `Remaining.LeakBurstMatchesRoom`, reached in
  `Remaining.LeakRemainingCanOverstate`).
- The sliding window counter reports one request too many as remaining whenever its estimate is a whole number, as in
  every window without a predecessor (`SlidingWindowCounter.RemainingOverstatesIff`, reached in
  `SlidingWindowCounter.RemainingCanOverstate`).
- A reset deletes other policies' state when a client id spells out the reset policy's id between colons
  (`Reset.ResetDeletesIff`, reached in `Reset.ResetReachesAcrossPolicies`).
- An integer parameter submitted strictly between 0 and 1 passes validation, is stored as 0, and makes every request under the
  policy fail (`Simulate.ValidatedServes`) and every update that keeps the parameters fail (`Validation.RevalidationKeeps`);
  both are reached in `Simulate.HalfSecondWindowFails`.
- The fixed window counts exactly as long as a handler's INCR follows its clock reading within one second, the slack in
  the TTL, and no longer (`FixedWindow.ToleratesOneSecond`, reached in `FixedWindow.LateRunOvershoots`).

## Model

| member | source | states |
|---|---|---|
| TokenBucket.LevelStaysInRange | gateway/internal/runtime/redis_store.go:86-110 | every reachable token level lies between 0 and the capacity, whatever the clock does |
| TokenBucket.IntervalRateBound | gateway/internal/runtime/redis_store.go:86-110 | in any slice of any run the admitted cost is at most capacity plus rate times the forward clock steps, which is the elapsed time for a clock that does not step back |
| TokenBucket.SliceConserves | gateway/internal/runtime/redis_store.go:91-101 | the same with the remaining level on the left: charges plus what is left fit a full bucket and the refill |
| TokenBucket.RetryAfterIsLeast | gateway/internal/runtime/redis_store.go:103-107 | the advertised delay is the least whole number of milliseconds whose refill covers the shortfall; the clamp to 1 never binds |
| TokenBucket.RetryAfterIsExact | gateway/internal/runtime/redis_store.go:99-110 | after a reject, attempts before now + retry_after_ms are all rejected and the first from then on is admitted, however many come between |
| TokenBucket.RetryAfterByClimb | gateway/internal/runtime/redis_store.go:99-110 | the same on a clock that may step back: the delay is counted in forward clock steps |
| TokenBucket.AdmissibleIffAffordable | gateway/internal/runtime/redis_store.go:99-108 | some bucket admits a request iff its cost is at most the capacity |
| BucketOptimality.ConformsIffSolvent | gateway/internal/runtime/redis_store.go:91-101 | a schedule respects every interval bound iff a bucket charged for it never runs short |
| BucketOptimality.GreedyIsOptimal | gateway/internal/runtime/redis_store.go:79-108 | on any clock the script's admissions respect every interval bound, and on every prefix no schedule that does has admitted more |
| BucketOptimality.SliceOfSorted | gateway/internal/runtime/redis_store.go:79-108 | for a clock that does not step back the interval bound is capacity plus rate times the time spanned |
| LeakyBucket.TokenLeakyBisimulation | gateway/internal/runtime/redis_store.go:124-160 | with tokens = capacity - water the two bucket scripts give equal verdicts and delays at every step of every run, for any clock and with keys vanishing at any time |
| LeakyBucket.WaterStaysInRange | gateway/internal/runtime/redis_store.go:135-159 | the water level stays between 0 and the capacity |
| LeakyBucket.LeakIntervalRateBound | gateway/internal/runtime/redis_store.go:135-159 | the interval rate bound for the leaky bucket |
| LeakyBucket.LeakRetryAfterIsExact | gateway/internal/runtime/redis_store.go:148-159 | the leaky bucket's advertised delay is exact over runs |
| LeakyBucket.LeakRetryAfterByClimb | gateway/internal/runtime/redis_store.go:148-159 | the leaky bucket's delay on a clock that may step back |
| LeakyBucket.LeakGreedyIsOptimal | gateway/internal/runtime/redis_store.go:124-160 | the leaky bucket is an optimal conforming schedule too |
| Remaining.TokenRemainingIsExact | gateway/internal/limiter/token_bucket.go:45-48 | the reported remaining budget equals floor(exact tokens / cost) although the reply is truncated |
| Remaining.LeakRemainingOverstatesIff | gateway/internal/limiter/leaky_bucket.go:45-52 | the leaky report is the exact one, plus one exactly when the truncated fraction would have filled a slot |
| Remaining.LeakBurstMatchesRoom | gateway/internal/limiter/leaky_bucket.go:45-52 | of the requests that follow at the same moment the leaky bucket passes as many as fit above the exact level, which is the report less the overstated slot |
| Remaining.LeakRemainingCanOverstate | gateway/internal/limiter/leaky_bucket.go:45-52 | a run whose second reply reports one more request that the third then does not get |
| Remaining.BurstMatchesBudget | gateway/internal/limiter/token_bucket.go:45-48 | of the requests that follow at the same moment, exactly the reported budget pass |
| SlidingLog.AdmitsByFullHistory | gateway/internal/runtime/redis_store.go:24-33 | the trimmed log admits iff fewer than limit of all earlier admissions lie in [now - window, now] |
| SlidingLog.LogIsRecentHistory | gateway/internal/runtime/redis_store.go:24-33 | the log holds exactly the admitted timestamps of the last window |
| SlidingLog.AdmitsBySurvivors | gateway/internal/runtime/redis_store.go:24-33 | on any clock a request is admitted iff fewer than limit earlier admissions have stayed within the window of every call since |
| SlidingLog.DelayFromOldest | gateway/internal/runtime/redis_store.go:35-43 | on any clock the delay of a reject is counted from the oldest surviving admission |
| SlidingLog.ReportsWindowCount | gateway/internal/runtime/redis_store.go:27-32 | the reported count is the number of admissions in the window that ends now, and remaining is the rest of the limit |
| SlidingLog.GreedyIsOptimal | gateway/internal/runtime/redis_store.go:24-33 | every closed window holds at most limit admissions, and on every prefix no schedule with that property has admitted more |
| SlidingLog.LogWithinLimit | gateway/internal/runtime/redis_store.go:27-33 | the log never exceeds the limit, for any clock |
| SlidingLog.RetryLaw | gateway/internal/runtime/redis_store.go:35-43 | after a reject, requests are rejected up to oldest + window and the first later one is admitted; the advertised delay is max(1, exact delay - 1) |
| SlidingLog.AdvertisedRetryWorksIff | gateway/internal/runtime/redis_store.go:35-43 | a retry exactly as advertised is admitted iff the oldest entry stood at the window start |
| SlidingLog.AdvertisedRetryCanFail | gateway/internal/runtime/redis_store.go:35-43 | a run in which a retry exactly as advertised is rejected |
| Windows.SpansTwoWindows | gateway/internal/limiter/fixed_window.go:26-27 | moments at most one window length apart lie in the same or in neighbouring aligned windows |
| FixedWindow.StaysFaithful | gateway/internal/limiter/fixed_window.go:26-38 | under any interleaving of INCRs up to a second late, delayed EXPIREs and expiry, counts are exact for every window that can still be hit |
| FixedWindow.HandlersAreExact | gateway/internal/limiter/fixed_window.go:26-60 | concurrent handlers tell each request exactly what its place among all requests of its window deserves |
| FixedWindow.ToleratesOneSecond | gateway/internal/limiter/fixed_window.go:30-38 | handlers that lag by up to a given time admit the first limit requests per window in every run iff that time is at most one second |
| FixedWindow.LateRunOvershoots | gateway/internal/limiter/fixed_window.go:30-38 | a run with one handler 1001 ms late in which a window admits more than its limit |
| FixedWindow.ConcurrentWindows | gateway/internal/limiter/fixed_window.go:26-60 | concurrent handlers admit exactly the first limit requests of each aligned window, min(limit, arrivals) in all, and any interval of a window's length at most twice the limit |
| FixedWindow.DecisionTotals | gateway/internal/limiter/fixed_window.go:26-60 | the same totals for handlers that run one at a time |
| FixedWindow.RemainingIsExact | gateway/internal/limiter/fixed_window.go:40-44 | the remaining budget reported in a concurrent run is the limit less what the window has admitted |
| FixedWindow.RetryOpensNextWindow | gateway/internal/limiter/fixed_window.go:57-60 | after a reject in a concurrent run, from the epoch on, later requests are rejected until the advertised time, which starts the next window, and the first from then on passes |
| SlidingWindowCounter.EstimateBelow | gateway/internal/limiter/sliding_window_counter.go:39-65 | the weighted real estimate admits iff current * W + previous * (W - offset) < limit * W |
| SlidingWindowCounter.AdmitsByArrivals | gateway/internal/limiter/sliding_window_counter.go:27-65 | the decision of a run in terms of what arrived in this window and the one before, rejected requests included |
| SlidingWindowCounter.WindowAdmitsBelowLimit | gateway/internal/limiter/sliding_window_counter.go:48-65 | an aligned window admits at most limit - 1 requests |
| SlidingWindowCounter.RollingOvershoot | gateway/internal/limiter/sliding_window_counter.go:39-65 | a closed rolling window that ends with an admission at offset e holds fewer than limit + (limit - 1) * e / W admissions, for any clock |
| SlidingWindowCounter.RecoveryIsExact | gateway/internal/limiter/sliding_window_counter.go:48-76 | after c attempts and silence, a request at offset e of the next window passes iff 1 + c * (W - e) / W < limit, and later ones iff limit >= 2 |
| SlidingWindowCounter.AdvertisedRetryWorksIff | gateway/internal/limiter/sliding_window_counter.go:73-76 | a retry as advertised passes iff there were at most limit - 2 attempts |
| SlidingWindowCounter.AdvertisedRetryCanFail | gateway/internal/limiter/sliding_window_counter.go:73-76 | a run in which a retry exactly as advertised is rejected |
| SlidingWindowCounter.EarlyRetryCanPass | gateway/internal/limiter/sliding_window_counter.go:73-76 | a run in which a retry before the advertised time is admitted |
| SlidingWindowCounter.RemainingOverstatesIff | gateway/internal/limiter/sliding_window_counter.go:48-52 | further requests at the same moment pass within the reported budget, less one exactly when the estimate is whole |
| SlidingWindowCounter.RemainingCanOverstate | gateway/internal/limiter/sliding_window_counter.go:48-52 | two requests at one moment, the first told that one more passes, the second rejected |
| Keys.OwnersAreUnique | gateway/internal/limiter/sliding_window_counter.go:31-32 | no key serves two clients, policies or algorithms, for arbitrary client ids and colon-free policy ids |
| Keys.ClientKeyInjective | gateway/internal/limiter/token_bucket.go:34 | per-client key names determine algorithm, policy and client |
| Keys.WindowKeyInjective | gateway/internal/limiter/fixed_window.go:28 | per-window key names determine algorithm, policy, client and window |
| Keys.DecimalReadsBack | gateway/internal/limiter/fixed_window.go:28 | the decimal rendering of a window start reads back as the number |
| Keys.GlobContains | gateway/internal/policy/service.go:166 | the pattern star, literal, star matches iff the literal occurs |
| Reset.ResetDeletesIff | gateway/internal/policy/service.go:165-169 | a reset of policy id deletes a key iff the key is its own or its id occurs between colons in what the client id contributes |
| Reset.PlainClientsSpared | gateway/internal/policy/service.go:165-169 | client ids without a colon and different from the id are spared |
| Reset.ResetReachesAcrossPolicies | gateway/internal/policy/service.go:166 | a concrete client id of another policy whose key the pattern matches |
| RedisStore.Store.Incr | gateway/internal/runtime/redis_store.go:173-175 | INCR: the count after it, the deadline kept, the error on another type |
| RedisStore.Store.Expire | gateway/internal/simulate/service.go:82-87 | EXPIRE behind the adapter's guard sets the deadline of an existing key only |
| RedisStore.Store.EvalSlidingLog | gateway/internal/runtime/redis_store.go:181-187 | the script and its guard compute the log step, refresh the deadline and echo the window |
| RedisStore.Store.EvalSlidingWindowCounter | gateway/internal/runtime/redis_store.go:49-65 | the script counts the request, refreshes the deadline and reads the previous window's count |
| RedisStore.Store.EvalTokenBucket | gateway/internal/runtime/redis_store.go:262-267 | the script and its guard compute the token step; the reply's level is truncated, the stored one is not |
| RedisStore.Store.EvalLeakyBucket | gateway/internal/runtime/redis_store.go:302-307 | the script and its guard compute the leak step; the reply's level is truncated, the stored one is not |
| RedisStore.Store.ScanDelete | gateway/internal/runtime/redis_store.go:346-364 | the cursor loop deletes page by page while others write between pages, until the end or the page on which Redis fails |
| RedisStore.ScanClears | gateway/internal/runtime/redis_store.go:346-364 | after the last page a matching key is left only if it was written meanwhile |
| RedisStore.ScanSpares | gateway/internal/runtime/redis_store.go:346-364 | at any page a key that does not match is as if nothing had been deleted |
| RedisStore.QuietScan | gateway/internal/runtime/redis_store.go:346-364 | without concurrent writes exactly the matching keys go |
| Limiters.AllowFixedWindow | gateway/internal/limiter/fixed_window.go:16-75 | computes Serve on the store, including errors and the division by zero |
| Limiters.AllowSlidingLog | gateway/internal/limiter/sliding_log.go:18-56 | computes Serve on the store |
| Limiters.AllowSlidingWindowCounter | gateway/internal/limiter/sliding_window_counter.go:17-86 | computes Serve on the store |
| Limiters.AllowTokenBucket | gateway/internal/limiter/token_bucket.go:17-80 | computes Serve on the store |
| Limiters.AllowLeakyBucket | gateway/internal/limiter/leaky_bucket.go:17-84 | computes Serve on the store |
| Limiters.ReadsWindow | gateway/internal/limiter/fixed_window.go:17-24 | window and limit are read iff the fields of those names hold positive numbers, and are their whole parts |
| Limiters.ReadsTokenBucket | gateway/internal/limiter/token_bucket.go:18-32 | capacity, rate and cost are read from their own fields, the cost being 1 if absent |
| Limiters.ReadsLeakyBucket | gateway/internal/limiter/leaky_bucket.go:18-32 | the same for the leaky bucket's fields |
| Limiters.RefusesFields | gateway/internal/limiter/fixed_window.go:77-96 | reading fails iff a field is missing, not numeric or not positive, and reports the first such field |
| Limiters.RefusesZeros | gateway/internal/limiter/fixed_window.go:26-27 | a window or limit, capacity or cost cut to 0 gives a division by zero or an argument error and leaves the store alone |
| Limiters.BucketTtlIsLeast | gateway/internal/limiter/token_bucket.go:35-38 | the TTL is one second more than the least whole number of seconds that refills the bucket; the clamp to 2 never binds |
| Limiters.BucketDeadlines | gateway/internal/runtime/redis_store.go:111 | a served bucket request expires one TTL from now |
| Limiters.LogDeadline | gateway/internal/runtime/redis_store.go:31-45 | a served log request expires window + 1 seconds from now |
| Limiters.FixedWindowDeadline | gateway/internal/limiter/fixed_window.go:34-38 | a new counter expires window + 1 seconds from now, a counted one keeps its deadline |
| Limiters.SlidingWindowCounterDeadline | gateway/internal/limiter/sliding_window_counter.go:34 | a counter expires two windows + 1 second from its last request |
| Limiters.BuildLimiter | gateway/internal/limiter/factory.go:7-22 | the limiter of that name, and an error only for a name no algorithm has |
| Limiters.LimiterNames | gateway/internal/limiter/factory.go:7-22 | which literal name stands for which limiter |
| Isolation.ClientIsolation | gateway/internal/limiter/leaky_bucket.go:34 | in any interleaving of clients, policies, parameters and clocks a request is answered as if only its client's requests had come before, on any store that started alike under its keys |
| Isolation.ReadsOwnKeys | gateway/internal/limiter/sliding_log.go:28 | a decision and its effect on the client's keys depend on those keys alone |
| Expiry.StaleBucketIsNew | gateway/internal/limiter/leaky_bucket.go:35-38 | after its TTL a bucket decides and continues exactly like a new one, for both buckets |
| Expiry.SlidingLogShadowed | gateway/internal/runtime/redis_store.go:24-45 | a log dropped after its TTL and one kept give the same reply and the same log |
| Expiry.FixedWindowShadowed | gateway/internal/limiter/fixed_window.go:30-38 | a counter dropped after window + 1 s is never read again |
| Expiry.SlidingWindowCounterShadowed | gateway/internal/limiter/sliding_window_counter.go:31-34 | a counter dropped after two windows + 1 s is never read again, as current or as previous |
| Expiry.AnsweredAsIfAlone | gateway/internal/runtime/redis_store.go:110-111 | after any legal run with other clients, vanishing keys and resets, a request is answered as on a store that never expires and served this client only, since its policy's last reset |
| Expiry.ExpiryIsInvisible | gateway/internal/runtime/redis_store.go:31-55 | runs that differ in what vanished, in other traffic and in what preceded a reset answer the client alike |
| Gateway.TokenBucketAnswer | gateway/internal/limiter/token_bucket.go:40-79 | each answer on the shared, expiring store is the per-client algorithm's on the client's own arrival times |
| Gateway.WindowedAnswer | gateway/internal/limiter/sliding_window_counter.go:34-85 | the same for both window algorithms |
| Gateway.TokenBucketPromise | gateway/internal/runtime/redis_store.go:79-111 | on the shared store a token bucket policy is optimal for every client |
| Gateway.LeakyBucketPromise | gateway/internal/runtime/redis_store.go:124-160 | on the shared store a leaky bucket policy is optimal for every client |
| Gateway.SlidingLogPromise | gateway/internal/runtime/redis_store.go:24-46 | on the shared store a sliding log policy keeps every closed window within the limit and is optimal |
| Gateway.FixedWindowPromise | gateway/internal/limiter/fixed_window.go:26-60 | on the shared store a fixed window policy admits min(limit, arrivals) per window and at most twice the limit per window length |
| Gateway.SlidingWindowCounterPromise | gateway/internal/limiter/sliding_window_counter.go:39-65 | on the shared store the rolling overshoot bound holds for every client |
| Advice.TokenBucketAdvice | gateway/internal/limiter/token_bucket.go:45-79 | for every client of the shared store: a told delay is exact (rejects until then, the first later request passes), a told budget is how many further same-moment requests pass, and nothing passes if the cost exceeds the capacity |
| Advice.LeakyBucketAdvice | gateway/internal/limiter/leaky_bucket.go:45-84 | the same, the budget being one too high exactly if truncation hid a slot |
| Advice.SlidingLogAdvice | gateway/internal/limiter/sliding_log.go:30-56 | a told budget is exact; a told delay is one millisecond short unless a request passed exactly one window before |
| Advice.FixedWindowAdvice | gateway/internal/limiter/fixed_window.go:40-75 | a told delay is exact, and a told budget is how many more requests pass within the window |
| Advice.SlidingWindowCounterAdvice | gateway/internal/limiter/sliding_window_counter.go:48-86 | a told delay ends with the window; the next request at that time passes iff there were at most limit - 2 attempts; a told budget is one too high exactly if the estimate was whole; every answer follows from the arrivals |
| Validation.ValidatedWindow | gateway/internal/policy/service.go:258-268 | stored window parameters are readable iff no integer field was submitted strictly between 0 and 1, and are then positive |
| Validation.ValidatedBucket | gateway/internal/policy/service.go:270-318 | the same for both buckets, whose configuration is then valid |
| Validation.AcceptsIff | gateway/internal/policy/service.go:258-318 | parameters are accepted iff the required fields, and a given cost, hold positive numbers |
| Validation.StoredWindow | gateway/internal/policy/service.go:258-268 | exactly the two window fields are stored, each the whole part of the submitted field of its name |
| Validation.StoredTokenBucket | gateway/internal/policy/service.go:270-293 | exactly capacity, rate and cost are stored, whole parts of the submitted capacity and cost, the submitted rate, and 1 for an absent cost |
| Validation.StoredLeakyBucket | gateway/internal/policy/service.go:295-318 | the same for the leaky bucket's fields |
| Validation.WindowAsSubmitted | gateway/internal/policy/service.go:258-268 | the limiters read the submitted window and limit iff both are at least 1 |
| Validation.TokenBucketAsSubmitted | gateway/internal/policy/service.go:270-293 | the limiter reads the submitted capacity, rate and cost iff the integers are at least 1 |
| Validation.LeakyBucketAsSubmitted | gateway/internal/policy/service.go:295-318 | the same for the leaky bucket |
| Validation.SupportsIff | gateway/internal/policy/service.go:233-243 | which algorithm names are accepted, and the error for the others |
| Validation.RevalidationKeeps | gateway/internal/policy/service.go:115-122 | validating stored parameters again succeeds under the same condition and changes nothing |
| PolicyService.Service.Create | gateway/internal/policy/service.go:59-84 | inserts a row with the requested name, algorithm and flag, version 1 and parameters validated from the request, or reports exactly why not; names stay unique |
| PolicyService.Service.Update | gateway/internal/policy/service.go:101-154 | column by column: given fields replace the old ones, the parameters are validated from the given or else the old ones, the version grows by 1, or it reports exactly why not |
| PolicyService.DraftColumns | gateway/internal/policy/service.go:59-77 | the row a create request asks for, and why it is refused |
| PolicyService.RevisionColumns | gateway/internal/policy/service.go:101-141 | the row an update request asks for, and why it is refused |
| PolicyService.TrimmedIsTrim | gateway/internal/policy/service.go:124-130 | a trimmed name is the given one without the white space around it, and empty iff that is blank |
| PolicyService.WritesKeepNames | gateway/internal/policy/service.go:68-77 | a write is refused as a conflict iff it would make two policies share a name, or insert an id twice |
| PolicyService.Service.Activate | gateway/internal/policy/service.go:156-184 | selects an enabled policy after deleting its keys; any error, including a failed reset, leaves the selector as it was |
| PolicyService.Service.Active | gateway/internal/policy/service.go:186-214 | returns the selected row iff one is selected and its algorithm is still the selector's |
| PolicyService.ResetMakesNew | gateway/internal/policy/service.go:165-169 | from a reset on, in any traffic, every client of the policy is answered as its own later requests on an empty store would be |
| PolicyService.ResetDuringTraffic | gateway/internal/policy/service.go:165-169 | with traffic during the reset, a client of the policy keeps only what was written meanwhile, and a spared client everything |
| PolicyService.ResetSparesIff | gateway/internal/policy/service.go:165-169 | a client of another policy keeps all its state iff it is spared or had none |
| PolicyService.ResetSparesDecisions | gateway/internal/policy/service.go:165-169 | from a reset on, in any traffic, a spared client of another policy is answered as without the reset |
| PolicyProtocol.AlwaysInvariant | gateway/internal/policy/service.go:59-214 | rows stay normalised and the selector keeps pointing to a row, under every statement-level interleaving |
| PolicyProtocol.AlwaysUniqueNames | gateway/internal/policy/service.go:59-154 | under every interleaving no two policies share a name |
| PolicyProtocol.ActiveIsSound | gateway/internal/policy/service.go:186-214 | a policy Active returns exists, matches the selector it read and carries validated parameters |
| PolicyProtocol.SelectorStays | gateway/internal/policy/service.go:171-183 | across any stretch of a run in which no Activate completes the selector stays |
| PolicyProtocol.LastActivateSelects | gateway/internal/policy/service.go:171-183 | in any run the selector is the choice of the Activate that completed last, a policy it had found enabled |
| PolicyProtocol.FailedCallsSelectNothing | gateway/internal/policy/service.go:156-184 | a call that ends in an error moves the selector at none of its steps |
| PolicyProtocol.ResetsBeforeSelecting | gateway/internal/policy/service.go:165-183 | in any run an Activate with reset moves the selector only after its reset has completed |
| PolicyProtocol.CreatesAlone | gateway/internal/policy/service.go:59-84 | uninterrupted, the statements of Create do what the call promises |
| PolicyProtocol.UpdatesAlone | gateway/internal/policy/service.go:101-154 | uninterrupted, the statements of Update do what the call promises |
| PolicyProtocol.ActivatesAlone | gateway/internal/policy/service.go:156-184 | uninterrupted, the statements of Activate select an enabled policy and no other |
| PolicyProtocol.AnswersAlone | gateway/internal/policy/service.go:186-214 | uninterrupted, the statements of Active return the selected policy |
| PolicyProtocol.ActiveNeverMisses | gateway/internal/policy/service.go:203-212 | in a run in which no update names an algorithm, Active never reports a missing target |
| PolicyProtocol.ChangedAlgorithmMisses | gateway/internal/policy/service.go:203-212 | after an update of the selected policy Active reports a missing target iff the update changed the algorithm |
| Simulate.ServingKeepsTypes | gateway/internal/runtime/redis_store.go:75-163 | every key keeps the Redis type its limiter expects |
| Simulate.RunsKeepTypes | gateway/internal/runtime/redis_store.go:75-163 | so do vanishing keys and resets, so in every reachable store |
| Simulate.ValidatedServes | gateway/internal/limiter/fixed_window.go:77-96 | in every reachable store, under validated parameters a request gets a decision unless an integer field was submitted below 1; it never divides by zero or meets a wrong type |
| Simulate.HalfSecondWindowFails | gateway/internal/policy/service.go:258-268 | a window of half a second passes validation, and then every request and every update that keeps it fail |
| Simulate.ActivePolicyServes | gateway/internal/simulate/service.go:37-53 | under every interleaving of policy calls and in every reachable store, the policy Active returns has a limiter, and serving it fails iff its row holds an integer parameter of 0 |
| Simulate.Evaluate | gateway/internal/simulate/service.go:37-72 | resolves the active policy, never fails to build its limiter, and serves the request or reports exactly why not |
| Dispatch.Runtime.ResolveClientId | frontend/src/hooks/simulationRuntime.ts:36-47 | the client id in turn, and the sequence advanced in rotating mode only |
| Dispatch.SendBatch | frontend/src/hooks/simulationRuntime.ts:78-92 | sends every whole request of the budget for which there is a slot, and no more, and starts a task for each |
| Dispatch.RunDispatchLoop | frontend/src/hooks/simulationRuntime.ts:49-102 | each turn sends exactly min(whole budget, free slots), none when paused, stopped or late, each request to the client in turn; at most rps * durationSec in all, every run of dispatches paced, nothing in flight on return |
| Dispatch.InFlightBounded | frontend/src/hooks/simulationRuntime.ts:78-92 | tasks in flight never exceed the concurrency, unless more were waiting at the start |
| Dispatch.FreeSlotMeansSpent | frontend/src/hooks/simulationRuntime.ts:73-92 | a running turn that leaves a slot free has spent all granted since the start, or two seconds' worth and all since some turn, so what the concurrency held back is sent as slots free up |
| Dispatch.LongGapSendsTheCap | frontend/src/hooks/simulationRuntime.ts:73-76 | after two seconds or more without a running turn exactly 2 * rps requests are sent, or as many as there are slots |
| Dispatch.SteadyLoopSendsAll | frontend/src/hooks/simulationRuntime.ts:73-92 | a loop never held back by the concurrency or a tick over a second sends exactly floor(rps * elapsed) |
| Dispatch.ClientNames | frontend/src/hooks/simulationRuntime.ts:36-47 | a single id is used as it is, a pool's ids are client-1 to client-n in turn, over and over |
| Dispatch.PoolUsedEvenly | frontend/src/hooks/simulationRuntime.ts:44-46 | rotating client ids are used evenly to within one |
| Dispatch.RotationIsEven | frontend/src/hooks/simulationRuntime.ts:44-46 | any stretch of a rotation gives two clients turns that differ by at most one |

## Left out

- HTTP handlers, routing, CORS, the upstream proxy, configuration and schema migration: plumbing without further state.
- React pages, charts, KPI sums, the event buffer and the hooks' start/stop status handling.
- The `algorithm_state` echo in decisions, request ids, timestamps and latency; `List`, `Ping` and the policy description.
- Redis and Postgres failures other than those named in contracts, and key types other than the four values of the store.
- Sorted-set members: the log keeps scores only, since members are distinct.
- RedisStore.Store.ScanDelete: SCAN batches and the writes between pages are parameters; keys that vanish or are deleted by
  others between pages are not modelled.
- Expiry.AnsweredAsIfAlone: a reset is one step of a run; writes between its pages are in PolicyService.ResetDuringTraffic.
- Dispatch.RunDispatchLoop: runs are observed for finitely many turns; a task that never settles would keep the loop waiting.
- PolicyService.Service.Create: the reading back of the inserted row cannot miss it, since rows are never deleted.
- Gateway.FixedWindowPromise: takes INCR and EXPIRE of one request together; their interleaving is in FixedWindow.ConcurrentWindows.
