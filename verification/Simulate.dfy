/** Serving a request under the active policy (simulate/service.go), end to end over policies and store. */
module Simulate {
  import opened Basics
  import opened Keys
  import opened Limiters
  import opened Validation
  import opened PolicyService
  import opened Isolation
  import opened RedisStore
  import Expiry
  import PolicyProtocol
  import Windows

  /** Why a request gets no decision: the policy could not be resolved, or the limiter failed. */
  datatype Failure = FromPolicy(policyError: PolicyError) | FromLimiter(limiterError: Error)

  datatype Response = Response(policy: string, algorithm: string, decision: Decision)

  // ---------- key types ----------

  predicate KindFits(a: Algorithm, v: Value) {
    match a
    case FixedWindow => v.Counter?
    case SlidingWindowCounter => v.Counter?
    case SlidingLog => v.ScoreLog?
    case TokenBucket => v.TokenHash?
    case LeakyBucket => v.WaterHash?
  }

  /** Every key holds the type its limiter expects. */
  ghost predicate WellTyped(data: Data) {
    forall c: Client, k :: OwnsKey(c, k) && ':' !in c.policy && k in data ==> KindFits(c.algorithm, data[k].value)
  }

  lemma WritesOwnKind(data: Data, r: Request, key: string)
    ensures var after := ServeRequest(data, r).1;
            key in after ==> (key in data && after[key] == data[key]) || KindFits(r.client.algorithm, after[key].value)
  {
  }

  /** Serving any request keeps every key well typed. */
  lemma ServingKeepsTypes(data: Data, r: Request)
    requires WellTyped(data) && ':' !in r.client.policy
    ensures WellTyped(ServeRequest(data, r).1)
  {
    var after := ServeRequest(data, r).1;
    forall c: Client, k | OwnsKey(c, k) && ':' !in c.policy && k in after
      ensures KindFits(c.algorithm, after[k].value)
    {
      if OwnsKey(r.client, k) {
        OwnersAreUnique(c.algorithm, c.policy, c.name, r.client.algorithm, r.client.policy, r.client.name, k);
        WritesOwnKind(data, r, k);
      } else {
        TouchesOwnKeys(data, r, k);
      }
    }
  }

  /** So does everything else that happens to the store. */
  lemma {:induction false} RunsKeepTypes(events: seq<Expiry.Event>)
    requires Expiry.LegalRun(events)
    ensures WellTyped(Expiry.StoreAfter(events))
  {
    if events != [] {
      var front, e := events[..|events| - 1], events[|events| - 1];
      RunsKeepTypes(front);
      if e.Call? {
        ServingKeepsTypes(Expiry.StoreAfter(front), e.r);
      }
    }
  }

  lemma TypedServes(data: Data, r: Request, submitted: Params)
    requires WellTyped(data) && ':' !in r.client.policy && Validated(r.client.algorithm, r.params, submitted)
    ensures ServeRequest(data, r).0.Ok? <==> !SubUnit(r.client.algorithm, submitted)
    ensures ServeRequest(data, r).0.Err? ==> ServeRequest(data, r).0.error == NotPositive
  {
    var a := r.client.algorithm;
    if a.TokenBucket? || a.LeakyBucket? {
      ValidatedBucket(a, r.params, submitted);
      assert OwnsKey(r.client, ClientKey(a, r.client.policy, r.client.name));
    } else {
      ValidatedWindow(a, r.params, submitted);
      ValidatedWindowServes(data, r);
    }
  }

  /**
   * After any run, a request under validated parameters gets a decision unless an integer field was submitted
   * below 1; there is no division by zero, no invalid argument, no wrong type.
   */
  lemma ValidatedServes(events: seq<Expiry.Event>, r: Request, submitted: Params)
    requires Expiry.LegalRun(events) && ':' !in r.client.policy && Validated(r.client.algorithm, r.params, submitted)
    ensures ServeRequest(Expiry.StoreAfter(events), r).0.Ok? <==> !SubUnit(r.client.algorithm, submitted)
    ensures ServeRequest(Expiry.StoreAfter(events), r).0.Err? ==>
      ServeRequest(Expiry.StoreAfter(events), r).0.error == NotPositive
  {
    RunsKeepTypes(events);
    TypedServes(Expiry.StoreAfter(events), r, submitted);
  }

  /** Half a second is accepted as a window, and then no request under the policy is ever decided and no update may keep it. */
  lemma HalfSecondWindowFails(events: seq<Expiry.Event>, client: string, now: int)
    requires Expiry.LegalRun(events)
    ensures var submitted := map["window_size_sec" := Float(0.5), "limit" := Float(10.0)];
            var valid := ValidateParams(Algorithm.FixedWindow, submitted);
            && valid.Ok?
            && ServeRequest(Expiry.StoreAfter(events),
                            Request(Client(Algorithm.FixedWindow, "p1", client), Stored(valid.value), now)).0
               == Err(NotPositive)
            && ValidateParams(Algorithm.FixedWindow, Stored(valid.value)).Err?
  {
    var submitted := map["window_size_sec" := Float(0.5), "limit" := Float(10.0)];
    var params := Stored(ValidateParams(Algorithm.FixedWindow, submitted).value);
    assert SubUnit(Algorithm.FixedWindow, submitted) by {
      assert "window_size_sec" in IntegerFields(Algorithm.FixedWindow) && submitted["window_size_sec"] == Float(0.5);
    }
    ValidatedServes(events, Request(Client(Algorithm.FixedWindow, "p1", client), params, now), submitted);
    RevalidationKeeps(Algorithm.FixedWindow, params, submitted);
  }

  lemma ValidatedWindowServes(data: Data, r: Request)
    requires WellTyped(data) && ':' !in r.client.policy && !r.client.algorithm.TokenBucket? && !r.client.algorithm.LeakyBucket?
    requires ReadWindow(r.params).Ok? ==> ReadWindow(r.params).value.0 > 0 && ReadWindow(r.params).value.1 > 0
    ensures ServeRequest(data, r).0.Ok? <==> ReadWindow(r.params).Ok?
    ensures ReadWindow(r.params).Err? ==> ServeRequest(data, r).0 == Err(ReadWindow(r.params).error)
  {
    var Client(a, p, c) := r.client;
    var read := ReadWindow(r.params);
    if a.SlidingLog? {
      assert OwnsKey(r.client, ClientKey(a, p, c));
    } else if read.Ok? {
      var start := Windows.Start(r.now, read.value.0 * 1000);
      var key, previous := WindowKey(a, p, c, start), WindowKey(a, p, c, start - read.value.0 * 1000);
      ServesWindow(a, data, p, c, r.now, r.params, read.value.0, read.value.1, start, key, previous);
      CountersServe(data, r, key, previous, read.value.0, read.value.1);
    }
  }

  /** Counters of the right type always yield a decision. */
  lemma CountersServe(data: Data, r: Request, key: string, previous: string, windowSec: int, limit: int)
    requires WellTyped(data) && ':' !in r.client.policy && r.client.algorithm.Windowed() && windowSec > 0
    requires OwnsKey(r.client, key) && OwnsKey(r.client, previous)
    ensures WindowOn(r.client.algorithm, data, key, previous, windowSec, limit, r.now).0.Ok?
  {
  }

  /** No integer parameter of the row has been truncated to 0. */
  ghost predicate NoZero(a: Algorithm, params: Params) {
    forall k :: k in IntegerFields(a) && k in params ==> params[k] != Float(0.0)
  }

  lemma SubUnitStoresZero(a: Algorithm, params: Params, submitted: Params)
    requires Validated(a, params, submitted)
    ensures NoZero(a, params) <==> !SubUnit(a, submitted)
  {
  }

  /**
   * Whatever policy calls run concurrently and whatever the store has gone through, the policy Active hands to a
   * request has a limiter, and serving fails exactly if the row holds an integer parameter that was truncated to 0.
   */
  lemma ActivePolicyServes(steps: seq<PolicyProtocol.Step>, t: nat, row: Policy, events: seq<Expiry.Event>, client: string, now: int)
    requires PolicyProtocol.FreshIds(steps) && t in PolicyProtocol.After(steps).tasks
    requires PolicyProtocol.After(steps).tasks[t].Answered? && PolicyProtocol.After(steps).tasks[t].answer == Ok(row)
    requires Expiry.LegalRun(events)
    ensures BuildLimiter(row.algorithm).Ok?
    ensures var a := BuildLimiter(row.algorithm).value;
            var outcome := ServeRequest(Expiry.StoreAfter(events), Request(Client(a, row.id, client), row.params, now)).0;
            (outcome.Ok? <==> NoZero(a, row.params)) && (outcome.Err? ==> outcome.error == NotPositive)
  {
    PolicyProtocol.AlwaysInvariant(steps);
    PolicyProtocol.ActiveIsSound(steps, t);
    var a := BuildLimiter(row.algorithm).value;
    var submitted :| Validated(a, row.params, submitted);
    assert Uuid(row.id) by {
      assert row.id in PolicyProtocol.After(steps).rows;
    }
    assert ':' !in row.id;
    ValidatedServes(events, Request(Client(a, row.id, client), row.params, now), submitted);
    SubUnitStoresZero(a, row.params, submitted);
  }

  // ---------- Evaluate ----------

  /** Serves one request; `now` is the clock reading it takes. */
  method Evaluate(policies: Service, client: string, now: int) returns (r: Result<Response, Failure>)
    requires Consistent(policies.rows, policies.active) && WellTyped(policies.store.data)
    modifies policies.store
    ensures WellTyped(policies.store.data)
    ensures policies.active.None? ==> r == Err(FromPolicy(NoActivePolicy)) && policies.store.data == old(policies.store.data)
    ensures policies.active.Some? ==>
      var row := policies.rows[policies.active.value.id];
      if row.algorithm != policies.active.value.algorithm then
        r == Err(FromPolicy(ActivePolicyMissing)) && policies.store.data == old(policies.store.data)
      else
        var request := Request(Client(BuildLimiter(row.algorithm).value, row.id, client), row.params, now);
        var (outcome, data) := ServeRequest(old(policies.store.data), request);
        && policies.store.data == data
        && (outcome.Ok? ==> r == Ok(Response(row.id, row.algorithm, outcome.value)))
        && (outcome.Err? ==> r == Err(FromLimiter(NotPositive)))
        && (r.Ok? <==> NoZero(request.client.algorithm, row.params))
  {
    var active := policies.Active();
    if active.Err? {
      return Err(FromPolicy(active.error));
    }
    var row := active.value;
    var limiter := BuildLimiter(row.algorithm);
    if limiter.Err? {
      assert false;  // Active returns supported algorithms only
    }
    ghost var request := Request(Client(limiter.value, row.id, client), row.params, now);
    assert PlainId(row.id) && ':' !in row.id;
    ServingKeepsTypes(policies.store.data, request);
    ghost var submitted :| Validated(limiter.value, row.params, submitted);
    TypedServes(policies.store.data, request, submitted);
    SubUnitStoresZero(limiter.value, row.params, submitted);
    var decision := Allow(limiter.value, policies.store, row.id, client, now, row.params);
    if decision.Err? {
      return Err(FromLimiter(decision.error));
    }
    return Ok(Response(row.id, row.algorithm, decision.value));
  }
}
