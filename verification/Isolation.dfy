/**
 * Many clients on one store. Runs interleave requests of any clients with the disappearance of expired
 * keys; each client is shown to be served as if it were alone on a store that never expires anything.
 */
module Isolation {
  import opened Keys
  import opened RedisStore
  import opened Limiters
  import opened Windows

  datatype Client = Client(algorithm: Algorithm, policy: string, name: string)

  datatype Request = Request(client: Client, params: Params, now: int)

  function ServeRequest(data: Data, r: Request): (Outcome, Data) {
    Serve(r.client.algorithm, data, r.client.policy, r.client.name, r.now, r.params)
  }

  ghost predicate OwnsKey(c: Client, key: string) { Owns(c.algorithm, c.policy, c.name, key) }

  // ---------- isolation ----------

  /** Two stores hold the same under every key of a client. */
  ghost predicate Agree(c: Client, d: Data, e: Data) {
    forall k :: OwnsKey(c, k) ==> SameAt(d, e, k)
  }

  /** A request leaves every key that is not its client's as it was. */
  lemma TouchesOwnKeys(data: Data, r: Request, key: string)
    requires !OwnsKey(r.client, key)
    ensures var after := ServeRequest(data, r).1;
            (key in after <==> key in data) && (key in data ==> after[key] == data[key])
  {
    var Client(a, p, c) := r.client;
    if a.Windowed() {
      var read := ReadWindow(r.params);
      if read.Ok? && read.value.0 > 0 {
        assert OwnsKey(r.client, WindowKey(a, p, c, Start(r.now, read.value.0 * 1000)));
      }
    } else {
      assert OwnsKey(r.client, ClientKey(a, p, c));
    }
  }

  /** Both stores stayed the same or got the same new entry under one key. */
  ghost predicate SameUpdate(d: Data, d': Data, e: Data, e': Data, key: string) {
    || (d' == d && e' == e)
    || (SameAt(d', e', key) && key in d' && d' == d[key := d'[key]] && e' == e[key := e'[key]])
  }

  lemma UpdateKeepsAgreement(c: Client, d: Data, d': Data, e: Data, e': Data, key: string)
    requires Agree(c, d, e) && SameUpdate(d, d', e, e', key)
    ensures Agree(c, d', e')
  {
  }

  lemma SlidingWindowCounterLocal(d: Data, e: Data, current: string, previous: string, windowSec: int, limit: int, now: int)
    requires windowSec > 0 && SameAt(d, e, current) && SameAt(d, e, previous)
    ensures var (r, d') := SlidingWindowCounterOn(d, current, previous, windowSec, limit, now);
            var (q, e') := SlidingWindowCounterOn(e, current, previous, windowSec, limit, now);
            r == q && SameUpdate(d, d', e, e', current)
  {
  }

  lemma FixedWindowLocal(d: Data, e: Data, key: string, windowSec: int, limit: int, now: int)
    requires windowSec > 0 && SameAt(d, e, key)
    ensures var (r, d') := FixedWindowOn(d, key, windowSec, limit, now);
            var (q, e') := FixedWindowOn(e, key, windowSec, limit, now);
            r == q && SameUpdate(d, d', e, e', key)
  {
  }

  lemma SlidingLogLocal(d: Data, e: Data, key: string, windowSec: int, limit: int, now: int)
    requires SameAt(d, e, key)
    ensures var (r, d') := SlidingLogOn(d, key, windowSec, limit, now);
            var (q, e') := SlidingLogOn(e, key, windowSec, limit, now);
            r == q && SameUpdate(d, d', e, e', key)
  {
  }

  lemma BucketsLocal(d: Data, e: Data, key: string, c: Config, now: int)
    requires c.rate > 0.0 && SameAt(d, e, key)
    ensures var (r, d') := TokenBucketOn(d, key, c, now);
            var (q, e') := TokenBucketOn(e, key, c, now);
            r == q && SameUpdate(d, d', e, e', key)
    ensures var (r, d') := LeakyBucketOn(d, key, c, now);
            var (q, e') := LeakyBucketOn(e, key, c, now);
            r == q && SameUpdate(d, d', e, e', key)
  {
  }

  /** What a request reads and writes under its client's keys is the same on stores that agree there. */
  lemma SameOnOwnKeys(d: Data, e: Data, r: Request) returns (key: string)
    requires Agree(r.client, d, e)
    ensures ServeRequest(d, r).0 == ServeRequest(e, r).0
    ensures SameUpdate(d, ServeRequest(d, r).1, e, ServeRequest(e, r).1, key)
  {
    var Client(a, p, c) := r.client;
    match a
    case FixedWindow =>
      key := SameOnWindowKeys(d, e, r);
    case SlidingWindowCounter =>
      key := SameOnWindowKeys(d, e, r);
    case SlidingLog =>
      key := ClientKey(a, p, c);
      assert OwnsKey(r.client, key);
      if ReadWindow(r.params).Ok? {
        SlidingLogLocal(d, e, key, ReadWindow(r.params).value.0, ReadWindow(r.params).value.1, r.now);
      }
    case TokenBucket =>
      key := ClientKey(a, p, c);
      assert OwnsKey(r.client, key);
      var config := ReadBucket(r.params, "refill_rate_per_sec", "tokens_per_request");
      if config.Ok? {
        BucketsLocal(d, e, key, config.value, r.now);
      }
    case LeakyBucket =>
      key := ClientKey(a, p, c);
      assert OwnsKey(r.client, key);
      var config := ReadBucket(r.params, "leak_rate_per_sec", "water_per_request");
      if config.Ok? {
        BucketsLocal(d, e, key, config.value, r.now);
      }
  }

  lemma SameOnWindowKeys(d: Data, e: Data, r: Request) returns (key: string)
    requires Agree(r.client, d, e) && r.client.algorithm.Windowed()
    ensures ServeRequest(d, r).0 == ServeRequest(e, r).0
    ensures SameUpdate(d, ServeRequest(d, r).1, e, ServeRequest(e, r).1, key)
  {
    key := "";
    var Client(a, p, c) := r.client;
    var read := ReadWindow(r.params);
    if read.Ok? && read.value.0 > 0 {
      var start := Start(r.now, read.value.0 * 1000);
      key := WindowKey(a, p, c, start);
      var previous := WindowKey(a, p, c, start - read.value.0 * 1000);
      AgreeOnWindow(r.client, d, e, start);
      AgreeOnWindow(r.client, d, e, start - read.value.0 * 1000);
      ServesWindow(a, d, p, c, r.now, r.params, read.value.0, read.value.1, start, key, previous);
      ServesWindow(a, e, p, c, r.now, r.params, read.value.0, read.value.1, start, key, previous);
      WindowLocal(a, d, e, key, previous, read.value.0, read.value.1, r.now);
    }
  }

  lemma AgreeOnWindow(c: Client, d: Data, e: Data, start: int)
    requires Agree(c, d, e) && c.algorithm.Windowed()
    ensures SameAt(d, e, WindowKey(c.algorithm, c.policy, c.name, start))
  {
    assert OwnsKey(c, WindowKey(c.algorithm, c.policy, c.name, start));
  }

  lemma WindowLocal(a: Algorithm, d: Data, e: Data, key: string, previous: string, windowSec: int, limit: int, now: int)
    requires windowSec > 0 && SameAt(d, e, key) && SameAt(d, e, previous)
    ensures var (r, d') := WindowOn(a, d, key, previous, windowSec, limit, now);
            var (q, e') := WindowOn(a, e, key, previous, windowSec, limit, now);
            r == q && SameUpdate(d, d', e, e', key)
  {
    FixedWindowLocal(d, e, key, windowSec, limit, now);
    SlidingWindowCounterLocal(d, e, key, previous, windowSec, limit, now);
  }

  /** The decision, and what it leaves under the client's keys, depend on the client's keys alone. */
  lemma ReadsOwnKeys(d: Data, e: Data, r: Request)
    requires Agree(r.client, d, e)
    ensures ServeRequest(d, r).0 == ServeRequest(e, r).0
    ensures Agree(r.client, ServeRequest(d, r).1, ServeRequest(e, r).1)
  {
    var key := SameOnOwnKeys(d, e, r);
    UpdateKeepsAgreement(r.client, d, ServeRequest(d, r).1, e, ServeRequest(e, r).1, key);
  }

  /** The store after some requests. */
  function After(data: Data, rs: seq<Request>): Data {
    if rs == [] then data else ServeRequest(After(data, rs[..|rs| - 1]), rs[|rs| - 1]).1
  }

  /** The requests of one client. */
  function Own(c: Client, rs: seq<Request>): seq<Request> {
    if rs == [] then []
    else
      var own := Own(c, rs[..|rs| - 1]);
      if rs[|rs| - 1].client == c then own + [rs[|rs| - 1]] else own
  }

  /** Another client's request changes nothing a client can see. */
  lemma OthersInvisible(c: Client, d: Data, r: Request)
    requires ':' !in c.policy && ':' !in r.client.policy && r.client != c
    ensures Agree(c, d, ServeRequest(d, r).1)
  {
    forall k | OwnsKey(c, k) ensures !OwnsKey(r.client, k) {
      if OwnsKey(r.client, k) {
        OwnersAreUnique(c.algorithm, c.policy, c.name, r.client.algorithm, r.client.policy, r.client.name, k);
      }
    }
    forall k | OwnsKey(c, k)
      ensures k in d <==> k in ServeRequest(d, r).1
      ensures k in d ==> d[k] == ServeRequest(d, r).1[k]
    {
      TouchesOwnKeys(d, r, k);
    }
  }

  lemma AgreeChain(c: Client, d: Data, d': Data, e: Data)
    requires Agree(c, d, e) && Agree(c, d, d')
    ensures Agree(c, d', e)
  {
  }

  /** One more request, on the shared store and, if it is the client's own, on the other one. */
  lemma StepAgrees(c: Client, d: Data, e: Data, r: Request, d': Data, e': Data)
    requires Agree(c, d, e) && ':' !in c.policy && ':' !in r.client.policy
    requires d' == ServeRequest(d, r).1
    requires e' == if r.client == c then ServeRequest(e, r).1 else e
    ensures Agree(c, d', e')
  {
    if r.client == c {
      ReadsOwnKeys(d, e, r);
    } else {
      OthersInvisible(c, d, r);
      AgreeChain(c, d, d', e);
    }
  }

  lemma {:induction false} RunsAgree(c: Client, data: Data, alone: Data, rs: seq<Request>)
    requires ':' !in c.policy && Agree(c, data, alone) && forall r :: r in rs ==> ':' !in r.client.policy
    ensures Agree(c, After(data, rs), After(alone, Own(c, rs)))
  {
    if rs != [] {
      var front, r := rs[..|rs| - 1], rs[|rs| - 1];
      RunsAgree(c, data, alone, front);
      var own := Own(c, front);
      if r.client == c {
        assert (own + [r])[..|own|] == own;
      }
      StepAgrees(c, After(data, front), After(alone, own), r, After(data, rs), After(alone, Own(c, rs)));
    }
  }

  /**
   * Client isolation: in any interleaving of requests of any clients, policies, algorithms and parameters, with any
   * clocks, each request is answered as if only its client's own requests had come before, on any store that
   * started with the same under the client's keys.
   */
  lemma ClientIsolation(data: Data, alone: Data, rs: seq<Request>, r: Request)
    requires Agree(r.client, data, alone)
    requires ':' !in r.client.policy && forall q :: q in rs ==> ':' !in q.client.policy
    ensures ServeRequest(After(data, rs), r).0 == ServeRequest(After(alone, Own(r.client, rs)), r).0
  {
    RunsAgree(r.client, data, alone, rs);
    ReadsOwnKeys(After(data, rs), After(alone, Own(r.client, rs)), r);
  }
}
