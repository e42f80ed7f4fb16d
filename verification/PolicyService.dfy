/** The policy service (service.go): policy rows, the active selector, and resets of the runtime store. */
module PolicyService {
  import opened Basics
  import opened Keys
  import opened Limiters
  import opened Validation
  import Isolation
  import RedisStore
  import Reset

  datatype Policy = Policy(id: string, name: string, algorithm: string, params: Params, enabled: bool, version: int)

  datatype CreateRequest = CreateRequest(name: string, algorithm: string, params: Params, enabled: bool)

  /** Absent fields keep their value. */
  datatype UpdateRequest =
    UpdateRequest(name: Option<string>, algorithm: Option<string>, params: Option<Params>, enabled: Option<bool>)

  /** The single row of active_policy. */
  datatype Selector = Selector(algorithm: string, id: string)

  type Rows = map<string, Policy>

  function Trimmed(s: string): string
    decreases |s|
  {
    if s == "" then s
    else if IsSpace(s[0]) then Trimmed(s[1..])
    else if IsSpace(s[|s| - 1]) then Trimmed(s[..|s| - 1])
    else s
  }

  predicate Padded(s: string, a: string, t: string, b: string) { Blank(a) && Blank(b) && s == a + t + b }

  /** t is s without the white space around it. */
  ghost predicate TrimOf(s: string, t: string) {
    && (t == "" || (!IsSpace(t[0]) && !IsSpace(t[|t| - 1])))
    && exists a, b :: Padded(s, a, t, b)
  }

  lemma BlankFront(s: string)
    requires s != "" && IsSpace(s[0])
    ensures Blank(s) <==> Blank(s[1..])
  {
    assert s == [s[0]] + s[1..];
  }

  lemma BlankBack(s: string)
    requires s != "" && IsSpace(s[|s| - 1])
    ensures Blank(s) <==> Blank(s[..|s| - 1])
  {
  }

  lemma PadFront(s: string, a: string, t: string, b: string)
    requires s != "" && IsSpace(s[0]) && Padded(s[1..], a, t, b)
    ensures Padded(s, [s[0]] + a, t, b)
  {
    assert s == [s[0]] + s[1..];
  }

  lemma PadBack(s: string, a: string, t: string, b: string)
    requires s != "" && IsSpace(s[|s| - 1]) && Padded(s[..|s| - 1], a, t, b)
    ensures Padded(s, a, t, b + [s[|s| - 1]])
  {
    assert s == s[..|s| - 1] + [s[|s| - 1]];
  }

  lemma TrimFront(s: string, t: string)
    requires s != "" && IsSpace(s[0]) && TrimOf(s[1..], t)
    ensures TrimOf(s, t)
  {
    var a, b :| Padded(s[1..], a, t, b);
    PadFront(s, a, t, b);
  }

  lemma TrimBack(s: string, t: string)
    requires s != "" && IsSpace(s[|s| - 1]) && TrimOf(s[..|s| - 1], t)
    ensures TrimOf(s, t)
  {
    var a, b :| Padded(s[..|s| - 1], a, t, b);
    PadBack(s, a, t, b);
  }

  lemma TrimNothing(s: string)
    requires s != "" ==> !IsSpace(s[0]) && !IsSpace(s[|s| - 1])
    ensures TrimOf(s, s) && (s == "" <==> Blank(s))
  {
    assert Padded(s, "", s, "");
  }

  lemma {:induction false} TrimmedIsTrim(s: string)
    ensures TrimOf(s, Trimmed(s))
    ensures Trimmed(s) == "" <==> Blank(s)
    decreases |s|
  {
    if s != "" && IsSpace(s[0]) {
      TrimmedIsTrim(s[1..]);
      BlankFront(s);
      TrimFront(s, Trimmed(s[1..]));
    } else if s != "" && IsSpace(s[|s| - 1]) {
      TrimmedIsTrim(s[..|s| - 1]);
      BlankBack(s);
      TrimBack(s, Trimmed(s[..|s| - 1]));
    } else {
      TrimNothing(s);
    }
  }

  /** The row Create inserts. */
  function Draft(id: string, req: CreateRequest): Result<Policy, PolicyError> {
    match ValidateAlgorithm(req.algorithm)
    case Err(e) => Err(e)
    case Ok(a) =>
      match ValidateParams(a, req.params)
      case Err(e) => Err(e)
      case Ok(params) => Ok(Policy(id, req.name, req.algorithm, Stored(params), req.enabled, 1))
  }

  /** The columns Update writes, computed from the row it read. */
  function Revision(current: Policy, req: UpdateRequest): Result<Policy, PolicyError> {
    var algorithm := req.algorithm.GetOr(current.algorithm);
    match ValidateAlgorithm(algorithm)
    case Err(e) => Err(e)
    case Ok(a) =>
      match ValidateParams(a, req.params.GetOr(current.params))
      case Err(e) => Err(e)
      case Ok(params) =>
        var name := if req.name.Some? then Trimmed(req.name.value) else current.name;
        if req.name.Some? && name == "" then Err(InvalidInput)
        else
          Ok(Policy(current.id, name, algorithm, Stored(params), req.enabled.GetOr(current.enabled), current.version))
  }

  /** The name is taken by another row. */
  predicate NameTaken(rows: Rows, id: string, name: string) {
    exists k :: k in rows && k != id && rows[k].name == name
  }

  /** INSERT, with its primary key and unique name. */
  function Inserted(rows: Rows, row: Policy): Result<Rows, PolicyError> {
    if row.id in rows || NameTaken(rows, row.id, row.name) then Err(Conflict) else Ok(rows[row.id := row])
  }

  /** UPDATE ... WHERE id; the version column counts from whatever it is by now. */
  function Rewritten(rows: Rows, row: Policy): Result<Rows, PolicyError> {
    if row.id !in rows then Ok(rows)
    else if NameTaken(rows, row.id, row.name) then Err(Conflict)
    else Ok(rows[row.id := row.(version := rows[row.id].version + 1)])
  }

  function Selected(rows: Rows, id: string): Result<Policy, PolicyError> {
    if id in rows then Ok(rows[id]) else Err(NotFound)
  }

  /** What Active makes of a selector and the row it points to. */
  function Resolved(selector: Selector, row: Result<Policy, PolicyError>): Result<Policy, PolicyError> {
    match row
    case Err(e) => if e == NotFound then Err(ActivePolicyMissing) else Err(e)
    case Ok(policy) => if policy.algorithm != selector.algorithm then Err(ActivePolicyMissing) else Ok(policy)
  }

  // ---------- invariants ----------

  /** The row names a supported algorithm and carries parameters that its validation accepted. */
  ghost predicate Normalised(row: Policy) {
    BuildLimiter(row.algorithm).Ok? && exists submitted :: Validated(BuildLimiter(row.algorithm).value, row.params, submitted)
  }

  /** Ids are fresh UUIDs. */
  predicate Uuid(id: string) { PlainId(id) && !Blank(id) }

  ghost predicate Consistent(rows: Rows, active: Option<Selector>) {
    && (forall id :: id in rows ==> Uuid(id) && rows[id].id == id && Normalised(rows[id]))
    && (active.Some? ==> active.value.id in rows && BuildLimiter(active.value.algorithm).Ok?)
  }

  /** No two policies share a name. */
  ghost predicate UniqueNames(rows: Rows) {
    forall i, j :: i in rows && j in rows && i != j ==> rows[i].name != rows[j].name
  }

  /** A name is taken exactly if giving it to the row would make two policies share it. */
  lemma TakenIff(rows: Rows, row: Policy)
    requires UniqueNames(rows)
    ensures NameTaken(rows, row.id, row.name) <==> !UniqueNames(rows[row.id := row])
  {
    var rows' := rows[row.id := row];
    if NameTaken(rows, row.id, row.name) {
      var k :| k in rows && k != row.id && rows[k].name == row.name;
      assert k in rows' && row.id in rows' && rows'[k].name == rows'[row.id].name;
    }
  }

  /** So a write is refused as a conflict exactly if it would break the names' uniqueness, or insert a row twice. */
  lemma WritesKeepNames(rows: Rows, row: Policy)
    requires UniqueNames(rows)
    ensures Inserted(rows, row).Ok? <==> row.id !in rows && UniqueNames(rows[row.id := row])
    ensures Rewritten(rows, row).Ok? <==> row.id !in rows || UniqueNames(rows[row.id := row])
    ensures Inserted(rows, row).Ok? ==> UniqueNames(Inserted(rows, row).value)
    ensures Rewritten(rows, row).Ok? ==> UniqueNames(Rewritten(rows, row).value)
  {
    TakenIff(rows, row);
    if row.id in rows && UniqueNames(rows[row.id := row]) {
      SameName(rows, row);
    }
  }

  /** The version does not matter. */
  lemma SameName(rows: Rows, row: Policy)
    requires row.id in rows && UniqueNames(rows[row.id := row])
    ensures UniqueNames(rows[row.id := row.(version := rows[row.id].version + 1)])
  {
    var rows', rows'' := rows[row.id := row], rows[row.id := row.(version := rows[row.id].version + 1)];
    forall i, j | i in rows'' && j in rows'' && i != j ensures rows''[i].name != rows''[j].name {
      assert rows''[i].name == rows'[i].name && rows''[j].name == rows'[j].name;
    }
  }

  lemma DraftNormalised(id: string, req: CreateRequest)
    requires Draft(id, req).Ok?
    ensures Normalised(Draft(id, req).value) && Draft(id, req).value.id == id
  {
    assert Validated(BuildLimiter(req.algorithm).value, Draft(id, req).value.params, req.params);
  }

  lemma RevisionNormalised(current: Policy, req: UpdateRequest)
    requires Revision(current, req).Ok?
    ensures Normalised(Revision(current, req).value) && Revision(current, req).value.id == current.id
  {
    var row := Revision(current, req).value;
    assert Validated(BuildLimiter(row.algorithm).value, row.params, req.params.GetOr(current.params));
  }

  /** A supported name is never blank, so the selector of a consistent database is never taken for none. */
  lemma SupportedNotBlank(name: string)
    requires BuildLimiter(name).Ok?
    ensures !Blank(name)
  {
    assert !IsSpace(name[0]);
  }

  lemma InsertKeepsConsistent(rows: Rows, active: Option<Selector>, row: Policy)
    requires Consistent(rows, active) && Uuid(row.id) && Normalised(row) && Inserted(rows, row).Ok?
    ensures Consistent(Inserted(rows, row).value, active)
  {
  }

  lemma RewriteKeepsConsistent(rows: Rows, active: Option<Selector>, row: Policy)
    requires Consistent(rows, active) && Normalised(row) && Rewritten(rows, row).Ok?
    ensures Consistent(Rewritten(rows, row).value, active)
    ensures Rewritten(rows, row).value.Keys == rows.Keys
  {
  }

  // ---------- what the calls promise ----------

  /** A row of this algorithm with parameters validated from those submitted. */
  ghost predicate Holds(row: Policy, algorithm: string, submitted: Params) {
    row.algorithm == algorithm && BuildLimiter(algorithm).Ok? && Validated(BuildLimiter(algorithm).value, row.params, submitted)
  }

  /** The row that Create makes of a request. */
  ghost predicate CreatedFrom(row: Policy, id: string, req: CreateRequest) {
    && Holds(row, req.algorithm, req.params)
    && row.id == id && row.name == req.name && row.enabled == req.enabled && row.version == 1
  }

  /** The row that Update makes of another: what the request gives replaces what was there. */
  ghost predicate UpdatedFrom(row: Policy, before: Policy, req: UpdateRequest) {
    && Holds(row, if req.algorithm.Some? then req.algorithm.value else before.algorithm,
             if req.params.Some? then req.params.value else before.params)
    && row.id == before.id && row.version == before.version + 1
    && (if req.name.Some? then TrimOf(req.name.value, row.name) && !Blank(req.name.value) else row.name == before.name)
    && row.enabled == (if req.enabled.Some? then req.enabled.value else before.enabled)
  }

  /** Why an algorithm and its parameters are refused, if they are. */
  function Refusal(algorithm: string, params: Params): Option<PolicyError> {
    match BuildLimiter(algorithm)
    case Err(_) => Some(if Blank(algorithm) then InvalidInput else Unsupported)
    case Ok(a) => if Acceptable(a, params) then None else Some(InvalidInput)
  }

  lemma DraftColumns(id: string, req: CreateRequest)
    ensures Draft(id, req).Ok? <==> Refusal(req.algorithm, req.params).None?
    ensures Draft(id, req).Err? ==> Refusal(req.algorithm, req.params) == Some(Draft(id, req).error)
    ensures Draft(id, req).Ok? ==> CreatedFrom(Draft(id, req).value, id, req)
  {
    SupportsIff(req.algorithm);
    if BuildLimiter(req.algorithm).Ok? {
      AcceptsIff(BuildLimiter(req.algorithm).value, req.params);
    }
  }

  /** Why an update of a row is refused before it is written, if it is. */
  function UpdateRefusal(before: Policy, req: UpdateRequest): Option<PolicyError> {
    var refusal := Refusal(if req.algorithm.Some? then req.algorithm.value else before.algorithm,
                           if req.params.Some? then req.params.value else before.params);
    if refusal.Some? then refusal
    else if req.name.Some? && Blank(req.name.value) then Some(InvalidInput)
    else None
  }

  lemma RevisionColumns(before: Policy, req: UpdateRequest)
    ensures Revision(before, req).Ok? <==> UpdateRefusal(before, req).None?
    ensures Revision(before, req).Err? ==> UpdateRefusal(before, req) == Some(Revision(before, req).error)
    ensures Revision(before, req).Ok? ==> Revision(before, req).value.version == before.version
    ensures Revision(before, req).Ok? ==>
      UpdatedFrom(Revision(before, req).value.(version := before.version + 1), before, req)
  {
    var algorithm, params := req.algorithm.GetOr(before.algorithm), req.params.GetOr(before.params);
    SupportsIff(algorithm);
    if BuildLimiter(algorithm).Ok? {
      AcceptsIff(BuildLimiter(algorithm).value, params);
    }
    if req.name.Some? {
      TrimmedIsTrim(req.name.value);
    }
  }

  /** A refused request, a taken id or name leave the rows alone; otherwise the new row is added and returned. */
  ghost predicate CreateOutcome(rows: Rows, rows': Rows, id: string, req: CreateRequest, r: Result<Policy, PolicyError>) {
    var refusal := Refusal(req.algorithm, req.params);
    if refusal.Some? then r == Err(refusal.value) && rows' == rows
    else if id in rows || NameTaken(rows, id, req.name) then r == Err(Conflict) && rows' == rows
    else r.Ok? && CreatedFrom(r.value, id, req) && rows' == rows[id := r.value]
  }

  ghost predicate UpdateOutcome(rows: Rows, rows': Rows, id: string, req: UpdateRequest, r: Result<Policy, PolicyError>) {
    if id !in rows then r == Err(NotFound) && rows' == rows
    else
      var before, refusal := rows[id], UpdateRefusal(rows[id], req);
      if refusal.Some? then r == Err(refusal.value) && rows' == rows
      else if NameTaken(rows, id, if req.name.Some? then Trimmed(req.name.value) else before.name) then
        r == Err(Conflict) && rows' == rows
      else r.Ok? && UpdatedFrom(r.value, before, req) && rows' == rows[id := r.value]
  }

  /** Only an enabled policy is selected. */
  ghost predicate ActivateOutcome(rows: Rows, active: Option<Selector>, active': Option<Selector>, id: string,
                                  r: Result<Policy, PolicyError>) {
    if id !in rows then r == Err(NotFound) && active' == active
    else if !rows[id].enabled then r == Err(Disabled) && active' == active
    else r == Ok(rows[id]) && active' == Some(Selector(rows[id].algorithm, id))
  }

  ghost predicate ActiveOutcome(rows: Rows, active: Option<Selector>, r: Result<Policy, PolicyError>) {
    if active.None? then r == Err(NoActivePolicy)
    else if active.value.id !in rows || rows[active.value.id].algorithm != active.value.algorithm then
      r == Err(ActivePolicyMissing)
    else r == Ok(rows[active.value.id])
  }

  // ---------- calls one at a time ----------

  class Service {
    var rows: Rows
    var active: Option<Selector>
    const store: RedisStore.Store

    constructor (store: RedisStore.Store)
      ensures rows == map[] && active == None && this.store == store && Consistent(rows, active)
    {
      rows, active, this.store := map[], None, store;
    }

    /** `id` is the fresh UUID. */
    method Create(id: string, req: CreateRequest) returns (r: Result<Policy, PolicyError>)
      requires Consistent(rows, active) && Uuid(id)
      modifies this`rows
      ensures Consistent(rows, active) && (UniqueNames(old(rows)) ==> UniqueNames(rows))
      ensures CreateOutcome(old(rows), rows, id, req, r)
    {
      var draft := Draft(id, req);
      DraftColumns(id, req);
      if draft.Err? {
        return Err(draft.error);
      }
      DraftNormalised(id, req);
      var inserted := Inserted(rows, draft.value);
      if inserted.Err? {
        return Err(inserted.error);
      }
      InsertKeepsConsistent(rows, active, draft.value);
      if UniqueNames(rows) { WritesKeepNames(rows, draft.value); }
      rows := inserted.value;
      return Selected(rows, id);
    }

    method Update(id: string, req: UpdateRequest) returns (r: Result<Policy, PolicyError>)
      requires Consistent(rows, active)
      modifies this`rows
      ensures Consistent(rows, active) && (UniqueNames(old(rows)) ==> UniqueNames(rows))
      ensures UpdateOutcome(old(rows), rows, id, req, r)
    {
      var current := Selected(rows, id);
      if current.Err? {
        return Err(current.error);
      }
      var revision := Revision(current.value, req);
      RevisionColumns(current.value, req);
      if revision.Err? {
        return Err(revision.error);
      }
      RevisionNormalised(current.value, req);
      var rewritten := Rewritten(rows, revision.value);
      if rewritten.Err? {
        return Err(rewritten.error);
      }
      RewriteKeepsConsistent(rows, active, revision.value);
      if UniqueNames(rows) { WritesKeepNames(rows, revision.value); }
      rows := rewritten.value;
      return Selected(rows, id);
    }

    /**
     * With `reset`, the keys of the policy are deleted first; `pages`, `traffic` and `failsAt` describe the SCAN, what
     * other clients write meanwhile, and the page on which Redis fails.
     */
    method Activate(id: string, reset: bool, pages: seq<set<string>>, traffic: seq<RedisStore.Data>, failsAt: Option<nat>)
      returns (r: Result<Policy, PolicyError>)
      requires Consistent(rows, active)
      requires |pages| == |traffic| && RedisStore.FullScan(store.data, ResetPattern(id), pages)
      modifies this`active, store
      ensures Consistent(rows, active)
      ensures r == Err(Failed) <==> id in rows && rows[id].enabled && reset && failsAt.Some? && failsAt.value < |pages|
      ensures r == Err(Failed) ==>
        active == old(active) && store.data == RedisStore.Scanned(old(store.data), pages, traffic, failsAt.value)
      ensures r != Err(Failed) ==> ActivateOutcome(rows, old(active), active, id, r)
      ensures r.Err? && r.error != Failed ==> store.data == old(store.data)
      ensures r.Ok? ==>
        store.data == if reset then RedisStore.Scanned(old(store.data), pages, traffic, |pages|) else old(store.data)
    {
      var policy := Selected(rows, id);
      if policy.Err? {
        return Err(policy.error);
      }
      if !policy.value.enabled {
        return Err(Disabled);
      }
      if reset {
        var deleted := store.ScanDelete(ResetPattern(id), pages, traffic, failsAt);
        if deleted.Err? {
          return Err(Failed);
        }
      }
      active := Some(Selector(policy.value.algorithm, id));
      return policy;
    }

    method Active() returns (r: Result<Policy, PolicyError>)
      requires Consistent(rows, active)
      ensures ActiveOutcome(rows, active, r)
    {
      if active.None? {
        return Err(NoActivePolicy);
      }
      var selector := active.value;
      if Blank(selector.algorithm) || Blank(selector.id) {
        SupportedNotBlank(selector.algorithm);
        return Err(NoActivePolicy);
      }
      return Resolved(selector, Selected(rows, selector.id));
    }
  }

  // ---------- what a reset does to decisions ----------

  /**
   * When a reset has run to its end, a client of the policy has nothing left but what was written meanwhile, and a
   * spared client of another policy has all that it would have had.
   */
  lemma ResetDuringTraffic(data: RedisStore.Data, pages: seq<set<string>>, traffic: seq<RedisStore.Data>, id: string,
                           c: Isolation.Client, key: string)
    requires PlainId(id) && PlainId(c.policy) && Isolation.OwnsKey(c, key)
    requires |pages| == |traffic| && RedisStore.FullScan(data, ResetPattern(id), pages)
    ensures c.policy == id && key in RedisStore.Scanned(data, pages, traffic, |pages|) ==> RedisStore.Writes(traffic, key)
    ensures c.policy != id && Reset.Spared(c.algorithm, c.name, id) ==>
      RedisStore.SameAt(RedisStore.Scanned(data, pages, traffic, |pages|), RedisStore.Written(data, traffic, |pages|), key)
  {
    Reset.ResetDeletesIff(c.algorithm, c.policy, c.name, id, key);
    if Glob(ResetPattern(id), key) {
      if key in RedisStore.Scanned(data, pages, traffic, |pages|) {
        RedisStore.ScanClears(data, ResetPattern(id), pages, traffic, key);
      }
    } else {
      RedisStore.ScanSpares(data, ResetPattern(id), pages, traffic, |pages|, key);
    }
  }

  /** After a reset nothing is left of a client of the policy. */
  lemma ResetForgets(data: RedisStore.Data, c: Isolation.Client)
    requires PlainId(c.policy)
    ensures Isolation.Agree(c, RedisStore.Without(data, ResetPattern(c.policy)), map[])
  {
    forall k | Isolation.OwnsKey(c, k) ensures k !in RedisStore.Without(data, ResetPattern(c.policy)) {
      Reset.ResetDeletesIff(c.algorithm, c.policy, c.name, c.policy, k);
    }
  }

  /** From a reset on, whatever else the store serves, a client of the policy is answered like a new one. */
  lemma ResetMakesNew(data: RedisStore.Data, rs: seq<Isolation.Request>, r: Isolation.Request)
    requires PlainId(r.client.policy) && forall q :: q in rs ==> ':' !in q.client.policy
    ensures Isolation.ServeRequest(Isolation.After(RedisStore.Without(data, ResetPattern(r.client.policy)), rs), r).0
         == Isolation.ServeRequest(Isolation.After(map[], Isolation.Own(r.client, rs)), r).0
  {
    ResetForgets(data, r.client);
    Isolation.ClientIsolation(RedisStore.Without(data, ResetPattern(r.client.policy)), map[], rs, r);
  }

  /** A client of another policy keeps all its state exactly when its id does not spell out the reset policy's id. */
  lemma ResetSparesIff(data: RedisStore.Data, c: Isolation.Client, id: string)
    requires PlainId(c.policy) && PlainId(id) && c.policy != id
    ensures Isolation.Agree(c, RedisStore.Without(data, ResetPattern(id)), data)
       <==> Reset.Spared(c.algorithm, c.name, id) || forall k :: Isolation.OwnsKey(c, k) ==> k !in data
  {
    forall k | Isolation.OwnsKey(c, k)
      ensures Glob(ResetPattern(id), k) <==> !Reset.Spared(c.algorithm, c.name, id)
    {
      Reset.ResetDeletesIff(c.algorithm, c.policy, c.name, id, k);
    }
  }

  /** From then on all its decisions are as they would have been without the reset. */
  lemma ResetSparesDecisions(data: RedisStore.Data, rs: seq<Isolation.Request>, r: Isolation.Request, id: string)
    requires PlainId(r.client.policy) && PlainId(id) && r.client.policy != id
    requires Reset.Spared(r.client.algorithm, r.client.name, id)
    requires forall q :: q in rs ==> ':' !in q.client.policy
    ensures Isolation.ServeRequest(Isolation.After(RedisStore.Without(data, ResetPattern(id)), rs), r).0
         == Isolation.ServeRequest(Isolation.After(data, Isolation.Own(r.client, rs)), r).0
    ensures Isolation.ServeRequest(Isolation.After(RedisStore.Without(data, ResetPattern(id)), rs), r).0
         == Isolation.ServeRequest(Isolation.After(data, rs), r).0
  {
    ResetSparesIff(data, r.client, id);
    Isolation.ClientIsolation(RedisStore.Without(data, ResetPattern(id)), data, rs, r);
    Isolation.ClientIsolation(data, data, rs, r);
  }
}
