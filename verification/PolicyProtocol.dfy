/**
 * Concurrent calls of the policy service, interleaved between their SQL statements. Each call is a task that
 * keeps what it has read; statements are atomic, and any of them may fail.
 */
module PolicyProtocol {
  import opened Basics
  import opened Validation
  import opened PolicyService

  datatype Task =
    | Inserting(row: Policy)                      // Create, validated
    | Rewriting(row: Policy)                      // Update, has read the row and computed its columns
    | Returning(id: string)                       // Create and Update, reading the row back
    | Resetting(policy: Policy)                   // Activate, has read the row
    | Upserting(policy: Policy)                   // Activate, about to write the selector
    | Fetching(selector: Selector)                // Active, has read the selector
    | Finished(result: Result<Policy, PolicyError>)
    | Answered(seen: Option<Selector>, answer: Result<Policy, PolicyError>)

  datatype Action =
    | BeginCreate(id: string, req: CreateRequest)
    | BeginUpdate(id: string, change: UpdateRequest)
    | BeginActivate(id: string, reset: bool)
    | BeginActive
    | BeginBroken                                 // a call whose first SELECT fails
    | Proceed                                     // the task's next statement
    | Break                                       // that statement fails

  /** Task t takes an action. */
  datatype Step = Step(t: nat, action: Action)

  datatype World = World(rows: Rows, active: Option<Selector>, tasks: map<nat, Task>)

  function WithTask(w: World, t: nat, task: Task): World { w.(tasks := w.tasks[t := task]) }

  /** The first statement of a call, and the validation that follows or precedes it. */
  function Begin(w: World, action: Action): Task {
    match action
    case BeginCreate(id, req) => (
      match Draft(id, req)
      case Err(e) => Finished(Err(e))
      case Ok(row) => Inserting(row)
    )
    case BeginUpdate(id, change) => (
      match Selected(w.rows, id)
      case Err(e) => Finished(Err(e))
      case Ok(current) =>
        match Revision(current, change)
        case Err(e) => Finished(Err(e))
        case Ok(row) => Rewriting(row)
    )
    case BeginActivate(id, reset) => (
      match Selected(w.rows, id)
      case Err(e) => Finished(Err(e))
      case Ok(policy) =>
        if !policy.enabled then Finished(Err(Disabled))
        else if reset then Resetting(policy) else Upserting(policy)
    )
    case BeginBroken => Finished(Err(Failed))
    case _ => (
      match w.active
      case None => Answered(None, Err(NoActivePolicy))
      case Some(selector) =>
        if Blank(selector.algorithm) || Blank(selector.id) then Answered(w.active, Err(NoActivePolicy))
        else Fetching(selector)
    )
  }

  function Continue(w: World, t: nat): World
    requires t in w.tasks
  {
    match w.tasks[t]
    case Inserting(row) => (
      match Inserted(w.rows, row)
      case Err(e) => WithTask(w, t, Finished(Err(e)))
      case Ok(rows) => WithTask(w.(rows := rows), t, Returning(row.id))
    )
    case Rewriting(row) => (
      match Rewritten(w.rows, row)
      case Err(e) => WithTask(w, t, Finished(Err(e)))
      case Ok(rows) => WithTask(w.(rows := rows), t, Returning(row.id))
    )
    case Returning(id) => WithTask(w, t, Finished(Selected(w.rows, id)))
    case Resetting(policy) => WithTask(w, t, Upserting(policy))
    case Upserting(policy) =>
      WithTask(w.(active := Some(Selector(policy.algorithm, policy.id))), t, Finished(Ok(policy)))
    case Fetching(selector) => WithTask(w, t, Answered(Some(selector), Resolved(selector, Selected(w.rows, selector.id))))
    case Finished(_) => w
    case Answered(_, _) => w
  }

  function Fail(w: World, t: nat): World
    requires t in w.tasks
  {
    match w.tasks[t]
    case Finished(_) => w
    case Answered(_, _) => w
    case Fetching(selector) => WithTask(w, t, Answered(Some(selector), Err(Failed)))
    case _ => WithTask(w, t, Finished(Err(Failed)))
  }

  function Next(w: World, s: Step): World {
    match s.action
    case Proceed => if s.t in w.tasks then Continue(w, s.t) else w
    case Break => if s.t in w.tasks then Fail(w, s.t) else w
    case _ => if s.t in w.tasks then w else WithTask(w, s.t, Begin(w, s.action))
  }

  function After(steps: seq<Step>): World {
    if steps == [] then World(map[], None, map[]) else Next(After(steps[..|steps| - 1]), steps[|steps| - 1])
  }

  /** Create draws fresh UUIDs. */
  predicate FreshIds(steps: seq<Step>) {
    forall s :: s in steps && s.action.BeginCreate? ==> Uuid(s.action.id)
  }

  // ---------- invariant ----------

  ghost predicate TaskOk(rows: Rows, task: Task) {
    match task
    case Inserting(row) => Uuid(row.id) && Normalised(row)
    case Rewriting(row) => row.id in rows && Normalised(row)
    case Returning(id) => id in rows
    case Resetting(policy) => policy.id in rows && Normalised(policy) && policy.enabled
    case Upserting(policy) => policy.id in rows && Normalised(policy) && policy.enabled
    case Fetching(selector) => selector.id in rows
    case Finished(result) => result.Ok? ==> result.value.id in rows && Normalised(result.value)
    case Answered(seen, answer) =>
      if answer.Ok? then
        && seen.Some? && answer.value.id == seen.value.id && answer.value.id in rows
        && answer.value.algorithm == seen.value.algorithm && Normalised(answer.value)
      else answer.error in {NoActivePolicy, ActivePolicyMissing, Failed}
           && (answer.error == NoActivePolicy <==> seen.None?)
  }

  ghost predicate Invariant(w: World) {
    Consistent(w.rows, w.active) && forall t :: t in w.tasks ==> TaskOk(w.rows, w.tasks[t])
  }

  lemma BeginOk(w: World, action: Action)
    requires Invariant(w) && (action.BeginCreate? ==> Uuid(action.id))
    ensures TaskOk(w.rows, Begin(w, action))
  {
    match action
    case BeginCreate(id, req) =>
      if Draft(id, req).Ok? { DraftNormalised(id, req); }
    case BeginUpdate(id, change) =>
      if id in w.rows && Revision(w.rows[id], change).Ok? { RevisionNormalised(w.rows[id], change); }
    case BeginActivate(_, _) =>
    case _ =>
      if w.active.Some? { SupportedNotBlank(w.active.value.algorithm); }
  }

  /** Rows are never deleted, so what a task knows to exist keeps existing. */
  lemma TaskSurvives(rows: Rows, rows': Rows, task: Task)
    requires TaskOk(rows, task) && rows.Keys <= rows'.Keys
    ensures TaskOk(rows', task)
  {
  }

  lemma TasksSurvive(w: World, rows: Rows, active: Option<Selector>, t: nat, task: Task)
    requires Invariant(w) && Consistent(rows, active) && w.rows.Keys <= rows.Keys && TaskOk(rows, task)
    ensures Invariant(World(rows, active, w.tasks[t := task]))
  {
    forall u | u in w.tasks ensures TaskOk(rows, w.tasks[u]) {
      TaskSurvives(w.rows, rows, w.tasks[u]);
    }
  }

  lemma ContinueKeeps(w: World, t: nat)
    requires Invariant(w) && t in w.tasks
    ensures Invariant(Continue(w, t))
  {
    var w', task := Continue(w, t), w.tasks[t];
    assert TaskOk(w.rows, task);
    match task
    case Inserting(row) =>
      if Inserted(w.rows, row).Ok? { InsertKeepsConsistent(w.rows, w.active, row); }
      TasksSurvive(w, w'.rows, w'.active, t, w'.tasks[t]);
    case Rewriting(row) =>
      if Rewritten(w.rows, row).Ok? { RewriteKeepsConsistent(w.rows, w.active, row); }
      TasksSurvive(w, w'.rows, w'.active, t, w'.tasks[t]);
    case Finished(_) =>
    case Answered(_, _) =>
    case _ =>
      TasksSurvive(w, w'.rows, w'.active, t, w'.tasks[t]);
  }

  lemma FailKeeps(w: World, t: nat)
    requires Invariant(w) && t in w.tasks
    ensures Invariant(Fail(w, t))
  {
    if !w.tasks[t].Finished? && !w.tasks[t].Answered? {
      TasksSurvive(w, w.rows, w.active, t, Fail(w, t).tasks[t]);
    }
  }

  lemma StepKeeps(w: World, s: Step)
    requires Invariant(w) && (s.action.BeginCreate? ==> Uuid(s.action.id))
    ensures Invariant(Next(w, s))
  {
    match s.action
    case Proceed => if s.t in w.tasks { ContinueKeeps(w, s.t); }
    case Break => if s.t in w.tasks { FailKeeps(w, s.t); }
    case _ =>
      if s.t !in w.tasks {
        BeginOk(w, s.action);
        TasksSurvive(w, w.rows, w.active, s.t, Begin(w, s.action));
      }
  }

  lemma {:induction false} AlwaysInvariant(steps: seq<Step>)
    requires FreshIds(steps)
    ensures Invariant(After(steps))
  {
    if steps != [] {
      var front := steps[..|steps| - 1];
      assert forall s :: s in front ==> s in steps;
      assert steps[|steps| - 1] in steps;
      AlwaysInvariant(front);
      StepKeeps(After(front), steps[|steps| - 1]);
    }
  }

  /**
   * Whatever Create, Update, Activate and Active do between each other's statements, a policy that Active
   * returns exists, has the algorithm of the selector it read, and carries validated parameters; and Active
   * finds no policy only if none was selected or the selected one has changed its algorithm.
   */
  lemma ActiveIsSound(steps: seq<Step>, t: nat)
    requires FreshIds(steps) && t in After(steps).tasks && After(steps).tasks[t].Answered?
    ensures var (w, task) := (After(steps), After(steps).tasks[t]);
            match task.answer
            case Ok(policy) => && policy.id in w.rows && task.seen == Some(Selector(policy.algorithm, policy.id))
                               && Normalised(policy)
            case Err(e) => e in {NoActivePolicy, ActivePolicyMissing, Failed} && (e == NoActivePolicy <==> task.seen.None?)
  {
    AlwaysInvariant(steps);
    assert TaskOk(After(steps).rows, After(steps).tasks[t]);
  }

  lemma StepKeepsNames(w: World, s: Step)
    requires UniqueNames(w.rows)
    ensures UniqueNames(Next(w, s).rows)
  {
    if s.action.Proceed? && s.t in w.tasks && (w.tasks[s.t].Inserting? || w.tasks[s.t].Rewriting?) {
      WritesKeepNames(w.rows, w.tasks[s.t].row);
    }
  }

  /** Under every interleaving, no two policies ever share a name. */
  lemma {:induction false} AlwaysUniqueNames(steps: seq<Step>)
    ensures UniqueNames(After(steps).rows)
  {
    if steps != [] {
      AlwaysUniqueNames(steps[..|steps| - 1]);
      StepKeepsNames(After(steps[..|steps| - 1]), steps[|steps| - 1]);
    }
  }

  // ---------- when the selector moves ----------

  lemma OnlyUpsertSelects(w: World, s: Step)
    requires Next(w, s).active != w.active
    ensures s.action.Proceed? && s.t in w.tasks && w.tasks[s.t].Upserting?
  {
  }

  /** Step k is the last statement of an Activate. */
  predicate Selects(steps: seq<Step>, k: nat)
    requires k < |steps|
  {
    var w, s := After(steps[..k]), steps[k];
    s.action.Proceed? && s.t in w.tasks && w.tasks[s.t].Upserting?
  }

  function Chosen(steps: seq<Step>, k: nat): Policy
    requires k < |steps| && Selects(steps, k)
  {
    After(steps[..k]).tasks[steps[k].t].policy
  }

  /** The selector stays as it is while no Activate completes. */
  lemma {:induction false} SelectorStays(steps: seq<Step>, m: nat)
    requires m <= |steps| && forall k: nat | m <= k < |steps| :: !Selects(steps, k)
    ensures After(steps).active == After(steps[..m]).active
  {
    if m == |steps| {
      assert steps[..m] == steps;
    } else {
      var front := steps[..|steps| - 1];
      forall k: nat | m <= k < |front| ensures !Selects(front, k) {
        assert front[..k] == steps[..k];
        assert !Selects(steps, k);
      }
      SelectorStays(front, m);
      assert front[..m] == steps[..m];
      assert !Selects(steps, |steps| - 1);
      if After(steps).active != After(front).active {
        OnlyUpsertSelects(After(front), steps[|steps| - 1]);
      }
    }
  }

  lemma ChosenEnabled(steps: seq<Step>, k: nat)
    requires FreshIds(steps) && k < |steps| && Selects(steps, k)
    ensures Chosen(steps, k).enabled
  {
    var front := steps[..k];
    assert FreshIds(front) by {
      assert forall s :: s in front ==> s in steps;
    }
    AlwaysInvariant(front);
    assert TaskOk(After(front).rows, After(front).tasks[steps[k].t]);
  }

  /** In any run the selector is the choice of the Activate that completed last, a policy it had found enabled. */
  lemma LastActivateSelects(steps: seq<Step>, k: nat)
    requires FreshIds(steps) && k < |steps| && Selects(steps, k) && forall j: nat | k < j < |steps| :: !Selects(steps, j)
    ensures After(steps).active == Some(Selector(Chosen(steps, k).algorithm, Chosen(steps, k).id))
    ensures Chosen(steps, k).enabled
  {
    ChosenEnabled(steps, k);
    SelectorStays(steps, k + 1);
    assert steps[..k + 1][..k] == steps[..k];
    assert After(steps[..k + 1]) == Next(After(steps[..k]), steps[k]);
  }

  lemma FinishedKept(w: World, s: Step, t: nat)
    requires t in w.tasks && w.tasks[t].Finished?
    ensures t in Next(w, s).tasks && Next(w, s).tasks[t] == w.tasks[t]
  {
  }

  lemma {:induction false} FinishedStays(steps: seq<Step>, m: nat, t: nat)
    requires m <= |steps| && t in After(steps[..m]).tasks && After(steps[..m]).tasks[t].Finished?
    ensures t in After(steps).tasks && After(steps).tasks[t] == After(steps[..m]).tasks[t]
  {
    if m == |steps| {
      assert steps[..m] == steps;
    } else {
      var front := steps[..|steps| - 1];
      assert front[..m] == steps[..m];
      FinishedStays(front, m, t);
      FinishedKept(After(front), steps[|steps| - 1], t);
    }
  }

  /** A call that ends in an error has not moved the selector at any of its steps. */
  lemma FailedCallsSelectNothing(steps: seq<Step>, t: nat, k: nat)
    requires t in After(steps).tasks && After(steps).tasks[t].Finished? && After(steps).tasks[t].result.Err?
    requires k < |steps| && steps[k].t == t
    ensures !Selects(steps, k) && After(steps[..k + 1]).active == After(steps[..k]).active
  {
    assert steps[..k + 1][..k] == steps[..k];
    assert After(steps[..k + 1]) == Next(After(steps[..k]), steps[k]);
    if Selects(steps, k) {
      FinishedStays(steps, k + 1, t);
      assert false;
    }
    if After(steps[..k + 1]).active != After(steps[..k]).active {
      OnlyUpsertSelects(After(steps[..k]), steps[k]);
    }
  }

  /** Step j completes the reset of an Activate. */
  predicate Resets(steps: seq<Step>, j: nat, t: nat)
    requires j < |steps|
  {
    var w := After(steps[..j]);
    steps[j] == Step(t, Proceed) && t in w.tasks && w.tasks[t].Resetting?
  }

  ghost predicate HasReset(steps: seq<Step>, b: nat, n: nat, t: nat)
    requires n <= |steps|
  {
    exists j: nat :: b < j < n && Resets(steps, j, t)
  }

  /** A task that began with a reset is still before it, has done it, or has failed. */
  ghost predicate Pending(steps: seq<Step>, b: nat, n: nat, t: nat)
    requires n <= |steps|
  {
    && t in After(steps[..n]).tasks
    && (After(steps[..n]).tasks[t].Resetting? || After(steps[..n]).tasks[t].Finished? || HasReset(steps, b, n, t))
  }

  lemma PendingOn(steps: seq<Step>, b: nat, n: nat, t: nat)
    requires b < n < |steps| && Pending(steps, b, n, t)
    ensures Pending(steps, b, n + 1, t)
  {
    var w, s := After(steps[..n]), steps[n];
    assert steps[..n + 1][..n] == steps[..n] && After(steps[..n + 1]) == Next(w, s);
    TaskStays(w, s, t);
    if HasReset(steps, b, n, t) {
      var j: nat :| b < j < n && Resets(steps, j, t);
      assert b < j < n + 1;
    } else if w.tasks[t].Finished? {
      FinishedKept(w, s, t);
    } else if s == Step(t, Proceed) {
      assert Resets(steps, n, t);
    } else {
      PendingStep(w, s, t);
    }
  }

  lemma {:induction false} ResetPending(steps: seq<Step>, b: nat, n: nat, t: nat, id: string)
    requires b < n <= |steps| && steps[b] == Step(t, BeginActivate(id, true)) && t !in After(steps[..b]).tasks
    ensures Pending(steps, b, n, t)
  {
    if n == b + 1 {
      assert steps[..n][..b] == steps[..b];
      BeginsWithReset(After(steps[..b]), t, id);
    } else {
      ResetPending(steps, b, n - 1, t, id);
      PendingOn(steps, b, n - 1, t);
    }
  }

  lemma BeginsWithReset(w: World, t: nat, id: string)
    requires t !in w.tasks
    ensures var w' := Next(w, Step(t, BeginActivate(id, true)));
            t in w'.tasks && (w'.tasks[t].Resetting? || w'.tasks[t].Finished?)
  {
  }

  lemma TaskStays(w: World, s: Step, t: nat)
    requires t in w.tasks
    ensures t in Next(w, s).tasks
  {
  }

  lemma PendingStep(w: World, s: Step, t: nat)
    requires t in w.tasks && w.tasks[t].Resetting? && s != Step(t, Proceed)
    ensures t in Next(w, s).tasks && (Next(w, s).tasks[t].Resetting? || Next(w, s).tasks[t].Finished?)
  {
  }

  /** An Activate with reset selects its policy only after its reset has been completed. */
  lemma ResetsBeforeSelecting(steps: seq<Step>, b: nat, k: nat, t: nat, id: string)
    requires b < k < |steps| && steps[b] == Step(t, BeginActivate(id, true)) && t !in After(steps[..b]).tasks
    requires steps[k].t == t && Selects(steps, k)
    ensures HasReset(steps, b, k, t)
  {
    ResetPending(steps, b, k, t, id);
  }

  // ---------- when Active misses its policy ----------

  /** No update of the run names an algorithm. */
  predicate KeepsAlgorithms(steps: seq<Step>) {
    forall s :: s in steps && s.action.BeginUpdate? ==> s.action.change.algorithm.None?
  }

  predicate HasAlgorithm(rows: Rows, id: string, algorithm: string) { id in rows && rows[id].algorithm == algorithm }

  /** What the task knows of an algorithm is still so. */
  predicate UpToDate(rows: Rows, task: Task) {
    match task
    case Rewriting(row) => HasAlgorithm(rows, row.id, row.algorithm)
    case Resetting(policy) => HasAlgorithm(rows, policy.id, policy.algorithm)
    case Upserting(policy) => HasAlgorithm(rows, policy.id, policy.algorithm)
    case Fetching(selector) => HasAlgorithm(rows, selector.id, selector.algorithm)
    case Answered(_, answer) => answer != Err(ActivePolicyMissing)
    case _ => true
  }

  predicate SelectorUpToDate(rows: Rows, active: Option<Selector>) {
    active.Some? ==> HasAlgorithm(rows, active.value.id, active.value.algorithm)
  }

  ghost predicate AllUpToDate(w: World) {
    SelectorUpToDate(w.rows, w.active) && forall t :: t in w.tasks ==> UpToDate(w.rows, w.tasks[t])
  }

  /** No row changes its algorithm. */
  ghost predicate SameAlgorithms(rows: Rows, rows': Rows) {
    forall id :: id in rows ==> HasAlgorithm(rows', id, rows[id].algorithm)
  }

  lemma SurvivesUpToDate(rows: Rows, rows': Rows, task: Task)
    requires UpToDate(rows, task) && SameAlgorithms(rows, rows')
    ensures UpToDate(rows', task)
  {
  }

  lemma ContinueUpToDate(w: World, t: nat)
    requires t in w.tasks && UpToDate(w.rows, w.tasks[t]) && SelectorUpToDate(w.rows, w.active)
    ensures SameAlgorithms(w.rows, Continue(w, t).rows) && SelectorUpToDate(Continue(w, t).rows, Continue(w, t).active)
    ensures UpToDate(Continue(w, t).rows, Continue(w, t).tasks[t])
  {
  }

  lemma BeginUpToDate(w: World, action: Action)
    requires Invariant(w) && SelectorUpToDate(w.rows, w.active)
    requires action.BeginUpdate? ==> action.change.algorithm.None?
    ensures UpToDate(w.rows, Begin(w, action))
  {
  }

  lemma TasksUpToDate(w: World, rows: Rows, active: Option<Selector>, t: nat, task: Task)
    requires AllUpToDate(w) && SameAlgorithms(w.rows, rows) && UpToDate(rows, task) && SelectorUpToDate(rows, active)
    ensures AllUpToDate(World(rows, active, w.tasks[t := task]))
  {
    forall u | u in w.tasks ensures UpToDate(rows, w.tasks[u]) {
      SurvivesUpToDate(w.rows, rows, w.tasks[u]);
    }
  }

  lemma ProceedStaysUpToDate(w: World, t: nat)
    requires AllUpToDate(w) && t in w.tasks
    ensures AllUpToDate(Continue(w, t))
  {
    if !w.tasks[t].Finished? && !w.tasks[t].Answered? {
      var w' := Continue(w, t);
      assert UpToDate(w.rows, w.tasks[t]);
      ContinueUpToDate(w, t);
      TasksUpToDate(w, w'.rows, w'.active, t, w'.tasks[t]);
    }
  }

  lemma BreakStaysUpToDate(w: World, t: nat)
    requires AllUpToDate(w) && t in w.tasks
    ensures AllUpToDate(Fail(w, t))
  {
  }

  lemma StaysUpToDate(w: World, s: Step)
    requires Invariant(w) && AllUpToDate(w)
    requires s.action.BeginUpdate? ==> s.action.change.algorithm.None?
    ensures AllUpToDate(Next(w, s))
  {
    match s.action
    case Proceed => if s.t in w.tasks { ProceedStaysUpToDate(w, s.t); }
    case Break => if s.t in w.tasks { BreakStaysUpToDate(w, s.t); }
    case _ =>
      if s.t !in w.tasks {
        BeginUpToDate(w, s.action);
        TasksUpToDate(w, w.rows, w.active, s.t, Begin(w, s.action));
      }
  }

  lemma {:induction false} AlwaysUpToDate(steps: seq<Step>)
    requires FreshIds(steps) && KeepsAlgorithms(steps)
    ensures AllUpToDate(After(steps))
  {
    if steps != [] {
      var front := steps[..|steps| - 1];
      assert forall s :: s in front ==> s in steps;
      assert steps[|steps| - 1] in steps;
      AlwaysInvariant(front);
      AlwaysUpToDate(front);
      StaysUpToDate(After(front), steps[|steps| - 1]);
    }
  }

  /** However the calls interleave, Active misses a selected policy only if some update names an algorithm. */
  lemma ActiveNeverMisses(steps: seq<Step>, t: nat)
    requires FreshIds(steps) && KeepsAlgorithms(steps)
    requires t in After(steps).tasks && After(steps).tasks[t].Answered?
    ensures After(steps).tasks[t].answer != Err(ActivePolicyMissing)
  {
    AlwaysUpToDate(steps);
    assert UpToDate(After(steps).rows, After(steps).tasks[t]);
  }

  // ---------- calls that are not interrupted ----------

  /** Task t takes its call up and carries it to the end. */
  function Alone(w: World, t: nat, action: Action): World {
    Next(Next(Next(Next(w, Step(t, action)), Step(t, Proceed)), Step(t, Proceed)), Step(t, Proceed))
  }

  lemma DoneStays(w: World, t: nat)
    requires t in w.tasks && (w.tasks[t].Finished? || w.tasks[t].Answered?)
    ensures Next(w, Step(t, Proceed)) == w
  {
  }

  lemma InsertsAlone(w: World, t: nat, row: Policy)
    requires t in w.tasks && w.tasks[t] == Inserting(row)
    ensures var w' := Next(Next(Next(w, Step(t, Proceed)), Step(t, Proceed)), Step(t, Proceed));
            && w'.active == w.active && t in w'.tasks && w'.tasks[t].Finished?
            && (match Inserted(w.rows, row)
                case Err(e) => w'.rows == w.rows && w'.tasks[t].result == Err(e)
                case Ok(rows) => w'.rows == rows && w'.tasks[t].result == Ok(row))
  {
    var w1 := Next(w, Step(t, Proceed));
    if Inserted(w.rows, row).Err? {
      DoneStays(w1, t);
    } else {
      DoneStays(Next(w1, Step(t, Proceed)), t);
    }
  }

  lemma RewritesAlone(w: World, t: nat, row: Policy)
    requires t in w.tasks && w.tasks[t] == Rewriting(row) && row.id in w.rows
    ensures var w' := Next(Next(Next(w, Step(t, Proceed)), Step(t, Proceed)), Step(t, Proceed));
            && w'.active == w.active && t in w'.tasks && w'.tasks[t].Finished?
            && w'.tasks.Keys == w.tasks.Keys
            && (match Rewritten(w.rows, row)
                case Err(e) => w'.rows == w.rows && w'.tasks[t].result == Err(e)
                case Ok(rows) => w'.rows == rows && w'.tasks[t].result == Ok(rows[row.id]))
  {
    var w1 := Next(w, Step(t, Proceed));
    if Rewritten(w.rows, row).Err? {
      DoneStays(w1, t);
    } else {
      DoneStays(Next(w1, Step(t, Proceed)), t);
    }
  }

  /** Uninterrupted, the statements of each call do what the call promises. */
  lemma CreatesAlone(w: World, t: nat, id: string, req: CreateRequest)
    requires t !in w.tasks
    ensures var w' := Alone(w, t, BeginCreate(id, req));
            && w'.active == w.active && t in w'.tasks && w'.tasks[t].Finished?
            && CreateOutcome(w.rows, w'.rows, id, req, w'.tasks[t].result)
  {
    var w0 := Next(w, Step(t, BeginCreate(id, req)));
    DraftColumns(id, req);
    if Draft(id, req).Ok? {
      InsertsAlone(w0, t, Draft(id, req).value);
    } else {
      DoneStays(w0, t);
    }
  }

  lemma UpdatesAlone(w: World, t: nat, id: string, req: UpdateRequest)
    requires Invariant(w) && t !in w.tasks
    ensures var w' := Alone(w, t, BeginUpdate(id, req));
            && w'.active == w.active && t in w'.tasks && w'.tasks[t].Finished? && w'.tasks.Keys == w.tasks.Keys + {t}
            && UpdateOutcome(w.rows, w'.rows, id, req, w'.tasks[t].result)
  {
    var w0 := Next(w, Step(t, BeginUpdate(id, req)));
    if id in w.rows && Revision(w.rows[id], req).Ok? {
      RevisionColumns(w.rows[id], req);
      RewritesAlone(w0, t, Revision(w.rows[id], req).value);
    } else {
      if id in w.rows { RevisionColumns(w.rows[id], req); }
      DoneStays(w0, t);
    }
  }

  lemma UpsertsAlone(w: World, t: nat, policy: Policy)
    requires t in w.tasks && w.tasks[t] == Upserting(policy)
    ensures var w' := Next(w, Step(t, Proceed));
            && Next(w', Step(t, Proceed)) == w' && w'.rows == w.rows && t in w'.tasks
            && w'.tasks[t] == Finished(Ok(policy)) && w'.active == Some(Selector(policy.algorithm, policy.id))
  {
    DoneStays(Next(w, Step(t, Proceed)), t);
  }

  lemma SelectsAlone(w: World, t: nat, policy: Policy)
    requires t in w.tasks && (w.tasks[t] == Resetting(policy) || w.tasks[t] == Upserting(policy))
    ensures var w' := Next(Next(Next(w, Step(t, Proceed)), Step(t, Proceed)), Step(t, Proceed));
            && w'.rows == w.rows && t in w'.tasks && w'.tasks[t] == Finished(Ok(policy))
            && w'.active == Some(Selector(policy.algorithm, policy.id))
  {
    if w.tasks[t].Resetting? {
      UpsertsAlone(Next(w, Step(t, Proceed)), t, policy);
    } else {
      UpsertsAlone(w, t, policy);
    }
  }

  lemma FetchesAlone(w: World, t: nat, selector: Selector)
    requires t in w.tasks && w.tasks[t] == Fetching(selector)
    ensures var w' := Next(w, Step(t, Proceed));
            && Next(w', Step(t, Proceed)) == w' && w'.rows == w.rows && w'.active == w.active && t in w'.tasks
            && w'.tasks[t] == Answered(Some(selector), Resolved(selector, Selected(w.rows, selector.id)))
  {
    DoneStays(Next(w, Step(t, Proceed)), t);
  }

  lemma ActivatesAlone(w: World, t: nat, id: string, reset: bool)
    requires Invariant(w) && t !in w.tasks
    ensures var w' := Alone(w, t, BeginActivate(id, reset));
            && w'.rows == w.rows && t in w'.tasks && w'.tasks[t].Finished?
            && ActivateOutcome(w.rows, w.active, w'.active, id, w'.tasks[t].result)
  {
    var w0 := Next(w, Step(t, BeginActivate(id, reset)));
    if id !in w.rows || !w.rows[id].enabled {
      DoneStays(w0, t);
    } else {
      assert w0.tasks[t] == if reset then Resetting(w.rows[id]) else Upserting(w.rows[id]);
      SelectsAlone(w0, t, w.rows[id]);
    }
  }

  lemma AnswersAlone(w: World, t: nat)
    requires Invariant(w) && t !in w.tasks
    ensures var w' := Alone(w, t, BeginActive);
            && w'.rows == w.rows && w'.active == w.active && t in w'.tasks && w'.tasks[t].Answered?
            && ActiveOutcome(w.rows, w.active, w'.tasks[t].answer)
  {
    var w0 := Next(w, Step(t, BeginActive));
    if w.active.Some? {
      SupportedNotBlank(w.active.value.algorithm);
      assert w0.tasks[t] == Fetching(w.active.value);
      FetchesAlone(w0, t, w.active.value);
    } else {
      assert w0.tasks[t] == Answered(None, Err(NoActivePolicy));
      DoneStays(w0, t);
    }
  }

  /** After an Update of the selected policy, Active misses it exactly if the Update changed its algorithm. */
  lemma ChangedAlgorithmMisses(w: World, t: nat, u: nat, change: UpdateRequest)
    requires Invariant(w) && t !in w.tasks && u !in w.tasks && t != u && w.active.Some?
    ensures var id := w.active.value.id;
            var w' := Alone(w, t, BeginUpdate(id, change));
            var w'' := Alone(w', u, BeginActive);
            && t in w'.tasks && w'.tasks[t].Finished? && u in w''.tasks && w''.tasks[u].Answered?
            && (w'.tasks[t].result.Ok? ==>
                  (w''.tasks[u].answer == Err(ActivePolicyMissing)
                   <==> (if change.algorithm.Some? then change.algorithm.value else w.rows[id].algorithm) != w.active.value.algorithm))
  {
    var id := w.active.value.id;
    var w' := Alone(w, t, BeginUpdate(id, change));
    UpdatesAlone(w, t, id, change);
    AloneKeeps(w, t, BeginUpdate(id, change));
    AnswersAlone(w', u);
  }

  lemma AloneKeeps(w: World, t: nat, action: Action)
    requires Invariant(w) && (action.BeginCreate? ==> Uuid(action.id))
    ensures Invariant(Alone(w, t, action))
  {
    var w0 := Next(w, Step(t, action));
    StepKeeps(w, Step(t, action));
    var w1 := Next(w0, Step(t, Proceed));
    StepKeeps(w0, Step(t, Proceed));
    var w2 := Next(w1, Step(t, Proceed));
    StepKeeps(w1, Step(t, Proceed));
    StepKeeps(w2, Step(t, Proceed));
  }
}
