/** The simulation's dispatch loop (simulationRuntime.ts): a paced, capped scheduler with pause, stop and deadline. */
module Dispatch {
  import opened Arithmetic
  import opened Basics
  import opened TokenBucket
  import Keys

  datatype LoadConfig = LoadConfig(durationSec: int, rps: int, concurrency: int)

  datatype ClientConfig = Single(clientId: string) | Rotating(poolSize: int) {
    predicate Valid() { Rotating? ==> poolSize > 0 }
  }

  /** The client id of the n-th request of a session. */
  function ClientId(config: ClientConfig, n: nat): string
    requires config.Valid()
  {
    match config
    case Single(id) => id
    case Rotating(size) => "client-" + Keys.Itoa(n % size + 1)
  }

  class Runtime {
    var stopRequested: bool
    var pauseRequested: bool
    var dispatchSequence: nat
    var inFlight: set<nat>  // tasks by number
    var nextTask: nat       // promises are distinct objects: tasks are numbered upward

    predicate Valid()
      reads this
    {
      forall t :: t in inFlight ==> t < nextTask
    }

    constructor ()
      ensures Valid() && inFlight == {} && dispatchSequence == 0 && !stopRequested && !pauseRequested
    {
      stopRequested, pauseRequested, dispatchSequence, inFlight, nextTask := false, false, 0, {}, 0;
    }

    method ResolveClientId(config: ClientConfig) returns (id: string)
      requires config.Valid()
      modifies this`dispatchSequence
      ensures id == ClientId(config, old(dispatchSequence))
      ensures dispatchSequence == old(dispatchSequence) + if config.Rotating? then 1 else 0
    {
      match config
      case Single(clientId) => id := clientId;
      case Rotating(size) =>
        id := "client-" + Keys.Itoa(dispatchSequence % size + 1);
        dispatchSequence := dispatchSequence + 1;
    }

    /** The promise of a request joins the tasks in flight. */
    method StartTask()
      requires Valid()
      modifies this`inFlight, this`nextTask
      ensures Valid() && inFlight == old(inFlight) + {old(nextTask)} && nextTask == old(nextTask) + 1
      ensures |inFlight| == |old(inFlight)| + 1
    {
      inFlight := inFlight + {nextTask};
      nextTask := nextTask + 1;
    }

    /** Control returns to the loop: it finds the flags, and the tasks that have settled are gone. */
    method Observe(poll: Poll)
      requires Valid()
      modifies this`stopRequested, this`pauseRequested, this`inFlight
      ensures Valid() && stopRequested == poll.stop && pauseRequested == poll.pause
      ensures inFlight == old(inFlight) - poll.settled
    {
      stopRequested, pauseRequested, inFlight := poll.stop, poll.pause, inFlight - poll.settled;
    }

    /** Promise.allSettled: each task leaves the set when it settles. */
    method SettleAll()
      modifies this`inFlight
      ensures inFlight == {}
    {
      while inFlight != {}
        decreases inFlight
      {
        var task :| task in inFlight;
        inFlight := inFlight - {task};
      }
    }
  }

  /** What the loop finds whenever control returns to it: the clock, the flags, and the tasks that have settled. */
  datatype Poll = Poll(now: int, stop: bool, pause: bool, settled: set<nat>)

  /** A dispatched request: the poll and tick it belongs to, tasks then in flight, and its client. */
  datatype Sent = Sent(poll: nat, at: int, inFlight: nat, client: string)

  /** No run of consecutive dispatches outpaces two seconds' budget plus the rate over its time span. */
  ghost predicate Paced(rps: int, log: seq<Sent>) {
    forall i: nat, j: nat | i < j <= |log| :: SlicePaced(rps, log, i, j)
  }

  predicate SlicePaced(rps: int, log: seq<Sent>, i: nat, j: nat)
    requires i < j <= |log|
  {
    (j - i) as real <= (2 * rps) as real + Refill(rps as real, log[j - 1].at - log[i].at)
  }

  /**
   * Every dispatch kept to the concurrency limit and to a running, unpaused poll before the deadline, and went to the
   * client in turn.
   */
  ghost predicate InOrder(load: LoadConfig, clients: ClientConfig, first: nat, polls: seq<Poll>, deadline: int, log: seq<Sent>)
    requires clients.Valid()
  {
    forall k :: 0 <= k < |log| ==> SentInOrder(load, clients, first, polls, deadline, k, log[k])
  }

  predicate SentInOrder(load: LoadConfig, clients: ClientConfig, first: nat, polls: seq<Poll>, deadline: int, k: nat, sent: Sent)
    requires clients.Valid()
  {
    && sent.inFlight <= load.concurrency
    && sent.poll < |polls| && sent.at == polls[sent.poll].now < deadline
    && !polls[sent.poll].stop && !polls[sent.poll].pause
    && sent.client == ClientId(clients, first + if clients.Rotating? then k else 0)
  }

  lemma AppendInOrder(load: LoadConfig, clients: ClientConfig, first: nat, polls: seq<Poll>, deadline: int, log: seq<Sent>, sent: Sent)
    requires clients.Valid() && InOrder(load, clients, first, polls, deadline, log)
    requires SentInOrder(load, clients, first, polls, deadline, |log|, sent)
    ensures InOrder(load, clients, first, polls, deadline, log + [sent])
  {
  }

  // ---------- what each turn must send ----------

  /** What a session starts with: the load, the tasks in flight and the next task's number, and what the loop will observe. */
  datatype Session = Session(load: LoadConfig, base: nat, waiting: set<nat>, firstTick: int, polls: seq<Poll>)

  /** The first turn from n on that ends the loop. */
  function Ends(polls: seq<Poll>, deadline: int, n: nat): (end: nat)
    requires n <= |polls|
    ensures n <= end <= |polls|
    decreases |polls| - n
  {
    if n == |polls| || polls[n].stop || polls[n].now >= deadline then n else Ends(polls, deadline, n + 1)
  }

  /** The tick of the last turn among the first n that was not paused. */
  function LastTick(firstTick: int, polls: seq<Poll>, n: nat): int
    requires n <= |polls|
  {
    if n == 0 then firstTick else if polls[n - 1].pause then LastTick(firstTick, polls, n - 1) else polls[n - 1].now
  }

  /** Requests sent on the first n turns. */
  function UpTo(log: seq<Sent>, n: nat): (k: nat)
    ensures k <= |log|
  {
    if log == [] then 0 else UpTo(log[..|log| - 1], n) + if log[|log| - 1].poll < n then 1 else 0
  }

  lemma {:induction false} UpToGrows(log: seq<Sent>, n: nat)
    ensures UpTo(log, n) <= UpTo(log, n + 1)
  {
    if log != [] {
      UpToGrows(log[..|log| - 1], n);
    }
  }

  /** Requests sent on turn n. */
  function Sends(log: seq<Sent>, n: nat): nat {
    UpToGrows(log, n);
    UpTo(log, n + 1) - UpTo(log, n)
  }

  function Tasks(first: nat, n: nat): set<nat> { if n == 0 then {} else Tasks(first, n - 1) + {first + n - 1} }

  /** Tasks in flight after n turns: every request starts the task of the next number, until a poll finds it settled. */
  function InFlight(x: Session, log: seq<Sent>, n: nat): set<nat>
    requires n <= |x.polls|
  {
    if n == 0 then x.waiting
    else
      InFlight(x, log, n - 1) - x.polls[n - 1].settled + Tasks(x.base + UpTo(log, n - 1), Sends(log, n - 1))
  }

  /** Slots free when turn n starts. */
  function Free(x: Session, log: seq<Sent>, n: nat): int
    requires n < |x.polls|
  {
    x.load.concurrency - |InFlight(x, log, n) - x.polls[n].settled|
  }

  /** The budget left after n turns. */
  function Unspent(x: Session, log: seq<Sent>, n: nat): real
    requires n <= |x.polls|
    decreases n, 0
  {
    if n == 0 then 0.0
    else if x.polls[n - 1].pause then Unspent(x, log, n - 1)
    else OnHand(x, log, n - 1) - Sends(log, n - 1) as real
  }

  /** The budget on hand at turn n, which is never more than two seconds' worth. */
  function OnHand(x: Session, log: seq<Sent>, n: nat): real
    requires n < |x.polls|
    decreases n, 1
  {
    var refilled := Unspent(x, log, n) + Refill(x.load.rps as real, x.polls[n].now - LastTick(x.firstTick, x.polls, n));
    if refilled > (2 * x.load.rps) as real then (2 * x.load.rps) as real else refilled
  }

  /** A running turn sends every whole request of its budget for which there is a slot, a paused one nothing. */
  predicate TurnLaw(x: Session, log: seq<Sent>, n: nat)
    requires n < |x.polls|
  {
    Sends(log, n) == if x.polls[n].pause then 0 else Max(Min(OnHand(x, log, n).Floor, Free(x, log, n)), 0)
  }

  ghost predicate KeepsLaw(x: Session, log: seq<Sent>, n: nat)
    requires n <= |x.polls|
  {
    forall k: nat | k < n :: TurnLaw(x, log, k)
  }

  /** Requests are logged in the order of their turns. */
  ghost predicate ByTurn(log: seq<Sent>) { forall i, j :: 0 <= i <= j < |log| ==> log[i].poll <= log[j].poll }

  /** The log belongs to the first n turns. */
  predicate Within(log: seq<Sent>, n: nat) { forall k :: 0 <= k < |log| ==> log[k].poll < n }

  lemma {:induction false} AllUpTo(log: seq<Sent>, n: nat)
    requires Within(log, n)
    ensures UpTo(log, n) == |log|
  {
    if log != [] {
      AllUpTo(log[..|log| - 1], n);
    }
  }

  /** A request sent on a turn changes no count of the turns before. */
  lemma UpToSnoc(log: seq<Sent>, sent: Sent, n: nat)
    ensures UpTo(log + [sent], n) == UpTo(log, n) + if sent.poll < n then 1 else 0
  {
    assert (log + [sent])[..|log|] == log;
  }

  ghost predicate SameUpTo(log: seq<Sent>, log': seq<Sent>, turn: nat) {
    forall n: nat | n <= turn :: UpTo(log', n) == UpTo(log, n)
  }

  lemma SnocKeepsUpTo(sofar: seq<Sent>, log: seq<Sent>, sent: Sent, turn: nat)
    requires sent.poll == turn && SameUpTo(sofar, log, turn) && Within(log, turn + 1)
    ensures SameUpTo(sofar, log + [sent], turn) && Within(log + [sent], turn + 1)
  {
    forall n: nat | n <= turn ensures UpTo(log + [sent], n) == UpTo(sofar, n) {
      UpToSnoc(log, sent, n);
      assert UpTo(log, n) == UpTo(sofar, n);
    }
  }

  lemma {:induction false} PastKept(x: Session, log: seq<Sent>, log': seq<Sent>, turn: nat, n: nat)
    requires n <= turn <= |x.polls| && SameUpTo(log, log', turn)
    ensures InFlight(x, log', n) == InFlight(x, log, n) && Unspent(x, log', n) == Unspent(x, log, n)
    ensures n < turn ==> OnHand(x, log', n) == OnHand(x, log, n)
  {
    if n > 0 {
      PastKept(x, log, log', turn, n - 1);
      assert UpTo(log', n) == UpTo(log, n) && UpTo(log', n - 1) == UpTo(log, n - 1);
    }
  }

  lemma LawKept(x: Session, log: seq<Sent>, log': seq<Sent>, turn: nat)
    requires turn <= |x.polls| && SameUpTo(log, log', turn) && KeepsLaw(x, log, turn)
    ensures KeepsLaw(x, log', turn)
  {
    forall n: nat | n < turn ensures TurnLaw(x, log', n) {
      PastKept(x, log, log', turn, n);
      assert TurnLaw(x, log, n);
      assert UpTo(log', n + 1) == UpTo(log, n + 1);
    }
  }

  lemma OnHandKept(x: Session, log: seq<Sent>, log': seq<Sent>, n: nat)
    requires n < |x.polls| && SameUpTo(log, log', n)
    ensures InFlight(x, log', n) == InFlight(x, log, n) && OnHand(x, log', n) == OnHand(x, log, n)
  {
    PastKept(x, log, log', n, n);
  }

  /** Where the loop stands after n turns. */
  ghost predicate Standing(x: Session, log: seq<Sent>, n: nat, inFlight: set<nat>, nextTask: nat, budget: real, tick: int)
    requires n <= |x.polls|
  {
    && Within(log, n) && ByTurn(log) && KeepsLaw(x, log, n)
    && inFlight == InFlight(x, log, n) && nextTask == x.base + |log|
    && budget == Unspent(x, log, n) && tick == LastTick(x.firstTick, x.polls, n)
  }

  lemma LawExtends(x: Session, log: seq<Sent>, n: nat)
    requires n < |x.polls| && KeepsLaw(x, log, n) && TurnLaw(x, log, n)
    ensures KeepsLaw(x, log, n + 1)
  {
  }

  lemma PausedTurn(x: Session, log: seq<Sent>, n: nat, inFlight: set<nat>, nextTask: nat, budget: real, tick: int)
    requires n < |x.polls| && x.polls[n].pause && Standing(x, log, n, inFlight, nextTask, budget, tick)
    ensures Standing(x, log, n + 1, inFlight - x.polls[n].settled, nextTask, budget, tick)
  {
    AllUpTo(log, n);
    AllUpTo(log, n + 1);
    LawExtends(x, log, n);
  }

  lemma RunningTurn(x: Session, log: seq<Sent>, log': seq<Sent>, n: nat, inFlight: set<nat>, nextTask: nat, budget: real, tick: int,
                    granted: real)
    requires n < |x.polls| && !x.polls[n].pause && Standing(x, log, n, inFlight, nextTask, budget, tick)
    requires granted == OnHand(x, log, n) && log <= log' && SameUpTo(log, log', n) && Within(log', n + 1) && ByTurn(log')
    requires |log'| - |log| == Max(Min(granted.Floor, x.load.concurrency - |inFlight - x.polls[n].settled|), 0)
    ensures Standing(x, log', n + 1, inFlight - x.polls[n].settled + Tasks(nextTask, |log'| - |log|), x.base + |log'|,
                     granted - (|log'| - |log|) as real, x.polls[n].now)
  {
    AllUpTo(log, n);
    AllUpTo(log', n + 1);
    assert UpTo(log', n) == UpTo(log, n);
    assert InFlight(x, log', n) == inFlight && OnHand(x, log', n) == granted by {
      OnHandKept(x, log, log', n);
    }
    LawKept(x, log, log', n);
    LawExtends(x, log', n);
  }

  /** Some tasks have joined those that were in flight. */
  ghost predicate Joined(busy: set<nat>, next: nat, n: nat, inFlight: set<nat>, nextTask: nat) {
    inFlight == busy + Tasks(next, n) && nextTask == next + n && |inFlight| == |busy| + n
  }

  lemma OneJoins(busy: set<nat>, next: nat, n: nat, inFlight: set<nat>, nextTask: nat, inFlight': set<nat>)
    requires Joined(busy, next, n, inFlight, nextTask)
    requires inFlight' == inFlight + {nextTask} && |inFlight'| == |inFlight| + 1
    ensures Joined(busy, next, n + 1, inFlight', nextTask + 1)
  {
  }

  /** The log so far, and the requests of this turn. */
  ghost predicate TurnLog(load: LoadConfig, clients: ClientConfig, first: nat, polls: seq<Poll>, deadline: int, turn: nat,
                          sofar: seq<Sent>, log: seq<Sent>)
    requires clients.Valid()
  {
    sofar <= log &&
    forall k: nat | |sofar| <= k < |log| :: log[k].poll == turn && SentInOrder(load, clients, first, polls, deadline, k, log[k])
  }

  lemma AppendSent(load: LoadConfig, clients: ClientConfig, first: nat, polls: seq<Poll>, deadline: int, turn: nat,
                   sofar: seq<Sent>, log: seq<Sent>, sent: Sent)
    requires clients.Valid() && TurnLog(load, clients, first, polls, deadline, turn, sofar, log)
    requires sent.poll == turn && SentInOrder(load, clients, first, polls, deadline, |log|, sent)
    ensures TurnLog(load, clients, first, polls, deadline, turn, sofar, log + [sent])
  {
    var log' := log + [sent];
    forall k: nat | |sofar| <= k < |log'|
      ensures log'[k].poll == turn && SentInOrder(load, clients, first, polls, deadline, k, log'[k])
    {
      assert log'[k] == if k < |log| then log[k] else sent;
    }
  }

  lemma {:induction false} TurnLogExtends(load: LoadConfig, clients: ClientConfig, first: nat, polls: seq<Poll>, deadline: int, turn: nat,
                                          sofar: seq<Sent>, log: seq<Sent>)
    requires clients.Valid() && TurnLog(load, clients, first, polls, deadline, turn, sofar, log)
    requires InOrder(load, clients, first, polls, deadline, sofar) && ByTurn(sofar) && Within(sofar, turn)
    ensures InOrder(load, clients, first, polls, deadline, log) && ByTurn(log) && Within(log, turn + 1)
    ensures SameUpTo(sofar, log, turn)
  {
    if |log| > |sofar| {
      var front, sent := log[..|log| - 1], log[|log| - 1];
      TurnLogExtends(load, clients, first, polls, deadline, turn, sofar, front);
      AppendInOrder(load, clients, first, polls, deadline, front, sent);
      SnocKeepsUpTo(sofar, front, sent, turn);
      assert front + [sent] == log;
    } else {
      assert log == sofar;
    }
  }

  /** One dispatch: its client is resolved and its task joins those in flight. */
  method SendOne(rt: Runtime, load: LoadConfig, clients: ClientConfig, ghost first: nat, ghost polls: seq<Poll>, ghost deadline: int,
                 turn: nat, tick: int, ghost sofar: seq<Sent>, log: seq<Sent>, ghost busy: set<nat>, ghost next: nat, ghost sends: nat)
    returns (log': seq<Sent>)
    requires rt.Valid() && clients.Valid() && TurnLog(load, clients, first, polls, deadline, turn, sofar, log)
    requires turn < |polls| && polls[turn].now == tick < deadline && !polls[turn].stop && !polls[turn].pause
    requires |rt.inFlight| < load.concurrency && rt.dispatchSequence == first + if clients.Rotating? then |log| else 0
    requires Joined(busy, next, sends, rt.inFlight, rt.nextTask)
    modifies rt`dispatchSequence, rt`inFlight, rt`nextTask
    ensures rt.Valid() && |rt.inFlight| == |old(rt.inFlight)| + 1
    ensures rt.stopRequested == old(rt.stopRequested) && rt.pauseRequested == old(rt.pauseRequested)
    ensures TurnLog(load, clients, first, polls, deadline, turn, sofar, log') && |log'| == |log| + 1
    ensures rt.dispatchSequence == first + if clients.Rotating? then |log'| else 0
    ensures Joined(busy, next, sends + 1, rt.inFlight, rt.nextTask)
  {
    var client := rt.ResolveClientId(clients);
    ghost var before := rt.inFlight;
    rt.StartTask();
    OneJoins(busy, next, sends, before, rt.nextTask - 1, rt.inFlight);
    var sent := Sent(turn, tick, |rt.inFlight|, client);
    AppendSent(load, clients, first, polls, deadline, turn, sofar, log, sent);
    log' := log + [sent];
  }

  /** The inner loop: sends while the budget and the concurrency limit allow it. */
  method SendBatch(rt: Runtime, load: LoadConfig, clients: ClientConfig, ghost first: nat, ghost polls: seq<Poll>, ghost deadline: int,
                   turn: nat, tick: int, sofar: seq<Sent>, granted: real)
    returns (log: seq<Sent>, budget: real, dispatched: bool)
    requires rt.Valid() && clients.Valid() && TurnLog(load, clients, first, polls, deadline, turn, sofar, sofar)
    requires turn < |polls| && polls[turn].now == tick < deadline && !polls[turn].stop && !polls[turn].pause
    requires !rt.stopRequested && !rt.pauseRequested
    requires rt.dispatchSequence == first + if clients.Rotating? then |sofar| else 0
    modifies rt
    ensures rt.Valid() && TurnLog(load, clients, first, polls, deadline, turn, sofar, log)
    ensures rt.dispatchSequence == first + if clients.Rotating? then |log| else 0
    ensures |sofar| <= |log| && (dispatched <==> |log| > |sofar|) && budget == granted - (|log| - |sofar|) as real
    ensures |log| - |sofar| == Max(Min(granted.Floor, load.concurrency - |old(rt.inFlight)|), 0)
    ensures Joined(old(rt.inFlight), old(rt.nextTask), |log| - |sofar|, rt.inFlight, rt.nextTask)
  {
    log, budget, dispatched := sofar, granted, false;
    ghost var busy, next, sends := rt.inFlight, rt.nextTask, 0;
    while budget >= 1.0 && |rt.inFlight| < load.concurrency && !rt.stopRequested && !rt.pauseRequested
      invariant rt.Valid() && !rt.stopRequested && !rt.pauseRequested
      invariant TurnLog(load, clients, first, polls, deadline, turn, sofar, log)
      invariant rt.dispatchSequence == first + if clients.Rotating? then |log| else 0
      invariant |log| == |sofar| + sends && (dispatched <==> sends > 0) && budget == granted - sends as real
      invariant sends > 0 ==> budget >= 0.0 && |rt.inFlight| <= load.concurrency
      invariant Joined(busy, next, sends, rt.inFlight, rt.nextTask)
      decreases load.concurrency - |rt.inFlight|
    {
      budget := budget - 1.0;
      dispatched := true;
      log := SendOne(rt, load, clients, first, polls, deadline, turn, tick, sofar, log, busy, next, sends);
      sends := sends + 1;
    }
    SentInWholes(granted, sends, load.concurrency - |busy|);
  }

  /** Sending stops when less than one request's budget or no slot is left. */
  lemma SentInWholes(granted: real, sent: nat, free: int)
    requires sent > 0 ==> granted - sent as real >= 0.0 && sent <= free
    requires granted - sent as real < 1.0 || sent >= free
    ensures sent == Max(Min(granted.Floor, free), 0)
  {
  }

  /** Math.min */
  function Smaller(a: real, b: real): real { if a < b then a else b }

  lemma OnHandIs(x: Session, log: seq<Sent>, n: nat, before: real, elapsed: int, grant: real)
    requires n < |x.polls| && before == Unspent(x, log, n) && elapsed == x.polls[n].now - LastTick(x.firstTick, x.polls, n)
    requires grant == Refill(x.load.rps as real, elapsed)
    ensures Smaller(before + grant, (x.load.rps * 2) as real) == OnHand(x, log, n)
  {
    assert x.load.rps * 2 == 2 * x.load.rps;
  }

  /** A turn that is not the last. Unless it is paused, the tick grants budget and the inner loop spends it. */
  method RunTurn(rt: Runtime, ghost x: Session, load: LoadConfig, clients: ClientConfig, ghost first: nat, polls: seq<Poll>,
                 ghost deadline: int, turn: nat, ghost inFlight: set<nat>, lastTick: int, sofar: seq<Sent>, before: real)
    returns (log: seq<Sent>, budget: real, tick: int)
    requires rt.Valid() && clients.Valid() && x.load == load && x.polls == polls
    requires turn < |polls| && polls[turn].now < deadline && !polls[turn].stop
    requires !rt.stopRequested && rt.pauseRequested == polls[turn].pause
    requires InOrder(load, clients, first, polls, deadline, sofar)
    requires rt.dispatchSequence == first + if clients.Rotating? then |sofar| else 0
    requires Standing(x, sofar, turn, inFlight, rt.nextTask, before, lastTick) && rt.inFlight == inFlight - polls[turn].settled
    modifies rt
    ensures rt.Valid() && InOrder(load, clients, first, polls, deadline, log)
    ensures rt.dispatchSequence == first + if clients.Rotating? then |log| else 0
    ensures Standing(x, log, turn + 1, rt.inFlight, rt.nextTask, budget, tick)
  {
    if rt.pauseRequested {
      PausedTurn(x, sofar, turn, inFlight, rt.nextTask, before, lastTick);
      return sofar, before, lastTick;  // after a sleep of 60 ms
    }
    tick := polls[turn].now;
    var elapsed := tick - lastTick;
    var grant := elapsed as real / 1000.0 * load.rps as real;
    var granted := Smaller(before + grant, (load.rps * 2) as real);
    OnHandIs(x, sofar, turn, before, elapsed, grant);
    ghost var nextTask := rt.nextTask;
    var dispatched;  // if not, the loop sleeps 12 ms before the next turn
    log, budget, dispatched := SendBatch(rt, load, clients, first, polls, deadline, turn, tick, sofar, granted);
    TurnLogExtends(load, clients, first, polls, deadline, turn, sofar, log);
    RunningTurn(x, sofar, log, turn, inFlight, nextTask, before, lastTick, granted);
  }

  /** The outer loop: turn after turn until one finds a stop or the deadline, or observations run out. */
  method RunTurns(rt: Runtime, ghost x: Session, load: LoadConfig, clients: ClientConfig, deadline: int, firstTick: int, polls: seq<Poll>)
    returns (log: seq<Sent>)
    requires rt.Valid() && clients.Valid() && x == Session(load, rt.nextTask, rt.inFlight, firstTick, polls)
    modifies rt
    ensures Lawful(x, clients, old(rt.dispatchSequence), deadline, log, Ends(polls, deadline, 0))
    ensures rt.dispatchSequence == old(rt.dispatchSequence) + if clients.Rotating? then |log| else 0
  {
    log := [];
    ghost var first, inFlight := rt.dispatchSequence, rt.inFlight;
    var budget, lastTick, turn := 0.0, firstTick, 0;
    while turn < |polls|
      invariant turn <= |polls| && Ends(polls, deadline, turn) == Ends(polls, deadline, 0)
      invariant rt.Valid() && InOrder(load, clients, first, polls, deadline, log)
      invariant rt.dispatchSequence == first + if clients.Rotating? then |log| else 0
      invariant inFlight == rt.inFlight && Standing(x, log, turn, inFlight, rt.nextTask, budget, lastTick)
    {
      rt.Observe(polls[turn]);
      if rt.stopRequested || polls[turn].now >= deadline {
        break;
      }
      log, budget, lastTick :=
        RunTurn(rt, x, load, clients, first, polls, deadline, turn, inFlight, lastTick, log, budget);
      inFlight := rt.inFlight;
      turn := turn + 1;
    }
  }

  /**
   * The loop. `deadlineBase` and `firstTick` are the two clock readings it starts with, `polls` what it
   * observes on each turn; running out of observations counts as a stop.
   */
  method RunDispatchLoop(rt: Runtime, load: LoadConfig, clients: ClientConfig, deadlineBase: int, firstTick: int, polls: seq<Poll>)
    returns (log: seq<Sent>)
    requires rt.Valid() && clients.Valid() && load.rps > 0 && deadlineBase <= firstTick && load.durationSec >= 0
    modifies rt
    ensures rt.inFlight == {}
    ensures |log| <= load.rps * load.durationSec
    ensures Paced(load.rps, log)
    ensures rt.dispatchSequence == old(rt.dispatchSequence) + if clients.Rotating? then |log| else 0
    ensures var deadline := deadlineBase + load.durationSec * 1000;
            Lawful(Session(load, old(rt.nextTask), old(rt.inFlight), firstTick, polls), clients, old(rt.dispatchSequence),
                   deadline, log, Ends(polls, deadline, 0))
  {
    ghost var x, first := Session(load, rt.nextTask, rt.inFlight, firstTick, polls), rt.dispatchSequence;
    var deadline := deadlineBase + load.durationSec * 1000;
    log := RunTurns(rt, x, load, clients, deadline, firstTick, polls);
    LawPaces(x, clients, first, deadline, log, Ends(polls, deadline, 0));
    LawLimits(x, clients, first, deadline, log, Ends(polls, deadline, 0));
    rt.SettleAll();
  }

  // ---------- what the law of the turns adds up to ----------

  lemma {:induction false} NoneBefore(log: seq<Sent>)
    ensures UpTo(log, 0) == 0
  {
    if log != [] {
      NoneBefore(log[..|log| - 1]);
    }
  }

  /** Requests sent so far and budget left never exceed what the rate has granted. */
  lemma {:induction false} WithinGrant(x: Session, log: seq<Sent>, n: nat)
    requires n <= |x.polls| && KeepsLaw(x, log, n)
    ensures UpTo(log, n) as real + Unspent(x, log, n)
         <= Refill(x.load.rps as real, LastTick(x.firstTick, x.polls, n) - x.firstTick)
  {
    if n == 0 {
      NoneBefore(log);
      assert Refill(x.load.rps as real, 0) == 0.0;
    } else {
      WithinGrant(x, log, n - 1);
      assert TurnLaw(x, log, n - 1);
      var tick := LastTick(x.firstTick, x.polls, n - 1);
      RefillAdds(x.load.rps as real, tick - x.firstTick, x.polls[n - 1].now - tick);
    }
  }

  /** Nor, since any turn, two seconds' worth and what the rate has granted since. */
  lemma {:induction false} WithinCap(x: Session, log: seq<Sent>, i: nat, n: nat)
    requires i < n <= |x.polls| && KeepsLaw(x, log, n) && !x.polls[i].pause
    ensures (UpTo(log, n) - UpTo(log, i)) as real + Unspent(x, log, n)
         <= (2 * x.load.rps) as real + Refill(x.load.rps as real, LastTick(x.firstTick, x.polls, n) - x.polls[i].now)
  {
    assert TurnLaw(x, log, n - 1);
    if n == i + 1 {
      assert Refill(x.load.rps as real, 0) == 0.0;
    } else {
      WithinCap(x, log, i, n - 1);
      var tick := LastTick(x.firstTick, x.polls, n - 1);
      RefillAdds(x.load.rps as real, tick - x.polls[i].now, x.polls[n - 1].now - tick);
    }
  }

  /** The first UpTo(log, n) entries are those of the turns before n. */
  lemma {:induction false} UpToSplits(log: seq<Sent>, n: nat, k: nat)
    requires ByTurn(log) && k < |log|
    ensures log[k].poll < n <==> k < UpTo(log, n)
  {
    var front := log[..|log| - 1];
    if log[|log| - 1].poll < n {
      assert Within(log, n);
      AllUpTo(log, n);
    } else if k < |front| {
      UpToSplits(front, n, k);
    }
  }

  /** A turn that sent something has not overdrawn its budget. */
  lemma {:induction false} SenderSolvent(x: Session, log: seq<Sent>, k: nat)
    requires ByTurn(log) && k < |log| && log[k].poll < |x.polls| && TurnLaw(x, log, log[k].poll)
    ensures !x.polls[log[k].poll].pause && Unspent(x, log, log[k].poll + 1) >= 0.0
  {
    var n := log[k].poll;
    UpToSplits(log, n, k);
    UpToSplits(log, n + 1, k);
    assert Sends(log, n) > 0;
  }

  lemma SliceCount(log: seq<Sent>, i: nat, j: nat)
    requires ByTurn(log) && i < j <= |log|
    ensures j - i <= UpTo(log, log[j - 1].poll + 1) - UpTo(log, log[i].poll)
  {
    UpToSplits(log, log[i].poll, i);
    UpToSplits(log, log[j - 1].poll + 1, j - 1);
  }

  /** Between two running turns, the later one solvent, no more is sent than the cap and the rate allow. */
  lemma TurnsInPace(x: Session, log: seq<Sent>, p: nat, q: nat)
    requires p <= q < |x.polls| && KeepsLaw(x, log, q + 1) && !x.polls[p].pause && !x.polls[q].pause
    requires Unspent(x, log, q + 1) >= 0.0
    ensures (UpTo(log, q + 1) - UpTo(log, p)) as real
         <= (2 * x.load.rps) as real + Refill(x.load.rps as real, x.polls[q].now - x.polls[p].now)
  {
    WithinCap(x, log, p, q + 1);
  }

  lemma {:induction false} SliceInPace(x: Session, log: seq<Sent>, i: nat, j: nat)
    requires ByTurn(log) && i < j <= |log| && log[j - 1].poll < |x.polls| && KeepsLaw(x, log, log[j - 1].poll + 1)
    requires log[i].at == x.polls[log[i].poll].now && log[j - 1].at == x.polls[log[j - 1].poll].now
    ensures SlicePaced(x.load.rps, log, i, j)
  {
    var p, q := log[i].poll, log[j - 1].poll;
    assert !x.polls[p].pause && !x.polls[q].pause && Unspent(x, log, q + 1) >= 0.0 by {
      assert TurnLaw(x, log, p) && TurnLaw(x, log, q);
      SenderSolvent(x, log, i);
      SenderSolvent(x, log, j - 1);
    }
    SliceCount(log, i, j);
    TurnsInPace(x, log, p, q);
  }

  /** The log is one the loop can have written in its first n turns. */
  ghost predicate Lawful(x: Session, clients: ClientConfig, first: nat, deadline: int, log: seq<Sent>, n: nat) {
    && clients.Valid() && n <= |x.polls| && Within(log, n) && ByTurn(log) && KeepsLaw(x, log, n)
    && InOrder(x.load, clients, first, x.polls, deadline, log)
  }

  lemma LawfulEntry(x: Session, clients: ClientConfig, first: nat, deadline: int, log: seq<Sent>, n: nat, k: nat)
    requires Lawful(x, clients, first, deadline, log, n) && k < |log|
    ensures log[k].poll < n && log[k].at == x.polls[log[k].poll].now < deadline
    ensures TurnLaw(x, log, log[k].poll) && KeepsLaw(x, log, log[k].poll + 1)
  {
    assert SentInOrder(x.load, clients, first, x.polls, deadline, k, log[k]);
  }

  lemma LawPaces(x: Session, clients: ClientConfig, first: nat, deadline: int, log: seq<Sent>, n: nat)
    requires Lawful(x, clients, first, deadline, log, n)
    ensures Paced(x.load.rps, log)
  {
    forall i: nat, j: nat | i < j <= |log| ensures SlicePaced(x.load.rps, log, i, j) {
      LawfulEntry(x, clients, first, deadline, log, n, i);
      LawfulEntry(x, clients, first, deadline, log, n, j - 1);
      SliceInPace(x, log, i, j);
    }
  }

  lemma {:induction false} SolventTurn(x: Session, log: seq<Sent>, q: nat) returns (budget: real, elapsed: int)
    requires ByTurn(log) && log != [] && log[|log| - 1].poll == q < |x.polls| && KeepsLaw(x, log, q + 1) && TurnLaw(x, log, q)
    ensures budget >= 0.0 && elapsed == x.polls[q].now - x.firstTick
    ensures |log| as real + budget <= Refill(x.load.rps as real, elapsed)
  {
    AllUpTo(log, q + 1);
    SenderSolvent(x, log, |log| - 1);
    WithinGrant(x, log, q + 1);
    budget, elapsed := Unspent(x, log, q + 1), x.polls[q].now - x.firstTick;
  }

  /** The turn that wrote the last entry was within its grant. */
  lemma LastEntryGranted(x: Session, clients: ClientConfig, first: nat, deadline: int, log: seq<Sent>, n: nat)
    returns (budget: real, elapsed: int)
    requires Lawful(x, clients, first, deadline, log, n) && log != []
    ensures budget >= 0.0 && elapsed < deadline - x.firstTick
    ensures |log| as real + budget <= Refill(x.load.rps as real, elapsed)
  {
    var q := log[|log| - 1].poll;
    assert q < n && x.polls[q].now < deadline && KeepsLaw(x, log, q + 1) && TurnLaw(x, log, q) by {
      LawfulEntry(x, clients, first, deadline, log, n, |log| - 1);
    }
    budget, elapsed := SolventTurn(x, log, q);
  }

  lemma LawLimits(x: Session, clients: ClientConfig, first: nat, deadline: int, log: seq<Sent>, n: nat)
    requires Lawful(x, clients, first, deadline, log, n)
    requires x.load.rps > 0 && x.load.durationSec >= 0 && deadline <= x.firstTick + x.load.durationSec * 1000
    ensures |log| <= x.load.rps * x.load.durationSec
  {
    var budget, elapsed := 0.0, 0;
    if log == [] {
      assert Refill(x.load.rps as real, 0) == 0.0;
    } else {
      budget, elapsed := LastEntryGranted(x, clients, first, deadline, log, n);
    }
    TotalFits(x.load, |log|, budget, elapsed);
  }

  /** Before the deadline the rate has granted at most rps * durationSec requests. */
  lemma TotalFits(load: LoadConfig, sent: nat, budget: real, elapsed: int)
    requires load.rps > 0 && 0 <= load.durationSec && elapsed <= load.durationSec * 1000
    requires sent as real + budget <= Refill(load.rps as real, elapsed) && budget >= 0.0
    ensures sent <= load.rps * load.durationSec
  {
    RefillGrows(load.rps as real, elapsed, load.durationSec * 1000);
    assert Refill(load.rps as real, load.durationSec * 1000) == (load.rps * load.durationSec) as real;
  }

  lemma {:induction false} TasksSize(first: nat, n: nat)
    ensures |Tasks(first, n)| == n && forall t :: t in Tasks(first, n) ==> t < first + n
  {
    if n > 0 {
      TasksSize(first, n - 1);
    }
  }

  lemma JoinedBounded(inFlight: set<nat>, settled: set<nat>, first: nat, sends: nat, concurrency: int, bound: int)
    requires |inFlight| <= bound && concurrency <= bound && (sends > 0 ==> sends <= concurrency - |inFlight - settled|)
    ensures |inFlight - settled + Tasks(first, sends)| <= bound
  {
    TasksSize(first, sends);
    var kept := inFlight - settled;
    assert |kept + Tasks(first, sends)| <= |kept| + sends;
    assert |kept| <= |inFlight|;
  }

  /** Tasks in flight never exceed the concurrency, unless more were waiting to start with. */
  lemma {:induction false} InFlightBounded(x: Session, log: seq<Sent>, n: nat)
    requires n <= |x.polls| && KeepsLaw(x, log, n)
    ensures |InFlight(x, log, n)| <= Max(x.load.concurrency, |x.waiting|)
  {
    if n > 0 {
      InFlightBounded(x, log, n - 1);
      assert TurnLaw(x, log, n - 1);
      assert Sends(log, n - 1) > 0 ==> Sends(log, n - 1) <= Free(x, log, n - 1);
      JoinedBounded(InFlight(x, log, n - 1), x.polls[n - 1].settled, x.base + UpTo(log, n - 1), Sends(log, n - 1),
                    x.load.concurrency, Max(x.load.concurrency, |x.waiting|));
    }
  }

  /** What was sent since some moment, and what is left, is what was there and what the rate has granted since. */
  predicate Books(x: Session, log: seq<Sent>, n: nat, since: int, sent: int, cap: real)
    requires n <= |x.polls|
  {
    (UpTo(log, n) - sent) as real + Unspent(x, log, n)
    == cap + Refill(x.load.rps as real, LastTick(x.firstTick, x.polls, n) - since)
  }

  lemma BooksOpen(x: Session, log: seq<Sent>)
    ensures Books(x, log, 0, x.firstTick, 0, 0.0)
  {
    NoneBefore(log);
    assert Refill(x.load.rps as real, 0) == 0.0;
  }

  lemma PausedBooks(x: Session, log: seq<Sent>, n: nat, since: int, sent: int, cap: real)
    requires n < |x.polls| && x.polls[n].pause && TurnLaw(x, log, n) && Books(x, log, n, since, sent, cap)
    ensures Books(x, log, n + 1, since, sent, cap)
  {
  }

  /** A turn whose budget is not cut off keeps the books. */
  lemma UncutTurn(x: Session, log: seq<Sent>, n: nat, since: int, sent: int, cap: real)
    requires n < |x.polls| && !x.polls[n].pause && Books(x, log, n, since, sent, cap)
    requires OnHand(x, log, n) == Unspent(x, log, n)
                                  + Refill(x.load.rps as real, x.polls[n].now - LastTick(x.firstTick, x.polls, n))
    ensures Books(x, log, n + 1, since, sent, cap)
  {
    var tick := LastTick(x.firstTick, x.polls, n);
    RefillAdds(x.load.rps as real, tick - since, x.polls[n].now - tick);
    assert Unspent(x, log, n + 1) == OnHand(x, log, n) - Sends(log, n) as real;
  }

  /** A turn whose budget is cut off opens new ones. */
  lemma CutTurn(x: Session, log: seq<Sent>, n: nat)
    requires n < |x.polls| && !x.polls[n].pause && OnHand(x, log, n) == (2 * x.load.rps) as real
    ensures Books(x, log, n + 1, x.polls[n].now, UpTo(log, n), (2 * x.load.rps) as real)
  {
    assert Refill(x.load.rps as real, 0) == 0.0;
  }

  /** The moment since which no budget was cut off: the start of the loop, or a turn that found its budget at the cap. */
  lemma {:induction false} NothingCutSince(x: Session, log: seq<Sent>, n: nat) returns (o: Option<nat>)
    requires n <= |x.polls| && KeepsLaw(x, log, n)
    ensures o.None? ==> Books(x, log, n, x.firstTick, 0, 0.0)
    ensures o.Some? ==> o.value < n && !x.polls[o.value].pause
                        && Books(x, log, n, x.polls[o.value].now, UpTo(log, o.value), (2 * x.load.rps) as real)
  {
    if n == 0 {
      BooksOpen(x, log);
      return None;
    }
    o := NothingCutSince(x, log, n - 1);
    assert TurnLaw(x, log, n - 1);
    var since := if o.None? then x.firstTick else x.polls[o.value].now;
    var sent := if o.None? then 0 else UpTo(log, o.value);
    var cap := if o.None? then 0.0 else (2 * x.load.rps) as real;
    if x.polls[n - 1].pause {
      PausedBooks(x, log, n - 1, since, sent, cap);
    } else if OnHand(x, log, n - 1) == (2 * x.load.rps) as real {
      CutTurn(x, log, n - 1);
      o := Some(n - 1);
    } else {
      UncutTurn(x, log, n - 1, since, sent, cap);
    }
  }

  /** Since turn i at its cap, all has been spent by turn n that could be. */
  predicate CapSpent(x: Session, log: seq<Sent>, i: nat, n: nat)
    requires i <= n < |x.polls|
  {
    !x.polls[i].pause && (UpTo(log, n + 1) - UpTo(log, i)) as real + 1.0
                         > (2 * x.load.rps) as real + Refill(x.load.rps as real, x.polls[n].now - x.polls[i].now)
  }

  /**
   * No slot stays free while there is budget: a running turn that leaves a slot free has spent, to the last whole
   * request, all that the rate has granted since the start, or two seconds' worth and all since some turn. So what
   * the concurrency limit held back is sent as slots free up.
   */
  lemma {:induction false} FreeSlotMeansSpent(x: Session, log: seq<Sent>, n: nat)
    requires n < |x.polls| && KeepsLaw(x, log, n + 1) && !x.polls[n].pause && Sends(log, n) < Free(x, log, n)
    ensures UpTo(log, n + 1) as real + 1.0 > Refill(x.load.rps as real, x.polls[n].now - x.firstTick)
         || exists i: nat :: i <= n && CapSpent(x, log, i, n)
  {
    assert TurnLaw(x, log, n);
    LeavesFraction(OnHand(x, log, n), Sends(log, n), Free(x, log, n));
    var o := NothingCutSince(x, log, n + 1);
    if o.Some? {
      assert CapSpent(x, log, o.value, n);
    }
  }

  lemma LeavesFraction(budget: real, sends: int, free: int)
    requires sends == Max(Min(budget.Floor, free), 0) && sends < free
    ensures budget - sends as real < 1.0
    ensures budget >= 0.0 ==> budget - sends as real >= 0.0
  {
  }

  /** The clock does not step back over the first n turns. */
  predicate Forward(firstTick: int, polls: seq<Poll>, n: nat)
    requires n <= |polls|
  {
    forall k: nat | k < n && !polls[k].pause :: polls[k].now >= LastTick(firstTick, polls, k)
  }

  lemma {:induction false} NeverOverdrawn(x: Session, log: seq<Sent>, n: nat)
    requires n <= |x.polls| && KeepsLaw(x, log, n) && Forward(x.firstTick, x.polls, n) && x.load.rps > 0
    ensures Unspent(x, log, n) >= 0.0
  {
    if n > 0 {
      NeverOverdrawn(x, log, n - 1);
      assert TurnLaw(x, log, n - 1);
      if !x.polls[n - 1].pause {
        RefillGrows(x.load.rps as real, 0, x.polls[n - 1].now - LastTick(x.firstTick, x.polls, n - 1));
      }
    }
  }

  /** After two seconds or more without a running turn, exactly two seconds' worth is sent, if there are slots for it. */
  lemma {:induction false} LongGapSendsTheCap(x: Session, log: seq<Sent>, n: nat)
    requires x.load.rps > 0 && n < |x.polls| && KeepsLaw(x, log, n + 1) && Forward(x.firstTick, x.polls, n)
    requires !x.polls[n].pause && x.polls[n].now - LastTick(x.firstTick, x.polls, n) >= 2000
    ensures Free(x, log, n) >= 2 * x.load.rps ==> Sends(log, n) == 2 * x.load.rps
    ensures 0 <= Free(x, log, n) < 2 * x.load.rps ==> Sends(log, n) == Free(x, log, n)
  {
    NeverOverdrawn(x, log, n);
    RefillGrows(x.load.rps as real, 2000, x.polls[n].now - LastTick(x.firstTick, x.polls, n));
    assert Refill(x.load.rps as real, 2000) == (2 * x.load.rps) as real;
    assert OnHand(x, log, n) == (2 * x.load.rps) as real;
    assert TurnLaw(x, log, n);
  }

  /** Ticks are at most a second apart. */
  ghost predicate Steady(firstTick: int, polls: seq<Poll>, n: nat)
    requires n <= |polls|
  {
    forall k: nat | k < n :: SteadyAt(firstTick, polls, k)
  }

  predicate SteadyAt(firstTick: int, polls: seq<Poll>, k: nat)
    requires k < |polls|
  {
    polls[k].pause || 0 <= polls[k].now - LastTick(firstTick, polls, k) <= 1000
  }

  /** Every running turn among the first n leaves a slot free. */
  ghost predicate NeverFull(x: Session, log: seq<Sent>, n: nat)
    requires n <= |x.polls|
  {
    forall k: nat | k < n :: SlotLeft(x, log, k)
  }

  predicate SlotLeft(x: Session, log: seq<Sent>, k: nat)
    requires k < |x.polls|
  {
    x.polls[k].pause || Sends(log, k) < Free(x, log, k)
  }

  lemma SteadyTurn(x: Session, log: seq<Sent>, n: nat)
    requires x.load.rps > 0 && n < |x.polls| && !x.polls[n].pause && TurnLaw(x, log, n) && SlotLeft(x, log, n)
    requires SteadyAt(x.firstTick, x.polls, n) && 0.0 <= Unspent(x, log, n) < 1.0
    ensures OnHand(x, log, n) == Unspent(x, log, n)
                                 + Refill(x.load.rps as real, x.polls[n].now - LastTick(x.firstTick, x.polls, n))
    ensures 0.0 <= Unspent(x, log, n + 1) < 1.0
  {
    var elapsed := x.polls[n].now - LastTick(x.firstTick, x.polls, n);
    RefillGrows(x.load.rps as real, 0, elapsed);
    RefillGrows(x.load.rps as real, elapsed, 1000);
    LeavesFraction(OnHand(x, log, n), Sends(log, n), Free(x, log, n));
  }

  lemma {:induction false} SteadyBooks(x: Session, log: seq<Sent>, n: nat)
    requires x.load.rps > 0 && n <= |x.polls| && KeepsLaw(x, log, n)
    requires Steady(x.firstTick, x.polls, n) && NeverFull(x, log, n)
    ensures 0.0 <= Unspent(x, log, n) < 1.0 && Books(x, log, n, x.firstTick, 0, 0.0)
  {
    if n == 0 {
      BooksOpen(x, log);
    } else {
      SteadyBooks(x, log, n - 1);
      assert TurnLaw(x, log, n - 1) && SlotLeft(x, log, n - 1) && SteadyAt(x.firstTick, x.polls, n - 1);
      if x.polls[n - 1].pause {
        PausedBooks(x, log, n - 1, x.firstTick, 0, 0.0);
      } else {
        SteadyTurn(x, log, n - 1);
        UncutTurn(x, log, n - 1, x.firstTick, 0, 0.0);
      }
    }
  }

  /** A loop that is never held back sends exactly the whole requests the rate has granted. */
  lemma {:induction false} SteadyLoopSendsAll(x: Session, log: seq<Sent>, n: nat)
    requires x.load.rps > 0 && n <= |x.polls| && KeepsLaw(x, log, n)
    requires Steady(x.firstTick, x.polls, n) && NeverFull(x, log, n)
    ensures UpTo(log, n) == Refill(x.load.rps as real, LastTick(x.firstTick, x.polls, n) - x.firstTick).Floor
  {
    SteadyBooks(x, log, n);
    WholesOf(UpTo(log, n), Unspent(x, log, n),
             Refill(x.load.rps as real, LastTick(x.firstTick, x.polls, n) - x.firstTick));
  }

  lemma WholesOf(sent: int, rest: real, total: real)
    requires 0.0 <= rest < 1.0 && sent as real + rest == total
    ensures sent == total.Floor
  {
  }

  // ---------- rotation ----------

  /** How many of the requests first, ..., first + n - 1 go to the pool's client number r. */
  function Turns(size: int, first: nat, n: nat, r: int): nat
    requires size > 0
  {
    if n == 0 then 0 else Turns(size, first, n - 1, r) + if (first + n - 1) % size == r then 1 else 0
  }

  lemma {:induction false} RoundHasOne(size: int, first: nat, n: nat, r: int)
    requires 0 <= r < size && n <= size
    ensures Turns(size, first, n, r) == if (r - first) % size < n then 1 else 0
  {
    if n > 0 {
      RoundHasOne(size, first, n - 1, r);
      SameResidue(size, first + n - 1, r, n - 1, first);
    }
  }

  /** first + m is in turn for r exactly when m is the distance from first to r around the pool. */
  lemma SameResidue(size: int, t: nat, r: int, m: nat, first: nat)
    requires 0 <= r < size && 0 <= m < size && t == first + m
    ensures t % size == r <==> (r - first) % size == m
  {
    var q, d := t / size, (r - first) / size;
    if t % size == r {
      assert r - first == m + -q * size by {
        assert t == q * size + r;
      }
      UniqueQuotient(r - first, size, -q, m);
    }
    if (r - first) % size == m {
      assert t == r + -d * size by {
        assert r - first == d * size + m;
      }
      UniqueQuotient(t, size, -d, r);
    }
  }

  lemma {:induction false} TurnsSplit(size: int, first: nat, n: nat, m: nat, r: int)
    requires size > 0
    ensures Turns(size, first, n + m, r) == Turns(size, first, n, r) + Turns(size, first + n, m, r)
  {
    if m > 0 {
      TurnsSplit(size, first, n, m - 1, r);
    }
  }

  /** However many requests a session has sent, any two clients of the pool differ by at most one. */
  lemma {:induction false} RotationIsEven(size: int, first: nat, n: nat, r: int, q: int)
    requires 0 <= r < size && 0 <= q < size
    ensures -1 <= Turns(size, first, n, r) - Turns(size, first, n, q) <= 1
    decreases n
  {
    if n < size {
      RoundHasOne(size, first, n, r);
      RoundHasOne(size, first, n, q);
    } else {
      RotationIsEven(size, first + size, n - size, r, q);
      TurnsSplit(size, first, size, n - size, r);
      TurnsSplit(size, first, size, n - size, q);
      RoundHasOne(size, first, size, r);
      RoundHasOne(size, first, size, q);
    }
  }

  /** A single client id is used as it is; a pool's ids are client-1 to client-n in turn, over and over. */
  lemma ClientNames(id: string, size: nat, n: nat)
    requires size > 0
    ensures ClientId(Single(id), n) == id
    ensures n < size ==> ClientId(Rotating(size), n) == "client-" + Keys.Itoa(n + 1)
    ensures ClientId(Rotating(size), n + size) == ClientId(Rotating(size), n)
  {
    if n < size {
      UniqueQuotient(n, size, 0, n);
    }
    UniqueQuotient(n + size, size, n / size + 1, n % size);
  }

  /** Requests of the log that went to a client. */
  function SentTo(log: seq<Sent>, client: string): nat {
    if log == [] then 0
    else SentTo(log[..|log| - 1], client) + if log[|log| - 1].client == client then 1 else 0
  }

  /** Entry k of the log went to this client exactly if the client had the turn. */
  predicate OnTurn(log: seq<Sent>, k: nat, client: string, size: int, first: nat, r: int)
    requires size > 0 && k < |log|
  {
    log[k].client == client <==> (first + k) % size == r
  }

  lemma {:induction false} SentToCounts(log: seq<Sent>, client: string, size: int, first: nat, r: int)
    requires size > 0 && forall k: nat | k < |log| :: OnTurn(log, k, client, size, first, r)
    ensures SentTo(log, client) == Turns(size, first, |log|, r)
  {
    if log != [] {
      var front := log[..|log| - 1];
      forall k: nat | k < |front| ensures OnTurn(front, k, client, size, first, r) {
        assert OnTurn(log, k, client, size, first, r);
      }
      SentToCounts(front, client, size, first, r);
      assert OnTurn(log, |log| - 1, client, size, first, r);
      NextTurn(size, first, |front|, r);
    }
  }

  lemma InTurn(load: LoadConfig, size: int, first: nat, polls: seq<Poll>, deadline: int, log: seq<Sent>, k: nat, r: nat)
    requires 0 <= r < size && k < |log| && SentInOrder(load, Rotating(size), first, polls, deadline, k, log[k])
    ensures OnTurn(log, k, ClientId(Rotating(size), r), size, first, r)
  {
    SameClient(size, first + k, r);
  }

  lemma SentToIsTurns(load: LoadConfig, size: int, first: nat, polls: seq<Poll>, deadline: int, log: seq<Sent>, r: nat)
    requires 0 <= r < size && InOrder(load, Rotating(size), first, polls, deadline, log)
    ensures SentTo(log, ClientId(Rotating(size), r)) == Turns(size, first, |log|, r)
  {
    var client := ClientId(Rotating(size), r);
    forall k: nat | k < |log| ensures OnTurn(log, k, client, size, first, r) {
      assert SentInOrder(load, Rotating(size), first, polls, deadline, k, log[k]);
      InTurn(load, size, first, polls, deadline, log, k, r);
    }
    SentToCounts(log, client, size, first, r);
  }

  lemma NextTurn(size: int, first: nat, n: nat, r: int)
    requires size > 0
    ensures Turns(size, first, n + 1, r) == Turns(size, first, n, r) + if (first + n) % size == r then 1 else 0
  {
  }

  lemma SameClient(size: int, n: nat, r: nat)
    requires 0 <= r < size
    ensures ClientId(Rotating(size), n) == ClientId(Rotating(size), r) <==> n % size == r
  {
    UniqueQuotient(r, size, 0, r);
    if ClientId(Rotating(size), n) == ClientId(Rotating(size), r) {
      assert Keys.Itoa(n % size + 1) == ClientId(Rotating(size), n)[|"client-"|..];
      assert Keys.Itoa(r + 1) == ClientId(Rotating(size), r)[|"client-"|..];
      Keys.ItoaInjective(n % size + 1, r + 1);
    }
  }

  /** The log of a session spreads its requests over the pool evenly to within one. */
  lemma PoolUsedEvenly(load: LoadConfig, size: int, first: nat, polls: seq<Poll>, deadline: int, log: seq<Sent>, r: nat, q: nat)
    requires 0 <= r < size && 0 <= q < size && InOrder(load, Rotating(size), first, polls, deadline, log)
    ensures -1 <= SentTo(log, ClientId(Rotating(size), r)) - SentTo(log, ClientId(Rotating(size), q)) <= 1
  {
    SentToIsTurns(load, size, first, polls, deadline, log, r);
    SentToIsTurns(load, size, first, polls, deadline, log, q);
    RotationIsEven(size, first, |log|, r, q);
  }
}
