/**
  The interlocks between the HA thread and the worker thread: CriticalTask and AsyncExecutor of
  patroni/async_executor.py, the gates in Postgresql.promote and Postgresql.start, and
  Ha.handle_long_action_in_progress.
 */
module Interlock {
  import opened Wrappers

  /** The fields of a CriticalTask. */
  datatype Task<T> = Task(isCancelled: bool, result: Option<T>)

  function Fresh<T>(): Task<T> { Task(false, None) }

  /** cancel: False when the task has completed, otherwise the task is marked and the answer is True. */
  function Cancelled<T>(t: Task<T>): (Task<T>, bool) {
    if t.result.Some? then (t, false) else (t.(isCancelled := true), true)
  }

  class CriticalTask<T> {
    var isCancelled: bool
    var result: Option<T>

    function Value(): Task<T>
      reads this
    {
      Task(isCancelled, result)
    }

    constructor ()
      ensures Value() == Fresh()
    {
      isCancelled, result := false, None;
    }

    method Reset()
      modifies this
      ensures Value() == Fresh()
    {
      isCancelled, result := false, None;
    }

    method Cancel() returns (ok: bool)
      modifies this
      ensures ok <==> old(result).None?
      ensures result == old(result) && (isCancelled <==> ok || old(isCancelled))
    {
      if result.Some? {
        return false;
      }
      isCancelled := true;
      return true;
    }

    method Complete(r: Option<T>)
      modifies this
      ensures Value() == old(Value()).(result := r)
    {
      result := r;
    }
  }

  type Postmaster = nat

  datatype Thread = Main | Worker

  datatype ActionKind = Promotion | Restart

  /** Where the worker thread stands; the gates are the sections under the lock of the task. */
  datatype WorkerPc =
    | Absent
    | Starting               // run: before it takes the executor lock
    | Preparing              // pre_promote script, or stop of the old postmaster
    | AtGate                 // waits for the lock of the task
    | InGate                 // holds it
    | Passed(go: bool)       // left it; go: may issue the failover command
    | Finishing              // run's finally: before it takes the executor lock
    | Resetting              // holds the executor lock, waits for the lock of critical_task

  /** Where the HA thread stands within a cycle; it holds the executor lock throughout. */
  datatype MainPc =
    | Outside
    | InCycle
    | WantsTask              // lost the lock during a promotion or a restart: waits for the lock of the task
    | HoldsTask
    | Cancelling(won: bool)  // cancel has been called, the lock of the task is still held

  datatype State = State(
    executorLock: Option<Thread>,
    taskLock: Option<Thread>,
    main: MainPc,
    worker: WorkerPc,
    action: Option<ActionKind>,         // _scheduled_action
    response: Task<bool>,               // Ha._async_response, used by promote
    critical: Task<Postmaster>,         // AsyncExecutor.critical_task, used by restart
    prePromote: bool,                   // the answer of the pre_promote script
    running: Option<Postmaster>,        // what this restart has started and nobody has terminated
    started: nat,                       // the next postmaster
    failovers: nat,                     // failover commands issued for this action
    cancelWon: bool,                    // cancel answered True for this action
    cancelLost: bool)                   // cancel answered False for this action

  datatype Step =
    | BeginCycle
    | EndCycle
    | SchedulePromotion                 // enforce_master_role
    | ScheduleRestart                   // Ha.restart
    | DiscardResponse                   // the pre_promote script failed: forget it before the next try
    | LoseLock                          // handle_long_action_in_progress without the leader key
    | MainTakesTask
    | CallCancel
    | Terminate                         // with the task still locked: terminate what it started; unlock
    | WorkerBegins
    | Prepare(ok: bool)
    | SkipGate                          // already the primary, or the old postmaster did not stop
    | WorkerTakesTask
    | Gate(fails: bool)                 // fails: the postmaster could not be started
    | Failover
    | SkipFailover                      // the cancellable was cancelled, or nothing is left to do
    | WorkerTakesExecutor
    | ResetTask

  predicate Enabled(s: State, step: Step) {
    match step
    case BeginCycle => s.main.Outside? && s.executorLock.None?
    case EndCycle => s.main.InCycle?
    case SchedulePromotion => s.main.InCycle? && s.action.None? && s.taskLock.None?
    case ScheduleRestart => s.main.InCycle? && s.action.None?
    case DiscardResponse => s.main.InCycle? && s.action.None? && s.taskLock.None?
    case LoseLock => s.main.InCycle? && s.action.Some?
    case MainTakesTask => s.main.WantsTask? && s.taskLock.None?
    case CallCancel => s.main.HoldsTask?
    case Terminate => s.main.Cancelling?
    case WorkerBegins => s.worker.Starting? && s.executorLock.None?
    case Prepare(_) => s.worker.Preparing?
    case SkipGate => s.worker.Preparing?
    case WorkerTakesTask => s.worker.AtGate? && s.taskLock.None?
    case Gate(_) => s.worker.InGate?
    case Failover => s.worker == Passed(true) && s.action == Some(Promotion)
    case SkipFailover => s.worker.Passed?
    case WorkerTakesExecutor => s.worker.Finishing? && s.executorLock.None?
    case ResetTask => s.worker.Resetting? && s.taskLock.None?
  }

  function Scheduled(s: State, action: ActionKind): State {
    s.(action := Some(action), worker := Starting, failovers := 0, running := None,
       cancelWon := false, cancelLost := false)
  }

  /** The body of the gate: look at is_cancelled, run the critical part, complete the task, unlock it. */
  function ThroughGate(s: State, fails: bool): State
    requires s.worker.InGate?
  {
    var t := s.(taskLock := None);
    if s.action == Some(Promotion) then
      if s.response.isCancelled then t.(worker := Passed(false))
      else t.(response := s.response.(result := Some(s.prePromote)), worker := Passed(s.prePromote))
    else
      if s.critical.isCancelled then t.(worker := Passed(false))
      else if fails then t.(critical := s.critical.(result := None), worker := Passed(false))
      else t.(critical := s.critical.(result := Some(s.started)), running := Some(s.started),
              started := s.started + 1, worker := Passed(false))
  }

  function Apply(s: State, step: Step): State
    requires Enabled(s, step)
  {
    match step
    case BeginCycle => s.(main := InCycle, executorLock := Some(Main))
    case EndCycle => s.(main := Outside, executorLock := None)
    case SchedulePromotion => Scheduled(s, Promotion).(response := Fresh())
    case ScheduleRestart => Scheduled(s, Restart)
    case DiscardResponse => s.(response := Fresh())
    case LoseLock => s.(main := WantsTask)
    case MainTakesTask => s.(main := HoldsTask, taskLock := Some(Main))
    case CallCancel =>
      if s.action == Some(Promotion) then
        var (task, won) := Cancelled(s.response);
        s.(response := task, main := Cancelling(won),
           cancelWon := s.cancelWon || won, cancelLost := s.cancelLost || !won)
      else
        var (task, won) := Cancelled(s.critical);
        s.(critical := task, main := Cancelling(won),
           cancelWon := s.cancelWon || won, cancelLost := s.cancelLost || !won)
    case Terminate =>
      s.(main := InCycle, taskLock := None,
         running := if s.action == Some(Restart) && !s.main.won && s.running == s.critical.result
                    then None else s.running)
    case WorkerBegins => s.(worker := Preparing)
    case Prepare(ok) => s.(worker := AtGate, prePromote := ok)
    case SkipGate => s.(worker := Finishing)
    case WorkerTakesTask => s.(worker := InGate, taskLock := Some(Worker))
    case Gate(fails) => ThroughGate(s, fails)
    case Failover => s.(worker := Finishing, failovers := s.failovers + 1)
    case SkipFailover => s.(worker := Finishing)
    case WorkerTakesExecutor => s.(worker := Resetting, executorLock := Some(Worker), action := None)
    case ResetTask => s.(worker := Absent, executorLock := None, critical := Fresh())
  }

  predicate Init(s: State) {
    && s.executorLock.None? && s.taskLock.None? && s.main.Outside? && s.worker.Absent? && s.action.None?
    && s.response == Fresh() && s.critical == Fresh() && s.running.None? && s.failovers == 0
    && !s.cancelWon && !s.cancelLost
  }

  function Run(s: State, steps: seq<Step>): Option<State> {
    if steps == [] then Some(s)
    else
      var before := Run(s, steps[..|steps| - 1]);
      var step := steps[|steps| - 1];
      if before.Some? && Enabled(before.value, step) then Some(Apply(before.value, step)) else None
  }

  predicate BeforeGate(pc: WorkerPc) { pc.Starting? || pc.Preparing? || pc.AtGate? || pc.InGate? }

  /** The executor lock and the lock of the task belong to whoever is in a section that needs them. */
  predicate Locks(s: State) {
    && (s.executorLock == Some(Main) <==> !s.main.Outside?)
    && (s.executorLock == Some(Worker) <==> s.worker.Resetting?)
    && (s.taskLock == Some(Main) <==> s.main.HoldsTask? || s.main.Cancelling?)
    && (s.taskLock == Some(Worker) <==> s.worker.InGate?)
    && (s.action.Some? <==> !s.worker.Absent? && !s.worker.Resetting?)
    && (s.main.WantsTask? || s.main.HoldsTask? || s.main.Cancelling? ==> s.action.Some?)
  }

  /** What the task of the current action says about the calls of cancel. */
  predicate Agrees<T>(s: State, t: Task<T>) {
    && (s.cancelWon <==> t.isCancelled)
    && (t.isCancelled ==> t.result.None?)
    && (s.cancelLost ==> t.result.Some?)
    && (BeforeGate(s.worker) ==> t.result.None? && s.failovers == 0 && s.running.None?)
    && (s.main.Cancelling? ==> if s.main.won then s.cancelWon else s.cancelLost)
  }

  predicate PromotionInv(s: State) {
    && Agrees(s, s.response) && s.running.None? && s.critical == Fresh()
    && (s.worker == Passed(true) || s.failovers > 0 ==> s.response.result == Some(true))
    && (s.failovers > 0 ==> s.worker.Finishing? && s.failovers == 1)
    && (s.worker.Passed? ==>
          if s.cancelWon then s.worker == Passed(false)
          else s.response == Task(false, Some(s.prePromote)) && s.worker == Passed(s.prePromote))
  }

  predicate RestartInv(s: State) {
    && Agrees(s, s.critical) && s.failovers == 0
    && (s.running.Some? ==> s.critical.result == s.running)
    && (s.critical.result.Some? && !s.cancelLost ==> s.running == s.critical.result)
    && (s.cancelWon || s.cancelLost ==> s.running.None? || s.main.Cancelling?)
    && (s.main.Cancelling? && s.main.won ==> s.running.None?)
  }

  /** What is left when the action is over. */
  predicate AfterwardsInv(s: State) {
    && s.failovers <= 1 && (s.cancelWon ==> s.failovers == 0)
    && (s.cancelWon || s.cancelLost ==> s.running.None?)
    && (s.worker.Absent? ==> s.critical == Fresh())
  }

  predicate Inv(s: State) {
    && Locks(s)
    && match s.action
       case None => AfterwardsInv(s)
       case Some(Promotion) => PromotionInv(s)
       case Some(Restart) => RestartInv(s)
  }

  lemma MainStepKeeps(s: State, step: Step)
    requires Inv(s) && Enabled(s, step)
    requires step.BeginCycle? || step.EndCycle? || step.SchedulePromotion? || step.ScheduleRestart? ||
             step.DiscardResponse? || step.LoseLock? || step.MainTakesTask? || step.CallCancel? || step.Terminate?
    ensures Inv(Apply(s, step))
  {}

  lemma WorkerStepKeeps(s: State, step: Step)
    requires Inv(s) && Enabled(s, step)
    requires step.WorkerBegins? || step.Prepare? || step.SkipGate? || step.WorkerTakesTask? || step.Gate? ||
             step.Failover? || step.SkipFailover? || step.WorkerTakesExecutor? || step.ResetTask?
    ensures Inv(Apply(s, step))
  {}

  lemma {:induction false} RunKeeps(s0: State, steps: seq<Step>)
    requires Init(s0) && Run(s0, steps).Some?
    ensures Inv(Run(s0, steps).value)
  {
    if steps != [] {
      var before := Run(s0, steps[..|steps| - 1]).value;
      var step := steps[|steps| - 1];
      RunKeeps(s0, steps[..|steps| - 1]);
      match step
      case BeginCycle => MainStepKeeps(before, step);
      case EndCycle => MainStepKeeps(before, step);
      case SchedulePromotion => MainStepKeeps(before, step);
      case ScheduleRestart => MainStepKeeps(before, step);
      case DiscardResponse => MainStepKeeps(before, step);
      case LoseLock => MainStepKeeps(before, step);
      case MainTakesTask => MainStepKeeps(before, step);
      case CallCancel => MainStepKeeps(before, step);
      case Terminate => MainStepKeeps(before, step);
      case _ => WorkerStepKeeps(before, step);
    }
  }

  /** Once cancel has answered True for an action, that action issues no failover command, now or later; at most one
      side wins; and the failover command is issued at most once. */
  lemma PromoteInterlock(s0: State, steps: seq<Step>)
    requires Init(s0) && Run(s0, steps).Some?
    ensures
      var s := Run(s0, steps).value;
      && (s.cancelWon ==> s.failovers == 0)
      && (s.action.Some? ==> !(s.cancelWon && s.cancelLost))
      && s.failovers <= 1
  {
    RunKeeps(s0, steps);
  }

  /** After both the worker's gate and a call of cancel exactly one of them has won: either the task is marked and was
      never completed, or it is completed and was never marked. */
  lemma OneSideWins(s0: State, steps: seq<Step>)
    requires Init(s0) && Run(s0, steps).Some? && Run(s0, steps).value.action == Some(Promotion)
    requires Run(s0, steps).value.worker.Passed?
    ensures
      var s := Run(s0, steps).value;
      && (s.cancelWon || s.cancelLost ==> s.cancelWon != s.cancelLost)
      && (s.cancelWon ==> s.worker == Passed(false) && s.response == Task(true, None))
      && (s.cancelLost ==> !s.response.isCancelled && s.response.result.Some?)
  {
    RunKeeps(s0, steps);
  }

  /** The other side: a promotion past its gate that nobody has cancelled is completed with the answer of the
      pre_promote script, and goes on exactly if that is True. */
  lemma WorkerWins(s0: State, steps: seq<Step>)
    requires Init(s0) && Run(s0, steps).Some? && Run(s0, steps).value.action == Some(Promotion)
    requires Run(s0, steps).value.worker.Passed? && !Run(s0, steps).value.cancelWon
    ensures
      var s := Run(s0, steps).value;
      && s.response == Task(false, Some(s.prePromote)) && s.worker == Passed(s.prePromote)
      && (Enabled(s, Failover) <==> s.prePromote)
      && (s.prePromote ==> Apply(s, Failover).failovers == 1)
  {
    RunKeeps(s0, steps);
  }

  /** A promotion in its gate is not cancelled exactly if no call of cancel has won; then the gate completes it. */
  lemma PromotionPasses(s0: State, steps: seq<Step>, fails: bool)
    requires Init(s0) && Run(s0, steps).Some? && Run(s0, steps).value.action == Some(Promotion)
    requires Run(s0, steps).value.worker.InGate?
    ensures
      var s := Run(s0, steps).value;
      var t := Apply(s, Gate(fails));
      && t.response.result == (if s.cancelWon then None else Some(s.prePromote))
      && t.worker == Passed(!s.cancelWon && s.prePromote) && t.taskLock.None? && t.prePromote == s.prePromote
  {
    RunKeeps(s0, steps);
  }

  /** A restart in its gate that is not cancelled starts a postmaster, unless that fails, as the result of the task. */
  lemma RestartStarts(s0: State, steps: seq<Step>, fails: bool)
    requires Init(s0) && Run(s0, steps).Some? && Run(s0, steps).value.action == Some(Restart)
    requires Run(s0, steps).value.worker.InGate?
    ensures
      var s := Run(s0, steps).value;
      var t := Apply(s, Gate(fails));
      && t.running == (if s.cancelWon || fails then None else Some(s.started)) && t.critical.result == t.running
      && (t.running.Some? ==> t.started == s.started + 1)
  {
    RunKeeps(s0, steps);
  }

  /** And it stays running, as the result, until the HA thread has called cancel in vain. */
  lemma StartedRuns(s0: State, steps: seq<Step>)
    requires Init(s0) && Run(s0, steps).Some? && Run(s0, steps).value.action == Some(Restart)
    requires Run(s0, steps).value.critical.result.Some? && !Run(s0, steps).value.cancelLost
    ensures var s := Run(s0, steps).value; s.running == s.critical.result
  {
    RunKeeps(s0, steps);
  }

  /** A run and the state that it leads to. */
  predicate Leads(s0: State, steps: seq<Step>, s: State) { Run(s0, steps) == Some(s) }

  lemma GoesOn(s0: State, steps: seq<Step>, s: State, step: Step) returns (longer: seq<Step>, t: State)
    requires Leads(s0, steps, s) && Enabled(s, step)
    ensures t == Apply(s, step) && longer == steps + [step] && Leads(s0, longer, t)
  {
    longer, t := steps + [step], Apply(s, step);
    assert longer[..|steps|] == steps;
  }

  /** An action is scheduled in a cycle of its own. */
  lemma Schedules(s0: State, action: ActionKind) returns (steps: seq<Step>, s: State)
    requires Init(s0)
    ensures Leads(s0, steps, s)
    ensures s == Scheduled(s0, action).(response := if action == Promotion then Fresh() else s0.response)
  {
    steps, s := GoesOn(s0, [], s0, BeginCycle);
    steps, s := GoesOn(s0, steps, s, if action == Promotion then SchedulePromotion else ScheduleRestart);
    steps, s := GoesOn(s0, steps, s, EndCycle);
  }

  /** The worker comes to its gate. */
  lemma ReachesGate(s0: State, before: seq<Step>, s: State) returns (steps: seq<Step>, t: State)
    requires Leads(s0, before, s) && s.worker.Starting? && s.executorLock.None? && s.taskLock.None?
    ensures Leads(s0, steps, t) && t == s.(worker := InGate, prePromote := true, taskLock := Some(Worker))
  {
    steps, t := GoesOn(s0, before, s, WorkerBegins);
    steps, t := GoesOn(s0, steps, t, Prepare(true));
    steps, t := GoesOn(s0, steps, t, WorkerTakesTask);
  }

  /** The HA thread finds that it lost the lock, and calls cancel. */
  lemma Cancels(s0: State, before: seq<Step>, s: State) returns (steps: seq<Step>, t: State)
    requires Leads(s0, before, s) && s.main.Outside? && s.action.Some? && s.executorLock.None? && s.taskLock.None?
    ensures Leads(s0, steps, t)
    ensures t == Apply(s.(executorLock := Some(Main), taskLock := Some(Main), main := HoldsTask), CallCancel)
  {
    steps, t := GoesOn(s0, before, s, BeginCycle);
    steps, t := GoesOn(s0, steps, t, LoseLock);
    steps, t := GoesOn(s0, steps, t, MainTakesTask);
    steps, t := GoesOn(s0, steps, t, CallCancel);
  }

  /** A promotion that is left alone issues the failover command. */
  lemma PromotionHappens(s0: State) returns (steps: seq<Step>, s: State)
    requires Init(s0)
    ensures Leads(s0, steps, s) && s.failovers == 1 && s.response == Task(false, Some(true))
  {
    steps, s := Schedules(s0, Promotion);
    steps, s := ReachesGate(s0, steps, s);
    steps, s := GoesOn(s0, steps, s, Gate(false));
    steps, s := GoesOn(s0, steps, s, Failover);
  }

  /** One that is cancelled in time does not. */
  lemma CancelHappens(s0: State) returns (steps: seq<Step>, s: State)
    requires Init(s0)
    ensures Leads(s0, steps, s) && s.cancelWon && s.worker == Passed(false) && s.response == Task(true, None)
  {
    steps, s := Schedules(s0, Promotion);
    steps, s := Cancels(s0, steps, s);
    steps, s := GoesOn(s0, steps, s, Terminate);
    steps, s := GoesOn(s0, steps, s, EndCycle);
    steps, s := ReachesGate(s0, steps, s);
    steps, s := GoesOn(s0, steps, s, Gate(false));
  }

  /** A restart starts a postmaster, and a cancel that comes too late gets it and terminates it. */
  lemma RestartHappens(s0: State) returns (steps: seq<Step>, s: State, later: seq<Step>, t: State)
    requires Init(s0)
    ensures Leads(s0, steps, s) && s.running == Some(s0.started) && s.critical.result == s.running
    ensures Leads(s0, later, t) && t.cancelLost && t.running.None? && t.critical.result == Some(s0.started)
  {
    steps, s := Schedules(s0, Restart);
    steps, s := ReachesGate(s0, steps, s);
    steps, s := GoesOn(s0, steps, s, Gate(false));
    later, t := Cancels(s0, steps, s);
    later, t := GoesOn(s0, later, t, Terminate);
  }

  /** While an action is busy no step takes back a cancellation. */
  lemma NoResetWhileBusy(s0: State, steps: seq<Step>, step: Step)
    requires Init(s0) && Run(s0, steps).Some? && Enabled(Run(s0, steps).value, step)
    requires Run(s0, steps).value.action.Some?
    ensures
      var s := Run(s0, steps).value;
      var t := Apply(s, step);
      (s.response.isCancelled ==> t.response.isCancelled) && (s.critical.isCancelled ==> t.critical.isCancelled)
  {
    RunKeeps(s0, steps);
  }

  /** No postmaster escapes: once the HA thread has called cancel for a restart and left the locked section, nothing
      that this restart has started is running, and it stays like this until the next action. */
  lemma RestartInterlock(s0: State, steps: seq<Step>)
    requires Init(s0) && Run(s0, steps).Some?
    ensures
      var s := Run(s0, steps).value;
      (s.cancelWon || s.cancelLost) && !s.main.Cancelling? ==> s.running.None?
  {
    RunKeeps(s0, steps);
  }

  /** What the canceller gets to see: if cancel answers False during a restart, the result of the task is the very
      postmaster that is running, or that one has been terminated already; if it answers True, none is running. */
  lemma CancellerSeesPostmaster(s0: State, steps: seq<Step>)
    requires Init(s0) && Run(s0, steps).Some?
    requires Run(s0, steps).value.main.Cancelling? && Run(s0, steps).value.action == Some(Restart)
    ensures
      var s := Run(s0, steps).value;
      if s.main.won then s.running.None?
      else s.critical.result.Some? && (s.running.Some? ==> s.running == s.critical.result)
  {
    RunKeeps(s0, steps);
  }

  // ---------------------------------------------------------------- the threads and their tasks

  ghost predicate Reachable(s: State) {
    exists s0, steps {:trigger Run(s0, steps)} :: Init(s0) && Run(s0, steps) == Some(s)
  }

  lemma Extend(s: State, step: Step)
    requires Reachable(s) && Enabled(s, step)
    ensures Reachable(Apply(s, step))
  {
    var s0, steps :| Init(s0) && Run(s0, steps) == Some(s);
    assert (steps + [step])[..|steps|] == steps;
    assert Run(s0, steps + [step]) == Some(Apply(s, step));
  }

  /** Both threads, with the two tasks as objects; every method is one step of the transition system. */
  class Threads {
    const response: CriticalTask<bool>         // Ha._async_response
    const critical: CriticalTask<Postmaster>   // AsyncExecutor.critical_task
    var rest: State                            // all but the tasks

    function Now(): State
      reads this, response, critical
    {
      rest.(response := response.Value(), critical := critical.Value())
    }

    ghost predicate Valid()
      reads this, response, critical
    {
      Reachable(Now())
    }

    constructor ()
      ensures Valid() && Init(Now()) && fresh(response) && fresh(critical)
    {
      response := new CriticalTask();
      critical := new CriticalTask();
      rest := State(None, None, Outside, Absent, None, Fresh(), Fresh(), false, None, 0, 0, false, false);
      new;
      assert Run(Now(), []) == Some(Now());
    }

    /** A step that leaves the tasks alone. */
    method Go(step: Step)
      requires Valid() && Enabled(Now(), step)
      requires !step.SchedulePromotion? && !step.DiscardResponse? && !step.CallCancel? && !step.Gate?
      requires !step.ResetTask?
      modifies this
      ensures Valid() && Now() == Apply(old(Now()), step)
    {
      Extend(Now(), step);
      rest := Apply(Now(), step);
    }

    /** enforce_master_role before it promotes. */
    method SchedulePromote()
      requires Valid() && Enabled(Now(), SchedulePromotion)
      modifies this, response
      ensures Valid() && Now() == Apply(old(Now()), SchedulePromotion)
    {
      Extend(Now(), SchedulePromotion);
      response.Reset();
      rest := Scheduled(rest, Promotion);
    }

    /** enforce_master_role after a pre_promote script that failed. */
    method Discard()
      requires Valid() && Enabled(Now(), DiscardResponse)
      modifies this, response
      ensures Valid() && Now() == Apply(old(Now()), DiscardResponse)
    {
      Extend(Now(), DiscardResponse);
      response.Reset();
    }

    /** handle_long_action_in_progress without the leader key, with the task locked; then what the answer is worth. */
    method CancelAction() returns (won: bool)
      requires Valid() && Enabled(Now(), CallCancel)
      modifies this, response, critical
      ensures Valid() && Now() == Apply(old(Now()), CallCancel) && rest.main == Cancelling(won)
      ensures won ==> rest.failovers == 0 && rest.running.None?
      ensures !won && rest.action == Some(Restart) && rest.running.Some? ==> critical.result == rest.running
    {
      Extend(Now(), CallCancel);
      if rest.action == Some(Promotion) {
        won := response.Cancel();
      } else {
        won := critical.Cancel();
      }
      rest := rest.(main := Cancelling(won), cancelWon := rest.cancelWon || won, cancelLost := rest.cancelLost || !won);
      Sound();
    }

    /** promote, with the task locked: the answer of the pre_promote script completes it unless it is cancelled. */
    method PromoteGate()
      requires Valid() && rest.worker.InGate? && rest.action == Some(Promotion)
      modifies this, response
      ensures Valid() && Now() == Apply(old(Now()), Gate(false))
      ensures rest.worker == Passed(old(!response.isCancelled && rest.prePromote))
      ensures response.result == if old(response.isCancelled) then old(response.result) else Some(old(rest.prePromote))
    {
      Extend(Now(), Gate(false));
      if response.isCancelled {
        rest := rest.(taskLock := None, worker := Passed(false));
        return;
      }
      response.Complete(Some(rest.prePromote));
      rest := rest.(taskLock := None, worker := Passed(rest.prePromote));
    }

    /** start, with the task locked: a postmaster is started unless the task is cancelled. */
    method StartGate(fails: bool)
      requires Valid() && rest.worker.InGate? && rest.action == Some(Restart)
      modifies this, critical
      ensures Valid() && Now() == Apply(old(Now()), Gate(fails))
      ensures !old(critical.isCancelled) && !fails ==>
        rest.running == critical.result == Some(old(rest.started)) && rest.started == old(rest.started) + 1
      ensures old(critical.isCancelled) || fails ==> rest.running == old(rest.running)
    {
      Extend(Now(), Gate(fails));
      if critical.isCancelled {
        rest := rest.(taskLock := None, worker := Passed(false));
        return;
      }
      if fails {
        critical.Complete(None);
      } else {
        critical.Complete(Some(rest.started));
        rest := rest.(running := Some(rest.started), started := rest.started + 1);
      }
      rest := rest.(taskLock := None, worker := Passed(false));
    }

    /** The end of run, with both locks. */
    method Finish()
      requires Valid() && Enabled(Now(), ResetTask)
      modifies this, critical
      ensures Valid() && Now() == Apply(old(Now()), ResetTask)
    {
      Extend(Now(), ResetTask);
      critical.Reset();
      rest := rest.(worker := Absent, executorLock := None);
    }

    lemma Sound()
      requires Valid()
      ensures Inv(Now())
    {
      var s0, steps :| Init(s0) && Run(s0, steps) == Some(Now());
      RunKeeps(s0, steps);
    }
  }
}
