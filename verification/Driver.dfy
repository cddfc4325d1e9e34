/** The planner's mutable plan and the loop that drives it under one global model-turn budget. */
module Driver {
  import opened Wrappers
  import opened Planning
  import opened PlanRuns
  import opened DriverLoop

  /** The position of the first step with this id. */
  function FindStep(steps: seq<PlanStep>, id: nat): (r: Option<nat>)
    ensures r.Some? ==> r.value < |steps| && steps[r.value].id == id
    ensures r.Some? ==> forall j :: 0 <= j < r.value ==> steps[j].id != id
    ensures r.None? ==> forall j :: 0 <= j < |steps| ==> steps[j].id != id
  {
    if steps == [] then None
    else if steps[0].id == id then Some(0)
    else
      var rest := FindStep(steps[1..], id);
      if rest.Some? then Some(rest.value + 1) else None
  }

  /** `has_dependency_error`: completing step `i` is refused while a dependency is unfinished. */
  predicate Refuses(steps: seq<PlanStep>, i: nat, status: Status)
    requires i < |steps|
  {
    status == Completed && !DepsMet(steps, steps[i])
  }

  datatype Advance = Advanced | NotFound | Refused

  class ExecutionPlan {
    var steps: seq<PlanStep>
    var status: Status
    var currentStep: Option<nat>
    var revision: nat
    /** Every value `steps` has had, oldest first. */
    ghost var trace: seq<seq<PlanStep>>

    ghost predicate Valid()
      reads this
    {
      && IsRun(trace)
      && trace[|trace| - 1] == steps
    }

    constructor (steps: seq<PlanStep>)
      ensures Valid() && this.steps == steps && trace == [steps]
    {
      this.steps := steps;
      status, currentStep, revision := Pending, Some(0), 1;
      trace := [steps];
    }
  }

  class PlanningEngine {
    var currentPlan: ExecutionPlan?

    constructor (plan: ExecutionPlan)
      ensures currentPlan == plan
    {
      currentPlan := plan;
    }

    /** `advance_step`. A refused completion raises; in every other case the first step with this id
        takes the status. */
    method AdvanceStep(id: nat, newStatus: Status) returns (r: Advance)
      modifies currentPlan
      ensures r == NotFound <==> currentPlan == null || FindStep(old(currentPlan.steps), id).None?
      ensures r == Refused <==>
        currentPlan != null && FindStep(old(currentPlan.steps), id).Some?
        && Refuses(old(currentPlan.steps), FindStep(old(currentPlan.steps), id).value, newStatus)
      ensures r != Advanced && currentPlan != null ==> unchanged(currentPlan)
      ensures r == Advanced ==>
        && currentPlan.steps
          == WithStatus(old(currentPlan.steps), FindStep(old(currentPlan.steps), id).value, newStatus)
        && currentPlan.trace == old(currentPlan.trace) + [currentPlan.steps]
        && (newStatus == InProgress ==> currentPlan.status == InProgress && currentPlan.currentStep == Some(id))
        && (newStatus == Failed ==>
             currentPlan.status == Failed && currentPlan.currentStep == old(currentPlan.currentStep))
        && currentPlan.revision == old(currentPlan.revision) + (if newStatus == Failed then 1 else 0)
        && (newStatus == Completed ==>
             if IsComplete(currentPlan.steps) then
               currentPlan.status == Completed && currentPlan.currentStep == None
             else
               && currentPlan.status == old(currentPlan.status)
               && if currentPlan.currentStep.Some?
                  then exists i: nat ::
                    IsNext(currentPlan.steps, i) && currentPlan.currentStep == Some(currentPlan.steps[i].id)
                  else forall i :: 0 <= i < |currentPlan.steps| ==> !Ready(currentPlan.steps, i))
    {
      if currentPlan == null {
        return NotFound;
      }
      var plan: ExecutionPlan := currentPlan;
      var found := FindStep(plan.steps, id);
      if found.None? {
        return NotFound;
      }
      var i := found.value;
      if newStatus == Completed {
        var statuses := Statuses(plan.steps);
        if exists d :: d in plan.steps[i].dependsOn && !(d in statuses && Done(statuses[d])) {
          return Refused;
        }
      }
      plan.steps := plan.steps[i := plan.steps[i].(status := newStatus)];
      if newStatus == InProgress {
        plan.status := InProgress;
        plan.currentStep := Some(id);
        plan.steps := plan.steps[i := plan.steps[i].(attempts := plan.steps[i].attempts + 1)];
      } else if newStatus == Failed {
        plan.status := Failed;
        plan.revision := plan.revision + 1;
      } else if newStatus == Completed {
        if IsComplete(plan.steps) {
          plan.status := Completed;
          plan.currentStep := None;
        } else {
          var next := NextStep(plan.steps);
          plan.currentStep := if next.Some? then Some(plan.steps[next.value].id) else None;
        }
      }
      plan.trace := plan.trace + [plan.steps];
      return Advanced;
    }

    /** `retry_step`: a failed step becomes pending again and keeps its attempts. */
    method RetryStep(id: nat) returns (moved: bool)
      modifies currentPlan
      ensures moved <==>
        && currentPlan != null && FindStep(old(currentPlan.steps), id).Some?
        && old(currentPlan.steps)[FindStep(old(currentPlan.steps), id).value].status == Failed
      ensures !moved && currentPlan != null ==> unchanged(currentPlan)
      ensures moved ==>
        && currentPlan.steps == WithStatus(old(currentPlan.steps), FindStep(old(currentPlan.steps), id).value, Pending)
        && currentPlan.trace == old(currentPlan.trace) + [currentPlan.steps]
        && currentPlan.status == InProgress && currentPlan.currentStep == Some(id)
        && currentPlan.revision == old(currentPlan.revision) + 1
    {
      if currentPlan == null {
        return false;
      }
      var plan: ExecutionPlan := currentPlan;
      var found := FindStep(plan.steps, id);
      if found.None? || plan.steps[found.value].status != Failed {
        return false;
      }
      plan.steps := plan.steps[found.value := plan.steps[found.value].(status := Pending)];
      plan.status := InProgress;
      plan.currentStep := Some(id);
      plan.revision := plan.revision + 1;
      plan.trace := plan.trace + [plan.steps];
      return true;
    }
  }

  // ----- The driver loop -----

  /** The state of plan `plan` is reachable from a sound start by the moves of the transition system. */
  ghost predicate OnCourse(planner: PlanningEngine, plan: ExecutionPlan)
    reads planner, plan
  {
    planner.currentPlan == plan && plan.Valid() && Sound(plan.trace[0])
  }

  lemma {:induction false} OnCourseIsSound(planner: PlanningEngine, plan: ExecutionPlan)
    requires OnCourse(planner, plan)
    ensures Sound(plan.steps) && SamePlan(plan.trace[0], plan.steps)
  {
    RunKeepsSound(plan.trace, 0, |plan.trace| - 1);
  }

  lemma {:induction false} FoundAtItsId(steps: seq<PlanStep>, i: nat)
    requires WellIndexed(steps) && i < |steps|
    ensures FindStep(steps, i) == Some(i)
  {
    var r := FindStep(steps, i);
    assert steps[i].id == i;
    if r.Some? {
      assert steps[r.value].id == r.value;
    }
  }

  lemma {:induction false} MoveIsNotRefused(steps: seq<PlanStep>, i: nat, m: Move, steps': seq<PlanStep>)
    requires Sound(steps) && Moves(steps, i, m, steps')
    ensures !Refuses(steps, i, Target(m))
  {
    ReadyByPosition(steps, i);
  }

  /** One planner call made while the plan is on course is one move. */
  method Perform(planner: PlanningEngine, plan: ExecutionPlan, i: nat, m: Move)
    requires OnCourse(planner, plan) && i < |plan.steps|
    requires Moves(plan.steps, i, m, WithStatus(plan.steps, i, Target(m)))
    modifies plan
    ensures OnCourse(planner, plan) && plan.trace == old(plan.trace) + [plan.steps]
    ensures Moves(old(plan.steps), i, m, plan.steps) && Sound(plan.steps)
    ensures plan.steps == WithStatus(old(plan.steps), i, Target(m)) && SamePlan(old(plan.steps), plan.steps)
  {
    OnCourseIsSound(planner, plan);
    FoundAtItsId(plan.steps, i);
    ghost var s' := WithStatus(plan.steps, i, Target(m));
    MoveIsNotRefused(plan.steps, i, m, s');
    ExtendRun(plan.trace, i, m, s');
    StepKeepsSound(plan.steps, s');
    if m == Retry {
      var moved := planner.RetryStep(i);
    } else {
      var r := planner.AdvanceStep(i, Target(m));
    }
  }

  function Target(m: Move): Status {
    match m
    case Start => InProgress
    case Finish => Completed
    case Fail => Failed
    case Retry => Pending
  }

  /** The local-fallback path inside a turn: it completes the plan's next step, if any step is ready. */
  method CompleteNext(planner: PlanningEngine, plan: ExecutionPlan)
    requires OnCourse(planner, plan) && Sound(plan.steps)
    modifies plan
    ensures OnCourse(planner, plan) && Sound(plan.steps) && old(plan.trace) <= plan.trace
    ensures forall i: nat :: IsNext(old(plan.steps), i) ==> plan.steps == WithStatus(old(plan.steps), i, Completed)
    ensures (forall j :: 0 <= j < |old(plan.steps)| ==> !Ready(old(plan.steps), j)) ==>
      plan.steps == old(plan.steps) && plan.trace == old(plan.trace)
    ensures FallbackMoves(old(plan.steps), plan.steps) && SamePlan(old(plan.steps), plan.steps)
  {
    var next := NextStep(plan.steps);
    if next.Some? {
      Perform(planner, plan, next.value, Finish);
    }
  }

  /** One hosted turn, as far as the driver can see it: it does anything that `TurnMay` allows. `silence` is
      how many silent turns the run still has in store, any number; a cancelled run has no end of them. */
  method HostedTurn(planner: PlanningEngine, plan: ExecutionPlan, current: nat, stepBudget: nat, silence: nat)
    returns (report: TurnReport, silence': nat)
    requires OnCourse(planner, plan) && Sound(plan.steps) && current < |plan.steps|
    requires plan.steps[current].status == InProgress && stepBudget > 0
    modifies plan
    ensures OnCourse(planner, plan) && Sound(plan.steps) && old(plan.trace) <= plan.trace
    ensures TurnMay(old(plan.steps), current, stepBudget, Turn(plan.steps, report))
    ensures if Silent(old(plan.steps), Turn(plan.steps, report)) then silence == silence' + 1 else silence' == silence
  {
    var before := plan.steps;
    if * {
      CompleteNext(planner, plan);
    }
    ghost var middle := plan.steps;
    assert FallbackMoves(before, middle) && middle[current] == before[current];
    if * {
      Perform(planner, plan, current, Finish);
    } else if * {
      Perform(planner, plan, current, Fail);
    }
    assert plan.steps in {middle, WithStatus(middle, current, Completed), WithStatus(middle, current, Failed)};
    report := AnyReport(stepBudget);
    silence' := silence;
    if report == QUIET && silence > 0 {
      silence' := if plan.steps == before then silence - 1 else silence;
    } else if report == QUIET {
      report := QUIET.(modelTurns := 1);
    }
  }

  method AnyReport(stepBudget: nat) returns (report: TurnReport)
    ensures report.modelTurns <= stepBudget
  {
    var modelTurns: nat :| 0 <= modelTurns <= stepBudget;
    var approval: bool := *;
    var runFailed: bool := *;
    var fallback: bool := *;
    var errorPrefix: bool := *;
    report := TurnReport(modelTurns, approval, runFailed, fallback, errorPrefix);
  }

  /** The position of the running step, if any. */
  method FindRunning(steps: seq<PlanStep>) returns (r: Option<nat>)
    ensures r.Some? ==> r.value < |steps| && steps[r.value].status == InProgress
    ensures r.Some? ==> forall j :: 0 <= j < r.value ==> steps[j].status != InProgress
    ensures r.None? <==> NoneRunning(steps)
  {
    for i := 0 to |steps|
      invariant forall j :: 0 <= j < i ==> steps[j].status != InProgress
    {
      if steps[i].status == InProgress {
        return Some(i);
      }
    }
    return None;
  }

  /** Take up the running step, or start the next one. */
  method Pick(planner: PlanningEngine, plan: ExecutionPlan) returns (r: Option<nat>)
    requires OnCourse(planner, plan) && Sound(plan.steps)
    modifies plan
    ensures OnCourse(planner, plan) && Sound(plan.steps) && old(plan.trace) <= plan.trace
    ensures r.Some? ==> Picks(old(plan.steps), r.value) && plan.steps == Picked(old(plan.steps), r.value)
    ensures r.Some? ==> plan.steps[r.value].status == InProgress
    ensures r.None? ==> plan.steps == old(plan.steps) && NoneRunning(plan.steps)
    ensures r.None? ==> forall j :: 0 <= j < |plan.steps| ==> !Ready(plan.steps, j)
  {
    r := FindRunning(plan.steps);
    if r.None? {
      r := NextStep(plan.steps);
      if r.Some? {
        Perform(planner, plan, r.value, Start);
      }
    }
  }

  lemma {:induction false} StuckPlanHasCause(steps: seq<PlanStep>)
    requires WellIndexed(steps) && !IsComplete(steps) && NoneRunning(steps)
    requires forall j :: 0 <= j < |steps| ==> !Ready(steps, j)
    ensures exists i :: 0 <= i < |steps| && steps[i].status in {Failed, Blocked}
  {
    if forall i :: 0 <= i < |steps| ==> steps[i].status !in {Failed, Blocked} {
      NextStepExists(steps);
    }
  }

  /** What the way the loop ended says of the plan; `turn` was the last one, and about step `i`. */
  ghost predicate Justified(
      exit: Exit, steps: seq<PlanStep>, maxTurns: nat, turnsUsed: nat, i: nat, turn: Turn)
  {
    match exit
    case Finished => IsComplete(steps)
    case NoReadyStep => exists k :: 0 <= k < |steps| && steps[k].status in {Failed, Blocked}
    case TurnsExhausted => turnsUsed >= maxTurns && i < |steps| && steps[i].status == Failed
    case _ =>
      && i < |steps| == |turn.after|
      && StepFollows(turn.report, turn.after[i], turnsUsed < maxTurns, steps[i])
      && StopFollows(turn.report, turn.after[i], turnsUsed < maxTurns, Some(exit))
      && (forall j :: 0 <= j < |steps| && j != i ==> steps[j] == turn.after[j])
  }

  class ExecutionPipeline {
    const maxTurns: nat
    const planner: PlanningEngine

    constructor (maxTurns: nat, planner: PlanningEngine)
      ensures this.maxTurns == maxTurns && this.planner == planner
    {
      this.maxTurns, this.planner := maxTurns, planner;
    }

    /** The part of the loop after the hosted turn: charge the turn, then stop, retry or go on. */
    method Settle(plan: ExecutionPlan, current: nat, report: TurnReport, turnsUsed: nat)
      returns (turnsUsed': nat, stop: Option<Exit>)
      requires OnCourse(planner, plan) && Sound(plan.steps) && current < |plan.steps|
      requires plan.steps[current].status in {InProgress, Completed, Failed}
      modifies plan
      ensures OnCourse(planner, plan) && Sound(plan.steps) && old(plan.trace) <= plan.trace
      ensures (Loop(plan.steps, turnsUsed'), stop)
        == Settled(maxTurns, turnsUsed, current, Turn(old(plan.steps), report))
      ensures |plan.steps| == |old(plan.steps)|
      ensures StepFollows(report, old(plan.steps)[current], turnsUsed' < maxTurns, plan.steps[current])
      ensures StopFollows(report, old(plan.steps)[current], turnsUsed' < maxTurns, stop)
      ensures forall j :: 0 <= j < |plan.steps| && j != current ==> plan.steps[j] == old(plan.steps)[j]
    {
      TurnDecides(maxTurns, turnsUsed, current, Turn(plan.steps, report));
      ghost var before := plan.steps;
      turnsUsed' := turnsUsed;
      if report.runFailed && plan.steps[current].status == InProgress {
        Perform(planner, plan, current, Fail);
        turnsUsed' := turnsUsed' + 1;
      }
      turnsUsed' := turnsUsed' + report.modelTurns;
      assert plan.steps == before[current := before[current].(status := plan.steps[current].status)];
      if report.awaitingApproval {
        return turnsUsed', Some(AwaitingApproval);
      }
      if plan.steps[current].status == Failed {
        if plan.steps[current].attempts <= plan.steps[current].retryLimit && turnsUsed' < maxTurns {
          Perform(planner, plan, current, Retry);
          assert plan.steps == before[current := before[current].(status := Pending)];
          return turnsUsed', None;
        }
        return turnsUsed', Some(StepFailed);
      }
      if report.localFallback || report.errorPrefix {
        StopNow(plan, current, report.localFallback);
        return turnsUsed', Some(Stopped);
      }
      assert plan.steps[current := plan.steps[current]] == plan.steps;
      return turnsUsed', None;
    }

    /** A running step is settled before the loop is left for good. */
    method StopNow(plan: ExecutionPlan, current: nat, finished: bool)
      requires OnCourse(planner, plan) && Sound(plan.steps) && current < |plan.steps|
      requires plan.steps[current].status in {InProgress, Completed}
      modifies plan
      ensures OnCourse(planner, plan) && Sound(plan.steps) && old(plan.trace) <= plan.trace
      ensures var was := old(plan.steps);
        plan.steps == was[current := was[current].(
          status := if was[current].status == Completed || finished then Completed else Failed)]
    {
      if plan.steps[current].status == InProgress {
        Perform(planner, plan, current, if finished then Finish else Fail);
      }
    }

    /** One pass through the loop body. If the loop goes on, the pass was an iteration of `DriverLoop`. */
    method Iterate(plan: ExecutionPlan, turnsUsed: nat, silence: nat)
      returns (stop: Option<Exit>, turnsUsed': nat, spent: nat, silence': nat, ghost i: nat, ghost turn: Turn)
      requires OnCourse(planner, plan) && Sound(plan.steps) && !IsComplete(plan.steps)
      modifies plan
      ensures OnCourse(planner, plan) && Sound(plan.steps) && old(plan.trace) <= plan.trace
      ensures spent <= if turnsUsed < maxTurns then maxTurns - turnsUsed else 0
      ensures turnsUsed + spent <= turnsUsed' <= turnsUsed + spent + 1
      ensures turnsUsed >= maxTurns ==> turnsUsed' == turnsUsed
      ensures stop.None? ==>
        Iterates(maxTurns, Loop(old(plan.steps), turnsUsed), i, turn, Loop(plan.steps, turnsUsed'))
      ensures stop.None? ==>
        if Silent(Picked(old(plan.steps), i), turn) then silence == silence' + 1 else silence' == silence
      ensures stop.Some? ==> stop != Some(Finished) && Justified(stop.value, plan.steps, maxTurns, turnsUsed', i, turn)
    {
      turnsUsed', spent, silence', i, turn := turnsUsed, 0, silence, 0, Turn([], QUIET);
      ghost var before := plan.steps;
      var picked := Pick(planner, plan);
      if picked.None? {
        StuckPlanHasCause(plan.steps);
        stop := Some(NoReadyStep);
        return;
      }
      var current := picked.value;
      if turnsUsed >= maxTurns {
        Perform(planner, plan, current, Fail);
        i := current;
        stop := Some(TurnsExhausted);
        return;
      }
      i := current;
      stop, turnsUsed', spent, silence', turn := TakeTurn(plan, current, turnsUsed, silence);
    }

    /** The rest of the loop body once a step has been taken up and turns are left. */
    method TakeTurn(plan: ExecutionPlan, current: nat, turnsUsed: nat, silence: nat)
      returns (stop: Option<Exit>, turnsUsed': nat, spent: nat, silence': nat, ghost turn: Turn)
      requires OnCourse(planner, plan) && Sound(plan.steps) && turnsUsed < maxTurns
      requires current < |plan.steps| && plan.steps[current].status == InProgress
      modifies plan
      ensures OnCourse(planner, plan) && Sound(plan.steps) && old(plan.trace) <= plan.trace
      ensures TurnMay(old(plan.steps), current, StepBudget(old(plan.steps)[current], maxTurns - turnsUsed), turn)
      ensures current < |turn.after| && spent == turn.report.modelTurns
      ensures (Loop(plan.steps, turnsUsed'), stop) == Settled(maxTurns, turnsUsed, current, turn)
      ensures if Silent(old(plan.steps), turn) then silence == silence' + 1 else silence' == silence
      ensures stop.Some? ==>
        stop != Some(Finished) && Justified(stop.value, plan.steps, maxTurns, turnsUsed', current, turn)
    {
      ghost var before := plan.steps;
      var budget := StepBudget(plan.steps[current], maxTurns - turnsUsed);
      var report;
      report, silence' := HostedTurn(planner, plan, current, budget, silence);
      turn := Turn(plan.steps, report);
      TurnWorks(before, current, budget, turn);
      spent := report.modelTurns;
      turnsUsed', stop := Settle(plan, current, report, turnsUsed);
    }

    /** The loop of `_run_hosted_execution`. It ends whatever the hosted turns do, as long as only so many of
        them are silent, however many; `spent` is the number of model turns they emitted. */
    method Drive(plan: ExecutionPlan, silence: nat)
      returns (exit: Exit, turnsUsed: nat, spent: nat, ghost i: nat, ghost turn: Turn)
      requires OnCourse(planner, plan) && Sound(plan.steps)
      modifies plan
      ensures OnCourse(planner, plan) && Sound(plan.steps) && old(plan.trace) <= plan.trace
      ensures spent <= maxTurns && spent <= turnsUsed <= maxTurns + 1
      ensures Justified(exit, plan.steps, maxTurns, turnsUsed, i, turn)
    {
      var left := silence;
      exit, turnsUsed, spent, i, turn := Finished, 0, 0, 0, Turn([], QUIET);
      while !IsComplete(plan.steps)
        invariant OnCourse(planner, plan) && Sound(plan.steps) && old(plan.trace) <= plan.trace
        invariant spent <= maxTurns && spent <= turnsUsed <= maxTurns + 1
        invariant exit == Finished
        decreases maxTurns + 1 - turnsUsed, Unfinished(plan.steps) + Effort(plan.steps), left
      {
        ghost var before := Loop(plan.steps, turnsUsed);
        var stop, used, more, silent;
        stop, used, more, silent, i, turn := Iterate(plan, turnsUsed, left);
        turnsUsed, spent, left := used, spent + more, silent;
        if stop.Some? {
          return stop.value, turnsUsed, spent, i, turn;
        }
        IterationIsIdleIff(maxTurns, before, i, turn, Loop(plan.steps, turnsUsed));
      }
    }

    /** `_run_hosted_execution` on a plan with steps, fresh or resumed: the loop's guarantees, and what its run
        did. It starts no step more often than `StartLimit` and completes steps in dependency order. */
    method RunHostedExecution(plan: ExecutionPlan, silence: nat)
      returns (exit: Exit, turnsUsed: nat, spent: nat, ghost i: nat, ghost turn: Turn)
      requires planner.currentPlan == plan && plan.trace == [plan.steps] && Sound(plan.steps)
      modifies plan
      ensures plan.Valid() && planner.currentPlan == plan && plan.trace[0] == old(plan.steps)
      ensures Sound(plan.steps)
      ensures spent <= maxTurns && spent <= turnsUsed <= maxTurns + 1
      ensures Justified(exit, plan.steps, maxTurns, turnsUsed, i, turn)
      ensures CompletedInOrder(old(plan.steps), Completions(plan.trace), plan.steps)
      ensures forall k: nat :: k < |plan.steps| ==> Starts(plan.trace, k) <= StartLimit(old(plan.steps)[k])
    {
      exit, turnsUsed, spent, i, turn := Drive(plan, silence);
      CompletionsExtendDependencies(plan.trace);
      forall k: nat | k < |plan.steps|
        ensures Starts(plan.trace, k) <= StartLimit(plan.trace[0][k])
      {
        StartsAreBounded(plan.trace, k);
      }
    }
  }

  // ----- From a goal to an executed plan -----

  /** A plan is created and executed: its steps are completed in dependency order, each is started at most
      once more than it may be retried, and a run that finishes has completed them all. */
  method CreateAndExecute(goal: Goal, largeRepository: bool, maxTurns: nat, silence: nat)
    returns (exit: Exit, turnsUsed: nat, spent: nat, plan: ExecutionPlan, ghost i: nat, ghost turn: Turn)
    ensures fresh(plan) && plan.Valid() && WellIndexed(plan.trace[0]) && Fresh(plan.trace[0])
    ensures CompletedInOrder(plan.trace[0], Completions(plan.trace), plan.steps)
    ensures forall k: nat :: k < |plan.steps| ==> Starts(plan.trace, k) <= DEFAULT_RETRY_LIMIT + 1
    ensures spent <= maxTurns && spent <= turnsUsed <= maxTurns + 1
    ensures Justified(exit, plan.steps, maxTurns, turnsUsed, i, turn)
    ensures exit == Finished ==> forall k: nat :: k < |plan.steps| ==> k in Completions(plan.trace)
  {
    var steps := CreatePlan(goal, largeRepository);
    FreshIsSound(steps);
    plan := new ExecutionPlan(steps);
    var planner := new PlanningEngine(plan);
    var pipeline := new ExecutionPipeline(maxTurns, planner);
    exit, turnsUsed, spent, i, turn := pipeline.RunHostedExecution(plan, silence);
  }
}
