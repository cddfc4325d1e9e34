/** The loop that drives a plan, as a relation between its iterations: what one hosted turn can do, what an
    iteration makes of it, and when the loop can go on for ever. */
module DriverLoop {
  import opened Wrappers
  import opened Planning
  import opened PlanRuns

  // ----- Hosted turns -----

  /** What one hosted turn reports back, besides its effect on the plan. */
  datatype TurnReport = TurnReport(
    modelTurns: nat,          // events of type model_turn
    awaitingApproval: bool,   // some event asks for approval or confirmation
    runFailed: bool,          // the response carries the run-failed marker
    localFallback: bool,      // the response names the local fallback
    errorPrefix: bool         // the response starts with ERROR: or BLOCKED:
  )

  /** Nothing the loop looks for: this is what a cancelled turn reports. */
  const QUIET := TurnReport(0, false, false, false, false)

  /** A turn, by the plan it leaves and by its report. */
  datatype Turn = Turn(after: seq<PlanStep>, report: TurnReport)

  /** On the local-fallback path a turn completes the plan's next step. */
  ghost predicate FallbackMoves(s: seq<PlanStep>, middle: seq<PlanStep>) {
    middle == s || exists i: nat :: IsNext(s, i) && middle == WithStatus(s, i, Completed)
  }

  /** Everything a turn can do while step `current` runs: the fallback may move, then the running step may be
      completed or failed, at most `budget` model turns are emitted, and anything is answered. */
  ghost predicate TurnMay(s: seq<PlanStep>, current: nat, budget: nat, turn: Turn) {
    && current < |s| && s[current].status == InProgress
    && turn.report.modelTurns <= budget
    && exists middle ::
         && FallbackMoves(s, middle)
         && |middle| == |s|
         && turn.after in {middle, WithStatus(middle, current, Completed), WithStatus(middle, current, Failed)}
  }

  /** The turn leaves the plan alone and says nothing the loop looks for. */
  predicate Silent(s: seq<PlanStep>, turn: Turn) {
    turn == Turn(s, QUIET)
  }

  function StepBudget(step: PlanStep, remaining: nat): nat {
    var wanted := if step.maxToolCalls + 1 > 2 then step.maxToolCalls + 1 else 2;
    if remaining < wanted then remaining else wanted
  }

  /** A turn may use all turns that remain, or else exactly as many as are at least two and more than the step's tool
      calls, and no more than it needs for that. */
  lemma {:induction false} StepBudgetIsLeast(step: PlanStep, remaining: nat, n: nat)
    ensures n >= StepBudget(step, remaining) <==> n >= remaining || (n >= 2 && n > step.maxToolCalls)
  {
  }

  // ----- One iteration -----

  datatype Exit = Finished | NoReadyStep | TurnsExhausted | AwaitingApproval | StepFailed | Stopped

  /** The step an iteration takes up: the running one, or the next one, which it starts. */
  ghost predicate Picks(s: seq<PlanStep>, i: nat) {
    && i < |s|
    && if s[i].status == InProgress then forall j :: 0 <= j < i ==> s[j].status != InProgress
       else NoneRunning(s) && IsNext(s, i)
  }

  function Picked(s: seq<PlanStep>, i: nat): seq<PlanStep>
    requires i < |s|
  {
    if s[i].status == InProgress then s else WithStatus(s, i, InProgress)
  }

  /** What follows a turn that left the running step as `step`: the reason to stop, if there is one, and
      the step's next status. */
  function Verdict(report: TurnReport, step: PlanStep, turnsLeft: bool): (Option<Exit>, Status) {
    var status := if report.runFailed && step.status == InProgress then Failed else step.status;
    if report.awaitingApproval then (Some(AwaitingApproval), status)
    else if status == Failed then
      if step.attempts <= step.retryLimit && turnsLeft then (None, Pending) else (Some(StepFailed), Failed)
    else if report.localFallback then (Some(Stopped), Completed)
    else if report.errorPrefix then (Some(Stopped), if status == InProgress then Failed else status)
    else (None, status)
  }

  /** The loop's variables between two iterations. */
  datatype Loop = Loop(steps: seq<PlanStep>, turnsUsed: nat)

  function Charged(turnsUsed: nat, report: TurnReport, status: Status): nat {
    turnsUsed + report.modelTurns + if report.runFailed && status == InProgress then 1 else 0
  }

  /** Charge the turn, then stop, retry or go on. */
  function Settled(maxTurns: nat, turnsUsed: nat, i: nat, turn: Turn): (Loop, Option<Exit>)
    requires i < |turn.after|
  {
    var step := turn.after[i];
    var used := Charged(turnsUsed, turn.report, step.status);
    var (stop, status) := Verdict(turn.report, step, used < maxTurns);
    (Loop(turn.after[i := step.(status := status)], used), stop)
  }

  // ----- What a turn leads to -----

  /** The step has failed, or the run did while it was running. */
  predicate TurnFailed(report: TurnReport, step: PlanStep) {
    step.status == Failed || (step.status == InProgress && report.runFailed)
  }

  predicate RetryDue(report: TurnReport, step: PlanStep, turnsLeft: bool) {
    TurnFailed(report, step) && !report.awaitingApproval && step.attempts <= step.retryLimit && turnsLeft
  }

  /** The step was still running when the response was looked at. */
  predicate StillRunning(report: TurnReport, step: PlanStep) {
    step.status == InProgress && !report.runFailed && !report.awaitingApproval
  }

  /** What becomes of a step that a turn has left as `step`, status by status: it is completed only by the turn itself
      or by the local fallback, pending again only if a retry is due, and failed also by an error answer. */
  predicate StepFollows(report: TurnReport, step: PlanStep, turnsLeft: bool, after: PlanStep) {
    && after == step.(status := after.status)
    && (after.status == Completed <==>
         step.status == Completed || (StillRunning(report, step) && report.localFallback))
    && (after.status == Pending <==> RetryDue(report, step, turnsLeft))
    && (after.status == Failed <==>
         || (TurnFailed(report, step) && !RetryDue(report, step, turnsLeft))
         || (StillRunning(report, step) && report.errorPrefix && !report.localFallback))
  }

  /** And whether the loop stops, exit by exit. */
  predicate StopFollows(report: TurnReport, step: PlanStep, turnsLeft: bool, stop: Option<Exit>) {
    && (stop == Some(AwaitingApproval) <==> report.awaitingApproval)
    && (stop == Some(StepFailed) <==>
         TurnFailed(report, step) && !report.awaitingApproval && !RetryDue(report, step, turnsLeft))
    && (stop == Some(Stopped) <==>
         !TurnFailed(report, step) && !report.awaitingApproval && (report.localFallback || report.errorPrefix))
    && (stop.Some? ==> stop.value in {AwaitingApproval, StepFailed, Stopped})
  }

  /** The loop body after the turn: these laws hold of the current step and of the exit, no other step changes, and the
      turn is charged its model turns and one more if the run failed while the step was running. */
  lemma {:induction false} TurnDecides(maxTurns: nat, turnsUsed: nat, i: nat, turn: Turn)
    requires i < |turn.after| && turn.after[i].status in {InProgress, Completed, Failed}
    ensures var (l', stop) := Settled(maxTurns, turnsUsed, i, turn);
      && |l'.steps| == |turn.after|
      && StepFollows(turn.report, turn.after[i], l'.turnsUsed < maxTurns, l'.steps[i])
      && StopFollows(turn.report, turn.after[i], l'.turnsUsed < maxTurns, stop)
      && (forall j :: 0 <= j < |turn.after| && j != i ==> l'.steps[j] == turn.after[j])
      && l'.turnsUsed == turnsUsed + turn.report.modelTurns
           + if turn.report.runFailed && turn.after[i].status == InProgress then 1 else 0
  {
  }

  /** An iteration that takes up step `i`, in which the hosted turn does `turn`, and after which the loop goes
      on. */
  ghost predicate Iterates(maxTurns: nat, l: Loop, i: nat, turn: Turn, l': Loop) {
    && !IsComplete(l.steps)
    && l.turnsUsed < maxTurns
    && Picks(l.steps, i)
    && TurnMay(Picked(l.steps, i), i, StepBudget(l.steps[i], maxTurns - l.turnsUsed), turn)
    && i < |turn.after|
    && Settled(maxTurns, l.turnsUsed, i, turn) == (l', None)
  }

  // ----- The measure -----

  /** The sum of a weight over all steps. */
  ghost function Total(w: PlanStep -> nat, s: seq<PlanStep>): nat {
    if s == [] then 0 else w(s[0]) + Total(w, s[1..])
  }

  lemma {:induction false} TotalUpdate(w: PlanStep -> nat, s: seq<PlanStep>, i: nat, x: PlanStep)
    requires i < |s|
    ensures Total(w, s[i := x]) + w(s[i]) == Total(w, s) + w(x)
    decreases |s|
  {
    if i == 0 {
      assert s[i := x][1..] == s[1..];
    } else {
      assert s[i := x][1..] == s[1..][i - 1 := x];
      TotalUpdate(w, s[1..], i - 1, x);
    }
  }

  ghost function UnfinishedWeight(step: PlanStep): nat {
    if Done(step.status) then 0 else 1
  }

  /** Two units for every start that may still come, one more while the step runs. */
  ghost function EffortWeight(step: PlanStep): nat {
    match step.status
    case Pending => 2 * StartLimit(step)
    case InProgress => (if step.attempts <= step.retryLimit then 2 * StartLimit(step) else 0) + 1
    case Failed => if step.attempts <= step.retryLimit then 2 * StartLimit(step) else 0
    case _ => 0
  }

  ghost function Unfinished(s: seq<PlanStep>): nat {
    Total(UnfinishedWeight, s)
  }

  ghost function Effort(s: seq<PlanStep>): nat {
    Total(EffortWeight, s)
  }

  /** Completing lowers the number of unfinished steps, starting and failing lower the effort left, and no
      move raises either. */
  lemma {:induction false} MoveChangesMeasure(s: seq<PlanStep>, i: nat, m: Move, s': seq<PlanStep>)
    requires Moves(s, i, m, s')
    ensures m == Finish && !Done(s[i].status) ==> Unfinished(s') < Unfinished(s)
    ensures m != Finish ==> Unfinished(s') == Unfinished(s)
    ensures Unfinished(s') <= Unfinished(s) && Effort(s') <= Effort(s)
    ensures m == Start || m == Fail ==> Effort(s') < Effort(s)
  {
    TotalUpdate(UnfinishedWeight, s, i, s'[i]);
    TotalUpdate(EffortWeight, s, i, s'[i]);
  }

  /** `s'` has no more work left than `s`. */
  ghost predicate NoMoreWork(s: seq<PlanStep>, s': seq<PlanStep>) {
    Unfinished(s') <= Unfinished(s) && Effort(s') <= Effort(s)
  }

  /** `s'` has less work left than `s`. */
  ghost predicate LessWork(s: seq<PlanStep>, s': seq<PlanStep>) {
    NoMoreWork(s, s') && (Unfinished(s') < Unfinished(s) || Effort(s') < Effort(s))
  }

  /** `l'` comes strictly below `l` in a well-founded order. */
  ghost predicate Lower(l: Loop, l': Loop) {
    l'.turnsUsed > l.turnsUsed || (l'.turnsUsed == l.turnsUsed && LessWork(l.steps, l'.steps))
  }

  // ----- What one iteration does to the measure -----

  lemma {:induction false} PickingWorks(s: seq<PlanStep>, i: nat)
    requires Sound(s) && Picks(s, i)
    ensures Sound(Picked(s, i)) && |Picked(s, i)| == |s| && Picked(s, i)[i].status == InProgress
    ensures NoMoreWork(s, Picked(s, i))
    ensures s[i].status != InProgress ==> LessWork(s, Picked(s, i))
  {
    if s[i].status != InProgress {
      assert Moves(s, i, Start, Picked(s, i));
      MoveChangesMeasure(s, i, Start, Picked(s, i));
      StepKeepsSound(s, Picked(s, i));
    }
  }

  lemma {:induction false} FallbackWorks(s: seq<PlanStep>, middle: seq<PlanStep>, current: nat)
    requires Sound(s) && FallbackMoves(s, middle) && current < |s| && s[current].status == InProgress
    ensures Sound(middle) && |middle| == |s| && middle[current] == s[current]
    ensures NoMoreWork(s, middle) && (middle != s ==> LessWork(s, middle))
  {
    if middle != s {
      var i: nat :| IsNext(s, i) && middle == WithStatus(s, i, Completed);
      assert Moves(s, i, Finish, middle);
      MoveChangesMeasure(s, i, Finish, middle);
      StepKeepsSound(s, middle);
    }
  }

  /** A turn leaves no more work, and less if it changes the plan. */
  lemma {:induction false} TurnWorks(s: seq<PlanStep>, current: nat, budget: nat, turn: Turn)
    requires Sound(s) && TurnMay(s, current, budget, turn)
    ensures Sound(turn.after) && |turn.after| == |s|
    ensures turn.after[current].status in {InProgress, Completed, Failed}
    ensures NoMoreWork(s, turn.after) && (turn.after != s ==> LessWork(s, turn.after))
    ensures turn.after[current].status == InProgress ==> turn.after[current] == s[current]
  {
    var middle :| FallbackMoves(s, middle) && |middle| == |s|
      && turn.after in {middle, WithStatus(middle, current, Completed), WithStatus(middle, current, Failed)};
    FallbackWorks(s, middle, current);
    if turn.after != middle {
      var m := if turn.after == WithStatus(middle, current, Completed) then Finish else Fail;
      assert Moves(middle, current, m, turn.after);
      MoveChangesMeasure(middle, current, m, turn.after);
      StepKeepsSound(middle, turn.after);
    }
  }

  /** Failing the running step, or making a failed one pending, leaves no more work. */
  lemma {:induction false} SettlingWorks(maxTurns: nat, turnsUsed: nat, i: nat, turn: Turn)
    requires Sound(turn.after) && i < |turn.after|
    requires turn.after[i].status in {InProgress, Completed, Failed}
    requires Settled(maxTurns, turnsUsed, i, turn).1.None?
    ensures var l' := Settled(maxTurns, turnsUsed, i, turn).0;
      && Sound(l'.steps)
      && NoMoreWork(turn.after, l'.steps)
      && (l'.steps == turn.after || l'.steps[i].status == Pending)
  {
    var s := turn.after;
    var l' := Settled(maxTurns, turnsUsed, i, turn).0;
    var failed := if s[i].status == InProgress then WithStatus(s, i, Failed) else s;
    if l'.steps[i].status == Pending {
      if s[i].status == InProgress {
        assert Moves(s, i, Fail, failed);
        MoveChangesMeasure(s, i, Fail, failed);
        StepKeepsSound(s, failed);
      }
      assert Moves(failed, i, Retry, l'.steps);
      MoveChangesMeasure(failed, i, Retry, l'.steps);
      StepKeepsSound(failed, l'.steps);
    } else {
      assert l'.steps == s;
    }
  }

  /** An iteration leaves the loop's variables as they were exactly if it took up a running step and the turn
      was silent. Every other iteration comes strictly lower. */
  lemma {:induction false} IterationIsIdleIff(maxTurns: nat, l: Loop, i: nat, turn: Turn, l': Loop)
    requires Sound(l.steps) && Iterates(maxTurns, l, i, turn, l')
    ensures Sound(l'.steps) && l.turnsUsed <= l'.turnsUsed <= maxTurns + 1
    ensures l' == l <==> l.steps[i].status == InProgress && Silent(l.steps, turn)
    ensures l' == l || Lower(l, l')
  {
    IterationGoesDown(maxTurns, l, i, turn, l');
    IdleReport(maxTurns, l.turnsUsed, i, turn);
    if l.steps[i].status == InProgress && Silent(l.steps, turn) {
      assert l'.steps == l.steps;
    }
  }

  lemma {:induction false} IterationGoesDown(maxTurns: nat, l: Loop, i: nat, turn: Turn, l': Loop)
    requires Sound(l.steps) && Iterates(maxTurns, l, i, turn, l')
    ensures Sound(l'.steps) && l.turnsUsed <= l'.turnsUsed <= maxTurns + 1
    ensures l' == l || Lower(l, l')
    ensures l' == l ==> l.steps[i].status == InProgress && turn.after == l.steps && l.steps[i] == turn.after[i]
  {
    var s := Picked(l.steps, i);
    PickingWorks(l.steps, i);
    TurnWorks(s, i, StepBudget(l.steps[i], maxTurns - l.turnsUsed), turn);
    SettlingWorks(maxTurns, l.turnsUsed, i, turn);
  }

  /** Only the quiet report costs nothing, stops nothing and leaves a running step running. */
  lemma {:induction false} IdleReport(maxTurns: nat, turnsUsed: nat, i: nat, turn: Turn)
    requires i < |turn.after|
    ensures var (l', stop) := Settled(maxTurns, turnsUsed, i, turn);
      turn.after[i].status == InProgress ==>
        (l' == Loop(turn.after, turnsUsed) && stop.None? <==> turn.report == QUIET)
  {
    var step := turn.after[i];
    assert turn.after[i := step] == turn.after;
    if step.status == InProgress && turn.report.runFailed {
      assert Charged(turnsUsed, turn.report, step.status) > turnsUsed;
    }
  }

  // ----- Endless loops -----

  /** Iterations without end: iteration `n` goes from `e(n)` to `e(n + 1)`. */
  ghost predicate Endless(maxTurns: nat, e: nat -> Loop, picks: nat -> nat, turns: nat -> Turn) {
    forall n: nat :: IteratesAt(maxTurns, e, picks, turns, n)
  }

  ghost predicate IteratesAt(maxTurns: nat, e: nat -> Loop, picks: nat -> nat, turns: nat -> Turn, n: nat) {
    Iterates(maxTurns, e(n), picks(n), turns(n), e(n + 1))
  }

  lemma {:induction false} EndlessIsSound(
      maxTurns: nat, e: nat -> Loop, picks: nat -> nat, turns: nat -> Turn, n: nat)
    requires Endless(maxTurns, e, picks, turns) && Sound(e(0).steps)
    ensures Sound(e(n).steps)
  {
    if n > 0 {
      EndlessIsSound(maxTurns, e, picks, turns, n - 1);
      assert IteratesAt(maxTurns, e, picks, turns, n - 1);
      IterationIsIdleIff(maxTurns, e(n - 1), picks(n - 1), turns(n - 1), e(n));
    }
  }

  /** The first iteration from `n` on that changes anything. */
  lemma {:induction false} FirstChange(e: nat -> Loop, n: nat, m: nat) returns (k: nat)
    requires n <= m && e(m + 1) != e(m)
    ensures n <= k <= m && e(k) == e(n) && e(k + 1) != e(n)
    decreases m - n
  {
    if e(n + 1) != e(n) {
      k := n;
    } else {
      k := FirstChange(e, n + 1, m);
    }
  }

  ghost predicate StaysFrom(e: nat -> Loop, n: nat) {
    forall m: nat :: m >= n ==> e(m + 1) == e(m)
  }

  lemma {:induction false} ChangeLowers(
      maxTurns: nat, e: nat -> Loop, picks: nat -> nat, turns: nat -> Turn, k: nat)
    requires Endless(maxTurns, e, picks, turns) && Sound(e(0).steps) && e(k + 1) != e(k)
    ensures e(k).turnsUsed < maxTurns && Lower(e(k), e(k + 1))
  {
    EndlessIsSound(maxTurns, e, picks, turns, k);
    assert IteratesAt(maxTurns, e, picks, turns, k);
    IterationIsIdleIff(maxTurns, e(k), picks(k), turns(k), e(k + 1));
  }

  lemma {:induction false} StandsStill(
      maxTurns: nat, e: nat -> Loop, picks: nat -> nat, turns: nat -> Turn, n: nat) returns (last: nat)
    requires Endless(maxTurns, e, picks, turns) && Sound(e(0).steps)
    ensures last >= n && StaysFrom(e, last)
    decreases if e(n).turnsUsed < maxTurns then maxTurns - e(n).turnsUsed else 0,
      Unfinished(e(n).steps) + Effort(e(n).steps)
  {
    if StaysFrom(e, n) {
      last := n;
    } else {
      var m: nat :| m >= n && e(m + 1) != e(m);
      var k := FirstChange(e, n, m);
      ChangeLowers(maxTurns, e, picks, turns, k);
      last := StandsStill(maxTurns, e, picks, turns, k + 1);
    }
  }

  /** A loop that never ends does so because from some point on every turn is silent. */
  lemma {:induction false} EndlessIsSilent(
      maxTurns: nat, e: nat -> Loop, picks: nat -> nat, turns: nat -> Turn) returns (last: nat)
    requires Endless(maxTurns, e, picks, turns) && Sound(e(0).steps)
    ensures forall n: nat :: n >= last ==> e(n) == e(last) && Silent(e(last).steps, turns(n))
  {
    last := StandsStill(maxTurns, e, picks, turns, 0);
    forall n: nat | n >= last
      ensures e(n) == e(last) && Silent(e(last).steps, turns(n))
    {
      SameFrom(e, last, n);
      EndlessIsSound(maxTurns, e, picks, turns, n);
      assert IteratesAt(maxTurns, e, picks, turns, n);
      IterationIsIdleIff(maxTurns, e(n), picks(n), turns(n), e(n + 1));
    }
  }

  lemma {:induction false} SameFrom(e: nat -> Loop, last: nat, n: nat)
    requires StaysFrom(e, last) && last <= n
    ensures e(n) == e(last)
    decreases n
  {
    if n > last {
      SameFrom(e, last, n - 1);
      assert e(n - 1 + 1) == e(n - 1);
    }
  }

  /** The loop is about to run a hosted turn. */
  ghost predicate RunsTurn(maxTurns: nat, l: Loop) {
    && !IsComplete(l.steps)
    && l.turnsUsed < maxTurns
    && (!NoneRunning(l.steps) || exists j :: 0 <= j < |l.steps| && Ready(l.steps, j))
  }

  lemma {:induction false} FirstRunning(s: seq<PlanStep>, j: nat) returns (i: nat)
    requires j < |s| && s[j].status == InProgress
    ensures Picks(s, i)
    decreases j
  {
    if k :| 0 <= k < j && s[k].status == InProgress {
      i := FirstRunning(s, k);
    } else {
      i := j;
    }
  }

  /** The loop can go on for ever exactly from where it runs another turn: if the run is cancelled there, this
      turn and every later one is silent, and the loop never ends. */
  lemma {:induction false} CancelledLoopIsEndlessIff(maxTurns: nat, l: Loop)
    requires Sound(l.steps)
    ensures RunsTurn(maxTurns, l) <==> CanBeEndless(maxTurns, l)
    ensures RunsTurn(maxTurns, l) <==> EndlessOnceCancelled(maxTurns, l)
  {
    if RunsTurn(maxTurns, l) {
      CancelledForever(maxTurns, l);
    }
    if CanBeEndless(maxTurns, l) {
      var e: nat -> Loop, picks: nat -> nat, turns: nat -> Turn :| e(0) == l && Endless(maxTurns, e, picks, turns);
      assert IteratesAt(maxTurns, e, picks, turns, 0);
    }
  }

  ghost predicate CanBeEndless(maxTurns: nat, l: Loop) {
    exists e: nat -> Loop, picks: nat -> nat, turns: nat -> Turn ::
      e(0) == l && Endless(maxTurns, e, picks, turns)
  }

  /** Endless with silent turns only. */
  ghost predicate EndlessOnceCancelled(maxTurns: nat, l: Loop) {
    exists e: nat -> Loop, picks: nat -> nat, turns: nat -> Turn ::
      e(0) == l && Endless(maxTurns, e, picks, turns) && AllSilent(e, picks, turns)
  }

  ghost predicate AllSilent(e: nat -> Loop, picks: nat -> nat, turns: nat -> Turn) {
    forall n: nat :: picks(n) < |e(n).steps| && Silent(Picked(e(n).steps, picks(n)), turns(n))
  }

  lemma {:induction false} SomePick(maxTurns: nat, l: Loop) returns (i: nat)
    requires Sound(l.steps) && RunsTurn(maxTurns, l)
    ensures Picks(l.steps, i)
  {
    if NoneRunning(l.steps) {
      var j :| 0 <= j < |l.steps| && Ready(l.steps, j);
      i := FirstReady(l.steps, j);
    } else {
      var j :| 0 <= j < |l.steps| && l.steps[j].status == InProgress;
      i := FirstRunning(l.steps, j);
    }
  }

  lemma {:induction false} PickedStays(s: seq<PlanStep>, i: nat)
    requires Sound(s) && Picks(s, i)
    ensures Picks(Picked(s, i), i) && Picked(Picked(s, i), i) == Picked(s, i) && Sound(Picked(s, i))
    ensures !IsComplete(Picked(s, i))
  {
    PickingWorks(s, i);
    assert Picked(s, i)[i].status == InProgress;
  }

  lemma {:induction false} CancelledForever(maxTurns: nat, l: Loop)
    requires Sound(l.steps) && RunsTurn(maxTurns, l)
    ensures EndlessOnceCancelled(maxTurns, l)
  {
    var i := SomePick(maxTurns, l);
    var s := Picked(l.steps, i);
    var still := Loop(s, l.turnsUsed);
    PickedStays(l.steps, i);
    SilentIteration(maxTurns, l, i);
    SilentIteration(maxTurns, still, i);
    ConstantIsEndless(maxTurns, l, still, i, Turn(s, QUIET));
  }

  lemma {:induction false} ConstantIsEndless(maxTurns: nat, l: Loop, still: Loop, i: nat, turn: Turn)
    requires Iterates(maxTurns, l, i, turn, still) && Iterates(maxTurns, still, i, turn, still)
    requires Silent(Picked(l.steps, i), turn) && Silent(Picked(still.steps, i), turn)
    ensures EndlessOnceCancelled(maxTurns, l)
  {
    var e: nat -> Loop := n => if n == 0 then l else still;
    var picks: nat -> nat := n => i;
    var turns: nat -> Turn := n => turn;
    forall n: nat
      ensures IteratesAt(maxTurns, e, picks, turns, n)
    {
    }
    assert Endless(maxTurns, e, picks, turns) && AllSilent(e, picks, turns) && e(0) == l;
  }

  lemma {:induction false} SilentIteration(maxTurns: nat, l: Loop, i: nat)
    requires Sound(l.steps) && !IsComplete(l.steps) && l.turnsUsed < maxTurns && Picks(l.steps, i)
    requires !IsComplete(Picked(l.steps, i))
    ensures Iterates(maxTurns, l, i, Turn(Picked(l.steps, i), QUIET), Loop(Picked(l.steps, i), l.turnsUsed))
  {
    var s := Picked(l.steps, i);
    assert FallbackMoves(s, s);
    IdleReport(maxTurns, l.turnsUsed, i, Turn(s, QUIET));
  }
}
