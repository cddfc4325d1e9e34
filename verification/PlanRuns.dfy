/** The state changes a plan goes through while it is executed, as a transition system, and what holds
    over every run of it. */
module PlanRuns {
  import opened Planning

  // ----- The transition system -----

  datatype Move = Start | Finish | Fail | Retry

  predicate NoneRunning(s: seq<PlanStep>) {
    forall j :: 0 <= j < |s| ==> s[j].status != InProgress
  }

  function WithStatus(s: seq<PlanStep>, i: nat, status: Status): seq<PlanStep>
    requires i < |s|
  {
    s[i := s[i].(status := status, attempts := if status == InProgress then s[i].attempts + 1 else s[i].attempts)]
  }

  /** The state changes a run can make. A running step may finish or fail; the local fallback may also
      finish the step that is next, without having started it. */
  ghost predicate Moves(s: seq<PlanStep>, i: nat, m: Move, s': seq<PlanStep>) {
    && i < |s|
    && match m
       case Start => NoneRunning(s) && IsNext(s, i) && s' == WithStatus(s, i, InProgress)
       case Finish => (s[i].status == InProgress || IsNext(s, i)) && s' == WithStatus(s, i, Completed)
       case Fail => s[i].status == InProgress && s' == WithStatus(s, i, Failed)
       case Retry => s[i].status == Failed && s[i].attempts <= s[i].retryLimit && s' == WithStatus(s, i, Pending)
  }

  ghost predicate Step(s: seq<PlanStep>, s': seq<PlanStep>) {
    exists i: nat, m :: Moves(s, i, m, s')
  }

  /** Every plan state of a run, oldest first. */
  ghost predicate IsRun(trace: seq<seq<PlanStep>>) {
    && trace != []
    && forall k :: 0 <= k < |trace| - 1 ==> Step(trace[k], trace[k + 1])
  }

  /** A step that is running or completed has only finished dependencies. */
  ghost predicate RespectsDependencies(s: seq<PlanStep>)
    requires WellIndexed(s)
  {
    forall i, d :: 0 <= i < |s| && s[i].status in {InProgress, Completed} && d in s[i].dependsOn
      ==> Done(s[d].status)
  }

  ghost predicate AtMostOneRunning(s: seq<PlanStep>) {
    forall i, j :: 0 <= i < |s| && 0 <= j < |s| && s[i].status == InProgress && s[j].status == InProgress ==> i == j
  }

  ghost predicate Sound(s: seq<PlanStep>) {
    && WellIndexed(s)
    && RespectsDependencies(s)
    && AtMostOneRunning(s)
  }

  /** Two states of one plan: same steps, with at most status and attempts changed. */
  ghost predicate SamePlan(s: seq<PlanStep>, s': seq<PlanStep>) {
    && |s| == |s'|
    && forall i :: 0 <= i < |s| ==> s'[i] == s[i].(status := s'[i].status, attempts := s'[i].attempts)
  }

  lemma {:induction false} FreshIsSound(s: seq<PlanStep>)
    requires WellIndexed(s) && Fresh(s)
    ensures Sound(s)
  {
  }

  lemma {:induction false} StepKeepsSound(s: seq<PlanStep>, s': seq<PlanStep>)
    requires Sound(s) && Step(s, s')
    ensures Sound(s') && SamePlan(s, s')
    ensures forall i :: 0 <= i < |s| && s[i].status == Completed ==> s'[i] == s[i]
    ensures forall i :: 0 <= i < |s| && s[i].status == Skipped ==> s'[i] == s[i]
  {
    var i: nat, m :| Moves(s, i, m, s');
    if IsNext(s, i) {
      ReadyByPosition(s, i);
    }
  }

  /** Safety over every run: each reachable state is sound, and finished steps never change again. */
  lemma {:induction false} RunKeepsSound(trace: seq<seq<PlanStep>>, j: nat, k: nat)
    requires IsRun(trace) && Sound(trace[0]) && j <= k < |trace|
    ensures Sound(trace[j]) && Sound(trace[k]) && SamePlan(trace[j], trace[k])
    ensures forall i :: 0 <= i < |trace[j]| && trace[j][i].status == Completed ==> trace[k][i] == trace[j][i]
    ensures forall i :: 0 <= i < |trace[j]| && trace[j][i].status == Skipped ==> trace[k][i] == trace[j][i]
    decreases k
  {
    if k > 0 {
      if j < k {
        RunKeepsSound(trace, j, k - 1);
      } else {
        RunKeepsSound(trace, 0, k - 1);
      }
      StepKeepsSound(trace[k - 1], trace[k]);
    }
  }

  // ----- Order of completion -----

  /** The steps below `n` that are completed in `s'` but not in `s`. */
  ghost function NewlyCompleted(s: seq<PlanStep>, s': seq<PlanStep>, n: nat): (r: seq<nat>)
    requires n <= |s| && n <= |s'|
    ensures forall i: nat :: i in r <==> i < n && s[i].status != Completed && s'[i].status == Completed
  {
    if n == 0 then []
    else
      var newest := if s[n - 1].status != Completed && s'[n - 1].status == Completed then [n - 1] else [];
      NewlyCompleted(s, s', n - 1) + newest
  }

  lemma {:induction false} OnlyFinishCompletes(s: seq<PlanStep>, s': seq<PlanStep>, i: nat, m: Move, j: nat)
    requires Moves(s, i, m, s') && j < |s|
    ensures |s'| == |s|
    ensures s[j].status != Completed && s'[j].status == Completed ==> j == i && m == Finish
  {
  }

  lemma {:induction false} OneCompletionAStep(s: seq<PlanStep>, s': seq<PlanStep>, i: nat, m: Move, n: nat)
    requires Moves(s, i, m, s') && n <= |s| == |s'|
    ensures |NewlyCompleted(s, s', n)| <= 1
    ensures forall j :: j in NewlyCompleted(s, s', n) ==> j == i && m == Finish
    ensures i >= n ==> NewlyCompleted(s, s', n) == []
    decreases n
  {
    if n > 0 {
      OneCompletionAStep(s, s', i, m, n - 1);
      OnlyFinishCompletes(s, s', i, m, n - 1);
    }
  }

  /** The steps a run completes, in the order it completes them. */
  ghost function Completions(trace: seq<seq<PlanStep>>): seq<nat> {
    if |trace| < 2 then []
    else
      var s, s' := trace[|trace| - 2], trace[|trace| - 1];
      Completions(trace[..|trace| - 1]) + NewlyCompleted(s, s', if |s| <= |s'| then |s| else |s'|)
  }

  ghost predicate LinearExtension(start: seq<PlanStep>, order: seq<nat>)
    requires WellIndexed(start)
  {
    && (forall k :: 0 <= k < |order| ==> order[k] < |start|)
    && (forall j, k :: 0 <= j < k < |order| ==> order[j] != order[k])
    && forall k, d :: 0 <= k < |order| && d in start[order[k]].dependsOn
         ==> Done(start[d].status) || d in order[..k]
  }

  /** `order` is what has been completed between `start` and `s`, in dependency order. */
  ghost predicate CompletedInOrder(start: seq<PlanStep>, order: seq<nat>, s: seq<PlanStep>)
    requires WellIndexed(start)
  {
    && SamePlan(start, s)
    && LinearExtension(start, order)
    && (forall i: nat :: i < |start| ==> (s[i].status == Completed <==> start[i].status == Completed || i in order))
    && (forall i: nat :: i < |start| ==> (s[i].status == Skipped <==> start[i].status == Skipped))
    && (forall i :: i in order ==> start[i].status != Completed)
  }

  /** Every run completes steps in an order that extends `depends_on`; its last state is completed
      exactly where the first one was or where the run completed a step. */
  lemma {:induction false} CompletionsExtendDependencies(trace: seq<seq<PlanStep>>)
    requires IsRun(trace) && Sound(trace[0])
    ensures CompletedInOrder(trace[0], Completions(trace), trace[|trace| - 1])
    decreases |trace|
  {
    var n := |trace|;
    if n > 1 {
      var before := trace[..n - 1];
      assert before[0] == trace[0] && before[n - 2] == trace[n - 2];
      CompletionsExtendDependencies(before);
      RunKeepsSound(trace, 0, n - 2);
      StepExtendsOrder(trace[0], Completions(before), trace[n - 2], trace[n - 1]);
    }
  }

  lemma {:induction false} StepExtendsOrder(start: seq<PlanStep>, order: seq<nat>, s: seq<PlanStep>, s': seq<PlanStep>)
    requires WellIndexed(start) && CompletedInOrder(start, order, s)
    requires Sound(s) && Step(s, s')
    ensures |s| == |s'|
    ensures CompletedInOrder(start, order + NewlyCompleted(s, s', |s|), s')
  {
    var i: nat, m :| Moves(s, i, m, s');
    OneCompletionAStep(s, s', i, m, |s|);
    StepKeepsSound(s, s');
    var last := NewlyCompleted(s, s', |s|);
    if last == [] {
      assert order + last == order;
      assert forall j: nat :: j < |s| ==> (s[j].status == Completed <==> s'[j].status == Completed);
    } else {
      assert last == [i] by { assert last[0] in last; }
      assert i in last;
      CompletionFollowsDependencies(start, order, s, s', i);
      AppendToOrder(start, order, i);
    }
  }

  lemma {:induction false} CompletionFollowsDependencies(
      start: seq<PlanStep>, order: seq<nat>, s: seq<PlanStep>, s': seq<PlanStep>, i: nat)
    requires WellIndexed(start) && CompletedInOrder(start, order, s)
    requires Sound(s') && i < |s| && s' == WithStatus(s, i, Completed)
    ensures forall d :: d in start[i].dependsOn ==> Done(start[d].status) || d in order
  {
    forall d | d in start[i].dependsOn
      ensures Done(start[d].status) || d in order
    {
      assert d in s'[i].dependsOn;
      assert Done(s'[d].status) && d < i;
      assert s'[d] == s[d];
    }
  }

  lemma {:induction false} AppendToOrder(start: seq<PlanStep>, order: seq<nat>, i: nat)
    requires WellIndexed(start) && LinearExtension(start, order) && i < |start| && i !in order
    requires forall d :: d in start[i].dependsOn ==> Done(start[d].status) || d in order
    ensures LinearExtension(start, order + [i])
  {
    var longer := order + [i];
    forall k, d | 0 <= k < |longer| && d in start[longer[k]].dependsOn
      ensures Done(start[d].status) || d in longer[..k]
    {
      if k < |order| {
        assert longer[..k] == order[..k] && longer[k] == order[k];
      } else {
        assert longer[..k] == order;
      }
    }
  }

  // ----- Number of starts -----

  /** How often a run starts step `i`. */
  ghost function Starts(trace: seq<seq<PlanStep>>, i: nat): nat {
    if |trace| < 2 then 0
    else
      var s, s' := trace[|trace| - 2], trace[|trace| - 1];
      Starts(trace[..|trace| - 1], i)
        + if i < |s| && i < |s'| && s[i].status != InProgress && s'[i].status == InProgress then 1 else 0
  }

  lemma {:induction false} StartIsCounted(s: seq<PlanStep>, s': seq<PlanStep>, i: nat)
    requires Step(s, s') && i < |s|
    ensures |s'| == |s|
    ensures s'[i].attempts == s[i].attempts
      + if s[i].status != InProgress && s'[i].status == InProgress then 1 else 0
  {
    var j: nat, m :| Moves(s, j, m, s');
  }

  /** How often a run may start a step: once, and as long as the retry limit has not been exceeded. */
  function StartLimit(step: PlanStep): nat {
    if step.attempts < step.retryLimit then step.retryLimit + 1 - step.attempts else 1
  }

  /** What a run started with `first` has made of the step's attempts. */
  ghost predicate WithinStartLimit(first: PlanStep, now: PlanStep) {
    && now.attempts <= first.attempts + StartLimit(first)
    && (now.status == Pending ==> now.attempts == first.attempts || now.attempts <= now.retryLimit)
  }

  lemma {:induction false} StepKeepsStartLimit(first: PlanStep, s: seq<PlanStep>, s': seq<PlanStep>, i: nat)
    requires Step(s, s') && i < |s| && |s'| == |s|
    requires s[i].retryLimit == first.retryLimit && WithinStartLimit(first, s[i])
    ensures WithinStartLimit(first, s'[i])
  {
    var j: nat, m :| Moves(s, j, m, s');
  }

  /** `attempts` counts starts, and no run starts a step more often than `StartLimit` allows: once if its
      retries are used up, which an earlier run may have done, and otherwise until they are. */
  lemma {:induction false} StartsAreBounded(trace: seq<seq<PlanStep>>, i: nat)
    requires IsRun(trace) && Sound(trace[0]) && i < |trace[0]|
    ensures |trace[|trace| - 1]| == |trace[0]|
    ensures trace[|trace| - 1][i].attempts == trace[0][i].attempts + Starts(trace, i)
    ensures WithinStartLimit(trace[0][i], trace[|trace| - 1][i])
    ensures Starts(trace, i) <= StartLimit(trace[0][i])
    decreases |trace|
  {
    var n := |trace|;
    RunKeepsSound(trace, 0, n - 1);
    if n > 1 {
      var before := trace[..n - 1];
      assert before[0] == trace[0] && before[n - 2] == trace[n - 2];
      StartsAreBounded(before, i);
      RunKeepsSound(trace, 0, n - 2);
      StartIsCounted(trace[n - 2], trace[n - 1], i);
      StepKeepsStartLimit(trace[0][i], trace[n - 2], trace[n - 1], i);
    }
  }

  lemma {:induction false} ExtendRun(trace: seq<seq<PlanStep>>, i: nat, m: Move, s': seq<PlanStep>)
    requires IsRun(trace) && Moves(trace[|trace| - 1], i, m, s')
    ensures IsRun(trace + [s'])
  {
    assert Step(trace[|trace| - 1], s');
    var longer := trace + [s'];
    forall k | 0 <= k < |longer| - 1
      ensures Step(longer[k], longer[k + 1])
    {
      if k < |trace| - 1 {
        assert longer[k] == trace[k] && longer[k + 1] == trace[k + 1];
      }
    }
  }

  lemma {:induction false} StartsOfExtended(trace: seq<seq<PlanStep>>, s': seq<PlanStep>, i: nat)
    requires trace != [] && i < |trace[|trace| - 1]| && i < |s'|
    ensures Starts(trace + [s'], i) == Starts(trace, i)
      + if trace[|trace| - 1][i].status != InProgress && s'[i].status == InProgress then 1 else 0
  {
    assert (trace + [s'])[..|trace|] == trace;
  }

  /** A run from `s` that has done nothing but start step `i` so many times, and has left it in this status. */
  ghost predicate Leaves(trace: seq<seq<PlanStep>>, s: seq<PlanStep>, i: nat, status: Status, starts: nat) {
    && i < |s|
    && IsRun(trace) && trace[0] == s
    && trace[|trace| - 1] == s[i := s[i].(status := status, attempts := s[i].attempts + starts)]
    && Starts(trace, i) == starts
  }

  lemma {:induction false} LeavesAfter(
      trace: seq<seq<PlanStep>>, s: seq<PlanStep>, i: nat, status: Status, starts: nat, m: Move, next: Status)
    requires Leaves(trace, s, i, status, starts)
    requires Moves(trace[|trace| - 1], i, m, WithStatus(trace[|trace| - 1], i, next))
    requires status != InProgress
    ensures Leaves(trace + [WithStatus(trace[|trace| - 1], i, next)], s, i, next,
                   if next == InProgress then starts + 1 else starts)
  {
    var last := trace[|trace| - 1];
    ExtendRun(trace, i, m, WithStatus(last, i, next));
    StartsOfExtended(trace, WithStatus(last, i, next), i);
  }

  lemma {:induction false} LeavesFailed(trace: seq<seq<PlanStep>>, s: seq<PlanStep>, i: nat, starts: nat)
    requires Leaves(trace, s, i, InProgress, starts)
    ensures Leaves(trace + [WithStatus(trace[|trace| - 1], i, Failed)], s, i, Failed, starts)
  {
    var last := trace[|trace| - 1];
    ExtendRun(trace, i, Fail, WithStatus(last, i, Failed));
    StartsOfExtended(trace, WithStatus(last, i, Failed), i);
  }

  lemma {:induction false} FailAndRestart(trace: seq<seq<PlanStep>>, s: seq<PlanStep>, i: nat, starts: nat)
    returns (longer: seq<seq<PlanStep>>)
    requires Leaves(trace, s, i, InProgress, starts) && NoneRunning(s) && IsNext(s, i)
    requires s[i].attempts + starts <= s[i].retryLimit
    ensures Leaves(longer, s, i, InProgress, starts + 1)
  {
    LeavesFailed(trace, s, i, starts);
    longer := trace + [WithStatus(trace[|trace| - 1], i, Failed)];
    LeavesAfter(longer, s, i, Failed, starts, Retry, Pending);
    longer := longer + [WithStatus(longer[|longer| - 1], i, Pending)];
    SameReadiness(s, longer[|longer| - 1], i);
    LeavesAfter(longer, s, i, Pending, starts, Start, InProgress);
    longer := longer + [WithStatus(longer[|longer| - 1], i, InProgress)];
  }

  lemma {:induction false} SameStatuses(s: seq<PlanStep>, t: seq<PlanStep>)
    requires SamePlan(s, t) && forall j :: 0 <= j < |s| ==> t[j].status == s[j].status
    ensures Statuses(s) == Statuses(t)
    decreases |s|
  {
    if s != [] {
      SameStatuses(s[..|s| - 1], t[..|t| - 1]);
    }
  }

  lemma {:induction false} SameReadiness(s: seq<PlanStep>, t: seq<PlanStep>, i: nat)
    requires SamePlan(s, t) && forall j :: 0 <= j < |s| ==> t[j].status == s[j].status
    requires IsNext(s, i) && NoneRunning(s)
    ensures IsNext(t, i) && NoneRunning(t)
  {
    SameStatuses(s, t);
    forall j | 0 <= j < |s|
      ensures Ready(t, j) <==> Ready(s, j)
    {
    }
  }

  /** The limit is exact: from every state in which a step is next, some run starts it as often. */
  lemma {:induction false} StartLimitIsReached(s: seq<PlanStep>, i: nat) returns (trace: seq<seq<PlanStep>>)
    requires NoneRunning(s) && IsNext(s, i)
    ensures Leaves(trace, s, i, InProgress, StartLimit(s[i]))
  {
    trace := [s];
    assert s[i := s[i].(status := Pending, attempts := s[i].attempts)] == s;
    LeavesAfter(trace, s, i, Pending, 0, Start, InProgress);
    trace := trace + [WithStatus(s, i, InProgress)];
    var starts := 1;
    while starts < StartLimit(s[i])
      invariant 1 <= starts <= StartLimit(s[i])
      invariant Leaves(trace, s, i, InProgress, starts)
    {
      trace := FailAndRestart(trace, s, i, starts);
      starts := starts + 1;
    }
  }

  // ----- Resuming -----

  /** A resumed plan: steps that were running or had failed become pending and keep their attempts. */
  function Resumed(s: seq<PlanStep>): (t: seq<PlanStep>)
    ensures |t| == |s|
  {
    seq(|s|, k requires 0 <= k < |s| =>
      if s[k].status == InProgress || s[k].status == Failed then s[k].(status := Pending) else s[k])
  }

  /** Resuming keeps the run invariant and every completed step, and leaves no step running or failed. */
  lemma {:induction false} ResumedIsSound(s: seq<PlanStep>)
    requires Sound(s)
    ensures Sound(Resumed(s)) && NoneRunning(Resumed(s)) && SamePlan(s, Resumed(s))
    ensures forall i :: 0 <= i < |s| ==> Resumed(s)[i].status != Failed && Resumed(s)[i].attempts == s[i].attempts
    ensures forall i :: 0 <= i < |s| && Done(s[i].status) ==> Resumed(s)[i] == s[i]
  {
    var t := Resumed(s);
    forall i, d | 0 <= i < |t| && t[i].status in {InProgress, Completed} && d in t[i].dependsOn
      ensures Done(t[d].status)
    {
      assert d in s[i].dependsOn && Done(s[d].status);
    }
  }

  /** Over the life of a plan each resumption allows at most one start beyond the retry limit. */
  ghost predicate WithinLifeLimit(s: seq<PlanStep>, resumptions: nat) {
    forall i :: 0 <= i < |s| ==> s[i].attempts <= s[i].retryLimit + 1 + resumptions
  }

  lemma {:induction false} LifeLimitHolds(trace: seq<seq<PlanStep>>, resumptions: nat)
    requires IsRun(trace) && Sound(trace[0])
    requires resumptions == 0 ==> Fresh(trace[0])
    requires resumptions > 0 ==> WithinLifeLimit(trace[0], resumptions - 1)
    ensures WithinLifeLimit(trace[|trace| - 1], resumptions)
  {
    var last := trace[|trace| - 1];
    RunKeepsSound(trace, 0, |trace| - 1);
    forall i | 0 <= i < |last|
      ensures last[i].attempts <= last[i].retryLimit + 1 + resumptions
    {
      StartsAreBounded(trace, i);
    }
  }
}
