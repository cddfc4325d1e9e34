/** The local-fallback path inside a hosted turn completes the plan's next step. When can that be another step
    than the running one? */
module SideSteps {
  import opened Planning
  import opened PlanRuns

  /** Step `j` could be next although step `i` is running. */
  ghost predicate Beside(s: seq<PlanStep>, i: nat, j: nat) {
    i < |s| && j < |s| && s[i].status == InProgress && Ready(s, j)
  }

  ghost predicate NoneBeside(s: seq<PlanStep>) {
    forall i: nat, j: nat :: !Beside(s, i, j)
  }

  /** In no state that the plan can reach is a step ready beside the running one. */
  ghost predicate HasNoSideStep(plan: seq<PlanStep>) {
    forall trace :: IsRun(trace) && trace[0] == plan ==> NoneBeside(trace[|trace| - 1])
  }

  // ----- Ordered plans have none -----

  lemma {:induction false} SameWaits(plan: seq<PlanStep>, s: seq<PlanStep>, b: nat, a: nat)
    requires SamePlan(plan, s) && WellIndexed(plan) && WellIndexed(s) && b < |s|
    ensures WaitsFor(s, b, a) <==> WaitsFor(plan, b, a)
    decreases b
  {
    assert s[b].dependsOn == plan[b].dependsOn;
    forall d | d in plan[b].dependsOn
      ensures WaitsFor(s, d, a) <==> WaitsFor(plan, d, a)
    {
      SameWaits(plan, s, d, a);
    }
  }

  /** What a step waits for is completed once its own dependencies are. */
  lemma {:induction false} AncestorsAreCompleted(s: seq<PlanStep>, b: nat, a: nat)
    requires Sound(s) && b < |s| && WaitsFor(s, b, a)
    requires forall i :: 0 <= i < |s| ==> s[i].status != Skipped
    requires forall d :: d in s[b].dependsOn ==> Done(s[d].status)
    ensures a < |s| && s[a].status == Completed
    decreases b
  {
    var d :| d in s[b].dependsOn && (d == a || WaitsFor(s, d, a));
    if d != a {
      assert s[d].status == Completed;
      AncestorsAreCompleted(s, d, a);
    }
  }

  lemma {:induction false} NothingBeside(plan: seq<PlanStep>, s: seq<PlanStep>, i: nat, j: nat)
    requires WellIndexed(plan) && Ordered(plan) && SamePlan(plan, s) && Sound(s)
    requires forall k :: 0 <= k < |s| ==> s[k].status != Skipped
    ensures !Beside(s, i, j)
  {
    if Beside(s, i, j) {
      ReadyByPosition(s, j);
      if i < j {
        assert WaitsFor(plan, j, i);
        SameWaits(plan, s, j, i);
        AncestorsAreCompleted(s, j, i);
      } else if j < i {
        assert WaitsFor(plan, i, j);
        SameWaits(plan, s, i, j);
        AncestorsAreCompleted(s, i, j);
      }
    }
  }

  // ----- Other plans have one -----

  /** The plan with its first `k` steps completed, each at the first attempt. */
  function Progress(plan: seq<PlanStep>, k: nat): (s: seq<PlanStep>)
    requires k <= |plan|
    ensures SamePlan(plan, s)
  {
    seq(|plan|, i requires 0 <= i < |plan| =>
      if i < k then plan[i].(status := Completed, attempts := 1) else plan[i])
  }

  lemma {:induction false} ProgressIsNext(plan: seq<PlanStep>, k: nat)
    requires WellIndexed(plan) && Fresh(plan) && k < |plan|
    ensures NoneRunning(Progress(plan, k)) && IsNext(Progress(plan, k), k)
  {
    var s := Progress(plan, k);
    assert WellIndexed(s);
    ReadyByPosition(s, k);
  }

  /** Each step can be completed in turn. */
  lemma {:induction false} RunToProgress(plan: seq<PlanStep>, k: nat) returns (trace: seq<seq<PlanStep>>)
    requires WellIndexed(plan) && Fresh(plan) && k <= |plan|
    ensures IsRun(trace) && trace[0] == plan && trace[|trace| - 1] == Progress(plan, k)
    decreases k
  {
    if k == 0 {
      trace := [plan];
      assert Progress(plan, 0) == plan;
    } else {
      trace := RunToProgress(plan, k - 1);
      ProgressIsNext(plan, k - 1);
      var running := WithStatus(Progress(plan, k - 1), k - 1, InProgress);
      ExtendRun(trace, k - 1, Start, running);
      trace := trace + [running];
      var completed := WithStatus(running, k - 1, Completed);
      ExtendRun(trace, k - 1, Finish, completed);
      trace := trace + [completed];
      assert completed == Progress(plan, k);
    }
  }

  /** Among the steps after `a` that do not wait for it, one depends on nothing from `a` on. */
  lemma {:induction false} FirstIndependent(plan: seq<PlanStep>, a: nat, b: nat) returns (j: nat)
    requires WellIndexed(plan) && a < b < |plan| && !WaitsFor(plan, b, a)
    ensures a < j <= b && !WaitsFor(plan, j, a)
    ensures forall d :: d in plan[j].dependsOn ==> d < a
    decreases b
  {
    if d :| d in plan[b].dependsOn && d >= a {
      j := FirstIndependent(plan, a, d);
    } else {
      j := b;
    }
  }

  /** Two steps neither of which waits for the other: the plan reaches a state with the earlier one running
      and a later one ready that was never started. */
  lemma {:induction false} ReachesSideStep(plan: seq<PlanStep>, a: nat, b: nat)
    returns (trace: seq<seq<PlanStep>>, j: nat)
    requires WellIndexed(plan) && Fresh(plan) && a < b < |plan| && !WaitsFor(plan, b, a)
    ensures IsRun(trace) && trace[0] == plan
    ensures a < j <= b && trace[|trace| - 1] == WithStatus(Progress(plan, a), a, InProgress)
    ensures Beside(trace[|trace| - 1], a, j) && trace[|trace| - 1][j].attempts == 0
  {
    trace := RunToProgress(plan, a);
    ProgressIsNext(plan, a);
    var s := WithStatus(Progress(plan, a), a, InProgress);
    ExtendRun(trace, a, Start, s);
    trace := trace + [s];
    j := FirstIndependent(plan, a, b);
    assert WellIndexed(s);
    ReadyByPosition(s, j);
  }

  // ----- The exact condition -----

  /** A fresh plan never has a ready step beside the running one exactly if its steps are ordered, that is, if
      every step depends on the one before it. */
  lemma {:induction false} HasNoSideStepIff(plan: seq<PlanStep>)
    requires WellIndexed(plan) && Fresh(plan)
    ensures HasNoSideStep(plan) <==> Ordered(plan)
    ensures HasNoSideStep(plan) <==> forall i :: 0 < i < |plan| ==> i - 1 in plan[i].dependsOn
  {
    OrderedIff(plan);
    if Ordered(plan) {
      forall trace | IsRun(trace) && trace[0] == plan
        ensures NoneBeside(trace[|trace| - 1])
      {
        FreshIsSound(plan);
        CompletionsExtendDependencies(trace);
        RunKeepsSound(trace, 0, |trace| - 1);
        var s := trace[|trace| - 1];
        forall i: nat, j: nat
          ensures !Beside(s, i, j)
        {
          NothingBeside(plan, s, i, j);
        }
      }
    } else {
      var a, b :| 0 <= a < b < |plan| && !WaitsFor(plan, b, a);
      var trace, j := ReachesSideStep(plan, a, b);
      assert !NoneBeside(trace[|trace| - 1]);
    }
  }

  /** So in every other plan the fallback can complete a step that was never started, while another runs. */
  lemma {:induction false} FallbackCompletesUnstartedStep(plan: seq<PlanStep>)
    returns (trace: seq<seq<PlanStep>>, i: nat, j: nat)
    requires WellIndexed(plan) && Fresh(plan) && !Ordered(plan)
    ensures IsRun(trace) && trace[0] == plan && i < |plan| && j < |plan|
    ensures var s := trace[|trace| - 1];
      |s| == |plan| && s[i].status == InProgress && s[j].status == Completed && s[j].attempts == 0
  {
    var a, b :| 0 <= a < b < |plan| && !WaitsFor(plan, b, a);
    trace, j := ReachesSideStep(plan, a, b);
    i := a;
    var s := trace[|trace| - 1];
    var next := FirstReady(s, j);
    assert s[next].attempts == 0;
    ExtendRun(trace, next, Finish, WithStatus(s, next, Completed));
    trace := trace + [WithStatus(s, next, Completed)];
    j := next;
  }

  /** A chained plan is ordered. */
  lemma {:induction false} ChainHasNoSideStep(plan: seq<PlanStep>)
    requires Chain(plan) && WellIndexed(plan) && Fresh(plan)
    ensures HasNoSideStep(plan)
  {
    HasNoSideStepIff(plan);
  }

  /** A massive plan with two subsystems that need no other is not: the second one's step depends on the
      architecture step only, and can be completed unstarted while another step runs. */
  lemma {:induction false} IndependentSubsystemsHaveSideStep(x: string, y: string, plan: seq<PlanStep>)
    returns (trace: seq<seq<PlanStep>>, i: nat, j: nat)
    requires var contracts := [Contract(x, []), Contract(y, [])]; IsMassivePlan(contracts, plan)
    requires WellIndexed(plan) && Fresh(plan)
    ensures !HasNoSideStep(plan)
    ensures IsRun(trace) && trace[0] == plan && i < |plan| && j < |plan|
    ensures var s := trace[|trace| - 1];
      |s| == |plan| && s[i].status == InProgress && s[j].status == Completed && s[j].attempts == 0
  {
    var contracts := [Contract(x, []), Contract(y, [])];
    assert plan[3].dependsOn == OrArchitecture(ResolveNames(contracts, 1, contracts[1].dependencies)) == [1];
    assert 2 !in plan[3].dependsOn;
    OrderedIff(plan);
    HasNoSideStepIff(plan);
    trace, i, j := FallbackCompletesUnstartedStep(plan);
  }
}
