/** Execution plans: the dependency graph of steps, how it is generated, and which step is next. */
module Planning {
  import opened Wrappers

  datatype Status = Pending | InProgress | Completed | Failed | Skipped | Blocked

  datatype PlanStep = PlanStep(
    id: nat,
    dependsOn: seq<nat>,
    tools: seq<string>,
    subsystem: string,
    retryLimit: nat,
    attempts: nat,
    maxToolCalls: nat,
    status: Status
  )

  const DEFAULT_RETRY_LIMIT: nat := 2
  const DEFAULT_MAX_TOOL_CALLS: nat := 10

  /** A step as the generators create it: never started. */
  function NewStep(id: nat, dependsOn: seq<nat>, tools: seq<string>, subsystem: string): PlanStep {
    PlanStep(id, dependsOn, tools, subsystem, DEFAULT_RETRY_LIMIT, 0, DEFAULT_MAX_TOOL_CALLS, Pending)
  }

  predicate Done(s: Status) {
    s == Completed || s == Skipped
  }

  predicate IsComplete(steps: seq<PlanStep>) {
    forall i :: 0 <= i < |steps| ==> Done(steps[i].status)
  }

  /** The id-to-status dictionary of a plan; a repeated id keeps the last status. */
  function Statuses(steps: seq<PlanStep>): map<nat, Status> {
    if steps == [] then map[]
    else
      var last := steps[|steps| - 1];
      Statuses(steps[..|steps| - 1])[last.id := last.status]
  }

  predicate DepsMet(steps: seq<PlanStep>, step: PlanStep) {
    forall d :: d in step.dependsOn ==> d in Statuses(steps) && Done(Statuses(steps)[d])
  }

  predicate Ready(steps: seq<PlanStep>, i: nat)
    requires i < |steps|
  {
    steps[i].status == Pending && DepsMet(steps, steps[i])
  }

  /** `i` is the step that `next_step` selects. */
  predicate IsNext(steps: seq<PlanStep>, i: nat) {
    && i < |steps|
    && Ready(steps, i)
    && forall j :: 0 <= j < i ==> !Ready(steps, j)
  }

  /** Ids are positions, and every dependency points strictly backwards. */
  predicate WellIndexed(steps: seq<PlanStep>) {
    && (forall i :: 0 <= i < |steps| ==> steps[i].id == i)
    && (forall i, d :: 0 <= i < |steps| && d in steps[i].dependsOn ==> d < i)
  }

  /** Never started, with the default number of retries. */
  predicate Fresh(steps: seq<PlanStep>) {
    forall i :: 0 <= i < |steps| ==>
      steps[i].status == Pending && steps[i].attempts == 0 && steps[i].retryLimit == DEFAULT_RETRY_LIMIT
  }

  lemma {:induction false} StatusesByPosition(steps: seq<PlanStep>)
    requires forall i :: 0 <= i < |steps| ==> steps[i].id == i
    ensures forall d: nat :: d in Statuses(steps) <==> d < |steps|
    ensures forall d: nat :: d < |steps| ==> Statuses(steps)[d] == steps[d].status
  {
    if steps != [] {
      StatusesByPosition(steps[..|steps| - 1]);
    }
  }

  /** In a well indexed plan a step is ready exactly when it is pending and its dependencies are done. */
  lemma {:induction false} ReadyByPosition(steps: seq<PlanStep>, i: nat)
    requires WellIndexed(steps) && i < |steps|
    ensures DepsMet(steps, steps[i]) <==> forall d :: d in steps[i].dependsOn ==> Done(steps[d].status)
  {
    StatusesByPosition(steps);
  }

  /** `next_step`: the first pending step whose dependencies are done. */
  method NextStep(steps: seq<PlanStep>) returns (next: Option<nat>)
    ensures next.Some? ==> IsNext(steps, next.value)
    ensures next.None? ==> forall j :: 0 <= j < |steps| ==> !Ready(steps, j)
  {
    var statuses := Statuses(steps);
    var i := 0;
    while i < |steps|
      invariant 0 <= i <= |steps|
      invariant forall j :: 0 <= j < i ==> !Ready(steps, j)
    {
      if steps[i].status == Pending {
        var depsMet := forall d | d in steps[i].dependsOn :: d in statuses && Done(statuses[d]);
        if depsMet {
          return Some(i);
        }
      }
      i := i + 1;
    }
    return None;
  }

  /** The least index from `i` on whose step is not done. */
  lemma {:induction false} FirstUnfinished(steps: seq<PlanStep>, i: nat) returns (k: nat)
    requires i <= |steps|
    requires forall j :: 0 <= j < i ==> Done(steps[j].status)
    requires !IsComplete(steps)
    ensures k < |steps| && !Done(steps[k].status)
    ensures forall j :: 0 <= j < k ==> Done(steps[j].status)
    decreases |steps| - i
  {
    if Done(steps[i].status) {
      k := FirstUnfinished(steps, i + 1);
    } else {
      k := i;
    }
  }

  /** Some step is ready exactly if there is a next one. */
  lemma {:induction false} FirstReady(s: seq<PlanStep>, j: nat) returns (i: nat)
    requires j < |s| && Ready(s, j)
    ensures IsNext(s, i)
    decreases j
  {
    if k :| 0 <= k < j && Ready(s, k) {
      i := FirstReady(s, k);
    } else {
      i := j;
    }
  }

  /** A generated plan never wedges: while it is incomplete and nothing failed, is blocked or is
      running, some step is ready. */
  lemma {:induction false} NextStepExists(steps: seq<PlanStep>)
    requires WellIndexed(steps) && !IsComplete(steps)
    requires forall i :: 0 <= i < |steps| ==> steps[i].status !in {Failed, Blocked, InProgress}
    ensures exists i :: 0 <= i < |steps| && Ready(steps, i)
  {
    var k := FirstUnfinished(steps, 0);
    ReadyByPosition(steps, k);
    assert Ready(steps, k);
  }

  // ----- Generation -----

  /** A template item is a title-less step: only its tools matter for the graph. */
  type Template = seq<seq<string>>

  /** `_generate_steps`: publication items are dropped, a simple plan keeps the listed indices that
      exist, and the rest is chained. */
  function Kept(template: Template): Template {
    if template == [] then []
    else
      var n := |template| - 1;
      Kept(template[..n]) + if "git_commit" in template[n] then [] else [template[n]]
  }

  function Selected(template: Template, indices: seq<nat>): Template {
    if indices == [] then []
    else
      var n := |indices| - 1;
      Selected(template, indices[..n]) + if indices[n] < |template| then [template[indices[n]]] else []
  }

  predicate Chain(steps: seq<PlanStep>) {
    forall i :: 0 <= i < |steps| ==>
      steps[i].id == i && steps[i].dependsOn == if i > 0 then [i - 1] else []
  }

  method GenerateSteps(template: Template, simple: Option<seq<nat>>) returns (steps: seq<PlanStep>)
    ensures Chain(steps) && WellIndexed(steps) && Fresh(steps)
    ensures var kept := Kept(template);
            var chosen := if simple.Some? then Selected(kept, simple.value) else kept;
            |steps| == |chosen| && forall i :: 0 <= i < |steps| ==> steps[i].tools == chosen[i]
    ensures forall i :: 0 <= i < |steps| ==> "git_commit" !in steps[i].tools
  {
    var chosen := Kept(template);
    KeptHasNoCommit(template);
    if simple.Some? {
      SelectedComesFrom(chosen, simple.value);
      chosen := Selected(chosen, simple.value);
    }
    steps := [];
    var i := 0;
    while i < |chosen|
      invariant 0 <= i <= |chosen| && |steps| == i
      invariant Chain(steps) && Fresh(steps)
      invariant forall j :: 0 <= j < i ==> steps[j].tools == chosen[j]
    {
      var deps := if i > 0 then [i - 1] else [];
      steps := steps + [NewStep(i, deps, chosen[i], "")];
      i := i + 1;
    }
  }

  lemma {:induction false} KeptHasNoCommit(template: Template)
    ensures forall t :: t in Kept(template) ==> "git_commit" !in t && t in template
    ensures forall t :: t in template && "git_commit" !in t ==> t in Kept(template)
    decreases |template|
  {
    if template != [] {
      var n := |template| - 1;
      KeptHasNoCommit(template[..n]);
      assert template == template[..n] + [template[n]];
    }
  }

  /** The positions of the items that are kept. */
  function KeptAt(template: Template): seq<nat> {
    if template == [] then []
    else
      var n := |template| - 1;
      KeptAt(template[..n]) + if "git_commit" in template[n] then [] else [n]
  }

  ghost predicate Ascending(at: seq<nat>, n: nat) {
    && (forall i :: 0 <= i < |at| ==> at[i] < n)
    && (forall i, j :: 0 <= i < j < |at| ==> at[i] < at[j])
  }

  lemma {:induction false} KeptAtIff(template: Template, k: nat)
    ensures k in KeptAt(template) <==> k < |template| && "git_commit" !in template[k]
    decreases |template|
  {
    if template != [] {
      KeptAtIff(template[..|template| - 1], k);
    }
  }

  lemma {:induction false} KeptAtAscends(template: Template)
    ensures Ascending(KeptAt(template), |template|) && |KeptAt(template)| == |Kept(template)|
    decreases |template|
  {
    if template != [] {
      KeptAtAscends(template[..|template| - 1]);
    }
  }

  /** The items kept are all those without publication, in the template's order. */
  lemma {:induction false} KeptInOrder(template: Template, i: nat)
    requires i < |Kept(template)|
    ensures |KeptAt(template)| == |Kept(template)| && Ascending(KeptAt(template), |template|)
    ensures Kept(template)[i] == template[KeptAt(template)[i]]
    ensures forall k: nat :: k in KeptAt(template) <==> k < |template| && "git_commit" !in template[k]
    decreases |template|
  {
    var n := |template| - 1;
    KeptAtAscends(template);
    KeptAtAscends(template[..n]);
    if i < |Kept(template[..n])| {
      KeptInOrder(template[..n], i);
    }
    forall k: nat
      ensures k in KeptAt(template) <==> k < |template| && "git_commit" !in template[k]
    {
      KeptAtIff(template, k);
    }
  }

  /** The places in the list of the indices that exist. */
  function SelectedAt(template: Template, indices: seq<nat>): seq<nat> {
    if indices == [] then []
    else
      var n := |indices| - 1;
      SelectedAt(template, indices[..n]) + if indices[n] < |template| then [n] else []
  }

  lemma {:induction false} SelectedAtIff(template: Template, indices: seq<nat>, k: nat)
    ensures k in SelectedAt(template, indices) <==> k < |indices| && indices[k] < |template|
    decreases |indices|
  {
    if indices != [] {
      SelectedAtIff(template, indices[..|indices| - 1], k);
    }
  }

  lemma {:induction false} SelectedAtAscends(template: Template, indices: seq<nat>)
    ensures Ascending(SelectedAt(template, indices), |indices|)
    ensures |SelectedAt(template, indices)| == |Selected(template, indices)|
    decreases |indices|
  {
    if indices != [] {
      SelectedAtAscends(template, indices[..|indices| - 1]);
    }
  }

  /** A simple plan's items are those at the listed positions that exist, in the order of the list. */
  lemma {:induction false} SelectedInOrder(template: Template, indices: seq<nat>, i: nat)
    requires i < |Selected(template, indices)|
    ensures |SelectedAt(template, indices)| == |Selected(template, indices)|
    ensures Ascending(SelectedAt(template, indices), |indices|)
    ensures indices[SelectedAt(template, indices)[i]] < |template|
    ensures Selected(template, indices)[i] == template[indices[SelectedAt(template, indices)[i]]]
    ensures forall k: nat :: k in SelectedAt(template, indices) <==> k < |indices| && indices[k] < |template|
    decreases |indices|
  {
    var n := |indices| - 1;
    SelectedAtAscends(template, indices);
    SelectedAtAscends(template, indices[..n]);
    if i < |Selected(template, indices[..n])| {
      SelectedInOrder(template, indices[..n], i);
    }
    forall k: nat
      ensures k in SelectedAt(template, indices) <==> k < |indices| && indices[k] < |template|
    {
      SelectedAtIff(template, indices, k);
    }
  }

  lemma {:induction false} SelectedComesFrom(template: Template, indices: seq<nat>)
    ensures forall t :: t in Selected(template, indices) ==> t in template
    decreases |indices|
  {
    if indices != [] {
      SelectedComesFrom(template, indices[..|indices| - 1]);
    }
  }

  datatype Contract = Contract(name: string, dependencies: seq<string>)

  /** The last contract before position `n` that carries `name`, if any. */
  function LastNamed(contracts: seq<Contract>, n: nat, name: string): (r: Option<nat>)
    requires n <= |contracts|
    ensures r.Some? ==> r.value < n && contracts[r.value].name == name
    ensures r.Some? ==> forall j :: r.value < j < n ==> contracts[j].name != name
    ensures r.None? ==> forall j :: 0 <= j < n ==> contracts[j].name != name
  {
    if n == 0 then None
    else if contracts[n - 1].name == name then Some(n - 1)
    else LastNamed(contracts, n - 1, name)
  }

  /** The steps of the earlier contracts that `names` refer to; a name not seen yet is dropped. */
  function ResolveNames(contracts: seq<Contract>, n: nat, names: seq<string>): (ids: seq<nat>)
    requires n <= |contracts|
    ensures forall d :: d in ids ==> 2 <= d < n + 2
  {
    if names == [] then []
    else
      var first := LastNamed(contracts, n, names[0]);
      (if first.Some? then [first.value + 2] else []) + ResolveNames(contracts, n, names[1..])
  }

  function OrArchitecture(ids: seq<nat>): seq<nat> {
    if ids == [] then [1] else ids
  }

  /** The insertion-ordered dictionary from subsystem name to step id. */
  datatype Registry = Registry(ids: map<string, nat>, order: seq<string>) {
    /** It maps every name carried by one of the first `n` contracts to that name's last step. */
    ghost predicate Describes(contracts: seq<Contract>, n: nat)
      requires n <= |contracts|
    {
      && (forall name :: name in ids <==> LastNamed(contracts, n, name).Some?)
      && (forall name :: name in ids ==> ids[name] == LastNamed(contracts, n, name).value + 2)
      && (forall name :: name in ids <==> name in order)
      && (forall a, b :: 0 <= a < b < |order| ==> order[a] != order[b])
    }

    /** The dictionary's values, oldest key first. */
    function Values(): (ids': seq<nat>)
      requires forall name :: name in order ==> name in ids
      ensures |ids'| == |order| && forall k :: 0 <= k < |order| ==> ids'[k] == ids[order[k]]
    {
      seq(|order|, k requires 0 <= k < |order| => ids[order[k]])
    }
  }

  method ResolveDependencies(registry: Registry, contracts: seq<Contract>, n: nat, names: seq<string>)
    returns (deps: seq<nat>)
    requires n <= |contracts| && registry.Describes(contracts, n)
    ensures deps == ResolveNames(contracts, n, names)
  {
    deps := [];
    for i := 0 to |names|
      invariant ResolveNames(contracts, n, names) == deps + ResolveNames(contracts, n, names[i..])
    {
      assert names[i..] == [names[i]] + names[i + 1..];
      if names[i] in registry.ids {
        deps := deps + [registry.ids[names[i]]];
      }
    }
  }

  method Register(registry: Registry, contracts: seq<Contract>, n: nat) returns (r: Registry)
    requires n < |contracts| && registry.Describes(contracts, n)
    ensures r.Describes(contracts, n + 1)
  {
    var name := contracts[n].name;
    r := Registry(
      registry.ids[name := n + 2],
      if name in registry.ids then registry.order else registry.order + [name]);
  }

  /** What `_generate_massive_build_steps` promises: two preparatory steps, one step a contract, an
      integration step and a release step. */
  predicate IsMassivePlan(contracts: seq<Contract>, steps: seq<PlanStep>) {
    var n := |contracts|;
    && |steps| == n + 4
    && steps[0].dependsOn == [] && steps[1].dependsOn == [0]
    && (forall k :: 2 <= k < n + 2 ==>
      && steps[k].subsystem == contracts[k - 2].name
      && steps[k].dependsOn == OrArchitecture(ResolveNames(contracts, k - 2, contracts[k - 2].dependencies)))
    && steps[n + 3].dependsOn == [n + 2]
  }

  /** The integration step waits for the last step of every distinct subsystem name. */
  ghost predicate IntegratesLastOfEachName(contracts: seq<Contract>, steps: seq<PlanStep>)
    requires IsMassivePlan(contracts, steps)
  {
    var n := |contracts|;
    var deps := steps[n + 2].dependsOn;
    if n == 0 then deps == [1]
    else forall d: nat :: d in deps <==>
      2 <= d < n + 2 && LastNamed(contracts, n, contracts[d - 2].name) == Some(d - 2)
  }

  /** The plan after its two preparatory steps and the first `k` contracts. */
  ghost predicate Drafted(contracts: seq<Contract>, k: nat, steps: seq<PlanStep>)
    requires k <= |contracts|
  {
    && |steps| == k + 2
    && WellIndexed(steps) && Fresh(steps)
    && steps[0].dependsOn == [] && steps[1].dependsOn == [0]
    && forall j :: 2 <= j < k + 2 ==>
      && steps[j].subsystem == contracts[j - 2].name
      && steps[j].dependsOn == OrArchitecture(ResolveNames(contracts, j - 2, contracts[j - 2].dependencies))
  }

  method GenerateMassiveBuildSteps(contracts: seq<Contract>) returns (steps: seq<PlanStep>)
    ensures WellIndexed(steps) && Fresh(steps)
    ensures IsMassivePlan(contracts, steps) && IntegratesLastOfEachName(contracts, steps)
  {
    steps := [NewStep(0, [], ["read_file", "get_project_structure", "repo_index"], ""),
              NewStep(1, [0], ["repo_context", "repo_symbols", "write_file"], "")];
    var registry := Registry(map[], []);
    for k := 0 to |contracts|
      invariant Drafted(contracts, k, steps)
      invariant registry.Describes(contracts, k)
    {
      steps := AppendSubsystem(contracts, k, steps, registry);
      registry := Register(registry, contracts, k);
    }
    steps := AppendFinalSteps(contracts, steps, registry);
  }

  method AppendSubsystem(contracts: seq<Contract>, k: nat, steps: seq<PlanStep>, registry: Registry)
    returns (r: seq<PlanStep>)
    requires k < |contracts| && Drafted(contracts, k, steps) && registry.Describes(contracts, k)
    ensures Drafted(contracts, k + 1, r)
  {
    var deps := ResolveDependencies(registry, contracts, k, contracts[k].dependencies);
    var tools := ["read_file", "search_code", "write_file", "edit_file", "run_process"];
    var step := NewStep(k + 2, OrArchitecture(deps), tools, contracts[k].name);
    AppendKeepsOrder(steps, step);
    r := steps + [step];
  }

  /** The integration and release steps that close a massive plan. */
  method AppendFinalSteps(contracts: seq<Contract>, steps: seq<PlanStep>, registry: Registry)
    returns (r: seq<PlanStep>)
    requires Drafted(contracts, |contracts|, steps) && registry.Describes(contracts, |contracts|)
    ensures WellIndexed(r) && Fresh(r)
    ensures IsMassivePlan(contracts, r) && IntegratesLastOfEachName(contracts, r)
  {
    RegistryValues(registry, contracts);
    var integrates := OrArchitecture(registry.Values());
    var integration := NewStep(|steps|, integrates, ["repo_impact", "edit_file", "run_process", "browser_check"], "");
    var release := NewStep(|steps| + 1, [|steps|], ["run_process", "security_scan", "browser_check"], "");
    AppendKeepsOrder(steps, integration);
    AppendKeepsOrder(steps + [integration], release);
    r := steps + [integration] + [release];
  }

  lemma {:induction false} AppendKeepsOrder(steps: seq<PlanStep>, step: PlanStep)
    requires WellIndexed(steps) && Fresh(steps)
    requires step.id == |steps| && Fresh([step])
    requires forall d :: d in step.dependsOn ==> d < |steps|
    ensures WellIndexed(steps + [step]) && Fresh(steps + [step])
  {
  }

  lemma {:induction false} RegistryValue(registry: Registry, contracts: seq<Contract>, d: nat)
    requires registry.Describes(contracts, |contracts|)
    ensures d in registry.Values() <==>
      2 <= d < |contracts| + 2 && LastNamed(contracts, |contracts|, contracts[d - 2].name) == Some(d - 2)
  {
    var n := |contracts|;
    var values := registry.Values();
    if 2 <= d < n + 2 && LastNamed(contracts, n, contracts[d - 2].name) == Some(d - 2) {
      var k :| 0 <= k < |registry.order| && registry.order[k] == contracts[d - 2].name;
      assert values[k] == d;
    }
    if d in values {
      var k :| 0 <= k < |values| && values[k] == d;
      assert registry.order[k] in registry.ids;
    }
  }

  lemma {:induction false} RegistryValues(registry: Registry, contracts: seq<Contract>)
    requires registry.Describes(contracts, |contracts|)
    ensures registry.Values() == [] <==> contracts == []
    ensures forall d: nat :: d in registry.Values() <==>
      2 <= d < |contracts| + 2 && LastNamed(contracts, |contracts|, contracts[d - 2].name) == Some(d - 2)
  {
    var n := |contracts|;
    forall d: nat
      ensures d in registry.Values() <==>
        2 <= d < n + 2 && LastNamed(contracts, n, contracts[d - 2].name) == Some(d - 2)
    {
      RegistryValue(registry, contracts, d);
    }
    if contracts != [] {
      assert LastNamed(contracts, n, contracts[n - 1].name) == Some(n - 1);
      assert n + 1 in registry.Values();
    }
    if registry.order != [] {
      assert registry.order[0] in registry.ids;
      assert LastNamed(contracts, n, registry.order[0]).Some?;
    }
  }

  /** `create_plan`'s mandatory first step for a large repository, followed by re-indexing. */
  method InsertPrologue(old_: seq<PlanStep>) returns (steps: seq<PlanStep>)
    ensures |steps| == |old_| + 1
    ensures steps[0] == NewStep(0, [], ["repo_index", "repo_symbols", "search_code"], "")
    ensures forall i :: 0 < i < |steps| ==> steps[i] == Shifted(old_[i - 1], i)
  {
    steps := [NewStep(0, [], ["repo_index", "repo_symbols", "search_code"], "")] + old_;
    for i := 0 to |steps|
      invariant |steps| == |old_| + 1
      invariant steps[0] == NewStep(0, [], ["repo_index", "repo_symbols", "search_code"], "")
      invariant forall j :: 0 < j < i ==> steps[j] == Shifted(old_[j - 1], j)
      invariant forall j :: i <= j < |steps| && j > 0 ==> steps[j] == old_[j - 1]
    {
      steps := steps[i := steps[i].(id := i)];
      if i > 0 && steps[i].dependsOn == [] {
        steps := steps[i := steps[i].(dependsOn := [i - 1])];
      } else if steps[i].dependsOn != [] {
        steps := steps[i := steps[i].(dependsOn := Incremented(steps[i].dependsOn))];
      }
    }
  }

  function Incremented(ids: seq<nat>): (r: seq<nat>)
    ensures |r| == |ids| && forall k :: 0 <= k < |ids| ==> r[k] == ids[k] + 1
  {
    seq(|ids|, k requires 0 <= k < |ids| => ids[k] + 1)
  }

  function Shifted(step: PlanStep, i: nat): PlanStep
    requires i > 0
  {
    step.(id := i, dependsOn := if step.dependsOn == [] then [i - 1] else Incremented(step.dependsOn))
  }

  predicate IsPrologued(old_: seq<PlanStep>, steps: seq<PlanStep>) {
    && |steps| == |old_| + 1
    && steps[0].dependsOn == [] && steps[0].id == 0
    && forall i :: 0 < i < |steps| ==> steps[i] == Shifted(old_[i - 1], i)
  }

  // ----- The dependency relation -----

  /** Step `b` cannot start before step `a` is done. */
  ghost predicate WaitsFor(steps: seq<PlanStep>, b: nat, a: nat)
    requires WellIndexed(steps) && b < |steps|
    decreases b
  {
    exists d :: d in steps[b].dependsOn && (d == a || WaitsFor(steps, d, a))
  }

  /** Only the first step may start without waiting. */
  predicate SingleRoot(steps: seq<PlanStep>) {
    forall i :: 0 < i < |steps| ==> steps[i].dependsOn != []
  }

  lemma {:induction false} RootPrecedesAll(steps: seq<PlanStep>, b: nat)
    requires WellIndexed(steps) && SingleRoot(steps) && 0 < b < |steps|
    ensures WaitsFor(steps, b, 0)
    decreases b
  {
    var d := steps[b].dependsOn[0];
    assert d in steps[b].dependsOn;
    if d > 0 {
      RootPrecedesAll(steps, d);
    }
  }

  /** The prologue keeps plans well indexed, and makes itself a prerequisite of every other step. */
  lemma {:induction false} PrologueIsRoot(old_: seq<PlanStep>, steps: seq<PlanStep>)
    requires WellIndexed(old_) && IsPrologued(old_, steps)
    ensures WellIndexed(steps) && SingleRoot(steps)
    ensures forall b :: 0 < b < |steps| ==> WaitsFor(steps, b, 0)
  {
    forall i, d | 0 <= i < |steps| && d in steps[i].dependsOn
      ensures d < i
    {
      if i > 0 {
        assert steps[i] == Shifted(old_[i - 1], i);
        if old_[i - 1].dependsOn != [] {
          assert d - 1 in old_[i - 1].dependsOn by {
            var k :| 0 <= k < |steps[i].dependsOn| && steps[i].dependsOn[k] == d;
            assert old_[i - 1].dependsOn[k] == d - 1;
          }
        }
      }
    }
    forall i | 0 < i < |steps|
      ensures steps[i].dependsOn != []
    {
      assert steps[i] == Shifted(old_[i - 1], i);
    }
    forall b | 0 < b < |steps|
      ensures WaitsFor(steps, b, 0)
    {
      RootPrecedesAll(steps, b);
    }
  }

  lemma {:induction false} ShiftedDependencies(old_: seq<PlanStep>, steps: seq<PlanStep>, b: nat, d: nat)
    requires IsPrologued(old_, steps) && b < |old_| && old_[b].dependsOn != []
    ensures d in old_[b].dependsOn <==> d + 1 in steps[b + 1].dependsOn
    ensures 0 !in steps[b + 1].dependsOn
  {
    assert steps[b + 1] == Shifted(old_[b], b + 1);
    var was, now := old_[b].dependsOn, steps[b + 1].dependsOn;
    if d in was {
      var k :| 0 <= k < |was| && was[k] == d;
      assert now[k] == d + 1;
    }
  }

  /** The prologue shifts the dependency relation by one: nothing is lost and nothing is added. */
  lemma {:induction false} PrologueShifts(old_: seq<PlanStep>, steps: seq<PlanStep>, b: nat, a: nat)
    requires WellIndexed(old_) && SingleRoot(old_) && IsPrologued(old_, steps)
    requires b < |old_| && WellIndexed(steps)
    ensures WaitsFor(steps, b + 1, a + 1) <==> WaitsFor(old_, b, a)
    decreases b
  {
    assert steps[b + 1] == Shifted(old_[b], b + 1);
    var now := steps[b + 1].dependsOn;
    if old_[b].dependsOn == [] {
      assert now == [0];
      assert !WaitsFor(steps, 0, a + 1);
    } else {
      forall d | d in old_[b].dependsOn
        ensures d + 1 in now
        ensures WaitsFor(steps, d + 1, a + 1) <==> WaitsFor(old_, d, a)
      {
        ShiftedDependencies(old_, steps, b, d);
        PrologueShifts(old_, steps, d, a);
      }
      forall e | e in now
        ensures e > 0 && e - 1 in old_[b].dependsOn
      {
        ShiftedDependencies(old_, steps, b, if e > 0 then e - 1 else 0);
      }
      if WaitsFor(steps, b + 1, a + 1) {
        var e :| e in now && (e == a + 1 || WaitsFor(steps, e, a + 1));
        assert e - 1 in old_[b].dependsOn;
      }
    }
  }

  lemma {:induction false} MassivePlanHasSingleRoot(contracts: seq<Contract>, steps: seq<PlanStep>)
    requires IsMassivePlan(contracts, steps) && IntegratesLastOfEachName(contracts, steps)
    ensures SingleRoot(steps)
  {
    var n := |contracts|;
    if n > 0 {
      assert LastNamed(contracts, n, contracts[n - 1].name) == Some(n - 1);
      assert n + 1 in steps[n + 2].dependsOn;
    }
  }

  /** Integration waits directly for every subsystem step exactly when no two contracts share a name. */
  lemma {:induction false} IntegrationWaitsForAll(contracts: seq<Contract>, steps: seq<PlanStep>)
    requires IsMassivePlan(contracts, steps) && IntegratesLastOfEachName(contracts, steps)
    ensures (var deps := steps[|contracts| + 2].dependsOn; forall k :: 2 <= k < |contracts| + 2 ==> k in deps)
      <==> (forall i, j :: 0 <= i < j < |contracts| ==> contracts[i].name != contracts[j].name)
  {
    var n := |contracts|;
    var deps := steps[n + 2].dependsOn;
    if i, j :| 0 <= i < j < n && contracts[i].name == contracts[j].name {
      assert LastNamed(contracts, n, contracts[i].name) != Some(i);
      assert i + 2 !in deps;
    } else {
      forall k | 2 <= k < n + 2
        ensures k in deps
      {
        var last := LastNamed(contracts, n, contracts[k - 2].name);
        assert last == Some(k - 2);
      }
    }
  }

  // ----- What integration waits for -----

  lemma {:induction false} WaitsTransitively(steps: seq<PlanStep>, c: nat, b: nat, a: nat)
    requires WellIndexed(steps) && c < |steps| && b < |steps|
    requires WaitsFor(steps, c, b) && WaitsFor(steps, b, a)
    ensures WaitsFor(steps, c, a)
    decreases c
  {
    var d :| d in steps[c].dependsOn && (d == b || WaitsFor(steps, d, b));
    if d != b {
      WaitsTransitively(steps, d, b, a);
    }
  }

  /** The last link of a chain of dependencies. */
  lemma {:induction false} WaitsThrough(steps: seq<PlanStep>, b: nat, a: nat) returns (j: nat)
    requires WellIndexed(steps) && b < |steps| && WaitsFor(steps, b, a)
    ensures j <= b && a in steps[j].dependsOn && (j == b || WaitsFor(steps, b, j))
    decreases b
  {
    var d :| d in steps[b].dependsOn && (d == a || WaitsFor(steps, d, a));
    if d == a {
      j := b;
    } else {
      j := WaitsThrough(steps, d, a);
    }
  }

  lemma {:induction false} ResolvesIff(contracts: seq<Contract>, n: nat, names: seq<string>, k: nat)
    requires k < n <= |contracts|
    ensures k + 2 in ResolveNames(contracts, n, names) <==>
      contracts[k].name in names && LastNamed(contracts, n, contracts[k].name) == Some(k)
    decreases |names|
  {
    if names != [] {
      ResolvesIff(contracts, n, names[1..], k);
      assert names == [names[0]] + names[1..];
      assert ResolveNames(contracts, n, names)
        == (if LastNamed(contracts, n, names[0]).Some? then [LastNamed(contracts, n, names[0]).value + 2] else [])
          + ResolveNames(contracts, n, names[1..]);
    }
  }

  /** A later contract has the same name. */
  predicate Shadowed(contracts: seq<Contract>, k: nat)
    requires k < |contracts|
  {
    exists j :: k < j < |contracts| && contracts[j].name == contracts[k].name
  }

  /** A later contract depends on it by a name that was still its own. */
  predicate NamedInTime(contracts: seq<Contract>, k: nat)
    requires k < |contracts|
  {
    exists j ::
      && k < j < |contracts|
      && contracts[k].name in contracts[j].dependencies
      && !Shadowed(contracts[..j], k)
  }

  lemma {:induction false} LastNamedIff(contracts: seq<Contract>, n: nat, k: nat)
    requires k < n <= |contracts|
    ensures LastNamed(contracts, n, contracts[k].name) == Some(k) <==> !Shadowed(contracts[..n], k)
  {
    var last := LastNamed(contracts, n, contracts[k].name);
    if last.Some? && last.value > k {
      assert contracts[..n][last.value].name == contracts[..n][k].name;
    }
  }

  lemma {:induction false} DependsIff(contracts: seq<Contract>, steps: seq<PlanStep>, j: nat, k: nat)
    requires IsMassivePlan(contracts, steps) && k < j < |contracts|
    ensures k + 2 in steps[j + 2].dependsOn <==>
      contracts[k].name in contracts[j].dependencies && !Shadowed(contracts[..j], k)
  {
    assert steps[j + 2].dependsOn == OrArchitecture(ResolveNames(contracts, j, contracts[j].dependencies));
    ResolvesIff(contracts, j, contracts[j].dependencies, k);
    LastNamedIff(contracts, j, k);
  }

  lemma {:induction false} IntegratesIff(contracts: seq<Contract>, steps: seq<PlanStep>, k: nat)
    requires IsMassivePlan(contracts, steps) && IntegratesLastOfEachName(contracts, steps) && k < |contracts|
    ensures k + 2 in steps[|contracts| + 2].dependsOn <==> !Shadowed(contracts, k)
  {
    LastNamedIff(contracts, |contracts|, k);
    assert contracts[..|contracts|] == contracts;
  }

  /** Integration waits, directly or not, for the step of contract `k`. */
  ghost predicate Integrates(contracts: seq<Contract>, steps: seq<PlanStep>, k: nat)
    requires WellIndexed(steps) && |steps| == |contracts| + 4
  {
    WaitsFor(steps, |contracts| + 2, k + 2)
  }

  lemma {:induction false} NextLink(contracts: seq<Contract>, steps: seq<PlanStep>, j: nat, k: nat)
    requires WellIndexed(steps) && |steps| == |contracts| + 4
    requires k < j < |contracts| && Integrates(contracts, steps, j) && k + 2 in steps[j + 2].dependsOn
    ensures Integrates(contracts, steps, k)
  {
    WaitsTransitively(steps, |contracts| + 2, j + 2, k + 2);
  }

  lemma {:induction false} IntegrationReaches(contracts: seq<Contract>, steps: seq<PlanStep>, k: nat)
    requires WellIndexed(steps) && IsMassivePlan(contracts, steps) && IntegratesLastOfEachName(contracts, steps)
    requires forall i :: 0 <= i < |contracts| && Shadowed(contracts, i) ==> NamedInTime(contracts, i)
    requires k < |contracts|
    ensures Integrates(contracts, steps, k)
    decreases |contracts| - k
  {
    IntegratesIff(contracts, steps, k);
    if Shadowed(contracts, k) {
      var j :| && k < j < |contracts|
               && contracts[k].name in contracts[j].dependencies
               && !Shadowed(contracts[..j], k);
      IntegrationReaches(contracts, steps, j);
      DependsIff(contracts, steps, j, k);
      NextLink(contracts, steps, j, k);
    }
  }

  lemma {:induction false} LastLink(contracts: seq<Contract>, steps: seq<PlanStep>, k: nat) returns (j: nat)
    requires WellIndexed(steps) && |steps| == |contracts| + 4
    requires k < |contracts| && Integrates(contracts, steps, k)
    ensures k < j <= |contracts| && k + 2 in steps[j + 2].dependsOn
  {
    var i := WaitsThrough(steps, |contracts| + 2, k + 2);
    assert k + 2 < i;
    j := i - 2;
  }

  lemma {:induction false} ReachedIsNamed(contracts: seq<Contract>, steps: seq<PlanStep>, k: nat)
    requires WellIndexed(steps) && IsMassivePlan(contracts, steps) && IntegratesLastOfEachName(contracts, steps)
    requires k < |contracts| && Shadowed(contracts, k) && Integrates(contracts, steps, k)
    ensures NamedInTime(contracts, k)
  {
    IntegratesIff(contracts, steps, k);
    var j := LastLink(contracts, steps, k);
    DependsIff(contracts, steps, j, k);
  }

  /** Integration waits, directly or not, for every subsystem step exactly if every contract whose name is
      given again later was depended on by that name before. */
  lemma {:induction false} IntegrationReachesAllIff(contracts: seq<Contract>, steps: seq<PlanStep>)
    requires WellIndexed(steps) && IsMassivePlan(contracts, steps) && IntegratesLastOfEachName(contracts, steps)
    ensures (forall k :: 0 <= k < |contracts| ==> Integrates(contracts, steps, k))
      <==> (forall k :: 0 <= k < |contracts| && Shadowed(contracts, k) ==> NamedInTime(contracts, k))
  {
    if forall k :: 0 <= k < |contracts| && Shadowed(contracts, k) ==> NamedInTime(contracts, k) {
      forall k | 0 <= k < |contracts|
        ensures Integrates(contracts, steps, k)
      {
        IntegrationReaches(contracts, steps, k);
      }
    }
    if forall k :: 0 <= k < |contracts| ==> Integrates(contracts, steps, k) {
      forall k | 0 <= k < |contracts| && Shadowed(contracts, k)
        ensures NamedInTime(contracts, k)
      {
        ReachedIsNamed(contracts, steps, k);
      }
    }
  }

  // ----- Plans whose steps are all ordered -----

  /** Of any two steps the later one waits for the earlier one. */
  ghost predicate Ordered(steps: seq<PlanStep>)
    requires WellIndexed(steps)
  {
    forall a, b :: 0 <= a < b < |steps| ==> WaitsFor(steps, b, a)
  }

  lemma {:induction false} NeighboursWait(steps: seq<PlanStep>, b: nat, a: nat)
    requires WellIndexed(steps) && a < b < |steps|
    requires forall i :: 0 < i < |steps| ==> i - 1 in steps[i].dependsOn
    ensures WaitsFor(steps, b, a)
    decreases b
  {
    assert b - 1 in steps[b].dependsOn;
    if a < b - 1 {
      NeighboursWait(steps, b - 1, a);
    }
  }

  /** That is so exactly if every step depends directly on the one before it. */
  lemma {:induction false} OrderedIff(steps: seq<PlanStep>)
    requires WellIndexed(steps)
    ensures Ordered(steps) <==> forall i :: 0 < i < |steps| ==> i - 1 in steps[i].dependsOn
  {
    if Ordered(steps) {
      forall i | 0 < i < |steps|
        ensures i - 1 in steps[i].dependsOn
      {
        assert WaitsFor(steps, i, i - 1);
        var j := WaitsThrough(steps, i, i - 1);
      }
    }
    if forall i :: 0 < i < |steps| ==> i - 1 in steps[i].dependsOn {
      forall a, b | 0 <= a < b < |steps|
        ensures WaitsFor(steps, b, a)
      {
        NeighboursWait(steps, b, a);
      }
    }
  }

  // ----- Creating a plan -----

  /** What the steps are generated from. */
  datatype Goal = Massive(contracts: seq<Contract>) | Ordinary(template: Template, simple: Option<seq<nat>>)

  /** `create_plan`, as far as the steps go. For a large repository everything waits for the first step. */
  method CreatePlan(goal: Goal, largeRepository: bool) returns (steps: seq<PlanStep>)
    ensures WellIndexed(steps) && Fresh(steps)
    ensures largeRepository ==> steps != [] && forall b :: 0 < b < |steps| ==> WaitsFor(steps, b, 0)
  {
    match goal {
      case Massive(contracts) => steps := GenerateMassiveBuildSteps(contracts);
      case Ordinary(template, simple) => steps := GenerateSteps(template, simple);
    }
    if largeRepository {
      ghost var before := steps;
      steps := InsertPrologue(steps);
      PrologueIsRoot(before, steps);
      assert forall i :: 0 < i < |steps| ==> steps[i] == Shifted(before[i - 1], i);
    }
  }
}
