/** The superiority gate: how a benchmark report is taken in, and what a qualified report is known to hold. */
module Qualification {
  import opened Whitespace
  import opened Wrappers

  // ----- Reports -----

  /** One agent's result in a group, `agent` being the name as the report spells it. */
  datatype Item = Item(
    agent: string, available: bool, completed: bool, verified: bool, falseSuccess: bool, unexpected: bool)

  /** One task and trial, as reported. */
  datatype Group = Group(task: string, trial: int, category: string, results: seq<Item>)

  /** One task and trial, as taken in. */
  datatype Entry = Entry(task: string, trial: int, category: string, rows: seq<Item>)

  /** A result together with the category it is counted under. */
  datatype Tagged = Tagged(category: string, item: Item)

  datatype Thresholds = Thresholds(
    nexus: string, baseline: string, claude: string,
    minimumTasks: nat, minimumTrials: nat, minimumTasksPerCategory: nat,
    minimumRate: real, minimumMargin: real, minimumCategoryRate: real, minimumCategoryMargin: real,
    minimumUplift: real, minimumNetWins: int, maximumFalseRate: real, maximumUnexpectedRate: real,
    categories: seq<string>)
  {
    function Agents(): (r: seq<string>) { [nexus, baseline, claude] }
  }

  const HARD_CATEGORIES: seq<string> := [
    "difficult_refactor", "feature_addition", "framework_migration", "hidden_multi_file_bug",
    "indirect_test_failure", "repository_wide_api_change", "state_concurrency_defect"]

  const DEFAULTS := Thresholds(
    "nexus", "direct_baseline", "claude_code", 50, 3, 5, 0.75, 0.05, 0.60, 0.02, 1.25, 1, 0.01, 0.0, HARD_CATEGORIES)

  /** At least as many tasks and trials and as large a margin as by default. */
  predicate NoLaxerThanDefault(t: Thresholds) {
    t.minimumTasks >= 50 && t.minimumTrials >= 3 && t.minimumMargin >= 0.05
  }

  datatype Failure =
    | InvalidGroup
    | DuplicateTrial(task: string, trial: int)
    | DuplicateAgent(task: string, trial: int, agent: string)
    | MissingAgent(task: string, trial: int, agent: string)
    | UniqueTasks
    | MissingCategories
    | CategoryTasks(category: string)
    | IncompleteTrials
    | AgentRuns(agent: string)
    | AgentUnavailable(agent: string)
    | AgentIncomplete(agent: string)
    | NexusRate
    | ClaudeMargin
    | DirectUplift
    | PairedNetWins
    | FalseSuccessRate
    | FalseSuccessWorse
    | UnexpectedRate
    | UnexpectedWorse
    | CategoryRate(category: string)
    | CategoryMargin(category: string)
    | CategoryFalseWorse(category: string)
    | CategoryUnexpectedWorse(category: string)

  // ----- Names -----

  /** The agent names of the thresholds have no space around them. */
  predicate Trimmed(t: Thresholds) {
    forall a :: a in t.Agents() ==> Strip(a) == a
  }

  lemma {:induction false} DefaultsAreTrimmed()
    ensures Trimmed(DEFAULTS) && NoLaxerThanDefault(DEFAULTS)
  {
    StripsNothing("nexus");
    StripsNothing("direct_baseline");
    StripsNothing("claude_code");
  }

  predicate HasName(rows: seq<Item>, name: string) {
    exists r :: r in rows && Strip(r.agent) == name
  }

  // ----- Intake -----

  /** The results kept for a group: the first one under each stripped name. */
  function Kept(results: seq<Item>): seq<Item> {
    if results == [] then []
    else
      var n := |results| - 1;
      var before := Kept(results[..n]);
      if HasName(before, Strip(results[n].agent)) then before else before + [results[n]]
  }

  function Duplicates(task: string, trial: int, results: seq<Item>): seq<Failure> {
    if results == [] then []
    else
      var n := |results| - 1;
      var name := Strip(results[n].agent);
      Duplicates(task, trial, results[..n])
      + if HasName(Kept(results[..n]), name) then [DuplicateAgent(task, trial, name)] else []
  }

  function Absent(task: string, trial: int, rows: seq<Item>, agents: seq<string>): seq<Failure> {
    if agents == [] then []
    else
      var n := |agents| - 1;
      Absent(task, trial, rows, agents[..n]) + When(!HasName(rows, agents[n]), MissingAgent(task, trial, agents[n]))
  }

  function When(failed: bool, failure: Failure): seq<Failure> {
    if failed then [failure] else []
  }

  predicate Seen(entries: seq<Entry>, task: string, trial: int) {
    exists e :: e in entries && e.task == task && e.trial == trial
  }

  datatype Intake = Intake(entries: seq<Entry>, failures: seq<Failure>)

  function TakeIn(t: Thresholds, groups: seq<Group>): Intake {
    if groups == [] then Intake([], [])
    else
      var before := TakeIn(t, groups[..|groups| - 1]);
      TakeInOne(t, before, groups[|groups| - 1])
  }

  function TakeInOne(t: Thresholds, before: Intake, g: Group): Intake {
    var task := Strip(g.task);
    if task == "" || g.trial <= 0 then before.(failures := before.failures + [InvalidGroup])
    else if Seen(before.entries, task, g.trial) then
      before.(failures := before.failures + [DuplicateTrial(task, g.trial)])
    else
      var rows := Kept(g.results);
      Intake(
        before.entries + [Entry(task, g.trial, Strip(g.category), rows)],
        before.failures + Duplicates(task, g.trial, g.results) + Absent(task, g.trial, rows, t.Agents()))
  }

  // ----- Metrics -----

  datatype Field = Run | Available | Completed | Verified | FalseSuccess | Unexpected

  predicate Has(item: Item, field: Field) {
    match field
    case Run => true
    case Available => item.available
    case Completed => item.completed
    case Verified => item.verified
    case FalseSuccess => item.falseSuccess
    case Unexpected => item.unexpected
  }

  function One(yes: bool): nat {
    if yes then 1 else 0
  }

  /** How many rows of an agent have the field set; rows are found by the name as spelt. */
  function Count(rows: seq<Tagged>, agent: string, field: Field): nat {
    if rows == [] then 0
    else
      var n := |rows| - 1;
      Count(rows[..n], agent, field) + One(rows[n].item.agent == agent && Has(rows[n].item, field))
  }

  function Ratio(part: nat, whole: nat, ifEmpty: real): real {
    if whole == 0 then ifEmpty else part as real / whole as real
  }

  function VerifiedRate(rows: seq<Tagged>, agent: string): real {
    Ratio(Count(rows, agent, Verified), Count(rows, agent, Run), 0.0)
  }

  function FalseRate(rows: seq<Tagged>, agent: string): real {
    Ratio(Count(rows, agent, FalseSuccess), Count(rows, agent, Run), 1.0)
  }

  function UnexpectedChangeRate(rows: seq<Tagged>, agent: string): real {
    Ratio(Count(rows, agent, Unexpected), Count(rows, agent, Run), 1.0)
  }

  function Tag(category: string, rows: seq<Item>): (r: seq<Tagged>)
    ensures |r| == |rows|
  {
    seq(|rows|, k requires 0 <= k < |rows| => Tagged(category, rows[k]))
  }

  function Flat(entries: seq<Entry>): seq<Tagged> {
    if entries == [] then []
    else
      var n := |entries| - 1;
      Flat(entries[..n]) + Tag(entries[n].category, entries[n].rows)
  }

  function InCategory(rows: seq<Tagged>, category: string): seq<Tagged> {
    if rows == [] then []
    else
      var n := |rows| - 1;
      InCategory(rows[..n], category) + if rows[n].category == category then [rows[n]] else []
  }

  /** `round(x, 6)`: halves go to the even neighbour. */
  function Rounded(x: real): real {
    var scaled := x * 1000000.0;
    var down := scaled.Floor;
    var rest := scaled - down as real;
    var up := rest > 0.5 || (rest == 0.5 && down % 2 != 0);
    (if up then down + 1 else down) as real / 1000000.0
  }

  // ----- Paired outcomes -----

  /** `per_agent.get(name)`. */
  function Result(rows: seq<Item>, name: string): (r: Option<Item>)
    ensures r.Some? ==> r.value in rows && Strip(r.value.agent) == name
    ensures r.None? ==> !HasName(rows, name)
  {
    if rows == [] then None
    else if Strip(rows[0].agent) == name then Some(rows[0])
    else Result(rows[1..], name)
  }

  datatype Outcomes = Outcomes(wins: nat, losses: nat, ties: nat)

  function Paired(t: Thresholds, entries: seq<Entry>): Outcomes {
    if entries == [] then Outcomes(0, 0, 0)
    else
      var n := |entries| - 1;
      var before := Paired(t, entries[..n]);
      var nexus, claude := Result(entries[n].rows, t.nexus), Result(entries[n].rows, t.claude);
      if nexus.None? || claude.None? then before
      else if nexus.value.verified && !claude.value.verified then before.(wins := before.wins + 1)
      else if claude.value.verified && !nexus.value.verified then before.(losses := before.losses + 1)
      else before.(ties := before.ties + 1)
  }

  // ----- What a qualified report satisfies -----

  function Tasks(entries: seq<Entry>): set<string> {
    set e | e in entries :: e.task
  }

  function Categories(entries: seq<Entry>): set<string> {
    set e | e in entries :: e.category
  }

  function TasksIn(entries: seq<Entry>, category: string): set<string> {
    set e | e in entries && e.category == category :: e.task
  }

  function TrialsOf(entries: seq<Entry>, task: string): set<int> {
    set e | e in entries && e.task == task :: e.trial
  }

  predicate UpliftBelow(t: Thresholds, rows: seq<Tagged>) {
    var nexus, baseline := VerifiedRate(rows, t.nexus), VerifiedRate(rows, t.baseline);
    if baseline == 0.0 then nexus <= 0.0 else nexus / baseline < t.minimumUplift
  }

  predicate DistinctNames(results: seq<Item>) {
    forall j, k :: 0 <= j < k < |results| ==> Strip(results[j].agent) != Strip(results[k].agent)
  }

  predicate GroupFine(t: Thresholds, g: Group) {
    && Strip(g.task) != "" && g.trial > 0
    && DistinctNames(g.results)
    && (forall a :: a in t.Agents() ==> HasName(g.results, a))
  }

  predicate SameKey(g: Group, h: Group) {
    Strip(g.task) == Strip(h.task) && g.trial == h.trial
  }

  predicate GroupsFine(t: Thresholds, groups: seq<Group>) {
    && (forall k :: 0 <= k < |groups| ==> GroupFine(t, groups[k]))
    && (forall j, k :: 0 <= j < k < |groups| ==> !SameKey(groups[j], groups[k]))
  }

  predicate Covered(t: Thresholds, entries: seq<Entry>) {
    && |Tasks(entries)| >= t.minimumTasks
    && (forall c :: c in t.categories ==> c in Categories(entries))
    && (forall c :: c in t.categories ==> |TasksIn(entries, c)| >= t.minimumTasksPerCategory)
    && (forall task :: task in Tasks(entries) ==> |TrialsOf(entries, task)| >= t.minimumTrials)
  }

  predicate AgentRan(rows: seq<Tagged>, agent: string, expected: nat) {
    && Count(rows, agent, Run) == expected
    && Count(rows, agent, Available) == Count(rows, agent, Run)
    && Count(rows, agent, Completed) == Count(rows, agent, Run)
  }

  predicate GatesPass(t: Thresholds, rows: seq<Tagged>, paired: Outcomes) {
    && VerifiedRate(rows, t.nexus) >= t.minimumRate
    && VerifiedRate(rows, t.nexus) - VerifiedRate(rows, t.claude) >= t.minimumMargin
    && !UpliftBelow(t, rows)
    && paired.wins - paired.losses >= t.minimumNetWins
    && FalseRate(rows, t.nexus) <= t.maximumFalseRate
    && FalseRate(rows, t.nexus) <= FalseRate(rows, t.claude)
    && UnexpectedChangeRate(rows, t.nexus) <= t.maximumUnexpectedRate
    && UnexpectedChangeRate(rows, t.nexus) <= UnexpectedChangeRate(rows, t.claude)
  }

  /** The comparisons for one required category, which only has to pass them if it has rows. */
  predicate CategoryPasses(t: Thresholds, rows: seq<Tagged>, category: string) {
    var here := InCategory(rows, category);
    here != [] ==>
      && VerifiedRate(here, t.nexus) >= t.minimumCategoryRate
      && Rounded(VerifiedRate(here, t.nexus) - VerifiedRate(here, t.claude)) >= t.minimumCategoryMargin
      && FalseRate(here, t.nexus) <= FalseRate(here, t.claude)
      && UnexpectedChangeRate(here, t.nexus) <= UnexpectedChangeRate(here, t.claude)
  }

  /** A report passes: `others` are the failures found by the checks that are not modelled. */
  predicate Qualifies(t: Thresholds, groups: seq<Group>, others: seq<string>) {
    var entries := TakeIn(t, groups).entries;
    var rows := Flat(entries);
    && others == []
    && GroupsFine(t, groups)
    && Covered(t, entries)
    && (forall a :: a in t.Agents() ==> AgentRan(rows, a, |entries|))
    && GatesPass(t, rows, Paired(t, entries))
    && (forall c :: c in t.categories ==> CategoryPasses(t, rows, c))
  }

  // ----- Intake: what it keeps -----

  lemma {:induction false} KeptNames(results: seq<Item>, name: string)
    ensures HasName(Kept(results), name) <==> HasName(results, name)
    decreases |results|
  {
    if results != [] {
      var n := |results| - 1;
      KeptNames(results[..n], name);
      assert results == results[..n] + [results[n]];
      var before := Kept(results[..n]);
      if !HasName(before, Strip(results[n].agent)) {
        assert results[n] in before + [results[n]];
      }
    }
  }

  lemma {:induction false} DistinctSnoc(earlier: seq<Item>, item: Item)
    ensures DistinctNames(earlier + [item]) <==>
      DistinctNames(earlier) && !HasName(earlier, Strip(item.agent))
  {
    var all := earlier + [item];
    assert forall k :: 0 <= k < |earlier| ==> all[k] == earlier[k];
    if DistinctNames(all) {
      forall r | r in earlier
        ensures Strip(r.agent) != Strip(item.agent)
      {
        var k :| 0 <= k < |earlier| && earlier[k] == r;
        assert all[k] == r && all[|earlier|] == item;
      }
    }
  }

  lemma {:induction false} KeptAreDistinct(results: seq<Item>)
    ensures DistinctNames(Kept(results))
    decreases |results|
  {
    if results != [] {
      var n := |results| - 1;
      KeptAreDistinct(results[..n]);
      DistinctSnoc(Kept(results[..n]), results[n]);
    }
  }

  /** A result is dropped only if its stripped name came before. */
  lemma {:induction false} DistinctAreKept(results: seq<Item>)
    requires DistinctNames(results)
    ensures Kept(results) == results
    decreases |results|
  {
    if results != [] {
      var earlier, item := results[..|results| - 1], results[|results| - 1];
      assert results == earlier + [item];
      DistinctSnoc(earlier, item);
      DistinctAreKept(earlier);
    }
  }

  lemma {:induction false} NoDuplicatesIff(task: string, trial: int, results: seq<Item>)
    ensures Duplicates(task, trial, results) == [] <==> DistinctNames(results)
    decreases |results|
  {
    if results != [] {
      var earlier, item := results[..|results| - 1], results[|results| - 1];
      assert results == earlier + [item];
      NoDuplicatesIff(task, trial, earlier);
      KeptNames(earlier, Strip(item.agent));
      DistinctSnoc(earlier, item);
    }
  }

  lemma {:induction false} NoneAbsentIff(task: string, trial: int, rows: seq<Item>, agents: seq<string>)
    ensures Absent(task, trial, rows, agents) == [] <==> forall a :: a in agents ==> HasName(rows, a)
    decreases |agents|
  {
    if agents != [] {
      var n := |agents| - 1;
      NoneAbsentIff(task, trial, rows, agents[..n]);
      assert agents == agents[..n] + [agents[n]];
    }
  }

  function EntryOf(g: Group): Entry {
    Entry(Strip(g.task), g.trial, Strip(g.category), g.results)
  }

  lemma {:induction false} GroupsFineSnoc(t: Thresholds, earlier: seq<Group>, g: Group)
    ensures GroupsFine(t, earlier + [g]) <==>
      && GroupsFine(t, earlier)
      && GroupFine(t, g)
      && forall j :: 0 <= j < |earlier| ==> !SameKey(earlier[j], g)
  {
    var all, n := earlier + [g], |earlier|;
    assert forall k :: 0 <= k < n ==> all[k] == earlier[k];
    assert all[n] == g;
  }

  /** What one more group adds to the failures is nothing exactly if the group is fine and new. */
  lemma {:induction false} OneGroupCleanIff(t: Thresholds, before: Intake, g: Group)
    requires before.failures == []
    ensures TakeInOne(t, before, g).failures == [] <==>
      GroupFine(t, g) && !Seen(before.entries, Strip(g.task), g.trial)
    ensures TakeInOne(t, before, g).failures == [] ==>
      TakeInOne(t, before, g).entries == before.entries + [EntryOf(g)]
  {
    NoDuplicatesIff(Strip(g.task), g.trial, g.results);
    NoneAbsentIff(Strip(g.task), g.trial, Kept(g.results), t.Agents());
    if DistinctNames(g.results) {
      DistinctAreKept(g.results);
    }
    forall a
      ensures HasName(Kept(g.results), a) <==> HasName(g.results, a)
    {
      KeptNames(g.results, a);
    }
  }

  lemma {:induction false} FailuresRemain(t: Thresholds, before: Intake, g: Group)
    requires before.failures != []
    ensures TakeInOne(t, before, g).failures != []
  {
  }

  /** Intake finds nothing to object to exactly if the groups are fine, and then takes in every group whole. */
  lemma {:induction false} IntakeCleanIff(t: Thresholds, groups: seq<Group>)
    ensures TakeIn(t, groups).failures == [] <==> GroupsFine(t, groups)
    ensures GroupsFine(t, groups) ==>
      && |TakeIn(t, groups).entries| == |groups|
      && forall k :: 0 <= k < |groups| ==> TakeIn(t, groups).entries[k] == EntryOf(groups[k])
    decreases |groups|
  {
    if groups != [] {
      var n := |groups| - 1;
      var earlier, g := groups[..n], groups[n];
      assert groups == earlier + [g];
      IntakeCleanIff(t, earlier);
      GroupsFineSnoc(t, earlier, g);
      var before := TakeIn(t, earlier);
      if GroupsFine(t, earlier) {
        SeenIff(before.entries, earlier, g);
        OneGroupCleanIff(t, before, g);
      } else {
        FailuresRemain(t, before, g);
      }
    }
  }

  lemma {:induction false} SeenIff(entries: seq<Entry>, groups: seq<Group>, g: Group)
    requires |entries| == |groups| && forall k :: 0 <= k < |groups| ==> entries[k] == EntryOf(groups[k])
    ensures Seen(entries, Strip(g.task), g.trial) <==> exists j :: 0 <= j < |groups| && SameKey(groups[j], g)
  {
    if j :| 0 <= j < |groups| && SameKey(groups[j], g) {
      assert entries[j] in entries;
    }
    if Seen(entries, Strip(g.task), g.trial) {
      var e :| e in entries && e.task == Strip(g.task) && e.trial == g.trial;
      var j :| 0 <= j < |entries| && entries[j] == e;
      assert SameKey(groups[j], g);
    }
  }

  /** What intake leaves behind, whatever the report: distinct keys, and in each entry distinct names. */
  ghost predicate WellTaken(entries: seq<Entry>) {
    && (forall j, k :: 0 <= j < k < |entries| ==>
         entries[j].task != entries[k].task || entries[j].trial != entries[k].trial)
    && (forall k :: 0 <= k < |entries| ==> DistinctNames(entries[k].rows))
  }

  lemma {:induction false} WellTakenSnoc(entries: seq<Entry>, e: Entry)
    requires WellTaken(entries) && !Seen(entries, e.task, e.trial) && DistinctNames(e.rows)
    ensures WellTaken(entries + [e])
  {
    var all := entries + [e];
    forall j | 0 <= j < |entries|
      ensures all[j] == entries[j] && (all[j].task != e.task || all[j].trial != e.trial)
    {
      assert entries[j] in entries;
    }
  }

  lemma {:induction false} OneMoreTaken(t: Thresholds, before: Intake, g: Group)
    requires WellTaken(before.entries)
    ensures WellTaken(TakeInOne(t, before, g).entries)
  {
    if TakeInOne(t, before, g).entries != before.entries {
      KeptAreDistinct(g.results);
      WellTakenSnoc(before.entries, Entry(Strip(g.task), g.trial, Strip(g.category), Kept(g.results)));
    }
  }

  lemma {:induction false} IntakeIsWellTaken(t: Thresholds, groups: seq<Group>)
    ensures WellTaken(TakeIn(t, groups).entries)
    decreases |groups|
  {
    if groups != [] {
      var n := |groups| - 1;
      IntakeIsWellTaken(t, groups[..n]);
      OneMoreTaken(t, TakeIn(t, groups[..n]), groups[n]);
    }
  }

  // ----- Counting -----

  lemma {:induction false} CountConcat(a: seq<Tagged>, b: seq<Tagged>, agent: string, field: Field)
    ensures Count(a + b, agent, field) == Count(a, agent, field) + Count(b, agent, field)
    decreases |b|
  {
    if b == [] {
      assert a + b == a;
    } else {
      CountConcat(a, b[..|b| - 1], agent, field);
      assert (a + b)[..|a + b| - 1] == a + b[..|b| - 1];
    }
  }

  /** A row spelt exactly like the agent. */
  predicate HasExact(rows: seq<Item>, agent: string) {
    exists r :: r in rows && r.agent == agent
  }

  lemma {:induction false} CountSnoc(rows: seq<Tagged>, r: Tagged, agent: string, field: Field)
    ensures Count(rows + [r], agent, field)
      == Count(rows, agent, field) + One(r.item.agent == agent && Has(r.item, field))
  {
    assert (rows + [r])[..|rows|] == rows;
  }

  /** With distinct names an agent has at most one row under its exact name. */
  lemma {:induction false} CountInEntry(category: string, rows: seq<Item>, agent: string, field: Field)
    requires DistinctNames(rows)
    ensures Count(Tag(category, rows), agent, field)
      == One(exists r :: r in rows && r.agent == agent && Has(r, field))
    decreases |rows|
  {
    if rows != [] {
      var n := |rows| - 1;
      var earlier, last := rows[..n], rows[n];
      assert rows == earlier + [last];
      DistinctSnoc(earlier, last);
      CountInEntry(category, earlier, agent, field);
      assert Tag(category, rows) == Tag(category, earlier) + [Tagged(category, last)];
      CountSnoc(Tag(category, earlier), Tagged(category, last), agent, field);
    }
  }

  /** That row is the one found by the stripped name. */
  lemma {:induction false} ExactIsFound(rows: seq<Item>, agent: string, r: Item)
    requires DistinctNames(rows) && Strip(agent) == agent
    requires r in rows && r.agent == agent
    ensures Result(rows, agent) == Some(r)
  {
    assert HasName(rows, agent);
    var found := Result(rows, agent).value;
    var j :| 0 <= j < |rows| && rows[j] == found;
    var k :| 0 <= k < |rows| && rows[k] == r;
    assert j == k;
  }

  /** So in an entry with an exact row, the count says whether the row found has the field. */
  lemma {:induction false} CountOfFound(category: string, rows: seq<Item>, agent: string, field: Field)
    requires DistinctNames(rows) && Strip(agent) == agent && HasExact(rows, agent)
    ensures Result(rows, agent).Some?
    ensures Count(Tag(category, rows), agent, field) == One(Has(Result(rows, agent).value, field))
  {
    var r :| r in rows && r.agent == agent;
    ExactIsFound(rows, agent, r);
    CountInEntry(category, rows, agent, field);
    forall other | other in rows && other.agent == agent
      ensures other == r
    {
      ExactIsFound(rows, agent, other);
    }
  }

  /** Entries in which an agent has a row under its exact name. */
  function Exact(entries: seq<Entry>, agent: string): nat {
    if entries == [] then 0
    else
      var n := |entries| - 1;
      Exact(entries[..n], agent) + One(HasExact(entries[n].rows, agent))
  }

  lemma {:induction false} ExactIsOneRun(e: Entry, agent: string)
    requires DistinctNames(e.rows)
    ensures Count(Tag(e.category, e.rows), agent, Run) == One(HasExact(e.rows, agent))
  {
    CountInEntry(e.category, e.rows, agent, Run);
    assert HasExact(e.rows, agent) <==> exists r :: r in e.rows && r.agent == agent && Has(r, Run);
  }

  lemma {:induction false} RunsAreExactRows(entries: seq<Entry>, agent: string)
    requires WellTaken(entries)
    ensures Count(Flat(entries), agent, Run) == Exact(entries, agent)
    decreases |entries|
  {
    if entries != [] {
      var n := |entries| - 1;
      RunsAreExactRows(entries[..n], agent);
      CountConcat(Flat(entries[..n]), Tag(entries[n].category, entries[n].rows), agent, Run);
      ExactIsOneRun(entries[n], agent);
    }
  }

  lemma {:induction false} ExactIsAtMost(entries: seq<Entry>, agent: string)
    ensures Exact(entries, agent) <= |entries|
    ensures Exact(entries, agent) == |entries| <==> forall e :: e in entries ==> HasExact(e.rows, agent)
    decreases |entries|
  {
    if entries != [] {
      var n := |entries| - 1;
      ExactIsAtMost(entries[..n], agent);
      assert entries == entries[..n] + [entries[n]];
    }
  }

  /** The run count, which goes by exact names, equals the number of groups exactly if every group has a row
      spelt like the agent. */
  lemma {:induction false} RunsMatchIff(entries: seq<Entry>, agent: string)
    requires WellTaken(entries)
    ensures Count(Flat(entries), agent, Run) == |entries| <==> forall e :: e in entries ==> HasExact(e.rows, agent)
  {
    RunsAreExactRows(entries, agent);
    ExactIsAtMost(entries, agent);
  }

  // ----- Every group holds exactly one row of each agent -----

  /** There is exactly one result under the stripped name, and it is spelt like the agent. */
  ghost predicate ExactlyOne(results: seq<Item>, agent: string) {
    exists k ::
      && 0 <= k < |results|
      && results[k].agent == agent
      && forall j :: 0 <= j < |results| && Strip(results[j].agent) == agent ==> j == k
  }

  /** All entries have a row spelt like the agent. */
  ghost predicate Complete(entries: seq<Entry>, agent: string) {
    forall e :: e in entries ==> HasExact(e.rows, agent)
  }

  /** A qualified report is taken in whole, and each agent is in every group under its exact name. */
  lemma {:induction false} QualifiedIsWhole(t: Thresholds, groups: seq<Group>, others: seq<string>)
    requires Qualifies(t, groups, others)
    ensures var entries := TakeIn(t, groups).entries;
      && WellTaken(entries)
      && |entries| == |groups|
      && (forall k :: 0 <= k < |groups| ==> GroupFine(t, groups[k]) && entries[k] == EntryOf(groups[k]))
      && (forall a :: a in t.Agents() ==> Complete(entries, a) && Count(Flat(entries), a, Run) == |groups|)
      && Covered(t, entries)
  {
    var entries := TakeIn(t, groups).entries;
    IntakeCleanIff(t, groups);
    IntakeIsWellTaken(t, groups);
    forall a | a in t.Agents()
      ensures Complete(entries, a) && Count(Flat(entries), a, Run) == |groups|
    {
      assert AgentRan(Flat(entries), a, |entries|);
      RunsMatchIff(entries, a);
    }
  }

  lemma {:induction false} ExactIsOnly(results: seq<Item>, agent: string)
    requires DistinctNames(results) && HasExact(results, agent) && Strip(agent) == agent
    ensures ExactlyOne(results, agent)
  {
    var r :| r in results && r.agent == agent;
    var k :| 0 <= k < |results| && results[k] == r;
  }

  /** Every group of a qualified report has exactly one result of each required agent. */
  lemma {:induction false} QualifiedGroupsAreComplete(
      t: Thresholds, groups: seq<Group>, others: seq<string>, i: nat, agent: string)
    requires Qualifies(t, groups, others) && Strip(agent) == agent
    requires i < |groups| && agent in t.Agents()
    ensures ExactlyOne(groups[i].results, agent)
  {
    QualifiedIsWhole(t, groups, others);
    var entries := TakeIn(t, groups).entries;
    assert entries[i] in entries && entries[i].rows == groups[i].results;
    assert GroupFine(t, groups[i]);
    ExactIsOnly(groups[i].results, agent);
  }

  function Keys(entries: seq<Entry>): set<(string, int)> {
    set e | e in entries :: (e.task, e.trial)
  }

  lemma {:induction false} NewKey(entries: seq<Entry>)
    requires WellTaken(entries) && entries != []
    ensures var last := entries[|entries| - 1];
      (last.task, last.trial) !in Keys(entries[..|entries| - 1])
  {
    var n := |entries| - 1;
    forall e | e in entries[..n]
      ensures e.task != entries[n].task || e.trial != entries[n].trial
    {
      var j :| 0 <= j < n && entries[..n][j] == e;
      assert entries[j] == e;
    }
  }

  lemma {:induction false} KeysCount(entries: seq<Entry>)
    requires WellTaken(entries)
    ensures |Keys(entries)| == |entries|
    decreases |entries|
  {
    if entries != [] {
      var n := |entries| - 1;
      KeysCount(entries[..n]);
      NewKey(entries);
      assert entries == entries[..n] + [entries[n]];
      assert Keys(entries) == Keys(entries[..n]) + {(entries[n].task, entries[n].trial)};
    }
  }

  function KeysOf(keys: set<(string, int)>, task: string): set<(string, int)> {
    set key | key in keys && key.0 == task
  }

  function SecondsOf(keys: set<(string, int)>): set<int> {
    set key | key in keys :: key.1
  }

  lemma {:induction false} AtLeastAsManyKeys(keys: set<(string, int)>)
    ensures |SecondsOf(keys)| <= |keys|
    decreases |keys|
  {
    if key :| key in keys {
      AtLeastAsManyKeys(keys - {key});
      assert SecondsOf(keys) == SecondsOf(keys - {key}) + {key.1};
    }
  }

  /** Keys that cover a set of tasks, each with at least `m` trials, number at least `m` a task. */
  lemma {:induction false} KeysCoverTasks(keys: set<(string, int)>, tasks: set<string>, m: nat)
    requires forall task :: task in tasks ==> |SecondsOf(KeysOf(keys, task))| >= m
    ensures |keys| >= m * |tasks|
    decreases |tasks|
  {
    if task :| task in tasks {
      var mine, rest := KeysOf(keys, task), keys - KeysOf(keys, task);
      AtLeastAsManyKeys(mine);
      forall other | other in tasks - {task}
        ensures KeysOf(rest, other) == KeysOf(keys, other)
      {
      }
      KeysCoverTasks(rest, tasks - {task}, m);
      assert |tasks| == |tasks - {task}| + 1;
      assert m * |tasks| == m * |tasks - {task}| + m;
    }
  }

  lemma {:induction false} TrialsAreSeconds(entries: seq<Entry>, task: string)
    ensures SecondsOf(KeysOf(Keys(entries), task)) == TrialsOf(entries, task)
  {
    forall trial | trial in TrialsOf(entries, task)
      ensures trial in SecondsOf(KeysOf(Keys(entries), task))
    {
      var e :| e in entries && e.task == task && e.trial == trial;
      assert (task, trial) in KeysOf(Keys(entries), task);
    }
  }

  lemma {:induction false} CoveredHasEnough(t: Thresholds, entries: seq<Entry>)
    requires WellTaken(entries) && Covered(t, entries)
    ensures |entries| >= t.minimumTrials * t.minimumTasks
  {
    KeysCount(entries);
    forall task | task in Tasks(entries)
      ensures |SecondsOf(KeysOf(Keys(entries), task))| >= t.minimumTrials
    {
      TrialsAreSeconds(entries, task);
    }
    KeysCoverTasks(Keys(entries), Tasks(entries), t.minimumTrials);
    Monotone(t.minimumTrials, t.minimumTasks, |Tasks(entries)|);
  }

  /** A qualified report has at least as many groups as tasks and trials demand: 150 by default. */
  lemma {:induction false} QualifiedHasEnoughGroups(t: Thresholds, groups: seq<Group>, others: seq<string>)
    requires Qualifies(t, groups, others)
    ensures |groups| >= t.minimumTrials * t.minimumTasks
    ensures NoLaxerThanDefault(t) ==> |groups| >= 150
  {
    QualifiedIsWhole(t, groups, others);
    CoveredHasEnough(t, TakeIn(t, groups).entries);
    if NoLaxerThanDefault(t) {
      ThreeTrialsOfFifty(t.minimumTrials, t.minimumTasks);
    }
  }

  lemma {:induction false} ThreeTrialsOfFifty(trials: nat, tasks: nat)
    requires trials >= 3 && tasks >= 50
    ensures trials * tasks >= 150
  {
    assert trials * tasks >= 3 * tasks;
  }

  lemma {:induction false} Monotone(m: nat, a: nat, b: nat)
    requires a <= b
    ensures m * a <= m * b
  {
  }

  // ----- Paired outcomes against rates -----

  /** One group's part in the outcomes, when both agents are in it. */
  lemma {:induction false} PairedStep(t: Thresholds, entries: seq<Entry>)
    requires entries != []
    requires var rows := entries[|entries| - 1].rows; Result(rows, t.nexus).Some? && Result(rows, t.claude).Some?
    ensures var n := |entries| - 1;
      var a, b := Paired(t, entries[..n]), Paired(t, entries);
      var nexus, claude := Result(entries[n].rows, t.nexus).value, Result(entries[n].rows, t.claude).value;
      && b.wins + b.losses + b.ties == a.wins + a.losses + a.ties + 1
      && b.wins - b.losses == a.wins - a.losses + One(nexus.verified) - One(claude.verified)
  {
  }

  lemma {:induction false} VerifiedStep(entries: seq<Entry>, agent: string)
    requires entries != [] && DistinctNames(entries[|entries| - 1].rows) && HasExact(entries[|entries| - 1].rows, agent)
    requires Strip(agent) == agent
    ensures var n := |entries| - 1;
      && Result(entries[n].rows, agent).Some?
      && Count(Flat(entries), agent, Verified)
        == Count(Flat(entries[..n]), agent, Verified) + One(Result(entries[n].rows, agent).value.verified)
  {
    var n := |entries| - 1;
    var e := entries[n];
    CountConcat(Flat(entries[..n]), Tag(e.category, e.rows), agent, Verified);
    CountOfFound(e.category, e.rows, agent, Verified);
  }

  /** Wins, losses and ties partition the groups, and wins less losses is the difference of verified runs. */
  lemma {:induction false} PairedCounts(t: Thresholds, entries: seq<Entry>)
    requires WellTaken(entries) && Complete(entries, t.nexus) && Complete(entries, t.claude)
    requires Strip(t.nexus) == t.nexus && Strip(t.claude) == t.claude
    ensures var p := Paired(t, entries);
      && p.wins + p.losses + p.ties == |entries|
      && p.wins - p.losses == Count(Flat(entries), t.nexus, Verified) - Count(Flat(entries), t.claude, Verified)
    decreases |entries|
  {
    if entries != [] {
      PairedCounts(t, entries[..|entries| - 1]);
      PairedCountsNext(t, entries);
    }
  }

  lemma {:induction false} PairedCountsNext(t: Thresholds, entries: seq<Entry>)
    requires WellTaken(entries) && Complete(entries, t.nexus) && Complete(entries, t.claude) && entries != []
    requires Strip(t.nexus) == t.nexus && Strip(t.claude) == t.claude
    ensures var n := |entries| - 1;
      var before, p := Paired(t, entries[..n]), Paired(t, entries);
      var rows, earlier := Flat(entries), Flat(entries[..n]);
      && p.wins + p.losses + p.ties == before.wins + before.losses + before.ties + 1
      && p.wins - p.losses - (before.wins - before.losses)
        == Count(rows, t.nexus, Verified) - Count(earlier, t.nexus, Verified)
          - (Count(rows, t.claude, Verified) - Count(earlier, t.claude, Verified))
  {
    assert entries[|entries| - 1] in entries;
    VerifiedStep(entries, t.nexus);
    VerifiedStep(entries, t.claude);
    PairedStep(t, entries);
  }

  lemma {:induction false} RatioDifference(a: nat, b: nat, whole: nat, margin: real)
    requires whole > 0
    requires Ratio(a, whole, 0.0) - Ratio(b, whole, 0.0) >= margin
    ensures a as real - b as real >= margin * whole as real
  {
    var w := whole as real;
    assert (a as real / w) * w == a as real && (b as real / w) * w == b as real;
    assert (a as real / w - b as real / w) * w >= margin * w;
  }

  /** What the gate knows of the two agents it pairs. */
  ghost predicate Comparable(t: Thresholds, entries: seq<Entry>) {
    && WellTaken(entries)
    && Complete(entries, t.nexus)
    && Complete(entries, t.claude)
    && Count(Flat(entries), t.nexus, Run) == |entries|
    && Count(Flat(entries), t.claude, Run) == |entries|
    && GatesPass(t, Flat(entries), Paired(t, entries))
  }

  lemma {:induction false} QualifiedPair(t: Thresholds, groups: seq<Group>, others: seq<string>)
    requires Qualifies(t, groups, others)
    ensures |TakeIn(t, groups).entries| == |groups| && Comparable(t, TakeIn(t, groups).entries)
  {
    QualifiedIsWhole(t, groups, others);
    assert t.nexus in t.Agents() && t.claude in t.Agents();
  }

  /** In a qualified report every group is a win, a loss or a tie, and the net wins are the difference of
      verified runs. */
  lemma {:induction false} QualifiedOutcomes(t: Thresholds, groups: seq<Group>, others: seq<string>)
    requires Qualifies(t, groups, others)
    requires Strip(t.nexus) == t.nexus && Strip(t.claude) == t.claude
    ensures var entries := TakeIn(t, groups).entries;
      var p := Paired(t, entries);
      && p.wins + p.losses + p.ties == |groups|
      && p.wins - p.losses == Count(Flat(entries), t.nexus, Verified) - Count(Flat(entries), t.claude, Verified)
  {
    QualifiedPair(t, groups, others);
    PairedCounts(t, TakeIn(t, groups).entries);
  }

  /** So the margin already forces net wins: at least 8 by default, where the gate asks for one. */
  lemma {:induction false} QualifiedNetWins(t: Thresholds, groups: seq<Group>, others: seq<string>)
    requires Qualifies(t, groups, others) && NoLaxerThanDefault(t)
    requires Strip(t.nexus) == t.nexus && Strip(t.claude) == t.claude
    ensures var p := Paired(t, TakeIn(t, groups).entries); p.wins - p.losses >= 8
  {
    QualifiedPair(t, groups, others);
    QualifiedOutcomes(t, groups, others);
    QualifiedHasEnoughGroups(t, groups, others);
    EightNetWins(t, Flat(TakeIn(t, groups).entries), Paired(t, TakeIn(t, groups).entries), |groups|);
  }

  lemma {:induction false} EightNetWins(t: Thresholds, rows: seq<Tagged>, p: Outcomes, runs: nat)
    requires GatesPass(t, rows, p) && NoLaxerThanDefault(t) && runs >= 150
    requires Count(rows, t.nexus, Run) == runs && Count(rows, t.claude, Run) == runs
    requires p.wins - p.losses == Count(rows, t.nexus, Verified) - Count(rows, t.claude, Verified)
    ensures p.wins - p.losses >= 8
  {
    MarginInRuns(rows, t.nexus, t.claude, runs, t.minimumMargin);
    MarginForcesWins(t.minimumMargin, runs);
  }

  /** A margin between rates over the same runs is a margin in verified runs. */
  lemma {:induction false} MarginInRuns(rows: seq<Tagged>, left: string, right: string, runs: nat, margin: real)
    requires runs > 0 && Count(rows, left, Run) == runs && Count(rows, right, Run) == runs
    requires VerifiedRate(rows, left) - VerifiedRate(rows, right) >= margin
    ensures (Count(rows, left, Verified) - Count(rows, right, Verified)) as real >= margin * runs as real
  {
    RatioDifference(Count(rows, left, Verified), Count(rows, right, Verified), runs, margin);
  }

  lemma {:induction false} MarginForcesWins(margin: real, groups: nat)
    requires margin >= 0.05 && groups >= 150
    ensures margin * groups as real >= 7.5
  {
    assert margin * groups as real >= 0.05 * groups as real;
  }

  // ----- Per-category comparisons against the aggregate one -----

  function OutsideCategory(rows: seq<Tagged>, category: string): seq<Tagged> {
    if rows == [] then []
    else
      var n := |rows| - 1;
      OutsideCategory(rows[..n], category) + if rows[n].category == category then [] else [rows[n]]
  }

  lemma {:induction false} CountSplits(rows: seq<Tagged>, category: string, agent: string, field: Field)
    ensures Count(rows, agent, field)
      == Count(InCategory(rows, category), agent, field) + Count(OutsideCategory(rows, category), agent, field)
    decreases |rows|
  {
    if rows != [] {
      var n := |rows| - 1;
      CountSplits(rows[..n], category, agent, field);
      if rows[n].category == category {
        CountSnoc(InCategory(rows[..n], category), rows[n], agent, field);
        assert OutsideCategory(rows, category) == OutsideCategory(rows[..n], category);
      } else {
        CountSnoc(OutsideCategory(rows[..n], category), rows[n], agent, field);
        assert InCategory(rows, category) == InCategory(rows[..n], category);
      }
    }
  }

  lemma {:induction false} OutsideRows(rows: seq<Tagged>, category: string)
    ensures forall r :: r in OutsideCategory(rows, category) <==> r in rows && r.category != category
    decreases |rows|
  {
    if rows != [] {
      OutsideRows(rows[..|rows| - 1], category);
      assert rows == rows[..|rows| - 1] + [rows[|rows| - 1]];
    }
  }

  lemma {:induction false} InAnotherCategory(rows: seq<Tagged>, category: string, other: string)
    requires other != category
    ensures InCategory(OutsideCategory(rows, category), other) == InCategory(rows, other)
    decreases |rows|
  {
    if rows != [] {
      var n := |rows| - 1;
      InAnotherCategory(rows[..n], category, other);
      var outside := OutsideCategory(rows, category);
      if rows[n].category != category {
        assert outside[..|outside| - 1] == OutsideCategory(rows[..n], category);
      } else {
        assert outside == OutsideCategory(rows[..n], category);
        assert InCategory(rows[..n], other) + [] == InCategory(rows[..n], other);
      }
    }
  }

  /** A count that is no larger in every category is no larger overall. */
  lemma {:induction false} CategoriesAddUp(
      rows: seq<Tagged>, categories: set<string>, left: string, right: string, field: Field)
    requires forall r :: r in rows ==> r.category in categories
    requires forall c :: c in categories ==>
      Count(InCategory(rows, c), left, field) <= Count(InCategory(rows, c), right, field)
    ensures Count(rows, left, field) <= Count(rows, right, field)
    decreases |categories|
  {
    if c :| c in categories {
      var rest := OutsideCategory(rows, c);
      CountSplits(rows, c, left, field);
      CountSplits(rows, c, right, field);
      OutsideRows(rows, c);
      forall other | other in categories - {c}
        ensures InCategory(rest, other) == InCategory(rows, other)
      {
        InAnotherCategory(rows, c, other);
      }
      CategoriesAddUp(rest, categories - {c}, left, right, field);
    } else {
      assert forall k :: 0 <= k < |rows| ==> rows[k] in rows;
    }
  }

  function EntriesIn(entries: seq<Entry>, category: string): nat {
    if entries == [] then 0
    else
      var n := |entries| - 1;
      EntriesIn(entries[..n], category) + One(entries[n].category == category)
  }

  lemma {:induction false} InCategoryConcat(a: seq<Tagged>, b: seq<Tagged>, category: string)
    ensures InCategory(a + b, category) == InCategory(a, category) + InCategory(b, category)
    decreases |b|
  {
    if b == [] {
      assert a + b == a;
    } else {
      InCategoryConcat(a, b[..|b| - 1], category);
      assert (a + b)[..|a + b| - 1] == a + b[..|b| - 1];
    }
  }

  lemma {:induction false} TaggedAlike(rows: seq<Item>, tag: string, category: string)
    ensures InCategory(Tag(tag, rows), category) == if tag == category then Tag(tag, rows) else []
    decreases |rows|
  {
    if rows != [] {
      var n := |rows| - 1;
      TaggedAlike(rows[..n], tag, category);
      assert Tag(tag, rows)[..n] == Tag(tag, rows[..n]);
      assert Tag(tag, rows) == Tag(tag, rows[..n]) + [Tagged(tag, rows[n])];
    }
  }

  lemma {:induction false} RunsOfLast(entries: seq<Entry>, agent: string, category: string)
    requires entries != []
    ensures var e := entries[|entries| - 1];
      Count(InCategory(Flat(entries), category), agent, Run)
        == Count(InCategory(Flat(entries[..|entries| - 1]), category), agent, Run)
          + if e.category == category then Count(Tag(e.category, e.rows), agent, Run) else 0
  {
    var n := |entries| - 1;
    var e := entries[n];
    var mine := Tag(e.category, e.rows);
    InCategoryConcat(Flat(entries[..n]), mine, category);
    TaggedAlike(e.rows, e.category, category);
    CountConcat(InCategory(Flat(entries[..n]), category), InCategory(mine, category), agent, Run);
  }

  /** In a category an agent that is in every group has one run a group. */
  lemma {:induction false} RunsInCategory(entries: seq<Entry>, agent: string, category: string)
    requires WellTaken(entries) && Complete(entries, agent) && Strip(agent) == agent
    ensures Count(InCategory(Flat(entries), category), agent, Run) == EntriesIn(entries, category)
    decreases |entries|
  {
    if entries != [] {
      var n := |entries| - 1;
      RunsInCategory(entries[..n], agent, category);
      RunsOfLast(entries, agent, category);
      assert entries[n] in entries;
      CountOfFound(entries[n].category, entries[n].rows, agent, Run);
    }
  }

  lemma {:induction false} FlatCategories(entries: seq<Entry>, r: Tagged)
    requires r in Flat(entries)
    ensures r.category in Categories(entries)
    decreases |entries|
  {
    var n := |entries| - 1;
    assert entries == entries[..n] + [entries[n]];
    assert entries[n] in entries;
    if r in Flat(entries[..n]) {
      FlatCategories(entries[..n], r);
    }
  }

  lemma {:induction false} RatioOrder(a: nat, b: nat, whole: nat, ifEmpty: real)
    requires whole > 0
    ensures Ratio(a, whole, ifEmpty) <= Ratio(b, whole, ifEmpty) <==> a <= b
  {
    var w := whole as real;
    if a <= b {
      assert (b as real - a as real) / w >= 0.0;
    } else {
      assert (a as real - b as real) / w > 0.0;
    }
  }

  /** The false-success comparison for one category. */
  predicate CategoryNoWorse(t: Thresholds, rows: seq<Tagged>, category: string) {
    InCategory(rows, category) != [] ==>
      FalseRate(InCategory(rows, category), t.nexus) <= FalseRate(InCategory(rows, category), t.claude)
  }

  /** If every category that occurs is required, the comparisons by category imply the aggregate one. */
  lemma {:induction false} CategoriesImplyAggregate(t: Thresholds, entries: seq<Entry>)
    requires WellTaken(entries) && Complete(entries, t.nexus) && Complete(entries, t.claude)
    requires Strip(t.nexus) == t.nexus && Strip(t.claude) == t.claude
    requires forall c :: c in Categories(entries) ==> c in t.categories
    requires forall c :: c in t.categories ==> CategoryNoWorse(t, Flat(entries), c)
    ensures FalseRate(Flat(entries), t.nexus) <= FalseRate(Flat(entries), t.claude)
  {
    var rows := Flat(entries);
    forall r | r in rows
      ensures r.category in Categories(entries)
    {
      FlatCategories(entries, r);
    }
    forall c | c in Categories(entries)
      ensures Count(InCategory(rows, c), t.nexus, FalseSuccess) <= Count(InCategory(rows, c), t.claude, FalseSuccess)
    {
      var here := InCategory(rows, c);
      RunsInCategory(entries, t.nexus, c);
      RunsInCategory(entries, t.claude, c);
      assert CategoryNoWorse(t, rows, c);
      SomeIn(entries, c);
      RatioOrder(Count(here, t.nexus, FalseSuccess), Count(here, t.claude, FalseSuccess), EntriesIn(entries, c), 1.0);
    }
    CategoriesAddUp(rows, Categories(entries), t.nexus, t.claude, FalseSuccess);
    RunsMatchIff(entries, t.nexus);
    RunsMatchIff(entries, t.claude);
    if entries != [] {
      RatioOrder(Count(rows, t.nexus, FalseSuccess), Count(rows, t.claude, FalseSuccess), |entries|, 1.0);
    }
  }

  lemma {:induction false} SomeIn(entries: seq<Entry>, category: string)
    requires category in Categories(entries)
    ensures EntriesIn(entries, category) > 0
    decreases |entries|
  {
    var n := |entries| - 1;
    assert entries == entries[..n] + [entries[n]];
    if entries[n].category != category {
      SomeIn(entries[..n], category);
    }
  }

  lemma {:induction false} FlatOfOne(e: Entry)
    ensures Flat([e]) == Tag(e.category, e.rows)
  {
    assert [e][..0] == [];
    assert Flat([e][..0]) == [];
  }

  /** And a category that is not required can hide a worse agent from all of these comparisons. */
  lemma {:induction false} UnrequiredCategoryHides(t: Thresholds, category: string) returns (entries: seq<Entry>)
    requires category !in t.categories
    requires t.nexus != t.claude && Strip(t.nexus) == t.nexus && Strip(t.claude) == t.claude
    ensures WellTaken(entries) && Complete(entries, t.nexus) && Complete(entries, t.claude)
    ensures forall c :: c in t.categories ==> CategoryNoWorse(t, Flat(entries), c)
    ensures FalseRate(Flat(entries), t.nexus) > FalseRate(Flat(entries), t.claude)
  {
    var bad := Item(t.nexus, true, true, false, true, false);
    var good := Item(t.claude, true, true, false, false, false);
    var e := Entry("task", 1, category, [bad, good]);
    entries := [e];
    assert bad in e.rows && good in e.rows;
    var rows := Tag(category, e.rows);
    FlatOfOne(e);
    forall c | c in t.categories
      ensures InCategory(rows, c) == []
    {
      TaggedAlike(e.rows, category, c);
    }
    assert HasExact(e.rows, t.nexus) && HasExact(e.rows, t.claude);
    CountOfFound(category, e.rows, t.nexus, FalseSuccess);
    CountOfFound(category, e.rows, t.nexus, Run);
    CountOfFound(category, e.rows, t.claude, FalseSuccess);
    CountOfFound(category, e.rows, t.claude, Run);
    ExactIsFound(e.rows, t.nexus, bad);
    ExactIsFound(e.rows, t.claude, good);
  }

  /** Rounding goes to the nearest multiple of a millionth, from the middle to the even one. */
  lemma {:induction false} RoundedIsNearest(x: real) returns (k: int)
    ensures Rounded(x) == k as real / 1000000.0
    ensures k as real - 0.5 <= x * 1000000.0 <= k as real + 0.5
    ensures x * 1000000.0 in {k as real - 0.5, k as real + 0.5} ==> k % 2 == 0
  {
    var scaled := x * 1000000.0;
    var down := scaled.Floor;
    var rest := scaled - down as real;
    k := if rest > 0.5 || (rest == 0.5 && down % 2 != 0) then down + 1 else down;
  }

  /** The category margin is rounded before it is compared, so the gate lets slightly smaller ones through. */
  lemma {:induction false} CategoryMarginIsRounded(margin: real)
    ensures Rounded(margin) >= 0.02 <==> margin >= 0.0199995
  {
    var scaled := margin * 1000000.0;
    var down := scaled.Floor;
    var rest := scaled - down as real;
    assert scaled >= 19999.5 <==> down >= 20000 || (down == 19999 && rest >= 0.5);
  }

  // ----- The gate as it runs -----

  lemma {:induction false} SetsOfSnoc(entries: seq<Entry>, e: Entry)
    ensures var all := entries + [e];
      && Tasks(all) == Tasks(entries) + {e.task}
      && Categories(all) == Categories(entries) + {e.category}
      && (forall c :: TasksIn(all, c) == TasksIn(entries, c) + if c == e.category then {e.task} else {})
      && (forall task :: TrialsOf(all, task) == TrialsOf(entries, task) + if task == e.task then {e.trial} else {})
  {
    var all := entries + [e];
    assert forall x :: x in all <==> x in entries || x == e;
  }

  lemma {:induction false} FlatSnoc(entries: seq<Entry>, e: Entry)
    ensures Flat(entries + [e]) == Flat(entries) + Tag(e.category, e.rows)
  {
    assert (entries + [e])[..|entries|] == entries;
  }

  lemma {:induction false} KeptOneMore(task: string, trial: int, results: seq<Item>, k: nat)
    requires k < |results|
    ensures var name, before := Strip(results[k].agent), Kept(results[..k]);
      && Kept(results[..k + 1]) == (if HasName(before, name) then before else before + [results[k]])
      && Duplicates(task, trial, results[..k + 1]) == Duplicates(task, trial, results[..k])
           + if HasName(before, name) then [DuplicateAgent(task, trial, name)] else []
  {
    assert results[..k + 1][..k] == results[..k];
  }

  /** The results of one group: those kept, and the duplicates reported. */
  method KeepResults(g: Group) returns (rows: seq<Item>, failures: seq<Failure>)
    ensures rows == Kept(g.results) && failures == Duplicates(Strip(g.task), g.trial, g.results)
  {
    rows, failures := [], [];
    for k := 0 to |g.results|
      invariant rows == Kept(g.results[..k])
      invariant failures == Duplicates(Strip(g.task), g.trial, g.results[..k])
    {
      var item := g.results[k];
      KeptOneMore(Strip(g.task), g.trial, g.results, k);
      if HasName(rows, Strip(item.agent)) {
        failures := failures + [DuplicateAgent(Strip(g.task), g.trial, Strip(item.agent))];
      } else {
        rows := rows + [item];
      }
    }
    assert g.results[..|g.results|] == g.results;
  }

  method ReportAbsent(t: Thresholds, g: Group, rows: seq<Item>) returns (failures: seq<Failure>)
    ensures failures == Absent(Strip(g.task), g.trial, rows, t.Agents())
  {
    failures := [];
    var agents := t.Agents();
    for k := 0 to |agents|
      invariant failures == Absent(Strip(g.task), g.trial, rows, agents[..k])
    {
      assert agents[..k + 1][..k] == agents[..k];
      if !HasName(rows, agents[k]) {
        failures := failures + [MissingAgent(Strip(g.task), g.trial, agents[k])];
      }
    }
    assert agents[..|agents|] == agents;
  }

  /** What the intake loop has gathered: the results in one list, and who was seen where. */
  datatype Gathered = Gathered(
    intake: Intake, rows: seq<Tagged>, tasks: set<string>, categories: set<string>,
    categoryTasks: map<string, set<string>>, trialsByTask: map<string, set<int>>)

  ghost predicate ByCategory(m: map<string, set<string>>, entries: seq<Entry>) {
    && m.Keys == Categories(entries)
    && forall c :: c in m ==> m[c] == TasksIn(entries, c)
  }

  ghost predicate ByTask(m: map<string, set<int>>, entries: seq<Entry>) {
    && m.Keys == Tasks(entries)
    && forall task :: task in m ==> m[task] == TrialsOf(entries, task)
  }

  ghost predicate Faithful(g: Gathered) {
    var entries := g.intake.entries;
    && g.rows == Flat(entries)
    && g.tasks == Tasks(entries)
    && g.categories == Categories(entries)
    && ByCategory(g.categoryTasks, entries)
    && ByTask(g.trialsByTask, entries)
  }

  /** `defaultdict(set)`: adds a value to the set under a key. */
  function Added<T>(m: map<string, set<T>>, key: string, value: T): map<string, set<T>> {
    m[key := (if key in m then m[key] else {}) + {value}]
  }

  function Gather(g: Gathered, e: Entry): Gathered {
    Gathered(
      g.intake.(entries := g.intake.entries + [e]),
      g.rows + Tag(e.category, e.rows),
      g.tasks + {e.task},
      g.categories + {e.category},
      Added(g.categoryTasks, e.category, e.task),
      Added(g.trialsByTask, e.task, e.trial))
  }

  lemma {:induction false} ByCategorySnoc(m: map<string, set<string>>, entries: seq<Entry>, e: Entry)
    requires ByCategory(m, entries)
    ensures ByCategory(Added(m, e.category, e.task), entries + [e])
  {
    SetsOfSnoc(entries, e);
    if e.category !in m {
      assert TasksIn(entries, e.category) == {};
    }
  }

  lemma {:induction false} ByTaskSnoc(m: map<string, set<int>>, entries: seq<Entry>, e: Entry)
    requires ByTask(m, entries)
    ensures ByTask(Added(m, e.task, e.trial), entries + [e])
  {
    SetsOfSnoc(entries, e);
    if e.task !in m {
      assert TrialsOf(entries, e.task) == {};
    }
  }

  lemma {:induction false} GatherIsFaithful(g: Gathered, e: Entry)
    requires Faithful(g)
    ensures Faithful(Gather(g, e))
  {
    var entries := g.intake.entries;
    SetsOfSnoc(entries, e);
    FlatSnoc(entries, e);
    ByCategorySnoc(g.categoryTasks, entries, e);
    ByTaskSnoc(g.trialsByTask, entries, e);
  }

  /** The loop over the reported groups. */
  method GatherGroups(t: Thresholds, groups: seq<Group>) returns (g: Gathered)
    ensures g.intake == TakeIn(t, groups) && Faithful(g)
  {
    g := Gathered(Intake([], []), [], {}, {}, map[], map[]);
    for k := 0 to |groups|
      invariant g.intake == TakeIn(t, groups[..k]) && Faithful(g)
    {
      assert groups[..k + 1][..k] == groups[..k];
      var group := groups[k];
      var task := Strip(group.task);
      var failures := g.intake.failures;
      if task == "" || group.trial <= 0 {
        g := g.(intake := g.intake.(failures := failures + [InvalidGroup]));
      } else if Seen(g.intake.entries, task, group.trial) {
        g := g.(intake := g.intake.(failures := failures + [DuplicateTrial(task, group.trial)]));
      } else {
        var rows, duplicates := KeepResults(group);
        var absent := ReportAbsent(t, group, rows);
        GatherIsFaithful(g, Entry(task, group.trial, Strip(group.category), rows));
        g := Gather(g, Entry(task, group.trial, Strip(group.category), rows));
        g := g.(intake := g.intake.(failures := failures + duplicates + absent));
      }
    }
    assert groups[..|groups|] == groups;
  }

  /** The checks on tasks, categories and trials. */
  method CheckCoverage(t: Thresholds, g: Gathered) returns (failures: seq<Failure>)
    requires Faithful(g)
    ensures failures == [] <==> Covered(t, g.intake.entries)
  {
    failures := When(|g.tasks| < t.minimumTasks, UniqueTasks);
    if exists c :: c in t.categories && c !in g.categories {
      failures := failures + [MissingCategories];
    }
    ghost var earlier := failures;
    for k := 0 to |t.categories|
      invariant failures == [] <==>
        earlier == [] && forall j :: 0 <= j < k ==>
          |TasksIn(g.intake.entries, t.categories[j])| >= t.minimumTasksPerCategory
    {
      var c := t.categories[k];
      if c !in Categories(g.intake.entries) {
        assert TasksIn(g.intake.entries, c) == {};
      }
      var count := if c in g.categoryTasks then |g.categoryTasks[c]| else 0;
      if count < t.minimumTasksPerCategory {
        failures := failures + [CategoryTasks(c)];
      }
    }
    if exists task :: task in g.trialsByTask && |g.trialsByTask[task]| < t.minimumTrials {
      failures := failures + [IncompleteTrials];
    }
  }

  method CheckAgents(t: Thresholds, rows: seq<Tagged>, expected: nat) returns (failures: seq<Failure>)
    ensures failures == [] <==> forall a :: a in t.Agents() ==> AgentRan(rows, a, expected)
  {
    failures := [];
    var agents := t.Agents();
    for k := 0 to |agents|
      invariant failures == [] <==> forall j :: 0 <= j < k ==> AgentRan(rows, agents[j], expected)
    {
      var more := CheckAgent(rows, agents[k], expected);
      failures := failures + more;
    }
  }

  method CheckAgent(rows: seq<Tagged>, a: string, expected: nat) returns (failures: seq<Failure>)
    ensures failures == [] <==> AgentRan(rows, a, expected)
  {
    var runs := Count(rows, a, Run);
    failures := When(runs != expected, AgentRuns(a))
      + When(Count(rows, a, Available) != runs, AgentUnavailable(a))
      + When(Count(rows, a, Completed) != runs, AgentIncomplete(a));
  }

  method PairedOutcomes(t: Thresholds, entries: seq<Entry>) returns (p: Outcomes)
    ensures p == Paired(t, entries)
  {
    var wins: nat, losses: nat, ties: nat := 0, 0, 0;
    for k := 0 to |entries|
      invariant Outcomes(wins, losses, ties) == Paired(t, entries[..k])
    {
      assert entries[..k + 1][..k] == entries[..k];
      var nexus, claude := Result(entries[k].rows, t.nexus), Result(entries[k].rows, t.claude);
      if nexus.None? || claude.None? {
        continue;
      }
      if nexus.value.verified && !claude.value.verified {
        wins := wins + 1;
      } else if claude.value.verified && !nexus.value.verified {
        losses := losses + 1;
      } else {
        ties := ties + 1;
      }
    }
    assert entries[..|entries|] == entries;
    p := Outcomes(wins, losses, ties);
  }

  method CheckGates(t: Thresholds, rows: seq<Tagged>, p: Outcomes) returns (failures: seq<Failure>)
    ensures failures == [] <==> GatesPass(t, rows, p)
  {
    var rate, claudeRate := VerifiedRate(rows, t.nexus), VerifiedRate(rows, t.claude);
    var falseRate, unexpected := FalseRate(rows, t.nexus), UnexpectedChangeRate(rows, t.nexus);
    failures := When(rate < t.minimumRate, NexusRate)
      + When(rate - claudeRate < t.minimumMargin, ClaudeMargin)
      + When(UpliftBelow(t, rows), DirectUplift)
      + When(p.wins - p.losses < t.minimumNetWins, PairedNetWins)
      + When(falseRate > t.maximumFalseRate, FalseSuccessRate)
      + When(falseRate > FalseRate(rows, t.claude), FalseSuccessWorse)
      + When(unexpected > t.maximumUnexpectedRate, UnexpectedRate)
      + When(unexpected > UnexpectedChangeRate(rows, t.claude), UnexpectedWorse);
  }

  method CheckCategories(t: Thresholds, rows: seq<Tagged>) returns (failures: seq<Failure>)
    ensures failures == [] <==> forall c :: c in t.categories ==> CategoryPasses(t, rows, c)
  {
    failures := [];
    for k := 0 to |t.categories|
      invariant failures == [] <==> forall j :: 0 <= j < k ==> CategoryPasses(t, rows, t.categories[j])
    {
      var more := CheckCategory(t, rows, t.categories[k]);
      failures := failures + more;
    }
  }

  method CheckCategory(t: Thresholds, rows: seq<Tagged>, c: string) returns (failures: seq<Failure>)
    ensures failures == [] <==> CategoryPasses(t, rows, c)
  {
    var here := InCategory(rows, c);
    if here == [] {
      return [];
    }
    var rate, margin := VerifiedRate(here, t.nexus), VerifiedRate(here, t.nexus) - VerifiedRate(here, t.claude);
    failures := When(rate < t.minimumCategoryRate, CategoryRate(c))
      + When(Rounded(margin) < t.minimumCategoryMargin, CategoryMargin(c))
      + When(FalseRate(here, t.nexus) > FalseRate(here, t.claude), CategoryFalseWorse(c))
      + When(
        UnexpectedChangeRate(here, t.nexus) > UnexpectedChangeRate(here, t.claude), CategoryUnexpectedWorse(c));
  }

  /** `evaluate_superiority_report`: the report is qualified exactly if nothing was found against it. */
  method EvaluateSuperiorityReport(t: Thresholds, groups: seq<Group>, others: seq<string>)
    returns (qualified: bool, failures: seq<Failure>, paired: Outcomes)
    ensures qualified <==> Qualifies(t, groups, others)
    ensures qualified <==> failures == [] && others == []
    ensures paired == Paired(t, TakeIn(t, groups).entries)
  {
    var g := GatherGroups(t, groups);
    IntakeCleanIff(t, groups);
    var entries := g.intake.entries;
    var coverage := CheckCoverage(t, g);
    var agents := CheckAgents(t, g.rows, |entries|);
    paired := PairedOutcomes(t, entries);
    var gates := CheckGates(t, g.rows, paired);
    var categories := CheckCategories(t, g.rows);
    failures := g.intake.failures + coverage + agents + gates + categories;
    qualified := failures == [] && others == [];
  }
}
