/** What a qualified report says of the results as they were reported, without the tables and rates the gate
    computes from them. */
module ReportedRuns {
  import opened Qualification
  import opened Whitespace

  // ----- Groups by what is reported in them -----

  ghost predicate Verifies(g: Group, agent: string) {
    exists r :: r in g.results && r.agent == agent && r.verified
  }

  ghost predicate ClaimsFalsely(g: Group, agent: string) {
    exists r :: r in g.results && r.agent == agent && r.falseSuccess
  }

  ghost predicate ChangesMore(g: Group, agent: string) {
    exists r :: r in g.results && r.agent == agent && r.unexpected
  }

  ghost function HowMany(groups: seq<Group>, p: Group -> bool): (n: nat)
    ensures n <= |groups|
  {
    if groups == [] then 0 else HowMany(groups[..|groups| - 1], p) + One(p(groups[|groups| - 1]))
  }

  function OfCategory(groups: seq<Group>, category: string): seq<Group> {
    if groups == [] then []
    else
      var n := |groups| - 1;
      OfCategory(groups[..n], category) + if Strip(groups[n].category) == category then [groups[n]] else []
  }

  /** How many of the groups the agent has verified. */
  ghost function VerifiedIn(groups: seq<Group>, agent: string): nat {
    HowMany(groups, (g: Group) => Verifies(g, agent))
  }

  /** In how many of them the agent claims a success that is none. */
  ghost function FalseIn(groups: seq<Group>, agent: string): nat {
    HowMany(groups, (g: Group) => ClaimsFalsely(g, agent))
  }

  /** In how many of them it changed what it was not to change. */
  ghost function UnexpectedIn(groups: seq<Group>, agent: string): nat {
    HowMany(groups, (g: Group) => ChangesMore(g, agent))
  }

  /** Every result of the agent is spelt like it, available and completed. */
  ghost predicate Runs(groups: seq<Group>, agent: string) {
    forall g, r :: g in groups && r in g.results && Strip(r.agent) == agent ==>
      r.agent == agent && r.available && r.completed
  }

  /** The rates the gate asks for by default. */
  predicate DefaultRates(t: Thresholds) {
    && t.minimumRate == 0.75 && t.minimumMargin == 0.05 && t.minimumUplift == 1.25
    && t.minimumCategoryRate == 0.6 && t.minimumCategoryMargin == 0.02
    && t.maximumFalseRate == 0.01 && t.maximumUnexpectedRate == 0.0
  }

  /** Three quarters verified, a twentieth more than the competitor, a quarter more than the model alone; false claims
      in a hundredth at most, and no more than the competitor's; nothing changed that was not to be changed. */
  ghost predicate Leads(t: Thresholds, groups: seq<Group>) {
    var n := |groups|;
    var nexus, claude, alone :=
      VerifiedIn(groups, t.nexus), VerifiedIn(groups, t.claude), VerifiedIn(groups, t.baseline);
    && 4 * nexus >= 3 * n
    && 20 * (nexus - claude) >= n && nexus - claude >= t.minimumNetWins
    && (if alone == 0 then nexus > 0 else 4 * nexus >= 5 * alone)
    && 100 * FalseIn(groups, t.nexus) <= n
    && FalseIn(groups, t.nexus) <= FalseIn(groups, t.claude)
    && UnexpectedIn(groups, t.nexus) == 0
  }

  /** In the groups of one category: three fifths verified, a fiftieth more than the competitor up to rounding, and no
      more harm. */
  ghost predicate LeadsIn(t: Thresholds, here: seq<Group>) {
    var nexus, claude := VerifiedIn(here, t.nexus), VerifiedIn(here, t.claude);
    here != [] ==>
      && 5 * nexus >= 3 * |here|
      && 10000000 * (nexus - claude) >= 199995 * |here|
      && FalseIn(here, t.nexus) <= FalseIn(here, t.claude)
      && UnexpectedIn(here, t.nexus) <= UnexpectedIn(here, t.claude)
  }

  /** Enough tasks, at least one and enough of them in every required category, and enough trials of each. */
  ghost predicate CoversEnough(t: Thresholds, groups: seq<Group>) {
    && |TasksOf(groups)| >= t.minimumTasks
    && (forall c :: c in t.categories ==>
         TasksOfCategory(groups, c) != {} && |TasksOfCategory(groups, c)| >= t.minimumTasksPerCategory)
    && (forall task :: task in TasksOf(groups) ==> |TrialsOfTask(groups, task)| >= t.minimumTrials)
  }

  // ----- Counts are numbers of groups -----

  ghost predicate ItemHas(results: seq<Item>, agent: string, field: Field) {
    exists r :: r in results && r.agent == agent && Has(r, field)
  }

  /** Groups that were taken in whole, each with distinct names. */
  ghost predicate Taken(groups: seq<Group>, entries: seq<Entry>) {
    && |entries| == |groups|
    && forall k :: 0 <= k < |groups| ==> entries[k] == EntryOf(groups[k]) && DistinctNames(groups[k].results)
  }

  lemma {:induction false} CountOfLast(entries: seq<Entry>, agent: string, field: Field)
    requires entries != [] && DistinctNames(entries[|entries| - 1].rows)
    ensures var n := |entries| - 1;
      Count(Flat(entries), agent, field)
      == Count(Flat(entries[..n]), agent, field) + One(ItemHas(entries[n].rows, agent, field))
  {
    var n := |entries| - 1;
    var e := entries[n];
    CountInEntry(e.category, e.rows, agent, field);
    CountConcat(Flat(entries[..n]), Tag(e.category, e.rows), agent, field);
  }

  lemma {:induction false} CountOfLastHere(entries: seq<Entry>, agent: string, field: Field, category: string)
    requires entries != [] && DistinctNames(entries[|entries| - 1].rows)
    ensures var n := |entries| - 1;
      Count(InCategory(Flat(entries), category), agent, field)
      == Count(InCategory(Flat(entries[..n]), category), agent, field)
         + One(entries[n].category == category && ItemHas(entries[n].rows, agent, field))
  {
    var n := |entries| - 1;
    var e := entries[n];
    var mine := Tag(e.category, e.rows);
    CountInEntry(e.category, e.rows, agent, field);
    InCategoryConcat(Flat(entries[..n]), mine, category);
    TaggedAlike(e.rows, e.category, category);
    CountConcat(InCategory(Flat(entries[..n]), category), InCategory(mine, category), agent, field);
  }

  /** Each group with the field counts once. */
  lemma {:induction false} CountIsHowMany(
      groups: seq<Group>, entries: seq<Entry>, agent: string, field: Field, p: Group -> bool)
    requires Taken(groups, entries) && forall g :: g in groups ==> (p(g) <==> ItemHas(g.results, agent, field))
    ensures Count(Flat(entries), agent, field) == HowMany(groups, p)
    decreases |groups|
  {
    if groups != [] {
      var n := |groups| - 1;
      assert groups[n] in groups && forall g :: g in groups[..n] ==> g in groups;
      CountIsHowMany(groups[..n], entries[..n], agent, field, p);
      CountOfLast(entries, agent, field);
    }
  }

  lemma {:induction false} HowManySnoc(groups: seq<Group>, g: Group, p: Group -> bool)
    ensures HowMany(groups + [g], p) == HowMany(groups, p) + One(p(g))
  {
    assert (groups + [g])[..|groups|] == groups;
  }

  lemma {:induction false} HowManyHere(groups: seq<Group>, category: string, p: Group -> bool)
    requires groups != []
    ensures var n := |groups| - 1;
      HowMany(OfCategory(groups, category), p)
      == HowMany(OfCategory(groups[..n], category), p) + One(Strip(groups[n].category) == category && p(groups[n]))
  {
    var n := |groups| - 1;
    var before := OfCategory(groups[..n], category);
    HowManySnoc(before, groups[n], p);
    assert before + [] == before;
  }

  lemma {:induction false} CountIsHowManyHere(
      groups: seq<Group>, entries: seq<Entry>, agent: string, field: Field, category: string, p: Group -> bool)
    requires Taken(groups, entries) && forall g :: g in groups ==> (p(g) <==> ItemHas(g.results, agent, field))
    ensures Count(InCategory(Flat(entries), category), agent, field) == HowMany(OfCategory(groups, category), p)
    decreases |groups|
  {
    if groups != [] {
      var n := |groups| - 1;
      assert groups[n] in groups && forall g :: g in groups[..n] ==> g in groups;
      CountIsHowManyHere(groups[..n], entries[..n], agent, field, category, p);
      CountOfLastHere(entries, agent, field, category);
      HowManyHere(groups, category, p);
    }
  }

  lemma {:induction false} AllOrNone(groups: seq<Group>, p: Group -> bool)
    ensures HowMany(groups, p) == |groups| <==> forall g :: g in groups ==> p(g)
    ensures HowMany(groups, p) == 0 <==> forall g :: g in groups ==> !p(g)
    decreases |groups|
  {
    if groups != [] {
      var n := |groups| - 1;
      assert groups == groups[..n] + [groups[n]];
      AllOrNone(groups[..n], p);
    }
  }

  // ----- Runs and changes -----

  /** Every group has a result spelt like the agent. */
  ghost predicate Present(groups: seq<Group>, agent: string) {
    Strip(agent) == agent && forall g :: g in groups ==> HasExact(g.results, agent)
  }

  lemma {:induction false} RunsAreGroups(groups: seq<Group>, entries: seq<Entry>, agent: string, category: string)
    requires Taken(groups, entries) && Present(groups, agent)
    ensures Count(Flat(entries), agent, Run) == |groups|
    ensures Count(InCategory(Flat(entries), category), agent, Run) == |OfCategory(groups, category)|
  {
    forall g | g in groups
      ensures ItemHas(g.results, agent, Run)
    {
      var r :| r in g.results && r.agent == agent;
      assert Has(r, Run);
    }
    var always := (g: Group) => true;
    CountIsHowMany(groups, entries, agent, Run, always);
    CountIsHowManyHere(groups, entries, agent, Run, category, always);
    AllOrNone(groups, always);
    AllOrNone(OfCategory(groups, category), always);
  }

  /** In a group with one result of the agent, some has the field exactly if all have. */
  lemma {:induction false} OneOrAll(results: seq<Item>, agent: string, field: Field)
    requires DistinctNames(results) && HasExact(results, agent) && Strip(agent) == agent
    ensures ItemHas(results, agent, field) <==> forall r :: r in results && r.agent == agent ==> Has(r, field)
    ensures forall r :: r in results && Strip(r.agent) == agent ==> r.agent == agent
  {
    var r :| r in results && r.agent == agent;
    ExactIsFound(results, agent, r);
    forall other | other in results && other.agent == agent
      ensures other == r
    {
      ExactIsFound(results, agent, other);
    }
    ExactIsOnly(results, agent);
  }

  lemma {:induction false} FieldInAllOrNone(groups: seq<Group>, entries: seq<Entry>, agent: string, field: Field)
    requires Taken(groups, entries) && Present(groups, agent)
    ensures Count(Flat(entries), agent, field) == |groups| <==>
      forall g, r :: g in groups && r in g.results && r.agent == agent ==> Has(r, field)
    ensures Count(Flat(entries), agent, field) == 0 <==>
      forall g, r :: g in groups && r in g.results && r.agent == agent ==> !Has(r, field)
  {
    var has := (g: Group) => ItemHas(g.results, agent, field);
    CountIsHowMany(groups, entries, agent, field, has);
    AllOrNone(groups, has);
    forall g | g in groups
      ensures has(g) <==> forall r :: r in g.results && r.agent == agent ==> Has(r, field)
    {
      var k :| 0 <= k < |groups| && groups[k] == g;
      OneOrAll(g.results, agent, field);
    }
  }

  lemma {:induction false} RanIffRuns(groups: seq<Group>, entries: seq<Entry>, agent: string)
    requires Taken(groups, entries) && Present(groups, agent)
    ensures AgentRan(Flat(entries), agent, |groups|) <==> Runs(groups, agent)
  {
    RunsAreGroups(groups, entries, agent, "");
    FieldInAllOrNone(groups, entries, agent, Available);
    FieldInAllOrNone(groups, entries, agent, Completed);
    forall g, r | g in groups && r in g.results && Strip(r.agent) == agent
      ensures r.agent == agent
    {
      var k :| 0 <= k < |groups| && groups[k] == g;
      OneOrAll(g.results, agent, Run);
    }
    assert forall r: Item :: Has(r, Available) == r.available && Has(r, Completed) == r.completed;
  }

  // ----- Rates are shares of the groups -----

  /** The rates a gate compares, in numbers of groups. */
  ghost predicate InNumbers(rows: seq<Tagged>, groups: seq<Group>, agent: string) {
    && Count(rows, agent, Run) == |groups|
    && Count(rows, agent, Verified) == VerifiedIn(groups, agent)
    && Count(rows, agent, FalseSuccess) == FalseIn(groups, agent)
    && Count(rows, agent, Unexpected) == UnexpectedIn(groups, agent)
  }

  lemma {:induction false} VerifiedInNumbers(groups: seq<Group>, entries: seq<Entry>, agent: string, category: string)
    requires Taken(groups, entries)
    ensures Count(Flat(entries), agent, Verified) == VerifiedIn(groups, agent)
    ensures Count(InCategory(Flat(entries), category), agent, Verified)
         == VerifiedIn(OfCategory(groups, category), agent)
  {
    var p := (g: Group) => Verifies(g, agent);
    assert forall r: Item :: Has(r, Verified) == r.verified;
    CountIsHowMany(groups, entries, agent, Verified, p);
    CountIsHowManyHere(groups, entries, agent, Verified, category, p);
  }

  lemma {:induction false} FalseInNumbers(groups: seq<Group>, entries: seq<Entry>, agent: string, category: string)
    requires Taken(groups, entries)
    ensures Count(Flat(entries), agent, FalseSuccess) == FalseIn(groups, agent)
    ensures Count(InCategory(Flat(entries), category), agent, FalseSuccess)
         == FalseIn(OfCategory(groups, category), agent)
  {
    var p := (g: Group) => ClaimsFalsely(g, agent);
    assert forall r: Item :: Has(r, FalseSuccess) == r.falseSuccess;
    CountIsHowMany(groups, entries, agent, FalseSuccess, p);
    CountIsHowManyHere(groups, entries, agent, FalseSuccess, category, p);
  }

  lemma {:induction false} UnexpectedInNumbers(groups: seq<Group>, entries: seq<Entry>, agent: string, category: string)
    requires Taken(groups, entries)
    ensures Count(Flat(entries), agent, Unexpected) == UnexpectedIn(groups, agent)
    ensures Count(InCategory(Flat(entries), category), agent, Unexpected)
         == UnexpectedIn(OfCategory(groups, category), agent)
  {
    var p := (g: Group) => ChangesMore(g, agent);
    assert forall r: Item :: Has(r, Unexpected) == r.unexpected;
    CountIsHowMany(groups, entries, agent, Unexpected, p);
    CountIsHowManyHere(groups, entries, agent, Unexpected, category, p);
  }

  lemma {:induction false} AllInNumbers(groups: seq<Group>, entries: seq<Entry>, agent: string, category: string)
    requires Taken(groups, entries) && Present(groups, agent)
    ensures InNumbers(Flat(entries), groups, agent)
    ensures InNumbers(InCategory(Flat(entries), category), OfCategory(groups, category), agent)
  {
    RunsAreGroups(groups, entries, agent, category);
    VerifiedInNumbers(groups, entries, agent, category);
    FalseInNumbers(groups, entries, agent, category);
    UnexpectedInNumbers(groups, entries, agent, category);
  }

  lemma {:induction false} RatioAtLeast(a: nat, whole: nat, ifEmpty: real, x: real)
    requires whole > 0
    ensures Ratio(a, whole, ifEmpty) >= x <==> a as real >= x * whole as real
    ensures Ratio(a, whole, ifEmpty) <= x <==> a as real <= x * whole as real
  {
    var w, q := whole as real, a as real / whole as real;
    assert q * w == a as real;
    assert q >= x <==> q * w >= x * w;
    assert q <= x <==> q * w <= x * w;
  }

  lemma {:induction false} MarginAtLeast(a: nat, b: nat, whole: nat, x: real)
    requires whole > 0
    ensures Ratio(a, whole, 0.0) - Ratio(b, whole, 0.0) >= x <==> (a - b) as real >= x * whole as real
  {
    var w := whole as real;
    var q := a as real / w - b as real / w;
    assert q * w == a as real - b as real;
    assert q >= x <==> q * w >= x * w;
  }

  /** A ratio of two rates over the same runs is the ratio of the numbers. */
  lemma {:induction false} UpliftAtLeast(a: nat, b: nat, whole: nat, x: real)
    requires whole > 0 && b > 0
    ensures Ratio(b, whole, 0.0) != 0.0
    ensures Ratio(a, whole, 0.0) / Ratio(b, whole, 0.0) >= x <==> a as real >= x * b as real
  {
    var w := whole as real;
    var p, q := a as real / w, b as real / w;
    assert p * w == a as real && q * w == b as real && q > 0.0;
    var r := p / q;
    assert r * q == p;
    assert r * (b as real) == a as real by {
      assert r * (q * w) == (r * q) * w;
    }
    assert r >= x <==> r * (b as real) >= x * b as real;
  }

  /** The gates for the verified runs. */
  lemma {:induction false} VerifiedSharesIff(rows: seq<Tagged>, groups: seq<Group>, nexus: string, claude: string)
    requires groups != [] && InNumbers(rows, groups, nexus) && InNumbers(rows, groups, claude)
    ensures VerifiedRate(rows, nexus) >= 0.75 <==> 4 * VerifiedIn(groups, nexus) >= 3 * |groups|
    ensures VerifiedRate(rows, nexus) >= 0.6 <==> 5 * VerifiedIn(groups, nexus) >= 3 * |groups|
    ensures VerifiedRate(rows, nexus) - VerifiedRate(rows, claude) >= 0.05 <==>
      20 * (VerifiedIn(groups, nexus) - VerifiedIn(groups, claude)) >= |groups|
    ensures Rounded(VerifiedRate(rows, nexus) - VerifiedRate(rows, claude)) >= 0.02 <==>
      10000000 * (VerifiedIn(groups, nexus) - VerifiedIn(groups, claude)) >= 199995 * |groups|
  {
    var a, b := VerifiedIn(groups, nexus), VerifiedIn(groups, claude);
    RatioAtLeast(a, |groups|, 0.0, 0.75);
    RatioAtLeast(a, |groups|, 0.0, 0.6);
    MarginAtLeast(a, b, |groups|, 0.05);
    MarginAtLeast(a, b, |groups|, 0.0199995);
    CategoryMarginIsRounded(VerifiedRate(rows, nexus) - VerifiedRate(rows, claude));
  }

  lemma {:induction false} UpliftIff(t: Thresholds, rows: seq<Tagged>, groups: seq<Group>)
    requires groups != [] && InNumbers(rows, groups, t.nexus) && InNumbers(rows, groups, t.baseline)
    requires t.minimumUplift == 1.25
    ensures !UpliftBelow(t, rows) <==>
      var nexus, alone := VerifiedIn(groups, t.nexus), VerifiedIn(groups, t.baseline);
      if alone == 0 then nexus > 0 else 4 * nexus >= 5 * alone
  {
    var nexus, alone := VerifiedIn(groups, t.nexus), VerifiedIn(groups, t.baseline);
    if alone == 0 {
      RatioAtLeast(nexus, |groups|, 0.0, 0.0);
    } else {
      UpliftAtLeast(nexus, alone, |groups|, 1.25);
    }
  }

  /** The gates against harm. */
  lemma {:induction false} HarmSharesIff(rows: seq<Tagged>, groups: seq<Group>, nexus: string, claude: string)
    requires groups != [] && InNumbers(rows, groups, nexus) && InNumbers(rows, groups, claude)
    ensures FalseRate(rows, nexus) <= 0.01 <==> 100 * FalseIn(groups, nexus) <= |groups|
    ensures UnexpectedChangeRate(rows, nexus) <= 0.0 <==> UnexpectedIn(groups, nexus) == 0
    ensures FalseRate(rows, nexus) <= FalseRate(rows, claude) <==> FalseIn(groups, nexus) <= FalseIn(groups, claude)
    ensures UnexpectedChangeRate(rows, nexus) <= UnexpectedChangeRate(rows, claude) <==>
      UnexpectedIn(groups, nexus) <= UnexpectedIn(groups, claude)
  {
    var n := |groups|;
    RatioAtLeast(FalseIn(groups, nexus), n, 1.0, 0.01);
    RatioAtLeast(UnexpectedIn(groups, nexus), n, 1.0, 0.0);
    RatioOrder(FalseIn(groups, nexus), FalseIn(groups, claude), n, 1.0);
    RatioOrder(UnexpectedIn(groups, nexus), UnexpectedIn(groups, claude), n, 1.0);
  }

  lemma {:induction false} GatesIff(t: Thresholds, rows: seq<Tagged>, groups: seq<Group>, paired: Outcomes)
    requires groups != [] && DefaultRates(t)
    requires InNumbers(rows, groups, t.nexus) && InNumbers(rows, groups, t.claude)
    requires InNumbers(rows, groups, t.baseline)
    requires paired.wins - paired.losses == VerifiedIn(groups, t.nexus) - VerifiedIn(groups, t.claude)
    ensures GatesPass(t, rows, paired) <==> Leads(t, groups)
  {
    VerifiedSharesIff(rows, groups, t.nexus, t.claude);
    UpliftIff(t, rows, groups);
    HarmSharesIff(rows, groups, t.nexus, t.claude);
  }

  lemma {:induction false} CategoryGateIff(t: Thresholds, rows: seq<Tagged>, here: seq<Group>, category: string)
    requires DefaultRates(t)
    requires var mine := InCategory(rows, category);
      && (here == [] ==> mine == [])
      && InNumbers(mine, here, t.nexus) && InNumbers(mine, here, t.claude)
    ensures CategoryPasses(t, rows, category) <==> LeadsIn(t, here)
  {
    if here != [] {
      VerifiedSharesIff(InCategory(rows, category), here, t.nexus, t.claude);
      HarmSharesIff(InCategory(rows, category), here, t.nexus, t.claude);
    }
  }

  // ----- Coverage -----

  /** The entries are those of the groups. */
  ghost predicate Mirrors(groups: seq<Group>, entries: seq<Entry>) {
    && (forall g :: g in groups ==> EntryOf(g) in entries)
    && (forall e :: e in entries ==> exists g :: g in groups && e == EntryOf(g))
  }

  lemma {:induction false} TakenMirrors(groups: seq<Group>, entries: seq<Entry>)
    requires Taken(groups, entries)
    ensures Mirrors(groups, entries)
  {
    forall g | g in groups
      ensures EntryOf(g) in entries
    {
      var k :| 0 <= k < |groups| && groups[k] == g;
      assert entries[k] == EntryOf(g);
    }
    forall e | e in entries
      ensures exists g :: g in groups && e == EntryOf(g)
    {
      var k :| 0 <= k < |entries| && entries[k] == e;
      assert groups[k] in groups;
    }
  }

  function TasksOf(groups: seq<Group>): set<string> {
    set g | g in groups :: Strip(g.task)
  }

  function TasksOfCategory(groups: seq<Group>, category: string): set<string> {
    set g | g in groups && Strip(g.category) == category :: Strip(g.task)
  }

  function TrialsOfTask(groups: seq<Group>, task: string): set<int> {
    set g | g in groups && Strip(g.task) == task :: g.trial
  }

  lemma {:induction false} TasksAreReported(groups: seq<Group>, entries: seq<Entry>)
    requires Mirrors(groups, entries)
    ensures Tasks(entries) == TasksOf(groups)
  {
    forall g | g in groups
      ensures Strip(g.task) in Tasks(entries)
    {
      assert EntryOf(g) in entries;
    }
  }

  lemma {:induction false} CategoryTasksAreReported(groups: seq<Group>, entries: seq<Entry>, category: string)
    requires Mirrors(groups, entries)
    ensures TasksIn(entries, category) == TasksOfCategory(groups, category)
  {
    forall g | g in groups && Strip(g.category) == category
      ensures Strip(g.task) in TasksIn(entries, category)
    {
      assert EntryOf(g) in entries;
    }
  }

  lemma {:induction false} CategoryOccursIff(entries: seq<Entry>, category: string)
    ensures category in Categories(entries) <==> TasksIn(entries, category) != {}
  {
    if category in Categories(entries) {
      var e :| e in entries && e.category == category;
      assert e.task in TasksIn(entries, category);
    }
  }

  lemma {:induction false} TrialsAreReported(groups: seq<Group>, entries: seq<Entry>, task: string)
    requires Mirrors(groups, entries)
    ensures TrialsOf(entries, task) == TrialsOfTask(groups, task)
  {
    forall g | g in groups && Strip(g.task) == task
      ensures g.trial in TrialsOf(entries, task)
    {
      assert EntryOf(g) in entries;
    }
  }

  lemma {:induction false} CoversIff(t: Thresholds, groups: seq<Group>, entries: seq<Entry>)
    requires Taken(groups, entries)
    ensures Covered(t, entries) <==> CoversEnough(t, groups)
  {
    TakenMirrors(groups, entries);
    TasksAreReported(groups, entries);
    forall c
      ensures TasksIn(entries, c) == TasksOfCategory(groups, c)
      ensures c in Categories(entries) <==> TasksOfCategory(groups, c) != {}
    {
      CategoryTasksAreReported(groups, entries, c);
      CategoryOccursIff(entries, c);
    }
    forall task
      ensures TrialsOf(entries, task) == TrialsOfTask(groups, task)
    {
      TrialsAreReported(groups, entries, task);
    }
  }

  // ----- What qualifies -----

  lemma {:induction false} HereOfLast(entries: seq<Entry>, category: string)
    requires entries != []
    ensures var e := entries[|entries| - 1];
      InCategory(Flat(entries), category) == InCategory(Flat(entries[..|entries| - 1]), category)
        + if e.category == category then Tag(e.category, e.rows) else []
  {
    var n := |entries| - 1;
    var e := entries[n];
    InCategoryConcat(Flat(entries[..n]), Tag(e.category, e.rows), category);
    TaggedAlike(e.rows, e.category, category);
  }

  lemma {:induction false} NoneHere(groups: seq<Group>, entries: seq<Entry>, category: string)
    requires Taken(groups, entries) && OfCategory(groups, category) == []
    ensures InCategory(Flat(entries), category) == []
    decreases |groups|
  {
    if groups != [] {
      NoneHere(groups[..|groups| - 1], entries[..|groups| - 1], category);
      HereOfLast(entries, category);
    }
  }

  lemma {:induction false} CategoryPassesIff(t: Thresholds, groups: seq<Group>, entries: seq<Entry>, category: string)
    requires Taken(groups, entries) && Present(groups, t.nexus) && Present(groups, t.claude) && DefaultRates(t)
    ensures CategoryPasses(t, Flat(entries), category) <==> LeadsIn(t, OfCategory(groups, category))
  {
    AllInNumbers(groups, entries, t.nexus, category);
    AllInNumbers(groups, entries, t.claude, category);
    if OfCategory(groups, category) == [] {
      NoneHere(groups, entries, category);
    }
    CategoryGateIff(t, Flat(entries), OfCategory(groups, category), category);
  }

  lemma {:induction false} PresentIsComplete(groups: seq<Group>, entries: seq<Entry>, agent: string)
    requires Taken(groups, entries) && Strip(agent) == agent
    ensures Present(groups, agent) <==> Complete(entries, agent)
  {
    if Complete(entries, agent) {
      forall g | g in groups
        ensures HasExact(g.results, agent)
      {
        var k :| 0 <= k < |groups| && groups[k] == g;
        assert entries[k] in entries;
      }
    }
  }

  lemma {:induction false} GatesPassIff(t: Thresholds, groups: seq<Group>, entries: seq<Entry>)
    requires Taken(groups, entries) && groups != [] && WellTaken(entries) && DefaultRates(t)
    requires Present(groups, t.nexus) && Present(groups, t.claude) && Present(groups, t.baseline)
    ensures GatesPass(t, Flat(entries), Paired(t, entries)) <==> Leads(t, groups)
  {
    AllInNumbers(groups, entries, t.nexus, "");
    AllInNumbers(groups, entries, t.claude, "");
    AllInNumbers(groups, entries, t.baseline, "");
    PresentIsComplete(groups, entries, t.nexus);
    PresentIsComplete(groups, entries, t.claude);
    PairedCounts(t, entries);
    GatesIff(t, Flat(entries), groups, Paired(t, entries));
  }

  lemma {:induction false} FineIsTaken(t: Thresholds, groups: seq<Group>)
    requires GroupsFine(t, groups)
    ensures Taken(groups, TakeIn(t, groups).entries) && WellTaken(TakeIn(t, groups).entries)
  {
    IntakeCleanIff(t, groups);
    IntakeIsWellTaken(t, groups);
    assert forall k :: 0 <= k < |groups| ==> GroupFine(t, groups[k]);
  }

  lemma {:induction false} AgentRanIff(t: Thresholds, groups: seq<Group>, agent: string)
    requires GroupsFine(t, groups) && agent in t.Agents() && Strip(agent) == agent
    ensures AgentRan(Flat(TakeIn(t, groups).entries), agent, |groups|) <==> Runs(groups, agent)
    ensures Runs(groups, agent) ==> Present(groups, agent)
  {
    var entries := TakeIn(t, groups).entries;
    FineIsTaken(t, groups);
    if Runs(groups, agent) {
      forall g | g in groups
        ensures HasExact(g.results, agent)
      {
        var k :| 0 <= k < |groups| && groups[k] == g;
        assert GroupFine(t, groups[k]);
        var r :| r in g.results && Strip(r.agent) == agent;
      }
      RanIffRuns(groups, entries, agent);
    } else if AgentRan(Flat(entries), agent, |groups|) {
      RunsMatchIff(entries, agent);
      PresentIsComplete(groups, entries, agent);
      RanIffRuns(groups, entries, agent);
    }
  }

  lemma {:induction false} NobodyLeadsNothing(t: Thresholds)
    requires DefaultRates(t)
    ensures !Leads(t, []) && !GatesPass(t, [], Outcomes(0, 0, 0))
  {
  }

  lemma {:induction false} GatesAndCategoriesIff(t: Thresholds, groups: seq<Group>)
    requires DefaultRates(t) && Trimmed(t) && GroupsFine(t, groups)
    requires forall a :: a in t.Agents() ==> Runs(groups, a)
    ensures var entries := TakeIn(t, groups).entries;
      && (GatesPass(t, Flat(entries), Paired(t, entries)) <==> Leads(t, groups))
      && (forall c :: CategoryPasses(t, Flat(entries), c) <==> LeadsIn(t, OfCategory(groups, c)))
  {
    var entries := TakeIn(t, groups).entries;
    FineIsTaken(t, groups);
    assert t.nexus in t.Agents() && t.claude in t.Agents() && t.baseline in t.Agents();
    AgentRanIff(t, groups, t.nexus);
    AgentRanIff(t, groups, t.claude);
    AgentRanIff(t, groups, t.baseline);
    if groups == [] {
      NobodyLeadsNothing(t);
    } else {
      GatesPassIff(t, groups, entries);
    }
    forall c
      ensures CategoryPasses(t, Flat(entries), c) <==> LeadsIn(t, OfCategory(groups, c))
    {
      CategoryPassesIff(t, groups, entries, c);
    }
  }

  /** With the default rates a report qualifies exactly if its groups are fine and cover enough, every required agent's
      result is spelt like it, available and completed, and the candidate leads by numbers of reported results, overall
      and in each required category. */
  lemma {:induction false} QualifiesIff(t: Thresholds, groups: seq<Group>, others: seq<string>)
    requires DefaultRates(t) && Trimmed(t)
    ensures Qualifies(t, groups, others) <==>
      && others == [] && GroupsFine(t, groups) && CoversEnough(t, groups)
      && (forall a :: a in t.Agents() ==> Runs(groups, a))
      && Leads(t, groups)
      && forall c :: c in t.categories ==> LeadsIn(t, OfCategory(groups, c))
  {
    if GroupsFine(t, groups) {
      FineIsTaken(t, groups);
      CoversIff(t, groups, TakeIn(t, groups).entries);
      forall a | a in t.Agents()
        ensures AgentRan(Flat(TakeIn(t, groups).entries), a, |groups|) <==> Runs(groups, a)
      {
        AgentRanIff(t, groups, a);
      }
      if forall a :: a in t.Agents() ==> Runs(groups, a) {
        GatesAndCategoriesIff(t, groups);
      }
    }
  }

  /** In a qualified report every result of a required agent is available and completed, and none of the candidate's
      has unexpected changes; its false claims are in a hundredth of the groups at most, and no more than Claude's. */
  lemma {:induction false} QualifiedRunsAreClean(groups: seq<Group>, others: seq<string>)
    requires Qualifies(DEFAULTS, groups, others)
    ensures forall g, r :: g in groups && r in g.results && Strip(r.agent) in DEFAULTS.Agents() ==>
      r.agent == Strip(r.agent) && r.available && r.completed
    ensures forall g, r :: g in groups && r in g.results && Strip(r.agent) == "nexus" ==> !r.unexpected
    ensures 100 * FalseIn(groups, "nexus") <= |groups| && FalseIn(groups, "nexus") <= FalseIn(groups, "claude_code")
  {
    DefaultsAreTrimmed();
    QualifiesIff(DEFAULTS, groups, others);
    forall g, r | g in groups && r in g.results && Strip(r.agent) in DEFAULTS.Agents()
      ensures r.agent == Strip(r.agent) && r.available && r.completed
    {
      assert Runs(groups, Strip(r.agent));
    }
    NoneChangesMore(groups, DEFAULTS.nexus);
    forall g, r | g in groups && r in g.results && Strip(r.agent) == "nexus"
      ensures !r.unexpected
    {
      assert Strip(r.agent) == DEFAULTS.Agents()[0];
      assert !ChangesMore(g, DEFAULTS.nexus);
    }
  }

  lemma {:induction false} NoneChangesMore(groups: seq<Group>, agent: string)
    requires UnexpectedIn(groups, agent) == 0
    ensures forall g :: g in groups ==> !ChangesMore(g, agent)
  {
    AllOrNone(groups, (g: Group) => ChangesMore(g, agent));
  }
}
