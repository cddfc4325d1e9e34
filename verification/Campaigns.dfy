/** Benchmark campaigns that pass the superiority gate, and how large they have to be. */
module Campaigns {
  import opened Qualification
  import opened ReportedRuns
  import opened Whitespace
  import Decimal

  // ----- A campaign -----

  /** What the three agents report, the same in every group. */
  datatype Reported = Reported(nexus: Item, baseline: Item, claude: Item) {
    function Rows(): (r: seq<Item>) { [nexus, baseline, claude] }
  }

  /** The results carry the names of the required agents. */
  predicate Named(r: Reported) {
    && r.nexus.agent == DEFAULTS.nexus && r.baseline.agent == DEFAULTS.baseline
    && r.claude.agent == DEFAULTS.claude
  }

  function Fine(agent: string): Item {
    Item(agent, true, true, true, false, false)
  }

  type Team = r: Reported | Named(r)
    witness Reported(Fine(DEFAULTS.nexus), Fine(DEFAULTS.baseline), Fine(DEFAULTS.claude))

  function Name(task: nat): string {
    Decimal.Print(task)
  }

  /** The tasks take the categories in turn. */
  function CategoryOf(task: nat): (c: string)
    ensures c in HARD_CATEGORIES
  {
    HARD_CATEGORIES[task % 7]
  }

  function GroupOf(team: Team, task: nat, trial: nat): Group {
    Group(Name(task), trial, CategoryOf(task), team.Rows())
  }

  function TrialsFor(team: Team, task: nat, trials: nat): (groups: seq<Group>)
    ensures |groups| == trials
  {
    seq(trials, k requires 0 <= k => GroupOf(team, task, k + 1))
  }

  /** All trials of all tasks. */
  function Campaign(team: Team, tasks: nat, trials: nat): seq<Group> {
    if tasks == 0 then [] else Campaign(team, tasks - 1, trials) + TrialsFor(team, tasks - 1, trials)
  }

  predicate IsGroup(team: Team, g: Group, tasks: nat, trials: nat, task: nat, trial: nat) {
    task < tasks && 1 <= trial <= trials && g == GroupOf(team, task, trial)
  }

  lemma {:induction false} LastTaskHolds(team: Team, task: nat, trials: nat, g: Group)
    ensures g in TrialsFor(team, task, trials) <==>
      exists trial: nat :: 1 <= trial <= trials && g == GroupOf(team, task, trial)
  {
    var last := TrialsFor(team, task, trials);
    if trial: nat :| 1 <= trial <= trials && g == GroupOf(team, task, trial) {
      assert last[trial - 1] == g;
    }
  }

  lemma {:induction false} CampaignHolds(team: Team, tasks: nat, trials: nat, g: Group)
    ensures g in Campaign(team, tasks, trials) <==> exists task, trial :: IsGroup(team, g, tasks, trials, task, trial)
  {
    if tasks > 0 {
      var fewer: nat := tasks - 1;
      CampaignHolds(team, fewer, trials, g);
      LastTaskHolds(team, fewer, trials, g);
      if g in TrialsFor(team, fewer, trials) {
        var trial: nat :| 1 <= trial <= trials && g == GroupOf(team, fewer, trial);
        assert IsGroup(team, g, tasks, trials, fewer, trial);
      }
      if task, trial :| IsGroup(team, g, fewer, trials, task, trial) {
        assert IsGroup(team, g, tasks, trials, task, trial);
      }
      if task, trial :| IsGroup(team, g, tasks, trials, task, trial) && task != fewer {
        assert IsGroup(team, g, fewer, trials, task, trial);
      }
    }
  }

  // ----- Its groups are fine -----

  lemma {:induction false} NamesDiffer(a: nat, b: nat)
    ensures Name(a) == Name(b) ==> a == b
  {
    Decimal.ValueOfPrint(a);
    Decimal.ValueOfPrint(b);
  }

  lemma {:induction false} NameIsTight(task: nat)
    ensures Strip(Name(task)) == Name(task) && Name(task) != ""
  {
    var name := Name(task);
    assert Decimal.IsDigit(name[0]) && Decimal.IsDigit(name[|name| - 1]);
    StripsNothing(name);
  }

  lemma {:induction false} CategoryIsTight(category: string)
    requires category in HARD_CATEGORIES
    ensures Strip(category) == category
  {
    assert category != "" && 'a' <= category[0] <= 'z' && 'a' <= category[|category| - 1] <= 'z';
    StripsNothing(category);
  }

  lemma {:induction false} AgentsDiffer()
    ensures DEFAULTS.nexus != DEFAULTS.baseline && DEFAULTS.nexus != DEFAULTS.claude
    ensures DEFAULTS.baseline != DEFAULTS.claude
  {
    assert |"nexus"| == 5 && |"direct_baseline"| == 15 && |"claude_code"| == 11;
  }

  lemma {:induction false} RowsAreFine(team: Team)
    ensures DistinctNames(team.Rows())
    ensures forall a :: a in DEFAULTS.Agents() ==> HasName(team.Rows(), a)
  {
    DefaultsAreTrimmed();
    AgentsDiffer();
    var rows, agents := team.Rows(), DEFAULTS.Agents();
    assert rows[0] == team.nexus && rows[1] == team.baseline && rows[2] == team.claude;
    forall k | 0 <= k < 3
      ensures rows[k] in rows && Strip(rows[k].agent) == agents[k]
    {
      assert agents[k] in agents;
    }
  }

  lemma {:induction false} GroupIsFine(team: Team, task: nat, trial: nat)
    requires trial > 0
    ensures GroupFine(DEFAULTS, GroupOf(team, task, trial))
    ensures EntryOf(GroupOf(team, task, trial)) == Entry(Name(task), trial, CategoryOf(task), team.Rows())
  {
    NameIsTight(task);
    CategoryIsTight(CategoryOf(task));
    RowsAreFine(team);
  }

  lemma {:induction false} GroupsDiffer(team: Team, a: nat, i: nat, b: nat, j: nat)
    ensures SameKey(GroupOf(team, a, i), GroupOf(team, b, j)) <==> a == b && i == j
  {
    NameIsTight(a);
    NameIsTight(b);
    NamesDiffer(a, b);
  }

  lemma {:induction false} CampaignIsFine(team: Team, tasks: nat, trials: nat)
    ensures GroupsFine(DEFAULTS, Campaign(team, tasks, trials))
  {
    var groups := Campaign(team, tasks, trials);
    forall k | 0 <= k < |groups|
      ensures GroupFine(DEFAULTS, groups[k])
    {
      CampaignHolds(team, tasks, trials, groups[k]);
      var task, trial :| IsGroup(team, groups[k], tasks, trials, task, trial);
      GroupIsFine(team, task, trial);
    }
    forall j, k | 0 <= j < k < |groups|
      ensures !SameKey(groups[j], groups[k])
    {
      CampaignKeysDiffer(team, tasks, trials, j, k);
    }
  }

  /** A group of earlier tasks has another key than one of the next task. */
  lemma {:induction false} NextTaskDiffers(team: Team, tasks: nat, trials: nat, g: Group, trial: nat)
    requires g in Campaign(team, tasks, trials)
    ensures !SameKey(g, GroupOf(team, tasks, trial))
  {
    CampaignHolds(team, tasks, trials, g);
    var a, i :| IsGroup(team, g, tasks, trials, a, i);
    GroupsDiffer(team, a, i, tasks, trial);
  }

  lemma {:induction false} CampaignKeysDiffer(team: Team, tasks: nat, trials: nat, j: nat, k: nat)
    requires j < k < |Campaign(team, tasks, trials)|
    ensures !SameKey(Campaign(team, tasks, trials)[j], Campaign(team, tasks, trials)[k])
  {
    var fewer: nat := tasks - 1;
    var before := Campaign(team, fewer, trials);
    if k < |before| {
      CampaignKeysDiffer(team, fewer, trials, j, k);
    } else {
      LastTaskAt(team, tasks, trials, k);
      if j < |before| {
        assert before[j] in before;
        NextTaskDiffers(team, fewer, trials, before[j], k - |before| + 1);
      } else {
        LastTaskAt(team, tasks, trials, j);
        GroupsDiffer(team, fewer, j - |before| + 1, fewer, k - |before| + 1);
      }
    }
  }

  lemma {:induction false} LastTaskAt(team: Team, tasks: nat, trials: nat, k: nat)
    requires tasks > 0 && |Campaign(team, tasks - 1, trials)| <= k < |Campaign(team, tasks, trials)|
    ensures Campaign(team, tasks, trials)[k] == GroupOf(team, tasks - 1, k - |Campaign(team, tasks - 1, trials)| + 1)
  {
  }

  // ----- Its coverage -----

  function Entries(team: Team, tasks: nat, trials: nat): seq<Entry> {
    TakeIn(DEFAULTS, Campaign(team, tasks, trials)).entries
  }

  predicate IsEntry(team: Team, e: Entry, tasks: nat, trials: nat, task: nat, trial: nat) {
    task < tasks && 1 <= trial <= trials && e == Entry(Name(task), trial, CategoryOf(task), team.Rows())
  }

  lemma {:induction false} EntriesHold(team: Team, tasks: nat, trials: nat, e: Entry)
    ensures e in Entries(team, tasks, trials) <==> exists task, trial :: IsEntry(team, e, tasks, trials, task, trial)
  {
    var groups, entries := Campaign(team, tasks, trials), Entries(team, tasks, trials);
    CampaignIsFine(team, tasks, trials);
    IntakeCleanIff(DEFAULTS, groups);
    if e in entries {
      var k :| 0 <= k < |entries| && entries[k] == e;
      CampaignHolds(team, tasks, trials, groups[k]);
      var task, trial :| IsGroup(team, groups[k], tasks, trials, task, trial);
      GroupIsFine(team, task, trial);
      assert IsEntry(team, e, tasks, trials, task, trial);
    }
    if task, trial :| IsEntry(team, e, tasks, trials, task, trial) {
      GroupIsFine(team, task, trial);
      CampaignHolds(team, tasks, trials, GroupOf(team, task, trial));
      assert IsGroup(team, GroupOf(team, task, trial), tasks, trials, task, trial);
      var k :| 0 <= k < |groups| && groups[k] == GroupOf(team, task, trial);
      assert entries[k] == e;
    }
  }

  /** The same for one entry. */
  lemma {:induction false} HasEntry(team: Team, tasks: nat, trials: nat, task: nat, trial: nat)
    requires task < tasks && 1 <= trial <= trials
    ensures Entry(Name(task), trial, CategoryOf(task), team.Rows()) in Entries(team, tasks, trials)
  {
    var e := Entry(Name(task), trial, CategoryOf(task), team.Rows());
    assert IsEntry(team, e, tasks, trials, task, trial);
    EntriesHold(team, tasks, trials, e);
  }

  function Names(tasks: nat): set<string> {
    set task | 0 <= task < tasks :: Name(task)
  }

  lemma {:induction false} NamesCount(tasks: nat)
    ensures |Names(tasks)| == tasks
  {
    if tasks > 0 {
      NamesCount(tasks - 1);
      forall task | 0 <= task < tasks - 1
        ensures Name(task) != Name(tasks - 1)
      {
        NamesDiffer(task, tasks - 1);
      }
      assert Names(tasks) == Names(tasks - 1) + {Name(tasks - 1)};
    }
  }

  function UpTo(trials: nat): set<int> {
    if trials == 0 then {} else UpTo(trials - 1) + {trials as int}
  }

  lemma {:induction false} UpToHolds(trials: nat)
    ensures forall k: int :: k in UpTo(trials) <==> 1 <= k <= trials
    ensures |UpTo(trials)| == trials
  {
    if trials > 0 {
      UpToHolds(trials - 1);
    }
  }

  lemma {:induction false} TasksAre(team: Team, tasks: nat, trials: nat)
    ensures Tasks(Entries(team, tasks, trials)) == if trials > 0 then Names(tasks) else {}
  {
    var entries := Entries(team, tasks, trials);
    forall e | e in entries
      ensures trials > 0 && e.task in Names(tasks)
    {
      EntriesHold(team, tasks, trials, e);
    }
    if trials > 0 {
      forall task | 0 <= task < tasks
        ensures Name(task) in Tasks(entries)
      {
        HasEntry(team, tasks, trials, task, 1);
      }
    }
  }

  lemma {:induction false} TrialsAre(team: Team, tasks: nat, trials: nat, task: nat)
    requires task < tasks
    ensures TrialsOf(Entries(team, tasks, trials), Name(task)) == UpTo(trials)
  {
    var entries := Entries(team, tasks, trials);
    UpToHolds(trials);
    forall e | e in entries && e.task == Name(task)
      ensures e.trial in UpTo(trials)
    {
      EntriesHold(team, tasks, trials, e);
    }
    forall trial | trial in UpTo(trials)
      ensures trial in TrialsOf(entries, Name(task))
    {
      HasEntry(team, tasks, trials, task, trial);
      assert Entry(Name(task), trial, CategoryOf(task), team.Rows()).trial == trial;
    }
  }

  lemma {:induction false} TaskIsCounted(team: Team, tasks: nat, trials: nat, task: nat)
    requires task < tasks && trials > 0
    ensures Name(task) in TasksIn(Entries(team, tasks, trials), CategoryOf(task))
    ensures CategoryOf(task) in Categories(Entries(team, tasks, trials))
  {
    HasEntry(team, tasks, trials, task, 1);
    assert Entry(Name(task), 1, CategoryOf(task), team.Rows()).task == Name(task);
    assert Entry(Name(task), 1, CategoryOf(task), team.Rows()).category == CategoryOf(task);
  }

  /** The first `n` tasks that take the same category as task `k`. */
  function Alike(k: nat, n: nat): set<string> {
    if n == 0 then {} else Alike(k, n - 1) + {Name(k + 7 * (n - 1))}
  }

  lemma {:induction false} AlikeCount(k: nat, n: nat, task: nat)
    ensures |Alike(k, n)| == n
    ensures task >= k + 7 * n ==> Name(task) !in Alike(k, n)
  {
    if n > 0 {
      AlikeCount(k, n - 1, k + 7 * (n - 1));
      AlikeCount(k, n - 1, task);
      NamesDiffer(k + 7 * (n - 1), task);
    }
  }

  lemma {:induction false} CategoryRepeats(k: nat, i: nat)
    requires k < 7
    ensures CategoryOf(k + 7 * i) == CategoryOf(k)
  {
    assert (k + 7 * i) % 7 == k % 7;
  }

  lemma {:induction false} SomeTaskTakes(category: string) returns (k: nat)
    requires category in HARD_CATEGORIES
    ensures k < 7 && CategoryOf(k) == category
  {
    k :| k < 7 && HARD_CATEGORIES[k] == category;
  }

  lemma {:induction false} AlikeAreAmong(k: nat, n: nat, names: set<string>)
    requires forall i: nat :: i < n ==> Name(k + 7 * i) in names
    ensures Alike(k, n) <= names
  {
    if n > 0 {
      AlikeAreAmong(k, n - 1, names);
      assert Name(k + 7 * (n - 1)) in names;
    }
  }

  lemma {:induction false} AlikeAreCounted(team: Team, tasks: nat, trials: nat, k: nat, n: nat)
    requires trials > 0 && k < 7 && (n > 0 ==> k + 7 * (n - 1) < tasks)
    ensures Alike(k, n) <= TasksIn(Entries(team, tasks, trials), CategoryOf(k))
  {
    var counted := TasksIn(Entries(team, tasks, trials), CategoryOf(k));
    forall i: nat | i < n
      ensures Name(k + 7 * i) in counted
    {
      CategoryRepeats(k, i);
      TaskIsCounted(team, tasks, trials, k + 7 * i);
    }
    AlikeAreAmong(k, n, counted);
  }

  lemma {:induction false} SubsetIsNoLarger(a: set<string>, b: set<string>)
    requires a <= b
    ensures |a| <= |b|
  {
    assert b == a + (b - a);
  }

  lemma {:induction false} CategoryIsCovered(team: Team, tasks: nat, trials: nat, category: string)
    requires tasks >= 35 && trials > 0 && category in HARD_CATEGORIES
    ensures category in Categories(Entries(team, tasks, trials))
    ensures |TasksIn(Entries(team, tasks, trials), category)| >= 5
  {
    var k := SomeTaskTakes(category);
    TaskIsCounted(team, tasks, trials, k);
    AlikeAreCounted(team, tasks, trials, k, 5);
    AlikeCount(k, 5, 0);
    SubsetIsNoLarger(Alike(k, 5), TasksIn(Entries(team, tasks, trials), CategoryOf(k)));
  }

  lemma {:induction false} CoveredIff(team: Team, tasks: nat, trials: nat)
    ensures Covered(DEFAULTS, Entries(team, tasks, trials)) <==> tasks >= 50 && trials >= 3
  {
    var entries := Entries(team, tasks, trials);
    TasksAre(team, tasks, trials);
    NamesCount(tasks);
    UpToHolds(trials);
    forall task: nat | task < tasks
      ensures |TrialsOf(entries, Name(task))| == trials
    {
      TrialsAre(team, tasks, trials, task);
    }
    if tasks >= 50 && trials >= 3 {
      forall c | c in HARD_CATEGORIES
        ensures c in Categories(entries) && |TasksIn(entries, c)| >= 5
      {
        CategoryIsCovered(team, tasks, trials, c);
      }
    } else if tasks >= 50 && trials > 0 {
      assert Name(0) in Tasks(entries);
    }
  }

  // ----- What its results amount to -----

  /** The candidate alone has solved every task, claiming nothing false and changing nothing else. */
  predicate Wins(team: Team) {
    && team.nexus.verified && !team.nexus.falseSuccess && !team.nexus.unexpected
    && !team.baseline.verified && !team.claude.verified
  }

  predicate AllRan(team: Team) {
    && team.nexus.available && team.nexus.completed
    && team.baseline.available && team.baseline.completed
    && team.claude.available && team.claude.completed
  }

  ghost predicate Uniform(team: Team, groups: seq<Group>) {
    forall g :: g in groups ==> g.results == team.Rows()
  }

  lemma {:induction false} ResultOf(team: Team, r: Item)
    requires r in team.Rows()
    ensures r.agent == DEFAULTS.nexus ==> r == team.nexus
    ensures r.agent == DEFAULTS.baseline ==> r == team.baseline
    ensures r.agent == DEFAULTS.claude ==> r == team.claude
  {
    AgentsDiffer();
  }

  lemma {:induction false} ReportsOf(team: Team, g: Group)
    requires g.results == team.Rows()
    ensures Verifies(g, DEFAULTS.nexus) == team.nexus.verified
    ensures Verifies(g, DEFAULTS.baseline) == team.baseline.verified
    ensures Verifies(g, DEFAULTS.claude) == team.claude.verified
    ensures ClaimsFalsely(g, DEFAULTS.nexus) == team.nexus.falseSuccess
    ensures ChangesMore(g, DEFAULTS.nexus) == team.nexus.unexpected
  {
    assert team.nexus in g.results && team.baseline in g.results && team.claude in g.results;
    forall r | r in g.results
      ensures r.agent == DEFAULTS.nexus ==> r == team.nexus
      ensures r.agent == DEFAULTS.baseline ==> r == team.baseline
      ensures r.agent == DEFAULTS.claude ==> r == team.claude
    {
      ResultOf(team, r);
    }
  }

  lemma {:induction false} NumbersOf(team: Team, groups: seq<Group>)
    requires Uniform(team, groups)
    ensures VerifiedIn(groups, DEFAULTS.nexus) == if team.nexus.verified then |groups| else 0
    ensures VerifiedIn(groups, DEFAULTS.baseline) == if team.baseline.verified then |groups| else 0
    ensures VerifiedIn(groups, DEFAULTS.claude) == if team.claude.verified then |groups| else 0
    ensures FalseIn(groups, DEFAULTS.nexus) == if team.nexus.falseSuccess then |groups| else 0
    ensures UnexpectedIn(groups, DEFAULTS.nexus) == if team.nexus.unexpected then |groups| else 0
  {
    forall g | g in groups
      ensures Verifies(g, DEFAULTS.nexus) == team.nexus.verified
      ensures Verifies(g, DEFAULTS.baseline) == team.baseline.verified
      ensures Verifies(g, DEFAULTS.claude) == team.claude.verified
      ensures ClaimsFalsely(g, DEFAULTS.nexus) == team.nexus.falseSuccess
      ensures ChangesMore(g, DEFAULTS.nexus) == team.nexus.unexpected
    {
      ReportsOf(team, g);
    }
    AllOrNone(groups, (g: Group) => Verifies(g, DEFAULTS.nexus));
    AllOrNone(groups, (g: Group) => Verifies(g, DEFAULTS.baseline));
    AllOrNone(groups, (g: Group) => Verifies(g, DEFAULTS.claude));
    AllOrNone(groups, (g: Group) => ClaimsFalsely(g, DEFAULTS.nexus));
    AllOrNone(groups, (g: Group) => ChangesMore(g, DEFAULTS.nexus));
  }

  lemma {:induction false} LeadsIffWins(team: Team, groups: seq<Group>)
    requires Uniform(team, groups) && groups != []
    ensures Leads(DEFAULTS, groups) <==> Wins(team)
    ensures Wins(team) ==> LeadsIn(DEFAULTS, groups)
  {
    NumbersOf(team, groups);
  }

  lemma {:induction false} RunsIfRan(team: Team, groups: seq<Group>)
    requires Uniform(team, groups) && AllRan(team)
    ensures forall a :: a in DEFAULTS.Agents() ==> Runs(groups, a)
  {
    DefaultsAreTrimmed();
    assert DEFAULTS.Agents() == [DEFAULTS.nexus, DEFAULTS.baseline, DEFAULTS.claude];
  }

  lemma {:induction false} RanIfRuns(team: Team, groups: seq<Group>)
    requires Uniform(team, groups) && groups != []
    requires forall a :: a in DEFAULTS.Agents() ==> Runs(groups, a)
    ensures AllRan(team)
  {
    DefaultsAreTrimmed();
    var g := groups[0];
    assert g in groups && team.nexus in g.results && team.baseline in g.results && team.claude in g.results;
    assert DEFAULTS.nexus in DEFAULTS.Agents() && DEFAULTS.baseline in DEFAULTS.Agents();
    assert DEFAULTS.claude in DEFAULTS.Agents();
  }

  lemma {:induction false} CategoryOfUniform(team: Team, groups: seq<Group>, category: string)
    requires Uniform(team, groups)
    ensures Uniform(team, OfCategory(groups, category))
    decreases |groups|
  {
    if groups != [] {
      var n := |groups| - 1;
      assert groups == groups[..n] + [groups[n]];
      CategoryOfUniform(team, groups[..n], category);
    }
  }

  lemma {:induction false} CampaignIsUniform(team: Team, tasks: nat, trials: nat)
    ensures Uniform(team, Campaign(team, tasks, trials))
    ensures tasks > 0 && trials > 0 ==> Campaign(team, tasks, trials) != []
  {
    forall g | g in Campaign(team, tasks, trials)
      ensures g.results == team.Rows()
    {
      CampaignHolds(team, tasks, trials, g);
      var task, trial :| IsGroup(team, g, tasks, trials, task, trial);
    }
  }

  // ----- What qualifies -----

  /** With the default thresholds a campaign of the same results throughout qualifies exactly if it has at least fifty
      tasks and three trials of each, all agents ran, and the candidate alone is verified, without a false claim or an
      unexpected change; so any one such fault in every group disqualifies it. */
  lemma {:induction false} CampaignQualifiesIff(team: Team, tasks: nat, trials: nat)
    ensures Qualifies(DEFAULTS, Campaign(team, tasks, trials), []) <==>
      tasks >= 50 && trials >= 3 && AllRan(team) && Wins(team)
  {
    var groups := Campaign(team, tasks, trials);
    DefaultsAreTrimmed();
    QualifiesIff(DEFAULTS, groups, []);
    CoveredIff(team, tasks, trials);
    CampaignIsFine(team, tasks, trials);
    FineIsTaken(DEFAULTS, groups);
    CoversIff(DEFAULTS, groups, Entries(team, tasks, trials));
    CampaignIsUniform(team, tasks, trials);
    if tasks >= 50 && trials >= 3 {
      LeadsIffWins(team, groups);
      if AllRan(team) {
        RunsIfRan(team, groups);
      } else if forall a :: a in DEFAULTS.Agents() ==> Runs(groups, a) {
        RanIfRuns(team, groups);
      }
      if Wins(team) {
        forall c | c in DEFAULTS.categories
          ensures LeadsIn(DEFAULTS, OfCategory(groups, c))
        {
          CategoryOfUniform(team, groups, c);
          if OfCategory(groups, c) != [] {
            LeadsIffWins(team, OfCategory(groups, c));
          }
        }
      }
    }
  }
}
