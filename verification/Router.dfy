/** The model router: which models are candidates, how they are scored, and what the decision says. */
module Router {
  import opened Wrappers

  datatype Privacy = LocalOnly | PrivateInfrastructure | ApprovedCloud | AnyAllowedProvider
  datatype Tier = LocalTier | Affordable | Strong | Frontier
  datatype Mode = Cheapest | Private | Fastest | Balanced | Strongest | Manual
  datatype Risk = Low | Medium | High | Critical
  datatype Band = Unknown | Unsuitable | Limited | SuitableBand | StrongBand

  datatype Descriptor = Descriptor(
    modelId: string, name: string, enabled: bool, local: bool, custom: bool, privacy: Privacy, tier: Tier,
    tools: bool, structuredOutput: bool, contextWindow: Option<nat>,
    inputCost: Option<real>, outputCost: Option<real>)

  datatype Score = Score(score: real, confidence: real)

  datatype Profile = Profile(capabilities: map<string, Score>, band: Band, source: string)

  datatype Minimum = Minimum(dimension: string, minimum: real)

  datatype Requirements = Requirements(
    minimums: seq<Minimum>, privacy: Privacy, risk: Risk, context: nat, structuredOutput: bool, tools: bool)

  /** The model registry and the model doctor, as the router reads them. */
  datatype Registry = Registry(
    all: seq<Descriptor>,
    customConfigured: bool,
    resolve: string -> Option<string>,
    lookup: string -> Option<Descriptor>,
    profile: string -> Option<Profile>)

  /** What a call of `route` is given. */
  datatype Request = Request(
    reqs: Requirements, mode: Mode, choice: Option<string>, budget: Option<real>, askBeforeFrontier: bool,
    failed: set<string>)

  // ----- Candidates -----

  predicate Enabled(reg: Registry, d: Descriptor) {
    d.enabled && (!d.custom || reg.customConfigured)
  }

  predicate PrivateEnough(request: Request, d: Descriptor) {
    request.mode == Private || request.reqs.privacy == LocalOnly ==>
      d.local || d.privacy == LocalOnly || d.privacy == PrivateInfrastructure
  }

  predicate Equipped(reqs: Requirements, d: Descriptor) {
    && (reqs.tools ==> d.tools)
    && (reqs.structuredOutput ==> d.structuredOutput)
    && reqs.context <= if d.contextWindow.Some? && d.contextWindow.value > 0 then d.contextWindow.value else 128000
  }

  predicate HasFailed(reg: Registry, request: Request, d: Descriptor) {
    || d.modelId in request.failed
    || (reg.resolve(d.modelId).Some? && reg.resolve(d.modelId).value in request.failed)
  }

  /** Everything the request demands of a model, apart from its capabilities. */
  predicate Honours(reg: Registry, request: Request, d: Descriptor) {
    Enabled(reg, d) && PrivateEnough(request, d) && Equipped(request.reqs, d)
  }

  function Filter(s: seq<Descriptor>, keep: Descriptor -> bool): (r: seq<Descriptor>)
    ensures forall d :: d in r <==> d in s && keep(d)
  {
    if s == [] then []
    else
      var rest := Filter(s[1..], keep);
      if keep(s[0]) then [s[0]] + rest else rest
  }

  /** The models that are scored: those that honour the request and have not failed, or those that honour it,
      or failing these every registered model. */
  function Candidates(reg: Registry, request: Request): seq<Descriptor> {
    var valid := Filter(reg.all, d => Honours(reg, request, d));
    var left := Filter(valid, d => !HasFailed(reg, request, d));
    if left != [] then left else if valid != [] then valid else reg.all
  }

  // ----- Capability gaps -----

  datatype Gap =
    | NoProfile
    | Missing(dimension: string)
    | Below(dimension: string)
    | Unsure(dimension: string)
    | PriorOnly

  function GapsAt(capabilities: map<string, Score>, m: Minimum): seq<Gap> {
    if m.dimension !in capabilities then [Missing(m.dimension)]
    else
      var s := capabilities[m.dimension];
      if s.score < m.minimum then [Below(m.dimension)]
      else if s.confidence < 0.5 then [Unsure(m.dimension)]
      else []
  }

  function GapsIn(capabilities: map<string, Score>, minimums: seq<Minimum>): seq<Gap> {
    if minimums == [] then []
    else
      var n := |minimums| - 1;
      GapsIn(capabilities, minimums[..n]) + GapsAt(capabilities, minimums[n])
  }

  function Gaps(profile: Option<Profile>, reqs: Requirements): seq<Gap> {
    if profile.None? then [NoProfile] else GapsIn(profile.value.capabilities, reqs.minimums)
  }

  /** The profile reaches the minimum, and with a confidence of at least one half. */
  predicate Meets(capabilities: map<string, Score>, m: Minimum) {
    && m.dimension in capabilities
    && capabilities[m.dimension].score >= m.minimum
    && capabilities[m.dimension].confidence >= 0.5
  }

  lemma {:induction false} NoGapsMeansMet(capabilities: map<string, Score>, minimums: seq<Minimum>)
    ensures GapsIn(capabilities, minimums) == [] <==> forall m :: m in minimums ==> Meets(capabilities, m)
    decreases |minimums|
  {
    if minimums != [] {
      var earlier, last := minimums[..|minimums| - 1], minimums[|minimums| - 1];
      NoGapsMeansMet(capabilities, earlier);
      NoGapsAtMeansMet(capabilities, last);
      assert minimums == earlier + [last];
    }
  }

  lemma {:induction false} NoGapsAtMeansMet(capabilities: map<string, Score>, m: Minimum)
    ensures GapsAt(capabilities, m) == [] <==> Meets(capabilities, m)
  {
  }

  // ----- Scores -----

  function Price(d: Descriptor): real {
    (if d.inputCost.Some? then d.inputCost.value else 0.0) + (if d.outputCost.Some? then d.outputCost.value else 0.0)
  }

  predicate HighRisk(reqs: Requirements) {
    reqs.risk == High || reqs.risk == Critical
  }

  function ModeTerm(d: Descriptor, mode: Mode): real {
    match mode
    case Cheapest => (10.0 - Price(d)) * 5.0
    case Strongest => if d.tier == Frontier then 40.0 else if d.tier == Strong then 30.0 else 0.0
    case Fastest => if d.local then 35.0 else 0.0
    case _ => 0.0
  }

  function RiskTerm(d: Descriptor, reqs: Requirements): real {
    if !HighRisk(reqs) then 0.0
    else
      match d.tier
      case Frontier => 35.0
      case Strong => 28.0
      case Affordable => 8.0
      case LocalTier => -35.0
  }

  function FitAt(capabilities: map<string, Score>, m: Minimum): real {
    if m.dimension !in capabilities then 0.0
    else if capabilities[m.dimension].score >= m.minimum then 15.0
    else -25.0
  }

  function FitTerm(capabilities: map<string, Score>, minimums: seq<Minimum>): real {
    if minimums == [] then 0.0
    else
      var n := |minimums| - 1;
      FitTerm(capabilities, minimums[..n]) + FitAt(capabilities, minimums[n])
  }

  function BudgetTerm(d: Descriptor, budget: Option<real>): real {
    if budget.Some? && Price(d) * 0.005 > budget.value then -200.0 else 0.0
  }

  /** The privacy check that ends the scoring at once. */
  predicate TurnedAway(d: Descriptor, reqs: Requirements) {
    reqs.privacy == LocalOnly && !d.local
  }

  function Suitability(d: Descriptor, profile: Option<Profile>, request: Request): real {
    if TurnedAway(d, request.reqs) then -1000.0
    else
      50.0 + ModeTerm(d, request.mode) + RiskTerm(d, request.reqs)
      + (if profile.Some? then FitTerm(profile.value.capabilities, request.reqs.minimums) else 0.0)
      + BudgetTerm(d, request.budget)
  }

  // ----- What the scores prefer -----

  ghost function Cost(d: Descriptor): real {
    (if d.inputCost == None then 0.0 else d.inputCost.value)
    + (if d.outputCost == None then 0.0 else d.outputCost.value)
  }

  lemma {:induction false} OnlyPricesDiffer(a: Descriptor, b: Descriptor, profile: Option<Profile>, request: Request)
    requires a == b.(inputCost := a.inputCost, outputCost := a.outputCost)
    requires !(request.reqs.privacy == LocalOnly && !a.local)
    ensures Suitability(a, profile, request) - Suitability(b, profile, request)
         == ModeTerm(a, request.mode) - ModeTerm(b, request.mode)
            + BudgetTerm(a, request.budget) - BudgetTerm(b, request.budget)
  {
  }

  lemma {:induction false} BudgetTermIs(d: Descriptor, budget: Option<real>)
    ensures BudgetTerm(d, budget) == if budget.Some? && Cost(d) > 200.0 * budget.value then -200.0 else 0.0
  {
  }

  /** In the cheapest mode, of two models that differ only in their prices, the one with the lower total scores higher;
      in the other modes only the one over budget, if one is, scores lower. */
  lemma {:induction false} CheaperIsPreferredIff(
      a: Descriptor, b: Descriptor, profile: Option<Profile>, request: Request)
    requires a == b.(inputCost := a.inputCost, outputCost := a.outputCost)
    requires !(request.reqs.privacy == LocalOnly && !a.local)
    ensures Suitability(a, profile, request) > Suitability(b, profile, request) <==>
      if request.mode == Cheapest then Cost(a) < Cost(b)
      else request.budget.Some? && Cost(a) <= 200.0 * request.budget.value < Cost(b)
  {
    OnlyPricesDiffer(a, b, profile, request);
    BudgetTermIs(a, request.budget);
    BudgetTermIs(b, request.budget);
    assert Price(a) == Cost(a) && Price(b) == Cost(b);
  }

  function Rank(tier: Tier): nat {
    match tier
    case LocalTier => 0
    case Affordable => 1
    case Strong => 2
    case Frontier => 3
  }

  /** Of two models that differ only in tier, high-risk work prefers the higher one; the strongest mode does so from the
      strong tier on; otherwise the tier does not matter. */
  lemma {:induction false} TierIsPreferredIff(a: Descriptor, b: Descriptor, profile: Option<Profile>, request: Request)
    requires a == b.(tier := a.tier) && !(request.reqs.privacy == LocalOnly && !a.local)
    ensures Suitability(a, profile, request) > Suitability(b, profile, request) <==>
      && Rank(a.tier) > Rank(b.tier)
      && (request.reqs.risk in {High, Critical} || (request.mode == Strongest && a.tier in {Strong, Frontier}))
  {
  }

  /** How a capability stands to a minimum: below it, unknown, or reaching it. */
  function Grade(capabilities: map<string, Score>, m: Minimum): nat {
    if m.dimension !in capabilities then 1 else if capabilities[m.dimension].score < m.minimum then 0 else 2
  }

  /** A profile that stands no worse at any minimum scores no lower, and higher if it stands better at one. */
  lemma {:induction false} BetterFitIsPreferred(
      worse: map<string, Score>, better: map<string, Score>, minimums: seq<Minimum>)
    requires forall m :: m in minimums ==> Grade(worse, m) <= Grade(better, m)
    ensures FitTerm(worse, minimums) <= FitTerm(better, minimums)
    ensures FitTerm(worse, minimums) < FitTerm(better, minimums) <==>
      exists m :: m in minimums && Grade(worse, m) < Grade(better, m)
    decreases |minimums|
  {
    if minimums != [] {
      var n := |minimums| - 1;
      assert minimums == minimums[..n] + [minimums[n]];
      BetterFitIsPreferred(worse, better, minimums[..n]);
      assert minimums[n] in minimums;
      assert FitAt(worse, minimums[n]) <= FitAt(better, minimums[n]);
      assert FitAt(worse, minimums[n]) < FitAt(better, minimums[n]) <==>
        Grade(worse, minimums[n]) < Grade(better, minimums[n]);
    }
  }

  /** A candidate with its final score. */
  datatype Row = Row(score: real, desc: Descriptor, profile: Option<Profile>, gaps: seq<Gap>)

  function RowOf(reg: Registry, request: Request, d: Descriptor): Row {
    var profile := reg.profile(d.modelId);
    var gaps := Gaps(profile, request.reqs);
    var bonus := if gaps == [] then 500.0 else if HighRisk(request.reqs) then -500.0 else 0.0;
    Row(Suitability(d, profile, request) + bonus, d, profile, gaps)
  }

  function Rows(reg: Registry, request: Request, ds: seq<Descriptor>): (r: seq<Row>)
    ensures |r| == |ds|
  {
    seq(|ds|, k requires 0 <= k < |ds| => RowOf(reg, request, ds[k]))
  }

  lemma {:induction false} FitIsAtMost(capabilities: map<string, Score>, minimums: seq<Minimum>)
    ensures FitTerm(capabilities, minimums) <= 15.0 * |minimums| as real
    ensures GapsIn(capabilities, minimums) == [] ==> FitTerm(capabilities, minimums) == 15.0 * |minimums| as real
    decreases |minimums|
  {
    if minimums != [] {
      var n := |minimums| - 1;
      FitIsAtMost(capabilities, minimums[..n]);
      assert |minimums| as real == n as real + 1.0;
    }
  }

  /** With prices below 60, a candidate without gaps outranks one with gaps, in every mode and at every risk,
      unless the privacy check turns the former away. */
  lemma {:induction false} GapFreeOutranks(reg: Registry, request: Request, good: Descriptor, bad: Descriptor)
    requires !TurnedAway(good, request.reqs)
    requires 0.0 <= Price(good) < 60.0 && 0.0 <= Price(bad)
    requires RowOf(reg, request, good).gaps == [] && RowOf(reg, request, bad).gaps != []
    ensures RowOf(reg, request, good).score > RowOf(reg, request, bad).score
  {
    var n := |request.reqs.minimums| as real;
    var p := reg.profile(good.modelId);
    FitIsAtMost(p.value.capabilities, request.reqs.minimums);
    var q := reg.profile(bad.modelId);
    if q.Some? {
      FitIsAtMost(q.value.capabilities, request.reqs.minimums);
    }
    assert n >= 0.0;
    assert ModeTerm(good, request.mode) - ModeTerm(bad, request.mode) > -300.0 || request.mode != Cheapest;
  }

  /** A price bound under which the claim holds for every registry, request and pair of candidates. */
  ghost predicate BoundSuffices(bound: real) {
    forall reg, request, good, bad ::
      OutranksUnder(bound, reg, request, good, bad)
  }

  ghost predicate OutranksUnder(bound: real, reg: Registry, request: Request, good: Descriptor, bad: Descriptor) {
    && !TurnedAway(good, request.reqs)
    && 0.0 <= Price(good) < bound
    && 0.0 <= Price(bad) < bound
    && RowOf(reg, request, good).gaps == []
    && RowOf(reg, request, bad).gaps != []
    ==> RowOf(reg, request, good).score > RowOf(reg, request, bad).score
  }

  /** And 60 is exactly where the claim ends. */
  lemma {:induction false} SixtyIsTheBound(bound: real)
    ensures BoundSuffices(bound) <==> bound <= 60.0
  {
    if bound <= 60.0 {
      forall reg, request, good, bad
        ensures OutranksUnder(bound, reg, request, good, bad)
      {
        if !TurnedAway(good, request.reqs) && 0.0 <= Price(good) < bound && 0.0 <= Price(bad) < bound
          && RowOf(reg, request, good).gaps == [] && RowOf(reg, request, bad).gaps != []
        {
          GapFreeOutranks(reg, request, good, bad);
        }
      }
    } else {
      // A free model without a profile ties with one at a price of 60 that is out of the budget.
      var reqs := Requirements([], ApprovedCloud, Low, 0, false, false);
      var request := Request(reqs, Cheapest, None, Some(0.0), true, {});
      var good := Descriptor(
        "a", "A", true, false, false, ApprovedCloud, Affordable, true, true, None, Some(60.0), None);
      var bad := good.(modelId := "b", inputCost := None);
      var known := Some(Profile(map[], Limited, "probe"));
      var reg := Registry([bad, good], false, s => None, s => None, s => if s == "a" then known else None);
      assert Price(good) == 60.0 && Price(bad) == 0.0;
      assert RowOf(reg, request, good).gaps == [] && RowOf(reg, request, bad).gaps == [NoProfile];
      assert RowOf(reg, request, good).score == 50.0 + (10.0 - 60.0) * 5.0 - 200.0 + 500.0;
      assert RowOf(reg, request, bad).score == 50.0 + (10.0 - 0.0) * 5.0;
      assert !OutranksUnder(bound, reg, request, good, bad);
    }
  }

  // ----- Ranking: a stable sort, highest score first -----

  function Insert(row: Row, sorted: seq<Row>): (r: seq<Row>)
    ensures |r| == |sorted| + 1
  {
    if sorted == [] then [row]
    else if row.score >= sorted[0].score then [row] + sorted
    else [sorted[0]] + Insert(row, sorted[1..])
  }

  /** Earlier rows come before later ones with the same score. */
  function Ranked(rows: seq<Row>): (r: seq<Row>)
    ensures |r| == |rows|
  {
    if rows == [] then [] else Insert(rows[0], Ranked(rows[1..]))
  }

  predicate Descending(rows: seq<Row>) {
    forall j, k :: 0 <= j < k < |rows| ==> rows[j].score >= rows[k].score
  }

  lemma {:induction false} InsertKeepsRows(row: Row, sorted: seq<Row>)
    ensures multiset(Insert(row, sorted)) == multiset(sorted) + multiset{row}
    decreases |sorted|
  {
    if sorted != [] {
      assert sorted == [sorted[0]] + sorted[1..];
      if row.score < sorted[0].score {
        InsertKeepsRows(row, sorted[1..]);
      }
    }
  }

  lemma {:induction false} DescendingCons(first: Row, rest: seq<Row>)
    requires Descending(rest) && (rest != [] ==> first.score >= rest[0].score)
    ensures Descending([first] + rest)
  {
    var all := [first] + rest;
    forall j, k | 0 <= j < k < |all|
      ensures all[j].score >= all[k].score
    {
      assert all[k] == rest[k - 1];
      if j > 0 {
        assert all[j] == rest[j - 1];
      }
    }
  }

  lemma {:induction false} InsertKeepsOrder(row: Row, sorted: seq<Row>)
    requires Descending(sorted)
    ensures Descending(Insert(row, sorted))
    decreases |sorted|
  {
    if sorted == [] || row.score >= sorted[0].score {
      DescendingCons(row, sorted);
      assert Insert(row, sorted) == [row] + sorted;
    } else {
      InsertKeepsOrder(row, sorted[1..]);
      DescendingCons(sorted[0], Insert(row, sorted[1..]));
    }
  }

  lemma {:induction false} RankedIsSorted(rows: seq<Row>)
    ensures Descending(Ranked(rows)) && multiset(Ranked(rows)) == multiset(rows)
    decreases |rows|
  {
    if rows != [] {
      RankedIsSorted(rows[1..]);
      InsertKeepsOrder(rows[0], Ranked(rows[1..]));
      InsertKeepsRows(rows[0], Ranked(rows[1..]));
      assert rows == [rows[0]] + rows[1..];
    }
  }

  function WithScore(rows: seq<Row>, score: real): seq<Row> {
    if rows == [] then []
    else (if rows[0].score == score then [rows[0]] else []) + WithScore(rows[1..], score)
  }

  lemma {:induction false} WithScoreCons(first: Row, rest: seq<Row>, score: real)
    ensures WithScore([first] + rest, score) == (if first.score == score then [first] else []) + WithScore(rest, score)
  {
    assert ([first] + rest)[1..] == rest;
  }

  lemma {:induction false} InsertIsStable(row: Row, sorted: seq<Row>, score: real)
    requires Descending(sorted)
    ensures WithScore(Insert(row, sorted), score)
      == (if row.score == score then [row] else []) + WithScore(sorted, score)
    decreases |sorted|
  {
    if sorted == [] || row.score >= sorted[0].score {
      assert Insert(row, sorted) == [row] + sorted;
      WithScoreCons(row, sorted, score);
    } else {
      var first, rest := sorted[0], sorted[1..];
      InsertIsStable(row, rest, score);
      WithScoreCons(first, Insert(row, rest), score);
      assert row.score != score || first.score != score;
    }
  }

  /** Rows with the same score keep their order. */
  lemma {:induction false} RankedIsStable(rows: seq<Row>, score: real)
    ensures WithScore(Ranked(rows), score) == WithScore(rows, score)
    decreases |rows|
  {
    if rows != [] {
      RankedIsStable(rows[1..], score);
      RankedIsSorted(rows[1..]);
      InsertIsStable(rows[0], Ranked(rows[1..]), score);
    }
  }

  // ----- The decision -----

  datatype Decision = Decision(
    selected: Descriptor, selectedKey: string, alternatives: seq<string>, expectedCost: real, confidence: real,
    approvalRequired: bool, meetsRequirements: bool, gaps: seq<Gap>)

  predicate Measured(profile: Option<Profile>) {
    profile.Some? && profile.value.source !in {"conservative-prior", "prior", "unknown"}
  }

  /** The user's own choice, if it is one of the candidates; otherwise the best of them. */
  function Selected(reg: Registry, request: Request, ranked: seq<Row>): Descriptor
    requires ranked != []
  {
    if request.mode == Manual && request.choice.Some? && request.choice.value != "" then
      var user := reg.lookup(request.choice.value);
      if user.Some? && exists row :: row in ranked && row.desc == user.value then user.value else ranked[0].desc
    else ranked[0].desc
  }

  function DecisionFor(reg: Registry, request: Request, ranked: seq<Row>, row: Row): Decision
    requires ranked != []
  {
    var d := row.desc;
    var unproven := HighRisk(request.reqs) && !Measured(row.profile);
    var meets := row.gaps == [] && !unproven;
    var key := reg.resolve(d.modelId);
    Decision(
      d,
      if key.Some? && key.value != "" then key.value else d.modelId,
      Names(ranked[1..if |ranked| < 4 then |ranked| else 4]),
      (if d.inputCost.Some? then d.inputCost.value else 0.0) * 2000.0 / 1000000.0
      + (if d.outputCost.Some? then d.outputCost.value else 0.0) * 500.0 / 1000000.0,
      if meets && row.profile.Some? && row.profile.value.band in {StrongBand, SuitableBand} then 0.85 else 0.45,
      !meets || (d.tier == Frontier && request.askBeforeFrontier),
      meets,
      row.gaps + if unproven then [PriorOnly] else [])
  }

  function Names(rows: seq<Row>): seq<string> {
    seq(|rows|, k requires 0 <= k < |rows| => rows[k].desc.name)
  }

  /** The first ranked row of a model. */
  function RowFor(ranked: seq<Row>, d: Descriptor): (r: Row)
    requires exists row :: row in ranked && row.desc == d
    ensures r in ranked && r.desc == d
  {
    if ranked[0].desc == d then ranked[0] else RowFor(ranked[1..], d)
  }

  /** What `route` decides; nothing if no model is registered. */
  function Decide(reg: Registry, request: Request): Option<Decision> {
    var ranked := Ranked(Rows(reg, request, Candidates(reg, request)));
    if ranked == [] then None
    else
      RankedHasSelected(reg, request, ranked);
      Some(DecisionFor(reg, request, ranked, RowFor(ranked, Selected(reg, request, ranked))))
  }

  lemma {:induction false} RankedHasSelected(reg: Registry, request: Request, ranked: seq<Row>)
    requires ranked != []
    ensures exists row :: row in ranked && row.desc == Selected(reg, request, ranked)
  {
    assert ranked[0] in ranked;
  }

  /** A ranked row is the row of one of the candidates, and each candidate has one. */
  lemma {:induction false} RankedRows(reg: Registry, request: Request, row: Row)
    ensures row in Ranked(Rows(reg, request, Candidates(reg, request))) <==>
      row.desc in Candidates(reg, request) && row == RowOf(reg, request, row.desc)
  {
    var ds := Candidates(reg, request);
    var rows := Rows(reg, request, ds);
    RankedIsSorted(rows);
    assert row in Ranked(rows) <==> row in multiset(Ranked(rows));
    assert row in rows <==> row in multiset(rows);
    if row.desc in ds && row == RowOf(reg, request, row.desc) {
      var k :| 0 <= k < |ds| && ds[k] == row.desc;
      assert rows[k] == row;
    }
  }

  lemma {:induction false} GapsAreNotPrior(capabilities: map<string, Score>, minimums: seq<Minimum>)
    ensures PriorOnly !in GapsIn(capabilities, minimums)
    decreases |minimums|
  {
    if minimums != [] {
      GapsAreNotPrior(capabilities, minimums[..|minimums| - 1]);
    }
  }

  /** The decision is about one of the candidates and says of it what its own row and profile say: the gaps, one more if
      high-risk work would rest on a prior; whether approval is needed; and confidence above one half only for a proven
      and suitable model. */
  lemma {:induction false} DecisionIsAboutCandidate(reg: Registry, request: Request)
    requires Decide(reg, request).Some?
    ensures var decision := Decide(reg, request).value;
      var row := RowOf(reg, request, decision.selected);
      && decision.selected in Candidates(reg, request)
      && (decision.meetsRequirements <==> decision.gaps == [])
      && (decision.gaps == [] <==> row.gaps == [] && PriorOnly !in decision.gaps)
      && (forall gap :: gap != PriorOnly ==> (gap in decision.gaps <==> gap in row.gaps))
      && (PriorOnly in decision.gaps <==>
           request.reqs.risk in {High, Critical}
           && (row.profile.Some? ==> row.profile.value.source in {"conservative-prior", "prior", "unknown"}))
      && (decision.approvalRequired <==>
           !decision.meetsRequirements || (decision.selected.tier == Frontier && request.askBeforeFrontier))
      && (decision.confidence > 0.5 <==>
           decision.gaps == [] && row.profile.Some? && row.profile.value.band in {StrongBand, SuitableBand})
  {
    var ranked := Ranked(Rows(reg, request, Candidates(reg, request)));
    RankedHasSelected(reg, request, ranked);
    var row := RowFor(ranked, Selected(reg, request, ranked));
    RankedRows(reg, request, row);
    if row.profile.Some? {
      GapsAreNotPrior(row.profile.value.capabilities, request.reqs.minimums);
    }
  }

  /** The alternatives are the second to fourth best, whichever model was chosen: one chosen by hand from among them is
      listed as its own alternative, and the best one is not listed. */
  lemma {:induction false} AlternativesAreNextBest(reg: Registry, request: Request)
    requires Decide(reg, request).Some?
    ensures var alternatives, ds := Decide(reg, request).value.alternatives, Candidates(reg, request);
      var ranked := Ranked(Rows(reg, request, ds));
      && |alternatives| + 1 == (if |ds| < 4 then |ds| else 4)
      && forall k :: 0 <= k < |alternatives| ==> alternatives[k] == ranked[k + 1].desc.name
  {
    RankedIsSorted(Rows(reg, request, Candidates(reg, request)));
    RankedKeepsLength(Rows(reg, request, Candidates(reg, request)));
  }

  lemma {:induction false} RankedKeepsLength(rows: seq<Row>)
    ensures |Ranked(rows)| == |rows|
  {
    RankedIsSorted(rows);
    assert |multiset(Ranked(rows))| == |multiset(rows)|;
  }

  /** The model the user names in manual mode. */
  ghost predicate Asks(reg: Registry, request: Request, d: Descriptor) {
    && request.mode == Manual && request.choice.Some? && request.choice.value != ""
    && reg.lookup(request.choice.value) == Some(d)
  }

  /** A manual choice is taken if and only if it is one of the candidates; without one a candidate of the highest score
      is. */
  lemma {:induction false} ManualChoiceIsTakenIff(reg: Registry, request: Request)
    requires Decide(reg, request).Some?
    ensures var chosen := Decide(reg, request).value.selected;
      && (forall d :: Asks(reg, request, d) ==> (chosen == d <==> d in Candidates(reg, request)))
      && (!(exists d :: Asks(reg, request, d) && d in Candidates(reg, request)) ==>
            forall d :: d in Candidates(reg, request) ==>
              RowOf(reg, request, d).score <= RowOf(reg, request, chosen).score)
  {
    DecisionIsAboutCandidate(reg, request);
    var ranked := Ranked(Rows(reg, request, Candidates(reg, request)));
    forall d
      ensures d in Candidates(reg, request) <==> exists row :: row in ranked && row.desc == d
    {
      RankedRows(reg, request, RowOf(reg, request, d));
      forall row | row in ranked && row.desc == d
        ensures d in Candidates(reg, request)
      {
        RankedRows(reg, request, row);
      }
    }
    RankedHasSelected(reg, request, ranked);
    RankedIsSorted(Rows(reg, request, Candidates(reg, request)));
    if Selected(reg, request, ranked) == ranked[0].desc {
      forall d | d in Candidates(reg, request)
        ensures RowOf(reg, request, d).score <= RowOf(reg, request, ranked[0].desc).score
      {
        RankedRows(reg, request, RowOf(reg, request, d));
        RankedRows(reg, request, ranked[0]);
      }
    }
  }

  /** A decision is made unless nothing is registered. */
  lemma {:induction false} DecidesIff(reg: Registry, request: Request)
    ensures Decide(reg, request).Some? <==> reg.all != []
  {
    var ds := Candidates(reg, request);
    if reg.all == [] {
      assert ds == [];
    } else {
      assert ds != [];
    }
  }

  /** What keeps a registered model from being used for the request, by its description. */
  ghost predicate Unfit(reg: Registry, request: Request, d: Descriptor) {
    || !d.enabled
    || (d.custom && !reg.customConfigured)
    || (&& (request.mode == Private || request.reqs.privacy == LocalOnly)
        && !d.local && d.privacy in {ApprovedCloud, AnyAllowedProvider})
    || (request.reqs.tools && !d.tools)
    || (request.reqs.structuredOutput && !d.structuredOutput)
    || (d.contextWindow in {None, Some(0)} && request.reqs.context > 128000)
    || (d.contextWindow.Some? && 0 < d.contextWindow.value < request.reqs.context)
  }

  lemma {:induction false} UnfitIff(reg: Registry, request: Request, d: Descriptor)
    ensures Unfit(reg, request, d) <==> !Honours(reg, request, d)
  {
  }

  /** An unfit model is chosen only if every registered model is unfit: then all the filters are dropped at once. */
  lemma {:induction false} UnfitOnlyIfAllAre(reg: Registry, request: Request)
    requires Decide(reg, request).Some?
    ensures Unfit(reg, request, Decide(reg, request).value.selected) <==>
      forall d :: d in reg.all ==> Unfit(reg, request, d)
  {
    DecisionIsAboutCandidate(reg, request);
    var valid := Filter(reg.all, d => Honours(reg, request, d));
    var chosen := Decide(reg, request).value.selected;
    UnfitIff(reg, request, chosen);
    if valid != [] {
      assert valid[0] in valid;
      UnfitIff(reg, request, valid[0]);
      assert chosen in valid;
    } else {
      forall d | d in reg.all
        ensures Unfit(reg, request, d)
      {
        assert d !in valid;
        UnfitIff(reg, request, d);
      }
    }
  }

  /** The model is among those that failed before, by its id or by its key. */
  ghost predicate Failed(reg: Registry, request: Request, d: Descriptor) {
    exists name :: name in request.failed && (name == d.modelId || reg.resolve(d.modelId) == Some(name))
  }

  /** A model that failed before is chosen only if every fit model has failed. */
  lemma {:induction false} FailedIsLastResort(reg: Registry, request: Request, d: Descriptor)
    requires Decide(reg, request).Some? && Failed(reg, request, Decide(reg, request).value.selected)
    requires d in reg.all && !Unfit(reg, request, d)
    ensures Failed(reg, request, d)
  {
    DecisionIsAboutCandidate(reg, request);
    UnfitIff(reg, request, d);
    assert forall x :: Failed(reg, request, x) <==> HasFailed(reg, request, x);
    var valid := Filter(reg.all, d => Honours(reg, request, d));
    var left := Filter(valid, d => !HasFailed(reg, request, d));
    assert d in valid;
    assert Decide(reg, request).value.selected !in left;
    assert d !in left;
  }

  /** Without approval, high-risk work goes only to a model with a measured profile that meets every minimum
      with a confidence of at least one half; and a frontier model is never used unasked. */
  lemma {:induction false} UnapprovedHighRiskIsMeasured(reg: Registry, request: Request)
    requires Decide(reg, request).Some? && request.reqs.risk in {High, Critical}
    ensures var decision := Decide(reg, request).value;
      var profile := reg.profile(decision.selected.modelId);
      !decision.approvalRequired <==>
        && profile.Some? && profile.value.source !in {"conservative-prior", "prior", "unknown"}
        && (forall m :: m in request.reqs.minimums ==> Meets(profile.value.capabilities, m))
        && !(decision.selected.tier == Frontier && request.askBeforeFrontier)
  {
    DecisionIsAboutCandidate(reg, request);
    var profile := reg.profile(Decide(reg, request).value.selected.modelId);
    if profile.Some? {
      NoGapsMeansMet(profile.value.capabilities, request.reqs.minimums);
    }
  }

  /** If prices lie in [0, 60), nobody is turned away for privacy and the user makes no choice of their own,
      the chosen model has no gaps whenever some candidate has none. */
  lemma {:induction false} ChosenHasNoGapsIff(reg: Registry, request: Request)
    requires Decide(reg, request).Some?
    requires request.mode != Manual || request.choice.None?
    requires forall d :: d in Candidates(reg, request) ==>
      0.0 <= Price(d) < 60.0 && !TurnedAway(d, request.reqs)
    ensures RowOf(reg, request, Decide(reg, request).value.selected).gaps == [] <==>
      exists d :: d in Candidates(reg, request) && RowOf(reg, request, d).gaps == []
  {
    DecisionIsAboutCandidate(reg, request);
    var ds := Candidates(reg, request);
    var ranked := Ranked(Rows(reg, request, ds));
    RankedIsSorted(Rows(reg, request, ds));
    var best := ranked[0];
    RankedRows(reg, request, best);
    assert best.desc == Decide(reg, request).value.selected;
    forall d | d in ds && RowOf(reg, request, d).gaps == []
      ensures best.gaps == []
    {
      RankedRows(reg, request, RowOf(reg, request, d));
      assert RowOf(reg, request, d) in ranked;
      if best.gaps != [] {
        GapFreeOutranks(reg, request, d, best.desc);
      }
    }
  }

  // ----- The router -----

  class ModelRouter {
    var history: seq<Decision>

    constructor ()
      ensures history == []
    {
      history := [];
    }

    /** `_capability_gaps`. */
    static method CapabilityGaps(profile: Option<Profile>, reqs: Requirements) returns (gaps: seq<Gap>)
      ensures gaps == Gaps(profile, reqs)
    {
      if profile.None? {
        return [NoProfile];
      }
      gaps := [];
      for k := 0 to |reqs.minimums|
        invariant gaps == GapsIn(profile.value.capabilities, reqs.minimums[..k])
      {
        var m := reqs.minimums[k];
        assert reqs.minimums[..k + 1][..k] == reqs.minimums[..k];
        if m.dimension !in profile.value.capabilities {
          gaps := gaps + [Missing(m.dimension)];
        } else {
          var score := profile.value.capabilities[m.dimension];
          if score.score < m.minimum {
            gaps := gaps + [Below(m.dimension)];
          } else if score.confidence < 0.5 {
            gaps := gaps + [Unsure(m.dimension)];
          }
        }
      }
      assert reqs.minimums[..|reqs.minimums|] == reqs.minimums;
    }

    /** `_evaluate_model_suitability`. */
    method EvaluateModelSuitability(d: Descriptor, profile: Option<Profile>, request: Request) returns (score: real)
      ensures score == Suitability(d, profile, request)
    {
      score := 50.0;
      if request.reqs.privacy == LocalOnly && !d.local {
        return -1000.0;
      }
      var total := Price(d);
      match request.mode {
        case Cheapest => score := score + (10.0 - total) * 5.0;
        case Strongest =>
          if d.tier == Frontier {
            score := score + 40.0;
          } else if d.tier == Strong {
            score := score + 30.0;
          }
        case Fastest =>
          if d.local {
            score := score + 35.0;
          }
        case _ =>
      }
      if HighRisk(request.reqs) {
        match d.tier {
          case Frontier => score := score + 35.0;
          case Strong => score := score + 28.0;
          case Affordable => score := score + 8.0;
          case LocalTier => score := score - 35.0;
        }
      }
      if profile.Some? {
        var minimums, capabilities := request.reqs.minimums, profile.value.capabilities;
        ghost var start := score;
        for k := 0 to |minimums|
          invariant score == start + FitTerm(capabilities, minimums[..k])
        {
          assert minimums[..k + 1][..k] == minimums[..k];
          var m := minimums[k];
          if m.dimension in capabilities {
            score := if capabilities[m.dimension].score >= m.minimum then score + 15.0 else score - 25.0;
          }
        }
        assert minimums[..|minimums|] == minimums;
      }
      if request.budget.Some? && total * 0.005 > request.budget.value {
        score := score - 200.0;
      }
    }

    /** The loop that scores the candidates. */
    method ScoreCandidates(reg: Registry, request: Request, ds: seq<Descriptor>) returns (rows: seq<Row>)
      ensures rows == Rows(reg, request, ds)
    {
      rows := [];
      for k := 0 to |ds|
        invariant rows == Rows(reg, request, ds[..k])
      {
        var profile := reg.profile(ds[k].modelId);
        var gaps := CapabilityGaps(profile, request.reqs);
        var score := EvaluateModelSuitability(ds[k], profile, request);
        if gaps == [] {
          score := score + 500.0;
        } else if HighRisk(request.reqs) {
          score := score - 500.0;
        }
        rows := rows + [Row(score, ds[k], profile, gaps)];
      }
      assert ds[..|ds|] == ds;
    }

    /** `route`: the decision is returned and kept, or no model is registered. */
    method Route(reg: Registry, request: Request) returns (r: Option<Decision>)
      modifies this
      ensures r == Decide(reg, request)
      ensures history == if r.Some? then old(history) + [r.value] else old(history)
    {
      var valid := Filter(reg.all, d => Honours(reg, request, d));
      var nonFailed := Filter(valid, d => !HasFailed(reg, request, d));
      if nonFailed != [] {
        valid := nonFailed;
      }
      if valid == [] {
        valid := reg.all;
      }
      assert valid == Candidates(reg, request);
      if valid == [] {
        return None;
      }
      var scored := ScoreCandidates(reg, request, valid);
      scored := Ranked(scored);
      var selected := scored[0].desc;
      if request.mode == Manual && request.choice.Some? && request.choice.value != "" {
        var user := reg.lookup(request.choice.value);
        if user.Some? && exists row :: row in scored && row.desc == user.value {
          selected := user.value;
        }
      }
      RankedHasSelected(reg, request, scored);
      var decision := DecisionFor(reg, request, scored, RowFor(scored, selected));
      history := history + [decision];
      r := Some(decision);
    }
  }
}
