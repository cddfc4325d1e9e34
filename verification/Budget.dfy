/** Hard per-run limits for hosted calls: reservation before a call, accounting after it. */
module Budget {
  import opened Wrappers

  datatype Limits = Limits(
    maxHostedCalls: Option<int>,
    maxProviderAttempts: Option<int>,
    maxPromptTokens: Option<int>,
    maxCompletionTokens: Option<int>,
    maxCostUsd: Option<real>,
    inputPrice: Option<real>,    // per million tokens
    outputPrice: Option<real>
  ) {
    /** What `validate` accepts, as far as the limits that are enforced go. */
    predicate Ok() {
      && (maxHostedCalls.Some? ==> maxHostedCalls.value >= 0)
      && (maxProviderAttempts.Some? ==> maxProviderAttempts.value >= 0)
      && (maxPromptTokens.Some? ==> maxPromptTokens.value >= 0)
      && (maxCompletionTokens.Some? ==> maxCompletionTokens.value >= 0)
      && (maxCostUsd.Some? ==> maxCostUsd.value >= 0.0)
      && (inputPrice.Some? ==> inputPrice.value >= 0.0)
      && (outputPrice.Some? ==> outputPrice.value >= 0.0)
      && (maxCostUsd.Some? ==> inputPrice.Some? && outputPrice.Some?)
    }
  }

  datatype Usage = Usage(
    hostedCalls: nat,
    providerAttempts: nat,
    byProvider: map<string, nat>,
    byModel: map<string, nat>,
    promptTokens: nat,
    completionTokens: nat,
    costUsd: real
  )

  const NO_USAGE := Usage(0, 0, map[], map[], 0, 0, 0.0)

  datatype Denial = CallsExhausted | AttemptsExhausted | LimitExceeded | PromptTooLong | CostTooHigh | NothingLeft

  /** `_estimate_cost`: the linear price of a number of tokens, zero when a price is missing. */
  function Price(limits: Limits, prompt: int, completion: int): real {
    if limits.inputPrice.None? || limits.outputPrice.None? then 0.0
    else (prompt as real * limits.inputPrice.value + completion as real * limits.outputPrice.value) / 1000000.0
  }

  function Min(a: int, b: int): int {
    if a < b then a else b
  }

  function Max(a: int, b: int): int {
    if a > b then a else b
  }

  predicate AtMost(used: int, limit: Option<int>) {
    limit.Some? ==> used <= limit.value
  }

  /** `_check_token_and_cost_limits` passes. */
  predicate WithinLimits(limits: Limits, u: Usage) {
    && AtMost(u.promptTokens, limits.maxPromptTokens)
    && AtMost(u.completionTokens, limits.maxCompletionTokens)
    && (limits.maxCostUsd.Some? ==> u.costUsd <= limits.maxCostUsd.value)
  }

  /** A call that uses this many tokens on top of `u` stays inside every limit. */
  predicate Fits(limits: Limits, u: Usage, prompt: int, completion: int) {
    && AtMost(u.promptTokens + prompt, limits.maxPromptTokens)
    && AtMost(u.completionTokens + completion, limits.maxCompletionTokens)
    && (limits.maxCostUsd.Some? ==> u.costUsd + Price(limits, prompt, completion) <= limits.maxCostUsd.value)
  }

  /** The price formula is exactly what the accounts say. */
  predicate CostExact(limits: Limits, u: Usage) {
    u.costUsd == Price(limits, u.promptTokens, u.completionTokens)
  }

  lemma {:induction false} PriceIsAdditive(limits: Limits, p: int, c: int, q: int, d: int)
    ensures Price(limits, p + q, c + d) == Price(limits, p, c) + Price(limits, q, d)
  {
    if limits.inputPrice.Some? && limits.outputPrice.Some? {
      var a, b := limits.inputPrice.value, limits.outputPrice.value;
      assert (p + q) as real * a == p as real * a + q as real * a;
      assert (c + d) as real * b == c as real * b + d as real * b;
    }
  }

  lemma {:induction false} PriceIsMonotone(limits: Limits, p: int, c: int, q: int, d: int)
    requires limits.Ok() && p <= q && c <= d
    ensures Price(limits, p, c) <= Price(limits, q, d)
  {
    if limits.inputPrice.Some? && limits.outputPrice.Some? {
      Scales(p, q, limits.inputPrice.value);
      Scales(c, d, limits.outputPrice.value);
    }
  }

  lemma {:induction false} Scales(p: int, q: int, a: real)
    requires p <= q && a >= 0.0
    ensures p as real * a <= q as real * a
  {
  }

  // ----- Reservation -----

  /** The number of completion tokens whose price fits into `remaining`. */
  function Affordable(remaining: real, outputPrice: real): int
    requires outputPrice > 0.0
  {
    (remaining * 1000000.0 / outputPrice).Floor
  }

  lemma {:induction false} FloorIsTight(remaining: real, outputPrice: real, n: int)
    requires outputPrice > 0.0
    ensures n <= Affordable(remaining, outputPrice) <==> n as real * outputPrice / 1000000.0 <= remaining
  {
    var x := remaining * 1000000.0 / outputPrice;
    assert n <= x.Floor <==> n as real <= x;
    assert x * outputPrice == remaining * 1000000.0;
    if n as real <= x {
      assert n as real * outputPrice <= x * outputPrice;
    } else {
      assert n as real * outputPrice > x * outputPrice;
    }
  }

  /** What is left of the currency budget once the prompt is paid for. */
  function Remaining(limits: Limits, u: Usage, promptBound: nat): real
    requires limits.Ok() && limits.maxCostUsd.Some?
  {
    limits.maxCostUsd.value - (u.costUsd + promptBound as real * limits.inputPrice.value / 1000000.0)
  }

  /** `before_hosted_call`: the completion allowance, or why the call is denied. */
  function Allowance(limits: Limits, u: Usage, promptBound: nat, requested: int): Result<nat, Denial>
    requires limits.Ok()
  {
    if limits.maxHostedCalls.Some? && u.hostedCalls >= limits.maxHostedCalls.value then Err(CallsExhausted)
    else if !WithinLimits(limits, u) then Err(LimitExceeded)
    else if !AtMost(u.promptTokens + promptBound, limits.maxPromptTokens) then Err(PromptTooLong)
    else
      var wanted := Max(0, requested);
      var byTokens :=
        if limits.maxCompletionTokens.Some? then Min(wanted, limits.maxCompletionTokens.value - u.completionTokens)
        else wanted;
      if limits.maxCostUsd.None? then (if byTokens <= 0 then Err(NothingLeft) else Ok(byTokens))
      else
        var remaining := Remaining(limits, u, promptBound);
        if remaining <= 0.0 then Err(CostTooHigh)
        else
          var byCost :=
            if limits.outputPrice.value > 0.0 then Min(byTokens, Affordable(remaining, limits.outputPrice.value))
            else byTokens;
          if byCost <= 0 then Err(NothingLeft) else Ok(byCost)
  }

  lemma {:induction false} CostFitsIff(limits: Limits, u: Usage, promptBound: nat, n: int)
    requires limits.Ok() && limits.maxCostUsd.Some?
    ensures Price(limits, promptBound, 0) == promptBound as real * limits.inputPrice.value / 1000000.0
    ensures u.costUsd + Price(limits, promptBound, n) <= limits.maxCostUsd.value
      <==> n as real * limits.outputPrice.value / 1000000.0 <= Remaining(limits, u, promptBound)
    ensures limits.outputPrice.value > 0.0 ==>
      (u.costUsd + Price(limits, promptBound, n) <= limits.maxCostUsd.value
       <==> n <= Affordable(Remaining(limits, u, promptBound), limits.outputPrice.value))
  {
    if limits.outputPrice.value > 0.0 {
      FloorIsTight(Remaining(limits, u, promptBound), limits.outputPrice.value, n);
    }
  }

  /** The allowance is the largest number of completion tokens, up to the request, that keeps the call inside
      every limit. */
  lemma {:induction false} AllowanceIsLargest(limits: Limits, u: Usage, promptBound: nat, requested: int)
    requires limits.Ok() && Allowance(limits, u, promptBound, requested).Ok?
    ensures var n := Allowance(limits, u, promptBound, requested).value;
      && 0 < n <= requested
      && Fits(limits, u, promptBound, n)
      && (n < requested ==> !Fits(limits, u, promptBound, n + 1))
  {
    var n := Allowance(limits, u, promptBound, requested).value;
    if limits.maxCostUsd.Some? {
      CostFitsIff(limits, u, promptBound, n);
      CostFitsIff(limits, u, promptBound, n + 1);
    }
  }

  /** A call is denied exactly if the call count is used up, a limit is already exceeded, not a single
      completion token fits, or the prompt alone uses up the currency budget. */
  lemma {:induction false} DeniedIff(limits: Limits, u: Usage, promptBound: nat, requested: int)
    requires limits.Ok()
    ensures Allowance(limits, u, promptBound, requested).Err? <==>
      || (limits.maxHostedCalls.Some? && u.hostedCalls >= limits.maxHostedCalls.value)
      || !WithinLimits(limits, u)
      || requested <= 0
      || !Fits(limits, u, promptBound, 1)
      || (limits.maxCostUsd.Some? && u.costUsd + Price(limits, promptBound, 0) == limits.maxCostUsd.value)
  {
    if limits.maxCostUsd.Some? {
      CostFitsIff(limits, u, promptBound, 1);
      CostFitsIff(limits, u, promptBound, 0);
    }
  }

  // ----- Accounting -----

  function Counted(counts: map<string, nat>, key: string): map<string, nat> {
    counts[key := (if key in counts then counts[key] else 0) + 1]
  }

  function OrUnknown(name: string): string {
    if name == "" then "unknown" else name
  }

  /** One more is counted under the name, or under "unknown" if it is empty, and nothing else changes. */
  ghost predicate CountedOnce(before: map<string, nat>, after: map<string, nat>, name: string) {
    && (forall key :: (key == name != "" || (name == "" && key == "unknown")) ==>
          key in after && after[key] == 1 + if key in before then before[key] else 0)
    && (forall key :: !(key == name != "" || (name == "" && key == "unknown")) ==>
          (key in after <==> key in before) && (key in before ==> after[key] == before[key]))
  }

  function WithCall(u: Usage): Usage {
    u.(hostedCalls := u.hostedCalls + 1)
  }

  function WithAttempt(u: Usage, provider: string, model: string): Usage {
    u.(providerAttempts := u.providerAttempts + 1,
       byProvider := Counted(u.byProvider, OrUnknown(provider)),
       byModel := Counted(u.byModel, OrUnknown(model)))
  }

  /** An attempt is counted once under its provider and once under its model. */
  lemma {:induction false} AttemptCountsOnce(u: Usage, provider: string, model: string)
    ensures var after := WithAttempt(u, provider, model);
      && CountedOnce(u.byProvider, after.byProvider, provider)
      && CountedOnce(u.byModel, after.byModel, model)
      && after == u.(providerAttempts := u.providerAttempts + 1,
                     byProvider := after.byProvider, byModel := after.byModel)
  {
    CountsOnce(u.byProvider, provider);
    CountsOnce(u.byModel, model);
  }

  lemma {:induction false} CountsOnce(counts: map<string, nat>, name: string)
    ensures CountedOnce(counts, Counted(counts, OrUnknown(name)), name)
  {
  }

  function WithTokens(limits: Limits, u: Usage, prompt: int, completion: int): Usage {
    var p: nat := u.promptTokens + Max(0, prompt);
    var c: nat := u.completionTokens + Max(0, completion);
    u.(promptTokens := p, completionTokens := c, costUsd := Price(limits, p, c))
  }

  // ----- Sums -----

  ghost function SumOver(keys: set<string>, counts: map<string, nat>): nat
    requires keys <= counts.Keys
  {
    if keys == {} then 0
    else
      var key :| key in keys;
      counts[key] + SumOver(keys - {key}, counts)
  }

  ghost function Sum(counts: map<string, nat>): nat {
    SumOver(counts.Keys, counts)
  }

  lemma {:induction false} SumOverPick(keys: set<string>, counts: map<string, nat>, key: string)
    requires keys <= counts.Keys && key in keys
    ensures SumOver(keys, counts) == counts[key] + SumOver(keys - {key}, counts)
  {
    var first :| first in keys && SumOver(keys, counts) == counts[first] + SumOver(keys - {first}, counts);
    if first != key {
      SumOverPick(keys - {first}, counts, key);
      SumOverPick(keys - {key}, counts, first);
      assert keys - {first} - {key} == keys - {key} - {first};
    }
  }

  lemma {:induction false} SumOverAgree(keys: set<string>, counts: map<string, nat>, counts': map<string, nat>)
    requires keys <= counts.Keys && keys <= counts'.Keys
    requires forall key :: key in keys ==> counts[key] == counts'[key]
    ensures SumOver(keys, counts) == SumOver(keys, counts')
  {
    if keys != {} {
      var key :| key in keys;
      SumOverPick(keys, counts, key);
      SumOverPick(keys, counts', key);
      SumOverAgree(keys - {key}, counts, counts');
    }
  }

  lemma {:induction false} CountedAddsOne(counts: map<string, nat>, key: string)
    ensures Sum(Counted(counts, key)) == Sum(counts) + 1
  {
    var counts' := Counted(counts, key);
    assert counts'.Keys == counts.Keys + {key};
    SumOverPick(counts'.Keys, counts', key);
    assert counts'.Keys - {key} == counts.Keys - {key};
    SumOverAgree(counts.Keys - {key}, counts, counts');
    if key in counts {
      SumOverPick(counts.Keys, counts, key);
    } else {
      assert counts.Keys - {key} == counts.Keys;
    }
  }

  // ----- Interleaved callers -----

  /** A reservation that has not been accounted for yet. */
  datatype Grant = Grant(promptBound: nat, allowance: nat)

  datatype Ledger = Ledger(u: Usage, open: seq<Grant>)

  datatype Event =
    | Call(promptBound: nat, requested: int)
    | Attempt(provider: string, model: string)
    | Report(i: nat, prompt: int, completion: int)
    | Abandon(i: nat)    // the provider call raised: nothing is recorded

  function Without(open: seq<Grant>, i: nat): seq<Grant>
    requires i < |open|
  {
    open[..i] + open[i + 1..]
  }

  predicate AttemptAllowed(limits: Limits, u: Usage) {
    limits.maxProviderAttempts.Some? ==> u.providerAttempts < limits.maxProviderAttempts.value
  }

  /** A provider stays within what its call was granted. */
  predicate Legal(l: Ledger, e: Event) {
    match e
    case Call(_, _) => true
    case Attempt(_, _) => true
    case Report(i, prompt, completion) =>
      i < |l.open| && prompt <= l.open[i].promptBound && completion <= l.open[i].allowance
    case Abandon(i) => i < |l.open|
  }

  function Step(limits: Limits, l: Ledger, e: Event): Ledger
    requires limits.Ok() && Legal(l, e)
  {
    match e
    case Call(promptBound, requested) =>
      var r := Allowance(limits, l.u, promptBound, requested);
      if r.Ok? && r.value >= 0 then Ledger(WithCall(l.u), l.open + [Grant(promptBound, r.value)]) else l
    case Attempt(provider, model) =>
      if AttemptAllowed(limits, l.u) then l.(u := WithAttempt(l.u, provider, model)) else l
    case Report(i, prompt, completion) =>
      Ledger(WithTokens(limits, l.u, prompt, completion), Without(l.open, i))
    case Abandon(i) => l.(open := Without(l.open, i))
  }

  /** A run from an unused controller with never more than `k` calls outstanding. */
  ghost predicate IsRun(limits: Limits, k: nat, trace: seq<Ledger>, events: seq<Event>)
    requires limits.Ok()
  {
    && |trace| == |events| + 1
    && trace[0] == Ledger(NO_USAGE, [])
    && (forall i :: 0 <= i < |trace| ==> |trace[i].open| <= k)
    && (forall i :: 0 <= i < |events| ==>
         Legal(trace[i], events[i]) && trace[i + 1] == Step(limits, trace[i], events[i]))
  }

  function PromptSum(open: seq<Grant>): nat {
    if open == [] then 0 else PromptSum(open[..|open| - 1]) + open[|open| - 1].promptBound
  }

  function AllowanceSum(open: seq<Grant>): nat {
    if open == [] then 0 else AllowanceSum(open[..|open| - 1]) + open[|open| - 1].allowance
  }

  lemma {:induction false} SumsWithout(open: seq<Grant>, i: nat)
    requires i < |open|
    ensures PromptSum(Without(open, i)) == PromptSum(open) - open[i].promptBound
    ensures AllowanceSum(Without(open, i)) == AllowanceSum(open) - open[i].allowance
    decreases |open|
  {
    var n := |open| - 1;
    if i == n {
      assert Without(open, i) == open[..n];
    } else {
      SumsWithout(open[..n], i);
      assert Without(open, i)[..n - 1] == Without(open[..n], i);
    }
  }

  // For each limited total: every grant fits on its own, and what is used plus what is outstanding stays
  // below `k` limits.

  ghost predicate PromptBounded(k: nat, used: nat, open: seq<Grant>, limit: int) {
    && (forall i :: 0 <= i < |open| ==> open[i].promptBound <= limit)
    && used + PromptSum(open) <= k * limit
  }

  ghost predicate CompletionBounded(k: nat, used: nat, open: seq<Grant>, limit: int) {
    && (forall i :: 0 <= i < |open| ==> open[i].allowance <= limit)
    && used + AllowanceSum(open) <= k * limit
  }

  function GrantPrice(limits: Limits, g: Grant): real {
    Price(limits, g.promptBound, g.allowance)
  }

  ghost predicate CostBounded(limits: Limits, k: nat, used: real, open: seq<Grant>, limit: real) {
    && (forall i :: 0 <= i < |open| ==> GrantPrice(limits, open[i]) <= limit)
    && used + Price(limits, PromptSum(open), AllowanceSum(open)) <= k as real * limit
  }

  ghost predicate KBound(limits: Limits, k: nat, l: Ledger) {
    && CostExact(limits, l.u)
    && (limits.maxPromptTokens.Some? ==> PromptBounded(k, l.u.promptTokens, l.open, limits.maxPromptTokens.value))
    && (limits.maxCompletionTokens.Some? ==>
      CompletionBounded(k, l.u.completionTokens, l.open, limits.maxCompletionTokens.value))
    && (limits.maxCostUsd.Some? ==> CostBounded(limits, k, l.u.costUsd, l.open, limits.maxCostUsd.value))
  }

  ghost predicate CountsHold(limits: Limits, u: Usage) {
    && AtMost(u.hostedCalls, limits.maxHostedCalls)
    && AtMost(u.providerAttempts, limits.maxProviderAttempts)
    && Sum(u.byProvider) == u.providerAttempts
    && Sum(u.byModel) == u.providerAttempts
  }

  lemma {:induction false} PromptSumBound(open: seq<Grant>, bound: int)
    requires bound >= 0 && forall i :: 0 <= i < |open| ==> open[i].promptBound <= bound
    ensures PromptSum(open) <= |open| * bound
    decreases |open|
  {
    if open != [] {
      PromptSumBound(open[..|open| - 1], bound);
      assert |open| * bound == (|open| - 1) * bound + bound;
    }
  }

  lemma {:induction false} AllowanceSumBound(open: seq<Grant>, bound: int)
    requires bound >= 0 && forall i :: 0 <= i < |open| ==> open[i].allowance <= bound
    ensures AllowanceSum(open) <= |open| * bound
    decreases |open|
  {
    if open != [] {
      AllowanceSumBound(open[..|open| - 1], bound);
      assert |open| * bound == (|open| - 1) * bound + bound;
    }
  }

  lemma {:induction false} PriceSumBound(limits: Limits, open: seq<Grant>, bound: real)
    requires bound >= 0.0 && forall i :: 0 <= i < |open| ==> GrantPrice(limits, open[i]) <= bound
    ensures Price(limits, PromptSum(open), AllowanceSum(open)) <= |open| as real * bound
    decreases |open|
  {
    if open == [] {
      PriceOfNothing(limits);
    } else {
      var n := |open| - 1;
      PriceSumBound(limits, open[..n], bound);
      PriceIsAdditive(limits, PromptSum(open[..n]), AllowanceSum(open[..n]), open[n].promptBound, open[n].allowance);
      assert |open| as real * bound == n as real * bound + bound;
    }
  }

  lemma {:induction false} PriceOfNothing(limits: Limits)
    ensures Price(limits, 0, 0) == 0.0
  {
  }

  lemma {:induction false} MoreSlots(m: nat, k: nat, bound: int)
    requires m <= k && bound >= 0
    ensures m * bound <= k * bound
  {
  }

  lemma {:induction false} MoreSlotsReal(m: nat, k: nat, bound: real)
    requires m <= k && bound >= 0.0
    ensures m as real * bound <= k as real * bound
  {
  }

  lemma {:induction false} GrantKeepsPromptBound(k: nat, used: nat, open: seq<Grant>, limit: int, g: Grant)
    requires PromptBounded(k, used, open, limit) && |open| < k && used + g.promptBound <= limit
    ensures PromptBounded(k, used, open + [g], limit)
  {
    assert (open + [g])[..|open|] == open;
    PromptSumBound(open, limit);
    MoreSlots(|open| + 1, k, limit);
    assert (|open| + 1) * limit == |open| * limit + limit;
  }

  lemma {:induction false} GrantKeepsCompletionBound(k: nat, used: nat, open: seq<Grant>, limit: int, g: Grant)
    requires CompletionBounded(k, used, open, limit) && |open| < k && used + g.allowance <= limit
    ensures CompletionBounded(k, used, open + [g], limit)
  {
    assert (open + [g])[..|open|] == open;
    AllowanceSumBound(open, limit);
    MoreSlots(|open| + 1, k, limit);
    assert (|open| + 1) * limit == |open| * limit + limit;
  }

  lemma {:induction false} OneMoreSlot(used: real, outstanding: real, price: real, limit: real, m: nat, k: nat)
    requires used + price <= limit && outstanding <= m as real * limit
    requires limit >= 0.0 && m < k
    ensures used + (outstanding + price) <= k as real * limit
  {
    MoreSlotsReal(m + 1, k, limit);
    assert (m + 1) as real * limit == m as real * limit + limit;
  }

  lemma {:induction false} PriceOfOneMore(limits: Limits, open: seq<Grant>, g: Grant)
    ensures Price(limits, PromptSum(open + [g]), AllowanceSum(open + [g]))
      == Price(limits, PromptSum(open), AllowanceSum(open)) + GrantPrice(limits, g)
  {
    assert (open + [g])[..|open|] == open;
    PriceIsAdditive(limits, PromptSum(open), AllowanceSum(open), g.promptBound, g.allowance);
  }

  lemma {:induction false} GrantKeepsCostBound(
      limits: Limits, k: nat, used: real, open: seq<Grant>, limit: real, g: Grant)
    requires CostBounded(limits, k, used, open, limit) && |open| < k
    requires 0.0 <= used && used + GrantPrice(limits, g) <= limit && limit >= 0.0
    ensures CostBounded(limits, k, used, open + [g], limit)
  {
    PriceSumBound(limits, open, limit);
    PriceOfOneMore(limits, open, g);
    OneMoreSlot(
      used, Price(limits, PromptSum(open), AllowanceSum(open)), GrantPrice(limits, g), limit, |open|, k);
  }

  lemma {:induction false} CallKeepsKBound(limits: Limits, k: nat, l: Ledger, promptBound: nat, requested: int)
    requires limits.Ok() && KBound(limits, k, l) && |l.open| < k
    requires Allowance(limits, l.u, promptBound, requested).Ok?
    ensures KBound(limits, k, Step(limits, l, Call(promptBound, requested)))
  {
    AllowanceIsLargest(limits, l.u, promptBound, requested);
    var g := Grant(promptBound, Allowance(limits, l.u, promptBound, requested).value);
    PriceIsMonotone(limits, 0, 0, l.u.promptTokens, l.u.completionTokens);
    PriceOfNothing(limits);
    if limits.maxPromptTokens.Some? {
      GrantKeepsPromptBound(k, l.u.promptTokens, l.open, limits.maxPromptTokens.value, g);
    }
    if limits.maxCompletionTokens.Some? {
      GrantKeepsCompletionBound(k, l.u.completionTokens, l.open, limits.maxCompletionTokens.value, g);
    }
    if limits.maxCostUsd.Some? {
      GrantKeepsCostBound(limits, k, l.u.costUsd, l.open, limits.maxCostUsd.value, g);
    }
  }

  lemma {:induction false} ClosingKeepsKBound(
      limits: Limits, k: nat, l: Ledger, i: nat, u': Usage, prompt: nat, completion: nat)
    requires limits.Ok() && KBound(limits, k, l) && i < |l.open|
    requires prompt <= l.open[i].promptBound && completion <= l.open[i].allowance
    requires u'.promptTokens == l.u.promptTokens + prompt && u'.completionTokens == l.u.completionTokens + completion
    requires CostExact(limits, u')
    ensures KBound(limits, k, Ledger(u', Without(l.open, i)))
  {
    SumsWithout(l.open, i);
    var open' := Without(l.open, i);
    assert forall j :: 0 <= j < |open'| ==> open'[j] == l.open[if j < i then j else j + 1];
    PriceIsAdditive(limits, l.u.promptTokens, l.u.completionTokens, prompt, completion);
    PriceIsAdditive(limits, prompt, completion, PromptSum(open'), AllowanceSum(open'));
    PriceIsMonotone(limits, prompt + PromptSum(open'), completion + AllowanceSum(open'),
                    PromptSum(l.open), AllowanceSum(l.open));
  }

  lemma {:induction false} StepKeepsKBound(limits: Limits, k: nat, l: Ledger, e: Event)
    requires limits.Ok() && KBound(limits, k, l) && Legal(l, e) && |Step(limits, l, e).open| <= k
    ensures KBound(limits, k, Step(limits, l, e))
  {
    match e
    case Call(promptBound, requested) =>
      if Allowance(limits, l.u, promptBound, requested).Ok? {
        AllowanceIsLargest(limits, l.u, promptBound, requested);
        CallKeepsKBound(limits, k, l, promptBound, requested);
      }
    case Attempt(_, _) =>
    case Report(i, prompt, completion) =>
      ClosingKeepsKBound(
        limits, k, l, i, WithTokens(limits, l.u, prompt, completion), Max(0, prompt), Max(0, completion));
    case Abandon(i) =>
      ClosingKeepsKBound(limits, k, l, i, l.u, 0, 0);
  }

  lemma {:induction false} StepKeepsCounts(limits: Limits, l: Ledger, e: Event)
    requires limits.Ok() && Legal(l, e) && CountsHold(limits, l.u)
    ensures CountsHold(limits, Step(limits, l, e).u)
  {
    if e.Attempt? {
      CountedAddsOne(l.u.byProvider, OrUnknown(e.provider));
      CountedAddsOne(l.u.byModel, OrUnknown(e.model));
    }
  }

  lemma {:induction false} RunInvariant(limits: Limits, k: nat, trace: seq<Ledger>, events: seq<Event>, i: nat)
    requires limits.Ok() && IsRun(limits, k, trace, events) && i < |trace|
    ensures KBound(limits, k, trace[i]) && CountsHold(limits, trace[i].u)
  {
    if i == 0 {
      PriceOfNothing(limits);
    } else {
      RunInvariant(limits, k, trace, events, i - 1);
      assert trace[i - 1 + 1] == Step(limits, trace[i - 1], events[i - 1]);
      StepKeepsKBound(limits, k, trace[i - 1], events[i - 1]);
      StepKeepsCounts(limits, trace[i - 1], events[i - 1]);
    }
  }

  /** With at most `k` calls outstanding, in any interleaving, no total ever exceeds `k` times its limit,
      and the call and attempt counts never exceed theirs. */
  lemma {:induction false} UsageIsBounded(limits: Limits, k: nat, trace: seq<Ledger>, events: seq<Event>, i: nat)
    requires limits.Ok() && IsRun(limits, k, trace, events) && i < |trace|
    ensures var u := trace[i].u;
      && (limits.maxPromptTokens.Some? ==> u.promptTokens <= k * limits.maxPromptTokens.value)
      && (limits.maxCompletionTokens.Some? ==> u.completionTokens <= k * limits.maxCompletionTokens.value)
      && (limits.maxCostUsd.Some? ==> u.costUsd <= k as real * limits.maxCostUsd.value)
      && AtMost(u.hostedCalls, limits.maxHostedCalls)
      && AtMost(u.providerAttempts, limits.maxProviderAttempts)
      && Sum(u.byProvider) == u.providerAttempts && Sum(u.byModel) == u.providerAttempts
      && CostExact(limits, u)
  {
    RunInvariant(limits, k, trace, events, i);
    PriceIsMonotone(limits, 0, 0, PromptSum(trace[i].open), AllowanceSum(trace[i].open));
    PriceOfNothing(limits);
  }

  function Attempts(events: seq<Event>): nat {
    if events == [] then 0
    else Attempts(events[..|events| - 1]) + if events[|events| - 1].Attempt? then 1 else 0
  }

  /** Every attempt is counted until the limit is reached, and none after that, in whatever order events come. */
  lemma {:induction false} AttemptsAreCounted(limits: Limits, k: nat, trace: seq<Ledger>, events: seq<Event>, i: nat)
    requires limits.Ok() && IsRun(limits, k, trace, events) && i < |trace|
    ensures var tried, limit := Attempts(events[..i]), limits.maxProviderAttempts;
      trace[i].u.providerAttempts == if limit.Some? && limit.value < tried then limit.value else tried
  {
    if i > 0 {
      AttemptsAreCounted(limits, k, trace, events, i - 1);
      assert events[..i][..i - 1] == events[..i - 1] && events[..i][i - 1] == events[i - 1];
      AttemptStep(limits, trace[i - 1], events[i - 1]);
    }
  }

  lemma {:induction false} AttemptStep(limits: Limits, l: Ledger, e: Event)
    requires limits.Ok() && Legal(l, e)
    ensures Step(limits, l, e).u.providerAttempts - l.u.providerAttempts ==
      if e.Attempt? && !(limits.maxProviderAttempts.Some? && l.u.providerAttempts >= limits.maxProviderAttempts.value)
      then 1 else 0
  {
  }

  /** In sequential use, with at most one call outstanding, accounting never raises. */
  lemma {:induction false} SequentialUseNeverRaises(limits: Limits, trace: seq<Ledger>, events: seq<Event>, i: nat)
    requires limits.Ok() && IsRun(limits, 1, trace, events) && i < |trace|
    ensures WithinLimits(limits, trace[i].u)
  {
    UsageIsBounded(limits, 1, trace, events, i);
  }

  // With `k` calls outstanding each total can reach `k` times its limit: `k` calls that fit on their own, and
  // then the reports of what they were granted.

  /** The same bound on prompt tokens, completion tokens and cost, one unit of cost a completion token. */
  function Alike(bound: nat): (limits: Limits)
    ensures limits.Ok()
  {
    Limits(None, None, Some(bound), Some(bound), Some(bound as real), Some(0.0), Some(1000000.0))
  }

  function Grants(bound: nat, n: nat): (r: seq<Grant>)
    ensures |r| == n && forall i :: 0 <= i < n ==> r[i] == Grant(bound, bound)
  {
    seq(n, _ => Grant(bound, bound))
  }

  /** After `calls` calls and `reports` reports. */
  function Overdrawn(bound: nat, calls: nat, reports: nat): Ledger
    requires reports <= calls
  {
    var tokens := reports * bound;
    Ledger(Usage(calls, 0, map[], map[], tokens, tokens, tokens as real), Grants(bound, calls - reports))
  }

  lemma {:induction false} AlikePrice(bound: nat, tokens: nat)
    ensures Price(Alike(bound), tokens, tokens) == tokens as real
  {
  }

  lemma {:induction false} CallWhileUnused(bound: nat, calls: nat)
    requires bound > 0
    ensures Step(Alike(bound), Overdrawn(bound, calls, 0), Call(bound, bound)) == Overdrawn(bound, calls + 1, 0)
  {
    var limits, l := Alike(bound), Overdrawn(bound, calls, 0);
    assert l.u.promptTokens == 0 && l.u.completionTokens == 0 && l.u.costUsd == 0.0;
    assert Remaining(limits, l.u, bound) == bound as real;
    assert Affordable(bound as real, 1000000.0) == bound by {
      assert bound as real * 1000000.0 / 1000000.0 == bound as real;
    }
    assert Allowance(limits, l.u, bound, bound) == Ok(bound);
    assert l.open + [Grant(bound, bound)] == Grants(bound, calls + 1);
  }

  lemma {:induction false} ReportOfGrant(bound: nat, calls: nat, reports: nat)
    requires reports < calls
    ensures Legal(Overdrawn(bound, calls, reports), Report(0, bound, bound))
    ensures Step(Alike(bound), Overdrawn(bound, calls, reports), Report(0, bound, bound))
      == Overdrawn(bound, calls, reports + 1)
  {
    var l := Overdrawn(bound, calls, reports);
    assert Without(l.open, 0) == Grants(bound, calls - reports - 1);
    assert (reports + 1) * bound == reports * bound + bound;
    AlikePrice(bound, (reports + 1) * bound);
  }

  /** So the bound of `UsageIsBounded` is reached, for every `k` and in all three totals. */
  lemma {:induction false} KCallsReachKTimes(k: nat, bound: nat) returns (trace: seq<Ledger>, events: seq<Event>)
    requires bound > 0
    ensures IsRun(Alike(bound), k, trace, events)
    ensures var u := trace[|trace| - 1].u;
      && u.promptTokens == k * bound
      && u.completionTokens == k * bound
      && u.costUsd == k as real * bound as real
      && (WithinLimits(Alike(bound), u) <==> k <= 1)
  {
    var calls, reports := 0, 0;
    trace, events := [Overdrawn(bound, 0, 0)], [];
    while reports < k
      invariant reports <= calls <= k && (reports > 0 ==> calls == k)
      invariant trace != [] && trace[|trace| - 1] == Overdrawn(bound, calls, reports)
      invariant IsRun(Alike(bound), k, trace, events)
      decreases k - calls, k - reports
    {
      var last := trace[|trace| - 1];
      var e := if calls < k then Call(bound, bound) else Report(0, bound, bound);
      if calls < k {
        CallWhileUnused(bound, calls);
        calls := calls + 1;
      } else {
        ReportOfGrant(bound, calls, reports);
        reports := reports + 1;
      }
      RunExtends(Alike(bound), k, trace, events, e);
      trace, events := trace + [Step(Alike(bound), last, e)], events + [e];
    }
    assert (k * bound) as real == k as real * bound as real;
    assert k * bound <= bound <==> k <= 1;
  }

  lemma {:induction false} RunExtends(limits: Limits, k: nat, trace: seq<Ledger>, events: seq<Event>, e: Event)
    requires limits.Ok() && IsRun(limits, k, trace, events) && Legal(trace[|trace| - 1], e)
    requires |Step(limits, trace[|trace| - 1], e).open| <= k
    ensures IsRun(limits, k, trace + [Step(limits, trace[|trace| - 1], e)], events + [e])
  {
    var longer := trace + [Step(limits, trace[|trace| - 1], e)];
    forall i | 0 <= i < |events| + 1
      ensures Legal(longer[i], (events + [e])[i]) && longer[i + 1] == Step(limits, longer[i], (events + [e])[i])
    {
      if i < |events| {
        assert longer[i] == trace[i] && longer[i + 1] == trace[i + 1];
      }
    }
  }

  // ----- The controller -----

  /** Each method runs under the controller's lock, so a call of a method is one step of an interleaving. */
  class BudgetController {
    const limits: Limits
    var usage: Usage

    constructor (limits: Limits)
      requires limits.Ok()
      ensures this.limits == limits && usage == NO_USAGE
    {
      this.limits := limits;
      usage := NO_USAGE;
    }

    method BeforeHostedCall(promptBytes: nat, requestedMaxTokens: int) returns (r: Result<int, Denial>)
      requires limits.Ok()
      modifies this
      ensures r == Allowance(limits, old(usage), promptBytes, requestedMaxTokens)
      ensures r.Ok? ==>
        && usage == WithCall(old(usage))
        && 0 < r.value <= requestedMaxTokens
        && Fits(limits, old(usage), promptBytes, r.value)
        && (r.value < requestedMaxTokens ==> !Fits(limits, old(usage), promptBytes, r.value + 1))
      ensures r.Err? ==> usage == old(usage)
    {
      if limits.maxHostedCalls.Some? && usage.hostedCalls >= limits.maxHostedCalls.value {
        return Err(CallsExhausted);
      }
      if !WithinLimits(limits, usage) {
        return Err(LimitExceeded);
      }
      if limits.maxPromptTokens.Some? && usage.promptTokens + promptBytes > limits.maxPromptTokens.value {
        return Err(PromptTooLong);
      }
      var allowed := Max(0, requestedMaxTokens);
      if limits.maxCompletionTokens.Some? {
        allowed := Min(allowed, limits.maxCompletionTokens.value - usage.completionTokens);
      }
      if limits.maxCostUsd.Some? {
        var remaining := Remaining(limits, usage, promptBytes);
        if remaining <= 0.0 {
          return Err(CostTooHigh);
        }
        if limits.outputPrice.value > 0.0 {
          allowed := Min(allowed, Affordable(remaining, limits.outputPrice.value));
        }
      }
      if allowed <= 0 {
        return Err(NothingLeft);
      }
      AllowanceIsLargest(limits, usage, promptBytes, requestedMaxTokens);
      usage := usage.(hostedCalls := usage.hostedCalls + 1);
      return Ok(allowed);
    }

    method Reset()
      modifies this
      ensures usage == NO_USAGE
    {
      usage := NO_USAGE;
    }

    method BeforeProviderAttempt(provider: string, model: string) returns (r: Result<nat, Denial>)
      modifies this
      ensures r.Ok? <==> AttemptAllowed(limits, old(usage))
      ensures r.Err? <==>
        limits.maxProviderAttempts.Some? && old(usage.providerAttempts) >= limits.maxProviderAttempts.value
      ensures r.Ok? ==> usage == WithAttempt(old(usage), provider, model) && r.value == usage.providerAttempts
      ensures r.Err? ==> usage == old(usage) && r.error == AttemptsExhausted
    {
      if limits.maxProviderAttempts.Some? && usage.providerAttempts >= limits.maxProviderAttempts.value {
        return Err(AttemptsExhausted);
      }
      var providerKey := if provider == "" then "unknown" else provider;
      var modelKey := if model == "" then "unknown" else model;
      var forProvider: nat := if providerKey in usage.byProvider then usage.byProvider[providerKey] else 0;
      var forModel: nat := if modelKey in usage.byModel then usage.byModel[modelKey] else 0;
      usage := usage.(providerAttempts := usage.providerAttempts + 1);
      usage := usage.(byProvider := usage.byProvider[providerKey := forProvider + 1]);
      usage := usage.(byModel := usage.byModel[modelKey := forModel + 1]);
      return Ok(usage.providerAttempts);
    }

    /** The usage is added even when the call then raises. */
    method RecordUsage(promptTokens: int, completionTokens: int) returns (raised: bool)
      modifies this
      ensures usage == WithTokens(limits, old(usage), promptTokens, completionTokens)
      ensures usage.promptTokens - old(usage.promptTokens) == if promptTokens > 0 then promptTokens else 0
      ensures usage.completionTokens - old(usage.completionTokens)
           == if completionTokens > 0 then completionTokens else 0
      ensures raised <==> !WithinLimits(limits, usage)
      ensures raised <==>
        || (limits.maxPromptTokens.Some? && usage.promptTokens > limits.maxPromptTokens.value)
        || (limits.maxCompletionTokens.Some? && usage.completionTokens > limits.maxCompletionTokens.value)
        || (limits.maxCostUsd.Some? && usage.costUsd > limits.maxCostUsd.value)
    {
      usage := usage.(promptTokens := usage.promptTokens + Max(0, promptTokens));
      usage := usage.(completionTokens := usage.completionTokens + Max(0, completionTokens));
      usage := usage.(costUsd := Price(limits, usage.promptTokens, usage.completionTokens));
      raised := !WithinLimits(limits, usage);
    }
  }

  // ----- Streams -----

  /** `_estimate_text`: a quarter of the bytes, rounded up. */
  function EstimateText(bytes: nat): nat {
    if bytes == 0 then 0 else Max(1, (bytes + 3) / 4)
  }

  /** What is charged for an unreported prompt never exceeds the bound that was reserved for it; it is the least number
      of tokens that is at least a quarter of the bytes. */
  lemma {:induction false} EstimateWithinReservation(bytes: nat)
    ensures EstimateText(bytes) <= bytes
    ensures forall n: nat :: 4 * n >= bytes <==> n >= EstimateText(bytes)
  {
  }

  /** One chunk of a stream: reported usage, zero when there is none, and the bytes of its text. */
  datatype Chunk = Chunk(prompt: int, completion: int, textBytes: nat)

  predicate Reports(c: Chunk) {
    c.prompt != 0 || c.completion != 0
  }

  function Reporting(chunks: seq<Chunk>): seq<Chunk> {
    if chunks == [] then []
    else
      var last := chunks[|chunks| - 1];
      var rest := Reporting(chunks[..|chunks| - 1]);
      if Reports(last) then rest + [last] else rest
  }

  lemma {:induction false} ReportingHolds(chunks: seq<Chunk>)
    ensures forall c :: c in Reporting(chunks) <==> c in chunks && !(c.prompt == 0 && c.completion == 0)
    decreases |chunks|
  {
    if chunks != [] {
      var n := |chunks| - 1;
      ReportingHolds(chunks[..n]);
      assert chunks == chunks[..n] + [chunks[n]];
    }
  }

  datatype Charge = Charge(prompt: int, completion: int)

  function ChargeFor(c: Chunk, promptEstimate: nat): Charge {
    Charge(if c.prompt != 0 then c.prompt else promptEstimate, c.completion)
  }

  function Charged(limits: Limits, u: Usage, charges: seq<Charge>): Usage {
    if charges == [] then u
    else
      var last := charges[|charges| - 1];
      WithTokens(limits, Charged(limits, u, charges[..|charges| - 1]), last.prompt, last.completion)
  }

  function TextBytes(chunks: seq<Chunk>): nat {
    if chunks == [] then 0 else TextBytes(chunks[..|chunks| - 1]) + chunks[|chunks| - 1].textBytes
  }

  /** How far `_wrap_stream` has come. */
  datatype Progress = Progress(charges: seq<Charge>, bytes: nat, recorded: bool, raised: bool)

  /** The next chunk; `fits` says whether the usage stays within the limits if the chunk is charged. */
  function Advanced(p: Progress, chunk: Chunk, promptEstimate: nat, fits: bool): Progress {
    if p.raised then p
    else if !Reports(chunk) then p.(bytes := p.bytes + chunk.textBytes)
    else
      var charges := p.charges + [ChargeFor(chunk, promptEstimate)];
      if fits then Progress(charges, p.bytes + chunk.textBytes, true, false)
      else Progress(charges, p.bytes, p.recorded, true)
  }

  predicate NextFits(limits: Limits, u: Usage, charges: seq<Charge>, charge: Charge) {
    WithinLimits(limits, Charged(limits, u, charges + [charge]))
  }

  function Consume(limits: Limits, u: Usage, chunks: seq<Chunk>, promptEstimate: nat): Progress {
    if chunks == [] then Progress([], 0, false, false)
    else
      var p := Consume(limits, u, chunks[..|chunks| - 1], promptEstimate);
      var chunk := chunks[|chunks| - 1];
      Advanced(p, chunk, promptEstimate, NextFits(limits, u, p.charges, ChargeFor(chunk, promptEstimate)))
  }

  /** Everything one stream is charged: its reports, and the estimates unless a report was recorded. */
  function StreamCharges(limits: Limits, u: Usage, chunks: seq<Chunk>, promptEstimate: nat): seq<Charge> {
    var p := Consume(limits, u, chunks, promptEstimate);
    if p.recorded then p.charges else p.charges + [Charge(promptEstimate, EstimateText(p.bytes))]
  }

  /** `first` says whether the first report stays within the limits. */
  ghost predicate ProgressHolds(reporting: seq<Chunk>, text: nat, promptEstimate: nat, first: bool, p: Progress) {
    && |p.charges| <= |reporting|
    && (!p.raised ==> |p.charges| == |reporting| && p.bytes == text && (p.recorded <==> reporting != []))
    && (p.raised ==> p.charges != [] && (p.recorded <==> |p.charges| >= 2))
    && (p.charges != [] ==> p.charges[0] == ChargeFor(reporting[0], promptEstimate) && (p.recorded <==> first))
  }

  predicate FirstFits(limits: Limits, u: Usage, reporting: seq<Chunk>, promptEstimate: nat) {
    reporting != [] && NextFits(limits, u, [], ChargeFor(reporting[0], promptEstimate))
  }

  lemma {:induction false} ConsumeHolds(limits: Limits, u: Usage, chunks: seq<Chunk>, promptEstimate: nat)
    ensures ProgressHolds(Reporting(chunks), TextBytes(chunks), promptEstimate,
                          FirstFits(limits, u, Reporting(chunks), promptEstimate),
                          Consume(limits, u, chunks, promptEstimate))
    decreases |chunks|
  {
    if chunks != [] {
      var n := |chunks| - 1;
      ConsumeHolds(limits, u, chunks[..n], promptEstimate);
      var p := Consume(limits, u, chunks[..n], promptEstimate);
      AdvancedHolds(Reporting(chunks[..n]), TextBytes(chunks[..n]), promptEstimate,
                    FirstFits(limits, u, Reporting(chunks[..n]), promptEstimate), p, chunks[n],
                    NextFits(limits, u, p.charges, ChargeFor(chunks[n], promptEstimate)));
      FirstOfMore(limits, u, Reporting(chunks[..n]), promptEstimate, chunks[n]);
    }
  }

  lemma {:induction false} FirstOfMore(
      limits: Limits, u: Usage, reporting: seq<Chunk>, promptEstimate: nat, chunk: Chunk)
    ensures FirstFits(limits, u, reporting + [chunk], promptEstimate)
      == if reporting == [] then NextFits(limits, u, [], ChargeFor(chunk, promptEstimate))
         else FirstFits(limits, u, reporting, promptEstimate)
  {
  }

  lemma {:induction false} AdvancedHolds(
      reporting: seq<Chunk>, text: nat, promptEstimate: nat, first: bool, p: Progress, chunk: Chunk, fits: bool)
    requires ProgressHolds(reporting, text, promptEstimate, first, p) && (reporting == [] ==> !first)
    ensures ProgressHolds(if Reports(chunk) then reporting + [chunk] else reporting, text + chunk.textBytes,
                          promptEstimate, if reporting == [] then Reports(chunk) && fits else first,
                          Advanced(p, chunk, promptEstimate, fits))
  {
  }

  /** A stream is charged exactly once if at most one chunk reports usage and that report stays within the
      limits; in every other case it is charged more than once. */
  lemma {:induction false} ChargedOnceIff(limits: Limits, u: Usage, chunks: seq<Chunk>, promptEstimate: nat)
    ensures var charges := StreamCharges(limits, u, chunks, promptEstimate);
      var reporting := Reporting(chunks);
      && |charges| >= 1
      && (|charges| == 1 <==>
           reporting == []
           || (|reporting| == 1 && WithinLimits(limits, Charged(limits, u, [ChargeFor(reporting[0], promptEstimate)]))))
      && (reporting == [] ==> charges == [Charge(promptEstimate, EstimateText(TextBytes(chunks)))])
      && (reporting != [] ==>
            && charges[0].prompt == (if reporting[0].prompt == 0 then promptEstimate else reporting[0].prompt)
            && charges[0].completion == reporting[0].completion)
      && (forall c :: c in reporting <==> c in chunks && !(c.prompt == 0 && c.completion == 0))
  {
    ConsumeHolds(limits, u, chunks, promptEstimate);
    ReportingHolds(chunks);
  }

  lemma {:induction false} RaisedIsFinal(limits: Limits, u: Usage, chunks: seq<Chunk>, promptEstimate: nat, i: nat)
    requires i <= |chunks| && Consume(limits, u, chunks[..i], promptEstimate).raised
    ensures Consume(limits, u, chunks, promptEstimate) == Consume(limits, u, chunks[..i], promptEstimate)
    decreases |chunks|
  {
    if i < |chunks| {
      var n := |chunks| - 1;
      assert chunks[..n][..i] == chunks[..i];
      RaisedIsFinal(limits, u, chunks[..n], promptEstimate, i);
    } else {
      assert chunks[..i] == chunks;
    }
  }

  lemma {:induction false} ConsumeOneMore(limits: Limits, u: Usage, chunks: seq<Chunk>, promptEstimate: nat, i: nat)
    requires i < |chunks|
    ensures var p := Consume(limits, u, chunks[..i], promptEstimate);
      Consume(limits, u, chunks[..i + 1], promptEstimate)
        == Advanced(
          p, chunks[i], promptEstimate, NextFits(limits, u, p.charges, ChargeFor(chunks[i], promptEstimate)))
  {
    assert chunks[..i + 1][..i] == chunks[..i];
  }

  lemma {:induction false} ChargedOneMore(limits: Limits, u: Usage, charges: seq<Charge>, charge: Charge)
    ensures Charged(limits, u, charges + [charge])
      == WithTokens(limits, Charged(limits, u, charges), charge.prompt, charge.completion)
  {
    assert (charges + [charge])[..|charges|] == charges;
  }

  class BudgetedClient {
    const controller: BudgetController

    constructor (controller: BudgetController)
      ensures this.controller == controller
    {
      this.controller := controller;
    }

    /** One charge of a stream that has been charged for `charges` so far. */
    method Record(charge: Charge, ghost u: Usage, ghost charges: seq<Charge>) returns (raised: bool)
      requires controller.usage == Charged(controller.limits, u, charges)
      modifies controller
      ensures controller.usage == Charged(controller.limits, u, charges + [charge])
      ensures raised <==> !WithinLimits(controller.limits, controller.usage)
    {
      ChargedOneMore(controller.limits, u, charges, charge);
      raised := controller.RecordUsage(charge.prompt, charge.completion);
    }

    /** The body of the loop: the next chunk is charged if it reports usage. */
    method TakeChunk(
        chunk: Chunk, promptEstimate: nat, bytes: nat, recorded: bool, ghost u: Usage, ghost charges: seq<Charge>)
      returns (bytes': nat, recorded': bool, raised: bool, ghost charges': seq<Charge>)
      requires controller.usage == Charged(controller.limits, u, charges)
      requires charges != [] ==> WithinLimits(controller.limits, controller.usage)
      modifies controller
      ensures controller.usage == Charged(controller.limits, u, charges')
      ensures charges' != [] ==> (raised <==> !WithinLimits(controller.limits, controller.usage))
      ensures Progress(charges', bytes', recorded', raised)
        == Advanced(Progress(charges, bytes, recorded, false), chunk, promptEstimate,
                    NextFits(controller.limits, u, charges, ChargeFor(chunk, promptEstimate)))
    {
      bytes', recorded', raised, charges' := bytes, recorded, false, charges;
      if chunk.prompt != 0 || chunk.completion != 0 {
        var charge := Charge(if chunk.prompt != 0 then chunk.prompt else promptEstimate, chunk.completion);
        raised := Record(charge, u, charges);
        charges' := charges + [charge];
        recorded' := recorded || !raised;
      }
      if !raised {
        bytes' := bytes + chunk.textBytes;
      }
    }

    /** `_wrap_stream`, drained by its consumer. Every chunk that reports usage is charged; if none was
        recorded without raising, the estimates are charged at the end, also after a raise. */
    method WrapStream(chunks: seq<Chunk>, promptEstimate: nat) returns (raised: bool, ghost charges: seq<Charge>)
      modifies controller
      ensures charges == StreamCharges(controller.limits, old(controller.usage), chunks, promptEstimate)
      ensures controller.usage == Charged(controller.limits, old(controller.usage), charges)
      ensures raised <==>
        || !WithinLimits(controller.limits, controller.usage)
        || Consume(controller.limits, old(controller.usage), chunks, promptEstimate).raised
    {
      ghost var limits, u := controller.limits, controller.usage;
      var usageRecorded := false;
      var bytes: nat := 0;
      charges := [];
      raised := false;
      var i := 0;
      while i < |chunks| && !raised
        invariant 0 <= i <= |chunks|
        invariant Progress(charges, bytes, usageRecorded, raised) == Consume(limits, u, chunks[..i], promptEstimate)
        invariant controller.usage == Charged(limits, u, charges)
        invariant charges != [] ==> (raised <==> !WithinLimits(limits, controller.usage))
      {
        ConsumeOneMore(limits, u, chunks, promptEstimate, i);
        bytes, usageRecorded, raised, charges :=
          TakeChunk(chunks[i], promptEstimate, bytes, usageRecorded, u, charges);
        i := i + 1;
      }
      if raised {
        RaisedIsFinal(limits, u, chunks, promptEstimate, i);
      } else {
        assert chunks[..i] == chunks;
        ConsumeHolds(limits, u, chunks, promptEstimate);
      }
      if !usageRecorded {
        var charge := Charge(promptEstimate, EstimateText(bytes));
        var again := Record(charge, u, charges);
        charges := charges + [charge];
        raised := raised || again;
      }
    }
  }
}
