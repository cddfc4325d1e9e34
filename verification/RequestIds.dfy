/** How concurrent requests of the language-server client number themselves: `self._request_id += 1` loads the
    counter and stores it, and the request then reads it back as its id. No lock spans these steps. */
module RequestIds {
  datatype Pc = Loading | Storing | Reading | Numbered

  /** A request. The times are counted in stores: how many had been made at its load, up to and including its
      own, and at its read. */
  datatype Request = Request(pc: Pc, loaded: nat, id: nat, loadAt: nat, storedAt: nat, readAt: nat)

  /** Every value the counter has had, the present one last, and which request made each store. */
  datatype State = State(values: seq<nat>, stores: seq<nat>, requests: seq<Request>)

  datatype Action = Load(i: nat) | Store(i: nat) | Read(i: nat)

  function Start(counter: nat, n: nat): State {
    State([counter], [], seq(n, _ => Request(Loading, 0, 0, 0, 0, 0)))
  }

  predicate Valid(s: State) {
    |s.values| == |s.stores| + 1
  }

  predicate Enabled(s: State, a: Action) {
    && a.i < |s.requests|
    && match a
       case Load(i) => s.requests[i].pc == Loading
       case Store(i) => s.requests[i].pc == Storing
       case Read(i) => s.requests[i].pc == Reading
  }

  function Apply(s: State, a: Action): (s': State)
    requires Valid(s) && Enabled(s, a)
    ensures Valid(s')
  {
    var r := s.requests[a.i];
    var now := |s.stores|;
    match a
    case Load(i) =>
      s.(requests := s.requests[i := r.(pc := Storing, loaded := s.values[now], loadAt := now)])
    case Store(i) =>
      State(s.values + [r.loaded + 1], s.stores + [i], s.requests[i := r.(pc := Reading, storedAt := now + 1)])
    case Read(i) =>
      s.(requests := s.requests[i := r.(pc := Numbered, id := s.values[now], readAt := now)])
  }

  /** A schedule of the requests; an action that is not enabled does nothing. */
  function Run(s: State, schedule: seq<Action>): (s': State)
    requires Valid(s)
    ensures Valid(s')
    decreases |schedule|
  {
    if schedule == [] then s
    else
      var before := Run(s, schedule[..|schedule| - 1]);
      var a := schedule[|schedule| - 1];
      if Enabled(before, a) then Apply(before, a) else before
  }

  // ----- What every schedule keeps -----

  ghost predicate Consistent(s: State, r: Request)
    requires Valid(s)
  {
    && (r.pc != Loading ==> r.loadAt <= |s.stores| && r.loaded == s.values[r.loadAt])
    && (r.pc in {Reading, Numbered} ==>
         r.loadAt < r.storedAt <= |s.stores| && s.values[r.storedAt] == s.values[r.loadAt] + 1)
    && (r.pc == Numbered ==> r.storedAt <= r.readAt <= |s.stores| && r.id == s.values[r.readAt])
  }

  /** Store `k` was made by the request that says so. */
  predicate HasMaker(s: State, k: nat)
    requires k < |s.stores|
  {
    && s.stores[k] < |s.requests|
    && s.requests[s.stores[k]].pc in {Reading, Numbered}
    && s.requests[s.stores[k]].storedAt == k + 1
  }

  /** A request that has stored is the maker of its store. */
  predicate IsMaker(s: State, i: nat)
    requires i < |s.requests|
  {
    var r := s.requests[i];
    r.pc in {Reading, Numbered} ==> 0 < r.storedAt <= |s.stores| && s.stores[r.storedAt - 1] == i
  }

  ghost predicate StoresAreOnes(s: State) {
    && (forall k {:trigger s.stores[k]} :: 0 <= k < |s.stores| ==> HasMaker(s, k))
    && (forall i {:trigger s.requests[i]} :: 0 <= i < |s.requests| ==> IsMaker(s, i))
  }

  ghost predicate Inv(s: State) {
    && Valid(s)
    && (forall i :: 0 <= i < |s.requests| ==> Consistent(s, s.requests[i]))
    && StoresAreOnes(s)
  }

  lemma {:induction false} OthersStayConsistent(s: State, a: Action, r: Request)
    requires Valid(s) && Enabled(s, a) && Consistent(s, r)
    ensures Consistent(Apply(s, a), r)
  {
  }

  lemma {:induction false} ActorStaysConsistent(s: State, a: Action)
    requires Inv(s) && Enabled(s, a)
    ensures Consistent(Apply(s, a), Apply(s, a).requests[a.i])
  {
    assert Consistent(s, s.requests[a.i]);
  }

  lemma {:induction false} StoresStayOnes(s: State, a: Action)
    requires Valid(s) && StoresAreOnes(s) && Enabled(s, a)
    ensures StoresAreOnes(Apply(s, a))
  {
    var s' := Apply(s, a);
    forall k | 0 <= k < |s'.stores|
      ensures HasMaker(s', k)
    {
      if k < |s.stores| {
        MakerStays(s, a, k);
      }
    }
    forall i | 0 <= i < |s'.requests|
      ensures IsMaker(s', i)
    {
      assert IsMaker(s, i);
    }
  }

  lemma {:induction false} MakerStays(s: State, a: Action, k: nat)
    requires Valid(s) && Enabled(s, a) && k < |s.stores| && HasMaker(s, k)
    ensures HasMaker(Apply(s, a), k)
  {
  }

  lemma {:induction false} ApplyKeepsInv(s: State, a: Action)
    requires Inv(s) && Enabled(s, a)
    ensures Inv(Apply(s, a)) && |Apply(s, a).requests| == |s.requests| && Apply(s, a).values[0] == s.values[0]
  {
    var s' := Apply(s, a);
    StoresStayOnes(s, a);
    forall i | 0 <= i < |s'.requests|
      ensures Consistent(s', s'.requests[i])
    {
      if i == a.i {
        ActorStaysConsistent(s, a);
      } else {
        assert s'.requests[i] == s.requests[i];
        OthersStayConsistent(s, a, s.requests[i]);
      }
    }
  }

  lemma {:induction false} StartHasInv(counter: nat, n: nat)
    ensures Inv(Start(counter, n))
  {
    var s := Start(counter, n);
    forall i | 0 <= i < n
      ensures Consistent(s, s.requests[i]) && IsMaker(s, i)
    {
    }
  }

  lemma {:induction false} RunKeepsInv(counter: nat, n: nat, schedule: seq<Action>)
    ensures var s := Run(Start(counter, n), schedule); Inv(s) && |s.requests| == n && s.values[0] == counter
    decreases |schedule|
  {
    if schedule == [] {
      StartHasInv(counter, n);
    } else {
      var before := Run(Start(counter, n), schedule[..|schedule| - 1]);
      var a := schedule[|schedule| - 1];
      RunKeepsInv(counter, n, schedule[..|schedule| - 1]);
      if Enabled(before, a) {
        ApplyKeepsInv(before, a);
      }
    }
  }

  // ----- Chains of loads and stores -----

  /** `values[k + 1]` is one more than a value stored before; `ends[k]` is a later position. */
  ghost predicate Chained(values: seq<nat>, loads: seq<nat>, ends: seq<nat>) {
    && |loads| == |ends| == |values| - 1
    && forall k :: 0 <= k < |loads| ==>
         && loads[k] <= k
         && values[k + 1] == values[loads[k]] + 1
         && k + 1 <= ends[k] <= |loads|
  }

  lemma {:induction false} ValuesAreBounded(values: seq<nat>, loads: seq<nat>, ends: seq<nat>, k: nat)
    requires Chained(values, loads, ends) && k < |values|
    ensures values[0] <= values[k] <= values[0] + k && (k > 0 ==> values[k] > values[0])
    decreases k
  {
    if k > 0 {
      assert loads[k - 1] <= k - 1;
      ValuesAreBounded(values, loads, ends, loads[k - 1]);
    }
  }

  /** A value as large as can be was reached without a store between any load and its store. */
  lemma {:induction false} LargestIsSerial(values: seq<nat>, loads: seq<nat>, ends: seq<nat>, k: nat, j: nat)
    requires Chained(values, loads, ends) && j <= k < |values| && values[k] == values[0] + k
    ensures values[j] == values[0] + j && (j < k ==> loads[j] == j)
    decreases k
  {
    if k > 0 {
      assert loads[k - 1] <= k - 1;
      ValuesAreBounded(values, loads, ends, loads[k - 1]);
      if j < k {
        LargestIsSerial(values, loads, ends, k - 1, j);
      }
    }
  }

  ghost predicate Distinct(ids: seq<nat>) {
    forall j, k :: 0 <= j < k < |ids| ==> ids[j] != ids[k]
  }

  /** Distinct numbers above `low` cannot all lie below `low` plus their number. */
  lemma {:induction false} SomeIsLarge(ids: seq<nat>, low: nat) returns (k: nat)
    requires ids != [] && Distinct(ids) && forall i :: 0 <= i < |ids| ==> low < ids[i]
    ensures k < |ids| && ids[k] >= low + |ids|
    decreases |ids|
  {
    var n := |ids|;
    if i :| 0 <= i < n && ids[i] >= low + n {
      k := i;
    } else if n == 1 {
      k := 0;
    } else if i :| 0 <= i < n && ids[i] == low + n - 1 {
      var others := ids[..i] + ids[i + 1..];
      forall a, b | 0 <= a < b < |others|
        ensures others[a] != others[b]
      {
        assert others[a] == ids[if a < i then a else a + 1] && others[b] == ids[if b < i then b else b + 1];
      }
      forall a | 0 <= a < |others|
        ensures low < others[a] < low + n - 1
      {
        assert others[a] == ids[if a < i then a else a + 1];
      }
      k := SomeIsLarge(others, low);
    } else {
      var fewer := ids[..n - 1];
      k := SomeIsLarge(fewer, low);
    }
  }

  function Ids(values: seq<nat>, ends: seq<nat>): (ids: seq<nat>)
    requires forall k :: 0 <= k < |ends| ==> ends[k] < |values|
    ensures |ids| == |ends|
  {
    seq(|ends|, k requires 0 <= k < |ends| => values[ends[k]])
  }

  lemma {:induction false} DistinctMeansSerial(values: seq<nat>, loads: seq<nat>, ends: seq<nat>)
    requires Chained(values, loads, ends) && loads != [] && Distinct(Ids(values, ends))
    ensures forall k :: 0 <= k < |loads| ==> loads[k] == k
    ensures forall k :: 0 <= k < |values| ==> values[k] == values[0] + k
  {
    var n := |loads|;
    forall k | 0 <= k < n
      ensures values[0] < Ids(values, ends)[k]
    {
      ValuesAreBounded(values, loads, ends, ends[k]);
    }
    var k := SomeIsLarge(Ids(values, ends), values[0]);
    ValuesAreBounded(values, loads, ends, ends[k]);
    assert ends[k] == n;
    forall j | 0 <= j <= n
      ensures values[j] == values[0] + j && (j < n ==> loads[j] == j)
    {
      LargestIsSerial(values, loads, ends, n, j);
    }
  }

  lemma {:induction false} SameEndSameId(values: seq<nat>, ends: seq<nat>, k: nat, j: nat)
    requires forall i :: 0 <= i < |ends| ==> ends[i] < |values|
    requires k < j < |ends| && ends[k] == ends[j]
    ensures !Distinct(Ids(values, ends))
  {
    assert Ids(values, ends)[k] == Ids(values, ends)[j];
  }

  /** Distinct ids also mean that no store falls between a store and its read. */
  lemma {:induction false} DistinctMeansPrompt(values: seq<nat>, loads: seq<nat>, ends: seq<nat>, k: nat)
    requires Chained(values, loads, ends) && Distinct(Ids(values, ends)) && k < |loads|
    ensures ends[k] == k + 1
    decreases |loads| - k
  {
    if ends[k] > k + 1 {
      var j := ends[k] - 1;
      DistinctMeansPrompt(values, loads, ends, j);
      SameEndSameId(values, ends, k, j);
    }
  }

  lemma {:induction false} SerialMeansDistinct(values: seq<nat>, loads: seq<nat>, ends: seq<nat>, k: nat)
    requires Chained(values, loads, ends) && k < |values|
    requires forall j :: 0 <= j < |loads| ==> loads[j] == j
    ensures values[k] == values[0] + k
    decreases k
  {
    if k > 0 {
      SerialMeansDistinct(values, loads, ends, k - 1);
      assert loads[k - 1] == k - 1;
    }
  }

  lemma {:induction false} SerialIdsDiffer(values: seq<nat>, loads: seq<nat>, ends: seq<nat>)
    requires Chained(values, loads, ends)
    requires forall k :: 0 <= k < |loads| ==> loads[k] == k && ends[k] == k + 1
    ensures Distinct(Ids(values, ends))
  {
    forall j, k | 0 <= j < k < |ends|
      ensures Ids(values, ends)[j] != Ids(values, ends)[k]
    {
      SerialMeansDistinct(values, loads, ends, j + 1);
      SerialMeansDistinct(values, loads, ends, k + 1);
    }
  }

  // ----- The exact condition -----

  predicate AllNumbered(s: State) {
    forall i :: 0 <= i < |s.requests| ==> s.requests[i].pc == Numbered
  }

  ghost predicate IdsDiffer(s: State) {
    forall i, j :: 0 <= i < j < |s.requests| ==> s.requests[i].id != s.requests[j].id
  }

  /** No other request stores between this one's load and its read. */
  predicate Undisturbed(r: Request) {
    r.readAt == r.loadAt + 1
  }

  function LoadsOf(s: State): (loads: seq<nat>)
    requires forall k :: 0 <= k < |s.stores| ==> s.stores[k] < |s.requests|
    ensures |loads| == |s.stores|
  {
    seq(|s.stores|, k requires 0 <= k < |s.stores| => s.requests[s.stores[k]].loadAt)
  }

  function ReadsOf(s: State): (ends: seq<nat>)
    requires forall k :: 0 <= k < |s.stores| ==> s.stores[k] < |s.requests|
    ensures |ends| == |s.stores|
  {
    seq(|s.stores|, k requires 0 <= k < |s.stores| => s.requests[s.stores[k]].readAt)
  }

  lemma {:induction false} NumberedIsChained(s: State)
    requires Inv(s) && AllNumbered(s)
    ensures Chained(s.values, LoadsOf(s), ReadsOf(s))
    ensures forall k :: 0 <= k < |s.stores| ==> Ids(s.values, ReadsOf(s))[k] == s.requests[s.stores[k]].id
  {
    forall k | 0 <= k < |s.stores|
      ensures s.requests[s.stores[k]].storedAt == k + 1 && Consistent(s, s.requests[s.stores[k]])
    {
    }
  }

  /** Store `k` is made by a request of its own, so requests differ exactly if what they stored does. */
  lemma {:induction false} IdsDifferIff(s: State)
    requires Inv(s) && AllNumbered(s)
    ensures Chained(s.values, LoadsOf(s), ReadsOf(s))
    ensures IdsDiffer(s) <==> Distinct(Ids(s.values, ReadsOf(s)))
  {
    NumberedIsChained(s);
    var ids := Ids(s.values, ReadsOf(s));
    if IdsDiffer(s) {
      forall j, k | 0 <= j < k < |ids|
        ensures ids[j] != ids[k]
      {
        assert s.stores[j] != s.stores[k];
      }
    }
    if Distinct(ids) {
      forall i, j | 0 <= i < j < |s.requests|
        ensures s.requests[i].id != s.requests[j].id
      {
        assert IsMaker(s, i) && IsMaker(s, j);
        var a, b := s.requests[i].storedAt - 1, s.requests[j].storedAt - 1;
        assert s.stores[a] == i && s.stores[b] == j && a != b;
        assert ids[a] == s.requests[i].id && ids[b] == s.requests[j].id;
      }
    }
  }

  /** Any number of requests, in any interleaving of their steps, get different ids exactly if no request
      stores between another one's load and its read. */
  lemma {:induction false} RequestsDifferIff(counter: nat, n: nat, schedule: seq<Action>)
    requires AllNumbered(Run(Start(counter, n), schedule))
    ensures var s := Run(Start(counter, n), schedule);
      IdsDiffer(s) <==> forall i :: 0 <= i < |s.requests| ==> Undisturbed(s.requests[i])
  {
    var s := Run(Start(counter, n), schedule);
    RunKeepsInv(counter, n, schedule);
    IdsDifferIff(s);
    if IdsDiffer(s) {
      DifferMeansUndisturbed(s);
    }
    if forall i :: 0 <= i < |s.requests| ==> Undisturbed(s.requests[i]) {
      UndisturbedMeansDiffer(s);
    }
  }

  lemma {:induction false} DifferMeansUndisturbed(s: State)
    requires Inv(s) && AllNumbered(s) && IdsDiffer(s)
    ensures forall i :: 0 <= i < |s.requests| ==> Undisturbed(s.requests[i])
  {
    IdsDifferIff(s);
    forall i | 0 <= i < |s.requests|
      ensures Undisturbed(s.requests[i])
    {
      assert IsMaker(s, i);
      var k := s.requests[i].storedAt - 1;
      DistinctMeansSerial(s.values, LoadsOf(s), ReadsOf(s));
      DistinctMeansPrompt(s.values, LoadsOf(s), ReadsOf(s), k);
      assert LoadsOf(s)[k] == s.requests[i].loadAt && ReadsOf(s)[k] == s.requests[i].readAt;
    }
  }

  lemma {:induction false} UndisturbedMeansDiffer(s: State)
    requires Inv(s) && AllNumbered(s)
    requires forall i :: 0 <= i < |s.requests| ==> Undisturbed(s.requests[i])
    ensures IdsDiffer(s)
  {
    IdsDifferIff(s);
    var loads, ends := LoadsOf(s), ReadsOf(s);
    forall k | 0 <= k < |loads|
      ensures loads[k] == k && ends[k] == k + 1
    {
      var r := s.requests[s.stores[k]];
      assert Consistent(s, r) && r.storedAt == k + 1;
    }
    SerialIdsDiffer(s.values, loads, ends);
  }

  // ----- Both happen -----

  lemma {:induction false} RunOneMore(s: State, schedule: seq<Action>, a: Action)
    requires Valid(s) && Enabled(Run(s, schedule), a)
    ensures Run(s, schedule + [a]) == Apply(Run(s, schedule), a)
  {
    assert (schedule + [a])[..|schedule|] == schedule;
  }

  /** The first `k` of `n` requests have numbered themselves in turn, the others have not begun. */
  ghost predicate InTurn(s: State, counter: nat, n: nat, k: nat) {
    && Valid(s) && |s.requests| == n && s.values[|s.stores|] == counter + k
    && forall i :: 0 <= i < n ==>
         if i < k then s.requests[i].pc == Numbered && s.requests[i].id == counter + i + 1
         else s.requests[i].pc == Loading
  }

  /** Requests that number themselves one after the other get the next numbers in that order. */
  lemma {:induction false} OneAfterAnother(counter: nat, n: nat, k: nat) returns (schedule: seq<Action>)
    requires k <= n
    ensures InTurn(Run(Start(counter, n), schedule), counter, n, k)
    decreases k
  {
    var s := Start(counter, n);
    if k == 0 {
      schedule := [];
    } else {
      schedule := OneAfterAnother(counter, n, k - 1);
      RunOneMore(s, schedule, Load(k - 1));
      RunOneMore(s, schedule + [Load(k - 1)], Store(k - 1));
      RunOneMore(s, schedule + [Load(k - 1)] + [Store(k - 1)], Read(k - 1));
      schedule := schedule + [Load(k - 1)] + [Store(k - 1)] + [Read(k - 1)];
    }
  }

  /** Two requests that both load before either stores get the same number. */
  lemma {:induction false} TwoCollide(counter: nat) returns (schedule: seq<Action>)
    ensures var s := Run(Start(counter, 2), schedule);
      AllNumbered(s) && |s.requests| == 2 && s.requests[0].id == s.requests[1].id == counter + 1
  {
    var s := Start(counter, 2);
    RunOneMore(s, [], Load(0));
    RunOneMore(s, [] + [Load(0)], Load(1));
    var loaded := [] + [Load(0)] + [Load(1)];
    RunOneMore(s, loaded, Store(0));
    RunOneMore(s, loaded + [Store(0)], Store(1));
    var stored := loaded + [Store(0)] + [Store(1)];
    RunOneMore(s, stored, Read(0));
    RunOneMore(s, stored + [Read(0)], Read(1));
    schedule := stored + [Read(0)] + [Read(1)];
  }
}
