/** The round-robin pool of API keys, which skips keys that are cooling down. */
module KeyPool {
  import opened Wrappers

  /** Whether each key, by position, may be used at the moment. */
  type Readiness = seq<bool>

  predicate Ready(cooldowns: map<string, real>, key: string, now: real) {
    key !in cooldowns || now >= cooldowns[key]
  }

  function ReadinessAt(keys: seq<string>, cooldowns: map<string, real>, now: real): (r: Readiness)
    ensures |r| == |keys|
  {
    seq(|keys|, k requires 0 <= k < |keys| => Ready(cooldowns, keys[k], now))
  }

  // ----- The keys kept: `list(dict.fromkeys(k for k in keys if k))` -----

  function FirstOccurrences(keys: seq<string>): seq<string> {
    if keys == [] then []
    else
      var before := FirstOccurrences(keys[..|keys| - 1]);
      var key := keys[|keys| - 1];
      if key == "" || key in before then before else before + [key]
  }

  predicate Distinct<T(==)>(s: seq<T>) {
    forall j, k :: 0 <= j < k < |s| ==> s[j] != s[k]
  }

  lemma {:induction false} KeptOnce(keys: seq<string>)
    ensures Distinct(FirstOccurrences(keys))
    ensures forall k :: k in FirstOccurrences(keys) <==> k in keys && k != ""
    decreases |keys|
  {
    if keys != [] {
      KeptOnce(keys[..|keys| - 1]);
      assert keys == keys[..|keys| - 1] + [keys[|keys| - 1]];
    }
  }

  /** `a` stands somewhere before any `b`. */
  ghost predicate ComesFirst(keys: seq<string>, a: string, b: string) {
    exists p :: 0 <= p < |keys| && keys[p] == a && b !in keys[..p]
  }

  /** The list goes by first occurrences. */
  ghost predicate ByFirst(keys: seq<string>, kept: seq<string>) {
    forall i, j :: 0 <= i < j < |kept| ==> ComesFirst(keys, kept[i], kept[j])
  }

  lemma {:induction false} StillFirst(keys: seq<string>, n: nat, a: string, b: string)
    requires n < |keys| && ComesFirst(keys[..n], a, b)
    ensures ComesFirst(keys, a, b)
  {
    var p :| 0 <= p < n && keys[..n][p] == a && b !in keys[..n][..p];
    assert keys[..n][..p] == keys[..p];
  }

  lemma {:induction false} NewComesLast(keys: seq<string>, n: nat, a: string, b: string)
    requires n < |keys| && a in keys[..n] && b !in keys[..n]
    ensures ComesFirst(keys, a, b)
  {
    var p :| 0 <= p < n && keys[p] == a;
    assert keys[..p] <= keys[..n];
  }

  /** The keys are kept in the order of their first occurrences. */
  lemma {:induction false} KeptInOrder(keys: seq<string>)
    ensures ByFirst(keys, FirstOccurrences(keys))
    decreases |keys|
  {
    if keys != [] {
      var n := |keys| - 1;
      var earlier, kept := FirstOccurrences(keys[..n]), FirstOccurrences(keys);
      KeptInOrder(keys[..n]);
      KeptOnce(keys[..n]);
      forall i, j | 0 <= i < j < |kept|
        ensures ComesFirst(keys, kept[i], kept[j])
      {
        if j < |earlier| {
          StillFirst(keys, n, earlier[i], earlier[j]);
        } else {
          assert earlier[i] in keys[..n];
          NewComesLast(keys, n, earlier[i], kept[j]);
        }
      }
    }
  }

  // ----- One round of picks -----

  /** The position `j` places on from `start`, around a ring of `n`. */
  function Around(n: nat, start: nat, j: nat): (p: nat)
    requires start < n && j <= n
    ensures p < n
  {
    if start + j < n then start + j else start + j - n
  }

  lemma {:induction false} AroundIsModulo(n: nat, start: nat, j: nat)
    requires start < n && j <= n
    ensures Around(n, start, j) == (start + j) % n
  {
    if start + j >= n {
      assert start + j == n * 1 + (start + j - n);
    }
  }

  /** The first offset, `from` or later, at which the position counted from `start` is ready. */
  function Scan(ready: Readiness, start: nat, from: nat): (r: Option<nat>)
    requires start < |ready|
    ensures r.Some? ==> from <= r.value < |ready| && ready[Around(|ready|, start, r.value)]
    ensures r.Some? ==> forall j :: from <= j < r.value ==> !ready[Around(|ready|, start, j)]
    ensures r.None? ==> forall j :: from <= j < |ready| ==> !ready[Around(|ready|, start, j)]
    decreases |ready| - from
  {
    if from >= |ready| then None
    else if ready[Around(|ready|, start, from)] then Some(from)
    else Scan(ready, start, from + 1)
  }

  ghost predicate SomeReady(ready: Readiness) {
    exists p :: 0 <= p < |ready| && ready[p]
  }

  /** How far `p` lies from `start`. */
  function Offset(n: nat, start: nat, p: nat): (j: nat)
    requires start < n && p < n
    ensures j < n && Around(n, start, j) == p
  {
    if p >= start then p - start else p + n - start
  }

  lemma {:induction false} ScanFinds(ready: Readiness, start: nat)
    requires start < |ready|
    ensures Scan(ready, start, 0).Some? <==> SomeReady(ready)
  {
    var found := Scan(ready, start, 0);
    forall p | 0 <= p < |ready| && ready[p]
      ensures found.Some?
    {
      assert ready[Around(|ready|, start, Offset(|ready|, start, p))];
    }
  }

  /** The position picked when the pool's index is `start`. */
  function Pick(ready: Readiness, start: nat): (p: nat)
    requires start < |ready| && SomeReady(ready)
    ensures p < |ready| && ready[p]
  {
    ScanFinds(ready, start);
    Around(|ready|, start, Scan(ready, start, 0).value)
  }

  /** The positions picked by `count` calls on end. */
  function Picks(ready: Readiness, start: nat, count: nat): (r: seq<nat>)
    requires start < |ready| && SomeReady(ready)
    ensures |r| == count
    decreases count
  {
    if count == 0 then []
    else
      var p := Pick(ready, start);
      [p] + Picks(ready, Around(|ready|, p, 1), count - 1)
  }

  /** The ready positions in cyclic order, from offset `from` on. */
  function Round(ready: Readiness, start: nat, from: nat): seq<nat>
    requires start < |ready|
    decreases |ready| - from
  {
    if from >= |ready| then []
    else
      var p := Around(|ready|, start, from);
      if ready[p] then [p] + Round(ready, start, from + 1) else Round(ready, start, from + 1)
  }

  lemma {:induction false} RoundSkipsTo(ready: Readiness, start: nat, from: nat)
    requires start < |ready|
    ensures var j := Scan(ready, start, from);
      Round(ready, start, from)
        == if j.None? then [] else [Around(|ready|, start, j.value)] + Round(ready, start, j.value + 1)
    decreases |ready| - from
  {
    if from < |ready| && !ready[Around(|ready|, start, from)] {
      RoundSkipsTo(ready, start, from + 1);
    }
  }

  /** Scanning from an index further on is scanning from the first index with a larger offset. */
  lemma {:induction false} ScanFromFurtherOn(ready: Readiness, start: nat, from: nat)
    requires start < |ready| && from < |ready|
    requires Scan(ready, start, from).Some?
    ensures SomeReady(ready)
    ensures Pick(ready, Around(|ready|, start, from)) == Around(|ready|, start, Scan(ready, start, from).value)
  {
    var n := |ready|;
    var j := Scan(ready, start, from).value;
    var next := Around(n, start, from);
    assert ready[Around(n, start, j)];
    ScanFinds(ready, next);
    var found := Scan(ready, next, 0).value;
    assert Around(n, next, j - from) == Around(n, start, j);
    assert found <= j - from;
    assert Around(n, next, found) == Around(n, start, from + found);
  }

  lemma {:induction false} PickThen(ready: Readiness, start: nat, p: nat, more: seq<nat>)
    requires start < |ready| && SomeReady(ready) && Pick(ready, start) == p
    requires Picks(ready, Around(|ready|, p, 1), |more|) == more
    ensures Picks(ready, start, |[p] + more|) == [p] + more
  {
  }

  /** As many calls on end as there are ready positions still ahead pick just these. */
  lemma {:induction false} PicksFollowRound(ready: Readiness, start: nat, from: nat)
    requires start < |ready| && SomeReady(ready)
    requires from <= |ready|
    ensures Picks(ready, Around(|ready|, start, from), |Round(ready, start, from)|) == Round(ready, start, from)
    decreases |ready| - from
  {
    var n := |ready|;
    var j := Scan(ready, start, from);
    RoundSkipsTo(ready, start, from);
    if j.Some? {
      var p := Around(n, start, j.value);
      ScanFromFurtherOn(ready, start, from);
      PicksFollowRound(ready, start, j.value + 1);
      assert Around(n, p, 1) == Around(n, start, j.value + 1);
      PickThen(ready, Around(n, start, from), p, Round(ready, start, j.value + 1));
    }
  }

  lemma {:induction false} RoundHasEachOnce(ready: Readiness, start: nat, from: nat)
    requires start < |ready|
    ensures Distinct(Round(ready, start, from))
    ensures forall p: nat :: p in Round(ready, start, from) <==>
      p < |ready| && ready[p] && from <= Offset(|ready|, start, p)
    decreases |ready| - from
  {
    if from < |ready| {
      RoundHasEachOnce(ready, start, from + 1);
    }
  }

  function ReadyPositions(ready: Readiness): set<nat> {
    set p: nat | p < |ready| && ready[p]
  }

  lemma {:induction false} DistinctCount(s: seq<nat>, all: set<nat>)
    requires Distinct(s) && forall p :: p in s <==> p in all
    ensures |s| == |all|
    decreases |s|
  {
    if s != [] {
      var shorter, last := s[..|s| - 1], s[|s| - 1];
      assert s == shorter + [last];
      DistinctCount(shorter, all - {last});
    } else {
      assert all == {};
    }
  }

  /** While the ready keys stay the same, any `r` calls on end, `r` being their number, return each of them
      exactly once and in cyclic order, wherever the index stands. */
  lemma {:induction false} RoundRobin(ready: Readiness, start: nat)
    requires start < |ready| && SomeReady(ready)
    ensures var r := |ReadyPositions(ready)|;
      && r >= 1
      && Picks(ready, start, r) == Round(ready, start, 0)
      && Distinct(Picks(ready, start, r))
      && forall p :: p in Picks(ready, start, r) <==> p in ReadyPositions(ready)
  {
    var round := Round(ready, start, 0);
    PicksFollowRound(ready, start, 0);
    RoundHasEachOnce(ready, start, 0);
    DistinctCount(round, ReadyPositions(ready));
    var p: nat :| p < |ready| && ready[p];
    assert p in ReadyPositions(ready);
  }

  /** The order of a round does not change: the call after a round picks what the round began with. */
  lemma {:induction false} RoundsRepeat(ready: Readiness, start: nat)
    requires start < |ready| && SomeReady(ready)
    ensures var r := |ReadyPositions(ready)|;
      var picks := Picks(ready, start, r + 1);
      picks[r] == picks[0]
  {
    var r := |ReadyPositions(ready)|;
    RoundRobin(ready, start);
    var p := Pick(ready, start);
    var next := Around(|ready|, p, 1);
    var picks := Picks(ready, start, r + 1);
    assert picks == [p] + Picks(ready, next, r);
    PicksPrefix(ready, start, r + 1, r);
    assert picks[..r] == Picks(ready, start, r);
    RoundRobin(ready, next);
    // The last `r` of the picks hold every ready position, p too; the first `r` hold p at the front only.
    assert p in Picks(ready, next, r);
    var k :| 0 <= k < r && Picks(ready, next, r)[k] == p;
    assert picks[k + 1] == p;
    assert forall i :: 0 < i < r ==> picks[..r][i] != picks[..r][0];
    assert k + 1 == r;
  }

  lemma {:induction false} PicksPrefix(ready: Readiness, start: nat, count: nat, fewer: nat)
    requires start < |ready| && SomeReady(ready) && fewer <= count
    ensures Picks(ready, start, count)[..fewer] == Picks(ready, start, fewer)
    decreases fewer
  {
    if fewer > 0 {
      var p := Pick(ready, start);
      var next := Around(|ready|, p, 1);
      PicksPrefix(ready, next, count - 1, fewer - 1);
      assert Picks(ready, start, count)[..fewer] == [p] + Picks(ready, next, count - 1)[..fewer - 1];
    }
  }

  // ----- The pool -----

  /** The first of the keys with the least expiry, all of them having one. */
  ghost predicate LeastExpiry(keys: seq<string>, cooldowns: map<string, real>, p: nat) {
    && p < |keys|
    && (forall k :: 0 <= k < |keys| ==> keys[k] in cooldowns)
    && (forall k :: 0 <= k < |keys| ==> cooldowns[keys[p]] <= cooldowns[keys[k]])
    && (forall k :: 0 <= k < p ==> cooldowns[keys[p]] < cooldowns[keys[k]])
  }

  lemma {:induction false} NoneReady(keys: seq<string>, cooldowns: map<string, real>, now: real, start: nat)
    requires start < |keys|
    requires forall j :: 0 <= j < |keys| ==> !ReadinessAt(keys, cooldowns, now)[Around(|keys|, start, j)]
    ensures forall k :: 0 <= k < |keys| ==> !Ready(cooldowns, keys[k], now)
    ensures !SomeReady(ReadinessAt(keys, cooldowns, now))
  {
    var n := |keys|;
    var ready := ReadinessAt(keys, cooldowns, now);
    forall k | 0 <= k < n
      ensures !Ready(cooldowns, keys[k], now) && !ready[k]
    {
      assert !ready[Around(n, start, Offset(n, start, k))];
    }
  }

  /** The least expiry is the first moment at which any key is ready again. */
  lemma {:induction false} WaitIsShortest(keys: seq<string>, cooldowns: map<string, real>, p: nat, moment: real)
    requires LeastExpiry(keys, cooldowns, p)
    ensures SomeReady(ReadinessAt(keys, cooldowns, moment)) <==> cooldowns[keys[p]] <= moment
  {
    var ready := ReadinessAt(keys, cooldowns, moment);
    assert ready[p] <==> cooldowns[keys[p]] <= moment;
  }

  class RoundRobinKeyPool {
    const keys: seq<string>
    const cooldownSeconds: real
    var currentIdx: nat
    var cooldowns: map<string, real>

    ghost predicate Valid()
      reads this
    {
      && Distinct(keys)
      && "" !in keys
      && (if keys == [] then currentIdx == 0 else currentIdx < |keys|)
    }

    constructor (keys: seq<string>, cooldownSeconds: real)
      ensures Valid() && this.keys == FirstOccurrences(keys) && this.cooldownSeconds == cooldownSeconds
      ensures currentIdx == 0 && cooldowns == map[]
    {
      var kept: seq<string> := [];
      for i := 0 to |keys|
        invariant kept == FirstOccurrences(keys[..i])
      {
        assert keys[..i + 1][..i] == keys[..i];
        if keys[i] != "" && keys[i] !in kept {
          kept := kept + [keys[i]];
        }
      }
      assert keys[..|keys|] == keys;
      KeptOnce(keys);
      this.keys, this.cooldownSeconds := kept, cooldownSeconds;
      currentIdx, cooldowns := 0, map[];
    }

    /** The key to use, how long to sleep first, and where the key stands. A cooling key is returned only if
        all are cooling, and then the first one with the least expiry, after waiting for exactly that. */
    method GetNextKey(now: real) returns (key: Option<string>, wait: real, ghost at: nat)
      requires Valid()
      modifies this`currentIdx
      ensures Valid()
      ensures keys == [] ==> key.None? && wait == 0.0
      ensures keys != [] ==> at < |keys| && key == Some(keys[at]) && currentIdx == Around(|keys|, at, 1)
      ensures var ready := ReadinessAt(keys, cooldowns, now);
        keys != [] ==>
          if SomeReady(ready) then at == Pick(ready, old(currentIdx)) && wait == 0.0
          else LeastExpiry(keys, cooldowns, at) && wait > 0.0 && now + wait == cooldowns[keys[at]]
    {
      wait := 0.0;
      if keys == [] {
        return None, wait, 0;
      }
      var n := |keys|;
      var startIdx := currentIdx;
      ghost var ready := ReadinessAt(keys, cooldowns, now);
      ScanFinds(ready, startIdx);
      for offset := 0 to n
        invariant currentIdx == startIdx
        invariant forall j :: 0 <= j < offset ==> !ready[Around(n, startIdx, j)]
      {
        var idx := (startIdx + offset) % n;
        AroundIsModulo(n, startIdx, offset);
        var candidate := keys[idx];
        if candidate !in cooldowns || now >= cooldowns[candidate] {
          assert ready[idx];
          AroundIsModulo(n, idx, 1);
          currentIdx := (idx + 1) % n;
          return Some(candidate), wait, idx;
        }
      }
      NoneReady(keys, cooldowns, now, startIdx);
      var p := EarliestPosition();
      AroundIsModulo(n, p, 1);
      wait := cooldowns[keys[p]] - now;
      currentIdx := (p + 1) % n;
      key, at := Some(keys[p]), p;
    }

    /** `min(keys, key=cooldowns.get)`, which keeps the first of several least ones. */
    method EarliestPosition() returns (p: nat)
      requires keys != [] && forall k :: 0 <= k < |keys| ==> keys[k] in cooldowns
      ensures LeastExpiry(keys, cooldowns, p)
    {
      p := 0;
      for i := 1 to |keys|
        invariant p < i
        invariant forall q :: 0 <= q < i ==> cooldowns[keys[p]] <= cooldowns[keys[q]]
        invariant forall q :: 0 <= q < p ==> cooldowns[keys[p]] < cooldowns[keys[q]]
      {
        if cooldowns[keys[i]] < cooldowns[keys[p]] {
          p := i;
        }
      }
    }

    method MarkCooldown(key: string, duration: Option<real>, now: real)
      requires Valid()
      modifies this`cooldowns
      ensures Valid()
      ensures cooldowns
        == old(cooldowns)[key := now + if duration.Some? then duration.value else cooldownSeconds]
    {
      var sec := if duration.Some? then duration.value else cooldownSeconds;
      cooldowns := cooldowns[key := now + sec];
    }

    method IsCooldown(key: string, now: real) returns (r: bool)
      ensures r <==> !Ready(cooldowns, key, now)
    {
      r := key in cooldowns && now < cooldowns[key];
    }

    method ResetCooldowns()
      requires Valid()
      modifies this`cooldowns
      ensures Valid() && forall now, k :: Ready(cooldowns, k, now)
    {
      cooldowns := map[];
    }
  }
}
