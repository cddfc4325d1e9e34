/** Patches on a text: a search text that is counted exactly once is replaced, over a model of text counting and
    replacing. */
module Patches {
  import opened Wrappers

  // ----- Counting and replacing -----

  predicate OccursAt(text: string, pattern: string, i: nat) {
    i + |pattern| <= |text| && text[i..i + |pattern|] == pattern
  }

  /** The first occurrence at or after `from`. */
  function Find(text: string, pattern: string, from: nat): (r: Option<nat>)
    ensures r.Some? ==> from <= r.value && OccursAt(text, pattern, r.value)
    ensures r.Some? ==> forall i: nat :: from <= i < r.value ==> !OccursAt(text, pattern, i)
    ensures r.None? ==> forall i: nat :: from <= i ==> !OccursAt(text, pattern, i)
    decreases |text| - from
  {
    if from + |pattern| > |text| then None
    else if OccursAt(text, pattern, from) then Some(from)
    else if from == |text| then None
    else Find(text, pattern, from + 1)
  }

  /** `text.count(pattern)` from a position on: occurrences are taken left to right and never overlap. */
  function CountFrom(text: string, pattern: string, from: nat): nat
    requires pattern != ""
    decreases |text| - from
  {
    var at := Find(text, pattern, from);
    if at.None? then 0 else 1 + CountFrom(text, pattern, at.value + |pattern|)
  }

  function Count(text: string, pattern: string): nat
    requires pattern != ""
  {
    CountFrom(text, pattern, 0)
  }

  /** `text.replace(old, new, 1)`: the leftmost occurrence is replaced. */
  function ReplaceFirst(text: string, pattern: string, replacement: string): string {
    var at := Find(text, pattern, 0);
    if at.None? then text else text[..at.value] + replacement + text[at.value + |pattern|..]
  }

  ghost predicate OccursOnce(text: string, pattern: string) {
    exists i: nat :: OccursAt(text, pattern, i) && forall j: nat :: OccursAt(text, pattern, j) ==> j == i
  }

  /** The count is one exactly if there is an occurrence and every other one overlaps the leftmost. */
  lemma {:induction false} CountIsOneIff(text: string, pattern: string)
    requires pattern != ""
    ensures Count(text, pattern) == 1 <==>
      && Find(text, pattern, 0).Some?
      && forall j: nat :: OccursAt(text, pattern, j) ==> j < Find(text, pattern, 0).value + |pattern|
  {
    var first := Find(text, pattern, 0);
    if first.Some? {
      var second := Find(text, pattern, first.value + |pattern|);
      assert Count(text, pattern) == 1 + CountFrom(text, pattern, first.value + |pattern|);
      if second.Some? {
        assert OccursAt(text, pattern, second.value);
      }
    }
  }

  /** No proper suffix of the pattern is also a prefix of it. */
  predicate Borderless(pattern: string) {
    forall k :: 0 < k < |pattern| ==> pattern[k..] != pattern[..|pattern| - k]
  }

  /** Two overlapping occurrences give the pattern a border. */
  lemma {:induction false} OverlapIsBorder(text: string, pattern: string, i: nat, j: nat)
    requires OccursAt(text, pattern, i) && OccursAt(text, pattern, j)
    requires i < j < i + |pattern|
    ensures !Borderless(pattern)
  {
    var k := j - i;
    assert pattern[k..] == text[i..i + |pattern|][k..] == text[j..i + |pattern|];
    assert pattern[..|pattern| - k] == text[j..j + |pattern|][..|pattern| - k] == text[j..i + |pattern|];
  }

  /** So a pattern that cannot overlap itself is counted once exactly where it occurs once ... */
  lemma {:induction false} CountIsExactWhenBorderless(text: string, pattern: string)
    requires pattern != "" && Borderless(pattern)
    ensures Count(text, pattern) == 1 <==> OccursOnce(text, pattern)
  {
    CountIsOneIff(text, pattern);
    var first := Find(text, pattern, 0);
    if first.Some? {
      var i := first.value;
      forall j: nat | OccursAt(text, pattern, j)
        ensures i <= j && (j < i + |pattern| ==> j == i)
      {
        if i < j < i + |pattern| {
          OverlapIsBorder(text, pattern, i, j);
        }
      }
    }
  }

  /** ... while any other pattern occurs twice in some text, and is counted once. */
  lemma {:induction false} BorderedIsCountedOnce(pattern: string, k: nat) returns (text: string)
    requires 0 < k < |pattern| && pattern[k..] == pattern[..|pattern| - k]
    ensures Count(text, pattern) == 1 && !OccursOnce(text, pattern)
  {
    text := pattern[..k] + pattern;
    assert text[0..|pattern|] == pattern[..k] + pattern[k..] == pattern;
    assert text[k..k + |pattern|] == pattern;
    assert OccursAt(text, pattern, 0) && OccursAt(text, pattern, k);
    CountIsOneIff(text, pattern);
  }

  /** Counting one is occurring once, in every text. */
  ghost predicate CountsExactly(pattern: string)
    requires pattern != ""
  {
    forall text :: Count(text, pattern) == 1 <==> OccursOnce(text, pattern)
  }

  /** "Expected exactly once" is what the check says exactly for patterns without a border. */
  lemma {:induction false} CountIsExactIff(pattern: string)
    requires pattern != ""
    ensures CountsExactly(pattern) <==> Borderless(pattern)
  {
    if Borderless(pattern) {
      forall text
        ensures Count(text, pattern) == 1 <==> OccursOnce(text, pattern)
      {
        CountIsExactWhenBorderless(text, pattern);
      }
    } else {
      var k :| 0 < k < |pattern| && pattern[k..] == pattern[..|pattern| - k];
      var text := BorderedIsCountedOnce(pattern, k);
      assert Count(text, pattern) == 1 && !OccursOnce(text, pattern);
    }
  }

  /** A replacement that passed the check changes one place and nothing around it. */
  lemma {:induction false} ReplacedText(text: string, pattern: string, replacement: string)
    requires pattern != "" && Count(text, pattern) == 1
    ensures exists before, after ::
      text == before + pattern + after && ReplaceFirst(text, pattern, replacement) == before + replacement + after
  {
    var i := Find(text, pattern, 0).value;
    var before, after := text[..i], text[i + |pattern|..];
    assert text == before + pattern + after;
  }

  // ----- Patches -----

  datatype Patch = Patch(search: string, replace: string)

  /** One patch on one text; nothing if the search text is empty or not counted exactly once. */
  function Patched(text: string, patch: Patch): Option<string> {
    if patch.search == "" || Count(text, patch.search) != 1 then None
    else Some(ReplaceFirst(text, patch.search, patch.replace))
  }

  function PatchedAll(text: string, patches: seq<Patch>): Option<string> {
    if patches == [] then Some(text)
    else
      var before := PatchedAll(text, patches[..|patches| - 1]);
      if before.None? then None else Patched(before.value, patches[|patches| - 1])
  }

  lemma {:induction false} PatchingStops(text: string, patches: seq<Patch>, n: nat)
    requires n <= |patches| && PatchedAll(text, patches[..n]).None?
    ensures PatchedAll(text, patches).None?
    decreases |patches|
  {
    if n < |patches| {
      var shorter := patches[..|patches| - 1];
      assert shorter[..n] == patches[..n];
      PatchingStops(text, shorter, n);
    } else {
      assert patches[..n] == patches;
    }
  }

  /** An occurrence before which there is none and after which there is no room for another is the one counted
      and replaced. */
  lemma {:induction false} PatchedAt(text: string, patch: Patch, i: nat)
    requires patch.search != "" && OccursAt(text, patch.search, i)
    requires forall j: nat :: j < i ==> !OccursAt(text, patch.search, j)
    requires |text| - (i + |patch.search|) < |patch.search|
    ensures Patched(text, patch) == Some(text[..i] + patch.replace + text[i + |patch.search|..])
  {
    assert Find(text, patch.search, 0) == Some(i);
    CountIsOneIff(text, patch.search);
    forall j: nat | OccursAt(text, patch.search, j)
      ensures j < i + |patch.search|
    {
    }
  }
}
