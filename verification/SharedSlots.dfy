/** Tracked writes and undos in any session, also one whose slots repeat because a transaction was discarded from its
    middle: the files always come back, and the older snapshots exactly if no write took over a slot in use. */
module SharedSlots {
  import opened History
  import opened Wrappers

  /** The session after the first `k` writes. */
  function At(s: Session, writes: seq<Write>, k: nat): Session
    requires k <= |writes|
  {
    TrackedAll(s, writes[..k])
  }

  lemma {:induction false} NextAt(s: Session, writes: seq<Write>, k: nat)
    requires k < |writes|
    ensures At(s, writes, k + 1) == Tracked(At(s, writes, k), writes[k].path, writes[k].after)
  {
    assert writes[..k + 1][..k] == writes[..k];
  }

  lemma {:induction false} AtKeeps(s: Session, writes: seq<Write>, k: nat, path: string)
    requires s.disk.durable == s.changes && Trackable(s, path) && k <= |writes|
    ensures At(s, writes, k).disk.durable == At(s, writes, k).changes
    ensures |At(s, writes, k).changes| == |s.changes| + k
    ensures Trackable(At(s, writes, k), path)
    decreases k
  {
    if k > 0 {
      AtKeeps(s, writes, k - 1, path);
      NextAt(s, writes, k - 1);
    }
  }

  /** The slot that write `k` takes, none if it makes a new file. */
  function SlotTaken(s: Session, writes: seq<Write>, k: nat): Option<string>
    requires k < |writes|
  {
    SlotFor(At(s, writes, k), writes[k].path)
  }

  /** What write `k` copies there. */
  function Copied(s: Session, writes: seq<Write>, k: nat): string
    requires k < |writes| && SlotTaken(s, writes, k).Some?
  {
    At(s, writes, k).disk.tree[writes[k].path].data
  }

  lemma {:induction false} SlotsTakenDiffer(s: Session, writes: seq<Write>, j: nat, k: nat)
    requires s.disk.durable == s.changes && AllTrackable(s, writes) && j < k < |writes|
    requires SlotTaken(s, writes, j).Some?
    ensures SlotTaken(s, writes, k) != SlotTaken(s, writes, j)
  {
    AtKeeps(s, writes, j, writes[j].path);
    AtKeeps(s, writes, k, writes[k].path);
    if SlotTaken(s, writes, k) == SlotTaken(s, writes, j) {
      SlotNameIsInjective(|s.changes| + j, BaseName(writes[j].path), |s.changes| + k, BaseName(writes[k].path));
    }
  }

  // ----- What the snapshot directory holds afterwards -----

  /** After `n` writes a slot holds what the write that took it copied ... */
  ghost predicate HoldsCopy(s: Session, writes: seq<Write>, n: nat, slot: string)
    requires n <= |writes|
  {
    var now := At(s, writes, n).disk.snaps;
    forall k: nat :: k < n && SlotTaken(s, writes, k) == Some(slot) ==> slot in now && now[slot] == Copied(s, writes, k)
  }

  ghost predicate Untaken(s: Session, writes: seq<Write>, n: nat, slot: string)
    requires n <= |writes|
  {
    forall k: nat :: k < n ==> SlotTaken(s, writes, k) != Some(slot)
  }

  /** ... and what it held before if none did. */
  ghost predicate HoldsOld(s: Session, writes: seq<Write>, n: nat, slot: string)
    requires n <= |writes|
  {
    var was, now := s.disk.snaps, At(s, writes, n).disk.snaps;
    Untaken(s, writes, n, slot) ==> (slot in now <==> slot in was) && (slot in was ==> now[slot] == was[slot])
  }

  lemma {:induction false} TrackedSnaps(s: Session, path: string, after: Option<string>, slot: string)
    ensures var was, now := s.disk.snaps, Tracked(s, path, after).disk.snaps;
      if SlotFor(s, path) == Some(slot) then slot in now && now[slot] == s.disk.tree[path].data
      else (slot in now <==> slot in was) && (slot in was ==> now[slot] == was[slot])
  {
  }

  lemma {:induction false} FirstToTake(s: Session, writes: seq<Write>, n: nat, slot: string)
    requires s.disk.durable == s.changes && AllTrackable(s, writes) && n < |writes|
    requires SlotTaken(s, writes, n) == Some(slot)
    ensures Untaken(s, writes, n, slot)
  {
    forall k: nat | k < n
      ensures SlotTaken(s, writes, k) != Some(slot)
    {
      if SlotTaken(s, writes, k).Some? {
        SlotsTakenDiffer(s, writes, k, n);
      }
    }
  }

  lemma {:induction false} HoldsCopyNext(s: Session, writes: seq<Write>, n: nat, slot: string)
    requires n < |writes| && HoldsCopy(s, writes, n, slot)
    requires SlotTaken(s, writes, n) == Some(slot) ==> Untaken(s, writes, n, slot)
    ensures HoldsCopy(s, writes, n + 1, slot)
  {
    NextAt(s, writes, n);
    TrackedSnaps(At(s, writes, n), writes[n].path, writes[n].after, slot);
  }

  lemma {:induction false} HoldsOldNext(s: Session, writes: seq<Write>, n: nat, slot: string)
    requires n < |writes| && HoldsOld(s, writes, n, slot)
    ensures HoldsOld(s, writes, n + 1, slot)
  {
    NextAt(s, writes, n);
    if Untaken(s, writes, n + 1, slot) {
      assert SlotTaken(s, writes, n) != Some(slot);
      TrackedSnaps(At(s, writes, n), writes[n].path, writes[n].after, slot);
    }
  }

  lemma {:induction false} SlotsHold(s: Session, writes: seq<Write>, n: nat, slot: string)
    requires s.disk.durable == s.changes && AllTrackable(s, writes) && n <= |writes|
    ensures HoldsCopy(s, writes, n, slot) && HoldsOld(s, writes, n, slot)
    decreases n
  {
    if n == 0 {
      assert writes[..0] == [];
    } else {
      SlotsHold(s, writes, n - 1, slot);
      if SlotTaken(s, writes, n - 1) == Some(slot) {
        FirstToTake(s, writes, n - 1, slot);
      }
      HoldsCopyNext(s, writes, n - 1, slot);
      HoldsOldNext(s, writes, n - 1, slot);
    }
  }

  // ----- Undoing -----

  /** The session after the first `k` writes, but with the snapshots that all of them leave. */
  function Back(s: Session, writes: seq<Write>, k: nat): Session
    requires k <= |writes|
  {
    var now := At(s, writes, k);
    Session(now.changes, Disk(now.disk.tree, At(s, writes, |writes|).disk.snaps, now.changes))
  }

  lemma {:induction false} UndoGoesBack(sha: string -> string, s: Session, writes: seq<Write>, k: nat)
    requires s.disk.durable == s.changes && AllTrackable(s, writes) && k < |writes|
    ensures Undo(sha, Back(s, writes, k + 1)) == (Undone, Back(s, writes, k))
  {
    var before, path := At(s, writes, k), writes[k].path;
    NextAt(s, writes, k);
    AtKeeps(s, writes, k, path);
    var slot := SlotTaken(s, writes, k);
    if slot.Some? {
      SlotsHold(s, writes, |writes|, slot.value);
    }
    UndoPutsBack(sha, before, path, writes[k].after, At(s, writes, |writes|).disk.snaps);
  }

  lemma {:induction false} UndoPutsBack(
      sha: string -> string, s: Session, path: string, after: Option<string>, snaps: map<string, string>)
    requires Trackable(s, path)
    requires var slot := SlotFor(s, path);
      slot.Some? ==> slot.value in snaps && snaps[slot.value] == s.disk.tree[path].data
    ensures var t := Tracked(s, path, after);
      Undo(sha, Session(t.changes, Disk(t.disk.tree, snaps, t.changes)))
        == (Undone, Session(s.changes, Disk(s.disk.tree, snaps, s.changes)))
  {
    var t := Tracked(s, path, after);
    assert t.changes[..|t.changes| - 1] == s.changes;
    var removed := Removed(t.disk.tree, path);
    if path in s.disk.tree {
      assert removed[path := s.disk.tree[path]] == s.disk.tree;
    } else {
      assert removed == s.disk.tree;
    }
  }

  lemma {:induction false} UndosGoBack(sha: string -> string, s: Session, writes: seq<Write>, k: nat)
    requires s.disk.durable == s.changes && AllTrackable(s, writes) && k <= |writes|
    ensures UndoTimes(sha, Back(s, writes, k), k) == (true, Back(s, writes, 0))
    decreases k
  {
    if k > 0 {
      UndoGoesBack(sha, s, writes, k - 1);
      UndosGoBack(sha, s, writes, k - 1);
    }
  }

  // ----- The exact condition -----

  /** No write takes a slot in use for something else than what that slot holds. */
  ghost predicate TakesNoOther(s: Session, writes: seq<Write>) {
    forall k: nat :: k < |writes| && SlotTaken(s, writes, k).Some? && Live(s, SlotTaken(s, writes, k).value) ==>
      var slot := SlotTaken(s, writes, k).value;
      slot in s.disk.snaps && s.disk.snaps[slot] == Copied(s, writes, k)
  }

  lemma {:induction false} SnapshotsKeptIff(s: Session, writes: seq<Write>)
    requires s.disk.durable == s.changes && AllTrackable(s, writes)
    ensures SameButSpareSlots(Back(s, writes, 0), s) <==> TakesNoOther(s, writes)
  {
    var end := Back(s, writes, 0);
    assert writes[..0] == [];
    if TakesNoOther(s, writes) {
      forall i | 0 <= i < |s.changes| && s.changes[i].snapshot.Some?
        ensures var slot := s.changes[i].snapshot.value;
          && (slot in end.disk.snaps <==> slot in s.disk.snaps)
          && (slot in end.disk.snaps ==> end.disk.snaps[slot] == s.disk.snaps[slot])
      {
        var slot := s.changes[i].snapshot.value;
        assert Live(s, slot);
        SlotsHold(s, writes, |writes|, slot);
        if k: nat :| k < |writes| && SlotTaken(s, writes, k) == Some(slot) {
          assert slot in s.disk.snaps && s.disk.snaps[slot] == Copied(s, writes, k);
        }
      }
    }
    if SameButSpareSlots(end, s) {
      forall k: nat | k < |writes| && SlotTaken(s, writes, k).Some? && Live(s, SlotTaken(s, writes, k).value)
        ensures var slot := SlotTaken(s, writes, k).value;
          slot in s.disk.snaps && s.disk.snaps[slot] == Copied(s, writes, k)
      {
        SlotsHold(s, writes, |writes|, SlotTaken(s, writes, k).value);
      }
    }
  }

  /** In any session as many undos as there were tracked writes give back the files and the lists, and the snapshots of
      the older changes too exactly if no write took over the slot of one of them with other content. */
  lemma {:induction false} UndoInvertsWritesIff(sha: string -> string, s: Session, writes: seq<Write>)
    requires s.disk.durable == s.changes && AllTrackable(s, writes)
    ensures var (ok, end) := UndoTimes(sha, TrackedAll(s, writes), |writes|);
      && ok && end.disk.tree == s.disk.tree && end.changes == s.changes && end.disk.durable == s.changes
      && (SameButSpareSlots(end, s) <==> TakesNoOther(s, writes))
  {
    var n := |writes|;
    assert writes[..n] == writes && writes[..0] == [];
    if writes != [] {
      AtKeeps(s, writes, n, writes[0].path);
    }
    assert TrackedAll(s, writes) == Back(s, writes, n);
    UndosGoBack(sha, s, writes, n);
    SnapshotsKeptIff(s, writes);
  }
}
