/** The object that keeps the undo history, statement by statement. */
module FileHistoryModel {
  import opened Wrappers
  import opened History

  // ----- The list in memory and the durable one -----

  datatype Lists = Lists(memory: seq<Change>, durable: seq<Change>)

  /** A call as far as the lists go. An undo that is refused earlier drops nothing; `saveOk` says how the save ends, if
      the call comes to one. */
  datatype Call =
    | Record(entries: seq<Change>, saveOk: bool)
    | UndoLast(drops: bool, saveOk: bool)
    | Discard(transaction: string, saveOk: bool)

  predicate Drops(l: Lists, c: Call) {
    c.UndoLast? && c.drops && l.memory != []
  }

  /** The call comes to a save. */
  predicate Saves(l: Lists, c: Call) {
    match c
    case Record(entries, _) => entries != []
    case UndoLast(_, _) => Drops(l, c)
    case Discard(transaction, _) => transaction != "" && |Retained(l.memory, transaction)| < |l.memory|
  }

  /** Only an undo changes the list in memory before it has been saved. */
  function Called(l: Lists, c: Call): Lists {
    var memory := match c
      case Record(entries, _) => l.memory + entries
      case UndoLast(_, _) => if Drops(l, c) then l.memory[..|l.memory| - 1] else l.memory
      case Discard(transaction, _) => Retained(l.memory, transaction);
    if Saves(l, c) && c.saveOk then Lists(memory, memory)
    else if Drops(l, c) then Lists(memory, l.durable)
    else l
  }

  function CalledAll(l: Lists, calls: seq<Call>): Lists
    decreases |calls|
  {
    if calls == [] then l else Called(CalledAll(l, calls[..|calls| - 1]), calls[|calls| - 1])
  }

  lemma {:induction false} OneMoreCall(l: Lists, calls: seq<Call>, c: Call)
    ensures CalledAll(l, calls + [c]) == Called(CalledAll(l, calls), c)
  {
    assert (calls + [c])[..|calls|] == calls;
  }

  /** How many undos have failed to save since the last save that succeeded. */
  function Unsaved(l: Lists, calls: seq<Call>): nat
    decreases |calls|
  {
    if calls == [] then 0
    else
      var n := |calls| - 1;
      var before, last := CalledAll(l, calls[..n]), calls[n];
      if Saves(before, last) && last.saveOk then 0
      else Unsaved(l, calls[..n]) + if Drops(before, last) then 1 else 0
  }

  /** After any calls the list in memory is the durable one without as many entries at its end as undos have failed to
      save since the last successful save. */
  lemma {:induction false} MemoryLagsByUnsaved(l: Lists, calls: seq<Call>)
    requires l.memory == l.durable
    ensures var end := CalledAll(l, calls);
      && Unsaved(l, calls) <= |end.durable|
      && end.memory == end.durable[..|end.durable| - Unsaved(l, calls)]
      && (|end.durable| - |end.memory| <= 1 <==> Unsaved(l, calls) <= 1)
    decreases |calls|
  {
    if calls != [] {
      var n := |calls| - 1;
      MemoryLagsByUnsaved(l, calls[..n]);
      var before := CalledAll(l, calls[..n]);
      if Drops(before, calls[n]) && !calls[n].saveOk {
        assert before.memory[..|before.memory| - 1] == before.durable[..|before.memory| - 1];
      }
    }
  }

  /** Two undos whose saves fail, one after the other, already leave the lists two entries apart; so it is with any
      number. */
  lemma {:induction false} FailedSavesAddUp(l: Lists, n: nat) returns (calls: seq<Call>)
    requires l.memory == l.durable && n <= |l.memory|
    ensures |calls| == n && forall k :: 0 <= k < n ==> calls[k] == UndoLast(true, false)
    ensures CalledAll(l, calls) == Lists(l.memory[..|l.memory| - n], l.durable)
    decreases n
  {
    if n == 0 {
      calls := [];
      assert l.memory[..|l.memory|] == l.memory;
    } else {
      var fewer := FailedSavesAddUp(l, n - 1);
      calls := fewer + [UndoLast(true, false)];
      assert calls[..n - 1] == fewer;
      var before := l.memory[..|l.memory| - (n - 1)];
      assert before[..|before| - 1] == l.memory[..|l.memory| - n];
    }
  }

  /** Of `n` undos from `start` all have succeeded so far or not, and `left` are to come. */
  ghost predicate Continues(sha: string -> string, start: Session, n: nat, ok: bool, now: Session, left: nat) {
    UndoTimes(sha, start, n) == (ok && UndoTimes(sha, now, left).0, UndoTimes(sha, now, left).1)
  }

  lemma {:induction false} ContinuesAfterUndo(
      sha: string -> string, start: Session, n: nat, ok: bool, now: Session, left: nat)
    requires Continues(sha, start, n, ok, now, left) && left > 0
    ensures var (r, next) := Undo(sha, now); Continues(sha, start, n, ok && r == Undone, next, left - 1)
  {
  }

  /** Every system call succeeds. */
  ghost predicate AllWell(io: nat -> Io) {
    forall k: nat :: io(k) == ALL_OK
  }

  /** The calls are undos whose saves end as `io` says. */
  ghost predicate AreUndos(calls: seq<Call>, io: nat -> Io) {
    forall k :: 0 <= k < |calls| ==> calls[k].UndoLast? && calls[k].saveOk == io(k).saveOk
  }

  class FileHistory {
    /** The change list in memory. */
    var changes: seq<Change>
    /** The disk it works on: the files, the snapshot directory and `changes.json`. */
    var tree: map<string, Node>
    var snaps: map<string, string>
    var durable: seq<Change>
    /** The temporary file a save writes before it replaces `changes.json`; loading ignores it. */
    var temporary: Option<seq<Change>>
    const sha: string -> string

    function State(): Session
      reads this
    {
      Session(changes, Disk(tree, snaps, durable))
    }

    function Both(): Lists
      reads this
    {
      Lists(changes, durable)
    }

    /** A new process on an existing disk loads the durable list. */
    constructor (disk: Disk, sha: string -> string)
      ensures State() == Reloaded(disk) && this.sha == sha
    {
      this.sha, temporary := sha, None;
      tree, snaps, durable := disk.tree, disk.snaps, disk.durable;
      changes := disk.durable;
    }

    /** `_save_changes`: the list is written to a temporary file entry by entry, and the whole of it replaces
        `changes.json`; or the writing or the replacing fails and nothing does. `seen` is what `changes.json`
        held on the way. */
    method SaveChanges(payload: seq<Change>, saveOk: bool) returns (raised: bool, ghost seen: seq<seq<Change>>)
      modifies this`durable, this`temporary
      ensures raised == !saveOk
      ensures durable == if saveOk then payload else old(durable)
      ensures temporary == None
      ensures forall list :: list in seen ==> list == old(durable) || list == payload
    {
      var end: nat :| 0 <= end <= |payload| && (saveOk ==> end == |payload|);
      temporary, seen := Some([]), [durable];
      for n := 0 to end
        invariant durable == old(durable) && temporary == Some(payload[..n])
        invariant forall list :: list in seen ==> list == old(durable)
      {
        assert payload[..n + 1] == payload[..n] + [payload[n]];
        temporary, seen := Some(temporary.value + [payload[n]]), seen + [durable];
      }
      if saveOk {
        assert payload[..end] == payload;
        durable := temporary.value;
      }
      temporary, seen := None, seen + [durable];
      raised := !saveOk;
    }

    /** `snapshot_before_write`; `copyStopsAt` makes the copy break off. */
    method SnapshotBeforeWrite(path: string, copyStopsAt: Option<nat>) returns (slot: Option<string>)
      modifies this`snaps
      ensures copyStopsAt.None? ==> State() == Snapshotted(old(State()), path) && slot == SlotFor(old(State()), path)
      ensures copyStopsAt.Some? ==> slot == None
      ensures copyStopsAt.Some? ==> forall name :: name != SlotName(|changes|, BaseName(path)) ==>
             (name in snaps <==> name in old(snaps)) && (name in snaps ==> snaps[name] == old(snaps[name]))
    {
      if path !in tree || !tree[path].File? {
        return None;
      }
      var name := SlotName(|changes|, BaseName(path));
      var data := tree[path].data;
      if copyStopsAt.Some? {
        snaps := snaps[name := if copyStopsAt.value < |data| then data[..copyStopsAt.value] else data];
        return None;
      }
      snaps := snaps[name := data];
      return Some(name);
    }

    /** A tool changes the file it announced. */
    method Modify(path: string, after: Option<string>)
      modifies this`tree
      ensures State() == Modified(old(State()), path, after)
    {
      if after.Some? {
        tree := tree[path := File(after.value)];
      } else {
        tree := Removed(tree, path);
      }
    }

    /** `record_change`: memory follows the durable list, so a failed save records nothing. */
    method RecordChange(entry: Change, saveOk: bool) returns (raised: bool, ghost middle: Session)
      modifies this`changes, this`durable, this`temporary
      ensures raised == !saveOk
      ensures State() == if saveOk then Recorded(old(State()), entry) else old(State())
      ensures Both() == Called(old(Both()), Record([entry], saveOk))
      ensures middle.changes == old(changes)
      ensures middle.disk == old(State()).disk
        || middle.disk == old(State()).disk.(durable := old(changes) + [entry])
    {
      var candidate := changes + [entry];
      ghost var seen;
      raised, seen := SaveChanges(candidate, saveOk);
      middle := State();
      if !raised {
        changes := candidate;
      }
    }

    /** One tracked write from announcement to record, with every system call succeeding. */
    method TrackedWrite(path: string, after: Option<string>)
      modifies this
      ensures State() == Tracked(old(State()), path, after)
    {
      var slot := SnapshotBeforeWrite(path, None);
      Modify(path, after);
      ghost var middle;
      var raised;
      raised, middle := RecordChange(Entry(path, slot), true);
    }

    /** `_remove_path` followed by a chunk-wise copy of `node`'s content. Every state on the way differs from
        the initial one at `path` only. */
    method Install(path: string, node: Node, copyStopsAt: Option<nat>) returns (ok: bool, ghost trace: seq<Disk>)
      modifies this`tree
      ensures ok ==> tree == old(tree)[path := node]
      ensures ok == (copyStopsAt.None? || node.Link?)
      ensures Removed(tree, path) == Removed(old(tree), path)
      ensures forall d :: d in trace ==>
        d.durable == durable && d.snaps == snaps && Removed(d.tree, path) == Removed(old(tree), path)
    {
      ghost var off := Removed(tree, path);
      trace := [];
      if node.Link? {
        tree := tree[path := node];
        return true, [Disk(tree, snaps, durable)];
      }
      var end := if copyStopsAt.Some? && copyStopsAt.value < |node.data| then copyStopsAt.value else |node.data|;
      var n := 0;
      tree := tree[path := File("")];
      trace := trace + [Disk(tree, snaps, durable)];
      while n < end
        invariant 0 <= n <= end
        invariant tree == old(tree)[path := File(node.data[..n])]
        invariant Removed(tree, path) == off
        invariant forall d :: d in trace ==> d.durable == durable && d.snaps == snaps && Removed(d.tree, path) == off
      {
        var chunk: nat :| 0 < chunk <= end - n;
        n := n + chunk;
        tree := tree[path := File(node.data[..n])];
        trace := trace + [Disk(tree, snaps, durable)];
      }
      if copyStopsAt.Some? {
        return false, trace;
      }
      assert node.data[..|node.data|] == node.data;
      return true, trace;
    }

    /** The last two statements of an undo: forget the change, then make that durable. */
    method Forget(saveOk: bool) returns (raised: bool)
      requires changes != []
      modifies this`changes, this`durable, this`temporary
      ensures changes == old(changes)[..|old(changes)| - 1]
      ensures durable == if saveOk then changes else old(durable)
      ensures Both() == Called(old(Both()), UndoLast(true, saveOk))
      ensures raised == !saveOk
    {
      changes := changes[..|changes| - 1];
      ghost var seen;
      raised, seen := SaveChanges(changes, saveOk);
    }

    /** `undo_last_change`. `trace` holds every disk the call passes through; `drops` says that the change was taken off
        the list, and it is if the path was new and could be removed. */
    method UndoLastChange(io: Io) returns (r: Outcome, ghost trace: seq<Disk>, ghost drops: bool)
      modifies this
      ensures Both() == Called(old(Both()), UndoLast(drops, io.saveOk))
      ensures old(changes) != [] && old(changes)[|old(changes)| - 1].isNew && io.removeOk ==> drops
      ensures r.Raised? ==> drops && !io.saveOk
      ensures io == ALL_OK ==> (r, State()) == Undo(sha, old(State()))
      ensures snaps == old(snaps)
      ensures old(changes) != [] ==> forall d :: d in trace ==> CrashPoint(sha, old(State()), d)
      ensures r.Refused? && r.why != IoFailure ==> changes == old(changes) && durable == old(durable)
      ensures r == Undone ==> old(changes) != [] && changes == old(changes)[..|old(changes)| - 1] && durable == changes
    {
      drops := false;
      if changes == [] {
        return Nothing, [], drops;
      }
      var last := changes[|changes| - 1];
      var failure;
      failure, trace := Revert(last, io);
      assert forall d :: d in trace ==> CrashPoint(sha, old(State()), d);
      if failure.Some? {
        return Refused(failure.value), trace, drops;
      }
      drops := true;
      var raised := Forget(io.saveOk);
      trace := trace + [Disk(tree, snaps, durable)];
      return if !raised then Undone else if last.isNew then Refused(IoFailure) else Raised, trace, drops;
    }

    /** The part of an undo that works on the files: the path is removed, and what was there before is put back unless
        the path was new. */
    method Revert(last: Change, io: Io) returns (failure: Option<Refusal>, ghost trace: seq<Disk>)
      modifies this`tree
      ensures forall d :: d in trace ==>
        d.durable == durable && d.snaps == snaps && Removed(d.tree, last.path) == Removed(old(tree), last.path)
      ensures !io.removeOk ==> failure == Some(IoFailure) && tree == old(tree)
      ensures io.removeOk && last.isNew ==> failure.None? && tree == Removed(old(tree), last.path)
      ensures io.removeOk && !last.isNew ==>
        var off := Removed(old(tree), last.path);
        var content := Restored(Disk(off, snaps, durable), last);
        if content.Err? then failure == Some(content.error) && tree == off
        else if io.copyStopsAt.Some? && content.value.File? then failure == Some(IoFailure)
        else
          && tree == off[last.path := content.value]
          && failure == if DigestOk(sha, last, content.value) then None else Some(DigestMismatch)
    {
      if !io.removeOk {
        return Some(IoFailure), [];
      }
      tree := Removed(tree, last.path);
      trace := [Disk(tree, snaps, durable)];
      failure := None;
      if !last.isNew {
        ghost var steps;
        failure, steps := Restore(last, io.copyStopsAt);
        trace := trace + steps;
      }
    }

    /** The middle part of an undo: the content of before the change is put in place of the removed path. */
    method Restore(last: Change, copyStopsAt: Option<nat>) returns (failure: Option<Refusal>, ghost trace: seq<Disk>)
      requires last.path !in tree
      modifies this`tree
      ensures Removed(tree, last.path) == old(tree)
      ensures forall d :: d in trace ==>
        d.durable == durable && d.snaps == snaps && Removed(d.tree, last.path) == old(tree)
      ensures var content := Restored(Disk(old(tree), snaps, durable), last);
        if content.Err? then failure == Some(content.error) && tree == old(tree)
        else if copyStopsAt.Some? && content.value.File? then failure == Some(IoFailure)
        else
          && tree == old(tree)[last.path := content.value]
          && failure == if DigestOk(sha, last, content.value) then None else Some(DigestMismatch)
    {
      assert Removed(tree, last.path) == tree;
      var content := Restored(Disk(tree, snaps, durable), last);
      if content.Err? {
        return Some(content.error), [];
      }
      var copied;
      copied, trace := Install(last.path, content.value, copyStopsAt);
      if !copied {
        return Some(IoFailure), trace;
      }
      if !DigestOk(sha, last, content.value) {
        return Some(DigestMismatch), trace;
      }
      return None, trace;
    }

    /** `undo_changes`; `io` says how the system calls of each undo end. An undo that raises ends it; one that fails
        otherwise does not. */
    method UndoChanges(count: int, io: nat -> Io) returns (ok: bool, raised: bool, ghost calls: seq<Call>)
      modifies this
      ensures |calls| <= UndoCount(old(State()), count)
      ensures !raised && old(changes) != [] ==> |calls| == UndoCount(old(State()), count)
      ensures AreUndos(calls, io)
      ensures Both() == CalledAll(old(Both()), calls)
      ensures raised ==> exists k: nat :: k < |calls| && !io(k).saveOk
      ensures old(changes) == [] ==> !ok && State() == old(State())
      ensures old(changes) != [] && AllWell(io) ==>
        (ok, State()) == UndoTimes(sha, old(State()), UndoCount(old(State()), count))
    {
      calls, raised := [], false;
      if changes == [] {
        return false, raised, calls;
      }
      var n := UndoCount(State(), count);
      ok := true;
      for i := 0 to n
        invariant !raised && |calls| == i && Both() == CalledAll(old(Both()), calls)
        invariant AreUndos(calls, io)
        invariant AllWell(io) ==>
          Continues(sha, old(State()), n, ok, State(), n - i)
      {
        ghost var before := State();
        var done;
        ghost var drops;
        done, raised, drops := UndoOne(io(i));
        if AllWell(io) {
          ContinuesAfterUndo(sha, old(State()), n, ok, before, n - i);
        }
        OneMoreCall(old(Both()), calls, UndoLast(drops, io(i).saveOk));
        calls := calls + [UndoLast(drops, io(i).saveOk)];
        if raised {
          return false, raised, calls;
        }
        ok := ok && done;
      }
    }

    /** One turn of that loop. */
    method UndoOne(io: Io) returns (ok: bool, raised: bool, ghost drops: bool)
      modifies this
      ensures Both() == Called(old(Both()), UndoLast(drops, io.saveOk))
      ensures raised ==> !io.saveOk
      ensures io == ALL_OK ==> (ok, State()) == (Undo(sha, old(State())).0 == Undone, Undo(sha, old(State())).1)
    {
      var r;
      ghost var trace;
      r, trace, drops := UndoLastChange(io);
      ok, raised := r == Undone, r.Raised?;
    }

    /** `discard_transaction`: the retained list becomes durable first. */
    method DiscardTransaction(transaction: string, saveOk: bool) returns (removed: nat, raised: bool)
      modifies this`changes, this`durable, this`temporary
      ensures Both() == Called(old(Both()), Discard(transaction, saveOk))
      ensures saveOk ==> State() == Discarded(old(State()), transaction)
      ensures !saveOk ==> State() == old(State())
      ensures !raised ==> removed == |old(changes)| - |changes|
    {
      if transaction == "" {
        return 0, false;
      }
      var retained := [];
      for i := 0 to |changes|
        invariant retained == Retained(changes[..i], transaction)
      {
        assert changes[..i + 1][..i] == changes[..i];
        if changes[i].transaction != transaction {
          retained := retained + [changes[i]];
        }
      }
      assert changes[..|changes|] == changes;
      removed := |changes| - |retained|;
      raised := false;
      if removed > 0 {
        ghost var seen;
        raised, seen := SaveChanges(retained, saveOk);
        if !raised {
          changes := retained;
        }
      }
    }
  }
}
