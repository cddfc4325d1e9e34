/** The undo history: position-named snapshots, a durable change list, and undo as the inverse of tracked
    writes, also across a crash. */
module History {
  import opened Wrappers
  import Decimal

  // ----- State -----

  /** A symbolic link always names something: the system refuses an empty target. */
  type LinkTarget = t: string | t != "" witness "."

  datatype Node = File(data: string) | Link(target: LinkTarget)

  datatype Kind = FileKind | LinkKind

  datatype Change = Change(
    path: string,
    snapshot: Option<string>,
    isNew: bool,
    kind: Kind,
    linkTarget: string,
    beforeSha: string,
    transaction: string
  )

  /** What survives a crash: the files, the snapshot directory and the durable change list. */
  datatype Disk = Disk(tree: map<string, Node>, snaps: map<string, string>, durable: seq<Change>)

  datatype Session = Session(changes: seq<Change>, disk: Disk)

  // ----- Slot names -----

  /** The last component of a path. */
  function BaseName(path: string): string {
    if path == "" then ""
    else if path[|path| - 1] == '/' then ""
    else BaseName(path[..|path| - 1]) + [path[|path| - 1]]
  }

  /** The snapshot slot for stack position `n`. */
  function SlotName(n: nat, name: string): string {
    Decimal.Pad4(n) + "_" + name
  }

  lemma {:induction false} DigitsEndAtSeparator(p: string, a: string, q: string, b: string)
    requires Decimal.AllDigits(q) && p + ("_" + a) == q + ("_" + b)
    ensures |q| <= |p|
  {
    var s := p + ("_" + a);
    assert s[|p|] == '_';
    assert forall i :: 0 <= i < |q| ==> s[i] == q[i];
  }

  /** A slot name determines both its position and its file name. */
  lemma {:induction false} SlotNameIsInjective(m: nat, a: string, n: nat, b: string)
    requires SlotName(m, a) == SlotName(n, b)
    ensures m == n && a == b
  {
    var s, t := SlotName(m, a), SlotName(n, b);
    var p, q := Decimal.Pad4(m), Decimal.Pad4(n);
    assert s == p + ("_" + a) && t == q + ("_" + b);
    DigitsEndAtSeparator(p, a, q, b);
    DigitsEndAtSeparator(q, b, p, a);
    assert p == s[..|p|] && q == t[..|q|];
    assert a == s[|p| + 1..] && b == t[|q| + 1..];
    Decimal.PadIsInjective(m, n);
  }

  // ----- Operations as functions on the session -----

  function Removed(tree: map<string, Node>, path: string): map<string, Node> {
    map p | p in tree && p != path :: tree[p]
  }

  /** `snapshot_before_write` when the copy succeeds. */
  function SlotFor(s: Session, path: string): Option<string> {
    if path in s.disk.tree && s.disk.tree[path].File? then Some(SlotName(|s.changes|, BaseName(path))) else None
  }

  function Snapshotted(s: Session, path: string): Session {
    var slot := SlotFor(s, path);
    if slot.Some? then
      s.(disk := s.disk.(snaps := s.disk.snaps[slot.value := s.disk.tree[path].data]))
    else s
  }

  /** What a tool does to the file it announced: new content, or none at all. */
  function Modified(s: Session, path: string, after: Option<string>): Session {
    s.(disk := s.disk.(tree :=
      if after.Some? then s.disk.tree[path := File(after.value)] else Removed(s.disk.tree, path)))
  }

  /** The entry `record_change` builds from a snapshot: no snapshot means a new file. */
  function Entry(path: string, snapshot: Option<string>): Change {
    Change(path, snapshot, snapshot.None?, FileKind, "", "", "")
  }

  function Recorded(s: Session, entry: Change): Session {
    Session(s.changes + [entry], s.disk.(durable := s.changes + [entry]))
  }

  /** One tracked write: snapshot, modify, record. */
  function Tracked(s: Session, path: string, after: Option<string>): Session {
    Recorded(Modified(Snapshotted(s, path), path, after), Entry(path, SlotFor(s, path)))
  }

  datatype Write = Write(path: string, after: Option<string>)

  function TrackedAll(s: Session, writes: seq<Write>): Session
    decreases |writes|
  {
    if writes == [] then s
    else
      var n := |writes| - 1;
      Tracked(TrackedAll(s, writes[..n]), writes[n].path, writes[n].after)
  }

  datatype Refusal = LinkTargetMissing | SnapshotMissing | DigestMismatch | IoFailure

  datatype Outcome = Undone | Nothing | Refused(why: Refusal) | Raised

  /** Which system calls succeed during one undo; a copy may break off after some characters. */
  datatype Io = Io(removeOk: bool, copyStopsAt: Option<nat>, saveOk: bool)

  const ALL_OK := Io(true, None, true)

  /** The content undo installs for a change, or why it refuses after having removed the path. */
  function Restored(disk: Disk, last: Change): Result<Node, Refusal> {
    if last.kind == LinkKind then
      if last.linkTarget == "" then Err(LinkTargetMissing) else Ok(Link(last.linkTarget))
    else if last.snapshot.Some? && last.snapshot.value in disk.snaps then
      Ok(File(disk.snaps[last.snapshot.value]))
    else Err(SnapshotMissing)
  }

  function DigestOk(sha: string -> string, last: Change, node: Node): bool {
    last.kind == LinkKind || last.beforeSha == "" || (node.File? && sha(node.data) == last.beforeSha)
  }

  /** `undo_last_change` when every system call succeeds. */
  function Undo(sha: string -> string, s: Session): (Outcome, Session) {
    if s.changes == [] then (Nothing, s)
    else
      var last := s.changes[|s.changes| - 1];
      var rest := s.changes[..|s.changes| - 1];
      var removed := Removed(s.disk.tree, last.path);
      if last.isNew then
        (Undone, Session(rest, s.disk.(tree := removed, durable := rest)))
      else
        match Restored(s.disk, last)
        case Err(why) => (Refused(why), s.(disk := s.disk.(tree := removed)))
        case Ok(node) =>
          if DigestOk(sha, last, node) then
            (Undone, Session(rest, s.disk.(tree := removed[last.path := node], durable := rest)))
          else
            (Refused(DigestMismatch), s.(disk := s.disk.(tree := removed[last.path := node])))
  }

  /** `undo_changes`: as many undos as asked, at least one, at most as many as there are changes. A refused
      undo stays on the list and is tried again. */
  function UndoTimes(sha: string -> string, s: Session, n: nat): (bool, Session)
    decreases n
  {
    if n == 0 then (true, s)
    else
      var (outcome, s') := Undo(sha, s);
      var (ok, end) := UndoTimes(sha, s', n - 1);
      (outcome == Undone && ok, end)
  }

  function UndoCount(s: Session, count: int): nat {
    var wanted: nat := if count < 1 then 1 else count;
    if wanted < |s.changes| then wanted else |s.changes|
  }

  // ----- What undo puts back -----

  /** Undo of a change that left a snapshot puts back exactly the snapshot's content, and succeeds if and only if no
      digest was recorded or the recorded one is that content's; otherwise the change stays. */
  lemma {:induction false} UndoPutsSnapshotBack(sha: string -> string, s: Session)
    requires s.changes != []
    requires var c := s.changes[|s.changes| - 1]; !c.isNew && c.kind == FileKind && c.snapshot.Some?
    requires s.changes[|s.changes| - 1].snapshot.value in s.disk.snaps
    ensures var c := s.changes[|s.changes| - 1];
      var content := s.disk.snaps[c.snapshot.value];
      var (r, u) := Undo(sha, s);
      && (r == Undone <==> c.beforeSha == "" || c.beforeSha == sha(content))
      && u.disk == Disk(s.disk.tree[c.path := File(content)], s.disk.snaps, u.disk.durable)
      && u.changes == (if r == Undone then s.changes[..|s.changes| - 1] else s.changes)
      && u.disk.durable == (if r == Undone then u.changes else s.disk.durable)
  {
    var c := s.changes[|s.changes| - 1];
    var node := File(s.disk.snaps[c.snapshot.value]);
    assert Removed(s.disk.tree, c.path)[c.path := node] == s.disk.tree[c.path := node];
  }

  /** Undo of a change that replaced or removed a link succeeds if and only if its target was recorded, and puts back
      that link, whatever digest was recorded. */
  lemma {:induction false} UndoPutsLinkBack(sha: string -> string, s: Session)
    requires s.changes != []
    requires var c := s.changes[|s.changes| - 1]; !c.isNew && c.kind == LinkKind
    ensures var c := s.changes[|s.changes| - 1];
      var (r, u) := Undo(sha, s);
      && (r == Undone <==> c.linkTarget != "")
      && (r == Undone ==> u.disk.tree == s.disk.tree[c.path := Link(c.linkTarget)])
      && u.changes == (if r == Undone then s.changes[..|s.changes| - 1] else s.changes)
      && u.disk.durable == (if r == Undone then u.changes else s.disk.durable)
  {
    var c := s.changes[|s.changes| - 1];
    if c.linkTarget != "" {
      assert Removed(s.disk.tree, c.path)[c.path := Link(c.linkTarget)] == s.disk.tree[c.path := Link(c.linkTarget)];
    }
  }

  // ----- Undo is the inverse of tracked writes -----

  /** The snapshot of change `i` sits in a slot of position at most `i`. */
  ghost predicate SlotsOrdered(changes: seq<Change>) {
    forall i, j: nat, name :: 0 <= i < |changes| && changes[i].snapshot == Some(SlotName(j, name)) ==> j <= i
  }

  ghost predicate Live(s: Session, slot: string) {
    exists i :: 0 <= i < |s.changes| && s.changes[i].snapshot == Some(slot)
  }

  /** Two sessions that differ at most in snapshots no change refers to. */
  ghost predicate SameButSpareSlots(s: Session, t: Session) {
    && s.changes == t.changes
    && s.disk.tree == t.disk.tree
    && s.disk.durable == t.disk.durable
    && forall i :: 0 <= i < |s.changes| && s.changes[i].snapshot.Some? ==>
         var slot := s.changes[i].snapshot.value;
         && (slot in s.disk.snaps <==> slot in t.disk.snaps)
         && (slot in s.disk.snaps ==> s.disk.snaps[slot] == t.disk.snaps[slot])
  }

  /** The paths of tracked writes are resolved, so they never name a link. */
  ghost predicate Trackable(s: Session, path: string) {
    path in s.disk.tree ==> s.disk.tree[path].File?
  }

  ghost predicate AllTrackable(s: Session, writes: seq<Write>) {
    forall k :: 0 <= k < |writes| ==> Trackable(s, writes[k].path)
  }

  lemma {:induction false} TrackedKeepsSlotsOrdered(s: Session, path: string, after: Option<string>)
    requires SlotsOrdered(s.changes)
    ensures SlotsOrdered(Tracked(s, path, after).changes)
  {
    var t := Tracked(s, path, after);
    forall i, j: nat, name | 0 <= i < |t.changes| && t.changes[i].snapshot == Some(SlotName(j, name))
      ensures j <= i
    {
      if i == |s.changes| {
        SlotNameIsInjective(|s.changes|, BaseName(path), j, name);
      } else {
        assert s.changes[i].snapshot == Some(SlotName(j, name));
      }
    }
  }

  /** A tracked write never overwrites the snapshot of a live change. */
  lemma {:induction false} TrackedKeepsLiveSnapshots(s: Session, path: string, after: Option<string>, slot: string)
    requires SlotsOrdered(s.changes) && Live(s, slot)
    ensures slot in s.disk.snaps <==> slot in Tracked(s, path, after).disk.snaps
    ensures slot in s.disk.snaps ==> Tracked(s, path, after).disk.snaps[slot] == s.disk.snaps[slot]
  {
    assert slot != SlotName(|s.changes|, BaseName(path));
  }

  /** One undo takes back one tracked write, up to the slot it used. */
  lemma {:induction false} UndoInvertsTracked(sha: string -> string, s: Session, path: string, after: Option<string>)
    requires SlotsOrdered(s.changes) && s.disk.durable == s.changes && Trackable(s, path)
    ensures Undo(sha, Tracked(s, path, after)).0 == Undone
    ensures SameButSpareSlots(Undo(sha, Tracked(s, path, after)).1, s)
  {
    var t := Tracked(s, path, after);
    var u := Undo(sha, t).1;
    assert t.changes[..|t.changes| - 1] == s.changes;
    assert u.disk.tree == s.disk.tree;
    forall i | 0 <= i < |s.changes| && s.changes[i].snapshot.Some?
      ensures var slot := s.changes[i].snapshot.value;
              && (slot in u.disk.snaps <==> slot in s.disk.snaps)
              && (slot in u.disk.snaps ==> u.disk.snaps[slot] == s.disk.snaps[slot])
    {
      TrackedKeepsLiveSnapshots(s, path, after, s.changes[i].snapshot.value);
    }
  }

  lemma {:induction false} UndoRespectsSpareSlots(sha: string -> string, s: Session, t: Session)
    requires SameButSpareSlots(s, t)
    ensures Undo(sha, s).0 == Undo(sha, t).0
    ensures SameButSpareSlots(Undo(sha, s).1, Undo(sha, t).1)
  {
    if s.changes != [] {
      var n := |s.changes| - 1;
      var last := s.changes[n];
      assert last == t.changes[n] && Removed(s.disk.tree, last.path) == Removed(t.disk.tree, last.path);
      assert Restored(s.disk, last) == Restored(t.disk, last);
    }
  }

  lemma {:induction false} UndoTimesRespectsSpareSlots(sha: string -> string, s: Session, t: Session, n: nat)
    requires SameButSpareSlots(s, t)
    ensures UndoTimes(sha, s, n).0 == UndoTimes(sha, t, n).0
    ensures SameButSpareSlots(UndoTimes(sha, s, n).1, UndoTimes(sha, t, n).1)
    decreases n
  {
    if n > 0 {
      UndoRespectsSpareSlots(sha, s, t);
      UndoTimesRespectsSpareSlots(sha, Undo(sha, s).1, Undo(sha, t).1, n - 1);
    }
  }

  lemma {:induction false} TrackedAllKeeps(s: Session, writes: seq<Write>, path: string)
    requires SlotsOrdered(s.changes) && s.disk.durable == s.changes && AllTrackable(s, writes) && Trackable(s, path)
    ensures SlotsOrdered(TrackedAll(s, writes).changes)
    ensures TrackedAll(s, writes).disk.durable == TrackedAll(s, writes).changes
    ensures |TrackedAll(s, writes).changes| == |s.changes| + |writes|
    ensures Trackable(TrackedAll(s, writes), path)
    decreases |writes|
  {
    if writes != [] {
      var n := |writes| - 1;
      TrackedAllKeeps(s, writes[..n], path);
      TrackedKeepsSlotsOrdered(TrackedAll(s, writes[..n]), writes[n].path, writes[n].after);
    }
  }

  /** Any number of tracked writes, to any paths and with repetitions, is taken back by as many undos: the
      files, the change list and the durable list are exactly what they were. */
  lemma {:induction false} UndoInvertsTrackedWrites(sha: string -> string, s: Session, writes: seq<Write>)
    requires SlotsOrdered(s.changes) && s.disk.durable == s.changes && AllTrackable(s, writes)
    ensures UndoTimes(sha, TrackedAll(s, writes), |writes|).0
    ensures SameButSpareSlots(UndoTimes(sha, TrackedAll(s, writes), |writes|).1, s)
    decreases |writes|
  {
    if writes != [] {
      var n := |writes| - 1;
      var earlier := writes[..n];
      var before := TrackedAll(s, earlier);
      TrackedAllKeeps(s, earlier, writes[n].path);
      UndoInvertsTracked(sha, before, writes[n].path, writes[n].after);
      UndoInvertsTrackedWrites(sha, s, earlier);
      var after := Undo(sha, TrackedAll(s, writes)).1;
      UndoTimesRespectsSpareSlots(sha, after, before, n);
    }
  }

  /** `undo_changes(n)` after `n >= 1` tracked writes performs exactly those `n` undos. */
  lemma {:induction false} UndoChangesInvertsTrackedWrites(sha: string -> string, s: Session, writes: seq<Write>)
    requires SlotsOrdered(s.changes) && s.disk.durable == s.changes && AllTrackable(s, writes)
    requires writes != []
    ensures var t := TrackedAll(s, writes);
            var (ok, end) := UndoTimes(sha, t, UndoCount(t, |writes|));
            ok && SameButSpareSlots(end, s)
  {
    UndoInvertsTrackedWrites(sha, s, writes);
    TrackedAllKeeps(s, writes, writes[0].path);
  }

  /** Asking for less than one undo still performs one. */
  lemma {:induction false} UndoZeroUndoesOne(sha: string -> string, s: Session, count: int)
    requires s.changes != [] && count < 1
    ensures UndoTimes(sha, s, UndoCount(s, count)) == (Undo(sha, s).0 == Undone, Undo(sha, s).1)
  {
    assert UndoCount(s, count) == 1;
    assert UndoTimes(sha, Undo(sha, s).1, 0) == (true, Undo(sha, s).1);
  }

  // ----- The tree each live change found -----

  /** Change `c` led from `before` to `next`: it touched one path, and either created it, or recorded the target of
      the link that was there, or left its old content in its snapshot slot, with its digest if any. */
  ghost predicate Explains(sha: string -> string, before: map<string, Node>, c: Change, next: map<string, Node>,
                           snaps: map<string, string>)
  {
    && Removed(next, c.path) == Removed(before, c.path)
    && (c.path in before <==> !c.isNew)
    && (c.path in before && c.kind == LinkKind ==> c.linkTarget != "" && before[c.path] == Link(c.linkTarget))
    && (c.path in before && c.kind == FileKind ==>
          && c.snapshot.Some? && c.snapshot.value in snaps
          && before[c.path] == File(snaps[c.snapshot.value])
          && (c.beforeSha == "" || c.beforeSha == sha(snaps[c.snapshot.value])))
  }

  /** The tree that followed live change `i`. */
  ghost function After(past: seq<map<string, Node>>, i: nat, tree: map<string, Node>): map<string, Node> {
    if i + 1 < |past| then past[i + 1] else tree
  }

  /** The tree that change `i` found, or the present one if there is no such change. */
  ghost function FoundBy(past: seq<map<string, Node>>, i: nat, tree: map<string, Node>): map<string, Node> {
    if i < |past| then past[i] else tree
  }

  /** `past[i]` is the tree that live change `i` found. */
  ghost predicate Remembers(sha: string -> string, past: seq<map<string, Node>>, changes: seq<Change>, disk: Disk) {
    && |past| == |changes|
    && forall i :: 0 <= i < |changes| ==> Explains(sha, past[i], changes[i], After(past, i, disk.tree), disk.snaps)
  }

  ghost predicate Healthy(sha: string -> string, past: seq<map<string, Node>>, s: Session) {
    && s.disk.durable == s.changes
    && SlotsOrdered(s.changes)
    && Remembers(sha, past, s.changes, s.disk)
  }

  /** A tracked write remembers the tree it found. */
  lemma {:induction false} TrackedRemembers(
      sha: string -> string, past: seq<map<string, Node>>, s: Session, path: string, after: Option<string>)
    requires Healthy(sha, past, s) && Trackable(s, path)
    ensures Healthy(sha, past + [s.disk.tree], Tracked(s, path, after))
  {
    var t := Tracked(s, path, after);
    TrackedKeepsSlotsOrdered(s, path, after);
    var longer := past + [s.disk.tree];
    forall i | 0 <= i < |t.changes|
      ensures Explains(sha, longer[i], t.changes[i], After(longer, i, t.disk.tree), t.disk.snaps)
    {
      if i < |s.changes| {
        assert Explains(sha, past[i], s.changes[i], After(past, i, s.disk.tree), s.disk.snaps);
        if s.changes[i].snapshot.Some? {
          TrackedKeepsLiveSnapshots(s, path, after, s.changes[i].snapshot.value);
        }
      }
    }
  }

  /** An undo succeeds and returns exactly to the tree before the last live change. */
  lemma {:induction false} UndoReturnsToPast(sha: string -> string, past: seq<map<string, Node>>, s: Session)
    requires Healthy(sha, past, s) && s.changes != []
    ensures Undo(sha, s).0 == Undone
    ensures Undo(sha, s).1.disk.tree == past[|past| - 1]
    ensures Undo(sha, s).1.changes == s.changes[..|s.changes| - 1]
    ensures Healthy(sha, past[..|past| - 1], Undo(sha, s).1)
  {
    var n := |s.changes| - 1;
    var c := s.changes[n];
    var u := Undo(sha, s).1;
    assert Explains(sha, past[n], c, After(past, n, s.disk.tree), s.disk.snaps);
    RestoredPath(s.disk.tree, past[n], c.path);
    assert u.disk.tree == past[n];
    forall i | 0 <= i < n
      ensures Explains(sha, past[i], u.changes[i], After(past[..n], i, u.disk.tree), u.disk.snaps)
    {
      assert Explains(sha, past[i], s.changes[i], After(past, i, s.disk.tree), s.disk.snaps);
    }
  }

  /** Two trees that agree off one path agree once that path is removed or set alike. */
  lemma {:induction false} RestoredPath(now: map<string, Node>, was: map<string, Node>, path: string)
    requires Removed(now, path) == Removed(was, path)
    ensures path !in was ==> Removed(now, path) == was
    ensures path in was ==> Removed(now, path)[path := was[path]] == was
  {
    assert forall p :: p in was && p != path ==> p in Removed(was, path) && Removed(now, path)[p] == was[p];
    assert forall p :: p in Removed(now, path) ==> p in Removed(was, path);
  }

  lemma {:induction false} UndoGoesBackwards(sha: string -> string, past: seq<map<string, Node>>, s: Session)
    requires Healthy(sha, past, s) && s.changes != []
    ensures Undo(sha, s) == (Undone, Backwards(past, s, 1))
  {
    UndoReturnsToPast(sha, past, s);
  }

  lemma {:induction false} BackwardsTwice(past: seq<map<string, Node>>, s: Session, k: nat)
    requires |past| == |s.changes| && k < |past|
    ensures Backwards(past[..|past| - k], Backwards(past, s, k), 1) == Backwards(past, s, k + 1)
  {
    var kept := |past| - k;
    assert s.changes[..kept][..kept - 1] == s.changes[..kept - 1];
  }

  lemma {:induction false} OneMoreBackwards(sha: string -> string, past: seq<map<string, Node>>, s: Session, k: nat)
    requires Healthy(sha, past, s) && k < |past|
    ensures Undo(sha, Backwards(past, s, k)) == (Undone, Backwards(past, s, k + 1))
  {
    CutStaysHealthy(sha, past, s, k);
    UndoGoesBackwards(sha, past[..|past| - k], Backwards(past, s, k));
    BackwardsTwice(past, s, k);
  }

  lemma {:induction false} UndosChain(
      sha: string -> string, past: seq<map<string, Node>>, s: Session, k: nat, n: nat)
    requires |past| == |s.changes| && k <= n <= |past|
    requires forall i: nat :: i < n ==> Undo(sha, Backwards(past, s, i)) == (Undone, Backwards(past, s, i + 1))
    ensures UndoTimes(sha, Backwards(past, s, k), n - k) == (true, Backwards(past, s, n))
    decreases n - k
  {
    if k < n {
      UndosChain(sha, past, s, k + 1, n);
      OneMoreOfTimes(sha, Backwards(past, s, k), Backwards(past, s, k + 1), n - k, Backwards(past, s, n));
    }
  }

  lemma {:induction false} OneMoreOfTimes(sha: string -> string, s: Session, next: Session, n: nat, end: Session)
    requires n > 0 && Undo(sha, s) == (Undone, next) && UndoTimes(sha, next, n - 1) == (true, end)
    ensures UndoTimes(sha, s, n) == (true, end)
  {
  }

  lemma {:induction false} UndosGoBackwards(
      sha: string -> string, past: seq<map<string, Node>>, s: Session, n: nat)
    requires Healthy(sha, past, s) && n <= |s.changes|
    ensures UndoTimes(sha, s, n) == (true, Backwards(past, s, n))
  {
    forall k: nat | k < n
      ensures Undo(sha, Backwards(past, s, k)) == (Undone, Backwards(past, s, k + 1))
    {
      OneMoreBackwards(sha, past, s, k);
    }
    UndosChain(sha, past, s, 0, n);
    assert s == Backwards(past, s, 0) by {
      assert s.changes[..|past|] == s.changes;
    }
  }

  /** So do any number of undos, as many as there are live changes. */
  lemma {:induction false} UndoTimesReturnsToPast(
      sha: string -> string, past: seq<map<string, Node>>, s: Session, n: nat)
    requires Healthy(sha, past, s) && n <= |s.changes|
    ensures UndoTimes(sha, s, n) == (true, Backwards(past, s, n))
    ensures Backwards(past, s, n).disk.tree == FoundBy(past, |past| - n, s.disk.tree)
    ensures Healthy(sha, past[..|past| - n], Backwards(past, s, n))
  {
    UndosGoBackwards(sha, past, s, n);
    CutStaysHealthy(sha, past, s, n);
  }

  /** `undo_changes(count)` takes back exactly `count` changes if and only if there are that many and `count`
      is positive, or there is nothing to undo and nothing is asked for; in general it takes back `UndoCount`
      of them. */
  lemma {:induction false} UndoesAskedIff(sha: string -> string, past: seq<map<string, Node>>, s: Session, count: int)
    requires Healthy(sha, past, s)
    ensures var removed := |s.changes| - |UndoTimes(sha, s, UndoCount(s, count)).1.changes|;
      && removed == UndoCount(s, count)
      && (removed == count <==> 0 < count <= |s.changes| || (count == 0 && s.changes == []))
  {
    UndoTimesReturnsToPast(sha, past, s, UndoCount(s, count));
  }

  /** A tracked write recorded under a transaction. */
  function TrackedIn(s: Session, path: string, after: Option<string>, transaction: string): Session {
    Recorded(Modified(Snapshotted(s, path), path, after), Entry(path, SlotFor(s, path)).(transaction := transaction))
  }

  lemma {:induction false} TrackedInRemembers(
      sha: string -> string, past: seq<map<string, Node>>, s: Session, path: string, after: Option<string>,
      transaction: string)
    requires Healthy(sha, past, s) && Trackable(s, path)
    ensures Healthy(sha, past + [s.disk.tree], TrackedIn(s, path, after, transaction))
  {
    TrackedRemembers(sha, past, s, path, after);
    var t, u := Tracked(s, path, after), TrackedIn(s, path, after, transaction);
    var longer := past + [s.disk.tree];
    forall i, j: nat, name | 0 <= i < |u.changes| && u.changes[i].snapshot == Some(SlotName(j, name))
      ensures j <= i
    {
      assert t.changes[i].snapshot == u.changes[i].snapshot;
    }
    forall i | 0 <= i < |u.changes|
      ensures Explains(sha, longer[i], u.changes[i], After(longer, i, u.disk.tree), u.disk.snaps)
    {
      assert Explains(sha, longer[i], t.changes[i], After(longer, i, t.disk.tree), t.disk.snaps);
    }
  }

  /** The records of the transaction are the newest ones. */
  predicate IsNewest(changes: seq<Change>, transaction: string) {
    var kept := |Retained(changes, transaction)|;
    forall i :: 0 <= i < |changes| ==> (changes[i].transaction == transaction <==> i >= kept)
  }

  /** A failed command: its journal restores the tree that its transaction found, and its records, the newest
      ones, are discarded. */
  ghost function RolledBack(past: seq<map<string, Node>>, s: Session, transaction: string)
    : (seq<map<string, Node>>, Session)
  {
    var kept := |Retained(s.changes, transaction)|;
    if transaction == "" || !IsNewest(s.changes, transaction) || kept > |past| then (past, s)
    else
      (past[..kept], Discarded(s.(disk := s.disk.(tree := FoundBy(past, kept, s.disk.tree))), transaction))
  }

  lemma {:induction false} PrefixIsOrdered(changes: seq<Change>, kept: nat)
    requires SlotsOrdered(changes) && kept <= |changes|
    ensures SlotsOrdered(changes[..kept])
  {
    forall i, j: nat, name | 0 <= i < kept && changes[..kept][i].snapshot == Some(SlotName(j, name))
      ensures j <= i
    {
      assert changes[i].snapshot == Some(SlotName(j, name));
    }
  }

  /** The session with its last `n` changes taken back. */
  ghost function Backwards(past: seq<map<string, Node>>, s: Session, n: nat): Session
    requires |past| == |s.changes| && n <= |past|
  {
    var kept := |past| - n;
    Session(s.changes[..kept], Disk(FoundBy(past, kept, s.disk.tree), s.disk.snaps, s.changes[..kept]))
  }

  lemma {:induction false} AfterCut(past: seq<map<string, Node>>, kept: nat, i: nat, tree: map<string, Node>)
    requires i < kept <= |past|
    ensures After(past[..kept], i, FoundBy(past, kept, tree)) == After(past, i, tree)
  {
  }

  lemma {:induction false} CutRemembers(
      sha: string -> string, past: seq<map<string, Node>>, changes: seq<Change>, disk: Disk, kept: nat)
    requires Remembers(sha, past, changes, disk) && kept <= |past|
    ensures Remembers(sha, past[..kept], changes[..kept],
                      Disk(FoundBy(past, kept, disk.tree), disk.snaps, changes[..kept]))
  {
    var tree := FoundBy(past, kept, disk.tree);
    forall i | 0 <= i < kept
      ensures Explains(sha, past[..kept][i], changes[..kept][i], After(past[..kept], i, tree), disk.snaps)
    {
      AfterCut(past, kept, i, disk.tree);
      assert Explains(sha, past[i], changes[i], After(past, i, disk.tree), disk.snaps);
    }
  }

  lemma {:induction false} CutStaysHealthy(sha: string -> string, past: seq<map<string, Node>>, s: Session, n: nat)
    requires Healthy(sha, past, s) && n <= |past|
    ensures Healthy(sha, past[..|past| - n], Backwards(past, s, n))
  {
    PrefixIsOrdered(s.changes, |past| - n);
    CutRemembers(sha, past, s.changes, s.disk, |past| - n);
  }

  lemma {:induction false} RolledBackIs(past: seq<map<string, Node>>, s: Session, transaction: string)
    requires |past| == |s.changes| && s.disk.durable == s.changes
    requires transaction != "" && IsNewest(s.changes, transaction)
    ensures var kept := |Retained(s.changes, transaction)|;
      RolledBack(past, s, transaction) == (past[..kept], Backwards(past, s, |past| - kept))
  {
    var kept := |Retained(s.changes, transaction)|;
    RetainedPrefix(s.changes, transaction, kept);
    assert kept == |s.changes| ==> s.changes[..kept] == s.changes;
  }

  lemma {:induction false} RollingBackStaysHealthy(
      sha: string -> string, past: seq<map<string, Node>>, s: Session, transaction: string)
    requires Healthy(sha, past, s)
    ensures var (past', s') := RolledBack(past, s, transaction);
      && Healthy(sha, past', s')
      && past' <= past
      && (s'.disk.tree == s.disk.tree || s'.disk.tree in past)
  {
    if transaction != "" && IsNewest(s.changes, transaction) {
      var n := |past| - |Retained(s.changes, transaction)|;
      RolledBackIs(past, s, transaction);
      CutStaysHealthy(sha, past, s, n);
    }
  }

  // ----- Crashes -----

  /** The session a new process finds: the durable list becomes the memory list. */
  function Reloaded(d: Disk): Session {
    Session(d.durable, d)
  }

  /** A disk an interrupted undo can leave: until the new list is durable only the undone path may differ,
      in any way; once it is durable the undo is complete. */
  ghost predicate CrashPoint(sha: string -> string, s: Session, d: Disk)
    requires s.changes != []
  {
    || (&& d.durable == s.disk.durable && d.snaps == s.disk.snaps
        && Removed(d.tree, s.changes[|s.changes| - 1].path)
           == Removed(s.disk.tree, s.changes[|s.changes| - 1].path))
    || d == Undo(sha, s).1.disk
  }

  /** Undo survives a crash at any point. Before the list is durable, reloading and undoing again ends
      exactly where an uninterrupted undo ends; after that, reloading alone does. */
  lemma {:induction false} CrashRecovery(sha: string -> string, s: Session, d: Disk)
    requires s.disk.durable == s.changes && s.changes != []
    requires Undo(sha, s).0 == Undone && CrashPoint(sha, s, d)
    ensures d.durable == s.disk.durable ==> Undo(sha, Reloaded(d)) == Undo(sha, s)
    ensures d.durable != s.disk.durable ==> Reloaded(d) == Undo(sha, s).1
  {
    assert s.changes != s.changes[..|s.changes| - 1];
  }

  /** So undoing again after a restart repeats the interrupted undo exactly when the list had not yet become
      durable; otherwise it takes back one change more. */
  lemma {:induction false} UndoAgainRepeatsIffNotDurable(sha: string -> string, s: Session, d: Disk)
    requires s.disk.durable == s.changes && s.changes != []
    requires Undo(sha, s).0 == Undone && CrashPoint(sha, s, d)
    ensures Undo(sha, Reloaded(d)) == Undo(sha, s) <==> d.durable == s.disk.durable
    ensures d.durable != s.disk.durable ==> Undo(sha, Reloaded(d)) == Undo(sha, Undo(sha, s).1)
  {
    CrashRecovery(sha, s, d);
    if d.durable != s.disk.durable {
      var t := Reloaded(d);
      assert |t.changes| == |s.changes| - 1;
      assert Undo(sha, t).0 == Undone ==> |Undo(sha, t).1.changes| == |t.changes| - 1;
    }
  }

  // ----- Failed snapshots and refused undos -----

  /** A tracked write whose snapshot copy failed: it is recorded as if the file were new. */
  function TrackedWithoutCopy(s: Session, path: string, after: Option<string>): Session {
    Recorded(Modified(s, path, after), Entry(path, None))
  }

  /** Undoing a tracked write restores the files exactly if the copy succeeded or there was nothing to
      copy; otherwise it deletes the file that was there. */
  lemma {:induction false} UndoRestoresIffCopied(
      sha: string -> string, s: Session, path: string, after: Option<string>, copied: bool)
    requires Trackable(s, path)
    ensures var t := if copied then Tracked(s, path, after) else TrackedWithoutCopy(s, path, after);
            && Undo(sha, t).0 == Undone
            && (Undo(sha, t).1.disk.tree == s.disk.tree <==> copied || path !in s.disk.tree)
            && (!copied ==> Undo(sha, t).1.disk.tree == Removed(s.disk.tree, path))
  {
    var t := if copied then Tracked(s, path, after) else TrackedWithoutCopy(s, path, after);
    var u := Undo(sha, t).1;
    assert t.changes[|t.changes| - 1].path == path;
    if copied {
      assert u.disk.tree == s.disk.tree;
    } else {
      assert u.disk.tree == Removed(s.disk.tree, path);
      assert path !in u.disk.tree;
      assert path !in s.disk.tree ==> Removed(s.disk.tree, path) == s.disk.tree;
    }
  }

  /** An undo refused for want of a preimage has already deleted the file: it leaves the files alone exactly
      if there was none. The change stays on the list. */
  lemma {:induction false} RefusalDeletes(sha: string -> string, s: Session)
    requires s.changes != [] && Undo(sha, s).0 in {Refused(SnapshotMissing), Refused(LinkTargetMissing)}
    ensures Undo(sha, s).1.changes == s.changes && Undo(sha, s).1.disk.durable == s.disk.durable
    ensures var path := s.changes[|s.changes| - 1].path;
            && path !in Undo(sha, s).1.disk.tree
            && (Undo(sha, s).1.disk.tree == s.disk.tree <==> path !in s.disk.tree)
  {
    var path := s.changes[|s.changes| - 1].path;
    assert Undo(sha, s).1.disk.tree == Removed(s.disk.tree, path);
    assert path !in s.disk.tree ==> Removed(s.disk.tree, path) == s.disk.tree;
  }

  // ----- Discarding a transaction -----

  function Retained(changes: seq<Change>, transaction: string): (r: seq<Change>)
    ensures |r| <= |changes|
  {
    if changes == [] then []
    else
      var last := changes[|changes| - 1];
      var rest := Retained(changes[..|changes| - 1], transaction);
      if last.transaction != transaction then rest + [last] else rest
  }

  function Discarded(s: Session, transaction: string): Session {
    var retained := Retained(s.changes, transaction);
    if transaction == "" || |retained| == |s.changes| then s
    else Session(retained, s.disk.(durable := retained))
  }

  /** A transaction whose records are the newest ones is discarded without disturbing the slots. */
  lemma {:induction false} DiscardingTailKeepsSlots(s: Session, transaction: string, kept: nat)
    requires SlotsOrdered(s.changes) && kept <= |s.changes| && transaction != ""
    requires forall i :: 0 <= i < |s.changes| ==> (s.changes[i].transaction == transaction <==> i >= kept)
    ensures Discarded(s, transaction).changes == s.changes[..kept]
    ensures SlotsOrdered(Discarded(s, transaction).changes)
  {
    RetainedPrefix(s.changes, transaction, kept);
    assert s.changes[..|s.changes|] == s.changes;
  }

  lemma {:induction false} RetainedPrefix(changes: seq<Change>, transaction: string, kept: nat)
    requires kept <= |changes|
    requires forall i :: 0 <= i < |changes| ==> (changes[i].transaction == transaction <==> i >= kept)
    ensures Retained(changes, transaction) == changes[..kept]
  {
    if changes != [] {
      var n := |changes| - 1;
      if kept <= n {
        assert changes[n].transaction == transaction;
        RetainedPrefix(changes[..n], transaction, kept);
        assert changes[..n][..kept] == changes[..kept];
      } else {
        assert changes[n].transaction != transaction;
        RetainedPrefix(changes[..n], transaction, n);
        assert changes[..n][..n] == changes[..n] && changes[..n] + [changes[n]] == changes[..kept];
      }
    }
  }

  /** In any session, however it came about, a tracked write keeps every live snapshot exactly if its own
      slot is not live, or already holds what is copied there. */
  lemma {:induction false} LiveSnapshotsKeptIff(s: Session, path: string, after: Option<string>)
    requires path in s.disk.tree && s.disk.tree[path].File?
    requires forall slot :: Live(s, slot) ==> slot in s.disk.snaps
    ensures var next := SlotName(|s.changes|, BaseName(path));
      (forall slot :: Live(s, slot) ==> Tracked(s, path, after).disk.snaps[slot] == s.disk.snaps[slot])
      <==> !Live(s, next) || s.disk.snaps[next] == s.disk.tree[path].data
  {
  }

  /** So in any session whose live snapshots are all there, undo takes back a tracked write, live snapshots
      included, exactly in that case. */
  lemma {:induction false} UndoInvertsTrackedIff(sha: string -> string, s: Session, path: string, after: Option<string>)
    requires path in s.disk.tree && s.disk.tree[path].File? && s.disk.durable == s.changes
    requires forall slot :: Live(s, slot) ==> slot in s.disk.snaps
    ensures var next := SlotName(|s.changes|, BaseName(path));
      && Undo(sha, Tracked(s, path, after)).0 == Undone
      && Undo(sha, Tracked(s, path, after)).1.disk.tree == s.disk.tree
      && (SameButSpareSlots(Undo(sha, Tracked(s, path, after)).1, s)
          <==> !Live(s, next) || s.disk.snaps[next] == s.disk.tree[path].data)
  {
    var next := SlotName(|s.changes|, BaseName(path));
    var t := Tracked(s, path, after);
    var u := Undo(sha, t).1;
    assert t.changes[..|t.changes| - 1] == s.changes;
    assert u.disk.tree == s.disk.tree;
    assert u.disk.snaps == s.disk.snaps[next := s.disk.tree[path].data];
    if i :| 0 <= i < |s.changes| && s.changes[i].snapshot == Some(next) {
      assert Live(s, next);
    }
  }

  /** A transaction discarded from the middle makes slots repeat: the next tracked write of the same file
      overwrites a live snapshot, and the undos no longer reach the content before the first write. */
  lemma {:induction false} MiddleDiscardLosesPreimage(sha: string -> string) returns (s: Session)
    ensures SlotsOrdered(s.changes) && s.disk.durable == s.changes
    ensures |s.changes| == 2 && s.changes[0].transaction == "tx" && s.changes[1].transaction == ""
    ensures Undo(sha, s).1.disk.tree == map["f" := File("one")]
    ensures var d := Discarded(s, "tx");
            UndoTimes(sha, Tracked(d, "f", Some("three")), 2).1.disk.tree == map["f" := File("two")]
  {
    var slot := SlotName(1, "f");
    var c := Entry("g", None).(transaction := "tx");
    var w := Entry("f", Some(slot));
    s := Session([c, w], Disk(map["f" := File("two")], map[slot := "one"], [c, w]));
    forall i, j: nat, name | 0 <= i < |s.changes| && s.changes[i].snapshot == Some(SlotName(j, name))
      ensures j <= i
    {
      SlotNameIsInjective(1, "f", j, name);
    }
    UndoWithinSlot(sha, s, w, slot);
    DiscardsFirst(c, w);
    var d := Discarded(s, "tx");
    SlotsRepeat(sha, d, w, slot);
  }

  lemma {:induction false} DiscardsFirst(c: Change, w: Change)
    requires c.transaction == "tx" && w.transaction == ""
    ensures Retained([c, w], "tx") == [w]
  {
    assert [c, w][..1] == [c] && [c][..0] == [];
    assert Retained([c], "tx") == [];
  }

  /** With one change whose slot is the next one, a tracked write takes the slot over. */
  lemma {:induction false} SlotsRepeat(sha: string -> string, d: Session, w: Change, slot: string)
    requires slot == SlotName(1, "f") && w == Entry("f", Some(slot))
    requires d.changes == [w] && d.disk.tree == map["f" := File("two")]
    ensures UndoTimes(sha, Tracked(d, "f", Some("three")), 2).1.disk.tree == map["f" := File("two")]
  {
    assert BaseName("f") == "f" by {
      assert "f"[..0] == "";
    }
    var t := Tracked(d, "f", Some("three"));
    assert t.changes == [w, w] && t.disk.snaps[slot] == "two" && t.disk.tree == map["f" := File("three")];
    UndoWithinSlot(sha, t, w, slot);
    var u := Undo(sha, t).1;
    UndoWithinSlot(sha, u, w, slot);
    UndoTwice(sha, t);
  }

  lemma {:induction false} UndoWithinSlot(sha: string -> string, s: Session, w: Change, slot: string)
    requires s.changes != [] && s.changes[|s.changes| - 1] == w && w == Entry("f", Some(slot))
    requires s.disk.tree.Keys == {"f"} && s.disk.tree["f"].File?
    requires slot in s.disk.snaps
    ensures var u := Undo(sha, s).1;
      && u.changes == s.changes[..|s.changes| - 1]
      && u.disk.tree == map["f" := File(s.disk.snaps[slot])]
      && u.disk.snaps == s.disk.snaps
  {
  }

  lemma {:induction false} UndoTwice(sha: string -> string, s: Session)
    ensures UndoTimes(sha, s, 2).1 == Undo(sha, Undo(sha, s).1).1
  {
    var u := Undo(sha, s).1;
    assert UndoTimes(sha, Undo(sha, u).1, 0).1 == Undo(sha, u).1;
    assert UndoTimes(sha, u, 1).1 == Undo(sha, u).1;
  }

  // ----- Several files in one transaction -----

  /** `multi_edit`: all snapshots are taken first, then all files are written, then all changes recorded. */
  function SnapshottedAll(s: Session, writes: seq<Write>): Session
    decreases |writes|
  {
    if writes == [] then s
    else Snapshotted(SnapshottedAll(s, writes[..|writes| - 1]), writes[|writes| - 1].path)
  }

  function ModifiedAll(s: Session, writes: seq<Write>): Session
    decreases |writes|
  {
    if writes == [] then s
    else
      var w := writes[|writes| - 1];
      Modified(ModifiedAll(s, writes[..|writes| - 1]), w.path, w.after)
  }

  function RecordedAll(s: Session, entries: seq<Change>): Session
    decreases |entries|
  {
    if entries == [] then s
    else Recorded(RecordedAll(s, entries[..|entries| - 1]), entries[|entries| - 1])
  }

  function Entries(s: Session, writes: seq<Write>): (r: seq<Change>)
    ensures |r| == |writes|
  {
    seq(|writes|, k requires 0 <= k < |writes| => Entry(writes[k].path, SlotFor(s, writes[k].path)))
  }

  function Transacted(s: Session, writes: seq<Write>): Session {
    RecordedAll(ModifiedAll(SnapshottedAll(s, writes), writes), Entries(s, writes))
  }

  /** A transaction edits distinct files that exist. */
  ghost predicate EditsFiles(s: Session, writes: seq<Write>) {
    && (forall k :: 0 <= k < |writes| ==> writes[k].path in s.disk.tree && s.disk.tree[writes[k].path].File?)
    && (forall j, k :: 0 <= j < k < |writes| ==> writes[j].path != writes[k].path)
  }

  function SlotOf(s: Session, w: Write): string {
    SlotName(|s.changes|, BaseName(w.path))
  }

  /** The last of the files that share file `k`'s name: its content is what their common slot keeps. */
  function Keeper(writes: seq<Write>, k: nat, n: nat): (r: nat)
    requires k < n <= |writes|
    ensures k <= r < n && BaseName(writes[r].path) == BaseName(writes[k].path)
    ensures forall j :: r < j < n ==> BaseName(writes[j].path) != BaseName(writes[k].path)
    decreases n
  {
    if n - 1 == k || BaseName(writes[n - 1].path) == BaseName(writes[k].path) then n - 1
    else Keeper(writes, k, n - 1)
  }

  lemma {:induction false} SlotsKeepLast(s: Session, writes: seq<Write>, k: nat)
    requires EditsFiles(s, writes) && k < |writes|
    ensures var t := SnapshottedAll(s, writes);
            && t.changes == s.changes && t.disk.tree == s.disk.tree && t.disk.durable == s.disk.durable
            && SlotOf(s, writes[k]) in t.disk.snaps
            && File(t.disk.snaps[SlotOf(s, writes[k])]) == s.disk.tree[writes[Keeper(writes, k, |writes|)].path]
    decreases |writes|
  {
    var n := |writes| - 1;
    if k < n {
      SlotsKeepLast(s, writes[..n], k);
      KeeperOfPrefix(writes, k, n);
      if SlotOf(s, writes[n]) == SlotOf(s, writes[k]) {
        SlotNameIsInjective(|s.changes|, BaseName(writes[n].path), |s.changes|, BaseName(writes[k].path));
      }
    } else if n > 0 {
      SlotsKeepLast(s, writes[..n], 0);
    }
  }

  lemma {:induction false} KeeperOfPrefix(writes: seq<Write>, k: nat, n: nat)
    requires k < n <= |writes|
    ensures Keeper(writes[..n], k, n) == Keeper(writes, k, n)
  {
  }

  lemma {:induction false} RecordedAllAppends(s: Session, entries: seq<Change>)
    requires s.disk.durable == s.changes
    ensures RecordedAll(s, entries)
      == Session(s.changes + entries, s.disk.(durable := s.changes + entries))
    decreases |entries|
  {
    if entries == [] {
      assert s.changes + entries == s.changes;
    } else {
      var n := |entries| - 1;
      RecordedAllAppends(s, entries[..n]);
      assert s.changes + entries[..n] + [entries[n]] == s.changes + entries;
    }
  }

  ghost predicate Writes(writes: seq<Write>, path: string) {
    exists k :: 0 <= k < |writes| && writes[k].path == path
  }

  lemma {:induction false} ModifiedAllElsewhere(s: Session, writes: seq<Write>, path: string)
    requires !Writes(writes, path)
    ensures var t := ModifiedAll(s, writes);
            && t == s.(disk := s.disk.(tree := t.disk.tree))
            && (path in t.disk.tree <==> path in s.disk.tree)
            && (path in s.disk.tree ==> t.disk.tree[path] == s.disk.tree[path])
    decreases |writes|
  {
    if writes != [] {
      var n := |writes| - 1;
      forall k | 0 <= k < n
        ensures writes[..n][k].path != path
      {
        assert writes[k].path != path;
      }
      assert writes[n].path != path;
      ModifiedAllElsewhere(s, writes[..n], path);
    }
  }

  /** The session after the transaction was undone down to its first `k` changes. */
  ghost predicate UndoneDownTo(s: Session, writes: seq<Write>, snaps: map<string, string>, k: nat, u: Session)
    requires k <= |writes|
  {
    && u.changes == s.changes + Entries(s, writes)[..k]
    && u.disk.durable == u.changes && u.disk.snaps == snaps
    && (forall p :: !Writes(writes, p) ==> (p in u.disk.tree <==> p in s.disk.tree))
    && (forall p :: !Writes(writes, p) && p in s.disk.tree ==> u.disk.tree[p] == s.disk.tree[p])
    && (forall j :: k <= j < |writes| ==> SlotOf(s, writes[j]) in snaps && writes[j].path in u.disk.tree
                                          && u.disk.tree[writes[j].path] == File(snaps[SlotOf(s, writes[j])]))
  }

  lemma {:induction false} TransactionStartsUndoneDownTo(s: Session, writes: seq<Write>)
    requires EditsFiles(s, writes) && s.disk.durable == s.changes
    ensures UndoneDownTo(s, writes, SnapshottedAll(s, writes).disk.snaps, |writes|, Transacted(s, writes))
  {
    var a := SnapshottedAll(s, writes);
    if writes != [] {
      SlotsKeepLast(s, writes, 0);
    }
    var b := ModifiedAll(a, writes);
    ModifiedAllKeepsRest(a, writes);
    RecordedAllAppends(b, Entries(s, writes));
    assert Entries(s, writes)[..|writes|] == Entries(s, writes);
    forall p | !Writes(writes, p)
      ensures p in b.disk.tree <==> p in s.disk.tree
      ensures p in s.disk.tree ==> b.disk.tree[p] == s.disk.tree[p]
    {
      ModifiedAllElsewhere(a, writes, p);
    }
  }

  lemma {:induction false} ModifiedAllKeepsRest(s: Session, writes: seq<Write>)
    ensures ModifiedAll(s, writes).changes == s.changes
    ensures ModifiedAll(s, writes).disk == s.disk.(tree := ModifiedAll(s, writes).disk.tree)
    decreases |writes|
  {
    if writes != [] {
      ModifiedAllKeepsRest(s, writes[..|writes| - 1]);
    }
  }

  lemma {:induction false} UndoOneOfTransaction(
      sha: string -> string, s: Session, writes: seq<Write>, snaps: map<string, string>, k: nat, u: Session)
    requires EditsFiles(s, writes) && 0 < k <= |writes| && SlotOf(s, writes[k - 1]) in snaps
    requires UndoneDownTo(s, writes, snaps, k, u)
    ensures Undo(sha, u).0 == Undone
    ensures UndoneDownTo(s, writes, snaps, k - 1, Undo(sha, u).1)
  {
    var w, slot := writes[k - 1], SlotOf(s, writes[k - 1]);
    var rest := s.changes + Entries(s, writes)[..k - 1];
    assert u.changes == rest + [Entry(w.path, Some(slot))] by {
      assert Entries(s, writes)[..k] == Entries(s, writes)[..k - 1] + [Entries(s, writes)[k - 1]];
    }
    UndoOfSnapshot(sha, u, rest, w.path, slot);
    var tree := Removed(u.disk.tree, w.path)[w.path := File(snaps[slot])];
    assert Undo(sha, u).1 == Session(rest, Disk(tree, snaps, rest));
    assert Writes(writes, w.path);
    forall j | k - 1 <= j < |writes|
      ensures writes[j].path in tree && SlotOf(s, writes[j]) in snaps
      ensures tree[writes[j].path] == File(snaps[SlotOf(s, writes[j])])
    {
      if j >= k {
        assert writes[j].path != w.path;
      }
    }
  }

  lemma {:induction false} UndoOfSnapshot(
      sha: string -> string, u: Session, rest: seq<Change>, path: string, slot: string)
    requires u.changes == rest + [Entry(path, Some(slot))] && slot in u.disk.snaps
    ensures Undo(sha, u) == (Undone, Session(rest, u.disk.(
      tree := Removed(u.disk.tree, path)[path := File(u.disk.snaps[slot])], durable := rest)))
  {
    assert u.changes[..|u.changes| - 1] == rest;
  }

  lemma {:induction false} UndoTransaction(sha: string -> string, s: Session, writes: seq<Write>, k: nat, u: Session)
    requires EditsFiles(s, writes) && k <= |writes|
    requires UndoneDownTo(s, writes, SnapshottedAll(s, writes).disk.snaps, k, u)
    ensures UndoTimes(sha, u, k).0
    ensures UndoneDownTo(s, writes, SnapshottedAll(s, writes).disk.snaps, 0, UndoTimes(sha, u, k).1)
    decreases k
  {
    if k > 0 {
      SlotsKeepLast(s, writes, k - 1);
      UndoOneOfTransaction(sha, s, writes, SnapshottedAll(s, writes).disk.snaps, k, u);
      UndoTransaction(sha, s, writes, k - 1, Undo(sha, u).1);
    }
  }

  /** Any two of the transaction's files that share a name had the same content. */
  ghost predicate SameNameSameContent(s: Session, writes: seq<Write>)
    requires EditsFiles(s, writes)
  {
    forall j, k :: 0 <= j < k < |writes| && BaseName(writes[j].path) == BaseName(writes[k].path)
      ==> s.disk.tree[writes[j].path] == s.disk.tree[writes[k].path]
  }

  ghost predicate KeepersAgree(s: Session, writes: seq<Write>)
    requires EditsFiles(s, writes)
  {
    forall k :: 0 <= k < |writes|
      ==> s.disk.tree[writes[Keeper(writes, k, |writes|)].path] == s.disk.tree[writes[k].path]
  }

  /** Undoing a transaction over several files restores them exactly if any two of its files that have the
      same name, in different directories, also had the same content. */
  lemma {:induction false} TransactionUndoneIff(sha: string -> string, s: Session, writes: seq<Write>)
    requires EditsFiles(s, writes) && s.disk.durable == s.changes
    ensures var (ok, end) := UndoTimes(sha, Transacted(s, writes), |writes|);
      && ok && end.changes == s.changes && end.disk.durable == s.changes
      && (end.disk.tree == s.disk.tree <==> SameNameSameContent(s, writes))
  {
    TransactionStartsUndoneDownTo(s, writes);
    UndoTransaction(sha, s, writes, |writes|, Transacted(s, writes));
    var end := UndoTimes(sha, Transacted(s, writes), |writes|).1;
    assert end.changes == s.changes by {
      assert s.changes + Entries(s, writes)[..0] == s.changes;
    }
    forall k | 0 <= k < |writes|
      ensures writes[k].path in end.disk.tree
      ensures end.disk.tree[writes[k].path] == s.disk.tree[writes[Keeper(writes, k, |writes|)].path]
    {
      SlotsKeepLast(s, writes, k);
    }
    TreeRestoredIff(s, writes, end.disk.tree);
    KeepersAgreeIff(s, writes);
  }

  lemma {:induction false} TreeRestoredIff(s: Session, writes: seq<Write>, tree: map<string, Node>)
    requires EditsFiles(s, writes)
    requires forall p :: !Writes(writes, p) ==> (p in tree <==> p in s.disk.tree)
    requires forall p :: !Writes(writes, p) && p in s.disk.tree ==> tree[p] == s.disk.tree[p]
    requires forall k :: 0 <= k < |writes| ==> writes[k].path in tree
    requires forall k :: 0 <= k < |writes| ==>
      tree[writes[k].path] == s.disk.tree[writes[Keeper(writes, k, |writes|)].path]
    ensures tree == s.disk.tree <==> KeepersAgree(s, writes)
  {
    if KeepersAgree(s, writes) {
      forall p
        ensures p in tree <==> p in s.disk.tree
        ensures p in tree ==> tree[p] == s.disk.tree[p]
      {
        if Writes(writes, p) {
          var k :| 0 <= k < |writes| && writes[k].path == p;
          assert tree[writes[k].path] == s.disk.tree[writes[Keeper(writes, k, |writes|)].path];
        }
      }
      assert tree == s.disk.tree;
    }
  }

  lemma {:induction false} KeepersAgreeIff(s: Session, writes: seq<Write>)
    requires EditsFiles(s, writes)
    ensures KeepersAgree(s, writes) <==> SameNameSameContent(s, writes)
  {
    var n := |writes|;
    if KeepersAgree(s, writes) {
      forall j, k | 0 <= j < k < n && BaseName(writes[j].path) == BaseName(writes[k].path)
        ensures s.disk.tree[writes[j].path] == s.disk.tree[writes[k].path]
      {
        assert Keeper(writes, j, n) == Keeper(writes, k, n);
      }
    }
    if SameNameSameContent(s, writes) {
      forall k | 0 <= k < n
        ensures s.disk.tree[writes[Keeper(writes, k, n)].path] == s.disk.tree[writes[k].path]
      {
        var r := Keeper(writes, k, n);
        assert k == r || k < r;
      }
    }
  }
}
