/** Sessions in which tools write files and commands change the workspace as they like: what the journal records of
    a command, and every run of tracked writes, commands, undos and rollbacks. */
module Sessions {
  import opened Wrappers
  import Decimal
  import opened History

  // ----- The journal's preimages -----

  const PREIMAGES := "command-preimages/"

  /** Where the journal keeps the content with this digest. */
  function PreimageName(digest: string): string {
    PREIMAGES + (if |digest| < 2 then digest else digest[..2]) + "/" + digest
  }

  lemma {:induction false} PreimageNameIsInjective(a: string, b: string)
    requires PreimageName(a) == PreimageName(b)
    ensures a == b
  {
    var name := PreimageName(a);
    assert |a| == |b|;
    assert a == name[|name| - |a|..] && b == name[|name| - |b|..];
  }

  lemma {:induction false} PreimageIsNoSlot(digest: string, n: nat, name: string)
    ensures PreimageName(digest) != SlotName(n, name)
  {
    assert PreimageName(digest)[0] == PREIMAGES[0] == 'c';
    assert SlotName(n, name)[0] == Decimal.Pad4(n)[0];
  }

  /** What a run is confined to: its paths, in the order in which the journal walks the workspace and in the order in
      which it compares two captures; its contents; and the paths that are never links. */
  datatype Scope = Scope(walk: seq<string>, sorted: seq<string>, contents: set<string>, plain: set<string>)

  /** `capture(store_preimages=True)`: every file's content is stored under its digest, unless one is there already. */
  function Stored(sha: string -> string, tree: map<string, Node>, walk: seq<string>, snaps: map<string, string>)
    : map<string, string>
    decreases |walk|
  {
    if walk == [] then snaps
    else
      var path := walk[|walk| - 1];
      var earlier := Stored(sha, tree, walk[..|walk| - 1], snaps);
      if path in tree && tree[path].File? then
        var name := PreimageName(sha(tree[path].data));
        if name in earlier then earlier else earlier[name := tree[path].data]
      else earlier
  }

  /** A preimage has the digest it is named after. */
  ghost predicate Preimages(sha: string -> string, snaps: map<string, string>, contents: set<string>) {
    forall digest :: PreimageName(digest) in snaps ==>
      sha(snaps[PreimageName(digest)]) == digest && snaps[PreimageName(digest)] in contents
  }

  ghost predicate Contains(more: map<string, string>, snaps: map<string, string>) {
    forall name :: name in snaps ==> name in more && more[name] == snaps[name]
  }

  ghost predicate Within(tree: map<string, Node>, contents: set<string>) {
    forall p :: p in tree && tree[p].File? ==> tree[p].data in contents
  }

  lemma {:induction false} StoringKeeps(
      sha: string -> string, tree: map<string, Node>, walk: seq<string>, snaps: map<string, string>,
      contents: set<string>)
    requires Preimages(sha, snaps, contents) && Within(tree, contents)
    ensures var r := Stored(sha, tree, walk, snaps);
      && Preimages(sha, r, contents)
      && Contains(r, snaps)
      && (forall p :: p in walk && p in tree && tree[p].File? ==> PreimageName(sha(tree[p].data)) in r)
    decreases |walk|
  {
    if walk != [] {
      var path, rest := walk[|walk| - 1], walk[..|walk| - 1];
      StoringKeeps(sha, tree, rest, snaps, contents);
      assert walk == rest + [path];
      var r := Stored(sha, tree, walk, snaps);
      if path in tree && tree[path].File? {
        forall digest | PreimageName(digest) in r
          ensures sha(r[PreimageName(digest)]) == digest && r[PreimageName(digest)] in contents
        {
          if PreimageName(digest) == PreimageName(sha(tree[path].data)) {
            PreimageNameIsInjective(digest, sha(tree[path].data));
          }
        }
      }
    }
  }

  // ----- What a command changed -----

  /** `path` is created, deleted or has another kind, digest or target. */
  predicate Mutated(sha: string -> string, before: map<string, Node>, after: map<string, Node>, path: string) {
    if path in before && path in after then
      match (before[path], after[path])
      case (File(a), File(b)) => sha(a) != sha(b)
      case (Link(a), Link(b)) => a != b
      case _ => true
    else path in before || path in after
  }

  /** `diff`, over the paths in their order. */
  function Diff(sha: string -> string, paths: seq<string>, before: map<string, Node>, after: map<string, Node>)
    : (r: seq<string>)
    decreases |paths|
  {
    if paths == [] then []
    else
      var rest := Diff(sha, paths[..|paths| - 1], before, after);
      if Mutated(sha, before, after, paths[|paths| - 1]) then rest + [paths[|paths| - 1]] else rest
  }

  ghost predicate NoRepeats(paths: seq<string>) {
    forall i, j :: 0 <= i < j < |paths| ==> paths[i] != paths[j]
  }

  lemma {:induction false} DiffLists(
      sha: string -> string, paths: seq<string>, before: map<string, Node>, after: map<string, Node>)
    requires NoRepeats(paths)
    ensures NoRepeats(Diff(sha, paths, before, after))
    ensures forall p :: p in Diff(sha, paths, before, after) <==> p in paths && Mutated(sha, before, after, p)
    decreases |paths|
  {
    if paths != [] {
      var rest, last := paths[..|paths| - 1], paths[|paths| - 1];
      DiffLists(sha, rest, before, after);
      assert paths == rest + [last];
      assert last !in rest;
    }
  }

  /** The record of one changed path. */
  function CommandEntry(sha: string -> string, before: map<string, Node>, path: string, transaction: string): Change {
    if path !in before then Change(path, None, true, FileKind, "", "", transaction)
    else
      match before[path]
      case File(data) => Change(path, Some(PreimageName(sha(data))), false, FileKind, "", sha(data), transaction)
      case Link(target) => Change(path, None, false, LinkKind, target, sha(target), transaction)
  }

  function CommandEntries(
      sha: string -> string, before: map<string, Node>, mutated: seq<string>, transaction: string): (r: seq<Change>)
    ensures |r| == |mutated|
  {
    seq(|mutated|, k requires 0 <= k < |mutated| => CommandEntry(sha, before, mutated[k], transaction))
  }

  /** A command that leaves the tree `after`, captured before and after, its changes recorded in one save. */
  function Ran(sha: string -> string, scope: Scope, s: Session, after: map<string, Node>, transaction: string): Session
  {
    var snaps := Stored(sha, s.disk.tree, scope.walk, s.disk.snaps);
    var mutated := Diff(sha, scope.sorted, s.disk.tree, after);
    var changes := s.changes + CommandEntries(sha, s.disk.tree, mutated, transaction);
    Session(changes, Disk(after, snaps, if mutated == [] then s.disk.durable else changes))
  }

  // ----- The trees its records lead through -----

  function Moved(tree: map<string, Node>, path: string, after: map<string, Node>): map<string, Node> {
    if path in after then tree[path := after[path]] else Removed(tree, path)
  }

  /** The first `k` mutated paths as the command left them, the others as it found them. */
  function Reached(before: map<string, Node>, mutated: seq<string>, after: map<string, Node>, k: nat): map<string, Node>
    requires k <= |mutated|
    decreases k
  {
    if k == 0 then before else Moved(Reached(before, mutated, after, k - 1), mutated[k - 1], after)
  }

  ghost predicate Agree(a: map<string, Node>, b: map<string, Node>, path: string) {
    (path in a <==> path in b) && (path in a ==> a[path] == b[path])
  }

  lemma {:induction false} ReachedAt(
      before: map<string, Node>, mutated: seq<string>, after: map<string, Node>, k: nat, path: string)
    requires k <= |mutated|
    ensures path in mutated[..k] ==> Agree(Reached(before, mutated, after, k), after, path)
    ensures path !in mutated[..k] ==> Agree(Reached(before, mutated, after, k), before, path)
    decreases k
  {
    if k > 0 {
      ReachedAt(before, mutated, after, k - 1, path);
      assert mutated[..k] == mutated[..k - 1] + [mutated[k - 1]];
    }
  }

  ghost function Trees(before: map<string, Node>, mutated: seq<string>, after: map<string, Node>)
    : (r: seq<map<string, Node>>)
    ensures |r| == |mutated|
  {
    seq(|mutated|, k requires 0 <= k < |mutated| => Reached(before, mutated, after, k))
  }

  /** No two contents share a digest. */
  ghost predicate NoCollision(sha: string -> string, contents: set<string>) {
    forall a, b :: a in contents && b in contents && sha(a) == sha(b) ==> a == b
  }

  /** The tree stays within the scope. */
  ghost predicate Confined(scope: Scope, tree: map<string, Node>) {
    && (forall p :: p in tree ==> p in scope.walk && p in scope.sorted)
    && Within(tree, scope.contents)
    && forall p :: p in scope.plain && p in tree ==> tree[p].File?
  }

  ghost predicate Sensible(sha: string -> string, scope: Scope) {
    NoRepeats(scope.sorted) && NoCollision(sha, scope.contents)
  }

  lemma {:induction false} ReachesAfter(
      sha: string -> string, scope: Scope, before: map<string, Node>, after: map<string, Node>)
    requires Sensible(sha, scope) && Confined(scope, before) && Confined(scope, after)
    ensures var mutated := Diff(sha, scope.sorted, before, after);
      Reached(before, mutated, after, |mutated|) == after
  {
    var mutated := Diff(sha, scope.sorted, before, after);
    var end := Reached(before, mutated, after, |mutated|);
    DiffLists(sha, scope.sorted, before, after);
    assert mutated[..|mutated|] == mutated;
    forall p
      ensures p in end <==> p in after
      ensures p in end ==> end[p] == after[p]
    {
      ReachedAt(before, mutated, after, |mutated|, p);
    }
    assert end == after;
  }

  lemma {:induction false} ReachedIsConfined(
      scope: Scope, before: map<string, Node>, mutated: seq<string>, after: map<string, Node>, k: nat)
    requires Confined(scope, before) && Confined(scope, after) && k <= |mutated|
    ensures Confined(scope, Reached(before, mutated, after, k))
  {
    var tree := Reached(before, mutated, after, k);
    forall p | p in tree
      ensures Agree(tree, before, p) || Agree(tree, after, p)
    {
      ReachedAt(before, mutated, after, k, p);
    }
  }

  /** Record `k` of a command explains the step it stands for. */
  lemma {:induction false} RecordExplains(
      sha: string -> string, scope: Scope, s: Session, after: map<string, Node>, transaction: string, k: nat)
    requires Sensible(sha, scope) && Confined(scope, s.disk.tree) && Preimages(sha, s.disk.snaps, scope.contents)
    requires k < |Diff(sha, scope.sorted, s.disk.tree, after)|
    ensures var before, mutated := s.disk.tree, Diff(sha, scope.sorted, s.disk.tree, after);
      Explains(sha, Reached(before, mutated, after, k), CommandEntry(sha, before, mutated[k], transaction),
               Reached(before, mutated, after, k + 1), Stored(sha, before, scope.walk, s.disk.snaps))
  {
    var before, mutated := s.disk.tree, Diff(sha, scope.sorted, s.disk.tree, after);
    var path := mutated[k];
    DiffLists(sha, scope.sorted, before, after);
    assert path !in mutated[..k];
    ReachedAt(before, mutated, after, k, path);
    StoringKeeps(sha, before, scope.walk, s.disk.snaps, scope.contents);
    var found := Reached(before, mutated, after, k);
    assert Removed(Moved(found, path, after), path) == Removed(found, path);
  }

  lemma {:induction false} RecordsKeepSlotsOrdered(
      sha: string -> string, changes: seq<Change>, before: map<string, Node>, mutated: seq<string>,
      transaction: string)
    requires SlotsOrdered(changes)
    ensures SlotsOrdered(changes + CommandEntries(sha, before, mutated, transaction))
  {
    var longer := changes + CommandEntries(sha, before, mutated, transaction);
    forall i, j: nat, name | 0 <= i < |longer| && longer[i].snapshot == Some(SlotName(j, name))
      ensures j <= i
    {
      if i < |changes| {
        assert longer[i] == changes[i];
      } else {
        var path := mutated[i - |changes|];
        assert longer[i] == CommandEntry(sha, before, path, transaction);
        PreimageIsNoSlot(sha(before[path].data), j, name);
      }
    }
  }

  lemma {:induction false} MoreSnapshotsExplain(
      sha: string -> string, before: map<string, Node>, c: Change, next: map<string, Node>,
      snaps: map<string, string>, more: map<string, string>)
    requires Explains(sha, before, c, next, snaps)
    requires Contains(more, snaps)
    ensures Explains(sha, before, c, next, more)
  {
  }

  /** Entry `k` leads from tree `k` to the next one, the last entry to `end`. */
  ghost predicate Lead(sha: string -> string, trees: seq<map<string, Node>>, entries: seq<Change>,
                       end: map<string, Node>, snaps: map<string, string>)
  {
    && |trees| == |entries|
    && forall k :: 0 <= k < |entries| ==> Explains(sha, trees[k], entries[k], FoundBy(trees, k + 1, end), snaps)
  }

  lemma {:induction false} OldExplained(
      sha: string -> string, past: seq<map<string, Node>>, changes: seq<Change>, disk: Disk,
      trees: seq<map<string, Node>>, now: Disk, i: nat)
    requires Remembers(sha, past, changes, disk) && Contains(now.snaps, disk.snaps) && i < |changes|
    requires FoundBy(trees, 0, now.tree) == disk.tree
    ensures Explains(sha, past[i], changes[i], After(past + trees, i, now.tree), now.snaps)
  {
    assert After(past + trees, i, now.tree) == After(past, i, disk.tree);
    MoreSnapshotsExplain(sha, past[i], changes[i], After(past, i, disk.tree), disk.snaps, now.snaps);
  }

  lemma {:induction false} FoundBehind(
      past: seq<map<string, Node>>, trees: seq<map<string, Node>>, k: nat, end: map<string, Node>)
    requires k < |trees|
    ensures After(past + trees, |past| + k, end) == FoundBy(trees, k + 1, end)
  {
    if k + 1 < |trees| {
      assert (past + trees)[|past| + (k + 1)] == trees[k + 1];
    }
  }

  /** Explanations of new changes, one tree each, go behind those of the old ones. */
  lemma {:induction false} RemembersMore(
      sha: string -> string, past: seq<map<string, Node>>, changes: seq<Change>, disk: Disk,
      trees: seq<map<string, Node>>, entries: seq<Change>, now: Disk)
    requires Remembers(sha, past, changes, disk) && Contains(now.snaps, disk.snaps)
    requires FoundBy(trees, 0, now.tree) == disk.tree && Lead(sha, trees, entries, now.tree, now.snaps)
    ensures Remembers(sha, past + trees, changes + entries, now)
  {
    var longer, all, n := past + trees, changes + entries, |changes|;
    forall i | 0 <= i < |all|
      ensures Explains(sha, longer[i], all[i], After(longer, i, now.tree), now.snaps)
    {
      if i < n {
        OldExplained(sha, past, changes, disk, trees, now, i);
        assert longer[i] == past[i] && all[i] == changes[i];
      } else {
        var k := i - n;
        FoundBehind(past, trees, k, now.tree);
        assert longer[i] == trees[k] && all[i] == entries[k];
      }
    }
  }

  lemma {:induction false} TreeAt(
      before: map<string, Node>, mutated: seq<string>, after: map<string, Node>, k: nat, end: map<string, Node>)
    requires k <= |mutated| && Reached(before, mutated, after, |mutated|) == end
    ensures FoundBy(Trees(before, mutated, after), k, end) == Reached(before, mutated, after, k)
  {
  }

  lemma {:induction false} RecordsLead(
      sha: string -> string, scope: Scope, s: Session, after: map<string, Node>, transaction: string)
    requires Sensible(sha, scope) && Preimages(sha, s.disk.snaps, scope.contents)
    requires Confined(scope, s.disk.tree) && Confined(scope, after)
    ensures var before, mutated := s.disk.tree, Diff(sha, scope.sorted, s.disk.tree, after);
      && Lead(sha, Trees(before, mutated, after), CommandEntries(sha, before, mutated, transaction), after,
              Stored(sha, before, scope.walk, s.disk.snaps))
      && FoundBy(Trees(before, mutated, after), 0, after) == before
  {
    var before, mutated := s.disk.tree, Diff(sha, scope.sorted, s.disk.tree, after);
    var trees, entries := Trees(before, mutated, after), CommandEntries(sha, before, mutated, transaction);
    ReachesAfter(sha, scope, before, after);
    forall k | 0 <= k < |entries|
      ensures Explains(sha, trees[k], entries[k], FoundBy(trees, k + 1, after),
                       Stored(sha, before, scope.walk, s.disk.snaps))
    {
      RecordExplains(sha, scope, s, after, transaction, k);
      TreeAt(before, mutated, after, k + 1, after);
    }
    TreeAt(before, mutated, after, 0, after);
  }

  /** What a command leaves, with its records after the old ones. */
  lemma {:induction false} RanIs(
      sha: string -> string, scope: Scope, s: Session, after: map<string, Node>, transaction: string)
    requires s.disk.durable == s.changes
    ensures var all := s.changes + CommandEntries(sha, s.disk.tree, Diff(sha, scope.sorted, s.disk.tree, after),
                                                  transaction);
      Ran(sha, scope, s, after, transaction)
      == Session(all, Disk(after, Stored(sha, s.disk.tree, scope.walk, s.disk.snaps), all))
  {
    var mutated := Diff(sha, scope.sorted, s.disk.tree, after);
    if mutated == [] {
      assert s.changes + CommandEntries(sha, s.disk.tree, mutated, transaction) == s.changes;
    }
  }

  lemma {:induction false} HealthyMore(
      sha: string -> string, past: seq<map<string, Node>>, s: Session, trees: seq<map<string, Node>>,
      entries: seq<Change>, tree: map<string, Node>, snaps: map<string, string>)
    requires Healthy(sha, past, s) && SlotsOrdered(s.changes + entries) && Contains(snaps, s.disk.snaps)
    requires FoundBy(trees, 0, tree) == s.disk.tree && Lead(sha, trees, entries, tree, snaps)
    ensures Healthy(sha, past + trees, Session(s.changes + entries, Disk(tree, snaps, s.changes + entries)))
  {
    RemembersMore(sha, past, s.changes, s.disk, trees, entries, Disk(tree, snaps, s.changes + entries));
  }

  /** A command's records remember the tree it found, and every tree on the way from it to the one it left. */
  lemma {:induction false} CommandRemembers(
      sha: string -> string, scope: Scope, past: seq<map<string, Node>>, s: Session, after: map<string, Node>,
      transaction: string)
    requires Healthy(sha, past, s) && Sensible(sha, scope) && Preimages(sha, s.disk.snaps, scope.contents)
    requires Confined(scope, s.disk.tree) && Confined(scope, after)
    ensures var mutated := Diff(sha, scope.sorted, s.disk.tree, after);
      Healthy(sha, past + Trees(s.disk.tree, mutated, after), Ran(sha, scope, s, after, transaction))
  {
    var before, mutated := s.disk.tree, Diff(sha, scope.sorted, s.disk.tree, after);
    RanIs(sha, scope, s, after, transaction);
    RecordsKeepSlotsOrdered(sha, s.changes, before, mutated, transaction);
    RecordsLead(sha, scope, s, after, transaction);
    StoringKeeps(sha, before, scope.walk, s.disk.snaps, scope.contents);
    HealthyMore(sha, past, s, Trees(before, mutated, after), CommandEntries(sha, before, mutated, transaction), after,
                Stored(sha, before, scope.walk, s.disk.snaps));
  }

  /** So as many undos as a command has records take it back: the files and both lists are what they were. */
  lemma {:induction false} UndoInvertsCommand(
      sha: string -> string, scope: Scope, past: seq<map<string, Node>>, s: Session, after: map<string, Node>,
      transaction: string)
    requires Healthy(sha, past, s) && Sensible(sha, scope) && Preimages(sha, s.disk.snaps, scope.contents)
    requires Confined(scope, s.disk.tree) && Confined(scope, after)
    ensures var n := |Diff(sha, scope.sorted, s.disk.tree, after)|;
      var (ok, end) := UndoTimes(sha, Ran(sha, scope, s, after, transaction), n);
      && ok && end.changes == s.changes && end.disk.durable == s.disk.durable && end.disk.tree == s.disk.tree
  {
    var mutated := Diff(sha, scope.sorted, s.disk.tree, after);
    var t := Ran(sha, scope, s, after, transaction);
    var longer := past + Trees(s.disk.tree, mutated, after);
    CommandRemembers(sha, scope, past, s, after, transaction);
    UndoTimesReturnsToPast(sha, longer, t, |mutated|);
    ReachesAfter(sha, scope, s.disk.tree, after);
    assert t.changes[..|s.changes|] == s.changes;
  }

  lemma {:induction false} NewestRecordsRollBack(
      past: seq<map<string, Node>>, trees: seq<map<string, Node>>, changes: seq<Change>, entries: seq<Change>,
      disk: Disk, transaction: string)
    requires |past| == |changes| && |trees| == |entries| && disk.durable == changes + entries && transaction != ""
    requires forall i :: 0 <= i < |changes| ==> changes[i].transaction != transaction
    requires forall k :: 0 <= k < |entries| ==> entries[k].transaction == transaction
    ensures RolledBack(past + trees, Session(changes + entries, disk), transaction)
         == (past, Session(changes, Disk(FoundBy(trees, 0, disk.tree), disk.snaps, changes)))
  {
    var longer, all := past + trees, changes + entries;
    RetainedPrefix(all, transaction, |changes|);
    RolledBackIs(longer, Session(all, disk), transaction);
    assert all[..|changes|] == changes && longer[..|past|] == past;
  }

  /** A failed command: its records were the newest ones, so the rollback leaves nothing of it but preimages. */
  lemma {:induction false} FailedCommandIsTakenBack(
      sha: string -> string, scope: Scope, past: seq<map<string, Node>>, s: Session, after: map<string, Node>,
      transaction: string)
    requires Healthy(sha, past, s) && Sensible(sha, scope) && Preimages(sha, s.disk.snaps, scope.contents)
    requires Confined(scope, s.disk.tree) && Confined(scope, after)
    requires transaction != "" && forall i :: 0 <= i < |s.changes| ==> s.changes[i].transaction != transaction
    ensures var longer := past + Trees(s.disk.tree, Diff(sha, scope.sorted, s.disk.tree, after), after);
      RolledBack(longer, Ran(sha, scope, s, after, transaction), transaction)
      == (past, s.(disk := s.disk.(snaps := Stored(sha, s.disk.tree, scope.walk, s.disk.snaps))))
  {
    var before, mutated := s.disk.tree, Diff(sha, scope.sorted, s.disk.tree, after);
    var entries := CommandEntries(sha, before, mutated, transaction);
    RanIs(sha, scope, s, after, transaction);
    RecordsLead(sha, scope, s, after, transaction);
    NewestRecordsRollBack(past, Trees(before, mutated, after), s.changes, entries,
                          Ran(sha, scope, s, after, transaction).disk, transaction);
  }

  // ----- Every run -----

  datatype Op =
    | Track(write: Write, transaction: string)
    | Run(after: map<string, Node>, transaction: string)
    | UndoOne
    | RollBack(transaction: string)

  /** A run of operations, with the tree each live change found. */
  ghost function RunOps(sha: string -> string, scope: Scope, past: seq<map<string, Node>>, s: Session, ops: seq<Op>)
    : (seq<map<string, Node>>, Session)
    decreases |ops|
  {
    if ops == [] then (past, s)
    else
      var (earlier, t) := RunOps(sha, scope, past, s, ops[..|ops| - 1]);
      Next(sha, scope, earlier, t, ops[|ops| - 1])
  }

  ghost function Next(sha: string -> string, scope: Scope, past: seq<map<string, Node>>, s: Session, op: Op)
    : (seq<map<string, Node>>, Session)
  {
    match op
    case Track(w, transaction) => (past + [s.disk.tree], TrackedIn(s, w.path, w.after, transaction))
    case Run(after, transaction) =>
      (past + Trees(s.disk.tree, Diff(sha, scope.sorted, s.disk.tree, after), after),
       Ran(sha, scope, s, after, transaction))
    case UndoOne => (if past == [] then [] else past[..|past| - 1], Undo(sha, s).1)
    case RollBack(transaction) => RolledBack(past, s, transaction)
  }

  /** What an operation may bring into the workspace. */
  ghost predicate Admits(scope: Scope, op: Op) {
    match op
    case Track(w, _) =>
      && w.path in scope.plain && w.path in scope.walk && w.path in scope.sorted
      && (w.after.Some? ==> w.after.value in scope.contents)
    case Run(after, _) => Confined(scope, after)
    case _ => true
  }

  ghost predicate Stays(sha: string -> string, scope: Scope, past: seq<map<string, Node>>, s: Session) {
    && Healthy(sha, past, s)
    && Preimages(sha, s.disk.snaps, scope.contents)
    && Confined(scope, s.disk.tree)
    && forall i :: 0 <= i < |past| ==> Confined(scope, past[i])
  }

  lemma {:induction false} TrackStays(
      sha: string -> string, scope: Scope, past: seq<map<string, Node>>, s: Session, w: Write, transaction: string)
    requires Stays(sha, scope, past, s) && Admits(scope, Track(w, transaction))
    ensures Stays(sha, scope, past + [s.disk.tree], TrackedIn(s, w.path, w.after, transaction))
  {
    TrackedInRemembers(sha, past, s, w.path, w.after, transaction);
    var t := TrackedIn(s, w.path, w.after, transaction);
    forall digest | PreimageName(digest) in t.disk.snaps
      ensures PreimageName(digest) in s.disk.snaps
      ensures t.disk.snaps[PreimageName(digest)] == s.disk.snaps[PreimageName(digest)]
    {
      PreimageIsNoSlot(digest, |s.changes|, BaseName(w.path));
    }
  }

  lemma {:induction false} RunStays(
      sha: string -> string, scope: Scope, past: seq<map<string, Node>>, s: Session, after: map<string, Node>,
      transaction: string)
    requires Stays(sha, scope, past, s) && Sensible(sha, scope) && Confined(scope, after)
    ensures var longer := past + Trees(s.disk.tree, Diff(sha, scope.sorted, s.disk.tree, after), after);
      Stays(sha, scope, longer, Ran(sha, scope, s, after, transaction))
  {
    var mutated := Diff(sha, scope.sorted, s.disk.tree, after);
    CommandRemembers(sha, scope, past, s, after, transaction);
    StoringKeeps(sha, s.disk.tree, scope.walk, s.disk.snaps, scope.contents);
    forall k | 0 <= k < |mutated|
      ensures Confined(scope, Trees(s.disk.tree, mutated, after)[k])
    {
      ReachedIsConfined(scope, s.disk.tree, mutated, after, k);
    }
  }

  lemma {:induction false} NextStays(
      sha: string -> string, scope: Scope, past: seq<map<string, Node>>, s: Session, op: Op)
    requires Stays(sha, scope, past, s) && Sensible(sha, scope) && Admits(scope, op)
    ensures var (past', s') := Next(sha, scope, past, s, op); Stays(sha, scope, past', s')
  {
    match op
    case Track(w, transaction) => TrackStays(sha, scope, past, s, w, transaction);
    case Run(after, transaction) => RunStays(sha, scope, past, s, after, transaction);
    case UndoOne =>
      if s.changes != [] {
        UndoReturnsToPast(sha, past, s);
      }
    case RollBack(transaction) => RollingBackStaysHealthy(sha, past, s, transaction);
  }

  /** After any mix of tracked writes, commands, undos and rollbacks of the newest transaction, the history still
      remembers every tree it could go back to. */
  lemma {:induction false} RunStaysHealthy(
      sha: string -> string, scope: Scope, past: seq<map<string, Node>>, s: Session, ops: seq<Op>)
    requires Stays(sha, scope, past, s) && Sensible(sha, scope)
    requires forall k :: 0 <= k < |ops| ==> Admits(scope, ops[k])
    ensures var (past', s') := RunOps(sha, scope, past, s, ops); Stays(sha, scope, past', s')
    decreases |ops|
  {
    if ops != [] {
      var n := |ops| - 1;
      RunStaysHealthy(sha, scope, past, s, ops[..n]);
      var (earlier, t) := RunOps(sha, scope, past, s, ops[..n]);
      NextStays(sha, scope, earlier, t, ops[n]);
    }
  }
}
