/** The compare-and-replace file writer: many calls of `write_file` on one path, interleaved step by
    step with each other and with a writer outside the process. */
module Mutation {
  import opened Wrappers

  // ----- The lock registry -----

  class Lock {
    constructor () {
    }
  }

  /** One lock object for every absolute path, for the lifetime of the process. */
  class FileLockRegistry {
    var locks: map<string, Lock>

    ghost predicate Valid()
      reads this
    {
      forall p, q :: p in locks && q in locks && p != q ==> locks[p] != locks[q]
    }

    constructor ()
      ensures Valid() && locks == map[]
    {
      locks := map[];
    }

    /** `acquire`: the lock of this path, created on first use. Calls on one path get one object, calls on
        two paths never share one. */
    method Acquire(path: string) returns (lock: Lock)
      requires Valid()
      modifies this
      ensures Valid()
      ensures path in locks && lock == locks[path]
      ensures if path in old(locks) then locks == old(locks) else fresh(lock) && locks == old(locks)[path := lock]
    {
      if path !in locks {
        var created := new Lock();
        locks := locks[path := created];
      }
      lock := locks[path];
    }
  }

  // ----- The file and its calls -----

  datatype File = Absent | Present(data: string)

  /** `_hash`: the empty text for an absent file, otherwise the digest `h` of its bytes. */
  function Digest(h: string -> string, file: File): string {
    match file
    case Absent => ""
    case Present(data) => h(data)
  }

  datatype Author = Initial | Outside | Created(call: nat) | Replaced(call: nat)

  /** One value the path has had, and who put it there. */
  datatype Version = Version(file: File, author: Author)

  datatype Failure = StaleRead | RaceDetected | IOError

  datatype Outcome = Failed(failure: Failure) | Succeeded(hashBefore: string, hashAfter: string)

  /** Where a call is in `write_file`. */
  datatype Pc =
    | Waiting      // before the per-path lock is taken
    | Opening      // about to open the target with O_CREAT
    | FirstHash    // about to read the hash the write is based on
    | Staging      // about to write the temporary file
    | SecondHash   // about to read the hash again
    | Replacing    // about to replace the target
    | HashAfter    // about to hash the new content
    | Reopening    // about to read the new content back
    | Releasing    // about to give the lock back
    | Returned

  datatype Call = Call(
    content: string,
    expected: Option<string>,
    pc: Pc,
    didOpen: bool,      // the O_CREAT open succeeded
    hashNow: string,    // the first hash
    hashAfter: string,
    outcome: Outcome,
    openAt: nat,        // the version present right after the open
    readAt: nat,        // the version the first hash was taken of
    checkAt: nat,       // the version the second hash was taken of
    commitAt: nat,      // the version this call wrote
    afterAt: nat        // the version the last hash was taken of
  )

  function NewCall(content: string, expected: Option<string>): Call {
    Call(content, expected, Waiting, false, "", "", Failed(IOError), 0, 0, 0, 0, 0)
  }

  /** `parent` says whether the directory of the path exists. */
  datatype State = State(history: seq<Version>, parent: bool, holder: Option<nat>, calls: seq<Call>) {
    predicate Valid() {
      history != []
    }

    function Current(): File
      requires Valid()
    {
      history[|history| - 1].file
    }
  }

  function Start(initial: File, parent: bool, requests: seq<(string, Option<string>)>): State {
    State([Version(initial, Initial)], parent || initial.Present?, None,
          seq(|requests|, k requires 0 <= k < |requests| => NewCall(requests[k].0, requests[k].1)))
  }

  /** The atomic steps. A flag says whether the system call succeeded. */
  datatype Action =
    | Acquire(i: nat)
    | Open(i: nat, ok: bool)
    | ReadFirst(i: nat)
    | Stage(i: nat, made: bool, ok: bool)    // `made`: the directory is there afterwards
    | ReadSecond(i: nat)
    | Replace(i: nat, ok: bool)
    | ReadAfter(i: nat)
    | Reopen(i: nat)
    | Release(i: nat)
    | WriteOutside(file: File)

  function PcFor(a: Action): Pc
    requires !a.WriteOutside?
  {
    match a
    case Acquire(_) => Waiting
    case Open(_, _) => Opening
    case ReadFirst(_) => FirstHash
    case Stage(_, _, _) => Staging
    case ReadSecond(_) => SecondHash
    case Replace(_, _) => Replacing
    case ReadAfter(_) => HashAfter
    case Reopen(_) => Reopening
    case Release(_) => Releasing
  }

  predicate Enabled(s: State, a: Action) {
    a.WriteOutside? || (
      && a.i < |s.calls|
      && s.calls[a.i].pc == PcFor(a)
      && (a.Acquire? ==> s.holder == None)
      && (a.Open? && a.ok ==> s.parent)
      && (a.Stage? && a.ok ==> a.made)
    )
  }

  /** The call's next record, given the file it sees and the position of that version. */
  function Advanced(h: string -> string, c: Call, a: Action, file: File, at: nat): Call
    requires !a.WriteOutside?
  {
    var seen := Digest(h, file);
    match a
    case Acquire(_) => c.(pc := Opening)
    case Open(_, ok) => c.(pc := FirstHash, didOpen := ok, openAt := if ok && file.Absent? then at + 1 else at)
    case ReadFirst(_) =>
      if c.expected.Some? && c.expected.value != seen
      then c.(pc := Releasing, hashNow := seen, readAt := at, outcome := Failed(StaleRead))
      else c.(pc := Staging, hashNow := seen, readAt := at)
    case Stage(_, _, ok) => if ok then c.(pc := SecondHash) else c.(pc := Releasing, outcome := Failed(IOError))
    case ReadSecond(_) =>
      if seen != c.hashNow then c.(pc := Releasing, checkAt := at, outcome := Failed(RaceDetected))
      else c.(pc := Replacing, checkAt := at)
    case Replace(_, ok) =>
      if ok then c.(pc := HashAfter, commitAt := at + 1) else c.(pc := Releasing, outcome := Failed(IOError))
    case ReadAfter(_) => c.(pc := Reopening, hashAfter := seen, afterAt := at)
    case Reopen(_) =>
      c.(pc := Releasing,
         outcome := if file.Absent? then Failed(IOError) else Succeeded(c.hashNow, c.hashAfter))
    case Release(_) => c.(pc := Returned)
  }

  /** The versions an action adds: O_CREAT turns an absent file into an empty one, a replace installs the
      content. */
  function Written(a: Action, content: string, current: File): seq<Version> {
    match a
    case Open(i, ok) => if ok && current.Absent? then [Version(Present(""), Created(i))] else []
    case Replace(i, ok) => if ok then [Version(Present(content), Replaced(i))] else []
    case WriteOutside(file) => [Version(file, Outside)]
    case _ => []
  }

  function Apply(h: string -> string, s: State, a: Action): (s': State)
    requires s.Valid() && Enabled(s, a)
    ensures s'.Valid()
  {
    var holder :=
      if a.Acquire? then Some(a.i)
      else if a.Release? then None
      else s.holder;
    var calls :=
      if a.WriteOutside? then s.calls
      else s.calls[a.i := Advanced(h, s.calls[a.i], a, s.Current(), |s.history| - 1)];
    var content := if a.WriteOutside? then "" else s.calls[a.i].content;
    var parent := s.parent || (a.Stage? && a.made) || (a.WriteOutside? && a.file.Present?);
    State(s.history + Written(a, content, s.Current()), parent, holder, calls)
  }

  /** Run a schedule; an action that is not enabled does nothing. */
  function Run(h: string -> string, s: State, schedule: seq<Action>): (s': State)
    requires s.Valid()
    ensures s'.Valid()
    decreases |schedule|
  {
    if schedule == [] then s
    else
      var before := Run(h, s, schedule[..|schedule| - 1]);
      var a := schedule[|schedule| - 1];
      if Enabled(before, a) then Apply(h, before, a) else before
  }

  // ----- The invariant -----

  predicate Locked(pc: Pc) {
    pc != Waiting && pc != Returned
  }

  predicate Committed(c: Call) {
    c.pc in {HashAfter, Reopening} || (c.pc in {Releasing, Returned} && c.commitAt > 0)
  }

  /** The versions strictly between two positions all come from outside. */
  ghost predicate OnlyOutside(history: seq<Version>, lo: nat, hi: nat) {
    forall k :: lo < k < hi && k < |history| ==> history[k].author == Outside
  }

  /** Before the commit: what the call read, and that nobody in the process wrote since. */
  ghost predicate ReadsHold(h: string -> string, history: seq<Version>, c: Call) {
    && (c.pc in {Staging, SecondHash, Replacing} ==>
      && c.readAt < |history| && c.hashNow == Digest(h, history[c.readAt].file)
      && (c.expected == None || c.expected == Some(c.hashNow))
      && OnlyOutside(history, c.readAt, |history|))
    && (c.pc == Replacing ==>
      c.readAt <= c.checkAt < |history| && Digest(h, history[c.checkAt].file) == c.hashNow)
  }

  /** From the commit on: which version the call wrote, and which versions it had read before. */
  ghost predicate CommitHolds(h: string -> string, history: seq<Version>, c: Call, i: nat) {
    if !Committed(c) then c.commitAt == 0
    else
      && c.readAt <= c.checkAt < c.commitAt < |history|
      && c.hashNow == Digest(h, history[c.readAt].file)
      && Digest(h, history[c.checkAt].file) == c.hashNow
      && (c.expected == None || c.expected == Some(c.hashNow))
      && OnlyOutside(history, c.readAt, c.commitAt)
      && history[c.commitAt] == Version(Present(c.content), Replaced(i))
      && (c.pc == HashAfter ==> OnlyOutside(history, c.commitAt, |history|))
  }

  predicate HasOutcome(c: Call) {
    c.pc in {Releasing, Returned}
  }

  /** After the last hash: which version it was taken of, and what the call answers. */
  ghost predicate ReportHolds(h: string -> string, history: seq<Version>, c: Call) {
    && (c.pc == Reopening || (HasOutcome(c) && c.outcome.Succeeded?) ==>
      && Committed(c)
      && c.commitAt <= c.afterAt < |history| && c.hashAfter == Digest(h, history[c.afterAt].file)
      && OnlyOutside(history, c.commitAt, c.afterAt + 1))
    && (HasOutcome(c) && c.outcome.Succeeded? ==> c.outcome == Succeeded(c.hashNow, c.hashAfter))
    && (HasOutcome(c) && Committed(c) && c.outcome.Failed? ==>
      exists k :: c.commitAt < k < |history| && history[k].file.Absent?)
  }

  /** Why a call gave up at a hash: the first one was not the expected one, or the second one was another. */
  ghost predicate FailureHolds(h: string -> string, history: seq<Version>, c: Call) {
    HasOutcome(c) && (c.outcome == Failed(StaleRead) || c.outcome == Failed(RaceDetected)) ==>
      && c.readAt < |history| && c.hashNow == Digest(h, history[c.readAt].file)
      && (c.outcome == Failed(StaleRead) ==> c.expected.Some? && c.expected.value != c.hashNow)
      && (c.outcome == Failed(RaceDetected) ==>
           c.readAt <= c.checkAt < |history| && Digest(h, history[c.checkAt].file) != c.hashNow)
  }

  /** The open left a file behind, and the hashes were read after it. */
  ghost predicate OpenHolds(history: seq<Version>, c: Call) {
    && (c.pc in {Waiting, Opening} ==> !c.didOpen)
    && (c.didOpen ==> c.openAt < |history| && history[c.openAt].file.Present?)
    && (c.didOpen && c.pc != FirstHash ==> c.openAt <= c.readAt)
  }

  ghost predicate Consistent(h: string -> string, history: seq<Version>, c: Call, i: nat) {
    && ReadsHold(h, history, c)
    && CommitHolds(h, history, c, i)
    && ReportHolds(h, history, c)
    && OpenHolds(history, c)
    && FailureHolds(h, history, c)
  }

  /** Who wrote version `k`: a call creates the file only where there was none, and every commit is that of
      one call. */
  ghost predicate AuthorExists(history: seq<Version>, calls: seq<Call>, k: nat)
    requires 0 < k < |history|
  {
    match history[k].author
    case Initial => false
    case Outside => true
    case Created(i) => i < |calls| && history[k].file == Present("") && history[k - 1].file.Absent?
    case Replaced(i) => i < |calls| && Committed(calls[i]) && calls[i].commitAt == k
  }

  ghost predicate AuthorsExist(s: State) {
    forall k :: 0 < k < |s.history| ==> AuthorExists(s.history, s.calls, k)
  }

  ghost predicate LockHeld(s: State) {
    forall i :: 0 <= i < |s.calls| ==> (Locked(s.calls[i].pc) <==> s.holder == Some(i))
  }

  ghost predicate Inv(h: string -> string, s: State) {
    && s.Valid()
    && s.history[0].author == Initial
    && LockHeld(s)
    && AuthorsExist(s)
    && forall i :: 0 <= i < |s.calls| ==> Consistent(h, s.history, s.calls[i], i)
  }

  lemma {:induction false} StartHasInv(
      h: string -> string, initial: File, parent: bool, requests: seq<(string, Option<string>)>)
    ensures Inv(h, Start(initial, parent, requests))
  {
  }

  /** A longer history changes nothing for a call that is outside the lock, and nothing for any call when
      the new versions come from outside. */
  lemma {:induction false} LongerHistoryIsConsistent(
      h: string -> string, history: seq<Version>, more: seq<Version>, c: Call, i: nat)
    requires Consistent(h, history, c, i)
    requires Locked(c.pc) && c.pc != Releasing ==> forall v :: v in more ==> v.author == Outside
    ensures Consistent(h, history + more, c, i)
  {
    var longer := history + more;
    assert forall k :: 0 <= k < |history| ==> longer[k] == history[k];
    assert forall k :: |history| <= k < |longer| ==> longer[k] in more;
  }

  ghost predicate Acts(h: string -> string, history: seq<Version>, c: Call, a: Action, c': Call, history': seq<Version>)
  {
    && history != [] && !a.WriteOutside? && c.pc == PcFor(a)
    && var current := history[|history| - 1].file;
       && c' == Advanced(h, c, a, current, |history| - 1)
       && history' == history + Written(a, c.content, current)
  }

  lemma {:induction false} ReadsAdvance(
      h: string -> string, history: seq<Version>, c: Call, a: Action, c': Call, history': seq<Version>)
    requires Acts(h, history, c, a, c', history') && ReadsHold(h, history, c)
    ensures ReadsHold(h, history', c')
  {
    assert a.Stage? || a.ReadSecond? || a.ReadFirst? ==> history' == history;
  }

  lemma {:induction false} CommitAdvances(
      h: string -> string, history: seq<Version>, c: Call, a: Action, c': Call, history': seq<Version>)
    requires Acts(h, history, c, a, c', history') && ReadsHold(h, history, c) && CommitHolds(h, history, c, a.i)
    ensures CommitHolds(h, history', c', a.i)
  {
    assert forall k :: 0 <= k < |history| ==> history'[k] == history[k];
    assert !a.Open? && !a.Replace? ==> history' == history;
  }

  lemma {:induction false} ReportAdvances(
      h: string -> string, history: seq<Version>, c: Call, a: Action, c': Call, history': seq<Version>)
    requires Acts(h, history, c, a, c', history')
    requires CommitHolds(h, history, c, a.i) && ReportHolds(h, history, c)
    ensures ReportHolds(h, history', c')
  {
    assert !a.Open? && !a.Replace? ==> history' == history;
  }

  lemma {:induction false} OpenAdvances(
      h: string -> string, history: seq<Version>, c: Call, a: Action, c': Call, history': seq<Version>)
    requires Acts(h, history, c, a, c', history') && OpenHolds(history, c)
    ensures OpenHolds(history', c')
  {
    assert forall k :: 0 <= k < |history| ==> history'[k] == history[k];
  }

  lemma {:induction false} FailureAdvances(
      h: string -> string, history: seq<Version>, c: Call, a: Action, c': Call, history': seq<Version>)
    requires Acts(h, history, c, a, c', history') && ReadsHold(h, history, c) && FailureHolds(h, history, c)
    ensures FailureHolds(h, history', c')
  {
    assert !a.Open? && !a.Replace? ==> history' == history;
    assert forall k :: 0 <= k < |history| ==> history'[k] == history[k];
  }

  lemma {:induction false} ActingIsConsistent(
      h: string -> string, history: seq<Version>, c: Call, a: Action, c': Call, history': seq<Version>)
    requires Acts(h, history, c, a, c', history') && Consistent(h, history, c, a.i)
    ensures Consistent(h, history', c', a.i)
  {
    ReadsAdvance(h, history, c, a, c', history');
    CommitAdvances(h, history, c, a, c', history');
    ReportAdvances(h, history, c, a, c', history');
    OpenAdvances(h, history, c, a, c', history');
    FailureAdvances(h, history, c, a, c', history');
  }

  lemma {:induction false} ApplyActs(h: string -> string, s: State, a: Action)
    requires s.Valid() && Enabled(s, a) && !a.WriteOutside?
    ensures var s' := Apply(h, s, a);
      a.i < |s'.calls| && Acts(h, s.history, s.calls[a.i], a, s'.calls[a.i], s'.history)
  {
  }

  lemma {:induction false} ActingCallStaysConsistent(h: string -> string, s: State, a: Action)
    requires Inv(h, s) && Enabled(s, a) && !a.WriteOutside?
    ensures Consistent(h, Apply(h, s, a).history, Apply(h, s, a).calls[a.i], a.i)
  {
    var s' := Apply(h, s, a);
    ApplyActs(h, s, a);
    ActingIsConsistent(h, s.history, s.calls[a.i], a, s'.calls[a.i], s'.history);
  }

  lemma {:induction false} AuthorKeepsExisting(h: string -> string, s: State, a: Action, k: nat)
    requires Inv(h, s) && Enabled(s, a) && 0 < k < |s.history|
    ensures var s' := Apply(h, s, a); k < |s'.history| && AuthorExists(s'.history, s'.calls, k)
  {
    var s' := Apply(h, s, a);
    assert AuthorExists(s.history, s.calls, k);
    assert s'.history[k] == s.history[k] && s'.history[k - 1] == s.history[k - 1];
    if s.history[k].author.Replaced? {
      assert Consistent(h, s.history, s.calls[s.history[k].author.call], s.history[k].author.call);
    }
  }

  lemma {:induction false} AuthorsKeepExisting(h: string -> string, s: State, a: Action)
    requires Inv(h, s) && Enabled(s, a)
    ensures AuthorsExist(Apply(h, s, a))
  {
    var s' := Apply(h, s, a);
    forall k | 0 < k < |s'.history|
      ensures AuthorExists(s'.history, s'.calls, k)
    {
      if k < |s.history| {
        AuthorKeepsExisting(h, s, a, k);
      }
    }
  }

  lemma {:induction false} LockStaysHeld(h: string -> string, s: State, a: Action)
    requires s.Valid() && LockHeld(s) && Enabled(s, a)
    ensures LockHeld(Apply(h, s, a))
  {
    if !a.WriteOutside? && !a.Acquire? {
      assert Locked(s.calls[a.i].pc);
    }
  }

  lemma {:induction false} OtherCallStaysConsistent(h: string -> string, s: State, a: Action, j: nat)
    requires Inv(h, s) && Enabled(s, a) && j < |s.calls| && (a.WriteOutside? || a.i != j)
    ensures Consistent(h, Apply(h, s, a).history, Apply(h, s, a).calls[j], j)
  {
    var content := if a.WriteOutside? then "" else s.calls[a.i].content;
    var more := Written(a, content, s.Current());
    assert Consistent(h, s.history, s.calls[j], j);
    if !a.WriteOutside? {
      assert !Locked(s.calls[j].pc) || a.Acquire? by {
        assert LockHeld(s);
        assert Locked(s.calls[j].pc) <==> s.holder == Some(j);
        assert Locked(s.calls[a.i].pc) <==> s.holder == Some(a.i);
      }
    }
    LongerHistoryIsConsistent(h, s.history, more, s.calls[j], j);
  }

  lemma {:induction false} ApplyKeepsInv(h: string -> string, s: State, a: Action)
    requires Inv(h, s) && Enabled(s, a)
    ensures Inv(h, Apply(h, s, a))
  {
    var s' := Apply(h, s, a);
    LockStaysHeld(h, s, a);
    AuthorsKeepExisting(h, s, a);
    forall j | 0 <= j < |s'.calls|
      ensures Consistent(h, s'.history, s'.calls[j], j)
    {
      if a.WriteOutside? || a.i != j {
        OtherCallStaysConsistent(h, s, a, j);
      } else {
        ActingCallStaysConsistent(h, s, a);
      }
    }
  }

  lemma {:induction false} RunKeepsInv(h: string -> string, s: State, schedule: seq<Action>)
    requires Inv(h, s)
    ensures Inv(h, Run(h, s, schedule))
    decreases |schedule|
  {
    if schedule != [] {
      var shorter := schedule[..|schedule| - 1];
      RunKeepsInv(h, s, shorter);
      var before := Run(h, s, shorter);
      if Enabled(before, schedule[|schedule| - 1]) {
        ApplyKeepsInv(h, before, schedule[|schedule| - 1]);
      }
    }
  }

  // ----- What a caller can rely on -----

  /** A state some schedule reaches from a file nobody has touched yet. */
  ghost predicate Reachable(h: string -> string, s: State) {
    exists initial, parent, requests, schedule :: s == Run(h, Start(initial, parent, requests), schedule)
  }

  lemma {:induction false} ReachableHasInv(h: string -> string, s: State)
    requires Reachable(h, s)
    ensures Inv(h, s)
  {
    var initial, parent, requests, schedule :| s == Run(h, Start(initial, parent, requests), schedule);
    StartHasInv(h, initial, parent, requests);
    RunKeepsInv(h, Start(initial, parent, requests), schedule);
  }

  /** The call has returned success. */
  predicate Success(s: State, i: nat) {
    i < |s.calls| && s.calls[i].pc == Returned && s.calls[i].outcome.Succeeded?
  }

  /** At any time at most one call is between taking and releasing the lock. */
  lemma {:induction false} MutualExclusion(h: string -> string, s: State, i: nat, j: nat)
    requires Reachable(h, s) && i < |s.calls| && j < |s.calls|
    requires Locked(s.calls[i].pc) && Locked(s.calls[j].pc)
    ensures i == j
  {
    ReachableHasInv(h, s);
  }

  lemma {:induction false} SuccessFollows(h: string -> string, history: seq<Version>, c: Call, i: nat)
    requires Consistent(h, history, c, i) && c.pc == Returned && c.outcome.Succeeded?
    ensures c.readAt <= c.checkAt < c.commitAt < |history|
    ensures history[c.commitAt] == Version(Present(c.content), Replaced(i))
    ensures c.outcome.hashBefore == Digest(h, history[c.readAt].file)
    ensures c.outcome.hashBefore == Digest(h, history[c.checkAt].file)
    ensures c.expected.Some? ==> c.outcome.hashBefore == c.expected.value
    ensures OnlyOutside(history, c.readAt, c.commitAt)
  {
  }

  /** With a writer outside the process acting at any time: a successful write is based on a version with
      the reported and expected hash; every version it discarded came from outside, and such a version
      either landed after the second hash or the second hash found the first one again. */
  lemma {:induction false} SuccessIsBasedOnItsRead(h: string -> string, s: State, i: nat)
    requires Reachable(h, s) && Success(s, i)
    ensures var c := s.calls[i];
      && c.readAt <= c.checkAt < c.commitAt < |s.history|
      && s.history[c.commitAt] == Version(Present(c.content), Replaced(i))
      && c.outcome.hashBefore == Digest(h, s.history[c.readAt].file)
      && c.outcome.hashBefore == Digest(h, s.history[c.checkAt].file)
      && (c.expected.Some? ==> c.outcome.hashBefore == c.expected.value)
      && (forall k :: c.readAt < k < c.commitAt ==> s.history[k].author == Outside)
      && (Digest(h, s.history[c.commitAt - 1].file) == c.outcome.hashBefore
          || exists k :: c.checkAt < k < c.commitAt && s.history[k].author == Outside)
  {
    ReachableHasInv(h, s);
    var c := s.calls[i];
    assert Consistent(h, s.history, c, i);
    SuccessFollows(h, s.history, c, i);
    if c.checkAt < c.commitAt - 1 {
      assert s.history[c.commitAt - 1].author == Outside;
    }
  }

  predicate NoOutside(s: State) {
    forall k :: 0 <= k < |s.history| ==> s.history[k].author != Outside
  }

  lemma {:induction false} NothingOutsideBetween(history: seq<Version>, lo: nat, hi: nat)
    requires forall k :: 0 <= k < |history| ==> history[k].author != Outside
    requires OnlyOutside(history, lo, hi) && lo < hi <= |history|
    ensures hi == lo + 1
  {
    var next := history[if lo + 1 < |history| then lo + 1 else 0];
  }

  /** Without an outside writer the versions after the first two are exactly the commits. */
  lemma {:induction false} SerialVersions(h: string -> string, s: State)
    requires Inv(h, s) && NoOutside(s)
    ensures forall k :: 0 < k < |s.history| ==> s.history[k].file.Present?
    ensures forall k :: 1 < k < |s.history| ==> s.history[k].author.Replaced?
  {
    forall k | 0 < k < |s.history|
      ensures s.history[k].file.Present?
    {
      PresentVersion(h, s, k);
    }
    forall k | 1 < k < |s.history|
      ensures s.history[k].author.Replaced?
    {
      PresentVersion(h, s, k - 1);
      assert AuthorExists(s.history, s.calls, k);
    }
  }

  lemma {:induction false} PresentVersion(h: string -> string, s: State, k: nat)
    requires Inv(h, s) && 0 < k < |s.history| && s.history[k].author != Outside
    ensures s.history[k].file.Present?
    ensures s.history[k].author.Replaced? ==>
      var i := s.history[k].author.call;
      i < |s.calls| && Committed(s.calls[i]) && s.calls[i].commitAt == k && Consistent(h, s.history, s.calls[i], i)
  {
    assert AuthorExists(s.history, s.calls, k);
    if s.history[k].author.Replaced? {
      assert Consistent(h, s.history, s.calls[s.history[k].author.call], s.history[k].author.call);
    }
  }

  /** Without an outside writer the successful writes form one sequence: each is based on exactly the
      version before it and reports that version's hash and its own. */
  lemma {:induction false} WritesAreSerial(h: string -> string, s: State, k: nat)
    requires Reachable(h, s) && NoOutside(s) && 0 < k < |s.history| && s.history[k].author.Replaced?
    ensures var i := s.history[k].author.call;
      && i < |s.calls| && s.calls[i].commitAt == k
      && s.history[k].file == Present(s.calls[i].content)
      && s.calls[i].hashNow == Digest(h, s.history[k - 1].file)
      && (s.calls[i].pc == Returned ==>
           s.calls[i].outcome == Succeeded(Digest(h, s.history[k - 1].file), Digest(h, s.history[k].file)))
  {
    ReachableHasInv(h, s);
    SerialVersions(h, s);
    PresentVersion(h, s, k);
    var i := s.history[k].author.call;
    var c := s.calls[i];
    assert Consistent(h, s.history, c, i);
    NothingOutsideBetween(s.history, c.readAt, k);
    if c.pc == Returned && c.outcome.Succeeded? {
      NothingOutsideBetween(s.history, k, c.afterAt + 1);
    }
  }

  /** ... and the path holds what the last of them wrote. */
  lemma {:induction false} LastWriteStands(h: string -> string, s: State, i: nat)
    requires Reachable(h, s) && NoOutside(s) && Success(s, i)
    requires forall j :: 0 <= j < |s.calls| && Committed(s.calls[j]) ==> s.calls[j].commitAt <= s.calls[i].commitAt
    ensures s.Current() == Present(s.calls[i].content)
  {
    assert Inv(h, s) by {
      ReachableHasInv(h, s);
    }
    var at := s.calls[i].commitAt;
    assert 0 < at < |s.history| && s.history[at] == Version(Present(s.calls[i].content), Replaced(i)) by {
      SuccessIsVersion(h, s, i);
    }
    assert at >= |s.history| - 1 by {
      if |s.history| > 2 {
        var j := LastVersionIsCommit(h, s);
        assert s.calls[j].commitAt <= at;
      }
    }
  }

  lemma {:induction false} SuccessIsVersion(h: string -> string, s: State, i: nat)
    requires Inv(h, s) && Success(s, i)
    ensures 0 < s.calls[i].commitAt < |s.history|
    ensures s.history[s.calls[i].commitAt] == Version(Present(s.calls[i].content), Replaced(i))
  {
    assert Consistent(h, s.history, s.calls[i], i);
  }

  lemma {:induction false} LastVersionIsCommit(h: string -> string, s: State) returns (j: nat)
    requires Inv(h, s) && NoOutside(s) && |s.history| > 2
    ensures j < |s.calls| && Committed(s.calls[j]) && s.calls[j].commitAt == |s.history| - 1
  {
    SerialVersions(h, s);
    PresentVersion(h, s, |s.history| - 1);
    j := s.history[|s.history| - 1].author.call;
  }

  lemma {:induction false} SuccessesDiffer(h: string -> string, s: State, i: nat, j: nat)
    requires Reachable(h, s) && Success(s, i) && Success(s, j) && i != j
    ensures 0 < s.calls[i].commitAt < |s.history| && 0 < s.calls[j].commitAt < |s.history|
    ensures s.calls[i].commitAt != s.calls[j].commitAt
    ensures s.history[s.calls[i].commitAt].author == Replaced(i) && s.history[s.calls[j].commitAt].author == Replaced(j)
    ensures s.calls[j].expected.Some? ==> s.calls[j].hashNow == s.calls[j].expected.value
  {
    ReachableHasInv(h, s);
    SuccessIsVersion(h, s, i);
    SuccessIsVersion(h, s, j);
    assert Consistent(h, s.history, s.calls[j], j);
  }

  lemma {:induction false} CommitsAfterFirst(h: string -> string, s: State, k: nat)
    requires Reachable(h, s) && NoOutside(s) && 0 < k < |s.history| - 1
    ensures k > 1 ==> s.history[k].author.Replaced?
  {
    ReachableHasInv(h, s);
    SerialVersions(h, s);
  }

  /** Two successes that expected the same hash: between them some commit put that hash back. */
  lemma {:induction false} SameExpectationNeedsRestore(h: string -> string, s: State, i: nat, j: nat, expected: string)
    returns (k: nat)
    requires Reachable(h, s) && NoOutside(s) && Success(s, i) && Success(s, j) && i != j
    requires s.calls[i].expected == s.calls[j].expected == Some(expected)
    requires s.calls[i].commitAt <= s.calls[j].commitAt
    ensures k < |s.history| && s.calls[i].commitAt <= k < s.calls[j].commitAt
    ensures s.history[k].author.Replaced? && Digest(h, s.history[k].file) == expected
  {
    SuccessesDiffer(h, s, i, j);
    k := s.calls[j].commitAt - 1;
    WritesAreSerial(h, s, s.calls[j].commitAt);
    CommitsAfterFirst(h, s, k);
  }

  /** So when no call writes content with hash `expected`, at most one call expecting it succeeds. */
  lemma {:induction false} AtMostOneSuccess(h: string -> string, s: State, i: nat, j: nat, expected: string)
    requires Reachable(h, s) && NoOutside(s) && Success(s, i) && Success(s, j)
    requires s.calls[i].expected == s.calls[j].expected == Some(expected)
    requires forall k :: 0 <= k < |s.calls| ==> h(s.calls[k].content) != expected
    ensures i == j
  {
    if i != j {
      ReachableHasInv(h, s);
      var k: nat;
      if s.calls[i].commitAt <= s.calls[j].commitAt {
        k := SameExpectationNeedsRestore(h, s, i, j, expected);
      } else {
        k := SameExpectationNeedsRestore(h, s, j, i, expected);
      }
      WritesAreSerial(h, s, k);
    }
  }

  // ----- Why a call gives up -----

  /** A call has failed as stale only if the version it read first has another hash than expected, and for a race only
      if the version at its second hash has another hash than the one at its first. */
  lemma {:induction false} FailuresAreJustified(h: string -> string, s: State, i: nat)
    requires Reachable(h, s) && i < |s.calls| && s.calls[i].pc == Returned
    ensures s.calls[i].outcome == Failed(StaleRead) ==>
      && s.calls[i].readAt < |s.history| && s.calls[i].expected.Some?
      && s.calls[i].expected.value != Digest(h, s.history[s.calls[i].readAt].file)
    ensures s.calls[i].outcome == Failed(RaceDetected) ==>
      && s.calls[i].readAt <= s.calls[i].checkAt < |s.history|
      && Digest(h, s.history[s.calls[i].checkAt].file) != Digest(h, s.history[s.calls[i].readAt].file)
  {
    ReachableHasInv(h, s);
    assert Consistent(h, s.history, s.calls[i], i);
  }

  /** At its second hash a call goes on to replace the file exactly if the present version has the hash of the one it
      read first. */
  lemma {:induction false} SecondHashDecides(h: string -> string, s: State, i: nat)
    requires Reachable(h, s) && Enabled(s, ReadSecond(i))
    ensures s.Valid() && s.calls[i].readAt < |s.history|
    ensures Apply(h, s, ReadSecond(i)).calls[i].pc == Replacing <==>
      Digest(h, s.Current()) == Digest(h, s.history[s.calls[i].readAt].file)
  {
    ReachableHasInv(h, s);
    assert Consistent(h, s.history, s.calls[i], i);
  }

  /** Staging and replacing end the call with an error exactly if they fail, and only a successful replace puts the
      content in place. The last open decides whether the call reports success: it fails exactly if the file is gone. */
  lemma {:induction false} IOFailureEndsCall(h: string -> string, s: State, a: Action)
    requires s.Valid() && (a.Stage? || a.Replace? || a.Reopen?) && Enabled(s, a)
    ensures var t := Apply(h, s, a);
      && (a.Reopen? ==>
            && t.calls[a.i].pc == Releasing && t.history == s.history
            && t.calls[a.i].outcome == (if s.Current() == Absent then Failed(IOError)
                                        else Succeeded(s.calls[a.i].hashNow, s.calls[a.i].hashAfter)))
      && (!a.Reopen? ==>
            && (!a.ok <==> t.calls[a.i].pc == Releasing)
            && (!a.ok ==> t.calls[a.i].outcome == Failed(IOError) && t.history == s.history)
            && (a.ok ==> t.calls[a.i].pc == if a.Stage? then SecondHash else HashAfter)
            && (a.Replace? && a.ok ==> t.Current() == Present(s.calls[a.i].content)))
  {
  }

  // ----- The absent file -----

  /** A call that expects the hash of an absent file, the empty text, succeeds only if it could not open
      the target: a successful open has already created it. */
  lemma {:induction false} ExpectingAbsenceNeedsFailedOpen(h: string -> string, s: State, i: nat)
    requires Reachable(h, s) && NoOutside(s) && Success(s, i)
    requires forall data :: h(data) != ""
    requires s.calls[i].expected == Some("")
    ensures !s.calls[i].didOpen
  {
    ReachableHasInv(h, s);
    SerialVersions(h, s);
    var c := s.calls[i];
    assert Consistent(h, s.history, c, i);
    assert s.history[c.readAt].file.Absent?;
  }

  // ----- A call alone -----

  function Opens(opens: bool): seq<Action> {
    [Acquire(0), Open(0, opens), ReadFirst(0)]
  }

  const COMMITS: seq<Action> := [Stage(0, true, true), ReadSecond(0), Replace(0, true)]

  const REPORTS: seq<Action> := [ReadAfter(0), Reopen(0), Release(0)]

  /** What one call does alone when staging and replacing succeed; `opens` says whether its open does. */
  function Alone(opens: bool): seq<Action> {
    Opens(opens) + COMMITS + REPORTS
  }

  /** A successful open creates a file that is absent. */
  function LeftByOpen(initial: File, opens: bool): File {
    if opens && initial.Absent? then Present("") else initial
  }

  predicate Meets(h: string -> string, expected: Option<string>, file: File) {
    expected == None || expected == Some(Digest(h, file))
  }

  /** How a call ends that found `left`. */
  ghost predicate LoneEnd(h: string -> string, s: State, left: File, content: string, expected: Option<string>) {
    && s.Valid()
    && |s.calls| == 1
    && s.calls[0].pc == Returned
    && if Meets(h, expected, left) then
         && s.calls[0].outcome == Succeeded(Digest(h, left), h(content))
         && s.Current() == Present(content)
       else
         && s.calls[0].outcome == Failed(StaleRead)
         && s.Current() == left
  }

  /** Whatever the file and whatever was expected: a lone call puts its content in place exactly if nothing was
      expected, or the hash of what its open leaves. Otherwise it fails as stale and replaces nothing. */
  lemma {:induction false} LoneWriteSucceedsIff(
      h: string -> string, initial: File, parent: bool, content: string, expected: Option<string>, opens: bool)
    requires opens ==> parent || initial.Present?
    ensures var s := Run(h, Start(initial, parent, [(content, expected)]), Alone(opens));
      Reachable(h, s) && LoneEnd(h, s, LeftByOpen(initial, opens), content, expected)
  {
    var s0 := Start(initial, parent, [(content, expected)]);
    var left := LeftByOpen(initial, opens);
    var read := FirstSteps(h, initial, parent, content, expected, opens);
    RunsThreeMore(h, s0, Opens(opens), COMMITS[0], COMMITS[1], COMMITS[2]);
    RunsThreeMore(h, s0, Opens(opens) + COMMITS, REPORTS[0], REPORTS[1], REPORTS[2]);
    if Meets(h, expected, left) {
      var written := CommitSteps(h, read, content);
      ReportSteps(h, written, left, content, expected);
    } else {
      StaleSteps(h, read, left, content, expected);
    }
    assert Reachable(h, Run(h, s0, Alone(opens)));
  }

  /** Expecting an absent file to be absent succeeds exactly if it cannot be opened for want of a directory. Otherwise
      the call fails as stale and leaves an empty file behind. */
  lemma {:induction false} AbsentWriteSucceedsIff(h: string -> string, content: string, parent: bool)
    requires h("") != ""
    ensures var s := Run(h, Start(Absent, parent, [(content, Some(""))]), Alone(parent));
      && Reachable(h, s) && |s.calls| == 1 && s.calls[0].pc == Returned
      && (Success(s, 0) <==> !parent)
      && (parent ==> s.calls[0].outcome == Failed(StaleRead))
      && s.Current() == Present(if parent then "" else content)
  {
    LoneWriteSucceedsIff(h, Absent, parent, content, Some(""), parent);
  }

  function Performed(h: string -> string, s: State, a: Action): (s': State)
    requires s.Valid()
    ensures s'.Valid()
  {
    if Enabled(s, a) then Apply(h, s, a) else s
  }

  lemma {:induction false} RunsThree(h: string -> string, s: State, a: Action, b: Action, c: Action)
    requires s.Valid()
    ensures Run(h, s, [a, b, c]) == Performed(h, Performed(h, Performed(h, s, a), b), c)
  {
    assert [a, b, c][..2] == [a, b] && [a, b][..1] == [a] && [a][..0] == [];
    assert Run(h, s, []) == s;
    assert Run(h, s, [a]) == Performed(h, s, a);
    assert Run(h, s, [a, b]) == Performed(h, Performed(h, s, a), b);
  }

  lemma {:induction false} RunsOneMore(h: string -> string, s: State, schedule: seq<Action>, a: Action)
    requires s.Valid()
    ensures Run(h, s, schedule + [a]) == Performed(h, Run(h, s, schedule), a)
  {
    assert (schedule + [a])[..|schedule|] == schedule;
  }

  lemma {:induction false} RunsOnStep(
      h: string -> string, s: State, first: seq<Action>, second: seq<Action>, a: Action)
    requires s.Valid() && Run(h, s, first + second) == Run(h, Run(h, s, first), second)
    ensures Run(h, s, first + (second + [a])) == Run(h, Run(h, s, first), second + [a])
  {
    RunsOneMore(h, s, first + second, a);
    RunsOneMore(h, Run(h, s, first), second, a);
    assert first + (second + [a]) == first + second + [a];
  }

  lemma {:induction false} RunsThreeMore(
      h: string -> string, s: State, first: seq<Action>, a: Action, b: Action, c: Action)
    requires s.Valid()
    ensures Run(h, s, first + [a, b, c]) == Run(h, Run(h, s, first), [a, b, c])
  {
    assert first + [] == first;
    RunsOnStep(h, s, first, [], a);
    assert [] + [a] == [a] && [a] + [b] == [a, b] && [a, b] + [c] == [a, b, c];
    RunsOnStep(h, s, first, [a], b);
    RunsOnStep(h, s, first, [a, b], c);
  }

  /** What the call has found when it is about to stage its content, or to give up. */
  predicate HasRead(h: string -> string, s: State, left: File, content: string, expected: Option<string>) {
    && s.Valid() && |s.calls| == 1 && s.holder == Some(0) && s.Current() == left
    && s.calls[0].content == content && s.calls[0].hashNow == Digest(h, left)
    && if Meets(h, expected, left) then s.calls[0].pc == Staging
       else s.calls[0].pc == Releasing && s.calls[0].outcome == Failed(StaleRead)
  }

  lemma {:induction false} FirstSteps(
      h: string -> string, initial: File, parent: bool, content: string, expected: Option<string>, opens: bool)
    returns (s: State)
    requires opens ==> parent || initial.Present?
    ensures s == Run(h, Start(initial, parent, [(content, expected)]), Opens(opens))
    ensures HasRead(h, s, LeftByOpen(initial, opens), content, expected)
  {
    var s0 := Start(initial, parent, [(content, expected)]);
    RunsThree(h, s0, Acquire(0), Open(0, opens), ReadFirst(0));
    var before := OpenStep(h, initial, parent, content, expected, opens);
    s := Performed(h, before, ReadFirst(0));
    ReadStep(h, before, LeftByOpen(initial, opens), content, expected);
  }

  lemma {:induction false} ReadStep(
      h: string -> string, s: State, left: File, content: string, expected: Option<string>)
    requires s.Valid() && |s.calls| == 1 && s.holder == Some(0) && s.Current() == left
    requires s.calls[0].pc == FirstHash && s.calls[0].content == content && s.calls[0].expected == expected
    ensures HasRead(h, Performed(h, s, ReadFirst(0)), left, content, expected)
  {
  }

  lemma {:induction false} OpenStep(
      h: string -> string, initial: File, parent: bool, content: string, expected: Option<string>, opens: bool)
    returns (s: State)
    requires opens ==> parent || initial.Present?
    ensures var s0 := Start(initial, parent, [(content, expected)]);
      s == Performed(h, Performed(h, s0, Acquire(0)), Open(0, opens))
    ensures s.Valid() && |s.calls| == 1 && s.holder == Some(0) && s.calls[0].content == content
    ensures s.calls[0].pc == FirstHash && s.calls[0].expected == expected
    ensures s.Current() == LeftByOpen(initial, opens)
  {
    var s1 := Performed(h, Start(initial, parent, [(content, expected)]), Acquire(0));
    assert s1.calls[0].pc == Opening && s1.Current() == initial && s1.parent == (parent || initial.Present?);
    s := Performed(h, s1, Open(0, opens));
  }

  lemma {:induction false} IdleWhileReleasing(h: string -> string, s: State, a: Action)
    requires s.Valid() && |s.calls| == 1 && s.calls[0].pc == Releasing
    requires !a.WriteOutside? && PcFor(a) != Releasing
    ensures Performed(h, s, a) == s
  {
  }

  lemma {:induction false} StaleSteps(
      h: string -> string, s: State, left: File, content: string, expected: Option<string>)
    requires HasRead(h, s, left, content, expected) && !Meets(h, expected, left)
    ensures LoneEnd(h, Run(h, Run(h, s, COMMITS), REPORTS), left, content, expected)
  {
    IdleWhileReleasing(h, s, Stage(0, true, true));
    IdleWhileReleasing(h, s, ReadSecond(0));
    IdleWhileReleasing(h, s, Replace(0, true));
    IdleWhileReleasing(h, s, ReadAfter(0));
    IdleWhileReleasing(h, s, Reopen(0));
    RunsThree(h, s, Stage(0, true, true), ReadSecond(0), Replace(0, true));
    RunsThree(h, s, ReadAfter(0), Reopen(0), Release(0));
    assert LoneEnd(h, Performed(h, s, Release(0)), left, content, expected);
  }

  lemma {:induction false} CommitSteps(h: string -> string, s: State, content: string) returns (t: State)
    requires s.Valid() && |s.calls| == 1 && s.holder == Some(0) && s.calls[0].content == content
    requires s.calls[0].pc == Staging && s.calls[0].hashNow == Digest(h, s.Current())
    ensures t == Run(h, s, COMMITS)
    ensures t.Valid() && |t.calls| == 1 && t.holder == Some(0) && t.calls[0].hashNow == s.calls[0].hashNow
    ensures t.calls[0].pc == HashAfter && t.Current() == Present(content)
  {
    RunsThree(h, s, COMMITS[0], COMMITS[1], COMMITS[2]);
    var s1 := Performed(h, s, COMMITS[0]);
    var s2 := Performed(h, s1, COMMITS[1]);
    assert s2.calls[0].pc == Replacing;
    t := Performed(h, s2, COMMITS[2]);
  }

  lemma {:induction false} ReadsBack(h: string -> string, s: State, content: string) returns (t: State)
    requires s.Valid() && |s.calls| == 1 && s.holder == Some(0)
    requires s.Current() == Present(content) && s.calls[0].pc == HashAfter
    ensures t == Performed(h, Performed(h, s, ReadAfter(0)), Reopen(0))
    ensures t.Valid() && |t.calls| == 1 && t.holder == Some(0) && t.Current() == Present(content)
    ensures t.calls[0].pc == Releasing && t.calls[0].outcome == Succeeded(s.calls[0].hashNow, h(content))
  {
    var read := Performed(h, s, ReadAfter(0));
    assert |read.calls| == 1 && read.Current() == Present(content);
    t := Performed(h, read, Reopen(0));
  }

  lemma {:induction false} ReportSteps(
      h: string -> string, s: State, left: File, content: string, expected: Option<string>)
    requires s.Valid() && |s.calls| == 1 && s.holder == Some(0) && s.calls[0].hashNow == Digest(h, left)
    requires s.Current() == Present(content) && s.calls[0].pc == HashAfter && Meets(h, expected, left)
    ensures LoneEnd(h, Run(h, s, REPORTS), left, content, expected)
  {
    RunsThree(h, s, ReadAfter(0), Reopen(0), Release(0));
    var t := ReadsBack(h, s, content);
    assert LoneEnd(h, Performed(h, t, Release(0)), left, content, expected);
  }
}
