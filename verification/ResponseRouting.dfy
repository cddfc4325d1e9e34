/** Response routing of the language-server client (JSON-RPC 2.0, section 5): the reader thread hands each
    message to a waiting request or to the message list, while requests register, send, give up and withdraw
    beside it. No lock spans the steps of either side. */
module ResponseRouting {
  import opened Wrappers

  // ----- Messages and requests -----

  /** The `id` member of a decoded object. A boolean is an integer to Python. */
  datatype Id = NoId | IntId(n: int) | BoolId(b: bool) | OtherId

  /** `called` is the method the server asks for or reports, if it does; a response has none. */
  datatype Message = Message(id: Id, called: Option<string>, body: string)

  /** The key a message is looked up under in the table of pending requests. */
  function Key(m: Message): Option<int> {
    match m.id
    case IntId(n) => Some(n)
    case BoolId(b) => Some(if b then 1 else 0)
    case _ => None
  }

  /** The ids the requests read off the counter, equal ones included, and the messages the server writes. */
  datatype Session = Session(ids: seq<nat>, messages: seq<Message>)

  /** Where a request is in `request`. */
  datatype Pc =
    | Registering    // about to put its queue into the table
    | Sending        // about to write its frame
    | Waiting        // in `get` with a timeout
    | Withdrawing    // `get` has timed out; about to take its id out of the table
    | Answered
    | GaveUp
    | SendFailed     // writing failed; the id stays in the table

  /** A request and what was put into its queue, as a position in the message stream. */
  datatype Request = Request(pc: Pc, box: Option<nat>)

  /** Where the reader is with the message at a position. */
  datatype Reader =
    | Idle
    | Testing(m: nat)          // about to look whether its key is pending
    | Popping(m: nat)          // it was; about to take it out of the table
    | Putting(m: nat, q: nat)  // about to put it into the queue it took out
    | Listing(m: nat)          // it was not; about to put it into the message list
    | Dead(m: nat)             // the key was gone at the pop: KeyError

  /** A change of the table by a request. */
  datatype Change = Registered(id: nat) | Withdrawn(id: nat)

  datatype State = State(
    pending: map<int, nat>,
    requests: seq<Request>,
    reader: Reader,
    next: nat,              // how many messages have been read
    list: seq<nat>,         // the message list, as positions in the stream
    since: seq<Change>      // the requests' changes of the table since the reader's last test
  )

  datatype Action =
    | Register(i: nat)
    | Send(i: nat, ok: bool)
    | Take(i: nat)
    | Timeout(i: nat)
    | Withdraw(i: nat)
    | ReadNext
    | Test
    | Pop
    | Put
    | List

  function Start(c: Session): State {
    State(map[], seq(|c.ids|, _ => Request(Registering, None)), Idle, 0, [], [])
  }

  predicate ByRequest(a: Action) {
    a.Register? || a.Send? || a.Take? || a.Timeout? || a.Withdraw?
  }

  function PcFor(a: Action): Pc
    requires ByRequest(a)
  {
    match a
    case Register(_) => Registering
    case Send(_, _) => Sending
    case Take(_) => Waiting
    case Timeout(_) => Waiting
    case Withdraw(_) => Withdrawing
  }

  predicate Valid(c: Session, s: State) {
    && |s.requests| == |c.ids|
    && s.next <= |c.messages|
    && (s.reader != Idle ==> s.reader.m < |c.messages|)
    && (s.reader.Putting? ==> s.reader.q < |s.requests|)
    && (forall k :: k in s.pending ==> s.pending[k] < |s.requests|)
    && (s.reader.Popping? ==> Key(c.messages[s.reader.m]).Some?)
  }

  /** `get` raises only while the queue is empty and returns only when it is not. */
  predicate Enabled(c: Session, s: State, a: Action)
    requires Valid(c, s)
  {
    if ByRequest(a) then
      && a.i < |s.requests|
      && s.requests[a.i].pc == PcFor(a)
      && (a.Take? ==> s.requests[a.i].box.Some?)
      && (a.Timeout? ==> s.requests[a.i].box.None?)
    else
      match a
      case ReadNext => s.reader == Idle && s.next < |c.messages|
      case Test => s.reader.Testing?
      case Pop => s.reader.Popping?
      case Put => s.reader.Putting?
      case List => s.reader.Listing?
  }

  function Without(pending: map<int, nat>, id: int): map<int, nat> {
    map k | k in pending && k != id :: pending[k]
  }

  function WithPc(s: State, i: nat, pc: Pc): seq<Request>
    requires i < |s.requests|
  {
    s.requests[i := s.requests[i].(pc := pc)]
  }

  function Apply(c: Session, s: State, a: Action): (s': State)
    requires Valid(c, s) && Enabled(c, s, a)
    ensures Valid(c, s')
  {
    match a
    case Register(i) =>
      s.(pending := s.pending[c.ids[i] := i], requests := WithPc(s, i, Sending),
         since := s.since + [Registered(c.ids[i])])
    case Send(i, ok) => s.(requests := WithPc(s, i, if ok then Waiting else SendFailed))
    case Take(i) => s.(requests := WithPc(s, i, Answered))
    case Timeout(i) => s.(requests := WithPc(s, i, Withdrawing))
    case Withdraw(i) =>
      s.(pending := Without(s.pending, c.ids[i]), requests := WithPc(s, i, GaveUp),
         since := s.since + [Withdrawn(c.ids[i])])
    case ReadNext => s.(reader := Testing(s.next), next := s.next + 1)
    case Test =>
      var m := s.reader.m;
      var key := Key(c.messages[m]);
      s.(reader := if key.Some? && key.value in s.pending then Popping(m) else Listing(m), since := [])
    case Pop =>
      var m := s.reader.m;
      var key := Key(c.messages[m]).value;
      if key in s.pending then s.(pending := Without(s.pending, key), reader := Putting(m, s.pending[key]))
      else s.(reader := Dead(m))
    case Put =>
      var q := s.reader.q;
      s.(requests := s.requests[q := s.requests[q].(box := Some(s.reader.m))], reader := Idle)
    case List => s.(list := s.list + [s.reader.m], reader := Idle)
  }

  /** One action, or nothing if it is not enabled. */
  function Performed(c: Session, s: State, a: Action): (s': State)
    requires Valid(c, s)
    ensures Valid(c, s')
  {
    if Enabled(c, s, a) then Apply(c, s, a) else s
  }

  function Run(c: Session, s: State, schedule: seq<Action>): (s': State)
    requires Valid(c, s)
    ensures Valid(c, s')
    decreases |schedule|
  {
    if schedule == [] then s
    else Performed(c, Run(c, s, schedule[..|schedule| - 1]), schedule[|schedule| - 1])
  }

  // ----- What every schedule keeps -----

  /** The reader has the message, or died with it. */
  predicate InHand(s: State, m: nat) {
    s.reader != Idle && s.reader.m == m
  }

  predicate Boxed(s: State, m: nat, i: nat) {
    i < |s.requests| && s.requests[i].box == Some(m)
  }

  /** The reader's message is the last one read. */
  predicate HandIsLast(s: State) {
    s.reader != Idle ==> s.next > 0 && s.reader.m == s.next - 1
  }

  /** The list holds earlier messages in order. */
  ghost predicate ListInOrder(s: State) {
    && (forall k :: 0 <= k < |s.list| ==> s.list[k] < s.next && !InHand(s, s.list[k]))
    && (forall j, k :: 0 <= j < k < |s.list| ==> s.list[j] < s.list[k])
  }

  /** A queue holds an earlier message that is not in the list and in no other queue. */
  ghost predicate BoxesApart(s: State) {
    && (forall i :: 0 <= i < |s.requests| && s.requests[i].box.Some? ==>
         var m := s.requests[i].box.value; m < s.next && !InHand(s, m) && m !in s.list)
    && (forall i, j :: 0 <= i < j < |s.requests| && s.requests[i].box.Some? ==> s.requests[j].box != s.requests[i].box)
  }

  predicate Somewhere(s: State, m: nat) {
    InHand(s, m) || m in s.list || exists i :: 0 <= i < |s.requests| && Boxed(s, m, i)
  }

  ghost predicate AllSomewhere(s: State) {
    forall m: nat :: m < s.next ==> Somewhere(s, m)
  }

  /** An entry of the table leads to a registered request with this id whose queue is still empty. */
  ghost predicate EntriesLead(c: Session, s: State)
    requires Valid(c, s)
  {
    forall k :: k in s.pending ==>
      var q := s.pending[k];
      && c.ids[q] == k
      && s.requests[q].box.None?
      && s.requests[q].pc in {Sending, Waiting, Withdrawing, SendFailed}
      && !(s.reader.Putting? && s.reader.q == q)
  }

  /** The queue the reader is about to fill is empty and belongs to the message's id. */
  predicate PutIsDue(c: Session, s: State)
    requires Valid(c, s)
  {
    s.reader.Putting? ==>
      && s.requests[s.reader.q].box.None?
      && s.requests[s.reader.q].pc != Registering
      && Key(c.messages[s.reader.m]) == Some(c.ids[s.reader.q])
  }

  /** A queue is filled by a message with the request's id, after it was registered; an answered request has
      one. */
  ghost predicate BoxesMatch(c: Session, s: State)
    requires Valid(c, s)
  {
    forall i :: 0 <= i < |s.requests| ==>
      && (s.requests[i].box.Some? ==>
           && s.requests[i].pc != Registering
           && s.requests[i].box.value < |c.messages|
           && Key(c.messages[s.requests[i].box.value]) == Some(c.ids[i]))
      && (s.requests[i].pc == Answered ==> s.requests[i].box.Some?)
  }

  /** The last change of an id's entry. */
  function LastChange(changes: seq<Change>, id: int): Option<Change> {
    if changes == [] then None
    else if changes[|changes| - 1].id == id then Some(changes[|changes| - 1])
    else LastChange(changes[..|changes| - 1], id)
  }

  /** Since the reader's test the id has been withdrawn, and not been registered again. */
  predicate WithdrawnSince(changes: seq<Change>, id: int) {
    LastChange(changes, id).Some? && LastChange(changes, id).value.Withdrawn?
  }

  /** What the requests did since the reader's test decides what its pop will find. */
  predicate SinceTells(c: Session, s: State)
    requires Valid(c, s)
  {
    s.reader.Popping? ==>
      var key := Key(c.messages[s.reader.m]).value;
      key in s.pending <==> !WithdrawnSince(s.since, key)
  }

  ghost predicate Inv(c: Session, s: State) {
    && Valid(c, s)
    && SinceTells(c, s)
    && HandIsLast(s) && ListInOrder(s) && BoxesApart(s) && AllSomewhere(s)
    && EntriesLead(c, s) && PutIsDue(c, s) && BoxesMatch(c, s)
  }

  lemma {:induction false} StartHasInv(c: Session)
    ensures Inv(c, Start(c))
  {
  }

  lemma {:induction false} KeepsListInOrder(c: Session, s: State, a: Action)
    requires Inv(c, s) && Enabled(c, s, a)
    ensures HandIsLast(Apply(c, s, a)) && ListInOrder(Apply(c, s, a))
  {
  }

  lemma {:induction false} RequestKeepsBoxes(c: Session, s: State, a: Action)
    requires Valid(c, s) && Enabled(c, s, a) && (ByRequest(a) || !a.Put?)
    ensures var s' := Apply(c, s, a);
      |s'.requests| == |s.requests| && forall i :: 0 <= i < |s.requests| ==> s'.requests[i].box == s.requests[i].box
  {
  }

  lemma {:induction false} KeepsBoxesApart(c: Session, s: State, a: Action)
    requires Inv(c, s) && Enabled(c, s, a)
    ensures BoxesApart(Apply(c, s, a))
  {
    if !a.Put? {
      RequestKeepsBoxes(c, s, a);
    }
  }

  lemma {:induction false} KeepsAllSomewhere(c: Session, s: State, a: Action)
    requires Inv(c, s) && Enabled(c, s, a)
    ensures AllSomewhere(Apply(c, s, a))
  {
    var s' := Apply(c, s, a);
    if !a.Put? {
      RequestKeepsBoxes(c, s, a);
    }
    forall m: nat | m < s'.next
      ensures Somewhere(s', m)
    {
      if m < s.next {
        assert Somewhere(s, m);
        if InHand(s, m) && a.Put? {
          assert Boxed(s', m, s.reader.q);
        } else if i :| 0 <= i < |s.requests| && Boxed(s, m, i) {
          assert Boxed(s', m, i);
        }
      }
    }
  }

  lemma {:induction false} KeepsEntriesLead(c: Session, s: State, a: Action)
    requires Inv(c, s) && Enabled(c, s, a)
    ensures EntriesLead(c, Apply(c, s, a))
  {
  }

  lemma {:induction false} KeepsBoxesMatch(c: Session, s: State, a: Action)
    requires Inv(c, s) && Enabled(c, s, a)
    ensures PutIsDue(c, Apply(c, s, a)) && BoxesMatch(c, Apply(c, s, a))
  {
  }

  lemma {:induction false} LastOfMore(changes: seq<Change>, change: Change, id: int)
    ensures LastChange(changes + [change], id) == if change.id == id then Some(change) else LastChange(changes, id)
  {
    assert (changes + [change])[..|changes|] == changes;
  }

  lemma {:induction false} KeepsSinceTells(c: Session, s: State, a: Action)
    requires Inv(c, s) && Enabled(c, s, a)
    ensures SinceTells(c, Apply(c, s, a))
  {
    if s.reader.Popping? && (a.Register? || a.Withdraw?) {
      var change := if a.Register? then Registered(c.ids[a.i]) else Withdrawn(c.ids[a.i]);
      LastOfMore(s.since, change, Key(c.messages[s.reader.m]).value);
    }
  }

  lemma {:induction false} PerformedKeepsInv(c: Session, s: State, a: Action)
    requires Inv(c, s)
    ensures Inv(c, Performed(c, s, a))
  {
    if Enabled(c, s, a) {
      KeepsListInOrder(c, s, a);
      KeepsBoxesApart(c, s, a);
      KeepsAllSomewhere(c, s, a);
      KeepsEntriesLead(c, s, a);
      KeepsBoxesMatch(c, s, a);
      KeepsSinceTells(c, s, a);
    }
  }

  lemma {:induction false} RunKeepsInv(c: Session, s: State, schedule: seq<Action>)
    requires Inv(c, s)
    ensures Inv(c, Run(c, s, schedule))
    decreases |schedule|
  {
    if schedule != [] {
      RunKeepsInv(c, s, schedule[..|schedule| - 1]);
      PerformedKeepsInv(c, Run(c, s, schedule[..|schedule| - 1]), schedule[|schedule| - 1]);
    }
  }

  /** A state that some schedule reaches from the start. */
  ghost predicate Reachable(c: Session, s: State) {
    exists schedule :: s == Run(c, Start(c), schedule)
  }

  lemma {:induction false} ReachableHasInv(c: Session, s: State)
    requires Reachable(c, s)
    ensures Inv(c, s)
  {
    var schedule :| s == Run(c, Start(c), schedule);
    StartHasInv(c);
    RunKeepsInv(c, Start(c), schedule);
  }

  // ----- Each message is in exactly one place -----

  datatype Place = AtReader | Listed(k: nat) | Queued(i: nat)

  predicate Holds(s: State, m: nat, p: Place) {
    match p
    case AtReader => InHand(s, m)
    case Listed(k) => k < |s.list| && s.list[k] == m
    case Queued(i) => Boxed(s, m, i)
  }

  /** In every schedule each message that has been read is in exactly one place, with the reader, in the list or
      in one request's queue, and no other message is in any. */
  lemma {:induction false} EachMessageGoesOnce(c: Session, s: State, m: nat)
    requires Reachable(c, s)
    ensures m < s.next <==> exists p :: Holds(s, m, p)
    ensures forall p, q :: Holds(s, m, p) && Holds(s, m, q) ==> p == q
  {
    ReachableHasInv(c, s);
    if m < s.next {
      assert Somewhere(s, m);
      if InHand(s, m) {
        assert Holds(s, m, AtReader);
      } else if k :| 0 <= k < |s.list| && s.list[k] == m {
        assert Holds(s, m, Listed(k));
      } else {
        var i :| 0 <= i < |s.requests| && Boxed(s, m, i);
        assert Holds(s, m, Queued(i));
      }
    }
    forall p, q | Holds(s, m, p) && Holds(s, m, q)
      ensures p == q
    {
      OnePlace(s, m, p, q);
      OnePlace(s, m, q, p);
    }
  }

  lemma {:induction false} OnePlace(s: State, m: nat, p: Place, q: Place)
    requires ListInOrder(s) && BoxesApart(s) && Holds(s, m, p) && Holds(s, m, q)
    ensures p.AtReader? ==> q.AtReader?
    ensures p.Queued? ==> q.Queued? && p.i <= q.i
    ensures p.Listed? && q.Listed? ==> p.k <= q.k
  {
  }

  /** The list is in the order of the stream, and a queue only ever holds a message with its request's id, true standing
      for 1 and false for 0. */
  lemma {:induction false} PlacesAreRight(c: Session, s: State)
    requires Reachable(c, s)
    ensures forall j, k :: 0 <= j < k < |s.list| ==> s.list[j] < s.list[k]
    ensures forall i :: 0 <= i < |s.requests| && s.requests[i].box.Some? ==>
      var m := s.requests[i].box.value;
      && m < |c.messages|
      && (|| c.messages[m].id == IntId(c.ids[i])
          || (c.messages[m].id == BoolId(true) && c.ids[i] == 1)
          || (c.messages[m].id == BoolId(false) && c.ids[i] == 0))
  {
    ReachableHasInv(c, s);
  }

  // ----- Answers that are no responses -----

  /** Whatever a request is answered with is a response. */
  ghost predicate OnlyResponses(c: Session) {
    forall s, i: nat :: Reachable(c, s) ==> AnswerIsResponse(c, s, i)
  }

  predicate AnswerIsResponse(c: Session, s: State, i: nat) {
    i < |s.requests| && s.requests[i].pc == Answered && s.requests[i].box.Some?
    && s.requests[i].box.value < |c.messages| ==>
      c.messages[s.requests[i].box.value].called.None?
  }

  /** A message with a method carries the id of some request. */
  predicate Mistakable(c: Session, m: nat, i: nat) {
    m < |c.messages| && i < |c.ids| && c.messages[m].called.Some? && Key(c.messages[m]) == Some(c.ids[i])
  }

  lemma {:induction false} ReachesNext(c: Session, s: State, a: Action)
    requires Reachable(c, s) && Valid(c, s) && Enabled(c, s, a)
    ensures Reachable(c, Apply(c, s, a))
  {
    var schedule :| s == Run(c, Start(c), schedule);
    var longer := schedule + [a];
    assert longer[..|longer| - 1] == schedule;
    assert Run(c, Start(c), longer) == Apply(c, s, a);
  }

  /** Before any request is registered the reader lists what it reads. */
  function Unasked(c: Session, m: nat): State {
    Start(c).(next := m, list := seq(m, k requires 0 <= k => k))
  }

  lemma {:induction false} ListsOne(c: Session, m: nat)
    requires m < |c.messages| && Reachable(c, Unasked(c, m))
    ensures Reachable(c, Unasked(c, m + 1))
  {
    var s0 := Unasked(c, m);
    ReachesNext(c, s0, ReadNext);
    var s1 := Apply(c, s0, ReadNext);
    assert s1 == s0.(reader := Testing(m), next := m + 1);
    ReachesNext(c, s1, Test);
    var s2 := s1.(reader := Listing(m));
    assert Apply(c, s1, Test) == s2;
    ReachesNext(c, s2, List);
    var listed := s0.list + [m];
    assert listed == Unasked(c, m + 1).list;
  }

  lemma {:induction false} ListsAll(c: Session, m: nat)
    requires m <= |c.messages|
    ensures Reachable(c, Unasked(c, m))
    decreases m
  {
    if m == 0 {
      assert Unasked(c, 0) == Run(c, Start(c), []);
    } else {
      ListsAll(c, m - 1);
      ListsOne(c, m - 1);
    }
  }

  /** A request waits, and nothing else has happened but that earlier messages were listed. */
  lemma {:induction false} WaitsAlone(c: Session, m: nat, i: nat) returns (s: State)
    requires m <= |c.messages| && i < |c.ids|
    ensures Reachable(c, s) && Valid(c, s) && s.reader == Idle && s.next == m
    ensures s.pending == map[c.ids[i] as int := i] && s.requests[i] == Request(Waiting, None)
  {
    ListsAll(c, m);
    var s0 := Unasked(c, m);
    ReachesNext(c, s0, Register(i));
    var s1 := Apply(c, s0, Register(i));
    ReachesNext(c, s1, Send(i, true));
    s := Apply(c, s1, Send(i, true));
  }

  lemma {:induction false} IsAnsweredWith(c: Session, s: State, m: nat, i: nat) returns (end: State)
    requires Reachable(c, s) && Valid(c, s) && s.reader == Idle && s.next == m < |c.messages| && i < |s.requests|
    requires s.pending == map[c.ids[i] as int := i] && s.requests[i] == Request(Waiting, None)
    requires Key(c.messages[m]) == Some(c.ids[i])
    ensures Reachable(c, end) && i < |end.requests| && end.requests[i] == Request(Answered, Some(m))
  {
    ReachesNext(c, s, ReadNext);
    var s1 := Apply(c, s, ReadNext);
    ReachesNext(c, s1, Test);
    var s2 := s1.(reader := Popping(m), since := []);
    assert Apply(c, s1, Test) == s2;
    ReachesNext(c, s2, Pop);
    var s3 := Apply(c, s2, Pop);
    assert s3.reader == Putting(m, i);
    ReachesNext(c, s3, Put);
    var s4 := Apply(c, s3, Put);
    ReachesNext(c, s4, Take(i));
    end := Apply(c, s4, Take(i));
  }

  /** The reader does not look at the method: every answer is a response exactly if no request or notification of the
      server carries the id of a request of the client. */
  lemma {:induction false} OnlyResponsesIff(c: Session)
    ensures OnlyResponses(c) <==> forall m, i :: !Mistakable(c, m, i)
  {
    if m, i :| Mistakable(c, m, i) {
      var s := WaitsAlone(c, m, i);
      var end := IsAnsweredWith(c, s, m, i);
      assert !AnswerIsResponse(c, end, i);
    } else {
      forall s, i: nat | Reachable(c, s)
        ensures AnswerIsResponse(c, s, i)
      {
        ReachableHasInv(c, s);
        if !AnswerIsResponse(c, s, i) {
          assert Mistakable(c, s.requests[i].box.value, i);
        }
      }
    }
  }

  // ----- Lost messages -----

  /** Nobody will take it from that queue. */
  predicate Abandoned(r: Request) {
    r.pc == Withdrawing || r.pc == GaveUp || r.pc == SendFailed
  }

  /** The reader died with the message, or it is in the queue of a request that has given up. */
  predicate Lost(s: State, m: nat) {
    s.reader == Dead(m) || exists i :: 0 <= i < |s.requests| && Boxed(s, m, i) && Abandoned(s.requests[i])
  }

  /** The three ways to lose message `m`: its pop comes after a withdrawal that came after its test; its put
      comes after the time-out of the request; or the request it was put to then fails to send. */
  predicate Loses(c: Session, s: State, a: Action, m: nat)
    requires Valid(c, s)
  {
    || (a.Pop? && s.reader == Popping(m) && WithdrawnSince(s.since, Key(c.messages[m]).value))
    || (a.Put? && s.reader.Putting? && s.reader.m == m && Abandoned(s.requests[s.reader.q]))
    || (a.Send? && !a.ok && Boxed(s, m, a.i))
  }

  /** A message that is not lost becomes lost in exactly these three ways, and is lost for good. */
  lemma {:induction false} LostIff(c: Session, s: State, a: Action, m: nat)
    requires Reachable(c, s) && Enabled(c, s, a)
    ensures Lost(Apply(c, s, a), m) <==> Lost(s, m) || Loses(c, s, a, m)
  {
    ReachableHasInv(c, s);
    var s' := Apply(c, s, a);
    if a.Put? {
      LostByPutIff(c, s, m);
    } else {
      RequestKeepsBoxes(c, s, a);
      if i :| 0 <= i < |s.requests| && Boxed(s, m, i) {
        assert Boxed(s', m, i);
        assert forall j :: 0 <= j < |s.requests| && Boxed(s, m, j) ==> j == i;
        BoxIsLostIff(c, s, a, m, i);
      }
    }
  }

  lemma {:induction false} BoxIsLostIff(c: Session, s: State, a: Action, m: nat, i: nat)
    requires Inv(c, s) && Enabled(c, s, a) && !a.Put? && Boxed(s, m, i)
    ensures Abandoned(Apply(c, s, a).requests[i]) <==> Abandoned(s.requests[i]) || (a.Send? && !a.ok && a.i == i)
    ensures s.reader != Dead(m) && Apply(c, s, a).reader != Dead(m)
  {
  }

  lemma {:induction false} LostByPutIff(c: Session, s: State, m: nat)
    requires Inv(c, s) && s.reader.Putting?
    ensures Lost(Apply(c, s, Put), m) <==> Lost(s, m) || Loses(c, s, Put, m)
  {
    var q := s.reader.q;
    var s' := Apply(c, s, Put);
    assert forall i :: 0 <= i < |s.requests| && i != q ==> s'.requests[i] == s.requests[i];
    if i :| 0 <= i < |s.requests| && Boxed(s, m, i) && Abandoned(s.requests[i]) {
      assert Boxed(s', m, i) && Abandoned(s'.requests[i]);
    }
    if i :| 0 <= i < |s'.requests| && Boxed(s', m, i) && Abandoned(s'.requests[i]) {
      assert i != q ==> Boxed(s, m, i) && Abandoned(s.requests[i]);
    }
    if s.reader.m == m && Abandoned(s.requests[q]) {
      assert Boxed(s', m, q) && Abandoned(s'.requests[q]);
    }
  }

  /** A request that has timed out did so before anything was put into its queue: what was put in time is
      taken. */
  lemma {:induction false} InTimeIsTaken(c: Session, s: State, i: nat)
    requires Reachable(c, s) && i < |s.requests| && s.requests[i].pc == Waiting
    ensures Enabled(c, s, Take(i)) <==> !Enabled(c, s, Timeout(i))
    ensures Enabled(c, s, Take(i)) <==> s.requests[i].box.Some?
  {
  }

  // ----- Requests with the same id -----

  /** Nothing leads to the request's queue any more, which is still empty. */
  ghost predicate Orphaned(s: State, i: nat) {
    && i < |s.requests|
    && s.requests[i].pc != Registering
    && s.requests[i].box.None?
    && (forall k :: k in s.pending ==> s.pending[k] != i)
    && !(s.reader.Putting? && s.reader.q == i)
  }

  lemma {:induction false} OrphanStays(c: Session, s: State, i: nat, schedule: seq<Action>)
    requires Valid(c, s) && Orphaned(s, i)
    ensures Orphaned(Run(c, s, schedule), i)
    decreases |schedule|
  {
    if schedule != [] {
      OrphanStays(c, s, i, schedule[..|schedule| - 1]);
      OrphanStaysOnce(c, Run(c, s, schedule[..|schedule| - 1]), i, schedule[|schedule| - 1]);
    }
  }

  lemma {:induction false} OrphanStaysOnce(c: Session, s: State, i: nat, a: Action)
    requires Valid(c, s) && Orphaned(s, i)
    ensures Orphaned(Performed(c, s, a), i)
  {
  }

  /** A request that registers, or withdraws, under the id of a pending one takes its entry away: the other
      request is never answered, whatever happens then. */
  lemma {:induction false} SameIdOrphans(c: Session, s: State, a: Action, i: nat, schedule: seq<Action>)
    requires Reachable(c, s) && i < |s.requests| && c.ids[i] in s.pending && s.pending[c.ids[i]] == i
    requires (a.Register? || a.Withdraw?) && Enabled(c, s, a) && a.i != i && c.ids[a.i] == c.ids[i]
    ensures var s' := Run(c, Apply(c, s, a), schedule);
      i < |s'.requests| && s'.requests[i].box.None? && s'.requests[i].pc != Answered
  {
    ReachableHasInv(c, s);
    var after := Apply(c, s, a);
    PerformedKeepsInv(c, s, a);
    OrphanStays(c, after, i, schedule);
    RunKeepsInv(c, after, schedule);
  }

  ghost predicate IdsDiffer(c: Session) {
    forall i, j :: 0 <= i < j < |c.ids| ==> c.ids[i] != c.ids[j]
  }

  /** A registered request whose queue is empty is pending, or the reader is about to fill its queue. */
  ghost predicate NoneOrphaned(c: Session, s: State)
    requires Valid(c, s)
  {
    forall i :: 0 <= i < |s.requests| && s.requests[i].pc in {Sending, Waiting, Withdrawing, SendFailed}
                && s.requests[i].box.None? ==>
      (c.ids[i] in s.pending && s.pending[c.ids[i]] == i) || (s.reader.Putting? && s.reader.q == i)
  }

  lemma {:induction false} PerformedOrphansNone(c: Session, s: State, a: Action)
    requires Inv(c, s) && IdsDiffer(c) && NoneOrphaned(c, s)
    ensures NoneOrphaned(c, Performed(c, s, a))
  {
  }

  lemma {:induction false} RunOrphansNone(c: Session, schedule: seq<Action>)
    requires IdsDiffer(c)
    ensures NoneOrphaned(c, Run(c, Start(c), schedule))
    decreases |schedule|
  {
    if schedule != [] {
      var shorter := schedule[..|schedule| - 1];
      RunOrphansNone(c, shorter);
      StartHasInv(c);
      RunKeepsInv(c, Start(c), shorter);
      PerformedOrphansNone(c, Run(c, Start(c), shorter), schedule[|schedule| - 1]);
    }
  }

  /** With different ids this cannot happen: until it is answered or gives up, a request is pending. */
  lemma {:induction false} DifferentIdsStayPending(c: Session, s: State, i: nat)
    requires Reachable(c, s) && IdsDiffer(c)
    requires i < |s.requests| && s.requests[i].pc in {Sending, Waiting} && s.requests[i].box.None?
    ensures !Orphaned(s, i)
    ensures (c.ids[i] in s.pending && s.pending[c.ids[i]] == i) || (s.reader.Putting? && s.reader.q == i)
  {
    var schedule :| s == Run(c, Start(c), schedule);
    RunOrphansNone(c, schedule);
  }
}
