/** The language-server client. Its reader thread and each request run as methods; between any two of their steps the
    other threads take theirs, as `ResponseRouting` allows. */
module LspClient {
  import opened Wrappers
  import opened Framing
  import Decimal
  import RequestIds
  import Routing = ResponseRouting

  /** What the JSON decoder makes of a payload. */
  datatype Decoded = Undecodable | NotAnObject | Object(message: Routing.Message)

  /** The messages among the payloads; an undecodable payload is dropped, and a payload that decodes to anything but
      an object ends the reader. */
  function MessagesOf(decode: Bytes -> Decoded, payloads: seq<Bytes>): seq<Routing.Message> {
    if payloads == [] then []
    else
      match decode(payloads[0])
      case Undecodable => MessagesOf(decode, payloads[1..])
      case NotAnObject => []
      case Object(m) => [m] + MessagesOf(decode, payloads[1..])
  }

  /** Some payload decodes to something else than an object. */
  predicate Crashes(decode: Bytes -> Decoded, payloads: seq<Bytes>) {
    exists i :: 0 <= i < |payloads| && decode(payloads[i]) == NotAnObject
  }

  lemma {:induction false} CrashesOfCons(decode: Bytes -> Decoded, payload: Bytes, more: seq<Bytes>)
    ensures Crashes(decode, [payload] + more) <==> decode(payload) == NotAnObject || Crashes(decode, more)
    ensures MessagesOf(decode, [payload] + more) ==
      match decode(payload)
      case Undecodable => MessagesOf(decode, more)
      case NotAnObject => []
      case Object(m) => [m] + MessagesOf(decode, more)
  {
    var all := [payload] + more;
    assert all[1..] == more && all[0] == payload;
    if Crashes(decode, more) {
      var i :| 0 <= i < |more| && decode(more[i]) == NotAnObject;
      assert all[i + 1] == more[i];
    }
  }

  // ----- Threads -----

  datatype Thread = TheReader | TheRequest(i: nat)

  predicate ActionOf(t: Thread, a: Routing.Action) {
    t == if Routing.ByRequest(a) then TheRequest(a.i) else TheReader
  }

  /** Some actions lead from `s` to `s'`. */
  ghost predicate Leads(c: Routing.Session, s: Routing.State, s': Routing.State)
    requires Routing.Valid(c, s)
  {
    exists schedule :: s' == Routing.Run(c, s, schedule)
  }

  lemma {:induction false} RunOfMore(c: Routing.Session, s: Routing.State, first: seq<Routing.Action>,
                                     second: seq<Routing.Action>)
    requires Routing.Valid(c, s)
    ensures Routing.Run(c, s, first + second) == Routing.Run(c, Routing.Run(c, s, first), second)
    decreases |second|
  {
    if second == [] {
      assert first + second == first;
    } else {
      RunOfMore(c, s, first, second[..|second| - 1]);
      assert (first + second)[..|first + second| - 1] == first + second[..|second| - 1];
    }
  }

  lemma {:induction false} LeadsOn(c: Routing.Session, s: Routing.State, s1: Routing.State, s2: Routing.State)
    requires Routing.Valid(c, s) && Leads(c, s, s1) && Leads(c, s1, s2)
    ensures Leads(c, s, s2)
  {
    var first :| s1 == Routing.Run(c, s, first);
    var second :| s2 == Routing.Run(c, s1, second);
    RunOfMore(c, s, first, second);
  }

  lemma {:induction false} OneLeads(c: Routing.Session, s: Routing.State, a: Routing.Action)
    requires Routing.Valid(c, s) && Routing.Enabled(c, s, a)
    ensures Leads(c, s, Routing.Apply(c, s, a))
  {
    assert [a][..0] == [];
    assert Routing.Run(c, s, [a]) == Routing.Apply(c, s, a);
  }

  /** What thread `t` alone can change has not changed. */
  predicate LeftTo(t: Thread, s: Routing.State, s': Routing.State) {
    match t
    case TheReader => s'.reader == s.reader && s'.next == s.next && s'.list == s.list
    case TheRequest(i) => i < |s.requests| == |s'.requests| && s'.requests[i].pc == s.requests[i].pc
  }

  lemma {:induction false} OthersLeaveIt(c: Routing.Session, s: Routing.State, a: Routing.Action, t: Thread)
    requires Routing.Valid(c, s) && Routing.Enabled(c, s, a) && !ActionOf(t, a)
    requires t.TheRequest? ==> t.i < |s.requests|
    ensures LeftTo(t, s, Routing.Apply(c, s, a))
  {
  }

  /** Whole frames, then `sent`, then whole frames have been written. */
  predicate Wrote(from: Bytes, to: Bytes, before: seq<Bytes>, sent: Bytes, after: seq<Bytes>) {
    to == from + Frames(before) + sent + Frames(after)
  }

  lemma {:induction false} FramesOfMore(bodies: seq<Bytes>, body: Bytes)
    ensures Frames(bodies + [body]) == Frames(bodies) + Frame(body)
    decreases |bodies|
  {
    if bodies == [] {
      assert [body][1..] == [];
      assert Frames([body]) == Frame(body) + Frames([]);
      assert bodies + [body] == [body];
    } else {
      var first, more := bodies[0], bodies[1..];
      FramesOfMore(more, body);
      assert bodies + [body] == [first] + (more + [body]);
      FramesOfFirst(first, more + [body]);
      FramesOfFirst(first, more);
      assert bodies == [first] + more;
      assert Frame(first) + (Frames(more) + Frame(body)) == (Frame(first) + Frames(more)) + Frame(body);
    }
  }

  lemma {:induction false} FramesOfFirst(body: Bytes, more: seq<Bytes>)
    ensures Frames([body] + more) == Frame(body) + Frames(more)
  {
    assert ([body] + more)[1..] == more;
  }

  /** The message was put into the request's queue and has its id. */
  predicate Answer(c: Routing.Session, s: Routing.State, i: nat, m: Routing.Message) {
    && i < |s.requests| && i < |c.ids|
    && s.requests[i].box.Some? && s.requests[i].box.value < |c.messages|
    && m == c.messages[s.requests[i].box.value]
    && Routing.Key(m) == Some(c.ids[i])
  }

  /** How the reader ends: its stream is closed, a payload is no object, or the key it found pending is gone. */
  datatype End = Closed | NotObject | KeyGone

  class LSPClient {
    /** The ids the requests read off the counter, and the messages the server writes. */
    const session: Routing.Session
    const decode: Bytes -> Decoded
    var state: Routing.State
    /** What the server has written and the client has not read yet. */
    var stdout: Bytes
    /** What the client has written. */
    var stdin: Bytes

    ghost predicate Valid()
      reads this
    {
      Routing.Reachable(session, state)
    }

    constructor (session: Routing.Session, decode: Bytes -> Decoded, stdout: Bytes)
      ensures Valid() && this.session == session && this.decode == decode
      ensures state == Routing.Start(session) && this.stdout == stdout && stdin == ""
    {
      this.session, this.decode, this.stdout := session, decode, stdout;
      state, stdin := Routing.Start(session), "";
      new;
      assert state == Routing.Run(session, Routing.Start(session), []);
    }

    /** The state came from `first` by actions. */
    ghost predicate From(first: Routing.State)
      reads this
    {
      Routing.Valid(session, first) && Leads(session, first, state)
    }

    /** One atomic step. */
    method Perform(a: Routing.Action, ghost first: Routing.State)
      requires Valid() && From(first) && Routing.Enabled(session, state, a)
      modifies this`state
      ensures Valid() && From(first)
      ensures state == Routing.Apply(session, old(state), a)
    {
      OneLeads(session, state, a);
      LeadsOn(session, Routing.Start(session), state, Routing.Apply(session, state, a));
      LeadsOn(session, first, state, Routing.Apply(session, state, a));
      state := Routing.Apply(session, state, a);
    }

    /** What the other threads do meanwhile: any number of any of their steps. */
    method Others(t: Thread, ghost first: Routing.State)
      requires Valid() && From(first) && (t.TheRequest? ==> t.i < |state.requests|)
      modifies this`state
      ensures Valid() && From(first)
      ensures LeftTo(t, old(state), state)
    {
      var rounds: nat := *;
      while rounds > 0
        invariant Valid() && From(first)
        invariant LeftTo(t, old(state), state)
      {
        var a: Routing.Action := *;
        if !ActionOf(t, a) && Routing.Enabled(session, state, a) {
          OthersLeaveIt(session, state, a, t);
          Perform(a, first);
        }
        rounds := rounds - 1;
      }
    }

    /** What they write meanwhile: whole frames, since writing holds the lock. */
    method OthersWrite() returns (ghost bodies: seq<Bytes>)
      modifies this`stdin
      ensures stdin == old(stdin) + Frames(bodies)
    {
      var rounds: nat := *;
      bodies := [];
      while rounds > 0
        invariant stdin == old(stdin) + Frames(bodies)
      {
        var body: Bytes := *;
        FramesOfMore(bodies, body);
        stdin, bodies := stdin + Frame(body), bodies + [body];
        rounds := rounds - 1;
      }
    }

    /** `_send`: one frame, appended whole, or a part of it if the write fails. */
    method Send(body: Bytes, ok: bool) returns (ghost sent: Bytes)
      modifies this`stdin
      ensures stdin == old(stdin) + sent && sent <= Frame(body)
      ensures ok ==> sent == Frame(body)
    {
      var framed := HEADER + Decimal.Print(|body|) + "\r\n" + "\r\n" + body;
      if !ok {
        var written :| 0 <= written <= |framed|;
        framed := framed[..written];
      }
      sent := framed;
      stdin := stdin + framed;
    }

    /** `request`, from the registration of its queue on. It ends answered, given up or failed to send, and an answer
        is a message with its id. */
    method Request(i: nat, body: Bytes, ok: bool) returns (answer: Option<Routing.Message>)
      requires Valid() && i < |state.requests| && state.requests[i].pc == Routing.Registering
      modifies this`state, this`stdin
      ensures Valid() && Leads(session, old(state), state)
      ensures i < |state.requests|
      ensures state.requests[i].pc ==
        if !ok then Routing.SendFailed else if answer.Some? then Routing.Answered else Routing.GaveUp
      ensures answer.Some? ==> Answer(session, state, i, answer.value)
      ensures exists before, sent, after :: Wrote(old(stdin), stdin, before, sent, after) && sent <= Frame(body)
                && (ok ==> sent == Frame(body))
    {
      answer := None;
      ghost var first, start := state, stdin;
      assert state == Routing.Run(session, state, []);
      Perform(Routing.Register(i), first);
      Others(TheRequest(i), first);
      ghost var before := OthersWrite();
      ghost var sent := Send(body, ok);
      Perform(Routing.Send(i, ok), first);
      ghost var after := [];
      if ok {
        after := OthersWrite();
        answer := Await(i, first);
      }
      assert Wrote(start, stdin, before, sent, after);
    }

    /** The rest of `request`: `get` with a timeout, and the withdrawal after it. */
    method Await(i: nat, ghost first: Routing.State) returns (answer: Option<Routing.Message>)
      requires Valid() && From(first) && i < |state.requests| && state.requests[i].pc == Routing.Waiting
      modifies this`state
      ensures Valid() && From(first)
      ensures i < |state.requests|
      ensures state.requests[i].pc == if answer.Some? then Routing.Answered else Routing.GaveUp
      ensures answer.Some? ==> Answer(session, state, i, answer.value)
    {
      Others(TheRequest(i), first);
      if state.requests[i].box.Some? {
        Routing.ReachableHasInv(session, state);
        answer := Some(session.messages[state.requests[i].box.value]);
        Perform(Routing.Take(i), first);
      } else {
        answer := None;
        Perform(Routing.Timeout(i), first);
        Others(TheRequest(i), first);
        Perform(Routing.Withdraw(i), first);
      }
    }

    /** Lines up to and including the blank one; `ended` if the stream ends first. */
    method ReadHeaders() returns (headers: map<string, string>, ended: bool)
      modifies this`stdout
      ensures ended <==> ReadHeader(old(stdout), map[]).None?
      ensures !ended ==> ReadHeader(old(stdout), map[]) == Some((headers, stdout)) && |stdout| < |old(stdout)|
    {
      headers := map[];
      while true
        invariant ReadHeader(old(stdout), map[]) == ReadHeader(stdout, headers)
        invariant |stdout| <= |old(stdout)|
        decreases |stdout|
      {
        if stdout == "" {
          return headers, true;
        }
        var n := LineEnd(stdout);
        var line := stdout[..n];
        stdout := stdout[n..];
        if IsBlank(line) {
          return headers, false;
        }
        headers := WithLine(headers, line);
      }
    }

    /** A header and what it announces; nothing if that is not a positive length. */
    method ReadPayload() returns (payload: Option<Bytes>, ended: bool)
      modifies this`stdout
      ensures ended ==> Payloads(old(stdout)) == []
      ensures !ended ==> |stdout| < |old(stdout)|
      ensures !ended && payload.Some? ==> Payloads(old(stdout)) == [payload.value] + Payloads(stdout)
      ensures !ended && payload.None? ==> Payloads(old(stdout)) == Payloads(stdout)
    {
      var headers;
      headers, ended := ReadHeaders();
      payload := None;
      if ended {
        return;
      }
      var length := ContentLength(headers);
      if length.Some? && length.value > 0 {
        payload := Some(Take(stdout, length.value));
        stdout := Drop(stdout, length.value);
      }
    }

    /** What the reader does with a decoded message. It fails if the key it found pending is gone at the pop. */
    method Deliver(ghost first: Routing.State) returns (ok: bool)
      requires Valid() && From(first) && state.reader == Routing.Idle && state.next < |session.messages|
      modifies this`state
      ensures Valid() && From(first)
      ensures state.next == old(state.next) + 1
      ensures state.reader == if ok then Routing.Idle else Routing.Dead(old(state.next))
    {
      Perform(Routing.ReadNext, first);
      Others(TheReader, first);
      Perform(Routing.Test, first);
      Others(TheReader, first);
      if state.reader.Popping? {
        ok := Hand(first);
      } else {
        Perform(Routing.List, first);
        ok := true;
      }
    }

    /** Take the waiting queue out of the table and put the message into it. */
    method Hand(ghost first: Routing.State) returns (ok: bool)
      requires Valid() && From(first) && state.reader.Popping?
      modifies this`state
      ensures Valid() && From(first)
      ensures state.next == old(state.next)
      ensures state.reader == if ok then Routing.Idle else Routing.Dead(old(state.reader.m))
    {
      Perform(Routing.Pop, first);
      ok := state.reader.Putting?;
      if ok {
        Others(TheReader, first);
        Perform(Routing.Put, first);
      }
    }

    /** `_read_loop`, on everything the server writes until it closes its output, beside any requests. */
    method ReadLoop() returns (end: End)
      requires Valid() && state.reader == Routing.Idle
      requires session.messages[state.next..] == MessagesOf(decode, Payloads(stdout))
      modifies this`stdout, this`state
      ensures Valid() && Leads(session, old(state), state)
      ensures end == KeyGone <==> state.reader.Dead?
      ensures end != KeyGone ==> state.reader == Routing.Idle && state.next == |session.messages|
      ensures end != KeyGone ==> (end == NotObject <==> Crashes(decode, Payloads(old(stdout))))
    {
      ghost var first, all := state, Payloads(stdout);
      assert state == Routing.Run(session, state, []);
      var stop: Option<End> := None;
      while stop.None?
        invariant Valid() && From(first)
        invariant stop.None? ==> ReadsOn() && (Crashes(decode, all) <==> Crashes(decode, Payloads(stdout)))
        invariant stop.Some? ==> Ended(stop.value) && (stop != Some(KeyGone) ==>
                    (stop == Some(NotObject) <==> Crashes(decode, all)))
        decreases stop.None?, |stdout|
      {
        stop := ReadOne(first);
      }
      end := stop.value;
    }

    /** The reader is between two payloads. */
    ghost predicate ReadsOn()
      reads this
    {
      && state.reader == Routing.Idle && state.next <= |session.messages|
      && session.messages[state.next..] == MessagesOf(decode, Payloads(stdout))
    }

    /** The reader has ended so. */
    ghost predicate Ended(end: End)
      reads this
    {
      && (end == KeyGone <==> state.reader.Dead?)
      && (end != KeyGone ==> state.reader == Routing.Idle && state.next == |session.messages|)
    }

    /** The body of the loop, and how the loop ends if it does. */
    method ReadOne(ghost first: Routing.State) returns (stop: Option<End>)
      requires Valid() && From(first) && ReadsOn()
      modifies this`stdout, this`state
      ensures Valid() && From(first)
      ensures stop.None? ==> ReadsOn() && |stdout| < |old(stdout)|
      ensures stop.None? ==> (Crashes(decode, Payloads(old(stdout))) <==> Crashes(decode, Payloads(stdout)))
      ensures stop.Some? ==> Ended(stop.value)
      ensures stop.Some? && stop != Some(KeyGone) ==>
        (stop == Some(NotObject) <==> Crashes(decode, Payloads(old(stdout))))
    {
      Others(TheReader, first);
      var payload, ended := ReadPayload();
      if ended {
        return Some(Closed);
      }
      if payload.None? {
        return None;
      }
      ghost var more := Payloads(stdout);
      CrashesOfCons(decode, payload.value, more);
      match decode(payload.value)
      case Undecodable =>
        return None;
      case NotAnObject =>
        return Some(NotObject);
      case Object(m) =>
        assert session.messages[state.next..][1..] == MessagesOf(decode, more);
        var ok := Deliver(first);
        return if ok then None else Some(KeyGone);
    }
  }

  // ----- Requests that race for their ids -----

  /** The session of requests that have numbered themselves. */
  function Numbered(s: RequestIds.State, messages: seq<Routing.Message>): Routing.Session {
    Routing.Session(seq(|s.requests|, i requires 0 <= i < |s.requests| => s.requests[i].id), messages)
  }

  /** The request still waits to be answered, and nothing leads to its queue any more. */
  ghost predicate Stranded(s: Routing.State, i: nat) {
    Routing.Orphaned(s, i) && s.requests[i].pc in {Routing.Sending, Routing.Waiting}
  }

  ghost predicate NeverStranded(c: Routing.Session) {
    forall s, i :: Routing.Reachable(c, s) ==> !Stranded(s, i)
  }

  lemma {:induction false} DifferentIdsStrandNone(c: Routing.Session)
    requires Routing.IdsDiffer(c)
    ensures NeverStranded(c)
  {
    forall s, i: nat | Routing.Reachable(c, s)
      ensures !Stranded(s, i)
    {
      if Stranded(s, i) {
        Routing.DifferentIdsStayPending(c, s, i);
      }
    }
  }

  /** Of two requests with the same id the first to register is stranded by the second. */
  lemma {:induction false} EqualIdsStrand(c: Routing.Session, i: nat, j: nat)
    requires i < j < |c.ids| && c.ids[i] == c.ids[j]
    ensures !NeverStranded(c)
  {
    var s0 := Routing.Start(c);
    OneLeads(c, s0, Routing.Register(i));
    var s1 := Routing.Apply(c, s0, Routing.Register(i));
    OneLeads(c, s1, Routing.Register(j));
    var s2 := Routing.Apply(c, s1, Routing.Register(j));
    LeadsOn(c, s0, s1, s2);
    assert Stranded(s2, i) && Routing.Reachable(c, s2);
  }

  /** No request can be stranded, whatever the threads do, if and only if no request stores the counter between
      another's load and read. */
  lemma {:induction false} NeverStrandedIff(counter: nat, n: nat, schedule: seq<RequestIds.Action>,
                                            messages: seq<Routing.Message>)
    requires RequestIds.AllNumbered(RequestIds.Run(RequestIds.Start(counter, n), schedule))
    ensures var s := RequestIds.Run(RequestIds.Start(counter, n), schedule);
      NeverStranded(Numbered(s, messages)) <==>
        forall i :: 0 <= i < |s.requests| ==> RequestIds.Undisturbed(s.requests[i])
  {
    var s := RequestIds.Run(RequestIds.Start(counter, n), schedule);
    var c := Numbered(s, messages);
    RequestIds.RequestsDifferIff(counter, n, schedule);
    if RequestIds.IdsDiffer(s) {
      DifferentIdsStrandNone(c);
    } else {
      var i, j :| 0 <= i < j < |s.requests| && s.requests[i].id == s.requests[j].id;
      EqualIdsStrand(c, i, j);
    }
  }
}
