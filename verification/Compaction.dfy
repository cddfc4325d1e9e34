/** Conversation compaction: old messages become a summary, recent ones are kept, and a tool result is never
    separated from the assistant message that called it. */
module Compaction {
  import opened Wrappers

  datatype Role = User | Assistant | Tool | Other

  datatype Message = Message(role: Role, content: string, toolCalls: seq<string>, toolCallId: string)

  // ----- Well-formed histories -----

  /** The position of the message that a run of tool messages ending at `i` follows. */
  function Caller(messages: seq<Message>, i: nat): (c: Option<nat>)
    requires i < |messages|
    ensures c.Some? ==> c.value <= i && messages[c.value].role != Tool
    ensures c.Some? ==> forall j :: c.value < j <= i ==> messages[j].role == Tool
    ensures c.None? ==> forall j :: 0 <= j <= i ==> messages[j].role == Tool
  {
    if messages[i].role != Tool then Some(i)
    else if i == 0 then None
    else Caller(messages, i - 1)
  }

  /** A tool message answers a call of the assistant message its run follows. */
  predicate Answers(messages: seq<Message>, i: nat)
    requires i < |messages|
  {
    var c := Caller(messages, i);
    && c.Some?
    && messages[c.value].role == Assistant
    && messages[i].toolCallId in messages[c.value].toolCalls
  }

  predicate Answered(messages: seq<Message>, i: nat, id: string)
    requires i < |messages|
  {
    exists j :: i < j < |messages| && messages[j].role == Tool && messages[j].toolCallId == id
                && Caller(messages, j) == Some(i)
  }

  /** Only tool messages follow message `i`: its remaining calls may still be answered. */
  predicate Pending(messages: seq<Message>, i: nat)
    requires i < |messages|
  {
    forall j :: i < j < |messages| ==> messages[j].role == Tool
  }

  /** A call that is followed by anything but tool results has been answered. */
  predicate CallsAnswered(messages: seq<Message>, i: nat)
    requires i < |messages|
  {
    || messages[i].role != Assistant
    || Pending(messages, i)
    || forall id :: id in messages[i].toolCalls ==> Answered(messages, i, id)
  }

  /** Every tool message answers its caller, and every call has been answered in its run. */
  predicate WellFormed(messages: seq<Message>) {
    && (forall i :: 0 <= i < |messages| && messages[i].role == Tool ==> Answers(messages, i))
    && (forall i :: 0 <= i < |messages| ==> CallsAnswered(messages, i))
  }

  // ----- Summary -----

  function Take(s: string, n: nat): string {
    if |s| <= n then s else s[..n]
  }

  function SummaryLine(m: Message): Option<string> {
    if m.role == User && m.content != "" then Some("User asked: " + Take(m.content, 200))
    else if m.role == Assistant && m.content != "" then Some("Assistant: " + Take(m.content, 200))
    else if m.role == Tool then Some("Tool result for " + m.toolCallId + ": " + Take(m.content, 100))
    else None
  }

  function SummaryLines(messages: seq<Message>): seq<string> {
    if messages == [] then []
    else
      var rest := SummaryLines(messages[..|messages| - 1]);
      var line := SummaryLine(messages[|messages| - 1]);
      if line.Some? then rest + [line.value] else rest
  }

  function LastLines(lines: seq<string>, n: nat): seq<string> {
    if |lines| <= n then lines else lines[|lines| - n..]
  }

  function Joined(lines: seq<string>): string {
    if lines == [] then ""
    else if |lines| == 1 then lines[0]
    else lines[0] + "\n" + Joined(lines[1..])
  }

  const SUMMARY_START: string := "[CONVERSATION SUMMARY — Earlier messages have been compacted]\n\n"
  const SUMMARY_END: string := "\n\n[END SUMMARY — Recent messages follow]"

  /** What a line tells of a message: who spoke, and the beginning of what was said, up to a limit. */
  ghost predicate TellsOf(line: string, m: Message) {
    match m.role
    case Tool => IsStart(line, "Tool result for " + m.toolCallId + ": ", m.content, 100)
    case User => IsStart(line, "User asked: ", m.content, 200)
    case Assistant => IsStart(line, "Assistant: ", m.content, 200)
    case Other => false
  }

  ghost predicate IsStart(line: string, intro: string, content: string, limit: nat) {
    intro <= line <= intro + content && (|line| == |intro| + limit || (line == intro + content && |content| <= limit))
  }

  /** A message has a line if and only if it is a tool result, or someone's words that are not empty. */
  lemma {:induction false} LineTellsOf(m: Message)
    ensures SummaryLine(m).Some? <==> m.role == Tool || (m.role in {User, Assistant} && |m.content| > 0)
    ensures SummaryLine(m).Some? ==> TellsOf(SummaryLine(m).value, m)
  {
  }

  lemma {:induction false} JoinedConcat(a: seq<string>, b: seq<string>)
    requires a != [] && b != []
    ensures Joined(a + b) == Joined(a) + "\n" + Joined(b)
    decreases |a|
  {
    assert (a + b)[1..] == a[1..] + b;
    if |a| > 1 {
      JoinedConcat(a[1..], b);
      assert a[0] + "\n" + (Joined(a[1..]) + "\n" + Joined(b)) == a[0] + "\n" + Joined(a[1..]) + "\n" + Joined(b);
    } else {
      assert a[1..] + b == b;
    }
  }

  function SummaryText(old_: seq<Message>): string {
    SUMMARY_START + Joined(LastLines(SummaryLines(old_), 20)) + SUMMARY_END
  }

  lemma {:induction false} LinesConcat(a: seq<Message>, b: seq<Message>)
    ensures SummaryLines(a + b) == SummaryLines(a) + SummaryLines(b)
    decreases |b|
  {
    if b == [] {
      assert a + b == a;
    } else {
      LinesConcat(a, b[..|b| - 1]);
      assert (a + b)[..|a + b| - 1] == a + b[..|b| - 1];
    }
  }

  /** The summary tells of the last twenty messages that have a line, or of all if there are fewer: what came before
      leaves no trace in it. */
  lemma {:induction false} SummaryIsOfLastTwenty(older: seq<Message>, newer: seq<Message>)
    requires |SummaryLines(newer)| == 20 || (|SummaryLines(newer)| < 20 && older == [])
    ensures SummaryText(older + newer) == SUMMARY_START + Joined(SummaryLines(newer)) + SUMMARY_END
  {
    LinesConcat(older, newer);
    assert LastLines(SummaryLines(older + newer), 20) == SummaryLines(newer);
  }

  const ACKNOWLEDGEMENT: Message :=
    Message(Assistant, "Understood. I have the context from our earlier conversation. Let's continue.", [], "")

  // ----- Compaction -----

  /** Where the history is cut: `keep` messages from the end, moved back to the caller of a tool run. */
  function SplitIndex(messages: seq<Message>, start: nat): (r: nat)
    requires start < |messages|
    ensures r <= start
    ensures r > 0 ==> messages[r].role != Tool
    ensures forall j :: r < j <= start ==> messages[j].role == Tool
  {
    if start > 0 && messages[start].role == Tool then SplitIndex(messages, start - 1) else start
  }

  /** The compacted history; an index error if nothing is to be kept of a history long enough. */
  function Compacted(messages: seq<Message>, keep: int): Result<seq<Message>, string> {
    if |messages| <= keep + 2 then Ok(messages)
    else if keep <= 0 then Err("IndexError")
    else
      var split := SplitIndex(messages, |messages| - keep);
      Ok([Message(User, SummaryText(messages[..split]), [], ""), ACKNOWLEDGEMENT] + messages[split..])
  }

  /** The loop over the old messages. */
  method SummaryOf(messages: seq<Message>, split: nat) returns (lines: seq<string>)
    requires split <= |messages|
    ensures lines == SummaryLines(messages[..split])
  {
    lines := [];
    for i := 0 to split
      invariant lines == SummaryLines(messages[..i])
    {
      assert messages[..i + 1][..i] == messages[..i];
      var m := messages[i];
      if m.role == User && m.content != "" {
        lines := lines + ["User asked: " + Take(m.content, 200)];
      } else if m.role == Assistant && m.content != "" {
        lines := lines + ["Assistant: " + Take(m.content, 200)];
      } else if m.role == Tool {
        lines := lines + ["Tool result for " + m.toolCallId + ": " + Take(m.content, 100)];
      }
    }
  }

  method CompactMessages(messages: seq<Message>, keepRecent: int) returns (r: Result<seq<Message>, string>)
    ensures r == Compacted(messages, keepRecent)
  {
    if |messages| <= keepRecent + 2 {
      return Ok(messages);
    }
    var split := |messages| - keepRecent;
    if split >= |messages| {
      return Err("IndexError");
    }
    while split > 0
      invariant 0 <= split < |messages|
      invariant SplitIndex(messages, |messages| - keepRecent) == SplitIndex(messages, split)
      decreases split
    {
      var m := messages[split];
      if m.role == Tool {
        split := split - 1;
      } else {
        break;
      }
    }
    var lines := SummaryOf(messages, split);
    var text := "[CONVERSATION SUMMARY — Earlier messages have been compacted]\n\n"
      + Joined(LastLines(lines, 20))
      + "\n\n[END SUMMARY — Recent messages follow]";
    return Ok([Message(User, text, [], ""), ACKNOWLEDGEMENT] + messages[split..]);
  }

  // ----- Properties -----

  /** `suffix` preceded by messages that neither call tools nor are tool results. */
  predicate Prefixed(front: seq<Message>, suffix: seq<Message>) {
    && suffix != [] && suffix[0].role != Tool
    && forall k :: 0 <= k < |front| ==> front[k].role != Tool && front[k].toolCalls == []
  }

  /** Moving a suffix that starts at a message that is no tool result keeps every caller. */
  lemma {:induction false} CallerMoves(messages: seq<Message>, split: nat, front: seq<Message>, i: nat)
    requires split <= i < |messages| && Prefixed(front, messages[split..])
    ensures var moved := front + messages[split..];
      && Caller(messages, i).Some? && Caller(messages, i).value >= split
      && Caller(moved, i - split + |front|) == Some(Caller(messages, i).value - split + |front|)
  {
    var moved := front + messages[split..];
    var k := i - split + |front|;
    assert messages[split..][0] == messages[split];
    assert forall j :: split <= j < |messages| ==> moved[j - split + |front|] == messages[j];
    var c := Caller(messages, i);
    var d := Caller(moved, k);
    assert moved[|front|] == messages[split];
    if d.Some? && c.Some? {
      assert moved[c.value - split + |front|] == messages[c.value];
      assert messages[d.value - |front| + split] == moved[d.value];
    }
  }

  /** Cutting a well-formed history at a message that is no tool result, and putting plain messages in
      front, gives a well-formed history. */
  lemma {:induction false} SuffixStaysWellFormed(messages: seq<Message>, split: nat, front: seq<Message>)
    requires WellFormed(messages) && split < |messages| && Prefixed(front, messages[split..])
    ensures WellFormed(front + messages[split..])
  {
    var moved := front + messages[split..];
    var shift := |front| - split;
    forall k | 0 <= k < |moved| && moved[k].role == Tool
      ensures Answers(moved, k)
    {
      assert moved[k] == messages[k - shift];
      CallerMoves(messages, split, front, k - shift);
      assert Answers(messages, k - shift);
    }
    forall k | 0 <= k < |moved|
      ensures CallsAnswered(moved, k)
    {
      if k >= |front| {
        CallsStayAnswered(messages, split, front, k - shift);
      }
    }
  }

  lemma {:induction false} AnswerMoves(messages: seq<Message>, split: nat, front: seq<Message>, i: nat, id: string)
    requires split <= i < |messages| && Prefixed(front, messages[split..]) && Answered(messages, i, id)
    ensures Answered(front + messages[split..], i - split + |front|, id)
  {
    var moved := front + messages[split..];
    var j :| i < j < |messages| && messages[j].role == Tool && messages[j].toolCallId == id
             && Caller(messages, j) == Some(i);
    CallerMoves(messages, split, front, j);
    assert moved[j - split + |front|] == messages[j];
  }

  lemma {:induction false} PendingMoves(messages: seq<Message>, split: nat, front: seq<Message>, i: nat)
    requires split <= i < |messages| && Pending(messages, i)
    ensures Pending(front + messages[split..], i - split + |front|)
  {
    var moved := front + messages[split..];
    forall k | i - split + |front| < k < |moved|
      ensures moved[k].role == Tool
    {
      assert moved[k] == messages[k + split - |front|];
    }
  }

  lemma {:induction false} CallsStayAnswered(messages: seq<Message>, split: nat, front: seq<Message>, i: nat)
    requires split <= i < |messages| && Prefixed(front, messages[split..]) && CallsAnswered(messages, i)
    ensures CallsAnswered(front + messages[split..], i - split + |front|)
  {
    assert (front + messages[split..])[i - split + |front|] == messages[i];
    if Pending(messages, i) {
      PendingMoves(messages, split, front, i);
    } else if messages[i].role == Assistant {
      forall id | id in messages[i].toolCalls
        ensures Answered(front + messages[split..], i - split + |front|, id)
      {
        AnswerMoves(messages, split, front, i, id);
      }
    }
  }

  /** A well-formed history does not start with a tool result. */
  lemma {:induction false} StartsPlain(messages: seq<Message>)
    requires WellFormed(messages) && messages != []
    ensures messages[0].role != Tool
  {
    var c := Caller(messages, 0);
  }

  /** Compaction of a long enough well-formed history: it keeps a suffix of at least `keep` messages that
      starts at a message that is no tool result, goes back no further than that takes, and leaves a
      well-formed history. */
  lemma {:induction false} CompactionIsSafe(messages: seq<Message>, keep: int)
    requires WellFormed(messages) && keep >= 1 && |messages| > keep + 2
    ensures var r := Compacted(messages, keep); r.Ok? && WellFormed(r.value)
    ensures var split := SplitIndex(messages, |messages| - keep);
      && Compacted(messages, keep).value[2..] == messages[split..]
      && |messages| - split >= keep
      && messages[split].role != Tool
      && (forall i :: split < i <= |messages| - keep ==> messages[i].role == Tool)
      && (forall i :: split <= i < |messages| ==> Caller(messages, i).Some? && Caller(messages, i).value >= split)
  {
    StartsPlain(messages);
    var split := SplitIndex(messages, |messages| - keep);
    var front := Compacted(messages, keep).value[..2];
    assert messages[split..][0] == messages[split];
    assert Compacted(messages, keep).value == front + messages[split..];
    SuffixStaysWellFormed(messages, split, front);
    forall i | split <= i < |messages|
      ensures Caller(messages, i).Some? && Caller(messages, i).value >= split
    {
      CallerMoves(messages, split, front, i);
    }
  }

  /** What the caller goes on with. */
  function Next(messages: seq<Message>, keep: int): seq<Message> {
    var r := Compacted(messages, keep);
    if r.Ok? then r.value else messages
  }

  type Step = seq<Message> -> seq<Message>

  function Iterated(step: Step, messages: seq<Message>, n: nat): seq<Message> {
    if n == 0 then messages else step(Iterated(step, messages, n - 1))
  }

  function Compaction(keep: int): Step {
    messages => Next(messages, keep)
  }

  /** Any number of compactions. */
  function CompactedTimes(messages: seq<Message>, keep: int, n: nat): seq<Message> {
    Iterated(Compaction(keep), messages, n)
  }

  /** A step that keeps good histories good, and after which the same step adds nothing. */
  ghost predicate Settles(step: Step, good: seq<Message> -> bool) {
    forall messages :: SettlesOn(step, good, messages)
  }

  predicate SettlesOn(step: Step, good: seq<Message> -> bool, messages: seq<Message>) {
    good(messages) ==> good(step(messages)) && |step(step(messages))| <= |step(messages)|
  }

  lemma {:induction false} StaysGood(step: Step, good: seq<Message> -> bool, messages: seq<Message>, n: nat)
    requires good(messages) && Settles(step, good)
    ensures good(Iterated(step, messages, n))
  {
    if n > 0 {
      StaysGood(step, good, messages, n - 1);
      assert SettlesOn(step, good, Iterated(step, messages, n - 1));
    }
  }

  lemma {:induction false} NeverGrows(step: Step, good: seq<Message> -> bool, messages: seq<Message>, m: nat, n: nat)
    requires good(messages) && Settles(step, good) && 1 <= m <= n
    ensures |Iterated(step, messages, n)| <= |Iterated(step, messages, m)|
    decreases n
  {
    if m < n {
      NeverGrows(step, good, messages, m, n - 1);
      StaysGood(step, good, messages, n - 2);
      assert SettlesOn(step, good, Iterated(step, messages, n - 2));
    }
  }

  lemma {:induction false} NextStaysWellFormed(messages: seq<Message>, keep: int)
    requires WellFormed(messages) && keep >= 1
    ensures WellFormed(Next(messages, keep))
  {
    if |messages| > keep + 2 {
      CompactionIsSafe(messages, keep);
    }
  }

  /** The messages from `from` up to the last one that would be cut off are all tool results. */
  predicate ToolRun(messages: seq<Message>, from: nat, keep: int)
    requires 1 <= keep <= |messages|
  {
    forall i :: from <= i <= |messages| - keep && i < |messages| ==> messages[i].role == Tool
  }

  lemma {:induction false} SplitBelowIff(messages: seq<Message>, keep: int, bound: nat)
    requires keep >= 1 && 1 <= bound <= |messages| - keep
    ensures SplitIndex(messages, |messages| - keep) < bound <==> ToolRun(messages, bound, keep)
  {
    var split := SplitIndex(messages, |messages| - keep);
    assert split >= bound ==> messages[split].role != Tool;
  }

  /** Compaction shortens the history exactly if some message from the fourth up to the first of the recent
      ones is no tool result, keeps its length if the third is the first such one, and otherwise lengthens it,
      by one or by two messages. */
  lemma {:induction false} ShorterIff(messages: seq<Message>, keep: int)
    requires keep >= 1 && |messages| > keep + 2
    ensures var n := |Compacted(messages, keep).value|;
      && (n < |messages| <==> !ToolRun(messages, 3, keep))
      && (n > |messages| <==> ToolRun(messages, 2, keep))
      && (n == |messages| + 2 <==> ToolRun(messages, 1, keep))
      && n <= |messages| + 2
  {
    SplitBelowIff(messages, keep, 1);
    SplitBelowIff(messages, keep, 2);
    SplitBelowIff(messages, keep, 3);
  }

  lemma {:induction false} CompactingAgainDoesNotGrow(messages: seq<Message>, keep: int)
    requires WellFormed(messages) && keep >= 1
    ensures |Next(Next(messages, keep), keep)| <= |Next(messages, keep)|
  {
    if |messages| > keep + 2 {
      ThirdIsPlain(messages, keep);
      var once := Next(messages, keep);
      if |once| > keep + 2 {
        assert !ToolRun(once, 2, keep);
        SplitBelowIff(once, keep, 2);
      }
    }
  }

  /** What was kept comes third and does not start with a tool result. */
  lemma {:induction false} ThirdIsPlain(messages: seq<Message>, keep: int)
    requires WellFormed(messages) && keep >= 1 && |messages| > keep + 2
    ensures |Next(messages, keep)| > 2 && Next(messages, keep)[2].role != Tool
  {
    CompactionIsSafe(messages, keep);
    var once := Compacted(messages, keep).value;
    assert once[2..][0] == once[2];
  }

  lemma {:induction false} CompactionSettles(keep: int)
    requires keep >= 1
    ensures Settles(Compaction(keep), h => WellFormed(h))
  {
    ghost var step, good := Compaction(keep), h => WellFormed(h);
    forall messages
      ensures SettlesOn(step, good, messages)
    {
      if WellFormed(messages) {
        NextStaysWellFormed(messages, keep);
        CompactingAgainDoesNotGrow(messages, keep);
      }
    }
  }

  /** Well-formedness survives any number of compactions. */
  lemma {:induction false} CompactionsStayWellFormed(messages: seq<Message>, keep: int, n: nat)
    requires WellFormed(messages) && keep >= 1
    ensures WellFormed(CompactedTimes(messages, keep, n))
  {
    CompactionSettles(keep);
    StaysGood(Compaction(keep), h => WellFormed(h), messages, n);
  }

  /** From the first compaction on the history never grows again. */
  lemma {:induction false} LaterCompactionsDoNotGrow(messages: seq<Message>, keep: int, m: nat, n: nat)
    requires WellFormed(messages) && keep >= 1 && 1 <= m <= n
    ensures |CompactedTimes(messages, keep, n)| <= |CompactedTimes(messages, keep, m)|
  {
    CompactionSettles(keep);
    NeverGrows(Compaction(keep), h => WellFormed(h), messages, m, n);
  }

  /** The first one can: a single long tool run is kept whole, and two messages are added. */
  lemma {:induction false} LongToolRunGrows() returns (messages: seq<Message>)
    ensures WellFormed(messages) && |messages| == 4
    ensures |Compacted(messages, 1).value| == 6
  {
    var call := Message(Assistant, "", ["a", "b", "c"], "");
    messages := [call, Message(Tool, "x", [], "a"), Message(Tool, "y", [], "b"), Message(Tool, "z", [], "c")];
    assert Caller(messages, 0) == Some(0);
    assert Caller(messages, 1) == Some(0);
    assert Caller(messages, 2) == Some(0);
    assert Caller(messages, 3) == Some(0);
    assert Pending(messages, 0);
    assert SplitIndex(messages, 3) == 0 by {
      assert SplitIndex(messages, 1) == 0;
      assert SplitIndex(messages, 2) == 0;
    }
  }
}
