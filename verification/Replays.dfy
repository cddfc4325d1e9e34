/** Two replays of the same patches, one file at a time in memory and one proposal at a time on disk. Reading a text
    file translates its line ends; writing it, on POSIX, does not. */
module Replays {
  import opened Patches
  import opened Whitespace
  import opened Wrappers

  // ----- Text files -----

  /** How many characters are read as one: two for "\r\n". */
  function Unit(raw: string): (n: nat)
    requires raw != ""
    ensures 1 <= n <= |raw|
  {
    if raw[0] == '\r' && |raw| > 1 && raw[1] == '\n' then 2 else 1
  }

  /** `read_text`: "\r\n" and "\r" are read as "\n". */
  function Newlines(raw: string): string {
    if raw == "" then ""
    else [if raw[0] == '\r' then '\n' else raw[0]] + Newlines(raw[Unit(raw)..])
  }

  predicate HasReturn(text: string) {
    '\r' in text
  }

  lemma {:induction false} NewlinesHasNoReturn(raw: string)
    ensures !HasReturn(Newlines(raw))
    decreases |raw|
  {
    if raw != "" {
      NewlinesHasNoReturn(raw[Unit(raw)..]);
    }
  }

  /** What has been written reads back the same exactly if it holds no carriage return. */
  lemma {:induction false} ReadsBackIff(text: string)
    ensures Newlines(text) == text <==> !HasReturn(text)
    decreases |text|
  {
    NewlinesHasNoReturn(text);
    if text != "" && text[0] != '\r' {
      ReadsBackIff(text[1..]);
      assert text == [text[0]] + text[1..];
    }
  }

  /** No "\r\n" is cut between the texts. */
  predicate CutBetween(raw: string, more: string) {
    raw != "" && more != "" && raw[|raw| - 1] == '\r' && more[0] == '\n'
  }

  lemma {:induction false} UnitOfMore(raw: string, more: string)
    requires raw != "" && !CutBetween(raw, more)
    ensures Unit(raw + more) == Unit(raw) && (raw + more)[0] == raw[0]
    ensures !CutBetween(raw[Unit(raw)..], more)
  {
    assert |raw| == 1 && more != "" ==> (raw + more)[1] == more[0];
  }

  lemma {:induction false} NewlinesConcat(raw: string, more: string)
    requires !CutBetween(raw, more)
    ensures Newlines(raw + more) == Newlines(raw) + Newlines(more)
    decreases |raw|
  {
    var all := raw + more;
    if raw == "" {
      assert all == more;
    } else {
      var n := Unit(raw);
      UnitOfMore(raw, more);
      NewlinesConcat(raw[n..], more);
      assert all[n..] == raw[n..] + more;
      FirstThen([if raw[0] == '\r' then '\n' else raw[0]], Newlines(raw[n..]), Newlines(more));
    }
  }

  lemma {:induction false} FirstThen(first: string, a: string, b: string)
    ensures first + (a + b) == (first + a) + b
  {
  }

  /** Each "\r\n", and each "\r" that no "\n" follows, is read as one line end, whatever stands around it. */
  lemma {:induction false} LineEndsAreRead(before: string, more: string)
    ensures Newlines(before + ("\r\n" + more)) == Newlines(before) + ("\n" + Newlines(more))
    ensures more == "" || more[0] != '\n' ==>
      Newlines(before + ("\r" + more)) == Newlines(before) + ("\n" + Newlines(more))
  {
    var both, one := "\r\n" + more, "\r" + more;
    assert both[2..] == more && Newlines(both) == "\n" + Newlines(more);
    NewlinesConcat(before, both);
    if more == "" || more[0] != '\n' {
      assert one[1..] == more && Newlines(one) == "\n" + Newlines(more);
      NewlinesConcat(before, one);
    }
  }

  lemma {:induction false} NewlinesOfMore(raw: string, more: string)
    requires !HasReturn(more) && (more != "" ==> more[0] != '\n')
    ensures Newlines(raw + more) == Newlines(raw) + more
  {
    NewlinesConcat(raw, more);
    ReadsBackIff(more);
  }

  // ----- The two replays -----

  /** What an action asks for, after upper-casing; any other word writes the content like CREATE. */
  datatype Kind = Create | Modify | Delete | Other

  /** `patches` are the patch blocks found in `content`. */
  datatype Action = Action(path: string, kind: Kind, content: string, patches: seq<Patch>)
  {
    predicate IsPatching() { kind == Modify && patches != [] }
  }

  datatype Proposal =
    | Edit(path: string, search: string, replace: string)
    | Write(path: string, content: string)
    | Unsupported(path: string)

  /** The workspace: what its files hold on disk. */
  type Tree = map<string, string>

  /** Where a path resolves to, nothing if it escapes the workspace. */
  type Resolver = string -> Option<string>

  /** An action has written its file, has been refused before that, or has written it and read back something else. */
  datatype Outcome = Written(tree: Tree) | Refused | Mismatch(tree: Tree)

  /** What the per-file replay is to write, if anything. A missing file reads as empty. */
  function Updated(key: string, tree: Tree, action: Action): Option<string> {
    var original := if key in tree then Newlines(tree[key]) else "";
    var updated := if action.IsPatching() then PatchedAll(original, action.patches) else Some(action.content);
    if updated.Some? && Strip(updated.value) == "" then None else updated
  }

  /** One action of the per-file replay. A blank result is refused. */
  function WrittenOne(resolve: Resolver, strict: bool, tree: Tree, action: Action): Outcome {
    var key := resolve(action.path);
    if key.None? || action.kind == Delete || (action.kind == Create && key.value in tree && strict) then Refused
    else
      var updated := Updated(key.value, tree, action);
      if updated.None? then Refused
      else
        var after := tree[key.value := updated.value];
        if strict && Newlines(after[key.value]) != updated.value then Mismatch(after) else Written(after)
  }

  /** An action without patches writes its content, whatever the file held; only a blank content is refused, and a
      strict replay stops afterwards if the content holds a carriage return. */
  lemma {:induction false} ContentIsWritten(resolve: Resolver, strict: bool, tree: Tree, action: Action)
    requires resolve(action.path).Some? && action.kind != Delete && !action.IsPatching()
    requires action.kind == Create && strict ==> resolve(action.path).value !in tree
    ensures var after := tree[resolve(action.path).value := action.content];
      WrittenOne(resolve, strict, tree, action)
      == if Blank(action.content) then Refused
         else if strict && HasReturn(action.content) then Mismatch(after)
         else Written(after)
  {
    StripsToNothing(action.content);
    ReadsBackIff(action.content);
  }

  /** The tree after all actions have been written; nothing if one is not. */
  function WrittenAll(resolve: Resolver, strict: bool, tree: Tree, actions: seq<Action>): Option<Tree> {
    if actions == [] then Some(tree)
    else
      var before := WrittenAll(resolve, strict, tree, actions[..|actions| - 1]);
      if before.None? then None
      else
        var last := WrittenOne(resolve, strict, before.value, actions[|actions| - 1]);
        if last.Written? then Some(last.tree) else None
  }

  /** One proposal of the replay on disk. */
  function EditedOne(resolve: Resolver, tree: Tree, p: Proposal): Option<Tree> {
    var key := resolve(p.path);
    if key.None? || p.Unsupported? then None
    else if p.Write? then Some(tree[key.value := p.content])
    else if key.value !in tree then None
    else
      var updated := Patched(Newlines(tree[key.value]), Patch(p.search, p.replace));
      if updated.None? then None else Some(tree[key.value := updated.value])
  }

  function EditedAll(resolve: Resolver, tree: Tree, proposals: seq<Proposal>): Option<Tree> {
    if proposals == [] then Some(tree)
    else
      var before := EditedAll(resolve, tree, proposals[..|proposals| - 1]);
      if before.None? then None else EditedOne(resolve, before.value, proposals[|proposals| - 1])
  }

  /** The MODIFY branch of `_file_action_to_tool_calls`: one edit proposal a patch. */
  function ProposalsOf(action: Action): (r: seq<Proposal>)
    ensures |r| == |action.patches|
  {
    seq(|action.patches|, k requires 0 <= k < |action.patches| =>
      Edit(action.path, action.patches[k].search, action.patches[k].replace))
  }

  function AllProposals(actions: seq<Action>): seq<Proposal> {
    if actions == [] then []
    else AllProposals(actions[..|actions| - 1]) + ProposalsOf(actions[|actions| - 1])
  }

  lemma {:induction false} EditedAppend(resolve: Resolver, tree: Tree, a: seq<Proposal>, b: seq<Proposal>)
    ensures EditedAll(resolve, tree, a + b)
      == if EditedAll(resolve, tree, a).None? then None else EditedAll(resolve, EditedAll(resolve, tree, a).value, b)
    decreases |b|
  {
    if b == [] {
      assert a + b == a;
    } else {
      assert (a + b)[..|a + b| - 1] == a + b[..|b| - 1];
      EditedAppend(resolve, tree, a, b[..|b| - 1]);
    }
  }

  // ----- Carriage returns in replacements -----

  function Replacements(action: Action): (rs: seq<string>)
    ensures |rs| == |action.patches|
  {
    seq(|action.patches|, k requires 0 <= k < |action.patches| => action.patches[k].replace)
  }

  /** The file is read again, between the proposals, after every replacement but the last one. */
  predicate NothingReread(rs: seq<string>) {
    forall k :: 0 <= k < |rs| - 1 ==> !HasReturn(rs[k])
  }

  /** The last replacement stays in the file. */
  predicate ReturnAtEnd(rs: seq<string>) {
    rs != [] && HasReturn(rs[|rs| - 1])
  }

  lemma {:induction false} PatchedHasReturnIff(text: string, patch: Patch)
    requires Patched(text, patch).Some?
    ensures HasReturn(patch.replace) ==> HasReturn(Patched(text, patch).value)
    ensures !HasReturn(text) && !HasReturn(patch.replace) ==> !HasReturn(Patched(text, patch).value)
  {
    var at := Find(text, patch.search, 0).value;
    var result := text[..at] + patch.replace + text[at + |patch.search|..];
    assert Patched(text, patch).value == result;
    assert forall c :: c in patch.replace ==> c in result;
  }

  lemma {:induction false} PatchedAllHasNoReturn(text: string, patches: seq<Patch>)
    requires !HasReturn(text) && PatchedAll(text, patches).Some?
    requires forall k :: 0 <= k < |patches| ==> !HasReturn(patches[k].replace)
    ensures !HasReturn(PatchedAll(text, patches).value)
    decreases |patches|
  {
    if patches != [] {
      var n := |patches| - 1;
      PatchedAllHasNoReturn(text, patches[..n]);
      PatchedHasReturnIff(PatchedAll(text, patches[..n]).value, patches[n]);
    }
  }

  /** The result has a carriage return if the last replacement has one, and, if no earlier one has, only then. */
  lemma {:induction false} ReturnAtEndIff(text: string, action: Action)
    requires !HasReturn(text) && action.patches != [] && PatchedAll(text, action.patches).Some?
    ensures ReturnAtEnd(Replacements(action)) ==> HasReturn(PatchedAll(text, action.patches).value)
    ensures NothingReread(Replacements(action)) ==>
      (HasReturn(PatchedAll(text, action.patches).value) <==> ReturnAtEnd(Replacements(action)))
  {
    var n := |action.patches| - 1;
    var earlier := action.patches[..n];
    PatchedHasReturnIff(PatchedAll(text, earlier).value, action.patches[n]);
    if NothingReread(Replacements(action)) {
      forall k | 0 <= k < |earlier|
        ensures !HasReturn(earlier[k].replace)
      {
        assert Replacements(action)[k] == earlier[k].replace;
      }
      PatchedAllHasNoReturn(text, earlier);
    }
  }

  // ----- One action -----

  /** The first `n` proposals of an action do to its file what as many patches do to its text, as long as what is
      read again between them holds no carriage return. */
  lemma {:induction false} ProposalsPatch(resolve: Resolver, tree: Tree, action: Action, key: string, n: nat)
    requires 0 < n <= |action.patches| && resolve(action.path) == Some(key) && key in tree
    requires forall k :: 0 <= k < n - 1 ==> !HasReturn(action.patches[k].replace)
    ensures var updated := PatchedAll(Newlines(tree[key]), action.patches[..n]);
      EditedAll(resolve, tree, ProposalsOf(action)[..n])
        == if updated.None? then None else Some(tree[key := updated.value])
    decreases n
  {
    assert ProposalsOf(action)[..n][..n - 1] == ProposalsOf(action)[..n - 1];
    assert action.patches[..n][..n - 1] == action.patches[..n - 1];
    if n == 1 {
      assert action.patches[..0] == [] && ProposalsOf(action)[..0] == [];
    } else {
      ProposalsPatch(resolve, tree, action, key, n - 1);
      var before := PatchedAll(Newlines(tree[key]), action.patches[..n - 1]);
      if before.Some? {
        NewlinesHasNoReturn(tree[key]);
        PatchedAllHasNoReturn(Newlines(tree[key]), action.patches[..n - 1]);
        NextProposal(resolve, tree, action.path, key, before.value, action.patches[n - 1]);
      }
    }
  }

  lemma {:induction false} NextProposal(
      resolve: Resolver, tree: Tree, path: string, key: string, text: string, patch: Patch)
    requires resolve(path) == Some(key) && !HasReturn(text)
    ensures var updated := Patched(text, patch);
      EditedOne(resolve, tree[key := text], Edit(path, patch.search, patch.replace))
        == if updated.None? then None else Some(tree[key := updated.value])
  {
    ReadsBackIff(text);
    var updated := Patched(text, patch);
    assert updated.Some? ==> tree[key := text][key := updated.value] == tree[key := updated.value];
  }

  lemma {:induction false} EmptyTextIsNotPatched(patches: seq<Patch>)
    requires patches != []
    ensures PatchedAll("", patches).None?
    decreases |patches|
  {
    var n := |patches| - 1;
    if n == 0 {
      assert PatchedAll("", patches[..0]) == Some("");
      assert patches[0].search != "" ==> Count("", patches[0].search) == 0;
    } else {
      EmptyTextIsNotPatched(patches[..n]);
    }
  }

  lemma {:induction false} FirstProposalFails(resolve: Resolver, tree: Tree, action: Action)
    requires action.patches != []
    requires resolve(action.path).None? || resolve(action.path).value !in tree
    ensures EditedAll(resolve, tree, ProposalsOf(action)).None?
  {
    var ps := ProposalsOf(action);
    assert ps == [ps[0]] + ps[1..];
    EditedAppend(resolve, tree, [ps[0]], ps[1..]);
    assert EditedAll(resolve, tree, [ps[0]][..0]) == Some(tree);
  }

  /** What the per-file replay asks of an action and the proposals do not: that its file is not left blank. */
  predicate NotLeftBlank(resolve: Resolver, edited: Option<Tree>, action: Action) {
    var key := resolve(action.path);
    edited.Some? && key.Some? && key.value in edited.value ==> Strip(edited.value[key.value]) != ""
  }

  /** One action: the per-file replay succeeds exactly if its proposals do, they leave no blank file and, if it is
      strict, no carriage return; and then both give the same tree. */
  lemma {:induction false} OneActionAgrees(resolve: Resolver, strict: bool, tree: Tree, action: Action)
    requires action.IsPatching() && NothingReread(Replacements(action))
    ensures var edited := EditedAll(resolve, tree, ProposalsOf(action));
      var written := WrittenOne(resolve, strict, tree, action);
      && (written.Written? ==> edited == Some(written.tree))
      && (written.Written? <==>
           edited.Some? && NotLeftBlank(resolve, edited, action) && (strict ==> !ReturnAtEnd(Replacements(action))))
  {
    var key := resolve(action.path);
    if key.Some? && key.value in tree {
      ActionAgreesOnFile(resolve, strict, tree, action, key.value);
    } else {
      FirstProposalFails(resolve, tree, action);
      EmptyTextIsNotPatched(action.patches);
    }
  }

  lemma {:induction false} ActionAgreesOnFile(
      resolve: Resolver, strict: bool, tree: Tree, action: Action, key: string)
    requires action.IsPatching() && NothingReread(Replacements(action))
    requires resolve(action.path) == Some(key) && key in tree
    ensures var edited := EditedAll(resolve, tree, ProposalsOf(action));
      var written := WrittenOne(resolve, strict, tree, action);
      && (written.Written? ==> edited == Some(written.tree))
      && (written.Written? <==>
           edited.Some? && Strip(edited.value[key]) != "" && (strict ==> !ReturnAtEnd(Replacements(action))))
  {
    var n := |action.patches|;
    assert ProposalsOf(action)[..n] == ProposalsOf(action) && action.patches[..n] == action.patches;
    forall k | 0 <= k < n - 1
      ensures !HasReturn(action.patches[k].replace)
    {
      assert Replacements(action)[k] == action.patches[k].replace;
    }
    ProposalsPatch(resolve, tree, action, key, n);
    var updated := PatchedAll(Newlines(tree[key]), action.patches);
    if updated.Some? {
      NewlinesHasNoReturn(tree[key]);
      ReturnAtEndIff(Newlines(tree[key]), action);
      ReadsBackIff(updated.value);
    }
  }

  // ----- Lists of actions -----

  /** Actions with patch blocks, and the replacements of each. */
  predicate HasShape(actions: seq<Action>, shape: seq<seq<string>>) {
    && |actions| == |shape|
    && forall i :: 0 <= i < |actions| ==> actions[i].IsPatching() && Replacements(actions[i]) == shape[i]
  }

  predicate RereadFree(shape: seq<seq<string>>) {
    forall i :: 0 <= i < |shape| ==> NothingReread(shape[i])
  }

  predicate EndsFree(shape: seq<seq<string>>) {
    forall i :: 0 <= i < |shape| ==> !ReturnAtEnd(shape[i])
  }

  /** No action leaves its file blank, as the replay on disk goes along. */
  predicate LeavesNoBlank(resolve: Resolver, tree: Tree, actions: seq<Action>) {
    actions == [] ||
    var n := |actions| - 1;
    && LeavesNoBlank(resolve, tree, actions[..n])
    && NotLeftBlank(resolve, EditedAll(resolve, tree, AllProposals(actions)), actions[n])
  }

  /** If the per-file replay succeeds, so does the replay of the proposals, with the same tree; and it succeeds
      exactly if the proposals do, they leave no blank file and, if it is strict, no carriage return. */
  predicate Agree(resolve: Resolver, strict: bool, tree: Tree, actions: seq<Action>, shape: seq<seq<string>>) {
    var written, edited := WrittenAll(resolve, strict, tree, actions), EditedAll(resolve, tree, AllProposals(actions));
    && (written.Some? ==> edited == written)
    && (written.Some? <==> edited.Some? && LeavesNoBlank(resolve, tree, actions) && (strict ==> EndsFree(shape)))
  }

  /** The replays agree if no replacement that is read again by a later proposal of its action holds a carriage
      return. */
  lemma {:induction false} ReplaysAgree(
      resolve: Resolver, strict: bool, tree: Tree, actions: seq<Action>, shape: seq<seq<string>>)
    requires HasShape(actions, shape) && RereadFree(shape)
    ensures Agree(resolve, strict, tree, actions, shape)
    decreases |actions|
  {
    if actions != [] {
      ReplaysAgree(resolve, strict, tree, actions[..|actions| - 1], shape[..|actions| - 1]);
      OneMoreAgrees(resolve, strict, tree, actions, shape);
    }
  }

  lemma {:induction false} OneMoreAgrees(
      resolve: Resolver, strict: bool, tree: Tree, actions: seq<Action>, shape: seq<seq<string>>)
    requires HasShape(actions, shape) && RereadFree(shape) && actions != []
    requires var n := |actions| - 1; Agree(resolve, strict, tree, actions[..n], shape[..n])
    ensures Agree(resolve, strict, tree, actions, shape)
  {
    var n := |actions| - 1;
    var before, last := AllProposals(actions[..n]), ProposalsOf(actions[n]);
    EditedAppend(resolve, tree, before, last);
    assert AllProposals(actions) == before + last;
    var edited := EditedAll(resolve, tree, before);
    if edited.Some? {
      OneActionAgrees(resolve, strict, edited.value, actions[n]);
    }
    EndsFreeOfMore(shape);
  }

  lemma {:induction false} EndsFreeOfMore(shape: seq<seq<string>>)
    requires shape != []
    ensures var n := |shape| - 1; EndsFree(shape) <==> EndsFree(shape[..n]) && !ReturnAtEnd(shape[n])
  {
    assert shape == shape[..|shape| - 1] + [shape[|shape| - 1]];
  }

  /** A strict replay never gets past an action whose last replacement holds a carriage return. */
  lemma {:induction false} StrictStopsAtReturn(
      resolve: Resolver, tree: Tree, actions: seq<Action>, shape: seq<seq<string>>)
    requires HasShape(actions, shape) && !EndsFree(shape)
    ensures WrittenAll(resolve, true, tree, actions).None?
    decreases |actions|
  {
    var n := |actions| - 1;
    var before := WrittenAll(resolve, true, tree, actions[..n]);
    if !EndsFree(shape[..n]) {
      StrictStopsAtReturn(resolve, tree, actions[..n], shape[..n]);
    } else if before.Some? {
      assert shape == shape[..n] + [shape[n]];
      assert ReturnAtEnd(Replacements(actions[n]));
      StrictRefusesReturn(resolve, before.value, actions[n]);
    }
  }

  lemma {:induction false} StrictRefusesReturn(resolve: Resolver, tree: Tree, action: Action)
    requires action.IsPatching() && ReturnAtEnd(Replacements(action))
    ensures !WrittenOne(resolve, true, tree, action).Written?
  {
    var key := resolve(action.path);
    if key.Some? {
      var original := if key.value in tree then Newlines(tree[key.value]) else "";
      if key.value in tree {
        NewlinesHasNoReturn(tree[key.value]);
      }
      var updated := PatchedAll(original, action.patches);
      if updated.Some? {
        ReturnAtEndIff(original, action);
        ReadsBackIff(updated.value);
      }
    }
  }

  // ----- Other lists disagree on some file -----

  /** What stays at the end of the text: runs of one letter, each three times as long as the next. */
  ghost predicate Tails(tails: seq<string>) {
    && (forall k :: 0 <= k < |tails| ==> IsRun(tails[k]))
    && (forall k :: 0 <= k < |tails| - 1 ==> IsThrice(tails, k))
  }

  predicate IsRun(s: string) {
    s != "" && forall c :: c in s ==> c == 'b'
  }

  predicate IsThrice(tails: seq<string>, k: nat)
    requires k + 1 < |tails|
  {
    tails[k] == tails[k + 1] + tails[k + 1] + tails[k + 1]
  }

  lemma {:induction false} SomeTails(n: nat) returns (tails: seq<string>)
    ensures Tails(tails) && |tails| == n + 1
    decreases n
  {
    if n == 0 {
      tails := ["b"];
    } else {
      var shorter := SomeTails(n - 1);
      tails := [shorter[0] + shorter[0] + shorter[0]] + shorter;
      assert IsRun(shorter[0]);
      forall k | 0 <= k < |tails| - 1
        ensures IsThrice(tails, k)
      {
        assert k > 0 ==> IsThrice(shorter, k - 1);
      }
    }
  }

  /** The text in front of the tail after `n` replacements. */
  function Front(x: string, rs: seq<string>, n: nat): string
    requires n <= |rs|
  {
    if n == 0 then x else rs[n - 1]
  }

  /** Patches with the given replacements, each of which searches all of the text but the tail it leaves. The first
      tail it leaves comes after number `o`. */
  function PatchesFor(x: string, tails: seq<string>, o: nat, rs: seq<string>): (patches: seq<Patch>)
    requires o + |rs| < |tails|
    ensures |patches| == |rs|
  {
    seq(|rs|, k requires 0 <= k < |rs| => Patch(Front(x, rs, k) + tails[o + k + 1] + tails[o + k + 1], rs[k]))
  }

  lemma {:induction false} FrontIsPatched(
      before: string, patch: Patch, front: string, tail: string, after: string)
    requires tail != "" && before == front + (tail + tail + tail)
    requires patch.search == front + tail + tail && after == patch.replace + tail
    ensures Patched(before, patch) == Some(after)
  {
    var search := patch.search;
    assert before == search + tail;
    assert before[0..|search|] == search && before[|search|..] == tail;
    PatchedAt(before, patch, 0);
    assert before[..0] + patch.replace == patch.replace;
  }

  lemma {:induction false} OnePatchMore(text: string, patches: seq<Patch>, k: nat, before: string, after: string)
    requires k < |patches| && PatchedAll(text, patches[..k]) == Some(before)
    requires Patched(before, patches[k]) == Some(after)
    ensures PatchedAll(text, patches[..k + 1]) == Some(after)
  {
    assert patches[..k + 1][..k] == patches[..k];
  }

  /** The text after `n` patches. */
  function Stage(x: string, tails: seq<string>, o: nat, rs: seq<string>, n: nat): string
    requires n <= |rs| && o + |rs| < |tails|
  {
    Front(x, rs, n) + tails[o + n]
  }

  lemma {:induction false} PatchWorks(x: string, tails: seq<string>, o: nat, rs: seq<string>, k: nat)
    requires Tails(tails) && k < |rs| && o + |rs| < |tails|
    ensures Patched(Stage(x, tails, o, rs, k), PatchesFor(x, tails, o, rs)[k]) == Some(Stage(x, tails, o, rs, k + 1))
  {
    var tail := tails[o + k + 1];
    assert IsRun(tail) && IsThrice(tails, o + k);
    FrontIsPatched(Stage(x, tails, o, rs, k), PatchesFor(x, tails, o, rs)[k], Front(x, rs, k), tail, rs[k] + tail);
  }

  lemma {:induction false} PatchesWork(x: string, tails: seq<string>, o: nat, rs: seq<string>, n: nat)
    requires Tails(tails) && n <= |rs| && o + |rs| < |tails|
    ensures PatchedAll(x + tails[o], PatchesFor(x, tails, o, rs)[..n]) == Some(Stage(x, tails, o, rs, n))
    decreases n
  {
    if n > 0 {
      PatchesWork(x, tails, o, rs, n - 1);
      PatchWorks(x, tails, o, rs, n - 1);
      OnePatchMore(x + tails[o], PatchesFor(x, tails, o, rs), n - 1,
                   Stage(x, tails, o, rs, n - 1), Stage(x, tails, o, rs, n));
    }
  }

  function Size(shape: seq<seq<string>>): nat {
    if shape == [] then 0 else Size(shape[..|shape| - 1]) + |shape[|shape| - 1]|
  }

  /** What the last replacement of the last action was. */
  function Left(shape: seq<seq<string>>): string {
    if shape == [] || shape[|shape| - 1] == [] then ""
    else var rs := shape[|shape| - 1]; rs[|rs| - 1]
  }

  /** Actions on one file with these replacements. */
  function ActionsFor(tails: seq<string>, shape: seq<seq<string>>): (actions: seq<Action>)
    requires Size(shape) < |tails|
    ensures |actions| == |shape|
  {
    if shape == [] then []
    else
      var earlier := shape[..|shape| - 1];
      ActionsFor(tails, earlier)
      + [Action("f", Modify, "", PatchesFor(Newlines(Left(earlier)), tails, Size(earlier), shape[|shape| - 1]))]
  }

  lemma {:induction false} ReplacementsFor(x: string, tails: seq<string>, o: nat, rs: seq<string>)
    requires o + |rs| < |tails|
    ensures Replacements(Action("f", Modify, "", PatchesFor(x, tails, o, rs))) == rs
  {
  }

  lemma {:induction false} ShapeOfMore(
      actions: seq<Action>, shape: seq<seq<string>>, action: Action, rs: seq<string>)
    requires HasShape(actions, shape) && action.IsPatching() && Replacements(action) == rs
    ensures HasShape(actions + [action], shape + [rs])
  {
  }

  lemma {:induction false} ActionsHaveShape(tails: seq<string>, shape: seq<seq<string>>)
    requires Size(shape) < |tails| && forall i :: 0 <= i < |shape| ==> shape[i] != []
    ensures HasShape(ActionsFor(tails, shape), shape)
    decreases |shape|
  {
    if shape != [] {
      var earlier, rs := shape[..|shape| - 1], shape[|shape| - 1];
      var x := Newlines(Left(earlier));
      ActionsHaveShape(tails, earlier);
      ReplacementsFor(x, tails, Size(earlier), rs);
      ShapeOfMore(ActionsFor(tails, earlier), earlier,
                  Action("f", Modify, "", PatchesFor(x, tails, Size(earlier), rs)), rs);
      assert shape == earlier + [rs];
    }
  }

  const HERE: Resolver := path => Some(path)

  lemma {:induction false} OneActionMore(strict: bool, tree: Tree, actions: seq<Action>, before: Tree, after: Tree)
    requires actions != [] && WrittenAll(HERE, strict, tree, actions[..|actions| - 1]) == Some(before)
    requires WrittenOne(HERE, strict, before, actions[|actions| - 1]) == Written(after)
    ensures WrittenAll(HERE, strict, tree, actions) == Some(after)
  {
  }

  /** A workspace of one file. */
  function Single(text: string): Tree {
    map["f" := text]
  }

  /** What the actions leave. */
  function End(tails: seq<string>, shape: seq<seq<string>>): Tree
    requires Size(shape) < |tails|
  {
    Single(Left(shape) + tails[Size(shape)])
  }

  /** The per-file replay performs them all. */
  lemma {:induction false} ActionsWork(strict: bool, tails: seq<string>, shape: seq<seq<string>>)
    requires Tails(tails) && Size(shape) < |tails|
    requires (forall i :: 0 <= i < |shape| ==> shape[i] != []) && (strict ==> EndsFree(shape))
    ensures WrittenAll(HERE, strict, Single(tails[0]), ActionsFor(tails, shape)) == Some(End(tails, shape))
    decreases |shape|
  {
    if shape != [] {
      var n := |shape| - 1;
      var actions := ActionsFor(tails, shape);
      assert actions[..n] == ActionsFor(tails, shape[..n]);
      ActionsWork(strict, tails, shape[..n]);
      ActionWorks(strict, tails, shape);
      OneActionMore(strict, Single(tails[0]), actions, End(tails, shape[..n]), End(tails, shape));
    } else {
      assert Left(shape) + tails[0] == tails[0];
    }
  }

  lemma {:induction false} ActionWorks(strict: bool, tails: seq<string>, shape: seq<seq<string>>)
    requires Tails(tails) && Size(shape) < |tails| && shape != [] && shape[|shape| - 1] != []
    requires strict ==> !ReturnAtEnd(shape[|shape| - 1])
    ensures var n := |shape| - 1;
      WrittenOne(HERE, strict, End(tails, shape[..n]), ActionsFor(tails, shape)[n]) == Written(End(tails, shape))
  {
    var earlier, rs := shape[..|shape| - 1], shape[|shape| - 1];
    var o, left := Size(earlier), Left(earlier);
    var x, action := Newlines(left), ActionsFor(tails, shape)[|shape| - 1];
    assert action == Action("f", Modify, "", PatchesFor(x, tails, o, rs));
    assert IsRun(tails[o]) && tails[o][0] in tails[o];
    NewlinesOfMore(left, tails[o]);
    PatchesWork(x, tails, o, rs, |rs|);
    assert PatchesFor(x, tails, o, rs)[..|rs|] == action.patches;
    StageEnds(x, tails, o, rs);
    EndIsStage(tails, shape, x);
    WritesResult(strict, left + tails[o], action, Stage(x, tails, o, rs, |rs|));
  }

  lemma {:induction false} EndIsStage(tails: seq<string>, shape: seq<seq<string>>, x: string)
    requires Size(shape) < |tails| && shape != [] && shape[|shape| - 1] != []
    ensures var o, rs := Size(shape[..|shape| - 1]), shape[|shape| - 1];
      End(tails, shape) == Single(Stage(x, tails, o, rs, |rs|))
  {
  }

  lemma {:induction false} StageEnds(x: string, tails: seq<string>, o: nat, rs: seq<string>)
    requires Tails(tails) && rs != [] && o + |rs| < |tails|
    ensures Strip(Stage(x, tails, o, rs, |rs|)) != ""
    ensures HasReturn(Stage(x, tails, o, rs, |rs|)) ==> ReturnAtEnd(rs)
  {
    var tail := tails[o + |rs|];
    assert IsRun(tail) && tail[0] in tail && tail[0] in Stage(x, tails, o, rs, |rs|);
    StripsToNothing(Stage(x, tails, o, rs, |rs|));
  }

  lemma {:induction false} WritesResult(strict: bool, raw: string, action: Action, result: string)
    requires action.path == "f" && action.IsPatching()
    requires PatchedAll(Newlines(raw), action.patches) == Some(result)
    requires Strip(result) != "" && (strict ==> !HasReturn(result))
    ensures WrittenOne(HERE, strict, Single(raw), action) == Written(Single(result))
  {
    assert strict ==> Newlines(result) == result by {
      ReadsBackIff(result);
    }
    assert Updated("f", Single(raw), action) == Some(result);
    assert Single(raw)["f" := result] == Single(result);
  }

  /** A search text with a carriage return is never found on disk. */
  lemma {:induction false} ReturnIsNotFound(resolve: Resolver, tree: Tree, p: Proposal)
    requires p.Edit? && HasReturn(p.search)
    ensures EditedOne(resolve, tree, p).None?
  {
    var key := resolve(p.path);
    if key.Some? && key.value in tree {
      var text := Newlines(tree[key.value]);
      NewlinesHasNoReturn(tree[key.value]);
      var k :| 0 <= k < |p.search| && p.search[k] == '\r';
      forall i: nat
        ensures !OccursAt(text, p.search, i)
      {
        if i + |p.search| <= |text| {
          assert text[i + k] == text[i..i + |p.search|][k] && text[i + k] in text;
        }
      }
      assert Count(text, p.search) == 0;
    }
  }

  lemma {:induction false} EditingStops(resolve: Resolver, tree: Tree, proposals: seq<Proposal>, p: Proposal)
    requires p in proposals && p.Edit? && HasReturn(p.search)
    ensures EditedAll(resolve, tree, proposals).None?
    decreases |proposals|
  {
    var n := |proposals| - 1;
    assert proposals == proposals[..n] + [proposals[n]];
    if p in proposals[..n] {
      EditingStops(resolve, tree, proposals[..n], p);
    } else {
      var before := EditedAll(resolve, tree, proposals[..n]);
      if before.Some? {
        ReturnIsNotFound(resolve, before.value, p);
      }
    }
  }

  lemma {:induction false} AllProposalsHold(actions: seq<Action>, i: nat, k: nat)
    requires i < |actions| && k < |actions[i].patches|
    ensures ProposalsOf(actions[i])[k] in AllProposals(actions)
    decreases |actions|
  {
    var n := |actions| - 1;
    if i < n {
      AllProposalsHold(actions[..n], i, k);
    }
  }

  lemma {:induction false} ActionIsFor(tails: seq<string>, shape: seq<seq<string>>, i: nat)
    requires Size(shape) < |tails| && i < |shape|
    ensures Size(shape[..i]) + |shape[i]| < |tails|
    ensures ActionsFor(tails, shape)[i].patches
      == PatchesFor(Newlines(Left(shape[..i])), tails, Size(shape[..i]), shape[i])
    decreases |shape|
  {
    var n := |shape| - 1;
    if i < n {
      ActionIsFor(tails, shape[..n], i);
      assert shape[..n][..i] == shape[..i];
    }
  }

  /** The replay of their proposals fails if some replacement that is read again holds a carriage return. */
  lemma {:induction false} ProposalsFail(tails: seq<string>, shape: seq<seq<string>>, tree: Tree)
    requires Size(shape) < |tails| && !RereadFree(shape)
    ensures EditedAll(HERE, tree, AllProposals(ActionsFor(tails, shape))).None?
  {
    var i :| 0 <= i < |shape| && !NothingReread(shape[i]);
    var k :| 0 <= k < |shape[i]| - 1 && HasReturn(shape[i][k]);
    var actions := ActionsFor(tails, shape);
    ActionIsFor(tails, shape, i);
    AllProposalsHold(actions, i, k + 1);
    var search := actions[i].patches[k + 1].search;
    assert forall c :: c in shape[i][k] ==> c in search;
    EditingStops(HERE, tree, AllProposals(actions), ProposalsOf(actions[i])[k + 1]);
  }

  /** Whatever the files, paths and search texts, the replays agree on actions with these replacements. */
  ghost predicate AlwaysAgree(strict: bool, shape: seq<seq<string>>) {
    forall resolve: Resolver, tree: Tree, actions: seq<Action> ::
      HasShape(actions, shape) ==> Agree(resolve, strict, tree, actions, shape)
  }

  /** The replays agree on all files exactly if no replacement but the last of its action holds a carriage return,
      or, for the strict replay, if some last one does, at which it always fails. */
  lemma {:induction false} AlwaysAgreeIff(strict: bool, shape: seq<seq<string>>)
    requires forall i :: 0 <= i < |shape| ==> shape[i] != []
    ensures AlwaysAgree(strict, shape) <==> RereadFree(shape) || (strict && !EndsFree(shape))
  {
    if RereadFree(shape) || (strict && !EndsFree(shape)) {
      forall resolve: Resolver, tree: Tree, actions: seq<Action> | HasShape(actions, shape)
        ensures Agree(resolve, strict, tree, actions, shape)
      {
        if RereadFree(shape) {
          ReplaysAgree(resolve, strict, tree, actions, shape);
        } else {
          StrictStopsAtReturn(resolve, tree, actions, shape);
        }
      }
    } else {
      var tails := SomeTails(Size(shape));
      var tree := Single(tails[0]);
      ActionsHaveShape(tails, shape);
      ActionsWork(strict, tails, shape);
      ProposalsFail(tails, shape, tree);
      assert !Agree(HERE, strict, tree, ActionsFor(tails, shape), shape);
    }
  }

  // ----- Two files on which they disagree -----

  lemma {:induction false} TwoPatches(text: string, a: Patch, b: Patch, middle: string, end: string)
    requires Patched(text, a) == Some(middle) && Patched(middle, b) == Some(end)
    ensures PatchedAll(text, [a, b]) == Some(end)
  {
    assert [a, b][..1] == [a] && [a][..0] == [];
    assert PatchedAll(text, []) == Some(text);
    assert PatchedAll(text, [a]) == Some(middle);
  }

  lemma {:induction false} OneWritten(resolve: Resolver, strict: bool, tree: Tree, action: Action)
    ensures var written := WrittenOne(resolve, strict, tree, action);
      WrittenAll(resolve, strict, tree, [action]) == if written.Written? then Some(written.tree) else None
  {
    assert [action][..0] == [] && WrittenAll(resolve, strict, tree, []) == Some(tree);
  }

  lemma {:induction false} TwoEdited(resolve: Resolver, tree: Tree, action: Action, middle: Tree)
    requires |action.patches| == 2 && EditedOne(resolve, tree, ProposalsOf(action)[0]) == Some(middle)
    ensures EditedAll(resolve, tree, AllProposals([action])) == EditedOne(resolve, middle, ProposalsOf(action)[1])
  {
    var ps := ProposalsOf(action);
    assert [action][..0] == [] && AllProposals([]) == [] && AllProposals([action]) == [] + ps == ps;
    assert ps[..1] == [ps[0]] && ps[..1][..0] == [];
    assert EditedAll(resolve, tree, ps[..1][..0]) == Some(tree);
    assert EditedAll(resolve, tree, ps[..1]) == Some(middle);
  }

  lemma {:induction false} WholeIsPatched(text: string, patch: Patch)
    requires text != "" && patch.search == text
    ensures Patched(text, patch) == Some(patch.replace)
  {
    assert text[0..|text|] == text;
    PatchedAt(text, patch, 0);
    assert text[..0] + patch.replace + text[|text|..] == patch.replace;
  }

  /** Text `b` has a carriage return, as has "b\r\n", and replaces `a`; then `c` replaces `b`. In memory that succeeds,
      even if the replay is strict; on disk `b` is not found again. */
  lemma {:induction false} ReturnStopsProposals(strict: bool, a: string, b: string, c: string) returns (action: Action)
    requires a != "" && !HasReturn(a) && HasReturn(b) && !HasReturn(c) && Strip(c) != ""
    ensures action == Action("f", Modify, "", [Patch(a, b), Patch(b, c)])
    ensures WrittenAll(HERE, strict, Single(a), [action]) == Some(Single(c))
    ensures EditedAll(HERE, Single(a), AllProposals([action])).None?
  {
    action := Action("f", Modify, "", [Patch(a, b), Patch(b, c)]);
    WholeIsPatched(a, Patch(a, b));
    WholeIsPatched(b, Patch(b, c));
    TwoPatches(a, Patch(a, b), Patch(b, c), b, c);
    ReadsBackIff(a);
    WritesResult(strict, a, action, c);
    OneWritten(HERE, strict, Single(a), action);
    AllProposalsHold([action], 0, 1);
    EditingStops(HERE, Single(a), AllProposals([action]), ProposalsOf(action)[1]);
  }

  lemma {:induction false} CharIsPatched(text: string, i: nat, replacement: string)
    requires i < |text| && forall j :: 0 <= j < |text| && j != i ==> text[j] != text[i]
    ensures Patched(text, Patch([text[i]], replacement)) == Some(text[..i] + replacement + text[i + 1..])
  {
    var search := [text[i]];
    assert |search| == 1 && text[i..i + 1] == search && OccursAt(text, search, i);
    forall j: nat | OccursAt(text, search, j)
      ensures j == i
    {
      assert text[j..j + 1][0] == text[j];
    }
    assert Find(text, search, 0) == Some(i);
    CountIsOneIff(text, search);
  }

  /** A text with a carriage return replaces the first of two characters; then the second one is replaced. Both replays
      succeed and leave different files. */
  lemma {:induction false} ReturnIsTranslated(a: char, b: char, x: string, y: string) returns (action: Action)
    requires a != b && a != '\r' && b != '\r' && b != '\n'
    requires HasReturn(x) && b !in x && Strip(y) != ""
    ensures action == Action("f", Modify, "", [Patch([a], x), Patch([b], y)])
    ensures WrittenAll(HERE, false, Single([a, b]), [action]) == Some(Single(x + y))
    ensures EditedAll(HERE, Single([a, b]), AllProposals([action])) == Some(Single(Newlines(x) + y))
    ensures Newlines(x) + y != x + y
  {
    action := Action("f", Modify, "", [Patch([a], x), Patch([b], y)]);
    ReadsBackIff([a, b]);
    BothArePatched(a, b, x, y);
    TwoPatches([a, b], Patch([a], x), Patch([b], y), x + [b], x + y);
    StaysVisible(x, y);
    WritesResult(false, [a, b], action, x + y);
    OneWritten(HERE, false, Single([a, b]), action);
    TranslatedOnDisk(action, a, b, x, y);
    ReadsBackIff(x);
    CancelsRight(Newlines(x), x, y);
  }

  lemma {:induction false} TranslatedOnDisk(action: Action, a: char, b: char, x: string, y: string)
    requires a != b && a != '\r' && b != '\r' && b != '\n' && b !in x
    requires action == Action("f", Modify, "", [Patch([a], x), Patch([b], y)])
    ensures EditedAll(HERE, Single([a, b]), AllProposals([action])) == Some(Single(Newlines(x) + y))
  {
    ReadsBackIff([a, b]);
    BothArePatched(a, b, x, y);
    NewlinesOfMore(x, [b]);
    NewlinesHas(x, b);
    LastIsPatched(Newlines(x), b, y);
    EditsResult([a, b], ProposalsOf(action)[0], x + [b]);
    EditsResult(x + [b], ProposalsOf(action)[1], Newlines(x) + y);
    TwoEdited(HERE, Single([a, b]), action, Single(x + [b]));
  }

  lemma {:induction false} EditsResult(raw: string, p: Proposal, result: string)
    requires p.Edit? && p.path == "f" && Patched(Newlines(raw), Patch(p.search, p.replace)) == Some(result)
    ensures EditedOne(HERE, Single(raw), p) == Some(Single(result))
  {
    assert Single(raw)["f" := result] == Single(result);
  }

  lemma {:induction false} NewlinesHas(raw: string, c: char)
    requires c !in raw && c != '\n'
    ensures c !in Newlines(raw)
    decreases |raw|
  {
    if raw != "" {
      NewlinesHas(raw[Unit(raw)..], c);
    }
  }

  lemma {:induction false} LastIsPatched(text: string, c: char, replacement: string)
    requires c !in text
    ensures Patched(text + [c], Patch([c], replacement)) == Some(text + replacement)
  {
    var all := text + [c];
    assert forall j :: 0 <= j < |text| ==> all[j] in text;
    CharIsPatched(all, |text|, replacement);
    assert all[..|text|] + replacement + all[|text| + 1..] == text + replacement;
  }

  lemma {:induction false} BothArePatched(a: char, b: char, x: string, y: string)
    requires a != b && b !in x
    ensures Patched([a, b], Patch([a], x)) == Some(x + [b])
    ensures Patched(x + [b], Patch([b], y)) == Some(x + y)
  {
    CharIsPatched([a, b], 0, x);
    assert [a, b][..0] + x + [a, b][1..] == x + [b];
    LastIsPatched(x, b, y);
  }

  lemma {:induction false} StaysVisible(x: string, y: string)
    requires Strip(y) != ""
    ensures Strip(x + y) != ""
  {
    StripsToNothing(y);
    StripsToNothing(x + y);
    var c :| c in y && !IsSpace(c);
    assert c in x + y;
  }

  lemma {:induction false} CancelsRight(a: string, b: string, more: string)
    ensures a + more == b + more <==> a == b
  {
    if a + more == b + more {
      assert a == (a + more)[..|a|] && b == (b + more)[..|b|];
    }
  }

  /** The replay on disk accepts a patch that empties a file; the per-file replay refuses it. */
  lemma {:induction false} BlankResultIsRefused(resolve: Resolver, strict: bool, path: string, raw: string)
    returns (action: Action)
    requires resolve(path) == Some(path) && raw != ""
    ensures action.IsPatching()
    ensures WrittenAll(resolve, strict, map[path := raw], [action]).None?
    ensures EditedAll(resolve, map[path := raw], AllProposals([action])) == Some(map[path := ""])
  {
    var patch := Patch(Newlines(raw), "");
    action := Action(path, Modify, "", [patch]);
    WholeIsPatched(Newlines(raw), patch);
    var tree: Tree := map[path := raw];
    assert [patch][..0] == [] && PatchedAll(Newlines(raw), [patch][..0]) == Some(Newlines(raw));
    assert PatchedAll(Newlines(raw), [patch]) == Some("");
    OneWritten(resolve, strict, tree, action);
    ProposalsPatch(resolve, tree, action, path, 1);
    assert [patch][..1] == [patch] && ProposalsOf(action)[..1] == ProposalsOf(action);
    assert [action][..0] == [] && AllProposals([action]) == ProposalsOf(action);
    assert tree[path := ""] == map[path := ""];
  }

  // ----- The replays as they run, updating the tree file by file -----

  /** The paths of the proposals in order of first occurrence. */
  function SourcePaths(proposals: seq<Proposal>): seq<string> {
    if proposals == [] then []
    else
      var before := SourcePaths(proposals[..|proposals| - 1]);
      var path := proposals[|proposals| - 1].path;
      if path in before then before else before + [path]
  }

  predicate Once(paths: seq<string>) {
    forall j, k :: 0 <= j < k < |paths| ==> paths[j] != paths[k]
  }

  lemma {:induction false} SourcePathsOnce(proposals: seq<Proposal>)
    ensures Once(SourcePaths(proposals))
    ensures forall p :: p in SourcePaths(proposals) <==> exists q :: q in proposals && q.path == p
    decreases |proposals|
  {
    if proposals != [] {
      var earlier, last := proposals[..|proposals| - 1], proposals[|proposals| - 1];
      SourcePathsOnce(earlier);
      assert proposals == earlier + [last];
    }
  }

  lemma {:induction false} OneMoreWritten(
      resolve: Resolver, strict: bool, tree: Tree, actions: seq<Action>, i: nat, before: Tree)
    requires i < |actions| && WrittenAll(resolve, strict, tree, actions[..i]) == Some(before)
    ensures var last := WrittenOne(resolve, strict, before, actions[i]);
      WrittenAll(resolve, strict, tree, actions[..i + 1]) == if last.Written? then Some(last.tree) else None
  {
    assert actions[..i + 1][..i] == actions[..i];
  }

  lemma {:induction false} OneMoreEdited(
      resolve: Resolver, tree: Tree, proposals: seq<Proposal>, i: nat, before: Tree)
    requires i < |proposals| && EditedAll(resolve, tree, proposals[..i]) == Some(before)
    ensures EditedAll(resolve, tree, proposals[..i + 1]) == EditedOne(resolve, before, proposals[i])
    ensures SourcePaths(proposals[..i + 1]) ==
      var paths := SourcePaths(proposals[..i]);
      if proposals[i].path in paths then paths else paths + [proposals[i].path]
  {
    assert proposals[..i + 1][..i] == proposals[..i];
  }

  /** What stays on disk after an action. */
  function OnDisk(outcome: Outcome, before: Tree): Tree {
    if outcome.Refused? then before else outcome.tree
  }

  /** The files of the actions. */
  predicate Resolved(resolve: Resolver, actions: seq<Action>, names: seq<string>) {
    |names| == |actions| && forall k :: 0 <= k < |actions| ==> resolve(actions[k].path) == Some(names[k])
  }

  lemma {:induction false} OneMoreResolved(
      resolve: Resolver, actions: seq<Action>, i: nat, names: seq<string>, name: string)
    requires i < |actions| && Resolved(resolve, actions[..i], names) && resolve(actions[i].path) == Some(name)
    ensures Resolved(resolve, actions[..i + 1], names + [name])
  {
    assert actions[..i + 1] == actions[..i] + [actions[i]];
  }

  class Workspace {
    const resolve: Resolver
    var tree: Tree

    constructor (resolve: Resolver, tree: Tree)
      ensures this.resolve == resolve && this.tree == tree
    {
      this.resolve, this.tree := resolve, tree;
    }

    /** `write_files`: nothing on an error. The actions before the failing one stay written, and so does its own file if
        it failed only at reading it back. */
    method WriteFiles(actions: seq<Action>, strict: bool)
      returns (written: Option<seq<string>>, ghost done: nat, ghost before: Tree)
      modifies this
      ensures done <= |actions| && WrittenAll(resolve, strict, old(tree), actions[..done]) == Some(before)
      ensures written.Some? <==> done == |actions|
      ensures done == |actions| ==> tree == before
      ensures done < |actions| ==> var failed := WrittenOne(resolve, strict, before, actions[done]);
        !failed.Written? && tree == OnDisk(failed, before)
      ensures written.Some? ==> Resolved(resolve, actions, written.value)
    {
      var names: seq<string> := [];
      for i := 0 to |actions|
        invariant WrittenAll(resolve, strict, old(tree), actions[..i]) == Some(tree)
        invariant Resolved(resolve, actions[..i], names)
      {
        done, before := i, tree;
        var name := WriteFile(actions[i], strict);
        if name.None? {
          return None, done, before;
        }
        OneMoreWritten(resolve, strict, old(tree), actions, i, before);
        OneMoreResolved(resolve, actions, i, names, name.value);
        names := names + [name.value];
      }
      assert actions[..|actions|] == actions;
      written, done, before := Some(names), |actions|, tree;
    }

    /** The body of the loop: the file written, or nothing. */
    method WriteFile(action: Action, strict: bool) returns (name: Option<string>)
      modifies this
      ensures var outcome := WrittenOne(resolve, strict, old(tree), action);
        && (name.Some? <==> outcome.Written?)
        && (name.Some? ==> resolve(action.path) == name)
        && tree == OnDisk(outcome, old(tree))
    {
      var key := resolve(action.path);
      if key.None? || action.kind == Delete || (action.kind == Create && key.value in tree && strict) {
        return None;
      }
      var updated := if key.value in tree then Newlines(tree[key.value]) else "";
      if action.kind == Modify && action.patches != [] {
        var patched := ApplyPatches(updated, action.patches);
        if patched.None? {
          return None;
        }
        updated := patched.value;
      } else {
        updated := action.content;
      }
      if Strip(updated) == "" {
        return None;
      }
      tree := tree[key.value := updated];
      if strict && Newlines(tree[key.value]) != updated {
        return None;
      }
      name := key;
    }

    /** The loop over the patch blocks of one file. */
    method ApplyPatches(text: string, patches: seq<Patch>) returns (r: Option<string>)
      ensures r == PatchedAll(text, patches)
    {
      var updated := text;
      for k := 0 to |patches|
        invariant PatchedAll(text, patches[..k]) == Some(updated)
      {
        var patch := patches[k];
        assert patches[..k + 1][..k] == patches[..k];
        if patch.search == "" || Count(updated, patch.search) != 1 {
          PatchingStops(text, patches, k + 1);
          return None;
        }
        updated := ReplaceFirst(updated, patch.search, patch.replace);
      }
      assert patches[..|patches|] == patches;
      r := Some(updated);
    }

    /** `_materialize_proposals`: the source paths replayed, each once, and whether a proposal failed. */
    method MaterializeProposals(proposals: seq<Proposal>)
      returns (materialized: seq<string>, failed: bool, ghost done: nat)
      modifies this
      ensures done <= |proposals| && (failed <==> done < |proposals|)
      ensures EditedAll(resolve, old(tree), proposals[..done]) == Some(tree)
      ensures failed ==> EditedOne(resolve, tree, proposals[done]).None?
      ensures materialized == SourcePaths(proposals[..done])
    {
      materialized := [];
      for i := 0 to |proposals|
        invariant EditedAll(resolve, old(tree), proposals[..i]) == Some(tree)
        invariant materialized == SourcePaths(proposals[..i])
      {
        done := i;
        ghost var before := tree;
        var ok := Materialize(proposals[i]);
        if !ok {
          return materialized, true, done;
        }
        OneMoreEdited(resolve, old(tree), proposals, i, before);
        if proposals[i].path !in materialized {
          materialized := materialized + [proposals[i].path];
        }
      }
      assert proposals[..|proposals|] == proposals;
      failed, done := false, |proposals|;
    }

    /** The body of the loop: one proposal replayed, or no change. */
    method Materialize(proposal: Proposal) returns (ok: bool)
      modifies this
      ensures ok ==> EditedOne(resolve, old(tree), proposal) == Some(tree)
      ensures !ok ==> tree == old(tree) && EditedOne(resolve, tree, proposal).None?
    {
      var key := resolve(proposal.path);
      if key.None? || proposal.Unsupported? || (proposal.Edit? && key.value !in tree) {
        return false;
      }
      if proposal.Write? {
        tree := tree[key.value := proposal.content];
        return true;
      }
      var original := Newlines(tree[key.value]);
      if proposal.search == "" || Count(original, proposal.search) != 1 {
        return false;
      }
      tree := tree[key.value := ReplaceFirst(original, proposal.search, proposal.replace)];
      return true;
    }
  }
}
