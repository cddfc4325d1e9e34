# Verified model of the Noryx agent runtime

This project models the parts of the Noryx coding-agent runtime that carry state, protocol or arithmetic invariants,
and proves what those parts promise. It is written in Dafny 4.11; `dafny verify dfyconfig.toml` checks all of it.

| file | part of the system |
|---|---|
| `Planning.dfy` | execution plans: dependency graphs, their generation, the prologue step, the next step |
| `PlanRuns.dfy` | the state changes of a plan as a transition system, safety over every run, resumed plans |
| `DriverLoop.dfy` | the loop that drives a plan as a relation between iterations: its measure, and when it never ends |
| `Driver.dfy` | the planner's mutable plan and that loop as code, under one model-turn budget |
| `SideSteps.dfy` | when a hosted turn can complete a step other than the running one |
| `Mutation.dfy` | the compare-and-replace file writer as atomic steps of interleaved calls and an outside writer |
| `History.dfy`, `SharedSlots.dfy` | undo as the inverse of tracked writes, crashes, transactions; sessions whose slots repeat |
| `Sessions.dfy` | recorded commands, and every run of tracked writes, commands, undos and rollbacks |
| `FileHistory.dfy` | the history object, and its list in memory against the durable one over any calls |
| `Budget.dfy` | reservation before a hosted call, accounting after it, streams |
| `Framing.dfy` | the language-server frame format and its reader |
| `RequestIds.dfy`, `ResponseRouting.dfy` | how concurrent requests number themselves and how responses reach them, as atomic steps |
| `LspClient.dfy` | the client object: a request and the reader loop, with other threads' steps between their own |
| `Compaction.dfy` | conversation compaction |
| `Patches.dfy`, `Replays.dfy` | counting and replacing text; two replays of the same patches, through files whose line ends are translated |
| `Encoding.dfy` | the byte strings that stand for a directory before hashing |
| `KeyPool.dfy` | the round-robin pool of API keys |
| `Router.dfy` | candidate filtering, scoring and the routing decision |
| `Qualification.dfy`, `ReportedRuns.dfy` | the superiority gate over benchmark reports; what qualifies, in numbers of reported results |
| `Campaigns.dfy` | which campaigns pass the gate |
| `Wrappers.dfy`, `Decimal.dfy`, `Whitespace.dfy` | option and result types; decimal notation; `str.strip` |

Code that updates state in place is modelled by classes and methods with loops, each proved equal to a specification
function or predicate. What the source promises is then proved of those functions and of every run. Concurrency is
modelled by atomic steps in any order. A hosted turn is an environment that may do anything `DriverLoop.TurnMay` allows,
and may also be silent: a cancelled turn leaves the plan alone and reports nothing the loop looks for. Only the loop's
termination depends on how many turns are silent; that is a parameter of the methods, any number.

## What the code does not do

Some expected properties do not hold of the code. The model follows the code, and states exactly when they hold.

- The driver's loop does not notice a cancelled run (nexus/agent/core.py:2084-2087, nexus/pipeline.py:686-880). It can
  go on for ever from exactly those points at which it is about to run a turn, and if it does, every turn from some
  point on is silent (`DriverLoop.CancelledLoopIsEndlessIff`, `DriverLoop.EndlessIsSilent`). An iteration changes
  nothing if and only if it took up a running step and its turn was silent; every other one lowers the measure
  (`DriverLoop.IterationIsIdleIff`).
- The retry limit does not bound the starts of a step over the life of its plan. Resuming makes a failed step pending
  and keeps its attempts (nexus/agent/core.py:2395-2400), so each resumption allows one start more
  (`PlanRuns.LifeLimitHolds`). One run starts a step at most max(1, retry_limit + 1 - attempts) times
  (`PlanRuns.StartsAreBounded`), and that many starts do occur (`PlanRuns.StartLimitIsReached`).
- In a plan generated from contracts, integration waits directly for every subsystem if and only if no name is given
  twice (`Planning.IntegrationWaitsForAll`). It still reaches all of them, directly or not, if and only if each contract
  whose name is given again later was depended on before that (`Planning.IntegrationReachesAllIff`). The only caller,
  `_build_system_blueprint` (nexus/planner.py:904-1068), gives distinct names.
- The local-fallback path inside a hosted turn completes the plan's *next* step, which need not be the running one. A
  fresh plan never comes to that if and only if each step depends directly on the one before it
  (`SideSteps.HasNoSideStepIff`). Chained plans are such plans; a massive plan with two independent subsystems is not,
  and there the step completed was never started (`SideSteps.IndependentSubsystemsHaveSideStep`).
- A writer that expects a file to be absent, alone and with nothing else failing, succeeds if and only if there is no
  directory to create the file in; otherwise its own `O_CREAT` open makes it fail as stale and leaves an empty file
  (`Mutation.AbsentWriteSucceedsIff`, a case of `Mutation.LoneWriteSucceedsIff`). In every schedule without an outside
  writer such a success needs a failed open (`Mutation.ExpectingAbsenceNeedsFailedOpen`).
- A snapshot whose copy failed is recorded as a new file, so undo deletes the file (`History.UndoRestoresIffCopied`). A
  refused undo has already deleted it (`History.RefusalDeletes`). `undo_changes(count)` undoes `count` changes if and
  only if `0 < count` and there are that many, or both are zero (`History.UndoesAskedIff`); a smaller count undoes one
  (`History.UndoZeroUndoesOne`). A transaction discarded from the middle lets live snapshots be overwritten: as many
  undos as writes still restore the files, and the older snapshots if and only if no write took the slot of one of them
  with other content (`SharedSlots.UndoInvertsWritesIff`, `History.MiddleDiscardLosesPreimage`). Undoing a
  multi-file edit fails to restore files of the same name with different content (`History.TransactionUndoneIff`).
  Undoing again after a crash takes back one change more if the list was already durable
  (`History.UndoAgainRepeatsIffNotDurable`).
- The change list in memory and the durable one can differ by more than one entry. Over any calls the durable list has
  as many entries more as undos have failed to save since the last successful save
  (`FileHistoryModel.MemoryLagsByUnsaved`), and there can be any number of those
  (`FileHistoryModel.FailedSavesAddUp`).
- k outstanding calls can use k times each budget limit, for every k (`Budget.KCallsReachKTimes`). A stream whose usage
  is reported more than once, or whose report raises, is charged more than once (`Budget.ChargedOnceIff`).
- The request id of the language-server client is loaded, stored and read back in three steps. Any number of concurrent
  requests get different ids if and only if none stores between another's load and read
  (`RequestIds.RequestsDifferIff`); otherwise one of them can be stranded, with nothing leading to its queue
  (`LspClient.NeverStrandedIff`, `ResponseRouting.SameIdOrphans`).
- A response can be lost beside its request's time-out. The reader tests the table, takes the queue out and fills it in
  three steps, and a message is lost in exactly three ways: its id is withdrawn between the first two, which kills the
  reader; the request has timed out before the third; or the request had its answer before its own write failed
  (`ResponseRouting.LostIff`). A payload that is valid JSON but no object ends the reader
  (`LspClient.LSPClient.ReadLoop`).
- The reader does not look whether a message with a pending id is a response. Every answer is one if and only if no
  request or notification of the server carries the id of a request of the client
  (`ResponseRouting.OnlyResponsesIff`).
- Compaction makes a conversation longer if and only if everything from the third message on, up to the last
  `keep_recent`, is a tool result, by at most two messages (`Compaction.ShorterIff`); only the first one can
  (`Compaction.LaterCompactionsDoNotGrow`).
- A count of one means exactly one occurrence, whatever the text, if and only if the search text cannot overlap itself
  (`Patches.CountIsExactIff`).
- The two replays of the same patches can disagree, because the one on disk reads "\r\n" back as "\n" between the
  patches of an action. With given replacements they agree on all files and search texts if and only if no replacement
  but the last one of its action holds a carriage return or, if the replay in memory is strict, some last one does, in
  which case that replay always fails (`Replays.AlwaysAgreeIff`). Otherwise the replay on disk may fail
  (`Replays.ReturnStopsProposals`) or leave different files (`Replays.ReturnIsTranslated`). Only the replay in memory
  refuses a blank result (`Replays.BlankResultIsRefused`).
- A source tree's hashed bytes are those of no other tree if and only if it is empty or a single file in whose content
  no file name that could follow its own in a listing stands between two zero bytes (`Encoding.ToldApartIff`).
- The router's fallback drops all filters at once, also the privacy one and the check that a model is enabled
  (`Router.UnfitOnlyIfAllAre`); the claim about its scores ends exactly at a price of 60 (`Router.SixtyIsTheBound`).
- The gate's category margin is rounded before it is compared (`Qualification.CategoryMarginIsRounded`), and a category
  that is not required can hide a worse agent from all per-category comparisons
  (`Qualification.UnrequiredCategoryHides`).

## Model

| member | source | states |
|---|---|---|
| Planning.NextStep | nexus/planner.py:183-195 | the selected step is the first pending one whose dependencies are all done; none is selected only if no step is ready |
| Planning.ReadyByPosition | nexus/planner.py:183-195 | in a plan whose ids are positions, the lookup through the id dictionary is the same as looking at the steps themselves |
| Planning.NextStepExists | nexus/planner.py:183-199 | an incomplete generated plan with no failed, blocked or running step always has a ready step |
| Planning.GenerateSteps | nexus/planner.py:1388-1429 | a chained plan with ids equal to positions, never started, with exactly the template items that remain after dropping publication and selecting |
| Planning.KeptInOrder | nexus/planner.py:1392-1396 | the template items kept are all those without publication, in the template's order |
| Planning.SelectedInOrder | nexus/planner.py:1401-1413 | the items of a simple plan are those at the listed positions that exist, in the order of the list |
| Planning.GenerateMassiveBuildSteps | nexus/planner.py:1123-1201 | for any list of contracts: ids are positions, dependencies point backwards, each subsystem waits for the last earlier step of each name it depends on, integration waits for the last step of every name |
| Planning.InsertPrologue | nexus/planner.py:820-840 | the mandatory first step is inserted and every old step is shifted by one, a step without dependencies now waiting for its predecessor |
| Planning.PrologueIsRoot | nexus/planner.py:820-840 | the result is again well indexed and every later step waits, directly or not, for step 0 |
| Planning.PrologueShifts | nexus/planner.py:820-840 | the transitive waits-for relation of the old plan is shifted by one: nothing is lost and nothing is added |
| Planning.RootPrecedesAll | nexus/planner.py:1416-1429 | in a well indexed plan where only the first step lacks dependencies, every other step waits for it |
| Planning.MassivePlanHasSingleRoot | nexus/planner.py:1123-1201 | a massive build plan is such a plan |
| Planning.IntegrationWaitsForAll | nexus/planner.py:1145-1187 | integration waits directly for every subsystem step if and only if no two contracts share a name |
| Planning.IntegrationReachesAllIff | nexus/planner.py:1145-1187 | integration waits, directly or not, for every subsystem step if and only if each contract whose name is given again later was depended on by a contract in between, before it was shadowed |
| Planning.OrderedIff | nexus/planner.py:183-195 | of any two steps the later waits for the earlier if and only if each step depends directly on its predecessor |
| Planning.CreatePlan | nexus/planner.py:768-840 | a created plan is well indexed and never started, and for a large repository every later step waits for step 0 |
| PlanRuns.FreshIsSound | nexus/planner.py:1123-1201 | a generated plan that was never started satisfies the run invariant |
| PlanRuns.StepKeepsSound | nexus/planner.py:1530-1595 | every state change keeps the invariant: running and completed steps have finished dependencies and at most one step runs; completed and skipped steps do not change |
| PlanRuns.RunKeepsSound | nexus/pipeline.py:686-869 | the same for every two states of every run |
| PlanRuns.CompletionsExtendDependencies | nexus/pipeline.py:686-869 | in every run the order of completions has no repetition and extends the dependency relation, and accounts for exactly the completed steps |
| PlanRuns.StartsAreBounded | nexus/planner.py:1548-1551 | in a run from any sound plan, resumed ones included, attempts count starts, and a step that had some attempts before is started at most max(1, retry_limit + 1 - attempts) times |
| PlanRuns.StartLimitIsReached | nexus/pipeline.py:776-867 | that limit is exact: from every state in which a step is next some run starts it so often |
| PlanRuns.ResumedIsSound | nexus/agent/core.py:2395-2400 | resuming a sound plan keeps the invariant, every completed step and all attempts, and leaves no step running or failed |
| PlanRuns.LifeLimitHolds | nexus/agent/core.py:2395-2400 | over the life of a plan attempts stay within retry_limit + 1 and one more for each resumption |
| Driver.FindStep | nexus/planner.py:1530-1541 | the first step with the id, or none |
| Driver.PlanningEngine.AdvanceStep | nexus/planner.py:1530-1583 | refuses a completion whose dependencies are unfinished and then changes nothing; otherwise the first step with the id takes the status, attempts, plan status, revision and current step following as in the source |
| Driver.PlanningEngine.RetryStep | nexus/planner.py:1585-1595 | only a failed step becomes pending again, keeping its attempts; otherwise nothing changes |
| DriverLoop.MoveChangesMeasure | nexus/pipeline.py:686-869 | completing lowers the number of unfinished steps, starting and failing lower the effort left, and no move raises either |
| DriverLoop.StepBudgetIsLeast | nexus/pipeline.py:706 | a turn may use the least number of model turns that is at least two and more than the step's tool calls, or all that remain if these are fewer |
| DriverLoop.TurnDecides | nexus/pipeline.py:743-880 | after the loop body the current step is completed if and only if the turn left it so, or it was still running, the run had not failed, no approval was awaited and the response named the fallback; an error answer on a running step fails it; a failed step is pending again if and only if no approval is awaited, its attempts are at most the retry limit and turns are left; when the loop stops and for which reason; no other step changes |
| DriverLoop.TurnWorks | nexus/pipeline.py:727-740 | a hosted turn leaves a sound plan with no more work than before, and less if it changed the plan |
| DriverLoop.IterationIsIdleIff | nexus/pipeline.py:686-880 | an iteration leaves the loop's variables unchanged if and only if it took up a running step and the turn was silent; every other iteration comes lower in a well-founded order |
| DriverLoop.EndlessIsSilent | nexus/pipeline.py:686-880 | in an endless run of the loop every turn from some point on is silent |
| DriverLoop.CancelledLoopIsEndlessIff | nexus/agent/core.py:2084-2087 | the loop can go on for ever if and only if it is about to run a turn, and if the run is cancelled there it does |
| Driver.HostedTurn | nexus/pipeline.py:727-740 | what the driver may rely on in a hosted turn: the plan changes by moves of the transition system only and at most step_budget model turns are emitted; silent turns are allowed and counted |
| Driver.CompleteNext | nexus/agent/core.py:2209-2214 | the local fallback completes the first ready step if there is one, and otherwise changes nothing |
| Driver.Pick | nexus/pipeline.py:686-695 | takes up the running step or starts the next one; none only if nothing runs and nothing is ready |
| Driver.StuckPlanHasCause | nexus/pipeline.py:686-695 | an incomplete plan in which nothing runs and nothing is ready has a failed or blocked step |
| Driver.ExecutionPipeline.Settle | nexus/pipeline.py:743-880 | the turns charged, the new plan and the decision to stop are those of `DriverLoop.Settled`, and the current step's new status and the exit follow from the turn as in `DriverLoop.TurnDecides` |
| Driver.ExecutionPipeline.Iterate | nexus/pipeline.py:686-880 | one pass through the loop body either stops for a reason that the plan and the last turn bear out, its step having the status that turn calls for, or is an iteration of `DriverLoop` |
| Driver.ExecutionPipeline.Drive | nexus/pipeline.py:686-880 | with any finite number of silent turns the loop ends whatever the hosted turns do; model turns never exceed the budget and the turns charged exceed it by at most one; what each exit means for the plan |
| Driver.ExecutionPipeline.RunHostedExecution | nexus/pipeline.py:660-882 | the same for a whole execution of a fresh or resumed plan, which also completes steps in dependency order and starts none more often than that |
| Driver.CreateAndExecute | nexus/planner.py:768-840 | creating a plan and executing it: the generated plan meets what the driver needs, so all of the above holds, and a finished run has completed every step |
| SideSteps.HasNoSideStepIff | nexus/agent/core.py:2209-2214 | a fresh plan reaches no state with a ready step beside the running one if and only if of any two steps one waits for the other, that is, if each depends directly on its predecessor |
| SideSteps.ReachesSideStep | nexus/agent/core.py:2209-2214 | from two steps neither of which waits for the other, a run to a state with the earlier one running and a later one ready and never started |
| SideSteps.ChainHasNoSideStep | nexus/planner.py:1416-1429 | a chained plan is ordered |
| SideSteps.FallbackCompletesUnstartedStep | nexus/agent/core.py:2248-2253 | in every other fresh plan some run has the fallback complete a step with no attempts while another runs |
| SideSteps.IndependentSubsystemsHaveSideStep | nexus/planner.py:1145-1187 | the massive plan of two independent contracts is such a plan |
| Mutation.FileLockRegistry.Acquire | nexus/mutation.py:58-68 | one lock object a path, created on first use and never shared between paths |
| Mutation.ApplyKeepsInv | nexus/mutation.py:131-254 | every atomic step of any call, and every outside write, keeps the protocol invariant |
| Mutation.RunKeepsInv | nexus/mutation.py:131-254 | so does every schedule |
| Mutation.MutualExclusion | nexus/mutation.py:121-126 | at most one call is between taking and releasing the lock |
| Mutation.SuccessIsBasedOnItsRead | nexus/mutation.py:158-217 | a success replaced content whose hash it had read twice and, if given, expected; the versions in between are outside ones, and one is lost only after the second hash or with the hash unchanged |
| Mutation.FailuresAreJustified | nexus/mutation.py:158-205 | a call has failed as stale only if the version it read first has another hash than expected, and for a race only if the version at its second hash has another hash than the one at its first |
| Mutation.SecondHashDecides | nexus/mutation.py:196-217 | in every reachable state a call goes on from its second hash to replace the file if and only if the present version has the hash of the one it read first |
| Mutation.IOFailureEndsCall | nexus/mutation.py:171-217 | staging and replacing end the call with an error if and only if they fail, and only a successful replace puts the content in place; the call reports success if and only if the file is there at its last open |
| Mutation.LoneWriteSucceedsIff | nexus/mutation.py:131-254 | whatever the file, the directory and the expectation: a lone call with staging and replacing succeeding puts its content in place if and only if nothing was expected or the hash of what its open leaves; otherwise it ends stale and replaces nothing |
| Mutation.SerialVersions | nexus/mutation.py:121-126 | without an outside writer all versions but the first two are commits |
| Mutation.WritesAreSerial | nexus/mutation.py:158-217 | without an outside writer each commit reports exactly the hash of the version before it and of its own |
| Mutation.LastWriteStands | nexus/mutation.py:212-217 | the file holds what the last successful call wrote |
| Mutation.SameExpectationNeedsRestore | nexus/mutation.py:158-169 | between two successes expecting the same hash some commit put that hash back |
| Mutation.AtMostOneSuccess | nexus/mutation.py:158-169 | if no content has that hash, at most one call expecting it succeeds |
| Mutation.ExpectingAbsenceNeedsFailedOpen | nexus/mutation.py:140-169 | a call expecting an absent file succeeds only if its open failed |
| Mutation.AbsentWriteSucceedsIff | nexus/mutation.py:131-254 | a lone call expecting an absent file, with staging and replacing succeeding, succeeds if and only if there is no parent directory for its open to create the file in; otherwise it fails as stale and leaves an empty file |
| History.SlotNameIsInjective | nexus/history.py:93 | a snapshot name determines its position and its file name, also beyond four digits |
| History.UndoInvertsTracked | nexus/history.py:83-99 | one undo takes back one tracked write: files, changes and durable list |
| History.UndoInvertsTrackedWrites | nexus/history.py:193-262 | any number of tracked writes to any paths is taken back by as many undos |
| History.UndoChangesInvertsTrackedWrites | nexus/history.py:246-262 | undo_changes(n) after n tracked writes performs those n undos and succeeds |
| History.UndoesAskedIff | nexus/history.py:246-262 | undo_changes(count) removes exactly `UndoCount` entries, which is count if and only if 0 < count and there are that many, or count and the list are zero and empty |
| History.UndoZeroUndoesOne | nexus/history.py:246-255 | every count below one undoes exactly one change |
| History.UndoPutsSnapshotBack | nexus/history.py:217-244 | undo of a change that left a snapshot puts back exactly the snapshot's content, and succeeds if and only if no digest was recorded or the recorded one is that content's; otherwise the change stays |
| History.UndoPutsLinkBack | nexus/history.py:217-222 | undo of a change that replaced or removed a link puts that link back if and only if its target was recorded, whatever digest was |
| History.UndoTimesReturnsToPast | nexus/history.py:246-262 | in a session whose every live change leads back to the tree it found, by a snapshot with or without a digest, by a link target or as a new file, n undos succeed and give back the lists and the tree the n-th last change found, and the session stays such a one |
| History.TrackedKeepsLiveSnapshots | nexus/history.py:83-99 | a tracked write never overwrites the snapshot of a live change |
| Sessions.RunStaysHealthy | nexus/history.py:72-262 | after any mix of tracked writes, recorded commands, undos and rollbacks of the newest transaction, among contents of which no two share a digest, every live change still leads back to the tree it found |
| Sessions.CommandRemembers | nexus/tool_executor.py:929-968 | a command's records, one for each created, changed or deleted file or link with its preimage and digest, lead back through one tree each to the tree the command found |
| Sessions.UndoInvertsCommand | nexus/tool_executor.py:929-968 | as many undos as a command has records take it back: files and both lists |
| Sessions.FailedCommandIsTakenBack | nexus/tool_executor.py:1093-1132 | restoring the tree a failed command found and discarding its transaction leaves nothing of it but stored preimages |
| Sessions.DiffLists | nexus/workspace_journal.py:347-367 | the comparison of two captures lists exactly the paths that were created, deleted or changed in kind, digest or target, each once |
| Sessions.StoringKeeps | nexus/workspace_journal.py:172-194 | storing preimages changes none that is there, stores one for every file, and each has the digest it is named after |
| History.RollingBackStaysHealthy | nexus/tool_executor.py:1103-1132 | a rollback drops the newest transaction's records with their trees and restores a tree the history remembers |
| History.UndoReturnsToPast | nexus/history.py:193-244 | in such a session an undo succeeds and returns to exactly that tree |
| History.CrashRecovery | nexus/history.py:49-70 | an undo stopped at any point is completed by reloading and undoing again before the list is durable, and by reloading alone afterwards |
| History.UndoAgainRepeatsIffNotDurable | nexus/history.py:205-241 | undoing after a restart repeats the interrupted undo if and only if the list was not yet durable |
| History.UndoRestoresIffCopied | nexus/history.py:94-99 | undo restores the files if and only if the snapshot was copied or there was nothing to copy |
| History.RefusalDeletes | nexus/history.py:217-238 | an undo refused for want of a preimage has deleted the file and keeps the change |
| History.DiscardingTailKeepsSlots | nexus/history.py:72-81 | discarding the newest records leaves the rest and its slots in order |
| History.LiveSnapshotsKeptIff | nexus/history.py:83-99 | in any session a tracked write keeps all live snapshots if and only if its slot is not live or holds the same content |
| History.UndoInvertsTrackedIff | nexus/history.py:83-244 | in any session one undo takes a tracked write back, and restores the live snapshots too if and only if that is so |
| SharedSlots.UndoInvertsWritesIff | nexus/history.py:83-262 | in any session n undos after n tracked writes restore files and lists, and all live snapshots if and only if no write took a slot in use with other content |
| History.MiddleDiscardLosesPreimage | nexus/history.py:72-81 | a mid-list discard after which two undos do not reach the content before the first write |
| History.TransactionUndoneIff | nexus/tools/tools_impl.py:1622-1674 | undoing a multi-file edit restores the files if and only if files of the same name had the same content |
| FileHistoryModel.MemoryLagsByUnsaved | nexus/history.py:49-241 | after any records, undos and discards with any outcome of their saves, memory is the durable list without its last entries, as many as undos have failed to save since the last successful save; so they differ by at most one entry if and only if at most one has |
| FileHistoryModel.FailedSavesAddUp | nexus/history.py:206-214 | n undos of which none saves leave the lists n entries apart, two after two |
| FileHistoryModel.FileHistory.SaveChanges | nexus/history.py:49-62 | a temporary file is written and renamed: at every moment the durable list is the old one or the new one, and no temporary file stays |
| FileHistoryModel.FileHistory.SnapshotBeforeWrite | nexus/history.py:83-99 | the slot is named after the length of the list; a copy that breaks off yields no slot and disturbs no other |
| FileHistoryModel.FileHistory.RecordChange | nexus/history.py:137-174 | memory follows the durable list, and nothing is recorded if the save fails |
| FileHistoryModel.FileHistory.TrackedWrite | nexus/history.py:83-174 | one announced, performed and recorded write is `History.Tracked` |
| FileHistoryModel.FileHistory.UndoLastChange | nexus/history.py:193-244 | it is `History.Undo` if every system call succeeds; every disk it passes through is one a crash can be recovered from; whatever fails, the lists change as `Called` says |
| FileHistoryModel.FileHistory.UndoChanges | nexus/history.py:246-262 | the loop performs the given number of undos, also past failing ones unless one raises, and reports whether all succeeded |
| FileHistoryModel.FileHistory.DiscardTransaction | nexus/history.py:72-81 | the records of one transaction are dropped from memory and disk, or nothing is |
| Budget.FloorIsTight | nexus/budget.py:161-164 | the floor division gives the largest number of tokens whose real price fits |
| Budget.AllowanceIsLargest | nexus/budget.py:99-171 | a granted allowance is positive, within the request and every limit, and one token more would not be |
| Budget.DeniedIff | nexus/budget.py:99-171 | exactly when a call is denied |
| Budget.CountedAddsOne | nexus/budget.py:189-196 | counting an attempt raises the sum of a per-key count by one |
| Budget.AttemptCountsOnce | nexus/budget.py:183-196 | an attempt is counted once under its provider and once under its model, or under "unknown", and nothing else changes |
| Budget.UsageIsBounded | nexus/budget.py:99-204 | with at most k calls outstanding in any interleaving, tokens and cost stay within k limits, calls and attempts within theirs, per-provider and per-model counts sum to the attempts, and the cost is the linear price of the totals |
| Budget.AttemptsAreCounted | nexus/budget.py:178-196 | in every interleaving each attempt is counted until the limit is reached, and none after that |
| Budget.SequentialUseNeverRaises | nexus/budget.py:198-204 | with one call outstanding, recording usage never raises |
| Budget.KCallsReachKTimes | nexus/budget.py:99-171 | the bounds are reached for every k: k calls outstanding use k times the limits of prompt tokens, completion tokens and cost |
| Budget.BudgetController.BeforeHostedCall | nexus/budget.py:99-171 | the method grants exactly the specified allowance, counts the call, and changes nothing when it denies |
| Budget.BudgetController.BeforeProviderAttempt | nexus/budget.py:178-196 | counts one attempt in total, by provider and by model, or denies and changes nothing |
| Budget.BudgetController.RecordUsage | nexus/budget.py:198-248 | positive usage is added even when the call then raises, which it does exactly if a total exceeds its limit |
| Budget.EstimateWithinReservation | nexus/budget.py:378-381 | the estimate for unreported text is the least number of tokens that is at least a quarter of the bytes, and at most the bytes reserved for it |
| Budget.ChargedOnceIff | nexus/budget.py:296-326 | a drained stream is charged at least once, and exactly once if and only if at most one chunk reports usage and that report stays within the limits |
| Budget.BudgetedClient.WrapStream | nexus/budget.py:296-326 | the loop charges exactly the specified charges, and raises exactly if a report raised or the totals end outside the limits |
| Framing.HeaderRoundTrip | nexus/language_intelligence.py:216-247 | the header of a frame is read back as its body's length, whatever follows |
| Framing.FrameRoundTrip | nexus/language_intelligence.py:216-252 | reading one frame yields its body and leaves the rest |
| Framing.FramesRoundTrip | nexus/language_intelligence.py:228-252 | any non-empty bodies, also with line ends inside, are recovered in order from their frames, and what follows is read as if it stood alone |
| Framing.FramesAlone | nexus/language_intelligence.py:216-252 | a stream of frames and nothing else yields exactly the bodies |
| Framing.ReadsLines | nexus/language_intelligence.py:231-241 | every line of a header counts, up to the blank one and no further |
| Framing.LastFieldDecides | nexus/language_intelligence.py:231-244 | in a header of any lines, each ended by LF or CRLF, the last Content-Length field decides, in whatever letters, wherever it stands and whatever other fields there are |
| Framing.AnnouncedBytesAreRead | nexus/language_intelligence.py:242-252 | if its value denotes a positive number, with or without a sign and underscores, the payload is exactly as many bytes, or as many of them as there are, and what follows is read as if it stood alone; if it denotes any other number only the header is skipped |
| Framing.UnreadableIsSkipped | nexus/language_intelligence.py:242-247 | so it is if the value has a character that no number has |
| Framing.UnannouncedIsSkipped | nexus/language_intelligence.py:231-247 | a header without any such field is skipped with its blank line, and nothing else is |
| RequestIds.RequestsDifferIff | nexus/language_intelligence.py:127-128 | any number of requests in any interleaving of load, store and read get different ids if and only if none stores between another's load and read |
| RequestIds.OneAfterAnother | nexus/language_intelligence.py:127-128 | requests that number themselves one after the other get the next numbers in that order |
| RequestIds.TwoCollide | nexus/language_intelligence.py:127-128 | two requests that both load before either stores get the same number, whatever the counter |
| ResponseRouting.RunKeepsInv | nexus/language_intelligence.py:125-139 | every schedule of requests registering, sending, taking, timing out and withdrawing beside the reader keeps the routing invariant |
| ResponseRouting.EachMessageGoesOnce | nexus/language_intelligence.py:253-259 | in every schedule each message read is in exactly one place: with the reader, in the message list or in one request's queue |
| ResponseRouting.PlacesAreRight | nexus/language_intelligence.py:253-259 | the message list is in stream order and a queue only ever holds a message with its request's id, true standing for 1 and false for 0 |
| ResponseRouting.LostIff | nexus/language_intelligence.py:132-139 | a message becomes lost by a step if and only if it is popped after a withdrawal that followed the test, put after the request timed out, or in the queue of a request whose write then fails; lost messages stay lost |
| ResponseRouting.InTimeIsTaken | nexus/language_intelligence.py:132-136 | a waiting request can take an answer if and only if one has been put, and can time out if and only if none has |
| ResponseRouting.OnlyResponsesIff | nexus/language_intelligence.py:253-259 | in every schedule all answers are responses if and only if no message with a method carries the id of a request |
| ResponseRouting.SameIdOrphans | nexus/language_intelligence.py:129-135 | a request that registers or withdraws under another pending request's id takes its entry: that one is never answered |
| ResponseRouting.DifferentIdsStayPending | nexus/language_intelligence.py:129-135 | with different ids a request stays pending, or about to be filled, until it is answered or gives up |
| LspClient.NeverStrandedIff | nexus/language_intelligence.py:127-135 | no request can be stranded under any schedule if and only if no request stored the id counter between another's load and read |
| LspClient.LSPClient.Send | nexus/language_intelligence.py:216-226 | one whole frame is appended to the server's input, or a part of it if the write fails |
| LspClient.LSPClient.Request | nexus/language_intelligence.py:129-139 | beside any steps of the other threads, a request is a run of the routing protocol that ends answered with a message of its id, given up or failed to send, its frame written between whole frames |
| LspClient.LSPClient.Deliver | nexus/language_intelligence.py:253-259 | beside any steps of the requests, the reader takes one message to its place, or dies because the key it found pending is gone |
| LspClient.LSPClient.ReadLoop | nexus/language_intelligence.py:228-259 | beside any requests, the reader loop is a run of the routing protocol over exactly the messages of the payloads in the stream; it ends early only at a payload that is no object or at a missing key |
| Compaction.CompactMessages | nexus/memory.py:119-174 | the loops compute the specified compaction, and an index error exactly if nothing is to be kept of a long enough history |
| Compaction.SummaryIsOfLastTwenty | nexus/memory.py:144-161 | the summary tells of the last twenty messages that have a line, or of all if there are fewer; what came before leaves no trace in it |
| Compaction.LineTellsOf | nexus/memory.py:144-155 | a message has a line if and only if it is a tool result or someone's words that are not empty, and the line tells who spoke and the beginning of what was said |
| Compaction.CompactionIsSafe | nexus/memory.py:119-174 | a well-formed history becomes a well-formed one with a suffix of at least keep_recent messages, no kept result without its caller, going back no further than needed |
| Compaction.CompactionsStayWellFormed | nexus/memory.py:119-174 | this survives any number of compactions |
| Compaction.ShorterIff | nexus/memory.py:119-174 | compaction shortens, lengthens, or lengthens by two a history if and only if not all, all but the first two, or all but the first one of the messages up to the kept ones are tool results |
| Compaction.LaterCompactionsDoNotGrow | nexus/memory.py:119-174 | from the first compaction on the history never grows again, over any number of compactions |
| Compaction.LongToolRunGrows | nexus/memory.py:129-142 | the first one can add two messages |
| Patches.CountIsOneIff | nexus/nova_runtime.py:960-964 | the count is one if and only if there is an occurrence and every other one overlaps the leftmost |
| Patches.CountIsExactWhenBorderless | nexus/nova_runtime.py:960-964 | for a search text that cannot overlap itself, counting one means occurring once |
| Patches.BorderedIsCountedOnce | nexus/nova_runtime.py:960-964 | for every search text that overlaps itself there is a text in which it is counted once and occurs more often |
| Patches.CountIsExactIff | nexus/nova_runtime.py:960-964 | so counting one means occurring once in every text if and only if the search text has no border |
| Patches.ReplacedText | nexus/nova_runtime.py:965 | a patch that passed the check changes one place and nothing around it |
| Replays.ReplaysAgree | nexus/nova_backend.py:315-379 | for every tree and every list of MODIFY actions in which only last replacements may hold a carriage return: the per-file replay succeeds if and only if the proposals do, no file is left blank and, if strict, no replacement holds a carriage return; and then both give the same tree |
| Replays.LineEndsAreRead | nexus/nova_runtime.py:955 | each "\r\n", and each "\r" that no "\n" follows, is read as one line end, whatever stands around it |
| Replays.AlwaysAgreeIff | nexus/nova_runtime.py:950-974 | for given replacements this holds of all trees, paths and search texts if and only if no replacement but the last of its action holds a carriage return, or, in strict mode, some last one does |
| Replays.ReturnStopsProposals | nexus/nova_backend.py:332-342 | with "b\r\n" written by one patch and searched by the next, the per-file replay succeeds, also if strict, and the proposals fail |
| Replays.ReturnIsTranslated | nexus/nova_backend.py:332-342 | with "\r\n" written by one patch and the rest of the file patched by the next, both succeed with different files |
| Replays.StrictStopsAtReturn | nexus/nova_runtime.py:971-973 | a strict replay never gets past an action whose last replacement holds a carriage return |
| Replays.BlankResultIsRefused | nexus/nova_runtime.py:969-970 | the replays differ on a patch that empties a file |
| Replays.Workspace.WriteFiles | nexus/nova_runtime.py:934-975 | the loop writes exactly the actions before the first failing one, which stay written, and that one's file too if it fails only at the readback; it lists the files if none fails |
| Replays.ContentIsWritten | nexus/nova_runtime.py:966-973 | an action without patches writes its content, whatever the file held; only a blank content is refused, and a strict replay stops afterwards if the content holds a carriage return |
| Replays.Workspace.ApplyPatches | nexus/nova_runtime.py:958-965 | the inner loop applies all patches in order, or nothing is written |
| Replays.Workspace.MaterializeProposals | nexus/nova_backend.py:315-347 | the loop replays exactly the proposals before the first failing one, each on the file as read back, and lists their paths without repetition |
| Encoding.BigEndianRoundTrip | nexus/competitive_benchmark.py:475-478 | a length is read back from its fixed-width form |
| Encoding.DirectoryInputReadsBack | nexus/competitive_benchmark.py:468-480 | the hashed bytes read back as the directory, or missing root, they were made from |
| Encoding.DirectoryInputsDiffer | nexus/competitive_benchmark.py:468-480 | two roots give the same bytes if and only if they hold the same files, a missing root being like no other |
| Encoding.HashDirectory | nexus/competitive_benchmark.py:468-480 | the loop hashes exactly those bytes, and fails exactly if a length needs more than eight bytes |
| Encoding.HashSourceTree | nexus/provenance.py:28-45 | the loop hashes exactly the separated names and contents of the files that are not ignored |
| Encoding.CleanTreesDiffer | nexus/provenance.py:31-45 | trees with no zero byte in any content are told apart |
| Encoding.CleanTreeIsSettledByCount | nexus/provenance.py:31-45 | such a tree is confused only with one that has fewer files |
| Encoding.SeveralFilesLookLikeOne | nexus/provenance.py:31-45 | every tree of two or more files gives the same bytes as a single file with zero bytes in it |
| Encoding.ToldApartIff | nexus/provenance.py:31-45 | whichever names a listing can hold and in whatever order, a listing is told apart from all others if and only if it is empty, or a single file in whose content no name that can follow its own stands between two zero bytes |
| KeyPool.RoundRobinKeyPool.constructor | nexus/api.py:189-194 | keys are kept in order of first occurrence, without repetition and without empty ones |
| KeyPool.KeptOnce | nexus/api.py:190 | exactly the non-empty keys are kept, each once |
| KeyPool.KeptInOrder | nexus/api.py:190 | the keys are kept in the order of their first occurrences |
| KeyPool.RoundRobinKeyPool.GetNextKey | nexus/api.py:196-217 | the first ready key from the index on and no wait; if all are cooling, the first one with the least expiry after waiting for exactly that; the index moves behind it and stays in range |
| KeyPool.RoundRobin | nexus/api.py:203-210 | while the ready keys stay the same, any r calls on end return each of the r ready keys exactly once, in cyclic order from any index |
| KeyPool.RoundsRepeat | nexus/api.py:203-210 | the next call returns what the round began with |
| KeyPool.WaitIsShortest | nexus/api.py:211-213 | the least expiry is the first moment at which any key is ready |
| KeyPool.RoundRobinKeyPool.MarkCooldown | nexus/api.py:219-223 | only this key's expiry changes, to the given or default duration from now |
| KeyPool.RoundRobinKeyPool.IsCooldown | nexus/api.py:225-228 | a key is cooling exactly if it is not ready |
| Router.NoGapsMeansMet | nexus/model_router.py:325-340 | there are no gaps if and only if every minimum is met with a confidence of at least one half |
| Router.GapFreeOutranks | nexus/model_router.py:229-242 | with prices in [0, 60), a candidate without gaps that the privacy check lets through outranks every candidate with gaps, in every mode and at every risk |
| Router.SixtyIsTheBound | nexus/model_router.py:342-399 | a price bound suffices for that claim if and only if it is at most 60 |
| Router.RankedIsSorted | nexus/model_router.py:244 | ranking is a permutation with descending scores |
| Router.RankedIsStable | nexus/model_router.py:244 | rows with the same score keep their order |
| Router.DecisionIsAboutCandidate | nexus/model_router.py:269-323 | the decision names a candidate, and its gaps, certification, approval and confidence follow from that candidate's own gaps and profile |
| Router.AlternativesAreNextBest | nexus/model_router.py:261 | the alternatives are the second to fourth best candidates, whichever was chosen |
| Router.CheaperIsPreferredIff | nexus/model_router.py:342-399 | of two models that differ only in their prices the cheapest mode scores the one with the lower total higher, and the other modes only the one within a budget that the other exceeds |
| Router.TierIsPreferredIff | nexus/model_router.py:342-399 | of two models that differ only in tier the higher one scores higher if and only if the risk is high, or the mode is the strongest one and that tier is at least the strong one |
| Router.BetterFitIsPreferred | nexus/model_router.py:342-399 | a profile that stands no worse at any minimum scores no lower, and higher if and only if it stands better at one |
| Router.ManualChoiceIsTakenIff | nexus/model_router.py:246-260 | a manual choice is taken if and only if it is one of the candidates; without one a candidate of the highest score is |
| Router.DecidesIff | nexus/model_router.py:220-227 | a decision is made unless no model is registered |
| Router.UnfitOnlyIfAllAre | nexus/model_router.py:173-227 | a model that is disabled, not configured, not private enough, without the tools, structured output or context asked for is chosen if and only if every registered model is such a one |
| Router.FailedIsLastResort | nexus/model_router.py:210-218 | a model that failed before, by its id or its key, is chosen only if every fit model has failed |
| Router.UnapprovedHighRiskIsMeasured | nexus/model_router.py:269-301 | high-risk work needs no approval if and only if the model has a measured profile meeting every minimum and is not a frontier model to be asked for |
| Router.ChosenHasNoGapsIff | nexus/model_router.py:229-257 | with prices in [0, 60) the chosen model has no gaps if and only if some candidate has none |
| Router.ModelRouter.CapabilityGaps | nexus/model_router.py:325-340 | the loop computes the specified gaps in order |
| Router.ModelRouter.EvaluateModelSuitability | nexus/model_router.py:342-399 | the accumulated score is the sum of the specified terms |
| Router.ModelRouter.Route | nexus/model_router.py:160-323 | the method makes the specified decision and appends it, and only it, to the history |
| Qualification.EvaluateSuperiorityReport | nexus/competitive_qualification.py:507-841 | the accumulated failures are empty if and only if the report satisfies the declarative conditions `Qualifies`; the paired outcomes are as specified |
| ReportedRuns.QualifiesIff | nexus/competitive_qualification.py:690-841 | with the default rates a report qualifies if and only if its groups are fine and cover enough, every required agent's result is spelt like it, available and completed, and the candidate leads by numbers of reported results: three quarters verified, a twentieth and the asked net wins more than the competitor, a quarter more than the model alone, false claims in a hundredth at most and no more than the competitor's, no unexpected change; and likewise in each required category |
| ReportedRuns.QualifiedRunsAreClean | nexus/competitive_qualification.py:726-787 | in a report qualified by the default thresholds every result of a required agent is available and completed, no result of the candidate has unexpected changes, and its false claims are in a hundredth of the groups at most and no more than Claude's |
| Qualification.GatherGroups | nexus/competitive_qualification.py:579-669 | the intake loop keeps the first group of each identity and the first result of each stripped name, reports the others, and gathers rows, sets and maps consistent with them |
| Qualification.PairedOutcomes | nexus/competitive_qualification.py:458-478 | the loop counts the specified wins, losses and ties |
| Qualification.IntakeCleanIff | nexus/competitive_qualification.py:579-669 | intake reports nothing if and only if all groups are valid, complete and distinct, and then every group is taken in whole |
| Qualification.RunsMatchIff | nexus/competitive_qualification.py:143-145 | an agent's run count, by exact name, equals the number of groups if and only if every group has a row spelt exactly so |
| Qualification.QualifiedGroupsAreComplete | nexus/competitive_qualification.py:726-734 | every group of a qualified report has exactly one result of each required agent |
| Qualification.QualifiedHasEnoughGroups | nexus/competitive_qualification.py:671-690 | a qualified report has at least tasks times trials groups, 150 by default |
| Qualification.PairedCounts | nexus/competitive_qualification.py:458-478 | in complete groups wins, losses and ties partition the groups, and net wins are the difference of verified runs |
| Qualification.QualifiedOutcomes | nexus/competitive_qualification.py:766-779 | this holds of every qualified report |
| Qualification.QualifiedNetWins | nexus/competitive_qualification.py:772-779 | with thresholds no laxer than the defaults a qualified report has at least 8 net wins |
| Qualification.MarginInRuns | nexus/competitive_qualification.py:745 | a margin between rates over the same runs is at least that share of the runs |
| Qualification.CategoriesImplyAggregate | nexus/competitive_qualification.py:481-504 | if every category that occurs is required, the per-category false-success comparisons imply the aggregate one |
| Qualification.UnrequiredCategoryHides | nexus/competitive_qualification.py:481-504 | for any category that is not required there are complete groups that pass all per-category comparisons and fail the aggregate one |
| Campaigns.CampaignQualifiesIff | nexus/competitive_qualification.py:507-841 | with the default thresholds a campaign of the same three results throughout qualifies if and only if it has at least fifty tasks and three trials of each, all agents were available and completed, and the candidate alone is verified, without a false claim or an unexpected change; so any one such fault in every group disqualifies it |
| Qualification.CategoryMarginIsRounded | nexus/competitive_qualification.py:362 | a category margin passes the default threshold if and only if it is at least 0.0199995 |
| Qualification.RoundedIsNearest | nexus/competitive_qualification.py:362 | the rounded margin is the nearest multiple of a millionth, from the middle the even one |

## Left out

- Provider HTTP, streaming transport, subprocesses, sandboxing, signing, the OS advisory file locks and the agent's own
  turns: foreign effects. Other processes appear as the outside writer of `Mutation`.
- SHA-256 and file hashing: an arbitrary function; a hash read is one atomic step, although the source reads in chunks.
- Driver.HostedTurn: an environment contract. That a turn changes the plan only by its own step and the local fallback
  is read off the agent, whose other behaviour is not modelled.
- Driver.ExecutionPipeline.Drive: a method has to end, so the number of silent turns still to come is a parameter; runs
  in which they never stop are described by `DriverLoop`.
- Driver.ExecutionPipeline.RunHostedExecution: retry contexts, failure fingerprints, prompts, ledger entries and the
  structural revision of the canonical plan carry no plan-step state and are not modelled; nor is the branch for a run
  without a plan or with a plan without steps, which is one plain turn.
- Planning.CreatePlan: the choice of template and of contracts is a parameter, as are analysis, verification steps and
  identifiers of the plan.
- Driver.ExecutionPlan: steps are values in the plan's list, so another reference to a step object is not modelled.
- Planning.GenerateSteps: titles, descriptions and the template table are parameters or left out; only tools and
  dependencies matter for the graph.
- FileHistoryModel.FileHistory.UndoLastChange: file modes, directories in place of files and an unreadable
  `changes.json` are not modelled; the disk is a set of fields of the object.
- Sessions.RunStaysHealthy: a command's records are compared by kind, digest and link target; mode-only changes, ignored
  directories and the journal's limits on files and bytes are left out.
- History.UndoInvertsTrackedWrites: tracked paths are resolved, so none names a symbolic link; snapshots no change
  refers to may remain.
- Budget.UsageIsBounded: `max_cost_inr` is validated but never enforced by the source, so nothing is said about it;
  amounts are exact reals, without floating-point error.
- LspClient.LSPClient.ReadLoop: the source looks at process liveness once a message; the model reads until the
  stream ends. JSON decoding is an arbitrary function. Python's limit on the number of digits `int()` reads is left out.
- LspClient.LSPClient.Request: its id has been read (`RequestIds`), and whether its write fails is a parameter; starting
  the server, error members of a response and other threads' failing writes are left out. Each step on the table or on a
  queue is atomic.
- Compaction.CompactMessages: a message whose content is null where the source slices it is not modelled.
- Replays.Workspace.WriteFiles: the regular expression that finds patch blocks, created directories and files that are
  not UTF-8 are left out; both replays share one path resolution; line ends are those of POSIX, where writing translates
  nothing.
- Replays.ReplaysAgree: actions that carry whole contents are cleaned before they become proposals, so the agreement is
  stated for patch blocks only.
- Encoding.HashSourceTree: the ignore rules are an arbitrary predicate on names; names are taken in the order the
  directory listing sorts them.
- KeyPool.RoundRobinKeyPool.GetNextKey: time is a parameter, and sleeping is reported as the time to wait; calls of the
  pool are serialised by its lock, which is released before sleeping.
- Router.ModelRouter.Route: decision ids, timestamps and texts of reasons are left out; the registry and the model
  doctor are functions, so a profile does not change during a call. `derive_task_requirements` and
  `downshift_if_suitable` are short tables.
- Qualification.EvaluateSuperiorityReport: the checks of sealed provenance, budgets, telemetry, isolation, content
  fingerprints, repositories, identities, medians and cost, duration and intervention ratios enter as a list of
  further failures; reported values of the wrong JSON type are not modelled, and the order of failures is not stated.
- `binary_search`, policy tightening, templates, reports, dashboards and enum tables: easy members only.
