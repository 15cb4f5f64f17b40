# Mycelium: what its state machines promise

A Dafny model of four state-carrying components of Mycelium, each with the guarantee its
comments promise for whole runs rather than for one branch.

**Flows** (`Flow*.dfy`). A flow is a set of named steps. `FlowNeeds` reads references and
binds values, `FlowGraph` turns `depends_on`, `needs` and file order into a graph and
searches it depth first, `FlowValidation` accepts or refuses a flow, `FlowRun` holds the
scheduler's variables as values with the invariant every change keeps, `FlowSchedule` is the
scheduler itself, a class whose fields are updated in place. Which step in flight reports
next, and whether it timed out, is left undetermined, so every arrival order is covered.
`FlowMeaning` defines what a flow means without mentioning a schedule and proves that every
finished run means it. `FlowAccount` reads a run's artifact against the flow file: the status,
why each step ended as it did and which outputs are kept. `FlowStream` is the bounded capture of a step's output and its mirror,
`FlowRedact` the redactor that mirror goes through and exactly when the two do not get in each
other's way, and `FlowSources` the import closure that pins a model.

**Sync** (`Sync*.dfy`). `SyncRules` says what one sync does to one path and to a pair of
trees, content being its checksum and `""` no file. `SyncClient` is the client, one step per
file operation, each of which may fail; a sync that is killed stops at one of them.
`SyncFleet` proves what holds over whole runs: the delete guard is exact and holds over any
number of tries, stopping and starting again changes nothing, and any number of machines
converge, tries that stop or are refused among them. `SyncSettling` says of the contents alone
what a sync settles on: which of two edits stays, where the other goes, what is reported and
what is planned.

**Sessions** (`Session*.dfy`). `SessionFold` is the fold of timed events into open and sealed
blocks, specified key by key; `SessionHistory` proves that timely scans add up to one fold and
what a block is; `SessionBatches` proves exactly when two scans add up to one, whatever the
times of the second batch; `SessionTotals` that nothing is lost or counted twice over all keys; `SessionAccount` reads
blocks against the events themselves, counter by counter and block by block;
`SessionStore` is the shards, the resume point and the reader that drops repeated IDs, and
`SessionCrashes` whole runs with any number of crashes between append and save, and exactly
when one crash is harmless.

**Index** (`Lines.dfy`, `Memory*.dfy`, `IndexWorker.dfy`). A page is cut into chunks, which
`MemoryPages` reads against the page; the chunks whose hash changed are embedded, and the flat store — a slice and
a key-to-place map — is updated so that it agrees with dropping the page and indexing it
again.

`Order.dfy` is `sort.Strings` with the uniqueness of the sorted list, `Decimal.dfy` decimal
numerals, each the one its number has, `Wrappers.dfy` Option and Result.

Where the code and its comments disagree the model follows the code:

- internal/sync/sync.go:96-97 says the loser of a conflict is kept as a sibling `.conflict`
  file and that a local edit is never silently overwritten. The code keeps the loser under
  `.conflicts/` (internal/sync/conflict.go:115-129) and, on single-writer paths, keeps
  nothing. `SyncFleet.SingleWritersLoseEdits` is the input on which an edit is lost,
  `SyncFleet.NothingIsLostSilently` states exactly when one is.
- internal/sessions/sessions.go:92-94 speaks of events out of order within a batch. The block
  is widened backwards without a gap check, so a batch that is late as a whole can fold
  differently from one scan of everything: `SessionHistory.LateEventsFoldDifferently` is an
  input, and `SessionBatches.LateByTheGap` says how late a single event may be.
  `SessionBatches.SplitScansAddUpExactlyWhen` is the condition for any two batches, whatever
  their times: a block sealed for silence is not revived; no block sealed by a gap is reached;
  where the open block began in the first batch, earlier events lead up to it without a gap
  and share its project and agent; and the last to name a branch or a model is the last in
  time.
- internal/server/embed_worker.go:192-194 re-embeds only chunks whose hash changed. The hash
  does not tell a title's last part from a heading's first, so an entry's heading can be the
  old one: `IndexWorker.OldHeadingStays` is a pair of pages, one after the other, and
  `IndexWorker.HeadingsDecideExactness` the condition.
- internal/flow/run_test.go:193-195 says that a secret split over two writes is still masked on
  the terminal. internal/flow/stream.go:65-77 redacts lines as they complete, so a secret that
  spans a line break is masked in one write and shown in two: `FlowRedact.SpanningSecretsShow`
  is the input. The mirror does not depend on how a stream is written if and only if no secret
  is empty and every secret with a line break is listed behind a non-empty one that starts it,
  so that it never matches: `FlowRedact.MirrorForgetsCutsExactlyWhen`;
  `FlowRedact.MirrorIsExactExactlyWhen` says the same of the mirror being the redacted stream.
  (internal/flow/needs.go:98-100 can list an empty value.)
- internal/sessions/store.go:97-98 drops repeated blocks by their deterministic ID, and a scan
  appends before it saves, so events folded again after a crash are to give blocks already
  there. An event that comes after the crash can revive a block the crashed scan sealed for
  silence: the longer block then has the ID of the shorter one, which is the one read.
  `SessionCrashes.CrashLosesAnEvent` is the input, `SessionCrashes.CrashIsHarmlessExactlyWhen`
  the condition.

- internal/server/embed_worker.go:78-80 says that the tree's name keeps two trees from claiming
  one key. It does when the names hold no `|`: `IndexWorker.TreesNeverMeet`, and
  `IndexWorker.SeparatorsShareAKey` is the input otherwise. In the same way a session's key
  tells two agents apart when no project holds a `|`: `SessionAccount.KeysAreExact`,
  `SessionAccount.SeparatorsShareAKey`.
- internal/server/embed_worker.go:223-226 rebuilds a page for stored keys it no longer has. A
  page whose path goes on behind a `#` leaves keys that look like the shorter one's:
  `IndexWorker.LongerNamesAreLeftOver`. Without such paths only a page's own entries count:
  `IndexWorker.LeftoversAreItsOwn`.

## Model

| member | source | states |
|---|---|---|
| FlowNeeds.ParsesExactly | internal/flow/needs.go:41-55 | a reference parses to a step and field if and only if it is that name, a dot and the field's name, whatever dots the step's name holds |
| FlowNeeds.StreamsPassWholeValues | internal/flow/needs.go:135-152 | a stream is passed on exactly as `$(...)` would give it, and only when whole, free of NUL and within the limit |
| FlowNeeds.ReferencesReadTheirFields | internal/flow/needs.go:104-152 | `.stdout`, `.stderr` and `.exit_code` of a step are bound to that stream of its own output as a shell would have it, or the first thing wrong with it, and to its exit code in decimal; to nothing when it left no output |
| FlowNeeds.Resolve | internal/flow/needs.go:57-85 | the loop over sorted names gives the first error in that order, or all values |
| FlowNeeds.ResolveBindsEveryNeed | internal/flow/needs.go:57-85 | it succeeds if and only if every reference can be read and names and values together fit the limit, and then binds every variable to its own reference and nothing else |
| FlowNeeds.FirstErrorIsReported | internal/flow/needs.go:57-85 | a failure is the first in ascending order of the variables: that one's own error, or that names and values up to it are over the limit |
| Decimal.NumeralsAreItoa | internal/flow/needs.go:123-130 | the numeral written is the one that reads back as the number, signed and without a leading zero |
| Order.LessIsLexicographic | internal/flow/needs.go:196-203 | ascending is byte by byte: what starts another comes before it, else the smaller at the first difference |
| FlowNeeds.ResolveReadsOnlyNeededSteps | internal/flow/needs.go:104-118 | the result depends on the outputs of the steps referred to and on no other output |
| FlowNeeds.PresentOutputsDidRun | internal/flow/needs.go:104-112 | with an output for every referenced step, resolving never fails for a step that did not run |
| FlowGraph.ReferencesOf | internal/flow/needs.go:156-166 | visiting the map in any order collects the same set of steps |
| FlowGraph.Dependencies | internal/flow/graph.go:15-36 | the loop builds the graph of the flow |
| FlowGraph.EveryStepHasItsEdges | internal/flow/graph.go:5-36 | with distinct names there is one entry per step: its file-order predecessor unless it writes depends_on, what it writes, what it needs, never itself, sorted |
| FlowGraph.EdgesAreExact | internal/flow/graph.go:5-36 | a name is an edge of a step if and only if it is not the step's own and it is written under depends_on, or is the step before in the file where that is not written, or some reference of the step reads an output of it; edges ascend |
| FlowGraph.CycleFrom | internal/flow/graph.go:100-116 | the loop is the path from the first visit of the start on, closed with the start |
| FlowGraph.CycleSearch.Walk | internal/flow/graph.go:71-87 | the walk ends on every graph; a name that settles does so after all it waits on, with the stack as it was; a loop returned is a cycle |
| FlowGraph.OrderRulesOutCycles | internal/flow/graph.go:60-98 | a graph whose names can be put after all they wait on has no cycle |
| FlowGraph.AcyclicMeansOrdered | internal/flow/graph.go:60-98 | a graph has no cycle if and only if such an order of it exists |
| FlowGraph.FindCycle | internal/flow/graph.go:60-98 | nothing is returned if and only if the dependency graph is acyclic, and what is returned otherwise is one of its cycles |
| FlowValidation.ValidateNeeds | internal/flow/needs.go:205-238 | accepts a step if and only if each reference parses and names another step of the flow |
| FlowValidation.ValidateDependsOn | internal/flow/graph.go:45-54 | accepts a step if and only if it waits on known steps other than itself |
| FlowValidation.CollectNames | internal/flow/flow.go:191-201 | succeeds if and only if all names are given and distinct |
| FlowValidation.ValidateSteps | internal/flow/flow.go:191-208 | a flow is accepted if and only if names, references and dependencies are sound and the graph acyclic; what a refusal says, a cycle among it, is so |
| FlowValidation.AcceptedExactly | internal/flow/flow.go:191-240 | acceptance spelled out on the file: names given and distinct, every reference and every depends_on of another step of the flow, no chain of waiting that comes back |
| FlowValidation.EdgesStayInside | internal/flow/graph.go:5-36 | in an accepted flow every edge leads to a step of it, and every needed value and file-order predecessor comes along an edge |
| FlowRun.ExpectedReadsOnlyDeps | internal/flow/schedule.go:110-132 | how a step ends is settled by how its own dependencies ended and by nothing else in the run |
| FlowRun.RecordKeepsInv | internal/flow/schedule.go:144-182 | recording any outcome keeps the counts, the record, the status as worst so far, the blocked set, the retained outputs and the file order of serial flows |
| FlowRun.StartKeepsInv | internal/flow/schedule.go:120-132 | so does launching a ready step below the limit, clear of blockers and timeouts, with the values its dependencies left |
| FlowRun.RecordingTells | internal/flow/schedule.go:76-160 | every recorded outcome stays accounted for: a step that ran was clear of blockers and timeouts and had its values, one skipped names the first blocker or a stopped run, one unresolved names what is wrong with its values |
| FlowRun.NextInFileOrder | internal/flow/graph.go:7-13 | in a flow without depends_on the only step that can be ready and unfinished is the next one of the file |
| FlowRun.InFlightCountsTheUnfinished | internal/flow/schedule.go:76-142 | the steps in flight always number the started but unfinished ones and never exceed the limit |
| FlowRun.WorseningInAnyOrder | internal/flow/schedule.go:184-207 | whatever order the same endings come in, the run ends with one status |
| FlowSchedule.ReferencedSteps | internal/flow/needs.go:154-166 | the retained outputs are those of steps some reference names |
| FlowSchedule.Scheduler.constructor | internal/flow/schedule.go:43-53 | the starting state satisfies the invariant; a limit of zero or less becomes the default |
| FlowSchedule.Scheduler.Judge | internal/flow/schedule.go:162-182 | what an ending does to the status, the blocked set and the stop flag |
| FlowSchedule.Scheduler.Record | internal/flow/schedule.go:149-160 | the whole new state |
| FlowSchedule.Scheduler.IsReady | internal/flow/schedule.go:101-108 | true if and only if every dependency is done |
| FlowSchedule.Scheduler.FindBlocker | internal/flow/schedule.go:110-118 | the first dependency whose recorded ending blocks, if any |
| FlowSchedule.Scheduler.Skip | internal/flow/schedule.go:134-136 | records a ready step as skipped, under its first blocker or because the run stopped, and changes no other outcome |
| FlowSchedule.Scheduler.Launch | internal/flow/schedule.go:120-132 | puts a ready step in flight with exactly the values its dependencies left, or records it unresolved with what is wrong with them |
| FlowSchedule.Scheduler.Collect | internal/flow/schedule.go:138-142 | takes any result in flight and files it; done strictly grows |
| FlowSchedule.Scheduler.Sweep | internal/flow/schedule.go:73-99 | reports a change if and only if something started; every step that was ready is started unless the limit is reached; a pass without change and with nothing in flight means no unstarted step is ready |
| FlowSchedule.SomeStepIsReady | internal/flow/schedule.go:55-71 | deadlock freedom: while steps of an accepted flow are unfinished, one of them waits on nothing |
| FlowSchedule.Scheduler.Drive | internal/flow/schedule.go:60-71 | terminates with every step done, never waiting with nothing in flight and never returning early |
| FlowMeaning.Run | internal/flow/run.go:33-60 | a flow runs if and only if validation accepts it, and a run finishes |
| FlowMeaning.FinishedRunIsComplete | internal/flow/schedule.go:60-160 | a finished run records each step exactly once, has nothing in flight, never passed the limit, and its status is the worst severity recorded, timeouts or not |
| FlowMeaning.SerialFlowsRunInFileOrder | internal/flow/graph.go:7-13 | where no step writes depends_on, steps are recorded in file order with at most one in flight, whatever the limit |
| FlowMeaning.RunsHaveTheMeaning | internal/flow/schedule.go:60-182 | a finished run in which nothing timed out has the schedule-free meaning of its flow |
| FlowMeaning.MeaningExists | internal/flow/schedule.go:60-182 | every accepted flow has a meaning |
| FlowMeaning.MeaningIsUnique | internal/flow/schedule.go:60-182 | an accepted flow has one meaning |
| FlowMeaning.Confluence | internal/flow/schedule.go:60-207 | whatever the limits and arrival orders, two finished runs without a timeout agree on every step's outcome, the recorded results and the status |
| FlowMeaning.SkippedExactlyBelowACulprit | internal/flow/schedule.go:76-182 | without timeouts a step is skipped if and only if a chain of dependencies leads to one that failed without allow_failure or was unresolved |
| FlowMeaning.StepsThatRunHaveWhatTheyNeed | internal/flow/schedule.go:76-132 | in any state of any run, timeouts or not, a step that was started was so after every dependency ran and ended acceptably, with every value it needs |
| FlowMeaning.DidNotRunIsUnreachable | internal/flow/needs.go:104-112 | in any state of any run, timeouts or not, no step of an accepted flow has been told that one it needs did not run |
| FlowMeaning.SkippedForAReason | internal/flow/schedule.go:76-118 | in any state of any run a skipped step names its first blocker, or something timed out, and no other outcome is recorded as skipped |
| FlowAccount.StatusIsExact | internal/flow/schedule.go:162-207 | in any state of any run the status is timeout if a recorded result timed out, else unresolved if one was not started without being skipped, else failed if a step ran and exited with a code it was not allowed, else OK |
| FlowAccount.ShapeOfResults | internal/flow/schedule.go:120-136 | a started step's result has its output's exit code; one never started has none and no output, and is skipped exactly under a blocker or a stopped run |
| FlowAccount.ReasonsAreExact | internal/flow/schedule.go:73-182 | in any state of any run, why each step ended so: under the ascending first of the dependencies that stop it; refused in a stopped run under none; else clear of blockers and timeouts, with its values or what is wrong with them |
| FlowAccount.OutputsAreExact | internal/flow/schedule.go:149-160 | the outputs kept are the raw ones of finished steps that some reference of the file names |
| FlowStream.PrefixedJoins | internal/flow/stream.go:79-92 | whole lines and what follows them are prefixed independently |
| FlowStream.SplitEmitsPrefixed | internal/flow/stream.go:79-92 | emitting the pieces of SplitAfter prefixes every line once |
| FlowStream.EveryLineIsPrefixed | internal/flow/stream.go:79-92 | lines are mirrored each once under the prefix, the last with a break it may have lacked |
| FlowStream.Capture.Write | internal/flow/stream.go:48-63 | the buffer stays the first bytes written up to the limit, the flag says whether there were more, and the mirror is of exactly the texts completed so far, redacted one by one |
| FlowStream.Capture.MirrorLines | internal/flow/stream.go:65-77 | sends exactly the lines the new bytes complete and holds back the rest |
| FlowStream.Capture.Emit | internal/flow/stream.go:79-92 | sends the redacted text with every line under the prefix |
| FlowStream.Capture.Flush | internal/flow/stream.go:94-104 | hands over what was left pending, and the mirror is then of everything written |
| FlowStream.CaptureAll | internal/flow/stream.go:48-110 | however the stream is cut into writes: first bytes kept, truncated if and only if more was written, the mirror that of the completed texts under any redactor at all |
| FlowRedact.LinesAreRedactedApart | internal/flow/run.go:237-256 | where no secret that can match holds a line break, none being empty, whole lines and what follows them are redacted independently |
| FlowRedact.MirrorIsExactExactlyWhen | internal/flow/stream.go:48-104 | every way of writing every stream mirrors the redacted stream, each line once under the prefix, if and only if no secret is empty and each one with a line break is behind one that starts it |
| FlowRedact.MirrorForgetsCutsExactlyWhen | internal/flow/stream.go:65-92 | two ways of writing one stream always mirror alike if and only if the same holds |
| FlowRedact.OneSecret | internal/flow/run.go:237-256 | for a single secret that is: not empty and without a line break |
| FlowRedact.SpanningSecretsShow | internal/flow/stream.go:65-92 | an input: a secret spanning a line break, masked in one write and shown in two |
| FlowRedact.CaptureRedacted | internal/flow/stream.go:48-110 | a stream captured with a step's secrets: first bytes kept, the mirror as above |
| FlowSources.ModelSources | internal/flow/modelsource.go:140-173 | ends on cyclic imports; succeeds if and only if every reached file can be read and imports nothing outside; gives the entry, then the other reached files ascending, each once |
| FlowSources.ClosedSetsHoldTheReached | internal/flow/modelsource.go:147-173 | a set closed under imports holds everything reached |
| FlowSources.SortByRel | internal/flow/modelsource.go:170-171 | ascending by path, the same files |
| FlowSources.ClosureIsDetermined | internal/flow/modelsource.go:140-142 | a disk and an entry have one such list, so the order is the same on every machine |
| FlowSources.ChecksumSources | internal/flow/modelsource.go:204-210 | the running hash receives the encoding of the list |
| FlowSources.EncodingIsInjective | internal/flow/modelsource.go:200-211 | different lists of files never give the same bytes, when paths hold no NUL |
| SyncClient.Client.UploadFile | internal/sync/transfer.go:8-14 | the server's entry of that path alone becomes the local content, or nothing changes |
| SyncClient.Client.DownloadFile | internal/sync/transfer.go:16-26 | the local entry of that path alone becomes the server's content, or nothing changes |
| SyncClient.Client.RemoveLocal | internal/sync/transfer.go:28-33 | the local entry of that path alone is gone, or nothing changes |
| SyncClient.Client.WriteConflictCopy | internal/sync/conflict.go:119-129 | the kept copy of that path alone is replaced, or nothing changes |
| SyncClient.Client.SetBase | internal/sync/manifest.go:84-90 | looked up again the path gives the checksum, "" being no entry at all, and every other path gives what it did |
| SyncClient.Client.ReconcilePath | internal/sync/sync.go:192-215 | on success both sides hold the settled content, the loser is parked, new base and report say so; on failure the path is at one of three points; no other path changes |
| SyncClient.Client.ApplyLocalChange | internal/sync/sync.go:217-234 | the same for a change only this machine made |
| SyncClient.Client.ApplyRemoteChange | internal/sync/sync.go:236-253 | the same for a change only the server has |
| SyncClient.Client.ResolveConflict | internal/sync/conflict.go:10-34 | the same where both sides changed apart |
| SyncClient.Client.KeepServerCopy | internal/sync/conflict.go:36-47 | the same where the local file was deleted |
| SyncClient.Client.KeepLocalCopy | internal/sync/conflict.go:49-59 | the same where the server's file was deleted |
| SyncClient.Client.ResolveSingleWriter | internal/sync/singlewriter.go:20-38 | the same on a single-writer path, with no copy and no note |
| SyncClient.Client.BackupRemoteAndPushLocal | internal/sync/conflict.go:61-78 | the same where the local edit wins, the server's parked first |
| SyncClient.Client.BackupLocalAndPullRemote | internal/sync/conflict.go:80-96 | the same where the server's edit wins, the local one parked first |
| SyncClient.Client.PlannedDeletes | internal/sync/sync.go:149-170 | the plan over all paths, and each side's size |
| SyncClient.Client.PruneSingleWriterConflicts | internal/sync/singlewriter.go:40-65 | only copies of single-writer paths go, and once done all of them have, in both layouts |
| SyncClient.Client.ReconcileAll | internal/sync/sync.go:129-138 | all paths settled and reported in order, or stopped at a safe point with the base unsaved |
| SyncClient.Client.PruneAndSave | internal/sync/sync.go:140-146 | a completed sync, or one stopped before its base was saved |
| SyncClient.Client.Sync | internal/sync/sync.go:94-147 | a refusal changes nothing and has a plan over the limit; a success settles every path, saves the base, and reports exactly what it did; a failure leaves every path at a safe point and the base unsaved; whenever anything changed, the guard had let the whole plan through |
| SyncClient.ProgressSteps | internal/sync/sync.go:130-138 | settling the next path keeps: the paths visited are done, the others untouched |
| SyncClient.Finishes | internal/sync/sync.go:140-146 | all paths settled, pruned and saved is a completed sync |
| SyncFleet.EverythingCanBeSettled | internal/sync/sync.go:192-215 | any two trees and any base have a settled outcome: no combination of changes is stuck |
| SyncFleet.SyncLeavesAllEqual | internal/sync/sync.go:94-147 | wherever it started, a sync leaves tree, base and server equal |
| SyncFleet.NothingIsLostSilently | internal/sync/conflict.go:10-96 | content a sync overwrites or removes is the base's or is now under `.conflicts/`, unless, and only unless, it lost a two-edit conflict on a single-writer path |
| SyncFleet.SingleWritersLoseEdits | internal/sync/singlewriter.go:20-38 | an input: two edits of a single-writer path, the local one in no tree, base or copy wherever the sync ends |
| SyncFleet.DeletionIsDecidedOnce | internal/sync/sync.go:172-190 | the guard's two questions are exactly whether settling removes that side's file, and never both |
| SyncFleet.PlanIsExact | internal/sync/sync.go:149-158 | planned deletions are, in order, those the sync reports |
| SyncFleet.DeletionsAreGuarded | internal/sync/sync.go:14-19 | what is reported deleted is exactly the files each side had and has no longer, counted by the plan; an empty base deletes nothing |
| SyncFleet.ReportIsExact | internal/sync/sync.go:68-79 | what is reported uploaded and downloaded is exactly the files whose content on that side is new, and an edit on both sides is reported exactly where the loser was kept |
| SyncFleet.RerunningReachesTheSame | internal/sync/sync.go:129-146 | stopped at any file operation and run again, a sync reaches the trees, base and copies of one never stopped |
| SyncFleet.StoppingComposes | internal/sync/sync.go:129-146 | any number of interrupted attempts are one interruption |
| SyncFleet.RerunPlansNoMore | internal/sync/sync.go:118-122 | a rerun deletes nothing the first attempt would not have, side by side, so the guard lets it through again |
| SyncFleet.DeletedWithinPlan | internal/sync/sync.go:118-138 | however far settling got, the files gone from either side number no more than were planned |
| SyncFleet.TriesStayGuarded | internal/sync/sync.go:118-146 | over any number of tries in a row, all stopped but perhaps the last: together they delete no more than the first one planned, nothing at all is touched unless the guard let that plan through, and without the override at most MaxSilentDeletes files go |
| SyncFleet.RestedMachinesOnlyPull | internal/sync/sync.go:192-253 | a machine without edits since its last sync leaves the server untouched, whether its try succeeds or stops |
| SyncFleet.QuietMachinesOnlyPull | internal/sync/sync.go:192-253 | nor does one that has only stopped while pulling, whether its next try succeeds or stops |
| SyncFleet.ServerIsFrozen | internal/sync/sync.go:94-147 | in any run of tries without edits, once every machine's last try has succeeded the server never changes, however many tries stop later |
| SyncFleet.PulledMachinesAreLevel | internal/sync/sync.go:94-147 | a machine that succeeds after that has nothing to push or pull ever after |
| SyncFleet.LevelMachinesStayLevel | internal/sync/sync.go:192-215 | a try of a level machine, succeeding or stopping, leaves it level |
| SyncFleet.LevelReportsNothing | internal/sync/sync.go:130-138 | a machine level with the server reports nothing |
| SyncFleet.FleetConverges | internal/sync/sync.go:94-147 | from any trees, bases and server, any number of machines and tries, failed ones among them: once each machine's last try has succeeded the server is frozen, once each has succeeded again all trees and bases equal it and no sync reports anything |
| SyncSettling.OneSidedChangesSpread | internal/sync/sync.go:192-253 | a side that did not move takes the other's content, deletions included; of two that moved a deletion yields to content |
| SyncSettling.LaterEditStays | internal/sync/conflict.go:98-108 | of two edits both sides end with the later, or with the larger checksum when times are equal or unreadable |
| SyncSettling.EitherSideChoosesAlike | internal/sync/conflict.go:98-100 | with the two sides exchanged a path ends with the same content, so every machine makes the same choice |
| SyncSettling.LosingEditIsParked | internal/sync/conflict.go:61-129 | the edit that does not stay is the copy kept, except under usage/, where no copy is; no other copy comes or goes |
| SyncSettling.SingleWriterIsExact | internal/sync/singlewriter.go:9-18 | such paths are those of something in a directory under usage/ |
| SyncSettling.NotesAreExact | internal/sync/conflict.go:10-59 | which note is reported for a path, by its contents on both sides and at the last sync |
| SyncSettling.PlansAreExact | internal/sync/sync.go:149-190 | planned for deletion on a side is what it has as at the last sync and the other has dropped, in ascending order, with both sizes |
| SessionFold.ScanState.Fold | internal/sessions/sessions.go:118-151 | every key's open and sealed blocks are what that key's own events, in time order, make of its open block |
| SessionFold.LaterBatchesSortApart | internal/sessions/sessions.go:121-121 | a strictly later batch sorts after an earlier one, whole |
| SessionFold.FollowsStep | internal/sessions/sessions.go:124-142 | one event changes its own key's line and no other's |
| SessionFold.SealOne | internal/sessions/sessions.go:144-149 | sealing keys in any order seals exactly the stale ones |
| SessionHistory.SealingEarlyIsHarmlessExactlyWhen | internal/sessions/sessions.go:12-15 | sealing a quiet block at an earlier scan changes the outcome if and only if its key's next event falls within the gap of it |
| SessionHistory.TwoScansAreOneExactlyWhen | internal/sessions/sessions.go:118-151 | two scans of one key equal one of both batches if and only if the second revives no block the first sealed for silence |
| SessionHistory.SplitScansAgreeExactlyWhen | internal/sessions/sessions.go:118-151 | for a second batch strictly later than the first, whole scans of many keys agree with one if and only if no block sealed for silence is revived |
| SessionBatches.SortingMerges | internal/sessions/sessions.go:121-121 | sorting two batches together is merging them sorted, the first going first on a tie |
| SessionBatches.TwoScansAddUpExactlyWhen | internal/sessions/sessions.go:92-151 | for any two batches of one key, whatever their times, two scans equal one of the merge if and only if the second adds up with the first: it revives no stale block, reaches none that was cut off, opens the open one earlier only by events that lead up to it with its project and agent, and has the last word on branch and model |
| SessionBatches.SplitScansAddUpExactlyWhen | internal/sessions/sessions.go:92-151 | the same for whole scans of many keys, key by key, with no condition on the batches |
| SessionBatches.LaterBatchesAddUp | internal/sessions/sessions.go:118-151 | for a strictly later batch, adding up is not reviving a block sealed for silence |
| SessionBatches.LateByTheGap | internal/sessions/sessions.go:92-98 | an event scanned after one it precedes adds up if and only if the two lie within GapTimeout |
| SessionHistory.SplitScansAgree | internal/sessions/sessions.go:118-151 | two scans leave and seal what one does when the second batch is strictly later and no older than the first scan's time less SealTimeout minus GapTimeout |
| SessionHistory.ManyScansAreOne | internal/sessions/sessions.go:118-151 | so do any number of scans |
| SessionHistory.LateEventsFoldDifferently | internal/sessions/sessions.go:92-98 | an input on which a late batch gives one block where one fold gives two |
| SessionTotals.FoldingAllKeysConserves | internal/sessions/sessions.go:95-151 | over all keys of a mixed batch, events and token counts sealed plus open afterwards are those open before plus the batch's |
| SessionTotals.HistoriesConserve | internal/sessions/sessions.go:95-151 | the same over any run of scans, timely or not |
| SessionAccount.CountersAreConserved | internal/sessions/sessions.go:92-151 | counter by counter, sealed plus open afterwards is open before plus the sum over the events' own fields; the events are counted once each |
| SessionAccount.HistoriesConserveCounters | internal/sessions/sessions.go:92-151 | the same over any run of scans |
| SessionAccount.ScansDescribeTheirEvents | internal/sessions/sessions.go:92-151 | for any open blocks and events, a key's blocks describe its events group by group, the first going on from the block it had: bounds, project, agent, last branch and model, every counter; cut where more than fifteen minutes pass, and sealed in the end if and only if silent for more than thirty |
| SessionAccount.KeysAreExact | internal/sessions/sessions.go:125-125 | events of one agent and of projects alike but for ASCII case share a key, and no others when projects hold no separator |
| SessionAccount.SeparatorsShareAKey | internal/sessions/sessions.go:125-125 | an input: two agents under one key |
| SessionAccount.IdsAreExact | internal/sessions/sessions.go:42-46 | two blocks share an ID input if and only if machine, agent, project and the second of the start agree, when names hold no separator |
| SessionHistory.BlocksAreMaximalStretches | internal/sessions/sessions.go:118-142 | from no open block, a key's blocks are its events cut exactly where more than GapTimeout passes, each block describing its whole stretch |
| SessionHistory.FirstScanCutsAtTheGaps | internal/sessions/sessions.go:118-151 | the same of a whole first scan, for every key |
| SessionHistory.IdsOfOneKeyDiffer | internal/sessions/sessions.go:42-46 | two blocks of one key lie more than the gap apart and have different ID inputs |
| SessionStore.Journal.WriteShard | internal/sessions/store.go:75-95 | the shard gains the group, or part of it when a write fails, and loses nothing |
| SessionStore.Journal.AppendBlocks | internal/sessions/store.go:54-73 | the shards gain the blocks, or part of them, and lose nothing |
| SessionStore.Journal.ScanLocked | internal/sessions/scan.go:29-57 | blocks reach the shards before the resume point is saved; a scan that stops leaves the old resume point and at most the blocks it sealed |
| SessionStore.Journal.ReadBlocks | internal/sessions/store.go:97-120 | one block for every ID stored and none that is not, so all stored blocks when IDs do not collide |
| SessionStore.ReadShard | internal/sessions/store.go:122-143 | the first block of each unseen ID |
| SessionStore.CrashedScansSealNothingNew | internal/sessions/scan.go:47-53 | whatever a crashed scan sealed, a timely later scan seals again |
| SessionStore.CrashBeforeSaveIsHarmless | internal/sessions/scan.go:47-53 | whatever part of it reached the shards, after the next timely scan shards and open blocks are what they would be without the crash |
| SessionCrashes.TryScan | internal/sessions/scan.go:29-57 | however a scan ends, it is one attempt of the runs below |
| SessionCrashes.CrashesAreHarmless | internal/sessions/scan.go:47-53 | any number of crashes in a timely run: once a scan saves, open blocks and shards are those one scan of everything gives |
| SessionCrashes.CrashIsHarmlessExactlyWhen | internal/sessions/scan.go:47-53 | with later events after it, a crash between append and save leaves shards and open blocks as they would be without it, whatever part was written, if and only if no key's next event comes within the gap of a block the crashed scan sealed for silence |
| SessionCrashes.CrashLosesAnEvent | internal/sessions/store.go:122-143 | an input: a second event 14 minutes on, a scan that crashed at minute 31; the rerun's block has the ID of the one already written, which the reader keeps in its place, where without the crash the event has a block of its own |
| SessionCrashes.SealedIdsDiffer | internal/sessions/sessions.go:42-46 | no two blocks a machine ever seals share an ID input, over all keys, when agents' names hold no separator |
| SessionCrashes.ReadAfterCrashes | internal/sessions/store.go:97-120 | reading after such a run gives exactly the blocks of one scan of everything, each once |
| Lines.JoinOfSplit | internal/memory/chunk.go:233-235 | joining what was split at line breaks gives the text back |
| Lines.TrimmingIsExact | internal/memory/chunk.go:140-145 | trimming takes the white space off both ends and nothing else |
| MemoryChunks.MetaBlock | internal/memory/chunk.go:183-208 | the loop finds the comment's text and what follows it, or that it never closes before a blank line |
| MemoryChunks.MetaBlockIsExact | internal/memory/chunk.go:183-208 | the comment is found if and only if some line holds its end before a blank one, and is what closing at that line gives, text after the mark kept |
| MemoryChunks.NoneClosesEarlier | internal/memory/chunk.go:198-198 | the end of the comment is the first one in its line |
| MemoryChunks.TakingMetaShortens | internal/memory/chunk.go:152-181 | taking the metadata off never leaves more lines than there were |
| MemoryPages.CommentsAreLifted | internal/memory/chunk.go:152-219 | a comment at the head of a body, closed by its first mark before a blank line, is metadata if it gives one of five fields a value, each read under its own name, and then the body goes on behind the mark; else it stays |
| MemoryPages.NothingElseIsLifted | internal/memory/chunk.go:152-208 | without such a comment the body stays as it is and there is no metadata |
| MemoryChunks.SplitParts | internal/memory/chunk.go:221-247 | the loop gives the parts of the block |
| MemoryChunks.SplittingIsSound | internal/memory/chunk.go:221-247 | parts differ from the block in body and line only, their lines ascend from the block's within its extent, their bodies join back to its body, and none of a cut block is over the limit unless a single line |
| MemoryPages.PartsAreFilled | internal/memory/chunk.go:221-247 | a block within the limit stays whole; parts follow one another line by line, and no part could have taken the next one's first line |
| MemoryChunks.AppendChunk | internal/memory/chunk.go:140-150 | adds the chunks one heading's body gives, none when both are empty |
| MemoryChunks.Chunks | internal/memory/chunk.go:111-138 | the loop cuts the page at its headings |
| MemoryChunks.PagesAreCutAtHeadings | internal/memory/chunk.go:111-138 | every line of the page is in the preamble or in the one section of its heading, and the chunks are the preamble's and then each section's, under its heading and at its line |
| MemoryPages.SectionIsWhole | internal/memory/chunk.go:140-150 | one heading's chunks start at its line, their bodies join to its trimmed text without metadata, and each says page, heading, header and metadata; none when text and heading are empty |
| MemoryPages.ChunksStandUnderTheirHeadings | internal/memory/chunk.go:111-150 | every chunk of a page stands under the last heading line at or above its own, has its title and names it in the header |
| MemoryPages.HeadingsAreFound | internal/memory/chunk.go:111-150 | every heading with a title has a chunk at its line |
| MemoryPages.TextsTellChunksApart | internal/memory/chunk.go:40-60 | texts of chunks with one header are equal if and only if their bodies are, struck spans dropped, and texts under headers of one line tell header and body |
| MemoryChunks.ChunkLinesAscend | internal/memory/chunk.go:111-247 | a page's chunks start on lines of that page, strictly ascending, whatever metadata came out and however blocks were cut |
| MemoryChunks.KeysAreExact | internal/memory/embed.go:78-80 | a key determines its path and line, whatever the path holds |
| MemoryChunks.ChunkKeysNeverCollide | internal/memory/embed.go:78-80 | no two chunks of a page share a key |
| MemoryChunks.KeyAt | internal/server/memory_api.go:142-156 | the last chunk starting at or before the line, the first when none does |
| MemoryChunks.KeyAtOwnLine | internal/server/memory_api.go:142-156 | looking a chunk's own line up finds that chunk |
| MemoryStore.UpsertedExactly | internal/memory/store_flat.go:110-124 | after an upsert of distinct keys each is held under its key and every other key is as it was |
| MemoryStore.FlatStore.Hashes | internal/memory/store_flat.go:98-108 | every key held, with its hash |
| MemoryStore.FlatStore.Upsert | internal/memory/store_flat.go:110-124 | byKey still indexes entries, the view gains the entries, existing ones keep their place |
| MemoryStore.FlatStore.DeletePaths | internal/memory/store_flat.go:126-148 | byKey still indexes entries, and exactly the entries at other paths are left, in order |
| MemoryStore.FlatStore.Reindex | internal/memory/store_flat.go:150-155 | byKey indexes entries |
| IndexWorker.ChangedChunks | internal/server/embed_worker.go:223-244 | rebuild if and only if a stored key of the page belongs to none of its chunks; otherwise exactly the chunks whose hash differs |
| IndexWorker.EmbedAndUpsert | internal/server/embed_worker.go:246-276 | stores one fresh entry per chunk, or nothing when the model fails or answers short |
| IndexWorker.IncrementalRefinesRebuild | internal/server/embed_worker.go:192-244 | with nothing left over, upserting only what changed gives the keys, paths, lines, hashes and vectors of a rebuild, and touches no other page |
| IndexWorker.HeadingsDecideExactness | internal/server/embed_worker.go:223-244 | it gives a rebuild to the last field if and only if no chunk left alone has come under another heading |
| IndexWorker.HeadingsMayDiffer | internal/memory/chunk.go:140-150 | one key and one hash under two headings, for any title, heading and body that fit one chunk |
| IndexWorker.OldHeadingStays | internal/server/embed_worker.go:223-244 | an input: two pages one after the other, the store keeping the first's heading |
| IndexWorker.Process | internal/server/embed_worker.go:192-221 | on success the store agrees with dropping the page and indexing it again; a missing page is dropped; other pages' entries, and all entries of other trees, are untouched and the store stays sound whatever happens |
| IndexWorker.TreesNeverMeet | internal/server/embed_worker.go:78-91 | two trees whose names hold no separator never share a key |
| IndexWorker.SeparatorsShareAKey | internal/server/embed_worker.go:89-91 | an input: two trees and one key |
| IndexWorker.ProcessedPagesAreFiled | internal/server/embed_worker.go:246-276 | after a page is processed each chunk's entry is at tree, path and line, with the hash and vector of its text |
| IndexWorker.LeftoversAreItsOwn | internal/server/embed_worker.go:223-244 | with no `#` in paths a page is rebuilt if and only if an entry at its path stands at a line that is none of its chunks' |
| IndexWorker.LongerNamesAreLeftOver | internal/server/embed_worker.go:237-242 | an input: another page's keys, counted as left over |
| IndexWorker.EditedBodiesAreOutdated | internal/server/embed_reconcile.go:67-86 | a chunk whose body differs from the one indexed is found by the next sweep |
| IndexWorker.DroppedPagesAreOutdated | internal/server/embed_worker.go:36-40 | a page dropped and not indexed again is found missing by the next sweep, unless it has nothing to index; with ChangedPagesAreOutdated this gives Process's clause for a failed embed |
| IndexWorker.ChangedPagesAreOutdated | internal/server/embed_worker.go:36-40 | a page with something left to embed is found by the next sweep |
| IndexWorker.ProcessedPagesHoldTheirChunks | internal/server/embed_worker.go:192-221 | then the page's entries are exactly its chunks |
| IndexWorker.PageNeedsIndexing | internal/server/embed_reconcile.go:67-86 | true if and only if some chunk is missing from the index or has another hash |
| IndexWorker.ProcessedPagesAreNotQueued | internal/server/embed_reconcile.go:67-86 | a processed page is not queued again |

## Left out

- Flow validation beyond ordering: environment names, secrets, run and type, timeouts. Each only refuses more flows.
- Preflight of models, process spawning and start times with the sort by them: what running a step gives is a parameter.
- Cancellation from outside the run: like a timeout, it makes later results arbitrary.
- Which values are secret, by name, length, declaration or inheritance, and redacting what a result keeps: FlowRedact is given the list, in order. A replacer is modelled as Go documents strings.NewReplacer: left to right, without overlap, the first listed match at each place.
- FlowStream.CaptureAll: its last clause is for redactors that treat lines apart; the exact condition is on the list of secrets, in FlowRedact.MirrorIsExactExactlyWhen. Captures sharing one sink are not modelled together.
- FlowSources.ModelSources: finding imports by regular expression, subpath patterns and sha256 are replaced by each file's list of resolved imports and by the bytes hashed.
- HTTP, path visibility filters, Push, Pull, ResetBase and a corrupt base file of sync. Paths are those both sides admit.
- A file operation is one step: a partly written file is not modelled.
- SyncFleet.FleetConverges: one try is atomic with respect to other machines.
- SyncFleet.NothingIsLostSilently: preservation is per sync; a later conflict on the same path overwrites the copy.
- SyncClient.Client.PruneSingleWriterConflicts: copies in a directory that cannot be walked, or that the walk prunes, are not told apart from the others.
- Costs of sessions, which are floating point, and the 64-bit width of counters.
- SessionFold.ScanState.Fold: open blocks are values in a map, not shared pointers; events of one batch at the same instant keep their order, which Go's sort does not promise; keys fold ASCII letters only; the ID is the text that is hashed, with the second the block started in.
- SessionStore.Journal.ReadBlocks: the final sort by start time, lines that do not parse and files that cannot be opened. That IDs do not collide is a condition of its last clause, met in SessionCrashes.ReadAfterCrashes.
- Rescan, the live file, the three collectors and their file offsets: a transcript is one growing list.
- Frontmatter, reading a scalar and dropping struck-through text are parameters of chunking; text is bytes and only ASCII space is trimmed.
- MemoryPages.PartsAreFilled: lines of parts are counted, as in the code, from the trimmed body without its metadata, so a part need not stand on that very line of the page.
- Nearest, cosine and the flat store's file format; Qdrant.
- IndexWorker.Process: an unchanged chunk's entry may keep an old heading, as stated above. The hash is taken to be injective and never empty, and the store to start sound.
- IndexWorker.PageNeedsIndexing: Reconcile's walk, the queue and its debounce. It does not find entries of deleted pages.
