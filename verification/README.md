# mantlerd: a verified model of the edge agent

`mantlerd` runs on a machine, receives commands from a control plane, keeps model runtimes in the desired state,
relays requests over one websocket and reports what happened. This project models the parts of it that keep state,
plan or encode, and proves what they are relied on for. `dafny verify dfyconfig.toml` checks all of it.

## How the model is laid out

| file | what it models |
|---|---|
| `Dispatcher.dfy`, `DispatcherRuns.dfy` | the command dispatcher as a step system (enqueuer, heavy worker, light lane, executor registry, acknowledgement, shutdown) and the laws of all its runs |
| `DispatcherWitnesses.dfy` | runs that reach what those laws warn of |
| `CommandDispatcher.dfy` | the dispatcher object with its channel, semaphore, counter and registry; every method is a step of that system, so its laws hold of the object |
| `FailedAcks.dfy`, `OutcomeBuffer.dfy` | acknowledgement with retries and the persistent queue behind it; the capped outcome buffer |
| `Reconcile.dfy`, `Fleet.dfy` | desired-state reconciliation: what a cycle amounts to, and the loops, routing and manifest registry that carry it out |
| `ExplorePlan.dfy`, `CatalogMerge.dfy` | applying and undoing an explore plan; the keyed catalog merge |
| `EnvCodec.dfy`, `GoQuote.dfy` | the env-file printers and readers, `%q` and its inverse |
| `TensorrtEnv.dfy` | the TensorRT driver's env file, which is escaped but never unescaped |
| `GoStrings.dfy`, `Sorting.dfy`, `Basics.dfy` | the string functions, the sort and the small facts the others share |
| `Relay.dfy`, `Base64.dfy` | the frames of concurrent responses on one connection |
| `Memory.dfy`, `LoadPlan.dfy` | memory estimates; the load planner and the preflight that follows it |
| `Goose.dfy` | the event-stream reader, content deltas and tool actions |
| `Integrity.dfy`, `Stages.dfy` | what a pipeline stage signs, and the hand-off from compress to infer |
| `JobStore.dfy`, `Quoting.dfy`, `Backoff.dfy` | job pruning and storage, shell and XML quoting, waiting and retrying |

Go strings are byte strings here: a `char` stands for one byte, and `IsBytes` says so where it matters. What the
outside world decides (driver calls, storage, replies, cancellation, the jitter) is nondeterministic or a parameter.
Cryptography and JSON text are abstract functions with their round-trip laws as hypotheses (`Stages.JsonLaw`,
`EncryptLaw`, `SignLaw`).

## What the proofs turned up

- **Outcome buffer.** When additions overflow the buffer during a check-in, the cap evicts events the server is being
  sent, and the drop that follows still removes the full count from the front: each addition to a full buffer costs
  exactly one unsent event (`CheckinLeavesTheAdded`, `LossesAreOverflows`).
- **Shutdown.** Commands still in the heavy channel when the worker stops remain counted for ever, so waiting for idle
  succeeds again if and only if the channel was empty (`ShutdownStrandsTheQueue`, reached in `ShutdownCanStrand`).
- **Cancel registry.** It is exact until an unregistered ID is shared by another running command, and in that very
  step it stops being exact (`CancelsStep`, reached in `SharedIdForgets`). It may miss a running command, but what it
  finds is always a running one with the ID asked for (`CancelFindsTheRunning`).
- **Acknowledgements.** At idle an acknowledgement is lost exactly if the failed-ack store refused it
  (`IdleIsSafeIffNoneRefused`, reached in `IdleCanHaveLost`). A flush whose queue cannot be written leaves what it
  delivered in the queue, to be sent again (`UnsavedFlushResends`); the books balance throughout iff neither happens (`AcksAreConserved`).
- **Reconciliation.** A model without a runtime of its own that routes to llamacpp while llamacpp is being ejected is
  prepared and removed in every cycle; nothing else disturbs a settled state (`QuietIffNoChurn`, `ChurnExists`).
- **TensorRT env files.** That driver writes with `%q` but reads without unescaping. A value survives iff it is plain:
  printable text with no quote and no backslash (`RereadIsStableIffPlain`). The backslashes of any other value double
  with every restart (`EscapedValuesDouble`).
- **Load plan.** The planner compares the manifest's raw ID, preflight a trimmed one: a padded ID of a loaded model is
  planned but not attempted, the loaded copy is ejected, and the model is reported as loaded all the same
  (`AttemptsAreThePlan`, `MisreadIsLost`, `PaddedIdIsMisread`). A sequential plan is never carried out, since it does
  not fit (`SequentialMeans`, `RunPreflight`).
- **Context estimates.** An unset context counts as 4096 tokens, so the estimate falls exactly when an unset context is
  replaced by a set one below 4096 (`EstimateMonotoneInContext`).
- **Signing.** The signed bytes determine the record exactly when no field holds a NUL (`ParseUndoesSerialize`,
  `NulsCollide`).
- **Compression.** The compress stage writes its default tool state to a nil map, and panics, exactly when the runtime's
  reply is the JSON null (`StagePanicsIffNullReply`).
- **Retry-After.** Beyond 9 223 372 036 seconds the 64-bit product wraps; the first such hint comes out negative and
  is ignored (`RetryAfterWraps`).

## Model

| member | source | states |
|---|---|---|
| `Dispatcher.NextKeepsInv` | cmd/mantler/start.go:212-313 | every atomic action of the enqueuer, the worker, the light goroutines, execute and shutdown keeps the invariant: counter, stages, channel, semaphore and heavy order agree |
| `Dispatcher.SafeInEveryRun` | cmd/mantler/start.go:212-317 | in every state of every run the counter is the number of commands accepted and not yet finished or abandoned, at most 64 are queued, at most one heavy command executes, and tokens cover the executing light commands within the cap |
| `DispatcherRuns.NothingLost` | cmd/mantler/start.go:245-263 | what was counted and what is still to be counted are, in order, the batches received |
| `DispatcherRuns.HeavyLaneInBatchOrder` | cmd/mantler/start.go:234-263 | until shutdown, heavy commands started, queued, blocked and pending are in this order exactly those received |
| `DispatcherRuns.StartedInBatchOrder` | cmd/mantler/start.go:234-263 | the worker starts heavy commands in batch order |
| `DispatcherRuns.OutcomesAreJustified` | cmd/mantler/helpers.go:1039-1072 | every recorded outcome has the reply, the parking or the shutdown in the run that produced it |
| `DispatcherRuns.IdleMeansAcknowledged` | cmd/mantler/start.go:276-330 | a counter read as not positive before shutdown means every command counted so far was delivered, finally rejected, parked or refused by storage, with its justification in the run |
| `DispatcherRuns.IdleIsSafeIffNoneRefused` | cmd/mantler/helpers.go:1039-1072 | at idle before shutdown each acknowledgement is delivered, finally rejected or parked iff the store did not refuse it, and so all of them iff it refused none |
| `DispatcherRuns.NextDecreases` | cmd/mantler/start.go:234-313 | every action but receiving a batch decreases a measure over the stages of the commands |
| `DispatcherRuns.RunsAreFinite` | cmd/mantler/start.go:234-330 | after the last batch a run has at most that many actions left |
| `DispatcherRuns.ExhaustedRunIsIdle` | cmd/mantler/start.go:315-330 | a run that can go no further before shutdown has worked off everything it received and holds no token |
| `DispatcherRuns.ShutdownStrandsTheQueue` | cmd/mantler/start.go:234-330 | after shutdown exactly the commands left in the channel stay counted; idle is reached again iff there are none |
| `DispatcherRuns.CancelsStep` | internal/commands/executor.go:194-225 | one action keeps the cancel registry equal to the running commands iff it does not unregister an ID another running command shares |
| `DispatcherRuns.CancelsAreTheRunning` | internal/commands/executor.go:182-225 | with distinct IDs in flight the registry's keys are exactly the commands between register and unregister, in every run |
| `DispatcherRuns.CancelFindsTheRunning` | internal/commands/executor.go:182-225 | shared IDs or not, every entry of the registry in every run is that of a running command with its ID |
| `DispatcherRuns.ReachableIsSafe` | cmd/mantler/start.go:212-317 | every state some run ends in keeps the invariant, and its registry holds running commands only |
| `DispatcherWitnesses.ShutdownCanStrand` | cmd/mantler/start.go:234-263 | a run ends shut down with a command in the channel and the counter at one, and nothing can move it |
| `DispatcherWitnesses.SharedIdForgets` | internal/commands/executor.go:194-225 | two running commands share an ID; the first to end removes the entry of the second |
| `DispatcherWitnesses.IdleCanHaveLost` | cmd/mantler/helpers.go:1039-1072 | a run reads idle after a command whose acknowledgement was neither answered nor stored |
| `CommandDispatcher.CommandDispatcher.constructor` | cmd/mantler/start.go:212-232 | the light lane gets at least one slot; everything else starts empty, the first state of a run, and the object stays in states that runs reach |
| `CommandDispatcher.CommandDispatcher.Count` | cmd/mantler/start.go:251-253 | counting a command is the accept step, before its lane is looked at |
| `CommandDispatcher.CommandDispatcher.SendHeavy` | cmd/mantler/start.go:253-257 | the channel send appends the command and is the send step |
| `CommandDispatcher.CommandDispatcher.Take` | cmd/mantler/start.go:234-242 | the worker's receive takes the oldest command and is the take step |
| `CommandDispatcher.CommandDispatcher.GiveUp` | cmd/mantler/start.go:258-271 | shutdown uncounts a blocked or waiting command and nothing else |
| `CommandDispatcher.CommandDispatcher.AcquireLight` | cmd/mantler/start.go:265-268 | a light command starts by putting one token in |
| `CommandDispatcher.CommandDispatcher.ReleaseLight` | cmd/mantler/start.go:272-273 | the deferred receive finds a token and takes one out |
| `CommandDispatcher.CommandDispatcher.RegisterCancel` | internal/commands/executor.go:194-198 | registering maps the ID to this command's cancel function |
| `CommandDispatcher.CommandDispatcher.UnregisterCancel` | internal/commands/executor.go:200-204 | unregistering removes the ID |
| `CommandDispatcher.CommandDispatcher.Finish` | cmd/mantler/start.go:276-277 | the deferred decrement ends the command's flight |
| `CommandDispatcher.CommandDispatcher.HasActiveWork` | cmd/mantler/start.go:315-317 | the counter is positive iff some command is in flight |
| `CommandDispatcher.CommandDispatcher.CancelCommand` | internal/commands/executor.go:182-192 | a request finds a command iff the registry holds the ID, and what it finds is a running command with that ID; with an exact registry it finds one iff such a command runs |
| `FailedAcks.AckStore.Enqueue` | cmd/mantler/helpers.go:1101-1111 | a stored payload goes to the end and the file keeps the last min(n + 1, 2000); a failure changes nothing |
| `FailedAcks.AckStore.AckWithRetry` | cmd/mantler/helpers.go:1039-1072 | up to three replies, none but the last of them good or a 4xx other than 429; delivered iff the last was good; queued only after three that decided nothing; 300 ms between them, or what a 429 asks for between a second and a minute; the ledger enters it as one submission |
| `FailedAcks.AckStore.Flush` | cmd/mantler/helpers.go:1074-1099 | one try each in order, stopping only at a 429; the queue becomes what failed and what was not tried; the ledger enters it as one flush |
| `FailedAcks.FlushKeepsOrder` | cmd/mantler/helpers.go:1083-1095 | a flush keeps a subsequence of the queue |
| `FailedAcks.FlushLosesNothing` | cmd/mantler/helpers.go:1083-1095 | what it keeps and what it got through are together what was queued |
| `FailedAcks.RateLimitKeepsSuffix` | cmd/mantler/helpers.go:1089-1095 | after a 429 the payload it answered and all behind it stay verbatim |
| `FailedAcks.FlushKeepsFailures` | cmd/mantler/helpers.go:1083-1095 | what a flush keeps is, in order, exactly what it did not try or got another reply than a success for |
| `FailedAcks.FlushDelivers` | cmd/mantler/helpers.go:1083-1095 | what it gets through is, in order, exactly what got a success |
| `FailedAcks.EvictionsAreOverflows` | cmd/mantler/helpers.go:1101-1111 | in any history, whatever storage does, a queued submission evicts exactly max(0, n + 1 - 2000), and nothing else evicts |
| `FailedAcks.AcksAreConserved` | cmd/mantler/helpers.go:1039-1111 | over every history each acknowledgement is at all times in exactly one of delivered, rejected, queued, evicted, the evicted older than the queued, iff storage failed no submission that had to queue and no flush that delivered; an operation evicts exactly what a queued submission pushes beyond 2000 |
| `FailedAcks.WorkingStorageConserves` | cmd/mantler/helpers.go:1039-1111 | in particular while storage works |
| `FailedAcks.UnsavedFlushResends` | cmd/mantler/helpers.go:1083-1098 | a flush whose queue is not written leaves what it delivered queued, and keeps the books balanced iff that is nothing |
| `FailedAcks.StoreConserves` | cmd/mantler/helpers.go:1039-1111 | whatever calls a store has had, its file holds what its ledger calls queued, the ledger has balanced throughout iff every call that needed the file got it, and only what went beyond 2000 was evicted |
| `OutcomeBuffer.OutcomeBuffer.Add` | cmd/mantler/start.go:332-346 | blank events are ignored, others stamped and appended, the oldest beyond 2000 dropped; the books enter it |
| `OutcomeBuffer.OutcomeBuffer.Snapshot` | cmd/mantler/start.go:348-357 | the snapshot is the buffer; the books enter the beginning of a check-in |
| `OutcomeBuffer.OutcomeBuffer.DropPrefix` | cmd/mantler/start.go:359-372 | the given number of events goes from the front, all of them if there are fewer; for what the check-in sent the books enter its success |
| `OutcomeBuffer.CheckinLeavesTheAdded` | cmd/mantler/start.go:332-372 | with n events sent and m added meanwhile the drop leaves the m without their first max(0, n+m-2000), and no sent event |
| `OutcomeBuffer.Checkin` | cmd/mantler/start.go:440-502 | a whole check-in with additions meanwhile: afterwards the buffer is the added events but for the overflow, or everything capped if it failed, and the books have it all in order |
| `OutcomeBuffer.NothingLostIffNoOverflow` | cmd/mantler/start.go:332-372 | no unsent event is lost iff the additions did not overflow the buffer |
| `OutcomeBuffer.LossesAreOverflows` | cmd/mantler/start.go:440-502 | over every history of additions and good or failed check-ins each event is sent, buffered or lost, and as many are lost as additions found the buffer full |
| `OutcomeBuffer.BufferLosses` | cmd/mantler/start.go:332-502 | so it is with the buffer: between check-ins it holds what its books say, and they have lost as many events as additions found it full |
| `Reconcile.CycleIsIdempotent` | cmd/mantler/helpers.go:36-150 | with successful driver calls and nothing newly installed, a second cycle ends where the first did |
| `Reconcile.QuietIffNoChurn` | cmd/mantler/helpers.go:36-150 | after such a cycle enforcing again touches nothing iff no unprotected model without a runtime routes to llamacpp under ejection |
| `Reconcile.AddedIsDesired` | cmd/mantler/helpers.go:36-69 | what enforcing prepares under a trimmed ID is desired, and it names llamacpp under ejection for no target |
| `Reconcile.IntentsAre` | cmd/mantler/helpers.go:36-69 | asked for are every runtime, every target on its runtime unless that is llamacpp under ejection, and, with no runtime named, the targets without one and the plain models no target names |
| `Reconcile.EnforcingDoesAll` | internal/runtime/manager.go:176-284 | without faults everything asked for comes about: a slash goes to vllm, else a colon to ollama if registered, else the model is on an installed runtime no later in name order than any there was |
| `Reconcile.EnforcingDoesOnly` | internal/runtime/manager.go:176-284 | and nothing else: whatever a runtime holds only now, and every runtime installed only now, was asked for there |
| `Reconcile.TwoCyclesSettle` | cmd/mantler/helpers.go:36-150 | from every state, with successful driver calls, a third cycle changes nothing that two have settled |
| `Reconcile.ChurnExists` | cmd/mantler/helpers.go:36-150 | whatever drivers are registered, a machine that has installed llamacpp alone and is asked for a model by name alone churns |
| `Fleet.Manager.EnsureRuntime` | internal/runtime/manager.go:176-188 | a known runtime is installed or kept; an unknown one is an error |
| `Fleet.Manager.InstalledRuntimes` | internal/runtime/manager.go:77-86 | the installed runtimes, each once, in name order |
| `Fleet.Manager.PreparePreferred` | internal/runtime/manager.go:190-211 | slash to vllm, colon to ollama, if installed; else the first installed runtime |
| `Fleet.Manager.PrepareModel` | internal/runtime/manager.go:223-253 | without faults the model ends up on the runtime the routing gives, which is installed if need be |
| `Fleet.Manager.PrepareModelWithRuntime` | internal/runtime/manager.go:255-284 | a named runtime is ensured and used; a blank one means routing |
| `Fleet.Manager.EnforceDesired` | cmd/mantler/helpers.go:36-69 | runtimes and models only grow; without faults the loops end exactly in the planned state |
| `Fleet.Wanted` | cmd/mantler/helpers.go:86-112 | the desired IDs, and per runtime a part of them: the per-runtime check never keeps anything more |
| `Fleet.Manager.RemoveModel` | internal/runtime/manager.go:460-469 | only that model can go, only on that runtime |
| `Fleet.Manager.ReconcileRuntime` | cmd/mantler/helpers.go:120-147 | without faults a listed model stays iff its ID is blank or untrimmed, it is protected, or it is desired and the runtime is not llamacpp under ejection; whatever fails, no such model goes and none comes |
| `Fleet.Manager.ReconcileStale` | cmd/mantler/helpers.go:71-150 | the same for all installed runtimes, said of the desired state itself: protected IDs, targets and plain models count when trimmed; no other runtime changes |
| `Fleet.Manifests.Register` | internal/commands/executor.go:134-141 | a manifest is entered unless it is nil or its command ID blank |
| `Fleet.Manifests.Unregister` | internal/commands/executor.go:143-150 | the entry goes, unless the ID is blank |
| `Fleet.Manifests.ActiveModelIds` | internal/commands/executor.go:152-180 | each local model of a registered manifest once, trimmed, and nothing else |
| `Fleet.ManifestModelsStay` | cmd/mantler/helpers.go:75-132 | a local model of a registered manifest is among those every stale pass keeps |
| `Fleet.CheckinReconcile` | cmd/mantler/start.go:525-526 | the two passes make one cycle when nothing fails, and then a runtime is left, under trimmed IDs, only with models in use by a manifest or asked for and not ejected; whatever fails, no such model leaves a runtime that had it |
| `ExplorePlan.RestoreUndoesWrites` | cmd/mantler/explore.go:744-836 | whatever was written in between, restore takes every touched path back to its content or absence before the first write and touches no other path |
| `ExplorePlan.RestoreAfterWrites` | cmd/mantler/explore.go:744-836 | restoring right after an apply gives all files back |
| `ExplorePlan.RestoreSomeUndoes` | cmd/mantler/explore.go:826-836 | whatever file operations fail, an untouched path is left alone, and a touched one is back once the undo of its first write succeeds |
| `ExplorePlan.RestoreSomeIsAll` | cmd/mantler/explore.go:826-836 | with no failure that is the whole restore |
| `ExplorePlan.ApplyFiles` | cmd/mantler/explore.go:893-955 | the k-th write goes to the sanitised destination of its file with that file's content, or its source's as the files stood then; on success a file is left out iff it has no destination or nothing to write, and every destination passed the sanitiser; the undo log is that of the writes |
| `ExplorePlan.ApplyEnv` | cmd/mantler/explore.go:752-808 | on success the env file is the printed overlay of the parsed old file and the overrides, with its undo |
| `ExplorePlan.OverrideOverlays` | cmd/mantler/explore.go:779-793 | the overlay has the last override of every key and the old value of every other |
| `ExplorePlan.ApplyPlan` | cmd/mantler/explore.go:744-836 | the writes are those of the env file, the printed overlay, and then those of the files, as for each alone, with one undo log; the store's log records the apply and whether it succeeded |
| `ExplorePlan.Restore` | cmd/mantler/explore.go:826-836 | runs every undo from the last to the first, past those the system refuses, and the store's log records it |
| `ExplorePlan.RunRestore` | cmd/mantler/explore.go:357-436 | after a successful apply the files become what its undo log makes of them, undo by undo; after a failed one nothing is touched |
| `ExplorePlan.TryStack` | cmd/mantler/explore.go:333-445 | once the runtime is ensured the plan is applied exactly once, and on every path a successful apply has been restored exactly once, by its own undo log, and the files are what that restore left; when the loop goes on, and with which fallback |
| `ExplorePlan.RunExplore` | cmd/mantler/explore.go:244-445 | over at most three attempts, on every path, every successful apply in the store's log is followed at once by its own restore, and there is no other restore; each attempt has its own recommendation |
| `EnvCodec.ParseEnv` | cmd/mantler/explore.go:855-877 | the reading loop yields for each key its last line, decoded in the reader's way |
| `EnvCodec.ParseLinesMean` | cmd/mantler/explore.go:855-877 | the keys read are those the lines name, each with what the last of its lines says |
| `EnvCodec.ParseLineMeans` | cmd/mantler/explore.go:855-877 | a line says something iff it is no comment and has a key before its first equals sign |
| `EnvCodec.PlainIsRead` | internal/commands/executor.go:1503-1556 | a value that starts with no quote is taken as it stands by every reader |
| `EnvCodec.SingleQuotesComeOff` | internal/commands/executor.go:1503-1556 | all readers but the explore one take single quotes off and change nothing inside |
| `EnvCodec.RenderEnds` | cmd/mantler/explore.go:879-891 | a printed file ends with a quote and a newline; it is empty only for an empty environment, with the writers that allow it |
| `EnvCodec.RenderEnv` | internal/commands/executor.go:1538-1556 | every key once, sorted, one printed line each; the text depends on the environment alone, and the explore and executor writers differ only on the empty one |
| `EnvCodec.RenderVllmEnv` | internal/runtime/vllm_driver.go:1385-1424 | every key once: the known keys in their fixed order, then the others sorted |
| `EnvCodec.ParseRender` | internal/commands/executor.go:1503-1556 | every reader on every writer's text, in any key order, gets the environment back, the TensorRT reader with its values escaped |
| `EnvCodec.ReadersAgreeOnPrinted` | cmd/mantler/explore.go:855-891 | the explore, executor and vLLM readers agree on everything the writers print |
| `TensorrtEnv.UnescapedIffPlain` | internal/runtime/tensorrt_driver.go:742-747 | `%q` leaves a value as it is iff it is well-formed, printable, and has neither quote nor backslash |
| `TensorrtEnv.TensorrtAgreesIffPlain` | internal/runtime/tensorrt_driver.go:966-995 | the TensorRT reader gets back what was written iff every value is plain |
| `TensorrtEnv.BackslashMisread` | internal/runtime/tensorrt_driver.go:966-995 | a backslash comes back as two |
| `EnvCodec.ReprintIsStable` | cmd/mantler/explore.go:855-891 | for every text, reading, printing and reading again gives what the first reading gave |
| `TensorrtEnv.RestartRereads` | internal/runtime/tensorrt_driver.go:725-749 | a restart reads the file it wrote: both values escaped once more and trimmed, a blank image replaced |
| `TensorrtEnv.RereadIsStableIffPlain` | internal/runtime/tensorrt_driver.go:725-749 | a restart leaves a value alone iff it is plain and trimmed |
| `TensorrtEnv.EscapedValuesDouble` | internal/runtime/tensorrt_driver.go:725-749 | over any number of restarts the backslashes of a value at least double each time, and a value that is not plain has one after the first |
| `GoQuote.UnquoteQuote` | internal/commands/executor.go:1503-1556 | unquoting what `%q` prints gives every byte string back, whatever counts as printable |
| `GoQuote.QuoteExamples` | internal/commands/executor.go:1503-1556 | quote and backslash are escaped by a backslash, control characters by a letter, stray bytes in hex |
| `CatalogMerge.MergeEntries` | cmd/mantler/explore.go:108-139 | the loop with its index map computes the merge; an empty delta leaves the base as it is |
| `CatalogMerge.MergeMeaning` | cmd/mantler/explore.go:108-139 | for a non-empty delta keys are unique, stand where they first occurred and hold their last entry, and unkeyed entries stay |
| `CatalogMerge.MergeAssociates` | cmd/mantler/explore.go:108-139 | merging two deltas in turn is merging their concatenation, empty ones included |
| `CatalogMerge.MergeOverrides` | cmd/mantler/explore.go:108-139 | on keys the merge is right-biased map override |
| `CatalogMerge.CatalogMergeAssociates` | cmd/mantler/explore.go:99-106 | the same for whole catalogs |
| `Relay.Connection.Send` | internal/relay/client.go:568-578 | a successful send appends the frame; a failed one may or may not have written it |
| `Relay.Handle` | internal/relay/client.go:295-478 | alone on the connection a handler writes a prefix of its response, all of it if no send fails, and nothing for a blank ID; what it writes first is the error of a refusal or a start with the upstream's status |
| `Relay.FramesAnswer` | internal/relay/client.go:295-478 | a refusal is one error frame with its message; a response is a start with its status, chunks that decode to the bytes read up to the first error, and the frame for that error, end or its message |
| `Relay.HandleStage` | internal/relay/client.go:326-358 | the three sends of a stage response are a prefix of its frames, all of them if no send fails |
| `Relay.StageFrames` | internal/relay/client.go:326-358 | a complete stage response is start, at most one chunk and end, and decodes to the whole payload |
| `Relay.PrefixIsLegal` | internal/relay/client.go:295-478 | every prefix of a response is a prefix of error, or start chunk* (end or error) |
| `Relay.EndMeansWhole` | internal/relay/client.go:361-478 | a prefix with end in it is the whole response, and its chunks decode to the whole body |
| `Relay.EveryResponseIsLegal` | internal/relay/client.go:295-578 | both, and the first frame as above, for every interleaving of handlers with distinct IDs and every send failure |
| `Base64.DecodeEncode` | internal/relay/client.go:361-478 | decoding undoes the encoding of a chunk (section 4 of RFC 4648) |
| `Base64.DigitsOfTheTable` | internal/relay/client.go:361-478 | the digits are those of table 1 of RFC 4648 |
| `Base64.TestVectors` | internal/relay/client.go:361-478 | three vectors of section 10 of RFC 4648, one for each padding |
| `Memory.EstimateVRAM` | internal/manifest/memory.go:162-199 | an estimate covers at least the smallest cache and overhead |
| `Memory.EstimateParts` | internal/manifest/memory.go:162-199 | an estimate is the weights in whole MB, of the active parameters if declared, plus cache and overhead |
| `Memory.EstimateMonotoneInParameters` | internal/manifest/memory.go:162-199 | more declared parameters never lower a dense estimate |
| `Memory.BitsPerParameter` | internal/manifest/memory.go:77-98 | an n-bit format takes at least n/8 bytes a parameter and at most 0.12 more |
| `Memory.KvCacheMeans` | internal/manifest/memory.go:135-160 | the cache takes max(128, layers × heads × tokens / 2048) MB, with 8 layers and 4 heads for a billion parameters within their bounds |
| `Memory.KvCacheBounds` | internal/manifest/memory.go:135-160 | for context c > 0 the cache takes between max(128, c/16) and max(128, 7.5 c) MB |
| `Memory.KvCacheMonotone` | internal/manifest/memory.go:135-160 | more parameters or more context never need less |
| `Memory.EstimateMonotoneInContext` | internal/manifest/memory.go:162-199 | for every model and c ≤ d the estimate for c is at most that for d iff not c ≤ 0 < d < 4096 |
| `Memory.EstimateFollowsContext` | internal/manifest/memory.go:162-199 | in the effective context, 4096 when unset, it is monotone throughout |
| `Memory.KvCacheDips` | internal/manifest/memory.go:135-160 | for c ≤ d the cache shrinks iff c ≤ 0 < d < 4096 |
| `Memory.MoeNeverHigher` | internal/manifest/memory.go:185-199 | a mixture of experts is never estimated higher while active ≤ dense |
| `Memory.HeadroomIsLarger` | internal/manifest/memory.go:368-386 | headroom is the larger of the floor and a tenth of the memory, or 15 percent if unified, rounded down |
| `LoadPlan.PlanModelLoading` | internal/manifest/memory.go:403-490 | the planner's loops compute the plan that the next two rows describe |
| `LoadPlan.PlanListsMean` | internal/manifest/memory.go:403-445 | local are the machine's own models; loaded the IDs no listed model has when trimmed, ejected the listed models whose trimmed ID no local one has, sorted, repetitions kept |
| `LoadPlan.PlanMemoryMeans` | internal/manifest/memory.go:447-480 | projected use is max(0, used - estimates of all that goes + estimates of all that comes), free memory what is left; fits and sequential hold iff these, the headroom and each single load say so |
| `LoadPlan.PlanReachesLocals` | internal/manifest/memory.go:403-445 | ejecting and loading leaves exactly the local models iff shared models are listed as the manifest names them, which trimmed IDs always are |
| `LoadPlan.PlanListsInOrder` | internal/manifest/memory.go:427-445 | both lists are sorted, and disjoint iff no listed ID is named by the manifest padded only |
| `LoadPlan.FittingLeavesHeadroom` | internal/manifest/memory.go:471-480 | with known memory a plan fits iff the headroom stays free |
| `LoadPlan.SequentialMeans` | internal/manifest/memory.go:447-480 | a sequential plan does not fit, each load would fit alone, and it has two loads at least when the headroom is within the memory |
| `LoadPlan.ContainsModelId` | internal/manifest/preflight.go:212-220 | finds a listed model iff one has the same trimmed ID |
| `LoadPlan.RunPreflight` | internal/manifest/preflight.go:77-210 | no local model: ready at once; no fit: nothing is begun; otherwise, uncancelled, the planned models are stopped, the absent ones attempted, and ready iff all came up healthy |
| `LoadPlan.OutcomeMeans` | internal/manifest/preflight.go:149-210 | carried out, it attempts in order exactly the models no listed one answers for, reports those listed or started, and is ready iff these are all and each has a non-blank endpoint that answered |
| `LoadPlan.ReadyMeans` | internal/manifest/preflight.go:163-210 | readiness means every local model is reported loaded and has a non-blank endpoint that answered |
| `LoadPlan.AttemptsAreThePlan` | internal/manifest/preflight.go:163-187 | the attempts are the planned loads, counted with repetition, iff the manifest pads the ID of no listed model |
| `LoadPlan.MisreadIsLost` | internal/manifest/preflight.go:149-187 | otherwise every listed copy of that model is ejected, none is loaded, and it counts as loaded |
| `LoadPlan.PaddedIdIsMisread` | internal/manifest/preflight.go:149-187 | a manifest naming ` a` where `a` is loaded: planned to load ` a` and eject `a`, nothing attempted |
| `Goose.ConsumeReplyStream` | internal/commands/harness_exec.go:1078-1111 | the reader takes the stream apart at its newlines and hands on the payloads of those lines |
| `Goose.ReaderDeliversEvents` | internal/commands/harness_exec.go:1078-1111 | for LF and CRLF streams these are exactly the non-blank events, in order, other fields ignored (section 9.2.6 of the WHATWG HTML Standard, with the event still open at the end) |
| `Goose.DeltasSpellTheText` | internal/commands/harness_exec.go:1265-1281 | the deltas put together are the latest text iff every text extended the one before |
| `Goose.ActionsAreRunHeads` | internal/commands/harness_exec.go:1673-1682 | the action log is the non-blank trimmed names with each run of equal ones cut to one |
| `Goose.ActionsNeverRepeat` | internal/commands/harness_exec.go:1673-1682 | never blank, never the same twice in a row |
| `Goose.Execution.OnMessage` | internal/commands/harness_exec.go:1113-1142 | a message moves the text on, emits its delta and appends its actions |
| `Integrity.ParseUndoesSerialize` | internal/pipeline/contract.go:52-68 | the signed bytes give the record back iff its strings hold no NUL |
| `Integrity.SerializedForm` | internal/pipeline/contract.go:52-68 | the twelve fields in their order, a NUL between each two |
| `Integrity.SerializeInjective` | internal/pipeline/contract.go:52-68 | NUL-free records that sign alike are equal |
| `Integrity.NulsCollide` | internal/pipeline/contract.go:52-68 | a NUL moved between neighbouring fields gives a different record that signs alike |
| `Stages.NormalizeForCanonical` | internal/pipeline/contract.go:28-50 | the canonical form of a value is the value |
| `Stages.ValidateCompressedContext` | internal/pipeline/contract.go:70-132 | the scan accepts exactly the contexts that keep the contract |
| `Stages.ValidContextMeans` | internal/pipeline/contract.go:70-132 | the contract item by item: version 1, the texts not blank, the four lists, every artifact and every pending call described |
| `Stages.ToolStateOf` | internal/pipeline/compress.go:106-116 | the default tool state fails on a nil map only, and never decides whether a context is valid |
| `Stages.StagePanicsIffNullReply` | internal/pipeline/compress.go:13-117 | the stage panics iff it gets as far as a reply that, out of its fence, is the JSON null |
| `Stages.UnfenceMeans` | internal/pipeline/compress.go:199-210 | a text comes out of its code fence, marked as JSON or not, and one without a fence is left alone |
| `Stages.ModelAndRuntime` | internal/pipeline/compress.go:119-141 | model and runtime are those named at the top, else in the tool state, else the defaults |
| `Stages.CompressSucceeds` | internal/pipeline/compress.go:13-117 | compression yields f and its envelope iff there is a continuation and the reply is an object that completes to a valid f; the cargo is f encrypted for the next key, and the signed record has the hash and size of input and output each in its place |
| `Stages.InferAccepts` | internal/pipeline/infer.go:12-35 | infer accepts f iff the keys are there, the cargo opens to f, f is valid and the prior record names its hash under a signature that holds; otherwise a valid f is turned away for what is missing or what does not match |
| `Stages.HandOffIsAccepted` | internal/pipeline/infer.go:12-35 | whatever compress returns passes every gate of infer and arrives as the context compressed |
| `Stages.OnlyTheSignedContext` | internal/pipeline/infer.go:19-35 | with that signed record infer accepts no other context, if hashes do not collide |
| `JobStore.SortNewestFirst` | internal/trainer/job_store.go:61-65 | a permutation, later starts first |
| `JobStore.Prune` | internal/trainer/job_store.go:81-104 | at most fifty of the fresh jobs, none that goes having started after one that stays |
| `JobStore.FreshSelected` | internal/trainer/job_store.go:81-95 | fresh are, in order, exactly the active jobs and those whose end, failing that whose start, is later than the cutoff or unknown |
| `JobStore.SurvivesTheCap` | internal/trainer/job_store.go:97-103 | a fresh job stays if at most fifty started when it did or later, and goes, active or not, if fifty started after it |
| `JobStore.ActiveSurvive` | internal/trainer/job_store.go:81-104 | every active job survives while at most fifty are fresh |
| `JobStore.Store.Load` | internal/trainer/job_store.go:31-54 | the file's jobs by command ID, blank ones skipped, later ones winning |
| `JobStore.LoadedIsLast` | internal/trainer/job_store.go:31-54 | each non-blank command ID gets the last job the file has for it |
| `JobStore.Store.Save` | internal/trainer/job_store.go:56-79 | the file holds the pruned jobs newest first |
| `JobStore.LoadOfSaved` | internal/trainer/job_store.go:31-79 | loading a saved map keyed by non-blank command IDs gives exactly the pruned map |
| `Quoting.QuotedIsOneWord` | internal/commands/executor.go:2084-2086 | a shell reads the quoted value as one word equal to it iff it has no NUL |
| `Quoting.QuotedArguments` | internal/commands/executor.go:2084-2086 | a command line of quoted values is read as exactly those values |
| `Quoting.EscapeIsOnePass` | internal/runtime/service_manager_darwin.go:168-174 | the five chained replacements are one pass over the text |
| `Quoting.UnescapeEscape` | internal/runtime/service_manager_darwin.go:168-174 | a reader of the five predefined entities gets the original back (section 4.6 of XML 1.0) |
| `Quoting.EscapedIsInert` | internal/runtime/service_manager_darwin.go:168-174 | no angle bracket or quote is left |
| `Backoff.NextCheckinInterval` | cmd/mantler/start.go:687-704 | the jittered interval lies in [4/5, 6/5) of the interval in force |
| `Backoff.ComputeCheckinDelay` | cmd/mantler/start.go:706-734 | a rate limit up to five minutes, else the jittered interval, doubled per failure up to eightfold and capped at five minutes |
| `Backoff.DelayMonotone` | cmd/mantler/start.go:719-734 | more failures never shorten the delay |
| `Backoff.RetryDecision` | internal/client/client.go:588-603 | retryable is everything but a 4xx, 429 among them; the wait asked for is the server's hint, if any |
| `Backoff.Retry` | internal/client/client.go:557-586 | at most the given number of calls, stopping at the first success or final error, each wait the server's hint or the backoff; without an attempt to make, no value and no error |
| `Backoff.WaitMeans` | internal/client/client.go:560-582 | each wait is the hint or, without one, min(2^k, 16) seconds after k earlier calls without one |
| `Backoff.PlainWaits` | internal/client/client.go:560-582 | without hints the i-th wait is min(2^i, 16) seconds |
| `Backoff.ParseRetryAfter` | internal/client/client.go:605-632 | never more than five minutes |
| `Backoff.RetryAfterDate` | internal/client/client.go:620-632 | what is no number counts as a date, up to five minutes ahead; a blank header asks for nothing |
| `Backoff.RetryAfterHonoured` | internal/client/client.go:605-620 | a number of seconds is honoured up to five minutes iff it fits a duration, or fits the integer and wraps to five minutes or more |
| `Backoff.RetryAfterWraps` | internal/client/client.go:614-618 | one second more wraps to a negative hint, which is ignored |

## Left out

- HTTP, websocket, subprocess, container and GPU access: outcomes are nondeterministic or parameters.
- Cryptography, SHA-256 and JSON text: abstract functions; their round-trip laws are hypotheses, not proved.
- Time: timestamps, sleeping and deadlines are parameters or steps; the 100 ms polling of the idle wait is the reading of the counter.
- Floating point: estimates are over reals with the source's truncation, and integers are unbounded except in Retry-After.
- Unicode: lower-casing is ASCII, and which runes `%q` prints is a parameter, quantified over.
- FailedAcks.AcksAreConserved: assumes that flush and enqueue do not interleave.
- FailedAcks.StoreConserves: starts from a file within the cap, as the agent writes it.
- OutcomeBuffer.LossesAreOverflows: starts from a file within the cap, as the agent writes it, and so does BufferLosses; CheckinLeavesTheAdded has no such limit.
- OutcomeBuffer.OutcomeBuffer.DropPrefix: the books follow one check-in at a time, as the agent makes them; a drop of any other count starts them anew.
- OutcomeBuffer.OutcomeBuffer.Add: does not model writing the buffer file after each change.
- ExplorePlan.TryStack: how ensuring, preparing, starting and the health checks turn out is a parameter; evaluation and reporting in between may change any file.
- ExplorePlan.ApplyPlan: an apply that returns an error leaves its writes behind, as in the source, which promises no rollback there; path sanitising, directories and file modes are parameters or not modelled.
- TensorrtEnv.EscapedValuesDouble: no other writer touches the file between restarts.
- EnvCodec.ReadersAgreeOnPrinted: on printed text only; on other text the readers differ, for instance on single quotes.
- Reconcile.CycleIsIdempotent: models held by a runtime are a set of IDs; feature flags and start order do not matter to it.
- Fleet.Manager.EnforceDesired: with failing driver calls only growth is promised, because a failed call may have done part of its work.
- LoadPlan.RunPreflight: the numbers reported for display are not modelled, and a start either succeeds or fails.
- Goose.ReaderDeliversEvents: data texts have no white space around them, because the reader trims it where the standard takes off one space.
- JobStore.Prune: how a sort orders equal starts is left open, so of several jobs that started at the same instant any may go.
- Quoting.QuotedIsOneWord: the reader covers blanks and quotes; it gives up at operators, expansions and escapes, none of which a quoted value brings.
- Concurrency inside one handler or one registry call: each critical section is one step.
- Command bodies, policy allowlists, proxy filters, discovery, installation of harnesses and trainers, command-line output: independent of the properties above.
