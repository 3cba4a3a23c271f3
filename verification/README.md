# Verified models of the media-understanding service

The service keeps an append-only semantic ledger, rebuilds disposable projections from it, drives a nine-stage
pipeline durably, and serves addresses, alignments and rate limits around that core. This project models those
pieces in Dafny and proves what they promise. Where the original changes state in place, the model is a class whose
methods are proved equal to a specification function; the laws are lemmas about those functions.

| area | modules |
|---|---|
| edge projection | `LedgerEvents`, `Edges`, `EdgeLaws`, `EdgeMeaning` |
| replay driver, checkpoints, pauses | `Checkpoints`, `Replay`, `ReplayLaws`, `EdgeHistory` |
| stage execution under crashes | `StageExecution`, `Fates`, `ExecutionLaws` |
| manifests, graph runs, resume | `Manifests`, `Runner`, `RunnerLaws`, `ResumeLaws` |
| stage lineage and jobs | `Lineage`, `JobStore`, `Jobs`, `JobLaws` |
| alignment | `Alignment`, `AlignmentPlans`, `Embeddings` |
| accepted correspondence | `Correspondence` |
| locators | `Strings`, `Regexes`, `Locators`, `LocatorLaws`, `LocatorShapes` |
| rate limiting | `RateLimit` |
| voice activity | `Vad` |
| helpers | `Wrappers`, `Sequences`, `Text` |

## Main results

* **Projection.** Any history of edge runs (incremental, wiping, forced, raising; fresh or shared drivers; runs of
  other projections on the same drivers in between; a growing ledger) leaves the edge table equal to one replay of the
  whole ledger from nothing, and the checkpoint never claims more than was applied. The checkpoint may fall; it does
  so exactly when an incremental run finds nothing new and its driver stands lower. Every column of a stored edge is
  told from the payloads of the log: what named it last, what displaced it first, what it was disputed by in between.
  For projections with poison on, the event a checkpoint names was applied exactly when no new event paused and the
  last one was not skipped.
* **Stage execution.** Under every interleaving and every crash the ledger holds at most one completion of a key.
  Without overlap of one key, every event carries its row's refs, and the ledger counts exactly the complete keys and
  the replayed (key, other job) pairs. A finished row is final under every further schedule exactly when no live
  execution of its key is at work or about to write something else; a nine-step schedule reaches such a state and
  overwrites a complete row.
* **Resume.** After any number of crashes the next stage keeps the key of the uninterrupted run exactly when every ref
  of the rows completed so far is non-empty and occurs in one of them that this job owns, although refs are read back
  unordered; all later stages then keep theirs. Two stage runs share a key exactly when stage, universe, source,
  causation and refs agree, so a rerun under a new causation works again at every stage it reaches. Work is taken to
  be deterministic in the key. A run that replays another job's row and is then lost shows a key change.
* **Jobs.** Over every sequence of commands with graph runs interleaved stage by stage, cancelled stages stay closed
  under descendants and nothing below one is started; a job derives as complete exactly when each expected stage has a
  single, complete state, which names a complete row, as failed exactly when each has a state and one is a failure. A
  single-stage retry keeps the closure exactly when no cancelled stage outside its own closure leads into it. A
  cancelled job stays cancelled and starts nothing until it is retried exactly when no submission is inside a stage
  whose row is open and whose work ends in malformed input; a six-step history from a new job reaches such a state and
  reopens the job.
* **Alignment.** The warping path is a cheapest one although the border row and column are finite, provided the first
  row and column of distances are not negative.
* **Locators.** A valid locator survives printing and parsing exactly when its source id is non-empty, without `/` and
  `?frag=`, and without `@v` if it is bare or `@` if it is versioned; its version has ordinal 0 and components free of
  dots and white space; and its media fields, when present, are non-empty and without `&`. The printed form of
  whatever parses is a fixed point.
* **Voice activity.** Every run of frames of at least 0.05 s that is 2.5 times above a level which more than a tenth
  of the frames stay within lies inside a reported segment; a signal within that margin has none.
* **Token bucket.** The admission bound holds in every interval of every run exactly when resetting an idle bucket
  adds nothing, which for windows of at least a millisecond means a burst no larger than the window's requests.

## Where code and documentation differ

* `src/umd/projections/edges.py:22-24` says lock precedence mirrors the reducer. The code lets `Invalidated` and
  `ContradictionRecorded` change edges of a locked subject (`EdgeLaws.LocksGateOnlyActivations`,
  `EdgeLaws.LockedEdgeIsContradicted`).
* `src/umd/jobs/stage_execution.py:207-208` says a losing duplicate runs no side effects. It works whenever the row it
  reads is claimed or failed (`ExecutionLaws.LosingDuplicateWorksExactlyWhen`, `ExecutionLaws.OverlapRepeatsWork`).
* `src/umd/application/jobs.py:16-17` says a cancel immediately stops scheduling. It does exactly when no submission is
  about to raise (`JobLaws.CancelledJobStaysExactlyWhen`); one that does overwrites the cancelled status
  (`JobLaws.FailingSubmissionUndoesCancel`, `JobLaws.NewJobIsReopened`).
* `src/umd/jobs/runner.py:88-94` says a retry reproduces the original key. It does exactly when the refs are recoverable
  from rows this job owns (`ResumeLaws.ResumeKeepsKeyExactlyWhen`), which a cross-job replay can prevent
  (`ResumeLaws.CrossJobReplayChangesKey`).

The models follow the code in each case.

## Model

| member | source | states |
|---|---|---|
| LedgerEvents.LockIsTheLastWord | src/umd/storage/postgres/reducer.py:656-693 | after any log an entity is locked iff the last lock or unlock naming it is a lock |
| Edges.ActiveSemanticEdgeProjectionBuilder.Apply | src/umd/projections/edges.py:112-177 | applying one event in place turns the table into exactly one row-wise step: updates first, then the activation |
| Edges.ActiveSemanticEdgeProjectionBuilder.ApplyUserChange | src/umd/projections/edges.py:140-163 | an unlocked override or correction retires what it names and then writes its own edge |
| Edges.ActiveSemanticEdgeProjectionBuilder.Supersede | src/umd/projections/edges.py:261-287 | retires exactly the active rows of the subject and predicate that match type and prior ref |
| Edges.ActiveSemanticEdgeProjectionBuilder.Invalidate | src/umd/projections/edges.py:289-307 | retires exactly the active rows that match the target; absent filters match all |
| Edges.ActiveSemanticEdgeProjectionBuilder.MarkConflicting | src/umd/projections/edges.py:316-356 | exactly the active rows named by the contradiction become conflicting, with merged refs |
| Edges.MergeRefs | src/umd/projections/edges.py:333-352 | the loops build the ordered, duplicate-free, null-free union of old and new refs |
| EdgeLaws.Redelivery | src/umd/projections/edges.py:112-356 | delivering any run of events a second time to a consistent table changes no row |
| EdgeLaws.SuffixRedelivery | src/umd/projections/base.py:193-234 | over the table of a whole log, any suffix of the log may be delivered again |
| EdgeLaws.RowMeaning | src/umd/projections/edges.py:218-257 | a row is its last activation plus what followed: active iff never retired since, superseded by the first event that retired it, conflicting iff contradicted while active |
| EdgeLaws.UserEdgeStands | src/umd/projections/edges.py:147-163 | an override's own edge is active right after it, although the same event supersedes its neighbours |
| EdgeLaws.FoldStaysConsistent | src/umd/projections/edges.py:233-235 | over any log, active means no superseding event |
| EdgeLaws.LocksGateOnlyActivations | src/umd/projections/edges.py:124-175 | an event never activates an edge of a locked subject, and changes the table iff it invalidates an active row or contradicts one that does not already say so |
| EdgeLaws.LockedEdgeIsContradicted | src/umd/projections/edges.py:174-177 | an edge asserted and then locked becomes conflicting when a contradiction names it |
| EdgeMeaning.ColumnMeaning | src/umd/projections/edges.py:112-356 | every column of a stored edge over any log, from payloads alone: identity, scope, authority, confidence, support and derivation of the event that named it last; active and superseded by the first event that displaces it; state, refs and stamp by the contradictions it stood against |
| EdgeMeaning.TableMeaning | src/umd/projections/edges.py:112-177 | a row exists iff some unlocked event named its fact, and is active iff nothing has displaced it since it was named last |
| EdgeMeaning.StandsOn | src/umd/projections/edges.py:261-315 | one event more leaves a standing edge that it does not name inactive iff it displaces it: a change by hand or an invalidation, with the exact conditions on subject, predicate, scope, type and prior ref |
| EdgeMeaning.CorrectionRetiresExactlyWhen | src/umd/projections/edges.py:145-147 | an unlocked correction retires a standing edge of its subject and predicate iff it asks for no other type and its prior ref, unless empty, is the object or the id of the edge |
| Checkpoints.ProjectionCheckpointStore.Save | src/umd/projections/checkpoint.py:91-114 | upserts one projection's row and touches no other |
| Checkpoints.SaveThenLoad | src/umd/projections/checkpoint.py:71-114 | what is read back is the progress and pause that were saved, the pause position only while paused |
| Replay.ReplayDriver.Run | src/umd/projections/base.py:148-248 | one run, mutating driver, store and checkpoint, equals the run specification on the old state |
| Replay.ReplayDriver.ReplayAll | src/umd/projections/base.py:203-234 | the loop equals the recursive specification, pause included |
| Replay.ReplayDriver.Visit | src/umd/projections/base.py:207-234 | one event: folded always, applied, skipped or paused on only beyond the start |
| ReplayLaws.LoopWithoutPoison | src/umd/projections/base.py:203-235 | with poison off the loop reaches the end and applies exactly the new events, each with the state folded up to it |
| ReplayLaws.LoopPauses | src/umd/projections/base.py:218-227 | a loop pauses iff the policy is on and a new event calls for it, and then on the first such event, with its reason |
| ReplayLaws.RunStaysWithinLedger | src/umd/projections/base.py:233-240 | no run of any projection stores a checkpoint beyond the ledger's tail |
| ReplayLaws.RaiseStaysWithinLedger | src/umd/projections/base.py:157-234 | a run that raises anywhere in the loop leaves its driver's counter within the ledger's tail |
| ReplayLaws.PauseIsStored | src/umd/projections/base.py:237-240 | report, driver and durable checkpoint agree on the pause |
| ReplayLaws.PauseHolds | src/umd/projections/base.py:172-181 | while paused, no history without a committed forced resume moves store, checkpoint or reason, whatever drivers, policies, other projections and raising runs it holds |
| ReplayLaws.ForcedResumeRebuilds | src/umd/projections/base.py:184-234 | a forced resume rebuilds from the whole ledger with poison off, and clears the pause |
| ReplayLaws.NothingIsLostToAPause | src/umd/projections/base.py:172-240 | from a pause, any such history and then a forced resume loses no event |
| ReplayLaws.CheckpointIsAppliedExactlyWhen | src/umd/projections/base.py:213-240 | for any ledger with a new event, the event the checkpoint names reached `apply` iff poison is off, or no new event pauses and the last one is not skipped |
| ReplayLaws.PoisonOverstatesProgress | src/umd/projections/base.py:218-232 | a last event that pauses or is skipped is recorded as applied although only its own hook saw it |
| ReplayLaws.ReportTells | src/umd/projections/base.py:241-248 | the report of any run: progress and pause as stored, the ledger's highest number, and as many events seen and skipped as hooks were called; a run stopped by an earlier pause calls none |
| ReplayLaws.AuditLeavesNoTrace | src/umd/projections/base.py:207-212 | canonical state is the plain fold of all events but the operational audit |
| EdgeHistory.EdgeRunRebuilds | src/umd/projections/base.py:148-240 | one edge run of any kind brings a sound table to a full replay of the ledger it read |
| EdgeHistory.HistoryEqualsReplay | src/umd/projections/base.py:148-248 | after any history, raising runs included, the edge table is one replay of the ledger the latest committed edge run read, and the checkpoint never exceeds what was applied |
| EdgeHistory.CheckpointFallsExactlyWhen | src/umd/projections/base.py:183-240 | an edge run lowers the checkpoint iff it is incremental, finds nothing new, and its driver stands lower |
| StageExecution.DurableStageExecutor.Run | src/umd/jobs/stage_execution.py:204-269 | one uninterrupted call has exactly the effect and result of its transactions in sequence |
| StageExecution.DurableStageExecutor.ClaimRun | src/umd/storage/postgres/stage_repository.py:98-156 | insert if absent; the loser gets the existing owner and changes nothing |
| StageExecution.DurableStageExecutor.Attempt | src/umd/jobs/stage_execution.py:245-269 | the retry loop equals the stepwise specification, for every sequence of work results |
| StageExecution.DurableStageExecutor.Complete | src/umd/jobs/stage_execution.py:273-333 | event and row in one transaction; the row is written even when the event is known |
| StageExecution.DurableStageExecutor.Quarantine | src/umd/jobs/stage_execution.py:335-357 | the sink is written before the row is marked |
| StageExecution.DurableStageExecutor.ReplayedComplete | src/umd/jobs/stage_execution.py:399-476 | hands back the committed refs, and attributes a replay to another job only, touching no row |
| StageExecution.DurableStageExecutor.AppendOnce | src/umd/storage/postgres/ledger.py:199-278 | appending under a known key changes nothing |
| ExecutionLaws.EffectiveOnce | src/umd/jobs/stage_execution.py:204-333 | under any interleaving and any crashes: one completion per key at most, one observation per (key, job), complete rows backed by it, the ledger only grows, no row changes owner |
| ExecutionLaws.SoloExecutions | src/umd/jobs/stage_execution.py:279-476 | without overlap: events agree with their rows, work is called on open rows only, and the ledger counts complete keys plus replayed pairs |
| ExecutionLaws.FinishedStaysExactlyWhen | src/umd/jobs/stage_execution.py:221-390 | a complete or quarantined row keeps its contents, and its work is never called again, under every further interleaving and crash iff no live execution of its key is at work or about to write something else |
| ExecutionLaws.ThreatStrikes | src/umd/jobs/stage_execution.py:301-311 | such an execution overwrites the row within two steps |
| ExecutionLaws.FinishedIsFinal | src/umd/jobs/stage_execution.py:221-232 | after a history without overlap a finished row is final, whatever overlaps follow |
| ExecutionLaws.ResumeCompletes | src/umd/jobs/stage_execution.py:222-269 | a new, crashed or failed key completes on the next run whose work succeeds within the attempts, with exactly one new event |
| ExecutionLaws.MalformedIsFinal | src/umd/jobs/stage_execution.py:225-357 | malformed input is sunk once, leaves the ledger alone, and no later run of the key by any job works again |
| ExecutionLaws.RetriesRunOut | src/umd/jobs/stage_execution.py:245-267 | work that keeps raising is tried exactly as often as the policy allows, at least once, and leaves a failed row and no event |
| ExecutionLaws.LosingDuplicateWorksExactlyWhen | src/umd/jobs/stage_execution.py:221-269 | a whole call that lost the claim returns a replay, changing no row, iff the row is neither claimed nor failed; otherwise it works |
| ExecutionLaws.OverlapRepeatsWork | src/umd/jobs/stage_execution.py:245-269 | a schedule of two overlapping workers in which work runs twice and a failure overwrites a complete row |
| Manifests.MaterialDecidesInputs | src/umd/jobs/manifest.py:167-184 | two manifests share their key material iff they share universe, stage, source, segment, evidence multiset, input, schema, tools and config |
| Manifests.JoinIsInjective | src/umd/jobs/manifest.py:169-184 | the separator makes the joined parts recoverable |
| Manifests.ConstructedExactlyWhen | src/umd/jobs/manifest.py:112-131 | a manifest can be made for the pipeline's stages only, and what is absent or empty gets its default |
| Manifests.SerializationKeepsMaterial | src/umd/jobs/manifest.py:138-184 | a manifest that crossed a process boundary differs only in evidence order and keeps its key |
| Text.SortForgetsOrder | src/umd/jobs/manifest.py:178-178 | two sorted evidence lists are equal iff the lists are equal as multisets |
| Text.LessIsLexicographic | src/umd/jobs/production.py:1008-1012 | string order is code-point order: a proper beginning first, else the first difference |
| Runner.CommittedPriorRefs | src/umd/jobs/stage_execution.py:478-508 | exactly the non-empty refs of the job's complete rows before the stage, once each, for every row order |
| Runner.DurableDAGRunner.RunGraph | src/umd/jobs/runner.py:77-145 | a graph run over executor and job store equals the turns of its stages from the seeded refs |
| Runner.DurableDAGRunner.OneStage | src/umd/jobs/runner.py:96-129 | one iteration: stop, skip, report pending, or execute and observe |
| Runner.Merge | src/umd/jobs/runner.py:185-199 | the loop appends each new ref once, in order |
| Runner.TurnsStop | src/umd/jobs/runner.py:98-101 | after a stop or an exception no later stage has any effect |
| Runner.TurnsSplit | src/umd/jobs/runner.py:96-130 | a graph run can be cut anywhere and continued from where it stood |
| RunnerLaws.ExecutedTellsRow | src/umd/jobs/runner.py:118-128 | a stage that is executed raises with its row quarantined and nothing recorded, or records one state under its key: complete iff that row is complete, and likewise failed, quarantined and cancelled; its event says replayed iff the row was final before |
| RunnerLaws.TurnsKeepBacked | src/umd/jobs/runner.py:96-130 | over any graph run every state recorded complete names a complete row of its stage |
| RunnerLaws.SeedIsUpstream | src/umd/jobs/stage_execution.py:494-508 | a seed holds the non-empty refs of the job's complete rows of stages before the first one to run, or of all stages when none is named |
| RunnerLaws.ManifestIsConstructed | src/umd/jobs/runner.py:153-182 | a stage's manifest is what the constructor makes of job, stage, source, universe, refs and input, everything else by default |
| RunnerLaws.KeyDecides | src/umd/jobs/runner.py:153-182 | two stage runs share their key iff they share stage, universe, source, causation and the refs as a multiset |
| RunnerLaws.RerunWorksAgain | src/umd/jobs/runner.py:167-174 | a run under a causation that no row was keyed with finds no row for any of its stages: each one it reaches leaves what its work comes to, and no event tells of a replay |
| ResumeLaws.KeyDependsOnRefSet | src/umd/jobs/runner.py:153-182 | a stage's key depends on the set of its prior refs and not on their order |
| Fates.DrivenFate | src/umd/jobs/stage_execution.py:204-269 | an execution's record and rows depend on its own row and work only |
| Fates.OnlyOpenRowsMove | src/umd/jobs/stage_execution.py:221-232 | an uninterrupted execution changes open rows only |
| ResumeLaws.Lockstep | src/umd/jobs/runner.py:96-130 | two runs whose refs agree as sets and whose rows lead to the same records stay so, stage by stage |
| ResumeLaws.StretchKeepsTrack | src/umd/jobs/runner.py:96-130 | the refs held in memory are those of the rows of the stages completed so far, whoever owns them |
| ResumeLaws.SeedRecoversExactlyWhen | src/umd/jobs/stage_execution.py:478-508 | the seed read back holds the refs that were in memory iff every one of them is non-empty and occurs in a row the job owns |
| ResumeLaws.ResumeReproducesKeys | src/umd/jobs/runner.py:88-130 | after any number of crashes whose refs were recoverable, every remaining stage gets the key of the uninterrupted run |
| ResumeLaws.ResumeKeepsKeyExactlyWhen | src/umd/jobs/runner.py:88-95 | after any number of crashes the next stage keeps the key of the uninterrupted run iff every ref of the rows completed so far is non-empty and occurs in one of them that this job owns |
| ResumeLaws.OwnedRowsAreRecoverable | src/umd/jobs/stage_execution.py:494-508 | rows that are all owned and hold no empty ref are recoverable |
| ResumeLaws.CrossJobReplayChangesKey | src/umd/jobs/stage_execution.py:494-496 | a run whose first stage replays another job's row and is then lost: the second stage resumes under another key |
| Lineage.PlanDescendants | src/umd/jobs/invalidation.py:78-128 | terminates on any finite lineage, cycles included; targets are duplicate-free and exactly the stages reachable by at least one edge; `unaffected` counts the rest |
| Lineage.Explore | src/umd/jobs/invalidation.py:100-118 | the breadth-first worklist finds exactly the reachable stages |
| Lineage.BuildDependents | src/umd/jobs/dag.py:101-113 | the loops build the transpose of the dependency table, or fail on an unknown upstream stage |
| Lineage.NeedingIsTranspose | src/umd/jobs/dag.py:101-113 | a stage is listed under each stage it depends on, and nowhere else |
| Lineage.TargetsComeLater | src/umd/jobs/dag.py:26-29 | over the transpose of a topologically ordered table every target comes strictly later than the root |
| Lineage.CanonicalTableIsTopological | src/umd/jobs/dag.py:30-78 | the shipped table depends only backwards |
| Lineage.ShippedDescendantsAreTheLater | src/umd/jobs/dag.py:30-78 | in the shipped lineage the descendants of a stage are exactly the stages after it |
| JobStore.RecordedIsLatest | src/umd/jobs/job.py:161-164 | recording keeps one state a stage: the new one for its stage, the old ones for the rest |
| JobStore.InMemoryJobStore.Create | src/umd/jobs/job.py:105-136 | a duplicate submission answers the existing job, a conflicting one fails, neither changes anything |
| JobStore.InMemoryJobStore.UpdateStatus | src/umd/jobs/job.py:138-143 | sets the status; an absent error leaves the recorded one |
| JobStore.InMemoryJobStore.RecordStage | src/umd/jobs/job.py:161-164 | drops the stage's earlier state and appends the new one |
| Jobs.JobService.Closure | src/umd/application/jobs.py:323-326 | the stage and everything it reaches |
| Jobs.JobService.Status | src/umd/application/jobs.py:129-134 | the derived status of a known job, an error for an unknown one |
| Jobs.JobService.Cancel | src/umd/application/jobs.py:140-159 | cancels the job, or adds the stage's whole closure to the cancelled stages |
| Jobs.JobService.Submit | src/umd/application/jobs.py:90-127 | only a pending job is scheduled; a raising graph leaves it failed; other jobs are untouched |
| Jobs.JobService.Retry | src/umd/application/jobs.py:161-201 | schedules exactly the stages not recorded complete and then refreshes; a raising graph leaves the job running |
| Jobs.JobService.PrepareRetry | src/umd/application/jobs.py:178-190 | lifts the cancellations of the closure or of the whole job and picks the targets |
| Jobs.JobService.RerunStage | src/umd/application/jobs.py:205-236 | expects and runs exactly the planned descendants under the new causation |
| Jobs.OpenStages | src/umd/application/jobs.py:185-187 | the closure's stages not complete, once each; all of them when every one is complete |
| JobLaws.CompleteMeansAllComplete | src/umd/application/jobs.py:348-367 | in every state reached from a new job: derived complete iff no command ended the job and each expected stage has exactly one recorded state, a complete one, which then names a complete row of that stage |
| JobLaws.StatusFitsTheRecord | src/umd/application/jobs.py:348-367 | in every state reached from a new job: an ended job keeps its status; any other is failed iff each awaited stage has a recorded state and one is failed or quarantined, complete iff each has a single complete one, and else running, or as recorded if nothing is |
| JobLaws.GraphCompletesOverCommittedRows | src/umd/jobs/runner.py:96-130 | after one graph run of a job with nothing recorded: derived complete only if each awaited stage's state names a complete row |
| JobLaws.CancelledStaysClosed | src/umd/application/jobs.py:156-158 | without single-stage retries the cancelled stages stay closed under descendants over any command sequence |
| JobLaws.NothingStartsBelowACancelledStage | src/umd/jobs/runner.py:98-119 | no started stage is cancelled or reachable from a cancelled one at that moment |
| JobLaws.CancelledStageNeverStarts | src/umd/application/jobs.py:148-158 | after a stage cancel nothing in its closure starts until a retry that lifts it, in any interleaving |
| JobLaws.StageRetryKeepsClosureExactlyWhen | src/umd/application/jobs.py:181-184 | a single-stage retry keeps the closure iff no cancelled stage outside its own closure has a child in it |
| JobLaws.RetryBelowACancelledStage | src/umd/application/jobs.py:181-184 | cancelling a stage and retrying one of its dependents breaks the closure on every acyclic lineage |
| JobLaws.RetryBelowACancelledStageShipped | src/umd/jobs/dag.py:65-68 | such a pair in the shipped lineage |
| JobLaws.ExecutedRaisesExactlyWhen | src/umd/jobs/stage_execution.py:221-251 | a stage raises out of the graph iff its row is open and its work ends in malformed input; a row that is not open never opens again |
| JobLaws.CancelledJobStaysExactlyWhen | src/umd/application/jobs.py:107-120 | a cancelled job stays cancelled and starts nothing over every retry-free history iff no submission is inside a stage whose row is open and whose work ends in malformed input |
| JobLaws.CancelledJobStartsNothing | src/umd/jobs/runner.py:97-101 | in particular, a cancelled job with no submission inside a stage starts nothing until it is retried |
| JobLaws.FailingSubmissionUndoesCancel | src/umd/application/jobs.py:115-120 | a submission doomed at the cancel lets another run of the job go on without a retry |
| JobLaws.NewJobIsReopened | src/umd/application/jobs.py:107-120 | such a history from a new job: submitted, retried and cancelled while its malformed first stage is at work, it fails and a stage is started |
| JobLaws.AloneIsTheRunnersLoop | src/umd/jobs/runner.py:96-130 | a flight whose steps nothing interrupts does what the runner's loop does in one go |
| JobLaws.LaunchedAloneIsTheFacade | src/umd/application/jobs.py:100-201 | what a command launches, left alone, ends as the facade's graph run: failed job after a raising submission, unchanged after another raising run, else refreshed, at once if there is nothing to run |
| Alignment.CostIsLowerBound | src/umd/alignment/align.py:170-179 | no warping path is cheaper than the table entry of its last cell |
| Alignment.TraceIsAPath | src/umd/alignment/align.py:180-204 | the traceback is a monotone path by the three moves whose total is the table entry |
| Alignment.TraceIsOptimal | src/umd/alignment/align.py:168-204 | when the first row and column hold no negative distance, the path is a cheapest one over the whole matrix |
| Alignment.NegativeDistanceRepeatsACell | src/umd/alignment/align.py:184-203 | a negative distance on the border makes the traceback visit a cell twice |
| Alignment.FillCosts | src/umd/alignment/align.py:168-179 | the loops fill the array with the recursive table, borders included |
| Alignment.ReadBack | src/umd/alignment/align.py:180-204 | the walk over the array returns the recursive trace, ties to the diagonal first |
| Alignment.DtwPath | src/umd/alignment/align.py:158-204 | fails iff exactly one list is empty; otherwise the trace, a cheapest path when the first row and column hold no negative distance |
| AlignmentPlans.BuildPlan | src/umd/alignment/align.py:207-257 | one pair a cell in path order, the unpaired refs of both sides in list order, and the reordering flag |
| AlignmentPlans.DetectReordering | src/umd/alignment/align.py:270-287 | the flag is up iff two pairs disagree on which side comes first |
| AlignmentPlans.NothingLeftOver | src/umd/alignment/align.py:246-247 | a complete warping path leaves no omission and no addition |
| AlignmentPlans.ReorderingIsNonDiagonal | src/umd/alignment/align.py:270-287 | with refs numbered by position the flag is down iff every move is diagonal |
| AlignmentPlans.AlignTimecode | src/umd/alignment/align.py:306-323 | a cheapest path by timecode with nothing left over |
| AlignmentPlans.DistanceIsTheShift | src/umd/alignment/align.py:145-149 | a unit moved by t and widened evenly is |t| away, which fixes the distance of every pair |
| AlignmentPlans.SharedCells | src/umd/alignment/align.py:339-344 | the cells of shared scenes, all of them and no other, each once, row by row |
| AlignmentPlans.AlignSceneOrder | src/umd/alignment/align.py:326-353 | pairs exactly the units of shared scenes, row by row, reports the rest as omissions and additions, and raises the flag iff two pairs disagree |
| Embeddings.DotIsBounded | src/umd/alignment/align.py:128-138 | the squared dot product over the common length is at most the product of the squared norms |
| Embeddings.CosineIsAtMostOne | src/umd/alignment/align.py:132-142 | cosine similarity is at most one, so the embedding distance is never negative |
| Embeddings.DistanceIsCosine | src/umd/alignment/align.py:128-142 | the distance times the norms is the product of the norms less the dot product; it is one when a norm is zero |
| Embeddings.DotAdds | src/umd/alignment/align.py:128-138 | the dot product adds up coordinate by coordinate over the common length, and the squared norm is a vector's product with itself |
| Embeddings.AlignEmbeddings | src/umd/alignment/align.py:356-376 | a cheapest path by cosine distance with nothing left over |
| Correspondence.Partition.Find | src/umd/jobs/production.py:992-1000 | answers the root; compression changes no root and every non-root keeps a strictly smaller parent |
| Correspondence.Partition.Merge | src/umd/jobs/production.py:1008-1013 | the forest represents one edge more, the lesser root on top |
| Correspondence.CompressionKeepsRoots | src/umd/jobs/production.py:996-999 | pointing a node straight at its root changes no root |
| Correspondence.AddBridge | src/umd/jobs/production.py:1009-1013 | hanging the greater root below the lesser joins exactly the two components |
| Correspondence.Connect | src/umd/jobs/production.py:1002-1015 | reading the rows in order represents their accepted edges and records every touched ref |
| Correspondence.AcceptedCorrespondence | src/umd/jobs/production.py:989-1020 | maps each committed mention that an accepted edge touches to the least ref of its component |
| Correspondence.RowOrderIsIrrelevant | src/umd/jobs/production.py:965-969 | the same rows in any order, with any repetition, give the same map |
| Correspondence.CorrespondenceOfRows | src/umd/jobs/production.py:1001-1020 | a committed mention is mapped iff some accepted row unites its ref with another canonical one, and then to the least ref that a chain of such rows leads to |
| LocatorLaws.ParsedIsClean | src/umd/domain/locators.py:308-337 | whatever parses is a valid locator with a clean source id, version and selector |
| LocatorLaws.PrintableParses | src/umd/domain/locators.py:290-337 | parsing the printed form of a printable locator gives it back |
| LocatorLaws.RoundTripExactlyWhen | src/umd/domain/locators.py:290-337 | a valid locator survives printing and parsing iff it is printable |
| LocatorLaws.PrintedFormIsAFixedPoint | src/umd/domain/locators.py:290-337 | whatever parses prints to a string that parses back, but for empty media fields, and prints the same again |
| LocatorLaws.SelectorParses | src/umd/domain/locators.py:213-241 | every valid, clean selector is read back from its printed form, whatever its kind |
| LocatorLaws.TagParses | src/umd/domain/locators.py:64-73 | a clean version is read back from its tag |
| LocatorLaws.RegionMentions | src/umd/domain/locators.py:89-90 | an image region holds a comma and only digits, points, commas and the percent prefix |
| LocatorLaws.EmptyFieldIsLost | src/umd/domain/locators.py:167-175 | an empty media field is read but never printed |
| LocatorLaws.ByteRangesAreRejected | src/umd/domain/locators.py:281-288 | a string whose selector is a byte range never parses |
| LocatorShapes.ValidIsMakeable | src/umd/domain/locators.py:89-205 | the selectors a caller can make, by the shape of their text and their length limits |
| LocatorShapes.ValidIsWellMade | src/umd/domain/locators.py:251-288 | the locators a caller can make, field by field |
| LocatorShapes.TimeMeans | src/umd/domain/locators.py:91-91 | a media time is a number, an optional fraction and comma, digits, and an optional fraction |
| LocatorShapes.ByteRangeExactlyWhen | src/umd/domain/locators.py:217-221 | a byte range parses iff it is two numbers around a dash, the first not above the second |
| LocatorShapes.ByteRangeParses | src/umd/domain/locators.py:191-221 | a byte range is read back from its printed form |
| LocatorShapes.LongTextFails | src/umd/domain/locators.py:178-241 | no text above 512 characters is a selector, unless it is a byte range or made of media fields |
| Regexes.MatchIsMentioned | src/umd/domain/locators.py:89-92 | a match is made of characters its pattern mentions |
| Regexes.MatchHolds | src/umd/domain/locators.py:89-92 | a match holds every character its pattern needs |
| Regexes.MatchIsMeaning | src/umd/domain/locators.py:89-92 | matching by derivatives decides the language of the pattern |
| Strings.CutTakesTheFirst | src/umd/domain/locators.py:314-324 | splitting once takes the first separator, and the text before it holds none |
| Strings.CutFindsIt | src/umd/domain/locators.py:314-324 | a separator is found where it was put |
| Strings.SplitUndoesJoin | src/umd/domain/locators.py:167-238 | splitting a join of plain parts gives the parts back |
| RateLimit.TokenBucketRateLimiter.Allow | src/umd/api/ratelimit.py:37-56 | one call changes its own bucket only, and answers as the bucket rule says, the zero-rate division included |
| RateLimit.AdmissionBound | src/umd/api/ratelimit.py:34-56 | in any interval of any run a key gets through at most the capacity plus the refill |
| RateLimit.PotentialPays | src/umd/api/ratelimit.py:49-56 | tokens minus elapsed refill pay one for every admission of a run |
| RateLimit.ResetAddsNothingExactlyWhen | src/umd/api/ratelimit.py:34-47 | with a window of at least a millisecond the idle reset adds nothing iff the burst is at most the window's requests |
| RateLimit.BoundHoldsExactlyWhen | src/umd/api/ratelimit.py:34-56 | the bound holds for every run iff the idle reset adds nothing |
| RateLimit.TwoBurstsBreakTheBound | src/umd/api/ratelimit.py:46-48 | otherwise two bursts around an idle spell exceed it |
| RateLimit.RetryAfterSuffices | src/umd/api/ratelimit.py:52-54 | a refused caller alone on its key gets through from `retry_after` on, iff the capacity is at least one |
| RateLimit.RetryAfterIsNeeded | src/umd/api/ratelimit.py:52-54 | before an advised wait above the floor is over the caller is refused again |
| RateLimit.NothingBelowOneToken | src/umd/api/ratelimit.py:41-54 | with a capacity below one no run ever admits a request |
| RateLimit.KeysAreIndependent | src/umd/api/ratelimit.py:45-48 | a key fares in a run as if the other keys' calls had not happened |
| Vad.SpeechMask | src/umd/audio/vad.py:52-66 | frame i is speech iff some frame among the last `hangover` and itself reaches the threshold |
| Vad.Segments | src/umd/audio/vad.py:79-88 | the segments are exactly the maximal speech runs that are long enough, in order |
| Vad.DetectSpeech | src/umd/audio/vad.py:69-94 | for any frame length: the merged long runs, a division by zero for length zero; merging changes nothing iff the runs are more than the gap apart, as they are for every frame longer than it; every run of at least 0.05 s well above a level that more than a tenth of the frames stay within lies inside a segment, and no segment is shorter |
| Vad.SegmentList.MergeOverlaps | src/umd/audio/vad.py:107-121 | the list becomes the sorted, merged one |
| Vad.MergeSorted | src/umd/audio/vad.py:112-121 | the loop equals the recursive merge |
| Vad.MergingCleansUp | src/umd/audio/vad.py:107-121 | on any list: in order, more than the gap apart, every input segment held, nothing covered but the input and the gaps |
| Vad.MergingIsIdentityExactlyWhen | src/umd/audio/vad.py:112-121 | merging a sorted list changes it iff two segments are within the gap |
| Vad.SortsByTimes | src/umd/audio/vad.py:111-111 | sorting orders by start, then by end, and keeps the segments |
| Vad.FlatSignalHasNoSpeech | src/umd/audio/vad.py:43-49 | silence, and any signal whose energies stay within the margin of each other, has no speech |
| Vad.FloorIsTheLowPercentile | src/umd/audio/vad.py:43-49 | the threshold comes from a frame with at most a tenth of the frames quieter and more than a tenth not louder |
| Vad.LoudRunsAreFound | src/umd/audio/vad.py:69-94 | whatever lasts and is well above the level of more than a tenth of the frames lies inside a segment |
| Vad.SegmentMeasures | src/umd/audio/vad.py:97-104 | a segment has the mean and the peak of its frames |
| Vad.SegmentLasts | src/umd/audio/vad.py:97-104 | a segment lasts from the start of its first frame to the end of its last |
| Vad.SilenceIsTheRest | src/umd/audio/vad.py:90-94 | speech adds up over the segments, and the silence is what is left of the signal |
| Vad.MergesWithinAMicrosecond | src/umd/audio/vad.py:112-121 | two segments in order become one iff they are at most a microsecond apart |

## Left out

* SQL, migrations, advisory and row locks: tables are maps, a transaction is one step, and sequence numbers increase in commit order.
* Event schemas and upcasting; payloads are records of the fields the code reads. Content digests and the JSON encodings under them are taken to be injective.
* The canonical reducer's rows: the edge builder reads locks only, so the other half of the state is a parameter of the proofs. Poison classification is a parameter too.
* Replay: the operator override of a checkpoint, metrics, and the drain gate. A null pause reason is a string.
* `superseded_by_fact`, which no code sets; the authority and generation columns are carried as opaque text.
* Audit records, backoff sleeps, completion sequence numbers returned to callers, and work functions, which are arbitrary.
- StageExecution.DurableStageExecutor.Run: a malformed input raises after the sink and the mark; the model returns a quarantined record that is not a replay, and the runner treats it as the exception.
- Runner.DurableDAGRunner.RunGraph: runs while the job record stands still; runs interleaved with commands are the step machine of `JobLaws`, tied to it by `JobLaws.AloneIsTheRunnersLoop`.
- ResumeLaws.ResumeReproducesKeys: between a crash and the next run only open rows change; another job that completes one of the remaining stages in between is not covered.
- Jobs.JobService.Retry: a single-stage retry iterates a set; the model fixes breadth-first order, and the laws of `JobLaws` hold for any order.
- Jobs.JobService.Submit: a caller's request document is dropped, so the expected stages are the pipeline's own.
* In `JobLaws` one call of the stage executor is a single step, so two flights of a job never overlap inside a stage there; overlapping executions are the subject of `ExecutionLaws`.
* Job commands are atomic in `JobLaws`; two commands that interleave their own reads and writes are not modelled. The queued events of an asynchronous runner are not either, nor the job table in PostgreSQL, which may list several rows a stage.
* `rerun_source` and `invalidate` appear as actions of the job machine only; the pause policy text is not modelled.
* The reason text of a stage target; evidence classes play no part in planning.
* Pair confidence, contradiction marks and parallelity assumptions of alignment plans; the number at the end of a ref is a parameter. Square roots are any function that squares back.
* Reading canonical assignments and identity rows for the correspondence; both are inputs.
- Locators.Parse: Unicode digits, white space and lower-casing are parameters with stated properties; a locator's error is one of a few kinds, its text is dropped.
- Vad.DetectSpeech: frame energies are inputs, and merged segments are values, not shared objects.
- RateLimit.TokenBucketRateLimiter.Allow: the lock and the clock are left out; time is a real argument that does not run backwards in the laws.
- RateLimit.BoundHoldsExactlyWhen: requests per window are not negative and the capacity is positive.
* Floating-point rounding: distances, times, energies and tokens are reals.
* Hatchet, routers, authentication, extraction, transcription, prompts, search and the other projections.
