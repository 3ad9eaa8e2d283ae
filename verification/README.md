# The call pipeline, modelled and verified in Dafny

This project models the part of the platform that places telephone calls and finds out what became of
them, together with a few self-contained algorithms around it.

**Calls.** `CallRows.dfy`, `ProviderEvents.dfy` and `CallDb.dfy` hold the rows of tasks and attempts and
what each transaction writes. `CallStore.dfy` is the task service itself: an object whose methods update
the rows in place, each proved equal to the function that specifies it. `CallSteps.dfy` puts every commit
that can touch those rows (creation, dispatch, provider events, snapshots of active channels, the reaper
of stale calls, status updates, local hangups, outbox deliveries) into one step relation. Transactions
that run serializably are one step. For the writers that read first and then compare and set, what was
read is an argument of the step, so any other commits may lie in between. On that relation
`CallHistory.dfy` proves exactly when a task mirrors its latest attempt, `CallFates.dfy` which statuses
are final over all writers, and `CallReconciliation.dfy` exactly when a snapshot or the reaper closes a call.
`EventEffects.dfy` and `CommitEffects.dfy` say of each commit what it writes, in the fields of the rows before
and after and in none of the functions that specify it; `HangupCauses.dfy` does so for the texts of causes.
`DeliveryOrder.dfy` settles what depends on the order in which events arrive. `CallAnomalies.dfy` shows
with concrete runs why the conditions of those theorems are needed.

**Dispatch.** `DispatchOutbox.dfy` is the protocol of the outbox workers: the steps are single reads and
commits, and a worker can crash, throw, or lose its lease between any two of them. `OutboxWorkers.dfy` is
the worker as an object, cut at its waits; each method is one step of the protocol. `OutboxEffects.dfy`
says of each step what it writes, field by field. `Pipeline.dfy` puts the task service and any number of
such workers over one store: whatever turns they take, they make a run of the protocol. The central result
is when originate is called at most once for each attempt: exactly as long as no commit of a "dispatch in
flight" marker clashes, that is, comes after a call for the attempt or while another worker is about to
place one (`DispatchOutbox.NoClashIffNeverCallsTwice`). The write of the marker does not ask for that
(apps/api/src/tasks/outbox.worker.ts:180-183). Behind every second call there is a marker committed over
another, which a conditional write would prevent, and a marker committed *without the lease of the row*
(`DispatchOutbox.SecondCallHasCause`). It is not enough that a worker whose lease was recovered stops:
`DispatchAnomaly.dfy` has a run in which such a worker reports a failure instead, which releases the lease
of the next worker, and one attempt is called for twice.

**Events.** `EslHeaders.dfy`, `EslDecoder.dfy`, `EslParsing.dfy`, `EslStreams.dfy`, `EslRoundTrip.dfy` and
`EslLosses.dfy` cover the incremental parser of the event socket: the mutable object against a recursive
decoder of the whole stream, however TCP cuts the bytes. Bytes are characters below 256.
`EventQueue.dfy` and `EventDelivery.dfy` cover the queue that posts events to the receiver, and the two
of them together, with every other writer at the receiver between any two posts.

**Algorithms.** `FlowIssues.dfy`, `FlowValidation.dfy` and `FlowTraps.dfy` (the check of a flow before it
is published, what each issue means, and what the check leaves open), `KnowledgeRetrieval.dfy` (merging
the best hits of several knowledge bases), `KnowledgeTree.dfy` (the forest of knowledge bases),
`UsageAggregates.dfy` (metered usage as a running sum), `Downsampling.dfy` (audio windows, over real
numbers) and `RateLimit.dfy` (the sliding-window limit).

What the proofs found, beyond confirming the code:

- A push that makes the parser throw takes with it exactly the frames that it had completed
  (`EslLosses.ThrowingPushLosesItsFrames`).
- A header block within three bytes of the limit is accepted or rejected depending on where TCP cuts it
  (`EslStreams.EveryCutSucceedsIffHeadersFit` gives the exact condition).
- The order of delivery decides the final status exactly when the events that can end the call, before or
  after an answer, do not agree on it (`DeliveryOrder.OrderIndependentIff`): with one hangup, when an answer
  event has no counterpart in it.
- A task stops mirroring its latest attempt exactly by a status update or a local hangup that names another
  attempt or none, or that read other times, or by a late failure (`CallHistory.RunsAreConsistentIff`).
- An attempt after a re-dispatch can be judged answered by the answer time of an earlier attempt, because
  dispatch leaves `calledAt` in place (`CallAnomalies.JudgedByOwnEvidenceIff`).
- A dispatch that fails for good after its task has been dispatched again fails the task while its latest
  attempt is being dialled (`CallHistory.LateFailureIff`, `DispatchAnomaly.LateFailureFailsTheTask`). That
  happens at the first try when the reply to an accepted command has no job id.
- The end of a task differs from that of its only attempt exactly if a dispatch failed for good and the two
  readings of the clock differ (`CallHistory.OnlyAttemptEndsTogetherIff`).
- An attempt that has ended becomes active again exactly by a status update that names it
  (`CallFates.ActiveAgainIff`).
- An accepted flow has nodes from which no end can be reached exactly if it has a part without an end that
  no edge leaves (`FlowTraps.EveryNodeReachesAnEndIffNoTrap`).
- Whether an attempt is past its limit is decided by the query of the reaper, which is strict; the check
  in memory, which is not, never changes the outcome (`CallReconciliation.ReapsExactlyTheStale`).

`dafny verify dfyconfig.toml` checks the whole project. Proofs hide the definitions they do not need
(`hide`), which keeps each of them quick.

## Model

| member | source | states |
|---|---|---|
| DispatchOutbox.NoClashIffNeverCallsTwice | apps/api/src/tasks/outbox.worker.ts:132-237 | A run of any number of workers, with crashes, exceptions, lost leases and redeliveries anywhere, has no clash if and only if from no point of it the calls that are about to be placed can call for an attempt twice. A clash is a marker committed after a call for its attempt, or while another worker is about to place one. |
| DispatchOutbox.AtMostOneCallWithoutClash | apps/api/src/tasks/outbox.worker.ts:87-237 | In every run without a clash so far, originate has been called at most once per attempt. |
| DispatchOutbox.SafeIffNoClash | apps/api/src/tasks/outbox.worker.ts:177-193 | A commit of a marker keeps the invariant behind that exactly if it does not clash. |
| DispatchOutbox.SecondCallHasCause | apps/api/src/tasks/outbox.worker.ts:177-193 | Wherever in a run an attempt has been called for twice, a marker was committed over another, and that one or an earlier one without the lease of its row: a conditional write would prevent it, and so would markers only under the lease. |
| DispatchOutbox.LeasedMarkersAreFresh | apps/api/src/tasks/outbox.worker.ts:100-155 | Claims and guards see to the second: as long as markers are committed under the lease, a lease holder that found no marker is right, and no marker is committed over another. |
| DispatchOutbox.KeepsSafe | apps/api/src/tasks/outbox.worker.ts:136-193 | One action that does not clash keeps the invariant: whoever calls or is about to call has left the marker, no two workers are about to call for one attempt, and none of them has been called for. |
| DispatchOutbox.NeverCallsForWeb | apps/api/src/tasks/tasks.service.ts:1198-1226 | In every run only telephone attempts have outbox rows, are worked on, or are called for; web attempts never are. |
| DispatchOutbox.ProcessedRowsAreJustified | apps/api/src/tasks/outbox.worker.ts:146-167 | In every run a row is processed only with a job id, an attempt that has left calling, a recorded provider event, or a reply that the call is already active; no assumption is needed. |
| DispatchOutbox.RedeliveryDoesNotDial | apps/api/src/tasks/outbox.worker.ts:155-175 | Once the marker of an attempt has been committed, every delivery by any worker that reads the attempt later finishes or is ambiguous, and does not go on to a call; no assumption is needed. |
| DispatchOutbox.DeadLetteredCallIsReaped | apps/api/src/tasks/outbox.worker.ts:155-175 | In every run, after an ambiguous dispatch is dead-lettered, any tick of the reaper that finds the limit past leaves the attempt ended if it was calling, and not calling in any case. |
| DispatchOutbox.WorldRunsAreCallRuns | apps/api/src/tasks/outbox.worker.ts:207-235 | Every run of the workers projects to a run of the calls, step by step, so that every theorem about call runs holds for it. |
| DispatchAnomaly.TwoCalls | apps/api/src/tasks/outbox.worker.ts:315-348 | A concrete run calls twice for one attempt although the only worker whose lease was recovered never commits a marker: its failure report releases another worker's lease, and once the wait after that failure is over a third worker claims the row. |
| DispatchAnomaly.LateFailureFailsTheTask | apps/api/src/tasks/outbox.worker.ts:357-371 | A concrete run, from the claim to the late commit of a failure that is final at its first attempt of five, fails a task whose latest attempt is being dialled. |
| Pipeline.TakeTurns | apps/api/src/tasks/outbox.worker.ts:87-130 | Task service and any number of worker objects over one store, taking any turns, make a run of the protocol, and end with its rows and stages. |
| Pipeline.Serve | apps/api/src/tasks/tasks.service.ts:352-1227 | Each method of the task service makes its step of the call relation. |
| OutboxEffects.RecoveryTakesOnlyExpired | apps/api/src/tasks/outbox.worker.ts:87-98 | A recovery changes exactly the rows that are being processed under a lock time that is missing or older than the limit; they become pending without a lock, and nothing else changes. |
| OutboxEffects.LiveLeaseSurvives | apps/api/src/tasks/outbox.worker.ts:88-95 | In every run a lease no older than the limit survives a recovery, with its holder. |
| OutboxEffects.StagesEnable | apps/api/src/tasks/outbox.worker.ts:100-130 | A claim needs an idle worker and a pending row; each read, commit and call has one stage of the delivery to itself; an error or the end of the process may come at every stage. |
| OutboxEffects.ClaimTakesPending | apps/api/src/tasks/outbox.worker.ts:100-110 | A claim finds the row pending, counts one more delivery and locks it with the name and the time of the worker; nothing else changes. |
| OutboxEffects.GuardReads | apps/api/src/tasks/outbox.worker.ts:141-155 | Job id, then any status but calling, then the marker decide how a delivery goes on; no row changes. |
| OutboxEffects.ReviewReads | apps/api/src/tasks/outbox.worker.ts:160-174 | An ambiguous delivery is finished exactly if a provider event of its attempt is stored, and otherwise goes to manual review; no row changes. |
| OutboxEffects.MarkerWrites | apps/api/src/tasks/outbox.worker.ts:177-183 | The marker writes its own field with its own time, whatever is there, and nothing else. |
| OutboxEffects.CallLeadsOn | apps/api/src/tasks/outbox.worker.ts:185-205 | Each call is logged once; the reply leads to the job id, to a finished delivery or to a failure; no row changes. |
| OutboxEffects.EndWrites | apps/api/src/tasks/outbox.worker.ts:207-298 | What the three ends of a delivery write: job id and processed row, processed row, or failed row, unlocked in each case, and nothing else. |
| OutboxEffects.FailureWrites | apps/api/src/tasks/outbox.worker.ts:315-373 | A failure is final exactly if it is not retryable or the attempts are used up; otherwise the row is released and nothing else changes. A final one fails the row, and attempt and task as far as they are calling, each at its own time. |
| OutboxEffects.BreakOffWritesNothing | apps/api/src/tasks/outbox.worker.ts:126-130 | An error or the end of the process writes no row. |
| OutboxWorkers.WorkersActLocally | apps/api/src/tasks/outbox.worker.ts:100-130 | What a worker does depends only on the rows and on its own stage, and leaves the stages of the others alone, so a step of one worker is a step of the protocol in any world. |
| OutboxWorkers.OutboxWorker.RecoverExpiredLeases | apps/api/src/tasks/outbox.worker.ts:87-98 | Makes exactly the rows that are being processed with an expired or missing lock time pending again, without a lock, and changes no other: the recovery step. |
| OutboxWorkers.OutboxWorker.ClaimRow | apps/api/src/tasks/outbox.worker.ts:100-110 | Claims a row exactly if it is still pending, and otherwise changes nothing. |
| OutboxWorkers.OutboxWorker.Deliver | apps/api/src/tasks/outbox.worker.ts:141-155 | Makes the reading step: job id or another status end the delivery, a marker makes it ambiguous, otherwise the marker is next. |
| OutboxWorkers.OutboxWorker.Disambiguate | apps/api/src/tasks/outbox.worker.ts:160-174 | Makes the step that looks for provider events: one found finishes the delivery, none found sends it to manual review. |
| OutboxWorkers.OutboxWorker.StartDispatch | apps/api/src/tasks/outbox.worker.ts:177-183 | Makes the step that commits the marker, unconditionally and on its own. |
| OutboxWorkers.OutboxWorker.Replied | apps/api/src/tasks/outbox.worker.ts:185-205 | Makes the step of originate: accepted, already active, or an error. |
| OutboxWorkers.OutboxWorker.RecordJob | apps/api/src/tasks/outbox.worker.ts:207-236 | Makes the step that commits the job id and the processed row together. |
| OutboxWorkers.OutboxWorker.MarkDispatchProcessed | apps/api/src/tasks/outbox.worker.ts:287-298 | Makes the step that marks the row processed and touches no call. |
| OutboxWorkers.OutboxWorker.DeadLetterDispatch | apps/api/src/tasks/outbox.worker.ts:271-283 | Makes the step that marks the row failed and leaves the attempt calling. |
| OutboxWorkers.OutboxWorker.HandleFailure | apps/api/src/tasks/outbox.worker.ts:315-373 | Makes the step that retries or gives up, and on giving up fails the attempt and the task if they are still calling, each with its own reading of the clock. |
| CallStore.TasksService.Dispatch | apps/api/src/tasks/tasks.service.ts:1167-1227 | Claims the task by compare-and-set, exactly if its status is the one that was read and allows it; then attempt and outbox row are created together, otherwise nothing changes. |
| CallStore.TasksService.RecordProviderCallEvent | apps/api/src/tasks/tasks.service.ts:480-650 | Unknown attempt, repeated event and an id that belongs to another attempt change nothing and are told apart; otherwise the new rows are those of the specification. |
| CallStore.TasksService.RecordProviderActiveSnapshot | apps/api/src/tasks/tasks.service.ts:689-838 | The loop over attempts leaves exactly the specified attempts, and closes exactly the tasks whose latest attempt it ends, in whatever order the attempts are taken. |
| CallStore.TasksService.ReapStaleActiveCalls | apps/api/src/tasks/tasks.service.ts:851-963 | The same for the reaper. |
| CallStore.TasksService.UpdateStatus | apps/api/src/tasks/tasks.service.ts:352-436 | The write of a status update applies exactly if the task still has the status that was read and the transition is allowed; otherwise nothing changes. |
| CallStore.TasksService.FinalizeLocalHangup | apps/api/src/tasks/tasks.service.ts:1087-1123 | Completes the task and its attempt exactly if the task has not ended. |
| EventEffects.RecordedIffNew | apps/api/src/tasks/tasks.service.ts:480-510 | An event is recorded exactly if its attempt is known and its id is new; it writes this attempt, its task and its key and nothing else, and otherwise nothing is written and the answer says why. |
| EventEffects.EveryEventIsNoted | apps/api/src/tasks/tasks.service.ts:513-535 | Every recorded event keeps the later last event, takes back a missed snapshot that is no newer, sets the earlier ringing if it is progress, and keeps a recording for the attempt and, if it is the latest, the task. |
| EventEffects.EventDecides | apps/api/src/tasks/tasks.service.ts:536-640 | What each kind of event decides: an answer begins the call at the earliest answer, a failed job and a hangup end it with status, end, cause, answer time and whole seconds, the task follows if it is the latest and has not ended; events of an ended attempt and of other kinds decide nothing. |
| EventEffects.HangupCountsSeconds | apps/api/src/tasks/tasks.service.ts:568-625 | After the hangup of an answered call the duration d has d * 1000 <= hangup - answer < d * 1000 + 1000. |
| EventEffects.WholeSeconds | apps/api/src/tasks/tasks.service.ts:1867-1871 | A duration is none without a start, 0 if the end comes first, and otherwise the number of whole seconds. |
| HangupCauses.OneVerdict | apps/api/src/tasks/tasks.service.ts:1783-1807 | A technical failure fails a call even when it was answered; an answered call is completed; an unanswered one is not answered if the cause says so, and failed otherwise. No cause is in both tables. |
| HangupCauses.VerdictOfNormalForm | apps/api/src/tasks/tasks.service.ts:1783-1797 | The same verdict is reached for the normal form of a cause, and when a call is closed unseen. |
| Text.TrimDropsEnds | apps/api/src/tasks/tasks.service.ts:1895-1897 | Trimming takes white space off both ends and nothing else. |
| Text.CaseOfLetters | apps/api/src/tasks/tasks.service.ts:1737 | Changing case maps letters to their counterparts and keeps every other character. |
| HangupCauses.NormalizeTwice | apps/api/src/tasks/tasks.service.ts:1736-1738 | The normal form of a cause is its own normal form. |
| HangupCauses.RunBecomesUnderscore | apps/api/src/tasks/tasks.service.ts:1737 | A run of white space, points and dashes between words becomes one underscore. |
| HangupCauses.JobFailureIff | apps/api/src/tasks/tasks.service.ts:1809-1814 | A job result fails exactly if it says -ERR, in any case, followed by white space or nothing; the cause is the rest unless it is empty or unknown. |
| CommitEffects.DispatchWrites | apps/api/src/tasks/tasks.service.ts:1167-1227 | A dispatch takes place exactly if the task still has the status that was read and that is pending, failed or unanswered; it counts one more attempt, which is new in every field, and asks the outbox for a telephone call. |
| CommitEffects.SnapshotWrites | apps/api/src/tasks/tasks.service.ts:741-838 | What a snapshot writes: newer news of an attempt that is in it or in its grace clears the misses, a first miss counts, a second one closes by the verdict on the cause; tasks close exactly with their latest attempt. |
| CommitEffects.TickWrites | apps/api/src/tasks/tasks.service.ts:863-963 | What a tick of the reaper writes: exactly the calls that have been calling or in call for longer than their limit are closed, by the verdict on the cause; tasks close exactly with their latest attempt. |
| CommitEffects.UpdateWrites | apps/api/src/tasks/tasks.service.ts:352-412 | A status update is written exactly if the status that was read still stands and may become the next one (the twelve transitions are listed); it writes status, answer time, end and whole seconds of the task and of the attempt it names, and nothing else. |
| CommitEffects.HangupWrites | apps/api/src/tasks/tasks.service.ts:1087-1123 | A local hangup is written exactly if the task has not ended; it completes the task and the attempt it names, which keeps an end it had. |
| CommitEffects.DeliveryWrites | apps/api/src/tasks/outbox.worker.ts:177-371 | What deliveries write about calls: the marker, the job id, or the failure of attempt and task as far as they are calling. |
| CallHistory.RunsAreConsistentIff | apps/api/src/tasks/tasks.service.ts:352-436 | In every run of all writers, in every state the attempts of each task are numbered 1 to its count, earlier ones have ended, the latest has the status of the task, and a single one also has its answer time and duration, if and only if every status update and local hangup that applies names the latest attempt, with reads that give a single one the same times, and no dispatch of an earlier attempt fails for good while the task is calling. |
| CallHistory.KeepsConsistentIff | apps/api/src/tasks/tasks.service.ts:386-412 | One step of any writer keeps all that exactly under that condition. |
| CallHistory.CurrentReadsAreCoherentIff | apps/api/src/tasks/tasks.service.ts:1087-1123 | For a status update or local hangup that applies with reads that are still current, the condition is just that it names the latest attempt. |
| CallHistory.CoreRunsAreConsistent | apps/api/src/tasks/tasks.service.ts:1175-1197 | Corollary: it holds in every run of creations, dispatches, events, snapshots, reaps and deliveries without such a failure. |
| CallHistory.OnlyAttemptEndsTogetherIff | apps/api/src/tasks/outbox.worker.ts:364-371 | In every run of the corollary a task has the end of its only attempt exactly if no dispatch of that attempt failed for good at two different readings of the clock. |
| CallHistory.KeepsWellFormed | apps/api/src/tasks/tasks.service.ts:1176-1197 | Every step of every writer keeps the constraints: an attempt has a counted task, no number occurs twice, and outbox rows belong to telephone attempts. |
| CallHistory.LateFailureIff | apps/api/src/tasks/outbox.worker.ts:357-371 | A dispatch that fails for good keeps numbers, statuses, answer times and durations in that order exactly if its attempt is the latest or its task is not calling. |
| CallFates.StatusesFollow | apps/api/src/tasks/tasks.service.ts:127-135 | In every run of all writers, each commit moves a task only as allowed: failed and unanswered only to calling, in a call never back to calling, nothing to pending. |
| CallFates.FinalStatuses | apps/api/src/tasks/tasks.service.ts:352-457 | In every run of all writers, completed and cancelled are never left, and no task becomes pending again. |
| CallFates.EndsOnce | apps/api/src/tasks/tasks.service.ts:513-613 | In every run an attempt that has ended keeps status, end, cause, answer time and duration, unless a status update or local hangup names it and applies. |
| CallFates.ActiveAgainIff | apps/api/src/tasks/tasks.service.ts:386-401 | One step makes an ended attempt active exactly if it is a status update to an active status that names it and applies. |
| CallFates.StaysEndedIff | apps/api/src/tasks/tasks.service.ts:352-412 | In every run an attempt that has ended stays ended exactly as long as no such update comes. |
| CallFates.OnlyTheLatestWrites | apps/api/src/tasks/tasks.service.ts:800-811 | Events, snapshots, the reaper and deliveries that do not fail change a task only by an event of its latest attempt or when its latest attempt ends. |
| CallReconciliation.ClosesOnSecondMiss | apps/api/src/tasks/tasks.service.ts:741-811 | In every run that has not revived the attempt, a snapshot closes it exactly if it misses it while an earlier miss is open, with no counted snapshot and no event dated at that miss or later in between; a miss is a newer snapshot of the channel in which an active attempt with a job id is absent past its grace; the times of misses increase, and an active attempt has missed 0 or 1. |
| CallReconciliation.MissIff | apps/api/src/tasks/tasks.service.ts:741-768 | A step is a miss of an attempt exactly if it is such a snapshot, in literal fields. |
| CallReconciliation.PresentStaysActive | apps/api/src/tasks/tasks.service.ts:762-767 | A counted snapshot that has the attempt leaves it active as it was, with no misses. |
| CallReconciliation.NoOlderSnapshotCounts | apps/api/src/tasks/tasks.service.ts:749-755 | Whatever lies in between, an attempt that has counted a snapshot is left alone by any that is not newer. |
| CallReconciliation.ReplayChangesNothing | apps/api/src/tasks/tasks.service.ts:749-755 | A snapshot delivered twice in a row changes no row the second time. |
| CallReconciliation.ReapsExactlyTheStale | apps/api/src/tasks/tasks.service.ts:863-904 | Query and check together close exactly the active attempts that have run for more than their limit since their answer (in a call) or start, and leave every other as it is. |
| CallReconciliation.StuckCallIsReaped | apps/api/src/tasks/outbox.worker.ts:155-175 | Any attempt left calling, in any state of the rows, is ended by the first tick past its limit. |
| CallReconciliation.StuckTaskIsReaped | apps/api/src/tasks/tasks.service.ts:924-935 | In a consistent database it is the latest of its task, which ends with it. |
| CallAnomalies.JudgedByOwnEvidenceIff | apps/api/src/tasks/tasks.service.ts:576-580 | A hangup is judged by its own attempt's evidence exactly if there is some, the cause is fatal, or the task has no answer time that counts for its latest attempt. |
| CallAnomalies.FirstAttemptJudgedByOwnEvidence | apps/api/src/tasks/tasks.service.ts:576-580 | The only attempt of a consistent task is always judged by its own evidence. |
| CallAnomalies.UnansweredRetryIsCompleted | apps/api/src/tasks/tasks.service.ts:1176-1179 | A concrete run completes a second attempt that nobody answered. |
| CallAnomalies.UpdateRevivesAnEndedAttempt | apps/api/src/tasks/tasks.service.ts:386-401 | A concrete run makes an ended attempt active again by a status update that names it. |
| DeliveryOrder.TimesIgnoreOrder | apps/api/src/tasks/tasks.service.ts:517-534 | For any events of a call, the first ringing and the last event do not depend on the order of delivery. |
| DeliveryOrder.RingingIsEarliest | apps/api/src/tasks/tasks.service.ts:529-534 | The first ringing is the minimum over the progress events, however they arrive. |
| DeliveryOrder.LastEventIsLatest | apps/api/src/tasks/tasks.service.ts:517-520 | The last event is the maximum over all events. |
| DeliveryOrder.OrderIndependentIff | apps/api/src/tasks/tasks.service.ts:536-608 | For any events of an open call, with any number of hangups and failed background jobs, the final status is the same in every order if and only if every event that can end the call would end it with one and the same status before and after the answers. |
| DeliveryOrder.OneHangupIff | apps/api/src/tasks/tasks.service.ts:573-580 | With one hangup and no failed job that means: there is no answer that the hangup does not vouch for, with a cause that is not fatal. |
| DeliveryOrder.HangupAndFailedJobIff | apps/api/src/tasks/tasks.service.ts:548-580 | With one hangup and one failed job it means: the cause of the hangup is fatal, or nothing tells of an answer and the cause does not stand for no answer. |
| DeliveryOrder.EveryOrderEndsTheSame | apps/api/src/tasks/tasks.service.ts:568-608 | With one hangup, under its condition, every order also ends at the same time and with the same cause. |
| DeliveryOrder.EndedStaysEnded | apps/api/src/tasks/tasks.service.ts:536-568 | No sequence of events changes how an ended call ended. |
| EslStreams.ChunkInvariance | apps/api/src/freeswitch/esl-frame-parser.ts:62-109 | However a stream is cut, if no push throws, frames and leftover are those of the whole-stream decoder. |
| EslStreams.EveryCutSucceedsIffHeadersFit | apps/api/src/freeswitch/esl-frame-parser.ts:78-85 | Every cut of a stream succeeds exactly if the whole decodes and every header block fits the limit even without the last byte of its blank line. |
| EslStreams.ReadConnection | apps/api/src/freeswitch/esl-frame-parser.ts:62-134 | Over a whole connection: the frames of the decoder, completeness exactly without leftover, at most max(maxHeaderBytes, maxBodyBytes - 1) bytes buffered, and at most 2n + p * maxHeaderBytes bytes copied; if a push throws, the frames of the pushes before it and no others. |
| EslLosses.ThrowingPushLosesItsFrames | apps/api/src/freeswitch/esl-frame-parser.ts:72-108 | A connection that a push ends has returned exactly the frames that had arrived before it, and loses exactly those that it completed, so none exactly if it completed none. |
| EslLosses.SpoiledFrameIsLost | apps/api/src/freeswitch/esl-frame-parser.ts:78-105 | Any frame that can be written is lost when pushed together with an empty header block, and returned when pushed before it. |
| EslLosses.ShortFrameIsLost | apps/api/src/freeswitch/esl-frame-parser.ts:78-105 | One such input. |
| EslParsing.EslFrameParser.Push | apps/api/src/freeswitch/esl-frame-parser.ts:62-109 | One push of the mutable object returns the frames, the error and the leftover of the specification; one that throws returns no frames. |
| EslParsing.EslFrameParser.Finish | apps/api/src/freeswitch/esl-frame-parser.ts:112-116 | Accepts exactly an empty buffer with no header pending. |
| EslDecoder.DecodeInTwoParts | apps/api/src/freeswitch/esl-frame-parser.ts:72-108 | Decoding may stop at any byte and be carried on, errors included. |
| EslDecoder.BoundaryStable | apps/api/src/freeswitch/esl-frame-parser.ts:272-282 | More bytes never move the end of a header block, in either style of line ends. |
| EslDecoder.LeftoverIsPartial | apps/api/src/freeswitch/esl-frame-parser.ts:77-98 | What is left over holds no whole frame, and an awaited body is longer than what is buffered. |
| EslDecoder.FirstBlockDecides | apps/api/src/freeswitch/esl-frame-parser.ts:76-97 | The first header block fails with a size over the limit, then as invalid, then for its length; otherwise decoding goes on behind its blank line with the announced body. |
| EslHeaders.ParseHeaderBlock | apps/api/src/freeswitch/esl-frame-parser.ts:214-249 | The loop with its map of canonical names yields each name once, at its first spelling, with all its values, and fails on the same blocks. |
| EslHeaders.LookupReturnsAllValues | apps/api/src/freeswitch/esl-frame-parser.ts:193-203 | Lookup under any spelling returns every value of a name in wire order. |
| EslHeaders.LineAcceptedIff | apps/api/src/freeswitch/esl-frame-parser.ts:222-233 | A line is accepted exactly if it has a colon that is not its first character, behind a name of letters, digits, underscores and dashes that starts with a letter or digit; the value is the rest without leading white space. |
| EslHeaders.LinesAcceptedIff | apps/api/src/freeswitch/esl-frame-parser.ts:222-235 | A block is accepted exactly if all its lines are. |
| EslHeaders.SameNameIff | apps/api/src/freeswitch/esl-frame-parser.ts:193-203 | Names are the same exactly if they differ at most in the case of letters. |
| EslHeaders.LengthAnnounced | apps/api/src/freeswitch/esl-frame-parser.ts:251-270 | No length means 0; several must be the same digits; no more than the largest exact number, and no more than the limit of a body. |
| EslHeaders.DecimalIsRead | apps/api/src/freeswitch/esl-frame-parser.ts:262 | A number written in decimal digits is read back. |
| EslRoundTrip.RoundTrip | apps/api/src/freeswitch/esl-frame-parser.ts:62-109 | Frames written one after the other, each in either style of line ends, are read back exactly through any chunks, with nothing left over. |
| EslRoundTrip.RoundTripLookup | apps/api/src/freeswitch/esl-frame-parser.ts:193-203 | Every value written is found again under any spelling of its name, in order. |
| EventDelivery.AppliedOnceInOrder | apps/api/src/freeswitch/freeswitch-event-worker.service.ts:371-433 | In every run of queue and receiver, with any other writers at the receiver in between, the receiver runs through commits of the calls; ours among them apply accepted posts, each at most once and in the order of acceptance, and every acknowledged event is recorded. |
| EventDelivery.AppliedAtMostOnce | apps/api/src/tasks/tasks.service.ts:484-493 | Of all commits at the receiver in such a run, ours or not, at most one applies an event with a given id. |
| EventDelivery.NothingIsLost | apps/api/src/freeswitch/freeswitch-event-worker.service.ts:358-433 | In every run what was accepted is settled from the front or still queued, in order; settled means acknowledged or dead letter; a queue that is not empty has a drainer unless stopped. |
| EventDelivery.SettledByItsLastPost | apps/api/src/freeswitch/freeswitch-event-worker.service.ts:376-416 | In every run a post was acknowledged by its success, or became a dead letter by a failure that was not retryable or the last of the attempts, after failures that were all retryable. |
| EventDelivery.FailureSettlesIff | apps/api/src/freeswitch/freeswitch-event-worker.service.ts:393-416 | In every run a failure settles its post exactly if it is not retryable or is the last of the attempts; no post fails more often. |
| EventDelivery.FailureKeepsOrDrops | apps/api/src/freeswitch/freeswitch-event-worker.service.ts:387-427 | A retryable failure that is not the last keeps the head with one more attempt and backs off; any other drops it and counts a dead letter. |
| EventDelivery.QueueMoves | apps/api/src/freeswitch/freeswitch-event-worker.service.ts:358-386 | What offers, successes, the end of a wait and stopping do to the queue, in its fields. |
| EventDelivery.RepeatIsAppliedIffUnidentified | apps/api/src/tasks/tasks.service.ts:484-493 | A repeated post of an applied event is applied again exactly if the event has no id. |
| EventQueue.StaysSound | apps/api/src/freeswitch/freeswitch-event-worker.service.ts:371-376 | Every step keeps the queue bounded, the drainer at work while needed, and only the head ever tried. |
| EventQueue.EventWorker.Enqueue | apps/api/src/freeswitch/freeswitch-event-worker.service.ts:358-369 | Accepts exactly below the bound, appends, and wakes the drainer if it rests. |
| EventQueue.EventWorker.PostSucceeded | apps/api/src/freeswitch/freeswitch-event-worker.service.ts:378-386 | Takes the head off and goes on with the next item. |
| EventQueue.EventWorker.PostFailed | apps/api/src/freeswitch/freeswitch-event-worker.service.ts:387-427 | Keeps the head with one more attempt and backs off exactly if the error is retryable and not the last of the attempts; otherwise drops it, counts one dead letter, and says rejected exactly if it was not retryable. |
| FlowValidation.Validate | packages/shared/src/flow-validation.ts:9-65 | Terminates with the report on the flow: repeated ids, number of starts, missing end, loose edges, stuck nodes and nodes without a route from the start, in this order, each in the order of nodes or edges and once; it is empty exactly if the flow may be published. |
| FlowIssues.ReportedIff | packages/shared/src/flow-validation.ts:12-62 | Each kind of issue is in a report exactly where there is one: a repeated id, the number of starts if it is not one, no end, an edge from or to nowhere, a node that is no end and has no edge to a node, a node without a route from the only start. |
| FlowIssues.IssuesAreReport | packages/shared/src/flow-validation.ts:12-62 | The issues as they are collected are that report. |
| FlowValidation.Visit | packages/shared/src/flow-validation.ts:49-56 | The worklist ends and has visited exactly the reachable nodes. |
| FlowValidation.NoIssuesIffPublishable | packages/shared/src/flow-validation.ts:12-64 | No issues exactly if ids are distinct, there is one start and some end, no edge dangles, every other node has an exit and every node is reachable. |
| FlowValidation.StuckOnlyAtEnd | packages/shared/src/flow-validation.ts:41-46 | In an accepted flow a walk from the start can only get stuck at an end node. |
| FlowValidation.AcceptedFlowCanTrap | packages/shared/src/flow-validation.ts:48-62 | An accepted flow need not reach an end from every node: a concrete one traps a call. |
| FlowTraps.EveryNodeReachesAnEndIffNoTrap | packages/shared/src/flow-validation.ts:41-62 | Every node of a flow reaches an end exactly if no part of it that no edge leaves is without an end. |
| FlowTraps.AcceptedAcyclicFlowReachesEnd | packages/shared/src/flow-validation.ts:41-62 | Every node of an accepted flow without cycles reaches an end. |
| KnowledgeRetrieval.BestOfTheBest | apps/api/src/knowledge-base/knowledge-base.service.ts:289-321 | Taking the best k of each base and the best k of those gives the first k of one stable sort of all positively scoring documents; a missing base fails the search. |
| KnowledgeRetrieval.SearchReturnsTheBest | apps/api/src/knowledge-base/knowledge-base.service.ts:289-321 | A search returns, of the documents with a positive score in the bases that are named, the best k in descending order with ties in the order in which they stand; if a base is missing it fails on one that is. |
| KnowledgeRetrieval.CleanIdsGrow | apps/api/src/knowledge-base/knowledge-base.service.ts:314 | The cleaned ids stand in the order of their first occurrence (their contract says that they are the distinct trimmed ids that are not empty). |
| KnowledgeRetrieval.StableSortIsUnique | apps/api/src/knowledge-base/knowledge-base.service.ts:297-320 | There is exactly one stable descending sort (section 23.1.3.30 of ECMA-262), so the model's sort is the language's. |
| KnowledgeRetrieval.SortIsStable | apps/api/src/knowledge-base/knowledge-base.service.ts:297 | The model's sort is sorted, a permutation, and keeps the order of equal scores. |
| KnowledgeTree.BuildTree | apps/api/src/knowledge-base/knowledge-base.service.ts:184-203 | The two loops list under each node exactly its children, and among the roots exactly the nodes without a known parent, in order. |
| KnowledgeTree.HungInOrder | apps/api/src/knowledge-base/knowledge-base.service.ts:184-203 | Each list names, in the order of the nodes and once each, exactly the nodes whose link leads to the parent, or, for the roots, to no node. |
| KnowledgeTree.ParentIff | apps/api/src/knowledge-base/knowledge-base.service.ts:192-199 | A link counts exactly if it is not empty and some node has that id. |
| KnowledgeTree.AppearsOnceUnlessCyclic | apps/api/src/knowledge-base/knowledge-base.service.ts:192-201 | With unique ids a node is in the forest, by exactly one walk from a root, unless it is on or below a cycle of parents; then it is nowhere. |
| KnowledgeTree.ListedOnce | apps/api/src/knowledge-base/knowledge-base.service.ts:192-201 | No list of children holds a node twice. |
| UsageAggregates.UsageStore.RecordUsageEvent | apps/api/src/tenants/tenants.service.ts:209-273 | A key is stored once, also after a stale lookup; a lost race is rolled back; every bucket stays the sum and the number of its stored events. |
| UsageAggregates.TotalSnoc | apps/api/src/tenants/tenants.service.ts:238-262 | One more event adds its quantity and one to the bucket of its tenant, metric, period and start of period, and nothing to any other. |
| UsageAggregates.StoredIff | apps/api/src/tenants/tenants.service.ts:219-222 | A key is taken exactly if an event of the same tenant has it. |
| UsageAggregates.FirstRequestWins | apps/api/src/tenants/tenants.service.ts:219-272 | However requests interleave, each key is stored at most once, exactly if one went through, with what the first of those asked for. |
| UsageAggregates.RecordAll | apps/api/src/tenants/tenants.service.ts:209-273 | A store that takes requests one after the other, with any lookups and lost races, holds exactly those events. |
| Downsampling.DownsampleBuffer | apps/dashboard/lib/audio-utils.ts:134-161 | Each output is the average of its window, which is never empty; equal rates return the input and upsampling is refused. |
| Downsampling.WindowsTile | apps/dashboard/lib/audio-utils.ts:148-158 | The windows follow each other from the start without gap or overlap, and none is empty. |
| Downsampling.BoundIsNearest | apps/dashboard/lib/audio-utils.ts:149 | A window starts at the sample nearest to its share of the input. |
| Downsampling.WeightedIsSum | apps/dashboard/lib/audio-utils.ts:148-158 | Conservation: weighted with the lengths of their windows the outputs sum up to the samples that the windows cover. |
| Downsampling.FewSamplesDropped | apps/dashboard/lib/audio-utils.ts:144-149 | Fewer than ratio / 2 + 1 / 2 samples at the end are left out. |
| Downsampling.MeanWithin | apps/dashboard/lib/audio-utils.ts:150-156 | An output lies between any bounds of its window. |
| RateLimit.WebDemoController.AssertRateLimit | apps/api/src/tasks/web-demo.controller.ts:118-134 | Of the calls ever allowed for the key: fewer than 6 in the window that ends now are always enough to be allowed, and a call is allowed only with fewer than 6 in the window that ends at the latest clock reading. Unless the clock was set back this is exact, so forgetting old stamps and keys loses nothing. |
| RateLimit.SetBackClockForgets | apps/api/src/tasks/web-demo.controller.ts:120-127 | With a clock that was set back it does lose: however many calls were made at one time, only the one made after they left the window is counted at that time again. |
| RateLimit.StaysLimited | apps/api/src/tasks/web-demo.controller.ts:120-127 | While the clock is not set back, an allowed call keeps the limit: any 7 calls of a key span at least the window. |

## Left out

- CallHistory.CoreRunsAreConsistent: a corollary without status updates, local hangups and late failures; the exact condition over all writers is that of `CallHistory.RunsAreConsistentIff`.
- CallHistory.OnlyAttemptEndsTogetherIff: about runs without status updates and local hangups, one of which may bring two ends together again.
- CallReconciliation.ClosesOnSecondMiss: excludes status updates that make the attempt active again after it has ended (`CallFates.ActiveAgainIff`).
- Downsampling.DownsampleBuffer: real numbers; rounding of floating point, and sample rates that are not positive, are not modelled.
- UsageAggregates.UsageStore.RecordUsageEvent: quantities are unbounded integers, and the way time is cut into days and months is a parameter.
- EventDelivery.AppliedOnceInOrder: each post carries the attempt that it resolves to.
- Resolving an event to its attempt by call id, and the case folding of channel ids: events and snapshots name the attempt.
- Outcomes, contact history, recording of paths, removal of tasks, and the event log itself except which attempts have a provider event.
- The SMS, webhook and CRM actions of the outbox, and the times at which rows become available again.
- The batch guard of one worker, and how many rows it takes: a worker delivers one row at a time.
- Text outside ASCII and percent decoding: white space and case are those of ASCII.
- Retrieval through the external knowledge service, the scoring of documents, and negative limits.
- The frame buffer, volume and number formats of audio, the quota check, and the payload of inner plain events are not modelled.
- Sockets, timers, metrics, logging, files and the database itself: transactions are steps, rows are maps.
