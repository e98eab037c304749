# Verified models of Eki's stateful components

Eki tracks buses. A battery-backed device on the bus captures GNSS fixes, keeps them across
power loss and publishes them; a backend filters them, schedules the work they cause, stores
routes with their road geometry and serves them from caches. This project models the parts of
that system whose correctness depends on more than one function at a time, and proves what they
are for.

Each module follows one source file or one protocol over several of them.

| files | component |
|---|---|
| `CheckpointJournal`, `CheckpointRuns`, `CheckpointBound`, `CheckpointProgress` | crash-safe flash journal of the firmware; runs with arbitrary faults and reboots; the exact bound on attempts; progress past a worn page |
| `ExecutorModel`, `ExecutorInvariants`, `ExecutorEffects`, `BoundedKeyedExecutor` | bounded per-key executor: steps, invariant over every interleaving, what each operation is for, the class |
| `SchedulerModel`, `SchedulerInvariants`, `SchedulerReports`, `LatestPendingScheduler` | latest-value scheduler running on that executor; who is submitted and why the others are reported |
| `RouteSaveContract`, `RouteStore`, `RouteSaveProtocol`, `RouteSaveLeases`, `RouteGeometryVersions` | idempotent route saves by concurrent, crashing requesters; leases and answers; geometry versions |
| `StopProjection`, `RouteSegment` | dynamic program that places stops on a polyline |
| `Polyline`, `PolylineCanonical`, `OrderedRouteGeometry` | polyline codec and its canonical strings; chunked route requests and their joining |
| `TelemetryQueueModel`, `TelemetryQueue` | in-place telemetry ring; capture and publisher tasks around a request in flight |
| `CivilClock`, `MonotonicFreshness`, `GnssCorroboration`, `DnsResolution` | time and DNS state machines of the firmware |
| `LruCache`, `SingleFlight`, `ApiReadCache` | read cache over single-flight loads |
| `MotionEnvelope`, `OutageReacquisition`, `ReacquisitionCandidate`, `RetryAfter` | plausibility filters on both sides; retry header |
| `Words`, `MapSums`, `Geo`, `Wrappers` | 32-bit words and ring positions, map sums and sequences, coordinates, Option and Result |

State that the source changes in place is a class whose methods are proved equal to a
specification function on a value (`Journal.Append` and `AppendResult`, `Executor.Run` and
`Admit`, ...). The theorems are about runs of those functions.

`dafny verify dfyconfig.toml` checks everything.

## How the system is modelled

- Unbounded time and counters stand beside the 32-bit ones, and each theorem says how far apart
  calls may be. Words wrap explicitly (`U32`, `S32`).
- A flash write that reports success holds its record; one that does not leaves its own slot old,
  new or unreadable; an erase that does not leaves each record of its own page kept or unreadable.
  The codec opens only what it sealed. An interrupted append is a failed append followed by a reboot.
- A Firestore transaction is one atomic step on the documents it touches. Payload hashes and
  geometry signatures are injective, so the model compares payloads and ordered coordinates
  directly; a lease owner is a fresh number.
- An event loop turn is one step. The scheduler's and the executor's clock readings within a turn
  are separate parameters (`Readings`); the read cache reads the clock once per synchronous call, a
  route-save claim once per transaction.
- Traces and histories (`trace`, `log`, `writes`, `turns`, `lookups`, `processing`, `underway`, `notices`,
  `handedAges`, `abandoned`, `returned`, `calls`, the age of an overdue task) exist only in the model.
  Per-key records (an executor's key state, a worker, a flight) are values in a map.
- Real numbers stand for doubles. The distance in metres is any function of two places, shared by
  both filters; no property of it is used.

## Where the code does less than one might expect

- **Journal.** Once a reboot has recovered a later attempt whose confirmation was lost, the record
  `append` last confirmed may be erased (`CheckpointRuns.ConfirmedRecordYieldsToRecoveredAttempt`);
  what `initialize` then recovers is the later attempt. Exactly which stored records the next append
  can destroy is `CheckpointRuns.RecordSurvivesExactly`. Generations are compared by signed
  difference, so crash safety has a bound: it holds for all runs of at most n attempted writes if and
  only if n <= 2^31 (`CheckpointBound.SafeExactlyForHalfCycle`). With one attempt more there is a run
  from blank flash after which a record `append` has just confirmed is lost to one 2^31 attempts older
  (`CheckpointBound.ConfirmedRecordLostAfterHalfCycle`). For longer runs the scan is right in every
  order of the slots exactly when the newest record is in reach of every other
  (`CheckpointRuns.ScanFindsNewestInEveryOrder`).
- **Scheduler.** Between the rejection of an overdue submission and its continuation, `schedule`
  still replaces the submitted value while an older successor may wait; both are then dropped, but a
  report always follows, so nothing is lost silently.
- **Route saves.** The ride guard looks at 50 bus locks. `RouteSaveContract.RideMissedExactly` says
  when it misses a ride; exactly then an edit commits while a ride owns the route
  (`RouteStore.EditCommitsUnderARideExactly`), and a run reaches it
  (`RouteSaveProtocol.EditCommitsUnderHiddenRide`). At the largest safe integer a version reads back as 0
  (`RouteSaveContract.SuccessorReadsBack`, `RouteGeometryVersions.GeometryVersionDropsOnlyAtTheTop`).
  A route deleted and recreated can reuse a geometry version for other coordinates; a run from an
  empty database does (`RouteGeometryVersions.DeletionReusesVersions`).
- **Telemetry queue.** After a sequence wrap an older sample can share the acknowledged one's
  sequence; `TelemetryQueueModel.AcknowledgeIsExactUnlessDuplicated` gives the exact condition.
- **Polyline decoding** is not injective: it accepts padded zeros (`PolylineCanonical.PaddedZeroDecodes`)
  and drops bits beyond the 32-bit word (`PolylineCanonical.LostBitsDecode`). A string that decodes is
  the encoding of what it decodes to if and only if it is canonical
  (`PolylineCanonical.EncodedExactlyWhenCanonical`).
- **Read cache.** A cached value is never stale, but a read that joins a load which has returned and
  whose flight is not yet removed gets that load's value even if the cache was invalidated in between;
  this is the only way (`ApiReadCache.WaitersGetStaleOnlyFromSettled`, `ApiReadCache.StaleValueIsDelivered`).
- **Motion filters.** A gap of 49 days or more wraps the firmware's elapsed time;
  `MotionEnvelope.BackendAcceptsOnlyFirmwarePlausible` says exactly when the firmware then rejects
  what the backend accepts.
- **Capture.** The firmware treats a reference HDOP above 4 as unknown and the backend does not, so
  at that call the firmware's envelope is wider, never narrower
  (`MotionEnvelope.CaptureIsNeverNarrower`).

## Model

| member | source | states |
|---|---|---|
| `CheckpointBound.SafeExactlyForHalfCycle` | hardware/include/checkpoint_journal.h:18-62 | The exact bound of crash safety: every run of at most n attempted writes from blank flash, with any seal, erase, write and read faults and reboots, recovers the sample last confirmed or a later attempted one, if and only if n is at most 2^31 |
| `CheckpointBound.FewAttemptsRecover` | hardware/include/checkpoint_journal.h:18-62 | Any run from blank flash with at most 2^31 attempted writes, however many reboots and appends that attempt none, leaves flash from which `initialize` recovers the sample `append` last confirmed or a later attempted one; nothing confirmed is ever lost entirely |
| `CheckpointBound.ConfirmedRecordLostAfterHalfCycle` | hardware/include/checkpoint_journal.h:27-59 | A run from blank flash with 2^31 + 1 attempts: the last `append` returns true, and the next `initialize` recovers the first sample instead |
| `CheckpointRuns.RecoversLastConfirmedOrLater` | hardware/include/checkpoint_journal.h:18-62 | Recovery for runs with any number of attempts in which, at every scan, the newest stored record is in reach of the others |
| `CheckpointRuns.RecoversInWindow` | hardware/include/checkpoint_journal.h:18-33 | In any state satisfying the journal invariant, a reboot now recovers the last confirmed or a later attempted sample |
| `CheckpointRuns.AppendSparesAnchor` | hardware/include/checkpoint_journal.h:45-54 | No append, however it fails and wherever the cursor is in the ring, changes the slot of the record last confirmed or recovered |
| `CheckpointRuns.RecordSurvivesExactly` | hardware/include/checkpoint_journal.h:45-59 | A stored record survives the next append under every fault if and only if the cursor is neither on its slot nor about to enter its unprotected page |
| `CheckpointRuns.ConfirmedRecordYieldsToRecoveredAttempt` | hardware/include/checkpoint_journal.h:45-59 | A concrete run in which the record last confirmed is erased, after a reboot recovered a later unconfirmed attempt |
| `CheckpointRuns.AppendKeepsInv` | hardware/include/checkpoint_journal.h:36-62 | Records agree with the attempt log, generation numbers order them as attempted, the anchor is readable, and the volatile fields describe the flash, after an append with any faults |
| `CheckpointRuns.RebootKeepsInv` | hardware/include/checkpoint_journal.h:18-33 | The same invariant after `initialize`, with or without a failing read |
| `CheckpointRuns.RunKeepsInv` | hardware/include/checkpoint_journal.h:18-62 | The journal invariant holds after any run whose reboots find the newest record in reach |
| `CheckpointRuns.ScanFindsNewestInEveryOrder` | hardware/include/checkpoint_journal.h:23-31 | For any stored attempts the running maximum by signed difference finds the newest in every order of the slots if and only if the newest is in reach of every other |
| `CheckpointRuns.SerialOrder` | hardware/include/checkpoint_journal.h:27 | For two attempt numbers closer than a whole cycle the signed 32-bit difference of their stored values is positive if and only if they are less than 2^31 apart, or less than 2^31 - 1 when the skipped 0 lies between; different numbers are stored differently |
| `CheckpointRuns.GenerationsAreDistinct` | hardware/include/checkpoint_journal.h:55-58 | No two readable records share a stored generation |
| `CheckpointRuns.WrappedNext` | hardware/include/checkpoint_journal.h:40-41 | The next stored generation is the wrap of the next attempt number, and 0 is skipped |
| `CheckpointRuns.TwoFaultFreeAppendsCommit` | hardware/include/checkpoint_journal.h:45-54 | The page guard never blocks progress: of two fault-free appends in a row at least one commits |
| `CheckpointProgress.OneBadPageNeverBlocks` | hardware/include/checkpoint_journal.h:36-62 | From any ready state with the journal invariant, on at least three pages, if erases and writes may fail on one page only and everything else succeeds, one of the next `recordsPerPage` + 2 appends returns true |
| `CheckpointProgress.FailingErasesNeverBlock` | hardware/include/checkpoint_journal.h:45-54 | If erases of one page alone may fail and everything else succeeds, one of any three appends in a row returns true |
| `CheckpointProgress.RetryMovesOn` | hardware/include/checkpoint_journal.h:45-59 | An append that comes to its write leaves the cursor on another slot and takes another generation, whether the write succeeds or not |
| `CheckpointProgress.UnsealedChangesNothing` | hardware/include/checkpoint_journal.h:36-44 | In any ready state an append whose record cannot be sealed changes neither flash nor memory |
| `CheckpointJournal.EraseSlots` | hardware/include/checkpoint_journal.h:45-54 | Erasing a page leaves every other page alone and on its own page leaves each record kept or unreadable |
| `Words.NextNonZero` | hardware/include/checkpoint_journal.h:40-41 | The next generation, like the next sequence and ticket, is never 0 |
| `CheckpointJournal.Journal.Initialize` | hardware/include/checkpoint_journal.h:18-33 | The loop over the slots computes the specified scan, cursor and readiness, or an unready journal when a read fails |
| `CheckpointJournal.Journal.Newest` | hardware/include/checkpoint_journal.h:35 | The recovered or last confirmed sample, if there is one |
| `CheckpointJournal.Journal.Append` | hardware/include/checkpoint_journal.h:36-62 | The answer, every volatile field and the whole flash after an append with the given faults are those of `AppendResult` |
| `CheckpointJournal.FlashStorage.Write` | hardware/include/checkpoint_journal.h:59 | A write reported true holds the record; otherwise its own slot is old, new or unreadable |
| `CheckpointJournal.FlashStorage.ErasePage` | hardware/include/checkpoint_journal.h:51 | An erase changes its own page only |
| `ExecutorInvariants.EveryRunIsSafe` | backend/src/lib/boundedKeyedExecutor.ts:54-119 | After every step of every interleaving of admissions, timers, task turns, settlements and refreshes: permits and queue are within all budgets, a permit is idle only if nothing is ready, `ready` holds exactly the keys that can start, each key's unexpired admissions are its finished, running and queued tasks in admission order, and the promises admitted, all different, are as multisets those expired, finished, running and queued |
| `ExecutorInvariants.RunKeepsInv` | backend/src/lib/boundedKeyedExecutor.ts:54-133 | The executor invariant (ready list without repeats and exact, counters equal true totals, budgets, work conservation, FIFO, accounting, fairness) holds after any sequence of steps from any state that has it |
| `ExecutorInvariants.NoKeyOvertakesTwice` | backend/src/lib/boundedKeyedExecutor.ts:81-119 | While a key stays ready no other key is dispatched twice |
| `ExecutorInvariants.BypassStartsAtOnce` | backend/src/lib/boundedKeyedExecutor.ts:74-79 | A task admitted through the immediate-start bypass with a full queue finds nothing ready, is dispatched by its own admission and leaves the queue no longer than before |
| `ExecutorInvariants.HeadCanStart` | backend/src/lib/boundedKeyedExecutor.ts:100-104 | The head of `ready` always has a state, no running task and queued work, so the pump's defensive branches are unreachable |
| `ExecutorInvariants.PumpKeepsCore` | backend/src/lib/boundedKeyedExecutor.ts:98-119 | Pumping keeps every invariant part and ends with all permits taken or nothing ready |
| `ExecutorInvariants.AdmitKeepsInv` | backend/src/lib/boundedKeyedExecutor.ts:54-79 | `run`, accepted or refused, keeps the invariant, so queued work never exceeds `maxPending` even through the bypass |
| `ExecutorInvariants.ExpireKeepsInv` | backend/src/lib/boundedKeyedExecutor.ts:85-96 | A queue timer keeps the invariant, whether its task is still queued or not |
| `ExecutorInvariants.BeginKeepsInv` | backend/src/lib/boundedKeyedExecutor.ts:112-116 | Entering or refusing a dispatched task's work keeps the invariant |
| `ExecutorInvariants.CompleteKeepsInv` | backend/src/lib/boundedKeyedExecutor.ts:107-111 | Settlement keeps the invariant: one permit is returned and re-dispatched |
| `ExecutorInvariants.RefreshKeepsInv` | backend/src/lib/boundedKeyedExecutor.ts:126-133 | Refreshing a queued task's age keeps the invariant |
| `ExecutorInvariants.ExpireShape` | backend/src/lib/boundedKeyedExecutor.ts:85-96 | Expiry touches its own key only: the task leaves its place in that key's queue and the others keep theirs |
| `ExecutorEffects.TimerExpiresExactlyTheQueued` | backend/src/lib/boundedKeyedExecutor.ts:85-96 | A queue timer changes something if and only if its task is still queued, whether or not its key has a running task; then the task is gone and the others keep their order, one less is waiting, one more has expired, and the trace records it |
| `ExecutorEffects.RefreshRestartsExactlyTheQueued` | backend/src/lib/boundedKeyedExecutor.ts:126-133 | Refreshing gives a queued task the present time and moves nothing; any other promise changes nothing |
| `ExecutorEffects.TurnEntersExactlyTheFresh` | backend/src/lib/boundedKeyedExecutor.ts:112-116 | A dispatched task enters its work if and only if it has waited less than the maximum age; otherwise it is overdue and counted as expired; nothing else changes |
| `ExecutorEffects.AdmitsExactly` | backend/src/lib/boundedKeyedExecutor.ts:54-79 | Work is admitted if and only if its key has room and either fewer than `maxPending` tasks are queued in all or its key is idle and a permit is free; it is then queued last for its key at the present time, or dispatched; a refusal is counted and changes nothing else |
| `ExecutorEffects.QueueIsDistinct` | backend/src/lib/boundedKeyedExecutor.ts:54-96 | No promise is queued twice for a key |
| `BoundedKeyedExecutor.Executor.Run` | backend/src/lib/boundedKeyedExecutor.ts:54-72 | Admission of the class equals the specified step on its whole state, with the promise or the refusal returned |
| `BoundedKeyedExecutor.Executor.CanRunNow` | backend/src/lib/boundedKeyedExecutor.ts:74-79 | The admission test of the class is the specified one |
| `BoundedKeyedExecutor.Executor.PumpNow` | backend/src/lib/boundedKeyedExecutor.ts:98-119 | The pump loop equals repeated dispatch of the ready head while a permit is free |
| `BoundedKeyedExecutor.Executor.ExpireNow` | backend/src/lib/boundedKeyedExecutor.ts:85-96 | A timer that fires equals the specified expiry on the whole state |
| `BoundedKeyedExecutor.Executor.BeginNow` | backend/src/lib/boundedKeyedExecutor.ts:112-116 | The task's turn equals the specified step and reports whether it was overdue |
| `BoundedKeyedExecutor.Executor.CompleteNow` | backend/src/lib/boundedKeyedExecutor.ts:107-111 | The completion callback equals release followed by pump |
| `BoundedKeyedExecutor.Executor.RefreshPending` | backend/src/lib/boundedKeyedExecutor.ts:126-133 | Refresh equals the specified step; only a still-queued task with that promise changes |
| `BoundedKeyedExecutor.Executor.IsDispatchedNow` | backend/src/lib/boundedKeyedExecutor.ts:121-123 | True exactly when the key's running task owns the promise |
| `SchedulerInvariants.LatestValueIsNeverLostSilently` | backend/src/lib/latestPendingScheduler.ts:40-87 | In every interleaving each key's values reach `processTask` in schedule order, never an older one after a newer one, and a key has no worker only if its last scheduled value was the last one processed or an expiry or rejection was reported after it was scheduled |
| `SchedulerInvariants.CountersAreTrue` | backend/src/lib/latestPendingScheduler.ts:33-56 | In every interleaving the values handed to `processTask` are in number the processed ones plus those under way, failures are among the processed, and the maximum queue age bounds the last |
| `SchedulerReports.EveryReportIsDue` | backend/src/lib/latestPendingScheduler.ts:40-68 | In every interleaving each report is for a value or task that had reached the maximum queue age, for a queue timer, or for an executor with all permits taken and its queue full; reports are in number the `expired` and `rejected` ones; and each value handed to `processTask` was younger than the maximum age |
| `SchedulerReports.EveryValueIsAccounted` | backend/src/lib/latestPendingScheduler.ts:40-87 | In every interleaving the values scheduled are in number those handed to `processTask`, those replaced by a newer one, those reported, those dropped beside a report and those still held: none is lost or counted twice |
| `SchedulerReports.ScheduleSubmitsExactlyTheFresh` | backend/src/lib/latestPendingScheduler.ts:71-78 | For a key without a worker, `schedule` leaves one holding the value under a new promise, queued or dispatched, if and only if the value is younger than the maximum age and a permit or queue place is free; otherwise the key has no worker and the one report says which was missing |
| `SchedulerReports.ContinueSubmitsExactlyTheFresh` | backend/src/lib/latestPendingScheduler.ts:57-63 | The same for the successor when a submission was fulfilled; without a successor the worker goes without a report, and after a rejection with one report of its cause |
| `SchedulerReports.ScheduleReplacesTheNewest` | backend/src/lib/latestPendingScheduler.ts:79-86 | For a key with a worker `schedule` reports nothing and asks for no permit: the value becomes the successor beside a running or finished task, else takes the waiting submission's place with its queue age started again, and unless the submission was already rejected it is the one to be processed last |
| `SchedulerReports.TurnHandsOverExactlyTheFresh` | backend/src/lib/latestPendingScheduler.ts:46-52 | A turn hands the submitted value to `processTask` if and only if the task is not overdue and the value is younger than the maximum age, else it is reported; the age measured is the last one and enters the maximum |
| `SchedulerReports.TimerRejectsExactlyTheQueued` | backend/src/lib/latestPendingScheduler.ts:61-63 | A queue timer changes something if and only if its task is still queued; the key is then idle, its worker stays, and the continuation reports the timer |
| `SchedulerReports.SettlementCountsExactly` | backend/src/lib/latestPendingScheduler.ts:52-57 | A settled task counts as processed if and only if `processTask` had been called for it and as failed if and only if that call threw; its promise is rejected if and only if it was overdue |
| `SchedulerInvariants.RunKeepsInv` | backend/src/lib/latestPendingScheduler.ts:40-87 | The scheduler invariant holds after any sequence of schedules, timers, task turns, settlements and continuations |
| `SchedulerInvariants.SubmissionFindsKeyIdle` | backend/src/lib/latestPendingScheduler.ts:40-46 | Wherever a worker is submitted (a key without a worker, or a continuation) the invariant gives that its key is idle, so a submission never meets the per-key limit of one; it is refused exactly when all permits are taken and the global queue is full |
| `SchedulerInvariants.ScheduleKeepsInv` | backend/src/lib/latestPendingScheduler.ts:71-87 | Scheduling keeps the invariant for the key and every other key |
| `SchedulerInvariants.TimerKeepsInv` | backend/src/lib/latestPendingScheduler.ts:57-63 | A queue timer of the executor keeps the scheduler invariant |
| `SchedulerInvariants.BeginKeepsSchedInv` | backend/src/lib/latestPendingScheduler.ts:46-52 | A task turn, overdue or entering its work, keeps the invariant |
| `SchedulerInvariants.SettleKeepsInv` | backend/src/lib/latestPendingScheduler.ts:52-57 | Settlement of a promise keeps the invariant while its continuation is still due |
| `SchedulerInvariants.ContinueKeepsInv` | backend/src/lib/latestPendingScheduler.ts:57-63 | The continuation, resubmitting the successor or retiring the worker, keeps the invariant |
| `ExecutorEffects.PumpEffect` | backend/src/lib/boundedKeyedExecutor.ts:98-119 | Pumping changes no key's state except by dispatching its queue head, and only of ready keys |
| `LatestPendingScheduler.Scheduler.ScheduleValue` | backend/src/lib/latestPendingScheduler.ts:71-87 | `schedule` equals the specified step on workers, executor, all eight counters and reports, with a separate clock reading for each call of `now` |
| `LatestPendingScheduler.Scheduler.Replace` | backend/src/lib/latestPendingScheduler.ts:79-86 | A key with a worker gets a successor once its submission is dispatched, else its waiting value is replaced and its queue age refreshed |
| `LatestPendingScheduler.Scheduler.SubmitWorker` | backend/src/lib/latestPendingScheduler.ts:40-68 | `submit` equals the specified step, which admits exactly the fresh values there is room for (`SchedulerReports.SubmitsExactlyTheFresh`) and reports the others |
| `LatestPendingScheduler.Scheduler.TimerFiresNow` | backend/src/lib/latestPendingScheduler.ts:61-63 | The timer step, with the rejected promise left for its continuation |
| `LatestPendingScheduler.Scheduler.TaskBeginsNow` | backend/src/lib/latestPendingScheduler.ts:46-52 | The task turn equals the specified step, queue ages included, and hands `processTask` exactly the submitted value, or nothing when overdue |
| `LatestPendingScheduler.Scheduler.TaskSettlesNow` | backend/src/lib/latestPendingScheduler.ts:52-57 | Settlement equals the specified step; the processed counter, and after a throw the failed one, count exactly the values that had been handed over |
| `LatestPendingScheduler.Scheduler.ContinueNow` | backend/src/lib/latestPendingScheduler.ts:57-63 | The continuation equals the specified step |
| `RouteSaveProtocol.RunKeepsInv` | backend/src/routes/polyline.ts:546-754 | Over all interleavings of requesters, crashes, lost replies, lease takeovers and deletions: a save ID stays bound to one payload, its write is applied at most once, its record is `succeeded` exactly when that write was applied, and a settled record never changes |
| `RouteSaveProtocol.DefinitiveFailureIsFinal` | backend/src/routes/polyline.ts:546-567 | A recorded definitive failure never turns into a commit in any continuation |
| `RouteSaveProtocol.EveryWriteIsVersioned` | backend/src/routes/polyline.ts:700-754 | Each committed write replaced exactly the version its request named and wrote that version plus one, with the request's name, colour and stops; a create found no route; no edit committed while the scan saw a ride, and none at all while a ride owned the route if at most 50 locks existed |
| `RouteSaveProtocol.StepKeepsInv` | backend/src/routes/polyline.ts:546-754 | Every single step keeps these properties and undoes no write, binding or settled record |
| `RouteSaveLeases.LeaseIsExclusive` | backend/src/lib/routeSaveContract.ts:64-71 | Over every run whose claims of any requester come before a lease runs out, the leased record is unchanged until its owner commits or records a failure, and every claim of that save with its payload is answered that it is in progress, without effect |
| `RouteSaveLeases.RunOutLeaseIsRegained` | backend/src/lib/routeSaveContract.ts:64-71 | Once the lease has run out with the record still in progress, a claim with its payload is never answered so, and it is granted, with a lease of its own, if and only if the route, version and ride checks pass |
| `RouteSaveLeases.RetryCommits` | backend/src/routes/polyline.ts:570-754 | From any state, a request on a save without standing lease and settled outcome, arriving with its payload while the route is as it names it, claims and commits: a crashed requester's save is not lost |
| `RouteSaveLeases.ClaimIsGrantedExactly` | backend/src/routes/polyline.ts:570-607 | A claim is granted if and only if the save is new or has neither a standing lease nor a settled outcome, its payload is the same, and the route is as the request names it; it then owns the record for 30 s; any other claim changes nothing |
| `RouteSaveLeases.KnownSaveIsAnswered` | backend/src/lib/routeSaveContract.ts:42-72 | A claim on a known save is answered conflict exactly for another payload, else in progress exactly while a lease stands, the stored result exactly when it succeeded, the stored failure exactly when it is definite |
| `RouteSaveLeases.CommitsExactly` | backend/src/routes/polyline.ts:700-754 | A commit takes effect if and only if the requester's record stands and the route is still as it names it; then the route and the stored result are its document and nothing else changes, otherwise nothing does |
| `RouteSaveLeases.LeasedRecordStays` | backend/src/routes/polyline.ts:546-754 | No single step but the owner's own commit or failure, or a claim after the lease has run out, changes a leased record |
| `RouteSaveLeases.OthersAreKeptOut` | backend/src/routes/polyline.ts:546-567 | While a record is leased another requester's commit or failure on that save reaches no document |
| `RouteSaveLeases.CommittedSaveIsReplayed` | backend/src/routes/polyline.ts:612-628 | After a commit, its reply lost or not, and after whatever follows, the same request is given the document written and any other payload a conflict |
| `RouteSaveLeases.RecordedFailureIsAnswered` | backend/src/routes/polyline.ts:546-567 | A definite failure recorded by the lease's owner is answered for ever, likewise |
| `RouteSaveLeases.RefusedCommitIsFinal` | backend/src/routes/polyline.ts:716-746 | A commit refused although its lease stands is, once recorded, answered 409 for ever, and the save is never written |
| `RouteSaveLeases.AbortedSaveIsUnclaimed` | backend/src/routes/polyline.ts:546-567 | A commit that did not take effect and is recorded with unknown outcome leaves the save free to be claimed at once |
| `RouteGeometryVersions.EqualVersionsShareGeometry` | backend/src/routes/polyline.ts:667-754 | Along any run without deletions, in which no commit names the largest safe integer as its version and none recomputes geometry at the largest geometry version, the later of two committed states of a route never has a smaller geometry version, and equal versions carry the same coordinates and polylines, although reused geometry was read in an earlier transaction |
| `RouteGeometryVersions.RunKeepsGeometry` | backend/src/routes/polyline.ts:667-754 | The snapshot invariant behind it: what a claim read is still current or superseded by a later version |
| `RouteGeometryVersions.WrittenRouteFollows` | backend/src/routes/polyline.ts:666-688 | The document written over the one it read has no smaller geometry version, and an equal one only with the same coordinates and geometry, if and only if it keeps the geometry or the version read is below the largest safe integer |
| `RouteGeometryVersions.GeometryVersionDropsOnlyAtTheTop` | backend/src/routes/polyline.ts:674-676 | The geometry version written is smaller than the one read if and only if geometry is recomputed at the largest safe integer |
| `RouteGeometryVersions.CommitWritesWhatWasComputed` | backend/src/routes/polyline.ts:666-688 | In every run a commit writes the geometry its requester holds, the stored one if it may be kept and else the one computed, and counts the geometry version up if and only if it is not kept |
| `RouteGeometryVersions.ComputedIsHeld` | backend/src/routes/polyline.ts:669-672 | A requester that may not keep the stored geometry holds what was computed for it, or goes on to record its failure |
| `RouteGeometryVersions.ReuseMeans` | backend/src/routes/polyline.ts:332-347 | A stored geometry is kept if and only if it was computed for the very stops of the request in their order, in full quality, and both directions have a path of at least two points within 500 000 characters, a distance and a duration |
| `RouteGeometryVersions.DeletionReusesVersions` | backend/src/routes/polyline.ts:721-737 | A run from an empty database: a route is created, an edit prepared, the route deleted and recreated, and the edit commits other coordinates under the geometry version in use |
| `RouteSaveContract.ReadVersion` | backend/src/lib/routeSaveContract.ts:25-33 | A version field always reads as a safe non-negative integer |
| `RouteSaveContract.SuccessorReadsBack` | backend/src/lib/routeSaveContract.ts:25-33 | The written successor of a version reads back as itself if and only if the version is below the largest safe integer |
| `RouteSaveContract.RideMissedExactly` | backend/src/routes/polyline.ts:524-534 | The ride guard misses a ride if and only if no active ride record exists and every session lock lies beyond the first 50; with at most 50 locks it is exact |
| `RouteSaveContract.FiftyReservationsHideARide` | backend/src/routes/polyline.ts:530-534 | Fifty firmware reservations ahead of the ride's lock are such a case |
| `RouteStore.EditCommitsUnderARideExactly` | backend/src/routes/polyline.ts:700-754 | With lease and version in order, an edit commits while a ride owns the route if and only if no active ride record exists and none of the first 50 locks is a session |
| `RouteSaveProtocol.EditCommitsUnderHiddenRide` | backend/src/routes/polyline.ts:524-754 | A run in which an edit is claimed, a ride starts behind fifty reservations, and the edit commits: the one write is applied while the ride owns the route |
| `RouteStore.Store.Claim` | backend/src/routes/polyline.ts:570-607 | The claim transaction: answer, and the only document it changes |
| `RouteStore.Store.Commit` | backend/src/routes/polyline.ts:700-754 | The commit transaction: answer, route document and record together |
| `RouteStore.Store.RecordFailure` | backend/src/routes/polyline.ts:546-567 | A failure is recorded only while the requester's own lease stands, and nothing else changes |
| `StopProjection.ProjectionIsOptimal` | backend/src/lib/routeSegment.ts:13-54 | The recurrence with its walk back minimises the summed squared distance over all non-decreasing placements of the stops |
| `StopProjection.FinalStopIsLatest` | backend/src/lib/routeSegment.ts:42-47 | The final stop is at the largest vertex on which any optimal placement can end |
| `StopProjection.EarlierStopsAreEarliest` | backend/src/lib/routeSegment.ts:26-37 | Given the later stops, each earlier stop takes the smallest vertex of any optimal placement, so the tie rules fix the result uniquely |
| `StopProjection.BestIsLowerBound` | backend/src/lib/routeSegment.ts:23-40 | No placement ending on a vertex costs less than the table entry of that vertex |
| `StopProjection.BacktrackAttainsBest` | backend/src/lib/routeSegment.ts:48-53 | The placement read back from a vertex costs exactly its table entry |
| `StopProjection.EarliestIsLeast` | backend/src/lib/routeSegment.ts:28-32 | The strict running minimum over a prefix is least and the first of the least |
| `StopProjection.LatestIsLeast` | backend/src/lib/routeSegment.ts:44-47 | The non-strict minimum is least and the last of the least |
| `RouteSegment.ProjectStopsInOrder` | backend/src/lib/routeSegment.ts:19-54 | The table-filling loops return non-decreasing vertices of the polyline that are optimal among all such placements, with the tie rules |
| `RouteSegment.FillRow` | backend/src/lib/routeSegment.ts:24-39 | One row: every cost is the least cost of reaching that vertex and every choice its earliest best predecessor |
| `RouteSegment.LastMinimum` | backend/src/lib/routeSegment.ts:42-47 | The terminal choice is the last vertex of least cost |
| `RouteSegment.WalkBack` | backend/src/lib/routeSegment.ts:48-53 | Following the choices gives the recurrence's placement |
| `RouteSegment.BuildRouteSegment` | backend/src/lib/routeSegment.ts:63-100 | The checks in order, then the slice between the optimal projections of the two stops, or an error when they leave no polyline; every listed stop projects inside the slice |
| `RouteSegment.RejectionMeans` | backend/src/lib/routeSegment.ts:70-86 | A request reaches the projection if and only if the path has two coordinates and the start, the via stop if any and the end are listed in that order, each where it is listed first; each refusal says which of these is the first to fail |
| `RouteSegment.SliceSpans` | backend/src/lib/routeSegment.ts:89-99 | The slice starts and ends on the two projections and contains the projection of every stop between them |
| `Polyline.RoundTrip` | backend/src/lib/polylineUtils.ts:32-91 | Decoding an encoded list of in-range points consumes the whole string and gives the points rounded to 1e-5 degrees |
| `PolylineCanonical.EncodedExactlyWhenCanonical` | backend/src/lib/polylineUtils.ts:6-91 | A string that decodes is the encoding of what it decodes to if and only if no zero chunk follows a continuation and no six continuations stand in a row |
| `PolylineCanonical.CanonicalDecodingIsInjective` | backend/src/lib/polylineUtils.ts:6-59 | Canonical strings that decode alike are the same |
| `PolylineCanonical.EncodingIsCanonical` | backend/src/lib/polylineUtils.ts:61-91 | What the encoder writes for in-range points is canonical |
| `PolylineCanonical.ValueDecodesExactly` | backend/src/lib/polylineUtils.ts:14-27 | A value decodes if and only if a final character comes after at most six continuations, all characters in the alphabet, and is read just to it; it is truncated if and only if the string ends before its eighth character without one; anything else is invalid |
| `PolylineCanonical.DecodingUsesEveryCharacter` | backend/src/lib/polylineUtils.ts:6-59 | A string that decodes has two final characters for every point, and all its points are in range |
| `Polyline.EncodingIsInjective` | backend/src/lib/polylineUtils.ts:61-91 | Two in-range lists encode alike if and only if they round alike |
| `Polyline.EncodingIsPrintable` | backend/src/lib/polylineUtils.ts:78-88 | Every emitted code unit is between 63 and 126 |
| `Polyline.GridPointsAreStable` | backend/src/lib/polylineUtils.ts:47-67 | Points on the 1e-5 grid survive scaling back and rounding, so a decoded path re-encodes exactly |
| `PolylineCanonical.PaddedZeroDecodes` | backend/src/lib/polylineUtils.ts:14-27 | One way out of the canonical strings: a padded zero decodes like the plain one |
| `PolylineCanonical.LostBitsDecode` | backend/src/lib/polylineUtils.ts:14-27 | The other way: the bits of a seventh chunk fall off the 32-bit word |
| `Polyline.ZigZagRoundTrip` | backend/src/lib/polylineUtils.ts:75-76 | The sign folding is undone by the decoder for every delta of 31 bits and stays a non-negative 32-bit value |
| `Polyline.DecodesChunkSum` | backend/src/lib/polylineUtils.ts:14-29 | The chunks of a value, padded or not, read at any chunk position with any partial result, give the number they spell and stop at its end, as long as it fits the 32-bit word |
| `Polyline.UnitsRoundTrip` | backend/src/lib/polylineUtils.ts:40-57 | Delta decoding from any index and previous point restores the remaining points |
| `Polyline.EncodePolyline` | backend/src/lib/polylineUtils.ts:61-91 | The encoder's loops append exactly the specified code units |
| `Polyline.DecodeCoordinate` | backend/src/lib/polylineUtils.ts:6-30 | The decoder's loop gives the specified value and next index, or the same error |
| `Polyline.DecodePolyline` | backend/src/lib/polylineUtils.ts:32-59 | The outer loop equals point-by-point decoding with its errors |
| `Polyline.DecodePoint` | backend/src/lib/polylineUtils.ts:40-56 | A decoded point always advances the index and stays inside the string |
| `OrderedRouteGeometry.ChunksOverlap` | backend/src/lib/orderedRouteGeometry.ts:21-24 | Each chunk has 2 to 27 points and consecutive chunks share exactly their boundary point |
| `OrderedRouteGeometry.ChunksCoverLegs` | backend/src/lib/orderedRouteGeometry.ts:21-24 | The chunks' legs in order are exactly the legs of the input, each once |
| `OrderedRouteGeometry.ChunksGlueBack` | backend/src/lib/orderedRouteGeometry.ts:21-24 | Gluing the chunks at their shared points restores the input |
| `OrderedRouteGeometry.SplitIntoChunks` | backend/src/lib/orderedRouteGeometry.ts:21-24 | The loop produces those chunks |
| `OrderedRouteGeometry.JoinedDecodes` | backend/src/lib/orderedRouteGeometry.ts:33-51 | A joined route decodes to the concatenated chunk paths at exactly the positions, in order, whose point differs from the one before; distance and duration are the chunk sums |
| `OrderedRouteGeometry.SqueezeHasNoRepeats` | backend/src/lib/orderedRouteGeometry.ts:42-45 | The joined path has no adjacent repeats, and a path without any is left alone |
| `OrderedRouteGeometry.SqueezeKeepsChanges` | backend/src/lib/orderedRouteGeometry.ts:42-45 | The joined path lists, in order, exactly the positions of the concatenated paths whose point differs from the one before |
| `OrderedRouteGeometry.EveryChunkIsJoined` | backend/src/lib/orderedRouteGeometry.ts:38-46 | Each chunk's whole path stands in the concatenation, right after those before it |
| `OrderedRouteGeometry.EveryChunkIsCounted` | backend/src/lib/orderedRouteGeometry.ts:46-48 | Each chunk adds exactly its own distance and duration |
| `OrderedRouteGeometry.JoinsExactly` | backend/src/lib/orderedRouteGeometry.ts:33-51 | Results are joined if and only if each decodes to at least two points with a duration and a distance that is not negative, and the joined polyline is not too long |
| `OrderedRouteGeometry.JoinResults` | backend/src/lib/orderedRouteGeometry.ts:33-51 | The joining loops compute the specified route or the first error |
| `OrderedRouteGeometry.ComputeOrderedRouteGeometry` | backend/src/lib/orderedRouteGeometry.ts:13-52 | A waypoint count out of bounds or any failed chunk fails the route, a single chunk is returned as it came, several are joined |
| `TelemetryQueueModel.AcceptedDeliveryIsExact` | hardware/src/main.cpp:494-537 | From an empty queue, before a sequence wrap and in any interleaving of captures, peeks, deliveries and reboots, acknowledging the sample in flight leaves exactly the surviving samples captured after the peek |
| `TelemetryQueueModel.RunTracks` | hardware/src/main.cpp:2062-2097 | While a sample is in flight the queue is always the most recent part of what was before it, then it, then everything captured since, with sequences increasing; a reboot keeps intact memory or restores a checkpoint and ends the flight |
| `TelemetryQueueModel.PeekTakesTheNewest` | hardware/src/main.cpp:517-523 | A peek sends the newest sample no older than the minimum, everything after it being older, with nothing listed as captured since; it sends nothing if and only if every queued sample is older; the queue keeps the others in order |
| `TelemetryQueueModel.RebootTracks` | hardware/src/main.cpp:2190-2206 | A reboot, with or without intact memory and with or without a checkpoint, keeps that property |
| `TelemetryQueueModel.RebootRestoresWhatSurvived` | hardware/src/main.cpp:2190-2206 | A reboot takes intact memory as it is, else a usable checkpoint as the one sample queued, under its own sequence; only without either is the queue empty |
| `TelemetryQueueModel.ShortRunIsBeforeWrap` | hardware/include/telemetry_queue.h:77-95 | A run of at most n steps is before the wrap if the counter, and every checkpoint restored in it, leaves n sequences |
| `TelemetryQueueModel.AcknowledgeLeavesLaterCaptures` | hardware/include/telemetry_queue.h:120-133 | The single-step form of the delivery property, for any capacity and number of captures since the peek |
| `TelemetryQueueModel.DropRemovesOnlyThePeeked` | hardware/include/telemetry_queue.h:104-113 | Dropping a rejected sample removes it alone, or nothing if captures have already evicted it |
| `TelemetryQueueModel.AcknowledgeIsExactUnlessDuplicated` | hardware/include/telemetry_queue.h:120-133 | Acknowledging a queued sample leaves exactly the samples after it if and only if nothing before it shares its sequence |
| `TelemetryQueueModel.DuplicateSequenceHidesDelivered` | hardware/include/telemetry_queue.h:120-133 | With a shared sequence the delivered sample stays queued |
| `TelemetryQueueModel.RunConserves` | hardware/include/telemetry_queue.h:77-153 | Over any operations every pushed sample is still queued or counted once as overflowed, stale, removed or acknowledged; the counters are the true totals modulo 2^32 and the high-water mark is the greatest depth there was |
| `TelemetryQueueModel.FreshMembers` | hardware/include/telemetry_queue.h:136-147 | Exactly the samples no older than the minimum survive |
| `TelemetryQueueModel.FreshKeepsOrder` | hardware/include/telemetry_queue.h:136-147 | The survivors are, in order and each once, the samples at exactly the positions whose timestamp is no older than the minimum |
| `TelemetryQueueModel.PushIsLastOf` | hardware/include/telemetry_queue.h:77-95 | Pushing keeps the most recent `Capacity` samples of an unbounded list |
| `TelemetryQueue.NewestFirstTelemetryQueue.InitializeOrRecover` | hardware/include/telemetry_queue.h:41-55 | Memory is kept, unchanged, exactly when its shape, tag and checksum are valid; otherwise the queue is emptied |
| `TelemetryQueue.NewestFirstTelemetryQueue.RestoreNewest` | hardware/include/telemetry_queue.h:65-71 | Whatever the memory held, a checkpoint becomes the only sample, under its own sequence, in an otherwise fresh queue; sequence 0 is refused and changes nothing |
| `TelemetryQueue.NewestFirstTelemetryQueue.Push` | hardware/include/telemetry_queue.h:77-95 | The ring appends under the next sequence and drops only the oldest when full; integrity holds after |
| `TelemetryQueue.NewestFirstTelemetryQueue.Newest` | hardware/include/telemetry_queue.h:97-101 | The most recently pushed sample, if any |
| `TelemetryQueue.NewestFirstTelemetryQueue.Remove` | hardware/include/telemetry_queue.h:104-113 | Removes the first sample with the sequence and reports whether there was one |
| `TelemetryQueue.NewestFirstTelemetryQueue.EraseAt` | hardware/include/telemetry_queue.h:191-203 | In-place erasure takes out one position and keeps the order of the rest, across the ring boundary |
| `TelemetryQueue.NewestFirstTelemetryQueue.AcknowledgeThrough` | hardware/include/telemetry_queue.h:120-133 | Moving the head removes the sample and every predecessor and returns their number |
| `TelemetryQueue.NewestFirstTelemetryQueue.DropOlderThan` | hardware/include/telemetry_queue.h:136-153 | The in-place compaction is the order-preserving filter, with the number dropped added to the counter |
| `TelemetryQueue.NewestFirstTelemetryQueue.CompactFresh` | hardware/include/telemetry_queue.h:138-146 | The compaction loop leaves the fresh samples, in order, at the front of the ring |
| `TelemetryQueue.NewestFirstTelemetryQueue.Reset` | hardware/include/telemetry_queue.h:57-62 | An empty queue with the given tag and valid integrity, whatever the memory held |
| `TelemetryQueue.NewestFirstTelemetryQueue.BeginMutation` | hardware/include/telemetry_queue.h:205-207 | A reset during a mutation leaves memory that recovery rejects |
| `CivilClock.NextDateIsOneDayLater` | hardware/include/clock_policy.h:26-67 | From each valid Gregorian date of any year to the next, across month ends and leap rules, the day number grows by exactly 1 |
| `CivilClock.EpochIsDayZero` | hardware/include/clock_policy.h:56-67 | 1970-01-01 is day 0 |
| `CivilClock.CountingAgrees` | hardware/include/clock_policy.h:56-67 | Counting any number of days forward from any date agrees with the closed form |
| `CivilClock.DaysDecompose` | hardware/include/clock_policy.h:56-67 | The era arithmetic with truncating division equals the closed form by year and month, for all years including negative ones |
| `CivilClock.DaysAreMonotone` | hardware/include/clock_policy.h:56-67 | A later date has a larger day number |
| `CivilClock.EpochMillisecondsIncrease` | hardware/include/clock_policy.h:69-75 | Unix milliseconds strictly increase with valid UTC fields, and so does trust |
| `CivilClock.EpochMillisecondsInjective` | hardware/include/clock_policy.h:69-75 | Valid UTC fields with the same Unix milliseconds are the same |
| `CivilClock.TrustedRangeStart` | hardware/include/clock_policy.h:69-75 | The trusted range begins at 2023-11-14 22:13:20 UTC |
| `MonotonicFreshness.FreshnessSurvivesRollover` | hardware/include/clock_policy.h:117-150 | With calls closer together than 2^32 ms minus the maximum age, a reference is reported valid exactly when its true age is within the maximum, the projection is the reference plus the true elapsed time, and an expired reference stays expired whatever the counter reads |
| `MonotonicFreshness.RunStaysTruthful` | hardware/include/telemetry_policy.h:122-134 | The validity flag equals true freshness after every event of such a run |
| `MonotonicFreshness.CadenceIsTight` | hardware/src/main.cpp:2270-2274 | One call a millisecond later and a reference a whole wrap old passes for fresh |
| `MonotonicFreshness.MonotonicReference.LatchFreshness` | hardware/include/telemetry_policy.h:124-134 | The latch of the class is the specified one |
| `MonotonicFreshness.MonotonicReference.Project` | hardware/include/clock_policy.h:130-150 | Projection and clearing of the flag are the specified ones |
| `GnssCorroboration.CorroboratedExactlyOnThree` | hardware/include/clock_policy.h:81-97 | In any run on cadence a reading corroborates the clock if and only if it is no duplicate and the last three readings kept, itself last, each advance with true time within 250 ms and 0.5 to 3 s apart |
| `GnssCorroboration.RunStaysTrue` | hardware/include/clock_policy.h:81-97 | The counter is always how far back the kept readings advance, up to three |
| `GnssCorroboration.GnssCorroboration.Observe` | hardware/include/clock_policy.h:87-96 | The class equals the specified step |
| `DnsResolution.ResolvedMeansOwnTimelyAnswer` | hardware/include/dns_resolution_policy.h:20-50 | In any run shorter than a counter wrap `poll` reports an address if and only if the ticket's own lookup answered last, with that address, for the epoch polled and current at its answer, and both answer and poll fall within 1000 ms of its start |
| `DnsResolution.PollAnswersExactly` | hardware/include/dns_resolution_policy.h:40-50 | In any such run `poll` is pending if and only if the ticket's lookup is outstanding, polled in its own epoch and within 1000 ms; expired if and only if the lookup is outstanding or answered last, polled in its own epoch and later; any other ticket or epoch fails |
| `DnsResolution.BeginAnswersExactly` | hardware/include/dns_resolution_policy.h:20-32 | In any such run a lookup starts if and only if the name fits and none is outstanding, with the next ticket; the caller waits with the outstanding ticket if and only if it asks for the same host in the same epoch; all else is rejected and changes nothing |
| `DnsResolution.RunKeepsInv` | hardware/include/dns_resolution_policy.h:20-50 | At most one lookup, the newest, is outstanding, exactly while the slot is active, and the slot describes it |
| `DnsResolution.OutstandingIsStable` | hardware/include/dns_resolution_policy.h:20-39 | While a lookup is outstanding only its own completion changes the slot, host buffer included |
| `DnsResolution.ResolutionState.Begin` | hardware/include/dns_resolution_policy.h:20-32 | Started, waiting or rejected, with the ticket and the whole new slot |
| `DnsResolution.ResolutionState.Complete` | hardware/include/dns_resolution_policy.h:33-39 | A completion counts only for the outstanding ticket and keeps its address only in time and on the same network |
| `DnsResolution.ResolutionState.Poll` | hardware/include/dns_resolution_policy.h:40-50 | Result and address as specified, without changing the slot |
| `ApiReadCache.HitsAreNeverStale` | backend/src/services/apiReadCache.ts:13-33 | After every interleaving of reads, loads, waiter timeouts and invalidations a hit returns a value whose load began after the latest invalidation and is unexpired; fills stay within `maxFills` even when timed out and entries within the capacity |
| `ApiReadCache.TimelyValueIsHitUntilItExpires` | backend/src/services/apiReadCache.ts:13-33 | A small value loaded in time is hit by every read before it expires and by none later, whatever happens meanwhile, as long as the cache is not invalidated, the key is not loaded again, and fewer other keys than it holds are read or loaded |
| `ApiReadCache.LoadIsCachedExactly` | backend/src/services/apiReadCache.ts:22-30 | A load is cached if and only if it came to a value, its fill is current and in time, caching is on and the value is small; a failure is counted if and only if there is no value or it comes too late |
| `ApiReadCache.HitsAndWaitsExactly` | backend/src/services/apiReadCache.ts:16-19 | A read is a hit, and counted as one, if and only if an unexpired entry is cached for its key; a caller that waited gets a value if and only if its flight came to one, is no longer registered and is within the response budget |
| `ApiReadCache.RunKeepsDistinct` | backend/src/services/apiReadCache.ts:13-33 | In every run no key is cached twice and the capacity is kept |
| `ApiReadCache.WaitersGetStaleOnlyFromSettled` | backend/src/services/apiReadCache.ts:16-32 | The value a waiting caller receives is what its flight came to, and its load began before the latest invalidation preceding the read if and only if the flight joined had already settled with such a value and was not yet removed, whatever happens before it resumes, the removal included |
| `ApiReadCache.StaleValueIsDelivered` | backend/src/services/apiReadCache.ts:13-32 | A run that does it: load, invalidation, a read before the settled flight is removed, the removal, and the older value received |
| `ApiReadCache.RunKeepsInv` | backend/src/services/apiReadCache.ts:13-33 | Every cached value and every load that may still publish began after the latest invalidation, a key has a load in progress exactly while its flight works, and no two flights are the same one |
| `ApiReadCache.ReadCache.Read` | backend/src/services/apiReadCache.ts:16-19 | A read is a hit, a wait on the key's one fill, or a refusal, with the whole new state |
| `ApiReadCache.ReadCache.Resume` | backend/src/lib/boundedSingleFlight.ts:40-58 | A waiting caller gets the value its flight came to, once the flight is removed and if less than the response budget has passed since the fill started, else its failure or deadline; its waiter slot is freed if the flight is still registered |
| `ApiReadCache.ReadCache.LoadEnds` | backend/src/services/apiReadCache.ts:22-30 | A value is handed to the waiters only if its fill is current and in time, and cached only if it is also small enough and caching is on; anything else counts as a failure |
| `ApiReadCache.ReadCache.Invalidate` | backend/src/services/apiReadCache.ts:14 | Empties the cache and marks every fill as no longer current |
| `SingleFlight.BoundedSingleFlight.Run` | backend/src/lib/boundedSingleFlight.ts:34-49 | The synchronous part of a call, up to its wait: registering or joining a fill, with the caller's hold on it, or refusing it for capacity or deadline, as specified |
| `SingleFlight.JoinsExactly` | backend/src/lib/boundedSingleFlight.ts:34-49 | A call waits if and only if its key is being filled or a slot is free, its fill has a free waiter place and is younger than the budget; only a call for a key without a fill takes a slot, and no other fill changes |
| `SingleFlight.JoinThenLeave` | backend/src/lib/boundedSingleFlight.ts:48-58 | Leaving gives the place back and changes nothing else |
| `SingleFlight.BoundedSingleFlight.Invalidate` | backend/src/lib/boundedSingleFlight.ts:28-30 | Marks the scope's flights, or all, and keeps them registered |
| `SingleFlight.InvalidatesExactlyTheScope` | backend/src/lib/boundedSingleFlight.ts:28-30 | A flight stays current if and only if it was and belongs to another scope than the one invalidated; all stay registered |
| `LruCache.RunKeepsRecency` | backend/src/lib/lruCache.ts:53-92 | After any gets, sets, deletions and clears the cache holds the most recently used keys not deleted since, at most `maxSize`, with their latest values and in last-use order; if a key has been evicted, every place is taken but those freed by deletions since and not taken again |
| `LruCache.UseKeepsRecency` | backend/src/lib/lruCache.ts:68-82 | A set keeps recency exact and takes a freed place if its key is new: what is missing was used before every entry |
| `LruCache.DeleteKeepsRecency` | backend/src/lib/lruCache.ts:85-87 | A deletion frees one place if the key was present and keeps recency exact for the other keys |
| `LruCache.EvictedIsOldest` | backend/src/lib/lruCache.ts:74-80 | Only the oldest entry of a full cache can be evicted, and only by a new key |
| `LruCache.UseSparesRecent` | backend/src/lib/lruCache.ts:68-82 | An entry is not evicted while fewer distinct keys than the cache holds have been used since its own last use |
| `LruCache.Cache.Get` | backend/src/lib/lruCache.ts:53-60 | A hit returns the value and moves its key to the recent end |
| `LruCache.Cache.Set` | backend/src/lib/lruCache.ts:68-82 | The entries after a set, and the evicted entries in order |
| `LruCache.Cache.Delete` | backend/src/lib/lruCache.ts:85-87 | Removes the key and reports whether it was present |
| `MotionEnvelope.BackendAcceptsOnlyFirmwarePlausible` | backend/src/lib/telemetryMotion.ts:54-70 | The backend accepts under its 60 s cap a transition the firmware rejects if and only if the gap wraps the firmware's counter to one of at most 300 s whose envelope the transition exceeds; below a wrap, for gaps of at most 60 s or more than 300 s, the two filters agree |
| `MotionEnvelope.ErrorsAgree` | hardware/include/telemetry_policy.h:136-158 | Both adaptive error budgets are the same function on every input and lie between 15 and 50 m |
| `MotionEnvelope.ErrorBudgetParts` | backend/src/lib/telemetryMotion.ts:26-46 | Below its maximum the budget is 15 m, 7 m for each unit of HDOP, 10 m for a standing bus and one metre for every 2 s after the first 10 s up to 10 m; without a known HDOP it is 50 m |
| `MotionEnvelope.EnvelopesAgree` | hardware/include/telemetry_policy.h:216-253 | Both travel envelopes are the same predicate on every input |
| `MotionEnvelope.ReachIsTravel` | backend/src/lib/telemetryMotion.ts:72-92 | Either reach is its error budget plus the distance covered at that speed: 1000 metres for each km/h in an hour, equal distances in equal times |
| `MotionEnvelope.CappedGapIsOneMinute` | backend/src/lib/telemetryMotion.ts:54-70 | For gaps of 60 to 300 s the backend accepts exactly what the firmware finds plausible after one minute |
| `MotionEnvelope.EnvelopeGrows` | backend/src/lib/telemetryMotion.ts:72-92 | A place within reach stays within reach as time passes |
| `MotionEnvelope.CaptureIsNeverNarrower` | hardware/src/main.cpp:1905-1919 | Marking a reference HDOP above 4 invalid can only widen the firmware's envelope |
| `OutageReacquisition.RetainedExactlyWhenFirmwarePlausible` | backend/src/lib/telemetryMotion.ts:113-125 | An outage candidate is retained or accepted if and only if it is usable, its gap is over 60 s and at most 300 s, and the firmware finds it plausible |
| `OutageReacquisition.AcceptedExactlyOnThree` | backend/src/lib/telemetryMotion.ts:113-145 | A fix the ordinary filter rejects moves the anchor if and only if it is the third corroborated fix in a row, and otherwise leaves it |
| `OutageReacquisition.AnchorMovesExactly` | backend/src/services/deviceTelemetryService.ts:686-711 | The anchor moves to a fix if and only if it is the first, the ordinary filter takes it and it is not uncertain, or it is the third corroborated one |
| `OutageReacquisition.LossNeverMovesTheAnchor` | backend/src/services/deviceTelemetryService.ts:704-711 | Any number of reports of lost GNSS leaves the anchor's place, speed and time as they were |
| `OutageReacquisition.OutlierNeverMovesTheAnchor` | backend/src/services/deviceTelemetryService.ts:667-745 | In every run of the presence record a rejected fix that moves the anchor is the last of three consecutive usable fixes, each 0.5 to 5 s after and plausible from the one before |
| `OutageReacquisition.RunKeepsEvidence` | backend/src/services/deviceTelemetryService.ts:686-737 | The stored evidence always counts the corroborated fixes against an older anchor |
| `ReacquisitionCandidate.ReanchorsOnlyOnThree` | hardware/include/telemetry_policy.h:307-369 | In any run of rejected and accepted fixes, across counter rollover, a rejected fix re-anchors only as the last of three distinct admissible fixes rejected since the last accepted one, each truly 0.5 to 5 s after and plausible from the one before |
| `ReacquisitionCandidate.ThreeCoherentFixesReanchor` | hardware/include/telemetry_policy.h:307-369 | Three admissible fixes in a row, each fitting the one before, re-anchor by the third, whatever was seen earlier |
| `ReacquisitionCandidate.ReacquisitionCandidate.ObserveRejected` | hardware/include/telemetry_policy.h:326-368 | The class equals the specified step |
| `RetryAfter.RetryAfterDelayMs` | hardware/include/telemetry_policy.h:430-449 | A header of blanks, digits and blanks gives its value capped at 300 s in milliseconds, however many digits it has; anything else gives 0 |
| `RetryAfter.SaturatesExactly` | hardware/include/telemetry_policy.h:437-445 | The saturating step never leaves 32 bits and keeps the capped value exact |
| `RetryAfter.GreedySplit` | hardware/include/telemetry_policy.h:432-447 | A well-formed header splits in one way only, the one the scanner finds |
| `Words.ElapsedBelowWrap` | hardware/include/clock_policy.h:124 | An unsigned 32-bit difference is the true elapsed time below one wrap |

## Left out

- CheckpointRuns.RecoversLastConfirmedOrLater: assumes, for runs with more than 2^31 attempts, that the newest record is in reach at every scan; without it the property fails, as `CheckpointBound.ConfirmedRecordLostAfterHalfCycle` shows.
- RouteGeometryVersions.EqualVersionsShareGeometry: excludes route deletion (`RouteGeometryVersions.DeletionReusesVersions`), recomputing geometry at the largest safe geometry version (`RouteGeometryVersions.GeometryVersionDropsOnlyAtTheTop`) and commits at the largest safe version, where a failure would take a claim held open over 2^53 commits.
- TelemetryQueueModel.AcceptedDeliveryIsExact: holds before the 32-bit sequence wraps; the exact condition for one acknowledgement after that is `TelemetryQueueModel.AcknowledgeIsExactUnlessDuplicated`. The plausibility checks on a checkpoint's sample at boot are the caller's choice of checkpoint.
- DnsResolution.ResolvedMeansOwnTimelyAnswer: covers runs shorter than a wrap of the millisecond counter and of the ticket counter.
- ReacquisitionCandidate.ReanchorsOnlyOnThree: assumes less than a counter wrap since the fix held as candidate.
- Aliasing of per-key records: executor key states and workers are values looked up by key, so the source's identity checks (a worker replaced under its own key) become presence checks; a flight has the number of the call that opened it.
- Promises, timers and async contexts of the JavaScript runtime: each is the step it causes; clearing a timer is not modelled because a late timer finds its task gone.
- Records written by other versions of the backend: malformed idempotency records, a presence record whose fields have the wrong type, and a missing anchor beside a live position.
- The presence record's ordering check and lifecycle fields before the motion filter.
- Floating-point rounding in projection, polyline scaling and envelopes; trigonometry inside the distance.
- AES-GCM, SHA-256 and FNV-1a themselves.
- Google Routes calls, Firestore retries and queries beyond the lock scan, Firebase, TLS, Wi-Fi, UART and flash drivers.
- HTTP routing, authentication, request validators, rate limits, metrics and logging.
- `MotionTracker`, `shouldPublishFix`, `candidateSafe`, `shouldApplyGnssClock`, response classification, backoff tables and `closestPolylineIndex`: one-step decisions that would add easy members only.
- `values`, iteration and the eviction hook of the LRU cache; an evicted entry is returned instead of passed to the hook.
- The trip reducer, ride start, worker coordinator and map matcher, and the web application.
