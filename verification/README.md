# Dispatcher core: a verified model

This project models the trusted core of the Celln dispatcher and proves what its
documentation promises of it.

| files | what they model |
|---|---|
| `Journal`, `Audit`, `Lifecycle*`, `Dispatcher` | durable executions: a registry in memory over a journal on disk, with submits, workers, cancels, deadlines, eviction, failing syncs, crashes and restarts in any interleaving |
| `Capacity`, `ParentRegistry`, `LifecycleCapacity`, `Totals` | what a node advertises and has promised, over three admission paths and their releases |
| `Frames`, `Report`, `ReportRoundTrip`, `Collect`, `Decimal` | the console protocol between pilot and dispatcher: JSON frames, negotiation, the report state machine, the verdict it leads to |
| `Calendar`, `Timestamp` | the Gregorian conversion and the text of a timestamp |
| `ScopedHttps`, `ScopedArtifacts`, `ChildBrokers`, `Hosts`, `Ceilings` | the algebra of signed limits and the one-use ledger of child grants |
| `WarmCache` | the bounded cache of warm templates |
| `ListQuery`, `Split` | the query of the cells listing |
| `Common` | shared datatypes and two facts about sequences |

## How to read it

Code that updates state in place is a class or a method with a loop (`Server`,
`Directory`, `Log`, `Registry`, `GrantCell`, `Brokers`, `Cache`, `ParseReport`,
`CollectResult`, `ApplyReservations`, both `Derive`s, `Parse`), each proved equal to a function;
the theorems are about those functions, and about all runs of them.

The lifecycle is a function `Next` from state and step to state. A step is a
critical section under the registry lock, a clock tick, a move of a worker thread,
a process exit or a power loss. Whatever the dispatcher does not decide is an
argument of the step: which sync fails, what the guest reports, which thread moves.
The journal directory has a visible and a synced layer; a power loss keeps or drops
unsynced publications id by id.

Standing assumptions: hashing is injective; serialisation is faithful; a file
synced before its rename is whole; the host's monotonic clock does not go back; one
process owns the journal. `node::admit`, `Control` and `ParentRegistry` are modelled
from their own sources (crates/celln-cli/src/node.rs,
crates/celln-control/src/lib.rs, crates/celln-warden/src/parent_registry.rs). A
deadline is given by the time left when the submit takes the lock. Clock readings,
I/O outcomes, guest verdicts, owner joins, decoded JSON and provider checks are
parameters.

## What turned out not to hold, and exactly when it does

- A record and its receipt can disagree on disk. If the publication of a success
  fails before the rename and the worker then panics during cleanup,
  `fail_execution` relabels the phase but not the receipt; if that record lands,
  `read` rejects the file. `FilesKeptReadableIff` says exactly which steps land such
  a record, `PanicSpoilsIff` which panics do, and `ARunThatRelabels` gives a run.
  `AgreementKeptIff` is the same question for memory and files together. Once the
  file is durable it is rejected for good: `BrokenForever`.
- After a late panic the entry in memory can differ from its final file, and then
  dropping the entry becomes visible. `SettledKeptIff` says, from any readable
  journal, exactly which steps drive the two apart, and `EvictionVisibleIff` when
  one entry shows it. Over whole runs eviction is invisible exactly when no step
  drops an entry its file does not hold and no panic changes an entry dropped
  before: `EvictionIsInvisibleIff`. `ARunWhoseEvictionShows` gives a run in which it
  is not.
- The phase `Cancelling` a client was told can be followed by another active phase
  when the cancel arrives after the deadline: `CancellingHoldsIffCancelWasFirst`,
  and a run in `ARunThatLeavesCancelling`.
- A `pin` that returns an error may have changed the cache:
  `ErrorChangesCacheIff`, and a call in `AnErrorThatFilledTheCache`.

The first two need a panic after a worker's last update. What runs there only drops
plain data, but the handler at crates/celln-cli/src/dispatch_http.rs:840-849 is
there for panics of that kind, so the model admits the step.

A prewarm is charged a cell and its memory; the broker slot stored in its
reservation is never subtracted (crates/celln-cli/src/dispatch_http.rs:261-268), so
broker conservation is about executions and parents.

Where documentation and code differ the code is followed: docs/NODE_CAPACITY.md says
the warm cache retains one mote, the code keeps four
(crates/celln-cli/src/dispatch_warm.rs:14); docs/DISPATCH_AUDIT.md says audits are
not durable and that expired ones answer 404, the code journals them with the
terminal record and answers from the journal.

## Model

| member | source | states |
|---|---|---|
| LifecycleTheorems.AtMostOnce | crates/celln-cli/src/dispatch_http.rs:758-867 | over every run of submits, worker moves, evictions, failed syncs, crashes and restarts no request id starts twice, and what started is durably bound to exactly the bytes that started |
| LifecycleTheorems.ClaimPrecedesStart | crates/celln-cli/src/dispatch_http.rs:822-849 | before the step that starts a worker, its claim is already on the synced layer for those bytes, and no earlier start used the id |
| LifecycleTheorems.AcknowledgedResultsNeverChange | crates/celln-cli/src/dispatch_http.rs:920-984 | any two final answers for one id, records or audits, agree, whatever evictions, failed syncs, late panics and restarts lie between them |
| LifecycleTheorems.StopWinsEveryRace | crates/celln-cli/src/dispatch_http.rs:986-1010 | once a cancel or deadline is recorded on an active execution it is never relabelled: every later file and every later final answer, record or audit, carries its verdict, and an execution still active after a cancel shows only `Cancelling` |
| LifecycleTheorems.CancellingHoldsIffCancelWasFirst | crates/celln-cli/src/dispatch_http.rs:878-889 | the phase `Cancelling` a client was told outlives the worker's next phase exactly when the cancel came before the deadline was reached |
| LifecycleTheorems.ChargedUntilOutcome | crates/celln-cli/src/dispatch_http.rs:239-251 | in every reachable state an active execution keeps its reservation through the next step unless its own worker publishes an outcome or the process ends |
| LifecycleTheorems.AuditsStayOrdered | crates/celln-cli/src/dispatch_audit.rs:66-99 | in every run the events of every audit in memory are sorted by observation, numbered from 0 and at most 32 |
| LifecycleTheorems.InterruptedForever | crates/celln-cli/src/dispatch_http.rs:955-961 | a durable claim no live thread owns is never completed, replayed or forgotten by any later step |
| LifecycleAnswers.SubmitAnswers | crates/celln-cli/src/dispatch_http.rs:758-867 | what every submit is answered in any process life, whatever the I/O: other bytes than the id is bound to are a conflict whether or not memory holds the id, its own bytes get its own record, a new id is let in or told why not |
| LifecycleAnswers.OneBodyPerId | crates/celln-cli/src/dispatch_http.rs:762-770 | over every run, crashes included: once a submit of an id was told anything about an execution, submits of other bytes for it are only ever told that they conflict or that the journal cannot be read |
| LifecycleAnswers.SubmitLaunches | crates/celln-cli/src/dispatch_http.rs:793-836 | a submit is let in exactly when nothing stops it, and then leaves a fresh entry under the deadline and reservation it asked for, its thread waiting with its own bytes, and its claim durable; it only ever removes entries finished an hour ago |
| LifecycleAnswers.QueryAnswers | crates/celln-cli/src/dispatch_http.rs:894-970 | what every status and audit query is answered: a running execution its record, a finished one its result but only once that is durable, a file of an earlier process its result or that it was interrupted |
| LifecycleAnswers.CancelAnswers | crates/celln-cli/src/dispatch_http.rs:869-893 | a cancel of a running execution changes its entry alone and answers with it; any other is answered as a query |
| LifecycleAnswers.CancelledMeans | crates/celln-cli/src/dispatch_http.rs:876-886 | a cancelled entry shows `Cancelling`, is noted so, and is under a stop: the cancel, unless the deadline had passed or another stop was there first |
| LifecycleOutcomes.FinishMeans | crates/celln-cli/src/dispatch_http.rs:1126-1146 | the end of the work is recorded as succeeded exactly when the result is good and no stop is recorded or due; otherwise as failed or as the stop says, with note, text and receipt of that result |
| LifecycleOutcomes.RefusalMeans | crates/celln-cli/src/dispatch_http.rs:1046-1108 | work refused before it starts, or failed while it is prepared, is recorded so with its reason and earns no receipt |
| LifecycleOutcomes.LossMeans | crates/celln-cli/src/dispatch_http.rs:836-863 | a thread that could not be spawned, or that panicked before its outcome, leaves a failure with its reason and is gone |
| LifecycleOutcomes.CheckMeans | crates/celln-cli/src/dispatch_http.rs:1041-1043 | the check at the start lets the work go on exactly when no stop is recorded or due, and otherwise ends it as the stop says |
| LifecycleOutcomes.AdvanceMeans | crates/celln-cli/src/dispatch_http.rs:1071-1116 | where a thread goes next and which phase it enters there, for forge and for declared requests, with a cancel showing instead |
| LifecycleOutcomes.StartAndExitMean | crates/celln-cli/src/dispatch_http.rs:836-866 | a thread that starts or ends changes only its own place; the client of the submit is answered with its start |
| LifecycleOutcomes.ObserveMeans | crates/celln-control/src/lib.rs:64-93 | a poll of the control records a deadline that has passed, once, and nothing else |
| LifecycleOutcomes.ExecuteMeans | crates/celln-cli/src/dispatch_http.rs:1117-1124 | the evidence of the cell goes into the audit of its own execution |
| LifecycleOutcomes.OutOfPlaceIsIdle | crates/celln-cli/src/dispatch_http.rs:1035-1146 | a move its thread is not at the place for changes nothing |
| LifecycleOutcomes.WorkIsLocal | crates/celln-cli/src/dispatch_http.rs:986-1019 | whatever a thread does touches no other entry, thread or file |
| LifecycleOutcomes.PhasesFollowTheThread | crates/celln-cli/src/dispatch_http.rs:1071-1116 | over every run the phase shown of a running execution is where its thread is, or `Cancelling`, and that only under a stop |
| LifecycleOutcomes.OutcomesHaveCauses | crates/celln-cli/src/dispatch_http.rs:1126-1146 | over every run a client is told that an id succeeded only if an earlier step ended its work with that very result while no stop was recorded or due, and that it was cancelled only if an earlier cancel found it running before its deadline |
| LifecycleOutcomes.EntriesKeepTheirTerms | crates/celln-cli/src/dispatch_http.rs:816-836 | over every run each execution in memory was let in by a submit, is charged what that submit asked for and has the deadline it asked for then |
| LifecycleOutcomes.SuccessesAreOnTime | crates/celln-cli/src/dispatch_http.rs:1126-1146 | a success a client is told was finished within the time its own submit asked for, counted from that submit |
| Collect.CollectResult | crates/celln-cli/src/dispatch_http.rs:1151-1190 | `collect_result` equals its model |
| Collect.CollectedMeans | crates/celln-cli/src/dispatch_http.rs:1151-1190 | the verdict is good exactly when the report succeeded and its output, if any, was stored; which reason is given otherwise |
| Collect.RecordedSuccessMeans | crates/celln-cli/src/dispatch_http.rs:1151-1190 | from the console to the record: recorded as succeeded exactly when the markers were exchanged, the guest shut down in time, its prefixed lines are one report that ends with exit code 0, and whatever it wrote is stored |
| LifecycleInvariant.StepKeeps | crates/celln-cli/src/dispatch_http.rs:508-915 | every step of every interleaving keeps the invariant of registry, threads and disk, and only extends what is durable |
| LifecycleInvariant.PlansFollowRules | crates/celln-cli/src/dispatch_http.rs:1035-1146 | what a worker thread may do next: enter phases only while active, publish outcomes only as its last act, and after that nothing but exit or panic |
| LifecycleAgreement.AgreementKeptIff | crates/celln-cli/src/dispatch_http.rs:986-1019 | memory and files together: a step keeps every file acceptable to `read` and every record in memory in agreement with its receipt exactly when it is not a panic that relabels an already published, non-failed receipt |
| LifecycleFiles.FilesKeptReadableIff | crates/celln-cli/src/dispatch_journal.rs:56-64 | files alone, whatever memory holds: a step keeps every file acceptable to `read` exactly when it does not land a record whose phase and receipt disagree; queries, cancels and submits that retry a publication included |
| LifecycleFiles.PanicSpoilsIff | crates/celln-cli/src/dispatch_http.rs:840-849 | while memory agrees, such a step is exactly a relabelling panic over a claim that is still on file and readable, with a new file that can be written |
| LifecycleFiles.RunsStayReadableIff | crates/celln-cli/src/dispatch_journal.rs:45-69 | over whole runs every file of every moment is readable exactly when no step lands such a record |
| LifecycleFiles.BrokenForever | crates/celln-cli/src/dispatch_journal.rs:60-64 | once a rejected outcome is durable, it stays through every later step, restarts and power losses included, and every query, cancel and submit for the id is turned away |
| LifecycleFiles.BrokenAnswers | crates/celln-cli/src/dispatch_http.rs:933-984 | while a durable file is rejected no request for its id gets a record, an audit or a start, whatever the I/O does |
| LifecycleAgreement.UpdateConsistentIff | crates/celln-cli/src/dispatch_http.rs:991-1010 | exactly which updates leave a record's phase equal to its receipt's phase |
| LifecycleAgreement.ReaderAcceptsEveryPublication | crates/celln-cli/src/dispatch_journal.rs:56-64 | in every run without such a panic `read` never rejects a file that `claim` or `complete` published |
| LifecycleWitnesses.ARunThatRelabels | crates/celln-cli/src/dispatch_http.rs:840-849 | a concrete run whose last step leaves a file that `read` calls invalid: a success that could not be written, then a panic |
| LifecycleFiles.RelabellingMakesTheRecordUnreadable | crates/celln-cli/src/dispatch_journal.rs:130-155 | how a file breaks: a success that could not be written, then a panic whose own publication works, leaves a durable file `read` rejects |
| LifecycleEviction.EvictionDropsOnlyDurable | crates/celln-cli/src/dispatch_http.rs:175-185 | eviction drops an entry exactly when it is over, older than the cache time and durably readable as terminal; never an active or unpersisted one |
| LifecycleEviction.EvictionVisibleIff | crates/celln-cli/src/dispatch_http.rs:894-915 | an entry and its finished file give the same answers exactly when the file holds the entry |
| LifecycleEviction.SettledKeptIff | crates/celln-cli/src/dispatch_http.rs:986-1019 | from any readable journal whose final files hold what memory holds, a step keeps them so exactly when it neither lands a record whose phase and receipt disagree nor is a panic that changes an entry over a final file; queries, cancels and submits included |
| LifecycleEviction.PanicLeavesIff | crates/celln-cli/src/dispatch_http.rs:986-1019 | a panic after the outcome changes nothing a client can see exactly when the entry already has the phase and reason the panic gives it, under a stop the receipt has its verdict, and the audit takes no new event |
| LifecycleNeverEvicts.ShadowKeptIff | crates/celln-cli/src/dispatch_http.rs:175-185 | beside a registry that never evicts over the same files: from any state in which what was dropped is on file, a step keeps that exactly when it neither drops an entry its final file does not hold nor is a panic that changes an entry dropped before |
| LifecycleNeverEvicts.EvictionIsInvisibleIff | crates/celln-cli/src/dispatch_http.rs:894-915 | over whole runs the two registries answer every status and audit query alike at every moment exactly when no step is one of those two |
| LifecycleNeverEvicts.EvictionIsInvisible | crates/celln-cli/src/dispatch_http.rs:970-984 | after such a run they also answer every cancel and every submit alike, replays included, and under failing I/O two answers that are both given never differ |
| LifecycleNeverEvicts.OneOutcomeIsUnnoticed | crates/celln-cli/src/dispatch_http.rs:840-849 | every run whose workers publish one outcome each is such a run, whatever I/O fails |
| Dispatcher.Server.SubmitExecution | crates/celln-cli/src/dispatch_http.rs:758-867 | the critical section of a submit, changing registry and journal in place, is the submit step of the model |
| Dispatcher.Server.CancelExecution | crates/celln-cli/src/dispatch_http.rs:869-893 | the same for cancel |
| Dispatcher.Server.Status | crates/celln-cli/src/dispatch_http.rs:894-915 | the same for status and audit queries |
| Dispatcher.Server.EvictExpired | crates/celln-cli/src/dispatch_http.rs:175-185 | the `retain` loop, in any order, is the eviction of the model |
| Dispatcher.Server.UpdateExecution | crates/celln-cli/src/dispatch_http.rs:986-1019 | `update_execution` is the update step of the model |
| Dispatcher.Server.Revised | crates/celln-cli/src/dispatch_http.rs:991-1014 | change, stop override, time and audit, one after the other, give the updated entry of the model |
| Dispatcher.Server.NextMove | crates/celln-cli/src/dispatch_http.rs:1035-1146 | the branches of `run_execution`, written out stage by stage, choose the moves of the model |
| Dispatcher.Server.RunWorker | crates/celln-cli/src/dispatch_http.rs:1035-1146 | one move of a worker thread, chosen by those branches and applied in place, is the work step of the model |
| Dispatcher.Server.Persist | crates/celln-cli/src/dispatch_http.rs:920-931 | `persist_terminal`: active entries are left alone, terminal ones completed |
| LifecycleWitnesses.ARunWhoseEvictionShows | crates/celln-cli/src/dispatch_http.rs:840-849 | a concrete run after which memory refuses to answer what the journal would: a success that was written, then a panic |
| LifecycleWitnesses.ARunThatLeavesCancelling | crates/celln-cli/src/dispatch_http.rs:878-889 | a concrete run in which a client is told `Cancelling` and the next step shows `Resolving`: the cancel came after the deadline |
| Journal.ClaimSpec | crates/celln-cli/src/dispatch_journal.rs:90-128 | a claim succeeds only for an id no file exists for, below capacity, and then the id is durably bound to this body; nothing else changes |
| Journal.CompleteSpec | crates/celln-cli/src/dispatch_journal.rs:130-155 | completion succeeds only with this very record durable; a terminal record is never touched, a claim is replaced only by this record, other ids stay |
| Journal.ReadKeeps | crates/celln-cli/src/dispatch_journal.rs:45-69 | a read that finds a snapshot has made it durable and changes nothing visible |
| Journal.DocShows | crates/celln-cli/src/dispatch_audit.rs:8-29 | an audit document shows number, time and phase of each event, the evidence and the receipt, and tells two logs apart exactly by these |
| Journal.FoundIff | crates/celln-cli/src/dispatch_journal.rs:45-69 | exactly which files are found: version 1, about this id, with a receipt, if any, about it and of the same phase |
| Journal.CompletesIff | crates/celln-cli/src/dispatch_journal.rs:130-155 | exactly when a finished record is reported durable |
| Journal.PublicationStartsSettled | crates/celln-cli/src/dispatch_journal.rs:71-88 | no publication starts while an older version of the same id could still surface after a crash |
| Journal.Directory.ReadRecord | crates/celln-cli/src/dispatch_journal.rs:45-69 | `read` on the directory object equals its model |
| Journal.Directory.PublishRecord | crates/celln-cli/src/dispatch_journal.rs:71-88 | `publish`: no clobbering of an existing name, visible before synced |
| Journal.Directory.ClaimRecord | crates/celln-cli/src/dispatch_journal.rs:99-128 | `claim_with_capacity` on the directory object equals its model |
| Journal.Directory.CompleteRecord | crates/celln-cli/src/dispatch_journal.rs:130-155 | `complete` on the directory object equals its model |
| Audit.NotedKeepsOrder | crates/celln-cli/src/dispatch_audit.rs:66-80 | noting a phase keeps the events sorted by observation, numbered from 0 and at most 32 |
| Audit.MergedIsAStablePermutation | crates/celln-cli/src/dispatch_audit.rs:82-99 | late cell events yield a stable permutation of the old events and of those that fit, sorted and renumbered, with time, phase and observation of each event untouched |
| Audit.StableSortSorts | crates/celln-cli/src/dispatch_audit.rs:96 | the sort used is a sort |
| Audit.StableSortIsStable | crates/celln-cli/src/dispatch_audit.rs:96 | and keeps events of one instant in order |
| Audit.Log.Phase | crates/celln-cli/src/dispatch_audit.rs:66-80 | `phase` in place |
| Audit.Log.Executed | crates/celln-cli/src/dispatch_audit.rs:82-99 | `executed` in place: push what fits, sort, renumber |
| Capacity.CapacityIsConserved | crates/celln-cli/src/dispatch_http.rs:254-289 | in every state any interleaving of the three admission paths and of releases reaches, advertised plus held memory, cells (two per parent) and broker slots add up to the configured totals |
| Capacity.NeverOvercommitted | crates/celln-cli/src/dispatch_http.rs:793-835 | no interleaving ever promises more memory, cells or brokers than configured, whatever cells of other processes are seen |
| Capacity.NoSaturationIsTaken | crates/celln-cli/src/dispatch_http.rs:261-281 | every saturating subtraction or addition an admission performs is exact, releases in between included: each turn of the loop over the executions in any order, what that loop leaves, and the reads of the prewarm and of the parents |
| Capacity.AcceptanceFits | crates/celln-cli/src/dispatch_http.rs:793-811 | what a lock holder has read is never better than what is free when it decides |
| Capacity.ExecutionAdmittedIff | crates/celln-cli/src/node.rs:132-175 | without a release in between an execution is admitted exactly when the request is in order, the node ready, and a cell, its memory and its broker free; it is then charged its memory and one broker or none |
| Capacity.ParentAdmittedIff | crates/celln-cli/src/dispatch_parents.rs:53-79 | a parent is admitted exactly when two cells, its nonzero memory and its brokers are free and its registry has room for the new identity; it is then charged exactly that |
| Capacity.PrewarmAdmittedIff | crates/celln-cli/src/dispatch_prewarm.rs:53-85 | a prewarm is admitted exactly when none is there, the request is in order, the node ready, and a cell, its memory and its broker free; it then holds exactly that |
| Capacity.ReleasesGiveBack | crates/celln-cli/src/dispatch_prewarm.rs:12-26 | a published execution and a dropped lease give back exactly what they held |
| Capacity.UnknownUsageHidesAll | crates/celln-cli/src/dispatch_http.rs:227-252 | while any live owner's usage is unknown or another process has cells, no memory and no broker is advertised; otherwise the totals less the sums |
| Capacity.BlindHolderAdmitsNothing | crates/celln-cli/src/dispatch_http.rs:272-288 | an admission that could not read the parents admits nothing |
| Capacity.CapacityRefusalIff | crates/celln-cli/src/node.rs:132-168 | a request in order is turned away for capacity exactly when cells, its memory or its broker are not free; every other refusal is the one the idle node gives, and which of them it is |
| Capacity.ApplyReservations | crates/celln-cli/src/dispatch_http.rs:227-252 | the saturating loop, in any order, leaves total minus sum, and nothing while any usage is unknown |
| Capacity.MoveKeeps | crates/celln-cli/src/dispatch_prewarm.rs:53-88 | every single read, decision and release of an admission, prewarm lease included, keeps usage within the totals and reads safe |
| LifecycleCapacity.ReservationsFollowTheLifecycle | crates/celln-cli/src/dispatch_http.rs:239-251 | over any lifecycle step the held reservations stay, gain the one an accepted submit asked for, lose the one whose worker published, or vanish with the process |
| LifecycleCapacity.TheDispatcherNeverOvercommits | crates/celln-cli/src/dispatch_http.rs:793-835 | over every run of lifecycle and capacity together, with every admission decided by `node::admit` on what its own thread read under the lock, what the registry's active executions, the prewarm and the parents hold stays within the configured totals and adds up with what is advertised |
| LifecycleCapacity.AdmissionKeeps | crates/celln-cli/src/dispatch_http.rs:793-835 | the end of a submit keeps that: its verdict comes from what was read, and what it inserts is what the capacity machine decides |
| LifecycleCapacity.AdmissionAnswers | crates/celln-cli/src/dispatch_http.rs:793-812 | a new id is told it is at capacity exactly when its request is sound and only the cells, memory or brokers read under the lock do not suffice, and that it is ineligible exactly when something else is in the way |
| ParentRegistry.InsertCharges | crates/celln-warden/src/parent_registry.rs:223-269 | a successful insertion charges one new owner its bytes and brokers; a refused one nothing |
| ParentRegistry.TakenKeepsCharges | crates/celln-warden/src/parent_registry.rs:73-91 | taking owners out to join them releases nothing |
| ParentRegistry.JoinReleases | crates/celln-warden/src/parent_registry.rs:93-112 | a confirmed join gives back exactly this owner's charge, once; an unconfirmed one keeps it; no counter underflows |
| ParentRegistry.JoinMeans | crates/celln-warden/src/parent_registry.rs:93-112 | after a join the entry says what the join found, or that the teardown is uncertain, and no other entry changes |
| ParentRegistry.TakenMeans | crates/celln-warden/src/parent_registry.rs:73-91 | a reap takes out exactly the finished owners |
| ParentRegistry.StopAnswers | crates/celln-warden/src/parent_registry.rs:389-407 | only its own principal is told anything of a parent but that it is not there, one stop takes its owner out, one that is over says so |
| Capacity.IncarnationsAreClaimedOnce | crates/celln-warden/src/parent_registry.rs:241-243 | over every run an incarnation once claimed is never claimed again, whatever stops, reaps and joins came between, and a charge given back is never charged again |
| ParentRegistry.CountCharged | crates/celln-warden/src/parent_registry.rs:120-126 | the owner count of `reserved_capacity` is the number of charged entries |
| ParentRegistry.Registry.Reserved | crates/celln-warden/src/parent_registry.rs:116-130 | the counters reported are the sums over the entries |
| ParentRegistry.Registry.InsertAdmitted | crates/celln-warden/src/parent_registry.rs:223-269 | `insert_admitted` in place equals its model |
| ParentRegistry.Registry.StopBegin | crates/celln-warden/src/parent_registry.rs:387-407 | the first critical section of `stop` in place |
| ParentRegistry.Registry.ReapBegin | crates/celln-warden/src/parent_registry.rs:73-91 | the first critical section of `reap_finished` in place |
| ParentRegistry.Registry.JoinDone | crates/celln-warden/src/parent_registry.rs:408-423 | the second critical section of `stop` in place |
| Frames.FrameReadsBack | crates/celln-pilot/src/dispatch_report.rs:18-33 | a printed frame reads back as itself in front of any text, and the reader stops at its end |
| Frames.PrintIsPrefixFree | crates/celln-pilot/src/dispatch_report.rs:28-33 | no frame's text begins with another frame's text |
| Frames.PrintIsOneLine | crates/celln-pilot/src/dispatch_report.rs:28-33 | whatever bytes, names or reasons it carries, a frame is one line |
| Frames.WireTexts | crates/celln-pilot/src/dispatch_report.rs:17-33 | the text of one frame of each kind |
| Frames.GrantWireText | crates/celln-pilot/src/dispatch_report.rs:8-15 | the text of a grant, with and without a workspace |
| Report.SuccessMeans | crates/celln-cli/src/dispatch_outcome.rs:6-118 | success holds exactly when the markers were exchanged, the guest shut down in time and the prefixed lines are `Inputs? Started? Output* Exit(0)` with at most 16 hashes and nothing more |
| Report.DeniedUnlessSucceeded | crates/celln-cli/src/dispatch_outcome.rs:92-118 | a report is denied exactly when it did not succeed, and a rejected one grants nothing |
| Report.DefectStays | crates/celln-cli/src/dispatch_outcome.rs:32-38 | the first defect decides: no later line replaces or repairs it |
| Report.OutputOfEveryConsole | crates/celln-cli/src/dispatch_outcome.rs:67-72 | for every console the output is the first `limit` bytes written before the first terminal frame |
| Report.ScriptPlays | crates/celln-cli/src/dispatch_outcome.rs:39-91 | reading frames in order leaves the state their grant, hashes, output and end make |
| Report.OnlyScriptsAreClean | crates/celln-cli/src/dispatch_outcome.rs:39-91 | nothing but such an order is read without a defect |
| Report.ScriptDecides | crates/celln-cli/src/dispatch_outcome.rs:39-118 | the report of frames in order, field by field: grant, hashes, output, exit code or signal but never both, and the denial: a timeout above all, then a missing end, a missing shutdown, the end itself unless it is exit code 0 |
| Report.RejectedIff | crates/celln-cli/src/dispatch_outcome.rs:29-118 | a report is rejected exactly when the markers were not exchanged or some line is the first that cannot stand behind the frames before it, and for that very defect |
| Report.NegotiatedIff | crates/celln-cli/src/dispatch_outcome.rs:134-148 | the markers were exchanged exactly when some line is the first alive marker, a later one is the protocol marker, and no pilot line stands between them |
| Report.MarkerIff | crates/celln-cli/src/dispatch_outcome.rs:166-170 | a line is a marker exactly when it begins with it and what follows cannot make a longer word |
| Report.LinesAre | crates/celln-cli/src/dispatch_outcome.rs:39-42 | which lines a console has, the last one without a newline included |
| Report.NegotiationIsFinal | crates/celln-cli/src/dispatch_outcome.rs:134-148 | nothing printed after pilot's second line changes the negotiation |
| Report.ObserveFrame | crates/celln-cli/src/dispatch_outcome.rs:51-91 | the `match` on one frame equals its model |
| Report.ReadLines | crates/celln-cli/src/dispatch_outcome.rs:39-91 | the loop over the lines equals the fold of its model |
| Report.ParseReport | crates/celln-cli/src/dispatch_outcome.rs:6-118 | `parse_report` equals its model |
| ReportRoundTrip.ReportReadsBack | crates/celln-pilot/src/dispatch_report.rs:28-33 | a report emitted in order reads back field by field, however it ends, through kernel lines between, and harmless text after, its markers and frames |
| ReportRoundTrip.ExitReadsBack | crates/celln-cli/src/dispatch_outcome.rs:6-118 | field by field for a guest that exits: grant, hashes, exit code and the limit-prefix of the output |
| ReportRoundTrip.FrameOrNothing | crates/celln-cli/src/dispatch_outcome.rs:184-196 | a frame followed by anything reads as that frame, or, exactly when the rest holds the prefix or opens with a brace, as unreadable; never as another |
| ReportRoundTrip.CanonicalReaderUndoes | crates/celln-cli/src/dispatch_outcome.rs:184-190 | the reader given here undoes the printer, as the round trip asks of any reader |
| ReportRoundTrip.BootNegotiates | crates/celln-cli/src/dispatch_outcome.rs:134-148 | guest init's lines before, and kernel lines between and on, the two markers do not disturb the negotiation |
| Calendar.EveryDateIsRight | crates/celln-cli/src/dispatch.rs:675-692 | for every day number the result is a valid Gregorian date and the date with that number |
| Calendar.CivilUndoesDayNumber | crates/celln-cli/src/dispatch.rs:675-692 | the conversion inverts days-from-date on every valid date |
| Calendar.ConsecutiveDays | crates/celln-cli/src/dispatch.rs:675-692 | day 0 is 1970-01-01 and consecutive days give consecutive dates |
| Calendar.EarlierIff | crates/celln-cli/src/dispatch.rs:675-692 | dates are ordered as their day numbers |
| Calendar.NoIntermediateOverflows | crates/celln-cli/src/dispatch.rs:676-692 | for every signed 64-bit timestamp no signed intermediate leaves its machine type |
| Calendar.NoUnsignedUnderflow | crates/celln-cli/src/dispatch.rs:682-691 | from the day of the era on no unsigned subtraction goes below zero and every product stays small, up to day and month |
| Calendar.YearLength | crates/celln-cli/src/dispatch.rs:675-692 | the reference calendar gives leap years 366 days and others 365 |
| Timestamp.TextReadsBack | crates/celln-cli/src/dispatch.rs:694 | the text is a well-formed date-time exactly for the years 0000 to 9999, and then reads back to the same second |
| Timestamp.OnlyThisTextReads | crates/celln-cli/src/dispatch.rs:694 | the only text that reads as a second is the one printed for it |
| Timestamp.TextOrderIsTimeOrder | crates/celln-cli/src/dispatch.rs:694 | for these years text order is time order |
| Timestamp.SplitIsValid | crates/celln-cli/src/dispatch.rs:676-682 | hour, minute and second are in range and add up with the date to the timestamp |
| Timestamp.YearText | crates/celln-cli/src/dispatch.rs:694 | the year field of any year: its digits to four places, or a sign and its digits to three |
| ScopedHttps.AuthorityIsTheMeet | crates/celln-cli/src/dispatch_scoped_https.rs:156-218 | a decision is accepted exactly when every tool is and each method's tools share a host; each grant then admits exactly the common hosts under the least of each ceiling |
| ScopedHttps.ToolAcceptedIff | crates/celln-cli/src/dispatch_scoped_https.rs:60-75 | exactly which tools are accepted one by one, in terms of what their host lists admit, and the method, hosts, ceilings and body bound they ask for |
| ScopedHttps.AuthorityIsNeverWidened | crates/celln-cli/src/dispatch_scoped_https.rs:186-193 | hosts, requests, bytes, timeouts and body never exceed any signed or declared limit |
| ScopedHttps.ToolOrderDoesNotMatter | crates/celln-cli/src/dispatch_scoped_https.rs:170-216 | acceptance, admitted hosts and ceilings do not depend on the order of the tools |
| ScopedHttps.GrantsEndInTime | crates/celln-cli/src/dispatch_scoped_https.rs:127-150 | a method has a broker grant exactly when some tool asked for it, ending no later than the work or any tool allows |
| ScopedHttps.BrokerGrantsAreTheMeet | crates/celln-cli/src/dispatch_scoped_https.rs:127-150 | what the broker receives for a method admits exactly the names every tool of the method was signed for, under the least of each signed ceiling and the time left; only a POST carries a body |
| ScopedHttps.BrokerNeverExceeds | crates/celln-cli/src/dispatch_scoped_https.rs:127-150 | tool by tool, the broker is never given a name, request, byte or millisecond that tool was not signed for, nor one beyond the contract's bounds |
| ScopedHttps.ToolRefusedFor | crates/celln-cli/src/dispatch_scoped_https.rs:60-75 | which refusal a tool gets: numbers out of range, signed beyond declared, or unsupported |
| ScopedHttps.WithinIsInclusion | crates/celln-cli/src/dispatch_scoped_https.rs:79-81 | `within` is inclusion of what the two lists admit |
| ScopedHttps.MeetHostsAdmit | crates/celln-cli/src/dispatch_scoped_https.rs:95-110 | the narrowed list admits what both lists admit and stays a valid list |
| ScopedHttps.GrantCell.Intersect | crates/celln-cli/src/dispatch_scoped_https.rs:95-115 | `Grant::intersect` in place |
| ScopedHttps.Derive | crates/celln-cli/src/dispatch_scoped_https.rs:156-218 | `derive` with its in-place grants equals its model, missing arrays and unequal lengths included |
| Hosts.CheckScopedHosts | crates/celln-cli/src/dispatch_scoped_https.rs:36-58 | the check with its set of seen names accepts exactly `["*"]` or 1 to 16 distinct names |
| Hosts.NameIff | crates/celln-cli/src/dispatch_scoped_https.rs:44-57 | which texts are host names, character by character |
| Hosts.WildcardStandsAlone | crates/celln-cli/src/dispatch_scoped_https.rs:28-42 | the wildcard is a list of its own, in no other list, and only it admits every name |
| Hosts.ScopedIsProfileWithoutRepeats | crates/celln-cli/src/dispatch_parent_model.rs:65-84 | the two host checks of the repository agree but for repeated names |
| ScopedArtifacts.AuthorityIsTheMeet | crates/celln-cli/src/dispatch_scoped_artifacts.rs:128-186 | accepted exactly when every tool is; then the union of the operations and the least of each signed ceiling |
| ScopedArtifacts.ToolAcceptedIff | crates/celln-cli/src/dispatch_scoped_artifacts.rs:111-168 | exactly which tools are accepted one by one, and what they bring |
| ScopedArtifacts.ToolRefusedFor | crates/celln-cli/src/dispatch_scoped_artifacts.rs:111-168 | which refusal a tool gets: numbers out of range, signed beyond declared, or unsupported |
| ScopedArtifacts.AuthorityIsNeverWidened | crates/celln-cli/src/dispatch_scoped_artifacts.rs:159-184 | never above any signed or declared limit, and inside every range rule, total bytes at least file bytes included |
| ScopedArtifacts.ToolOrderDoesNotMatter | crates/celln-cli/src/dispatch_scoped_artifacts.rs:139-184 | the policy does not depend on the order of the tools |
| ScopedArtifacts.Derive | crates/celln-cli/src/dispatch_scoped_artifacts.rs:128-186 | `derive` equals its model, missing arrays and unequal lengths included |
| ChildBrokers.LedgerStaysWithinThePermit | crates/celln-cli/src/dispatch_parent_model.rs:268-341 | over any sequence of calls each child gets at most one grant, at most max-turns identities are consumed, totals stay within max-turns times one turn, and every grant pays for its requests at the cap |
| ChildBrokers.NoRefund | crates/celln-cli/src/dispatch_parent_model.rs:289-291 | a consumed identity stays consumed and every later try for it is refused |
| ChildBrokers.OnlyReservationsConsume | crates/celln-cli/src/dispatch_parent_model.rs:272-291 | a call consumes an identity exactly when the reservation is in order and unused; forged ones consume nothing |
| ChildBrokers.TurnAnswers | crates/celln-cli/src/dispatch_parent_model.rs:268-297 | every refusal of a turn and exactly when it is given, in terms of the permit |
| ChildBrokers.GrantSays | crates/celln-cli/src/dispatch_parent_model.rs:292-341 | what a granted turn may do, field by field, is what the pinned profile says, no longer than the turn, and no GET without a fetch profile |
| ChildBrokers.ProfileReadIff | crates/celln-cli/src/dispatch_parent_model.rs:195-258 | exactly which profiles are read: hash, size, binding, token arithmetic and tool ranges |
| ChildBrokers.Brokers.Issue | crates/celln-cli/src/dispatch_parent_model.rs:268-341 | `for_turn` in place: the claim is consumed before the profile is opened |
| WarmCache.CacheIsTheRecentKeys | crates/celln-cli/src/dispatch_warm.rs:71-147 | after any calls, failing preparations included, the cache holds the last distinct keys that hit or were prepared, most recent last |
| WarmCache.RecentIsByLastUse | crates/celln-cli/src/dispatch_warm.rs:91-96 | that list is every key once, ordered by last use |
| WarmCache.HitsGrowWithCapacity | crates/celln-cli/src/dispatch_warm.rs:139-142 | after the same calls every hit of a cache of n is a hit of a cache of n + 1 |
| WarmCache.HitsGiveTheLastPreparation | crates/celln-cli/src/dispatch_warm.rs:91-96 | a hit gives the very template prepared last under its key |
| WarmCache.CallersGetTheirTemplate | crates/celln-cli/src/dispatch_warm.rs:71-150 | after any calls the next caller gets, if its key is warm, the template prepared last under that very key, else what its own preparation gives, and nothing if its control is over at either end |
| WarmCache.WarmTemplatesAreTheLastFour | crates/celln-cli/src/dispatch_warm.rs:14 | at the size the dispatcher runs with, never more than four templates: the last four distinct keys that hit or were prepared |
| WarmCache.ErrorChangesCacheIff | crates/celln-cli/src/dispatch_warm.rs:148-149 | a call that gives nothing has changed the cache exactly when the control ran out after the template was found or prepared and its key was not already the most recent |
| WarmCache.AnErrorThatFilledTheCache | crates/celln-cli/src/dispatch_warm.rs:131-149 | a concrete such call: the caller is refused and the next caller hits |
| WarmCache.Cache.Pin | crates/celln-cli/src/dispatch_warm.rs:71-150 | `pin` in place |
| ListQuery.TargetReadsBack | crates/celln-cli/src/cells.rs:259-271 | parsing the query part of the canonical target gives back every valid query |
| ListQuery.TargetTexts | crates/celln-cli/src/cells.rs:259-262 | the canonical target, spelled out once with and once without `all` |
| ListQuery.AcceptedIff | crates/celln-cli/src/cells.rs:225-257 | a query is accepted exactly when it is at most one well-formed `all` and one well-formed `limit`, in any order |
| ListQuery.CanonicalFormKeepsMeaning | crates/celln-cli/src/cells.rs:225-262 | printing and parsing keeps the meaning of every accepted query |
| ListQuery.OrderDoesNotMatter | crates/celln-cli/src/cells.rs:225-257 | the order of the parameters does not matter |
| ListQuery.PairsAreJoined | crates/celln-cli/src/cells.rs:228-231 | which pairs a query has: ampersands join the pairs of their two sides, and spare ones do not matter |
| ListQuery.RefusedFor | crates/celln-cli/src/cells.rs:231-256 | a refused query gets the refusal of its first pair that cannot stand behind the pairs before it |
| ListQuery.RouteIff | crates/celln-cli/src/cells.rs:265-271 | exactly which targets are the listing, and their query part |
| ListQuery.Parse | crates/celln-cli/src/cells.rs:225-257 | `parse` equals its model |
| LifecycleTheorems.LateOutcomeFails | crates/celln-cli/src/dispatch_http.rs:992-1004 | helper: an outcome at or after the deadline becomes a failure, receipt included, even if nobody polled the control |
| LifecycleTheorems.AnswersAfterRestart | crates/celln-cli/src/dispatch_http.rs:762-793 | helper: the answers after a restart, for every id and body, files that cannot be read and new ids included |
| Journal.PowerLossKeeps | crates/celln-cli/src/dispatch_journal.rs:66-68 | helper: a power loss keeps every synced binding and terminal record |
| ParentRegistry.IncarnationsAreNeverReused | crates/celln-warden/src/parent_registry.rs:241-243 | helper: insertion refuses an identity that is there, and taking owners out keeps it there |
| ChildBrokers.ProfileNeverChanges | crates/celln-cli/src/dispatch_parent_model.rs:195-222 | helper: whenever the pinned profile can be read it is the same profile |
| ChildBrokers.TokenProductFits | crates/celln-cli/src/dispatch_parent_model.rs:233-241 | helper: the unchecked product of requests and tokens cannot overflow where it is computed |
| ChildBrokers.DistinctTurnsDistinctChildren | crates/celln-cli/src/dispatch_parent_model.rs:272-277 | helper: two turns of a parent share a child only if they are the same turn |
| ChildBrokers.GrantedIff | crates/celln-cli/src/dispatch_parent_model.rs:268-297 | helper: a turn is granted exactly when its reservation is in order and unused and the pinned profile fits in it |

## Left out

- The scoped HTTP receiver (crates/celln-cli/src/dispatch_scoped.rs): its entries have no audit and no journal, so registry entries here always have both, as the only other insertion site fills them.
- Parent sessions, leases and their journals beyond the registry of owners; `workspace_for_turn`.
- KVM, guest init, forging, launching, sockets, HTTP framing, TLS and authentication: no pure core.
- Cryptography, signatures, manifests and stores: only injectivity of hashing is used.
- Full JSON: only the canonical encoding of frames is read concretely; the report theorems hold for every reader and the round trip for every reader that undoes the printer. Requests, decisions, materials and profiles are taken as decoded.
- Wording of denials, refusals and excerpts; which refusal comes first is kept, its text is not.
- Availability hints of the warm cache and the fork of a pinned template.
- Panics under a lock, an `eprintln!` that fails included (crates/celln-cli/src/dispatch_http.rs:1016): a poisoned registry or prewarm slot panics at every later use, a poisoned warm cache refuses every pin.
- `begin`, `finish` and `prune` of the cell records, and the body of the cells report.
- The oversize checks of journal records are part of the I/O outcomes, not computed.
- `ParentRegistry::new` refuses a capacity of zero or above 1024; the registry here takes any.
- Audit.MergedIsAStablePermutation: covers the event list; the execution evidence set beside it is one opaque text.
- ChildBrokers.LedgerStaysWithinThePermit: identity, endpoint, credential-path and parameter comparisons of the profile are one boolean.
- Hosts.CheckScopedHosts: names are compared exactly; the broker's later case-insensitive match is not modelled.
