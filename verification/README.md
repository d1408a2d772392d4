# network-broker: a verified model

A Dafny model of the broker that collects evidence from network devices. It covers the parts that carry state or
hostile input:

* **Collection.** Workers lease tasks under a fencing token, obtain a single-use execution grant, exchange it for a
  credential, persist a signed envelope and commit it; a reconciler accepts evidence whose worker died. The in-memory
  `Store`, the guarded-`UPDATE` repository, the grant ledger, the envelope repository and the reconciler are modelled
  operation by operation, and `CollectionProtocol` lets any number of them interleave with crashes and arbitrary clocks.
* **Workflow.** Resolutions move by compare-and-set, each step with one outbox event; planners fan tasks out atomically;
  clients watch the events; dispatchers publish the outbox under leases and operators replay dead letters.
* **Hostile output.** Captured bytes are made valid UTF-8 (section 3 of RFC 3629), stripped, bounded and inspected before
  anything trusts them; NETCONF end-of-message framing (section 4.3 of RFC 6242) delimits what is read.
* **Governance.** Disclosure receipts, approval consumption and artefact retention with legal hold.

Where the source updates things in place the model has classes and methods with loops, each proved against a function;
what the source promises is then proved of those functions over every input or every run. Database constraints from the
migrations (checks, unique and foreign keys) are part of the model. Instants are nanoseconds after Go's zero time;
microsecond truncation is explicit.

Where to start: `CollectionSafety`, `CollectionExchange`, `CollectionGrants`, `CollectionRecovery`, `CollectionProgress` and
`CollectorRepository` (fencing, ledger, grants, crash window, refinement);
`ResolutionWorkflow`, `ResolutionWatch` and `OutboxRuns` (event log, watch, delivery); `JsonBounds`, `JsonTaint`,
`TextInspection`, `Redaction`, `Sanitiser` and `Netconf` (bytes); `Observation` and `Retrieval` (from captured bytes to a release);
`Disclosure`, `Approval` and `Lifecycle`.

Three properties that are false without a condition are stated with the exact condition, and each has an input where it
fails:

* a framed NETCONF message is read back if and only if it fits, holds no delimiter and does not end in `]]>`
  (`Netconf.FrameRoundTrip`; `Netconf.BorderEndsEarly` says what is read otherwise);
* the composite key of an in-memory repository belongs to one scope only, among scopes with non-empty parts, if and only
  if no part allows another split: no NUL after the tenant's first character, in an actor longer than that NUL, or before
  the key's last character (`Text.ScopedKeyShared`, `Text.ScopedKeyCollision`);
* the guarded-`UPDATE` repository succeeds and fails like the in-memory store if and only if the schema admits what the
  store permits (`CollectorRepository.RepositoryRefinesStore`, `CollectorRepository.EarlyClockDiffers`).

## Model

| member | source | states |
|---|---|---|
| CollectorTask.Store.Add | internal/collector/task.go:141-162 | a task is added exactly when it is identified, new and not yet started; it becomes queued and nothing else changes |
| CollectorTask.Store.Acquire | internal/collector/task.go:165-199 | a lease is granted exactly for an available or expired task; a new fencing epoch starts and the old grant is forgotten; a refusal changes nothing |
| CollectorTask.Store.Renew | internal/collector/task.go:202-220 | only the holder of a lease in force extends it, without a new epoch |
| CollectorTask.Store.TransitionOwned | internal/collector/task.go:343-358 | an owned state change is the task step of the specification, with its error otherwise |
| CollectorTask.Store.StartExecution | internal/collector/task.go:222-224 | only a leased task starts executing, under a lease in force |
| CollectorTask.Store.RecordExecutionAuthority | internal/collector/task.go:228-247 | decision and grant are recorded only for the executing owner |
| CollectorTask.Store.BeginCommit | internal/collector/task.go:249-251 | only an executing task starts committing, under a lease in force |
| CollectorTask.Store.Commit | internal/collector/task.go:254-277 | one result is accepted, by the committing owner of the current epoch; a second one is a duplicate |
| CollectorTask.Store.Retry | internal/collector/task.go:280-300 | the owner gives the epoch up: no owner, no expiry, waiting for retry |
| CollectorTask.Store.VerifyCurrentAttempt | internal/collector/task.go:327-341 | an attempt is current exactly when its owner holds the epoch in force and is executing or committing |
| CollectorTask.CallSucceedsWhen | internal/collector/task.go:141-376 | over the whole table: which request succeeds from which state and holder, that a success changes this one task in these fields, and what each refusal says |
| CollectorTask.CurrentExactlyWhen | internal/collector/task.go:327-341 | an attempt is current if and only if its owner holds the epoch, unexpired, while executing or committing |
| CollectorTask.RetryKeepsTheReason | internal/collector/task.go:280-300 | a retry stores the longest prefix of its reason within 2048 characters, and keeps the earlier error when it has none |
| CollectorRuns.TokenCountsAcquisitions | internal/collector/task.go:165-199 | in every run fencing token, attempt count and number of successful acquisitions agree |
| CollectorRuns.TokensNeverReused | internal/collector/task.go:165-199 | two successful acquisitions of a run never hand out the same token |
| CollectorRuns.RunTokenMonotone | internal/collector/task.go:165-300 | no call sequence ever lowers a task's fencing token |
| CollectorRuns.UnfinishedCanBeLeased | internal/collector/task.go:165-199 | whatever happened before, a task that has not succeeded can be acquired at or after its expiry |
| CollectorRuns.ClosedForever | internal/collector/task.go:254-376 | once an epoch is closed no later call with its token succeeds |
| CollectorRuns.RetryOrLeaseCloses | internal/collector/task.go:165-300 | a retry and a later acquisition both close the epoch |
| CollectorRuns.AcceptedForever | internal/collector/task.go:254-277 | a succeeded task never changes and refuses every call |
| CollectorRuns.LeasesMatchTask | internal/collector/task.go:368-380 | the history of leases and extensions always describes the task's current owner, token and expiry |
| CollectorRuns.LeasesAreDisjoint | internal/collector/task.go:165-220 | when clocks do not go back, the in-force intervals of different leases never overlap |
| CollectorRepository.PostgresRepository.AddContext | internal/collector/postgres_repository.go:26-56 | the inserted row is fresh whatever the caller filled in; constraints refuse the rest |
| CollectorRepository.PostgresRepository.AcquireContext | internal/collector/postgres_repository.go:58-88 | the guarded update is the durable step, with the error classified from a fresh read |
| CollectorRepository.PostgresRepository.RenewContext | internal/collector/postgres_repository.go:90-117 | renewal is the durable step on truncated times |
| CollectorRepository.PostgresRepository.TransitionOwned | internal/collector/postgres_repository.go:266-281 | an owned transition matches one row or reports why not |
| CollectorRepository.PostgresRepository.ClassifyOwned | internal/collector/postgres_repository.go:311-328 | the error of an unmatched owned update |
| CollectorRepository.PostgresRepository.StartExecutionContext | internal/collector/postgres_repository.go:119-123 | starting is the durable step |
| CollectorRepository.PostgresRepository.RecordExecutionAuthorityContext | internal/collector/postgres_repository.go:125-144 | recording is the durable step |
| CollectorRepository.PostgresRepository.BeginCommitContext | internal/collector/postgres_repository.go:146-150 | beginning the commit is the durable step |
| CollectorRepository.PostgresRepository.CommitContext | internal/collector/postgres_repository.go:152-190 | committing is the durable step, including the unique and foreign keys on accepted evidence |
| CollectorRepository.PostgresRepository.RetryContext | internal/collector/postgres_repository.go:192-214 | retrying is the durable step |
| CollectorRepository.PostgresRepository.VerifyCurrentAttempt | internal/collector/postgres_repository.go:249-264 | the durable check of the active attempt equals the store's |
| CollectorRepository.DurableStepIsStoreStep | internal/collector/postgres_repository.go:58-214 | a guarded update succeeds if and only if the store permits the truncated command and the schema admits it, and leaves the same task |
| CollectorRepository.SameBlame | internal/collector/postgres_repository.go:298-328 | a refused update reports the store's error if and only if a condition on the command and the row holds, for every command; in particular the fence is never blamed wrongly |
| CollectorRepository.RepositoryRefinesStore | internal/collector/postgres_repository.go:58-214 | over every call sequence the repository and the store on truncated commands agree on success at every call if and only if the schema admits what the store would permit, and then they end with the same tasks |
| CollectorRepository.EarlyClockDiffers | internal/collector/postgres_repository.go:58-88 | a worker whose clock is before the row's creation leases the task in memory but not in the database |
| CollectorRepository.AlignedCommandsAreKept | internal/collector/postgres_repository.go:386-388 | with whole-microsecond times the refinement is about the very same commands |
| CollectorRepository.DurableLeaseIsShorter | internal/collector/postgres_repository.go:386-388 | with other times the durable expiry is never later than the in-memory one and short by less than 2 microseconds |
| CollectorRepository.DurableRowIsARun | internal/collector/postgres_repository.go:58-214 | every stored row is the outcome of a run of store steps from a fresh task, so every run property of the store holds of it |
| CollectorRepository.DurableRunKeepsRows | internal/collector/postgres_repository.go:26-214 | every sequence of repository calls keeps all rows consistent and within the constraints |
| CollectorRepository.RowsAreComplete | migrations/000007_collector_tasks.up.sql:1-81 | every stored row has a complete, bounded authority; an owner, expiry and fence while someone works on it; and an accepted result exactly when succeeded, with evidence of its own that no other task accepted |
| Reconciliation.Reconciler.ReconcileExpiredEvidenceContext | internal/collector/reconciliation.go:62-135 | the reconciling update and its classification, as one step |
| Reconciliation.ReconcilesOnlyExpired | internal/collector/reconciliation.go:62-97 | the tables change if and only if the stored envelope has the fence and grant of an executing or committing task with nothing accepted, the lease has expired at the truncated instant and the constraints hold; then that task alone accepts that envelope |
| Reconciliation.ReconcileRefuses | internal/collector/reconciliation.go:99-135 | every refusal leaves the tables alone: stale for another fence or grant, duplicate after other evidence, held while the lease is in force |
| Reconciliation.ReconcileAcceptsOneEnvelope | internal/collector/reconciliation.go:62-97 | what reconciliation accepts is a stored envelope whose task, tenant, fence, grant and attempt are the task's own |
| Reconciliation.ReconcileRespectsFence | internal/collector/reconciliation.go:62-135 | evidence of another fence, or for a task accepted with other evidence, is never reconciled |
| Evidence.AttemptIdInjective | internal/evidence/evidence.go:121-168 | attempts of different tasks or fences have different identifiers, whatever the task identifier contains |
| Evidence.EnvelopeRepository.CreateContext | internal/evidence/repository.go:90-132 | persisting is idempotent for the same envelope, a conflict for another, and bounded by the constraints |
| Evidence.CreateAppends | internal/evidence/repository.go:90-132 | a stored envelope is never replaced or removed, a failure changes nothing, and repeating a success changes nothing |
| Evidence.AssembledExactlyWhen | internal/evidence/evidence.go:121-211 | evidence is assembled if and only if the database shows the caller's attempt in force and nothing it must name is missing; the envelope names that task, attempt, fence, collector and grant |
| Evidence.StoredExactlyWhen | internal/evidence/repository.go:90-132 | a new envelope is stored if and only if it is whole, its tenant has its task and the attempt has no other envelope; a used identifier accepts only the very same one |
| Evidence.CreateKeepsOnePerAttempt | internal/evidence/repository.go:90-132 | there is at most one envelope per tenant, task and attempt |
| Grants.Broker.IssueContext | internal/grants/grants.go:149-172 | the authority signs only complete grants, under its own issuer and audience |
| Grants.Broker.ExchangeContext | internal/grants/grants.go:181-237 | the exchange and its ledger entry, as one durable step |
| Grants.Broker.ConsumeContext | internal/grants/repository.go:112-180 | consumption inserts one row or changes nothing |
| Grants.MemoryLedger.ConsumeContext | internal/grants/repository.go:61-83 | the in-memory ledger consumes each grant and each nonce once |
| Grants.ConsumeNeedsTheExecutingAttempt | internal/grants/repository.go:112-250 | a row is inserted only while the task row is executing under the same owner, fence, grant, target and recipe with lease and grant unexpired on the database clock; grant and nonce stay unique |
| Grants.ExchangedOnce | internal/grants/grants.go:181-237 | a grant that was exchanged can never be exchanged again |
| Grants.CredentialIsBound | internal/grants/grants.go:181-237 | a credential names exactly the grant, target, recipe, fence and collector of the request, and the row shows that collector executing under it, so the worker's comparison never fails |
| Grants.ExchangesExactlyWhen | internal/grants/grants.go:181-237 | an exchange succeeds if and only if the authority signed the grant under its own name, it is current and single-use, the request repeats its bindings, grant and nonce are unused, and the attempt is executing on the database clock |
| Grants.LedgerTakesCompleteRows | internal/grants/repository.go:252-271 | the ledger takes a row if and only if its identifiers are bounded, its digests are lower-case hex and it is dated before the grant expires |
| CollectionProtocol.NextKeepsInv | internal/collector/worker.go:69-191 | every step of workers, planners, brokers, reconcilers and crashes keeps the protocol invariant |
| CollectionProtocol.InvAlways | internal/collector/worker.go:69-191 | the invariant holds in every state of every run |
| CollectionProtocol.AcceptedByCommit |  internal/collector/worker.go:178-190 | what a worker's commit accepts is the stored envelope of its own epoch and grant |
| CollectionProtocol.AssembledForEpoch | internal/evidence/pipeline.go:86-146 | an envelope is only assembled in the epoch of the worker's copy, so it names that epoch's grant |
| CollectionSafety.AcceptedResultIsFinal | internal/collector/worker.go:84-190 | in every run a succeeded task names a stored envelope with its own task, tenant, fence and grant, and that pair never changes afterwards |
| CollectionSafety.AcceptedTaskRefusesEverything | internal/collector/reconciliation.go:62-135 | after acceptance no acquisition, commit or other operation and no different reconciliation ever succeeds |
| CollectionSafety.ClosedStays | internal/collector/postgres_repository.go:58-214 | an epoch closed in some state stays closed in every later state of every run |
| CollectionSafety.ClosedEpochIsDead | internal/collector/postgres_repository.go:58-264 | after an epoch closes, no owner operation, attempt verification or reconciliation with its token ever succeeds |
| CollectionSafety.ClosedEpochGrantIsWorthless | internal/grants/repository.go:216-250 | a grant of a closed epoch can never be exchanged, however validly it was signed |
| CollectionSafety.LedgerRowsAreEarned | internal/grants/repository.go:112-250 | every ledger row was appended by one step of the run that found the task executing under that owner, fence, grant, target and recipe, with lease and grant unexpired on the database clock this step read, and carries its insert time |
| CollectionSafety.OneEnvelopePerEpoch | internal/evidence/repository.go:90-132 | in every interleaving an epoch of a task leaves at most one envelope, and all envelopes have different attempt identifiers |
| CollectionSafety.LedgerIsUnique | internal/grants/repository.go:112-180 | in every run no two ledger rows share a grant identifier or a nonce digest |
| CollectionExchange.EvidenceNeedsAnExchange | internal/collector/worker.go:147-176 | in every run each stored envelope has a ledger row for its grant with its task, fence, collector, tenant, target and recipe, appended by an earlier step that found the attempt executing, unexpired |
| CollectionExchange.AcceptanceNeedsAnExchange | internal/collector/worker.go:147-190 | in every run each succeeded task's own grant was exchanged, in its own epoch, by the collector of the accepted evidence |
| CollectionExchange.RefusalFailsTheAttempt | internal/collector/worker.go:96-191 | a refused authorisation, exchange, capture, assembly or insert fails the attempt and changes nothing; a step that goes on has what the next one needs |
| CollectionGrants.GrantsStayWithinTheLease | internal/collector/worker.go:96-131 | in every run a worker beyond authorisation holds a grant signed for its own task, target, recipe and fence that ends with its lease or before and stays within the worker's limits |
| CollectionGrants.IssuedGrantsAreComplete | internal/grants/grants.go:149-172 | in every run whatever the authority signed is complete, single-use, valid for some time and under its own name |
| CollectionRecovery.CrashWindowCloses | internal/collector/reconciliation.go:57-97 | in every run stored evidence of the epoch in which its task is executing or committing is accepted by a reconciliation after the lease has expired, whatever became of the worker |
| CollectionRecovery.PlannedTaskIsPickedUp | internal/collector/worker.go:69-84 | a planned task becomes a fresh row, and a worker started on it begins by acquiring |
| CollectionProgress.NewAttemptIsUnused | internal/evidence/pipeline.go:97 | fencing makes the next attempt's identifier new: no stored envelope and no task carries it, whatever earlier attempts left behind |
| CollectionProgress.UndisturbedWorkerSucceeds | internal/collector/worker.go:69-191 | from every state of the invariant, eleven undisturbed steps of a worker, at any clock readings within lease and grant, take a free task to success with the new attempt's evidence |
| Resolution.LogGainsResolution | internal/resolution/service.go:72-105 | a new resolution with its received event keeps state and log in agreement |
| Resolution.LogGainsTransition | internal/resolution/service.go:120-155 | an allowed transition with its event keeps state and log in agreement, for this resolution and all others |
| Resolution.TerminalIsStuck | internal/resolution/resolution_state.go:68-76 | a known state is terminal if and only if no transition leads out of it |
| Resolution.EnteredFrom | internal/resolution/resolution_state.go:35-48 | the graph from its ends: completion only from queued, denial only before, failure, cancellation and expiry from every unfinished state, planning one stage at a time |
| Resolution.ShownExactlyWhen | internal/resolution/events.go:29-63 | an event is shown if and only if it is dated, of a known type, schema and state and has a positive version; an old queueing event counts as queued |
| ResolutionRepository.MemoryRepository.Create | internal/resolution/memory_repository.go:36-64 | creation stores resolution, key and event together, answers a repeated key with the original, and refuses anything else without change |
| ResolutionRepository.MemoryRepository.Transition | internal/resolution/memory_repository.go:121-154 | a transition is applied exactly when tenant, version, state, graph, time and event all agree, together with its event |
| ResolutionRepository.MemoryRepository.ListEvents | internal/resolution/memory_repository.go:84-118 | the listing loop returns the page specification, tenant-scoped, with its errors |
| ResolutionWorkflow.WorkflowDatabase.CreateResolution | internal/resolution/postgres_repository.go:31-96 | the durable creation transaction, with rollback on every refusal |
| ResolutionWorkflow.WorkflowDatabase.TransitionResolution | internal/resolution/postgres_repository.go:174-222 | the durable compare-and-set transaction |
| ResolutionWorkflow.WorkflowDatabase.ValidateTasks | internal/collector/fanout.go:104-122 | the loop accepts exactly the task lists that are complete, bound to the resolution and free of duplicates |
| ResolutionWorkflow.WorkflowDatabase.InsertTasks | internal/collector/fanout.go:55-59 | all tasks are inserted or none |
| ResolutionWorkflow.WorkflowDatabase.CreateFanout | internal/collector/fanout.go:29-89 | the fan-out transaction, all checks and conflicts included |
| ResolutionWorkflow.BuildFanout | internal/planning/service.go:75-144 | the planner's loop refuses authority overrides and binds every task to the actor's tenant and the resolution |
| ResolutionWorkflow.LogTellsTheResolution | internal/resolution/service.go:120-155 | in every interleaving of creation, transitions from any snapshot and fan-out: versions 1 to Version without gap or repeat, allowed consecutive states, last state stored, Completed equals Terminal, Version at most 5 |
| ResolutionWorkflow.CompletedMeansOver | internal/resolution/service.go:145 | in every run a resolution is completed if and only if no step of any service can change it any more |
| ResolutionWorkflow.CompletedIsFinal | internal/resolution/postgres_repository.go:174-222 | a completed resolution is the same after every continuation |
| ResolutionWorkflow.TargetCountCountsTasks | internal/collector/fanout.go:55-75 | in every run a resolution's target count is the number of its tasks, none before it is queued, and all tasks are of its tenant |
| ResolutionWorkflow.OnlyFreshResolutionsAreStored | internal/resolution/postgres_repository.go:31-97 | the transaction by itself stores a resolution if and only if it is complete, received at version 1, with an event of its own, and identifier, key and event are new |
| ResolutionWorkflow.CreatedExactlyWhen | internal/resolution/service.go:72-105 | a creation adds a resolution if and only if the request is complete and identifiers and key are new; it is received at version 1 with its event |
| ResolutionWorkflow.TransitionedExactlyWhen | internal/resolution/service.go:120-155 | a transition applies if and only if its snapshot is the stored version and state, the graph allows it and time does not go back |
| ResolutionWorkflow.FannedOutExactlyWhen | internal/planning/service.go:75-144 | a fan-out succeeds if and only if an authorised planner names one to a thousand new, different, complete tasks without override for a resolution of the tenant in planning at that version |
| ResolutionWorkflow.FanoutTakesEffectWhen | internal/collector/fanout.go:29-136 | the transaction by itself takes effect if and only if its tasks are complete, new, different, unstarted and of that tenant and resolution, its event announces them, and the resolution is in planning at that version |
| ResolutionWorkflow.RepositoriesAgree | internal/resolution/memory_repository.go:121-154 | the in-memory repository applies the same transitions as the transaction, with the same result, while event identifiers are new |
| ResolutionWorkflow.OverrideIsRefused | internal/planning/service.go:92-95 | a plan whose task names another tenant or resolution is refused |
| ResolutionWorkflow.PlanBindsTasks | internal/planning/service.go:89-99 | what is handed on differs from the plan only in the actor's tenant, the resolution and the state |
| ResolutionWorkflow.RunKeepsStore | internal/resolution/postgres_repository.go:31-222 | every run keeps log and idempotency records in agreement with the resolutions |
| ResolutionWorkflow.RunAdvances | internal/resolution/postgres_repository.go:174-222 | over any continuation a resolution keeps identity and request, version and time never go back, and a terminal resolution never changes |
| ResolutionWorkflow.OutboxGrows | internal/resolution/postgres_repository.go:31-222 | no step of a run removes or changes an event already logged |
| ResolutionWorkflow.FanoutIsAtomic | internal/collector/fanout.go:29-89 | a successful fan-out added exactly the planned tasks, all fresh, and one event; a failed one changed nothing |
| ResolutionWorkflow.FanoutQueuesTheResolution | internal/collector/fanout.go:60-75 | exactly one resolution changes: from planning to queued, with its task count, the next version and a time that does not go back |
| ResolutionWorkflow.SecondFanoutLoses | internal/collector/fanout.go:55-61 | of two fan-outs for the same version only the first succeeds |
| ResolutionWorkflow.CreateIsIdempotent | internal/resolution/postgres_repository.go:62-87 | repeating a creation returns the original if and only if the digest is the same, and never changes anything |
| ResolutionWatch.MemoryListing | internal/resolution/memory_repository.go:84-118 | on every readable log the in-memory listing is exactly the next events after the cursor, up to the limit |
| ResolutionWatch.SqlListing | internal/resolution/postgres_repository.go:121-170 | the SQL listing selects exactly those events, whatever order the database may produce |
| ResolutionWatch.SqlProjection | internal/resolution/postgres_repository.go:151-164 | so both listings project to the same watch events |
| ResolutionWatch.WriteEvents | cmd/controlplane/resolution_watch_handlers.go:151-175 | the writing loop delivers a batch up to a broken connection or a terminal event |
| ResolutionWatch.WrittenInOrder | cmd/controlplane/resolution_watch_handlers.go:151-175 | a batch that continues the cursor is delivered in order and ends the watch exactly at the terminal event |
| ResolutionWatch.WatchIsExact | cmd/controlplane/resolution_watch_handlers.go:72-175 | for every page limit, every log that grows between polls and every drop and reconnection, the client holds each event after its start once, in order, and is finished exactly at the terminal one |
| ResolutionWatch.UnbrokenPollCatchesUp | cmd/controlplane/resolution_watch_handlers.go:118-149 | one poll over a connection that holds brings the client fully up to date |
| ResolutionWatch.WorkflowIsReadable | internal/resolution/service.go:120-155 | every log a workflow run produces is readable: versions 1 to the resolution's version, one each, ending in its state |
| ResolutionWatch.WorkflowWatchIsExact | cmd/controlplane/resolution_watch_handlers.go:72-175 | for polls at any non-decreasing points of any workflow run, with any limits and drops, the client holds exactly the stretch of that resolution's events after its start |
| ResolutionWatch.WorkflowWatchCatchesUp | cmd/controlplane/resolution_watch_handlers.go:118-149 | after a full poll over a connection that holds, the client has every event of the resolution at that point of the run, and is finished exactly when the resolution is completed |
| ResolutionWatch.WatchEndsWithTheResolution | cmd/controlplane/resolution_watch_handlers.go:151-175 | a watch polled in full is finished if and only if no step of any service can change the resolution any more |
| Outbox.TakenExactly | internal/outbox/postgres_store.go:48-64 | a claim takes only claimable rows that nobody locks, each once and lowest first, within its limit |
| Outbox.TakenComplete | internal/outbox/postgres_store.go:48-64 | a claim below its limit took every row it could |
| Outbox.OutboxDatabase.Claim | internal/outbox/postgres_store.go:31-94 | claiming leases the selected rows, counts the attempt and changes no other row |
| Outbox.OutboxDatabase.SelectClaimable | internal/outbox/postgres_store.go:48-57 | the selection loop computes the claim's row set |
| Outbox.OutboxDatabase.Update | internal/outbox/postgres_store.go:97-183 | publish, retry and dead-letter change a row only for the holder of an unexpired lease, and store the failure as valid UTF-8 within its bound |
| Outbox.OutboxDatabase.RunOnce | internal/outbox/dispatcher.go:25-70 | one undisturbed dispatcher round: configuration error, or claim, publish, record, and whether there was nothing to report |
| Outbox.RoundSettlesEveryRecord | internal/outbox/dispatcher.go:25-70 | after a round within its leases each claimed row is published exactly when acknowledged, dead exactly when refused at the attempt limit, and otherwise claimable exactly from its backoff on; no other row changed |
| Outbox.CleanMeansPublished | internal/outbox/dispatcher.go:38-70 | a round reports nothing if and only if every record was acknowledged and its row is published |
| Outbox.OutboxDatabase.HandleRecords | internal/outbox/dispatcher.go:38-67 | the batch loop records each answer as published, retried or dead-lettered |
| Outbox.OutboxDatabase.ReplayEvent | internal/deadletter/postgres_repository.go:88-160 | the replay transaction with its idempotency lookup and audit row |
| Outbox.LockKeyInjective | internal/deadletter/postgres_repository.go:102-103 | different replay scopes never share a lock text, whatever bytes they hold |
| OutboxRuns.NextMoves | internal/outbox/postgres_store.go:31-137 | every step moves a row only along the delivery graph and never changes its event |
| OutboxRuns.RowsWaitTheirTime | internal/outbox/postgres_store.go:48-127 | a leased row cannot be claimed before its lease ends, and a retried row exactly from the time set for it |
| OutboxRuns.RecordingNeedsTheLease | internal/outbox/postgres_store.go:97-183 | a result is recorded if and only if the row is leased to that worker by a lease that has not ended; what it writes is fixed per kind of result |
| OutboxRuns.LeasesExclude | internal/outbox/postgres_store.go:31-183 | in every run a waiting row changes only by a claim when available, a leased one by its own worker before the lease ends or a claim after, a dead one by a replay of its own event |
| OutboxRuns.ClaimableWhen | internal/outbox/postgres_store.go:48-57 | a row is claimable if and only if it is available and waits or its lease has ended |
| OutboxRuns.ExactlyOnePhase | internal/outbox/postgres_store.go:31-137 | in every interleaving of dispatchers, crashes and replays an event is in exactly one of waiting, leased, published and dead-lettered |
| OutboxRuns.PublishedIsFinal | internal/outbox/postgres_store.go:97-104 | a published row never changes again |
| OutboxRuns.PublishedWasAcknowledged | internal/outbox/dispatcher.go:38-67 | a published event was acknowledged by the broker at an earlier step of the run |
| OutboxRuns.EveryExitIsAudited | internal/deadletter/postgres_repository.go:121-152 | an event left dead-letter exactly as often as it has audit rows, and entered as often, plus once if it is there now |
| OutboxRuns.ReplayedIsClaimable | internal/deadletter/postgres_repository.go:121-160 | a replayed row starts again without attempts and is claimable exactly from the replay instant on; the audit row keeps what it was |
| OutboxRuns.ReplayNeedsADeadEvent | internal/deadletter/postgres_repository.go:88-219 | under a new key a replay succeeds if and only if the command is complete and bounded and its tenant has that event dead; refusals change nothing |
| OutboxRuns.ReplayKeyIsSpent | internal/deadletter/postgres_repository.go:105-209 | however long after a replay, its key changes nothing again: the original answer for the same event and reason, a conflict otherwise |
| Text.ScopedKeyInjective | internal/resolution/memory_repository.go:176-178 | two scopes without NUL in tenant and actor never share a NUL-joined key |
| Text.ScopedKeyShared | internal/disclosure/repository.go:397-399 | a scope with non-empty parts shares its NUL-joined key with another such scope if and only if one of its parts holds a NUL that allows another split |
| Text.ScopedKeyCollision | internal/disclosure/repository.go:397-399 | two accepted scopes that share a key although tenant and actor of the first hold no NUL |
| Utf8.DecodeEncoded | internal/sanitise/sanitise.go:413-425 | a decoded character is the one that was encoded, whatever follows |
| Utf8.EncodeDecoded | internal/sanitise/sanitise.go:413-425 | a well-formed character is the encoding of what it decodes to |
| Utf8.ValidIsEncoded | internal/sanitise/sanitise.go:167-172 | valid bytes decode and encode back to themselves |
| Utf8.EncodedIsValid | internal/sanitise/sanitise.go:413-425 | every encoded text is valid and decodes to its characters |
| Utf8.ToValidIsValid | internal/sanitise/sanitise.go:167-172 | replacing ill-formed runs gives valid text and leaves valid text alone |
| Utf8.RunsAreReplaced | internal/sanitise/sanitise.go:167-172 | after valid text, one maximal run of ill-formed bytes becomes one U+FFFD and the rest is treated the same way |
| Utf8.TruncateUtf8 | internal/sanitise/sanitise.go:498-503 | the loop returns the longest valid prefix within the limit and loses at most three bytes of valid text |
| Utf8.BoundedError | internal/outbox/postgres_store.go:185-196 | stored errors are valid UTF-8 of at most 2048 bytes and the longest such prefix |
| Stripping.ConsumeCsi | internal/sanitise/sanitise.go:389-398 | the loop skips a control sequence to its final byte |
| Stripping.ConsumeOsc | internal/sanitise/sanitise.go:400-411 | the loop skips a command to BEL or its string terminator |
| Stripping.ConsumeSequence | internal/sanitise/sanitise.go:375-387 | the introducer decides how much is skipped |
| Stripping.StripTerminalSequences | internal/sanitise/sanitise.go:361-373 | the loop removes every escape sequence and counts them |
| Stripping.NoEscapeSurvives | internal/sanitise/sanitise.go:361-411 | on every input no ESC is left, and text without one is unchanged |
| Stripping.SequenceIsRemoved | internal/sanitise/sanitise.go:361-411 | a complete sequence disappears and everything around it stays |
| Stripping.ShortSequenceIsRemoved | internal/sanitise/sanitise.go:375-387 | an escape before any other byte takes just that byte along |
| Stripping.UnfinishedIsRemoved | internal/sanitise/sanitise.go:389-411 | a sequence that never ends takes the rest of the text along |
| Stripping.StripRawControls | internal/sanitise/sanitise.go:413-425 | the loop decodes, drops unwanted characters, encodes and counts |
| Stripping.StripControlsIsClean | internal/sanitise/sanitise.go:413-425 | on every input the result is valid UTF-8 without ESC, DEL or C0 except tab, CR and LF; clean input is unchanged |
| Stripping.StrippingDistributes | internal/sanitise/sanitise.go:413-425 | characters are dropped or kept one by one, whatever stands around them, and counted |
| Stripping.OneCharacterIsDropped | internal/sanitise/sanitise.go:413-425 | a character is dropped if and only if it is DEL or a C0 control other than tab, line feed and carriage return |
| TextInspection.ContainsEncodedToken | internal/sanitise/sanitise.go:433-460 | for every string: true if and only if some stretch has `minimum` consecutive base64 characters or adjacent %HH triples totalling that many |
| TextInspection.HasAbnormalRepetition | internal/sanitise/sanitise.go:471-486 | for every string: true if and only if more than `limit` equal characters are adjacent |
| JsonBounds.JsonBoundScanner.Consume | internal/sanitise/sanitise.go:323-359 | one byte of the scanner, or giving up |
| JsonBounds.BoundedJsonStructure | internal/sanitise/sanitise.go:307-315 | the scanning loop accepts exactly the specified texts |
| JsonBounds.ScannerIsExact | internal/sanitise/sanitise.go:307-359 | for every JSON tree and every rendering of it the scanner accepts if and only if nesting is within maximumDepth and containers plus commas are within maximumNodes |
| JsonTaint.InspectText | internal/sanitise/sanitise.go:275-305 | one string is quarantined if and only if it is over-long, instruction-like, control-bearing or, as free text, encoded or repetitive |
| JsonTaint.HostileExactlyWhen | internal/sanitise/sanitise.go:275-305 | text is hostile if and only if too long, holding a pattern after normalisation or a forbidden control, and as free text also an encoded token or abnormal repetition |
| JsonTaint.InspectJsonValue | internal/sanitise/sanitise.go:241-273 | the recursive inspection appends exactly the specified pointers and quarantine to the report |
| JsonTaint.EscapeReadsBack | internal/sanitise/sanitise.go:525-527 | escaped member names hold no separator and read back exactly, as in section 4 of RFC 6901 |
| JsonTaint.PointersAreDistinct | internal/sanitise/sanitise.go:241-256 | two nodes of one document with the same pointer are the same node |
| JsonTaint.TaintIsExact | internal/sanitise/sanitise.go:241-273 | the reported pointers are exactly those of string values whose nearest enclosing member name is a free-text field |
| JsonTaint.NotQuarantinedMeansInspected | internal/sanitise/sanitise.go:257-273 | without quarantine every string value at every path passed its inspection |
| Redaction.ApplyRedactions | internal/sanitise/sanitise.go:173-195 | the loop applies every configured string in order, reports each that occurred with position and count, and refuses empty values |
| Redaction.FirstIsReplaced | internal/sanitise/sanitise.go:185-189 | the text before the first occurrence stays, that occurrence is replaced and counted, and the rest is treated the same way |
| Redaction.ReplacingJoinsThePieces | internal/sanitise/sanitise.go:185-189 | for every text: the pieces between its leftmost occurrences joined by the replacement, and the count is the number of joints |
| Redaction.EveryRuleIsApplied | internal/sanitise/sanitise.go:179-195 | each rule replaces what it finds in the text the rules before it left, and is reported with its count if and only if it found something |
| Redaction.OneRedaction | internal/sanitise/sanitise.go:173-195 | one configured string: its pieces joined by the replacement, with the number of replacements reported |
| Sanitiser.Inspect | internal/sanitise/sanitise.go:207-233 | text and JSON inspection with the structure bound in front of the decoder |
| Sanitiser.Sanitise | internal/sanitise/sanitise.go:82-139 | the pipeline as a whole computes its specification |
| Sanitiser.OutputIsSafe | internal/sanitise/sanitise.go:82-139 | for every configuration and input a success is non-empty, within the bound, clean valid UTF-8, with matching counts and a status that satisfies the artefact store |
| Sanitiser.ReleasedWasInspected | internal/sanitise/sanitise.go:95-125 | output that is not quarantined passed every inspection and is the whole text, or a prefix of plain text |
| Sanitiser.QuarantinedExactlyWhen | internal/sanitise/sanitise.go:95-139 | the cleaned text is quarantined if and only if it is empty, JSON beyond bound or limits, not one document or hostile, or hostile plain text; otherwise it is released, long plain text cut to its longest valid part |
| Sanitiser.TransformsExactlyWhen | internal/sanitise/sanitise.go:82-96 | a transformation succeeds if and only if pipeline, bound, captured bytes, rules and redactions are usable |
| Sanitiser.RulesAreUsedWhen | internal/sanitise/sanitise.go:141-162 | configured rules are used if and only if all limits, names and patterns are in range; unnamed rules are the default ones |
| Sanitiser.JsonStartsWithABracket | internal/sanitise/sanitise.go:493-496 | text is treated as JSON if and only if a bracket or brace is the first thing after its white space |
| Sanitiser.CleanTextIsKept | internal/sanitise/sanitise.go:82-139 | plain text is released redacted and otherwise unchanged when the redacted text is clean, within the bound and passes inspection |
| Sanitiser.DefaultRulesAreValid | internal/sanitise/sanitise.go:66-80 | the default rules pass their own validation |
| Netconf.NetconfSession.ReadMessage | internal/transport/netconf.go:208-231 | reading byte by byte is the framing specification, including what is consumed on failure |
| Netconf.SuccessIsFirstMessage | internal/transport/netconf.go:208-231 | on every stream a read succeeds if and only if a delimiter ends within the limit, with exactly the bytes before the first one |
| Netconf.FailureSaysWhy | internal/transport/netconf.go:208-231 | a failed read had no delimiter within the limit; what it says and consumes depends on the limit and the stream's end |
| Netconf.FrameRoundTrip | internal/transport/netconf.go:208-231 | a framed message is read back if and only if it fits, holds no delimiter and does not end in the delimiter's border |
| Netconf.BorderEndsEarly | internal/transport/netconf.go:208-231 | a message followed by `]]>` is read without that ending, which stays in the stream |
| Netconf.BorderExample | internal/transport/netconf.go:208-231 | the message `a]]>` is read back as `a` |
| Netconf.FramesRoundTrip | internal/transport/netconf.go:208-231 | reading n times from n frames returns the n messages and leaves the rest |
| Disclosure.MemoryRepository.Create | internal/disclosure/repository.go:80-108 | the two maps implement the receipt table for every scope that is not ambiguous, and keep one receipt per composite key otherwise |
| Disclosure.KeyStandsForScope | internal/disclosure/repository.go:397-399 | a receipt's composite key is that of no other scope if and only if its parts are not ambiguous |
| Disclosure.PreparedIsEarned | internal/disclosure/disclosure.go:171-224 | a receipt carries its decision's identity and policy digests and is only prepared for permitted fields, applied redactions, a live decision and permitted taint |
| Disclosure.PreparedExactlyWhen | internal/disclosure/disclosure.go:171-311 | a delivery is prepared if and only if the request is complete, its live decision binds it, every field is permitted, every required redaction applied, and taint is delivered and allowed |
| Disclosure.RunKeepsState | internal/disclosure/disclosure.go:171-255 | in every interleaving there is at most one receipt per tenant, actor and request, and every receipt was earned |
| Disclosure.StoredIsComplete | internal/disclosure/repository.go:151-234 | in every run every stored decision is complete and every stored receipt complete and signed |
| Disclosure.DeliveryCompletes | internal/disclosure/disclosure.go:226-255 | a prepared delivery under a new request is stored once signed, and abandoning it stores nothing |
| Disclosure.DeliverAnswers | internal/disclosure/disclosure.go:226-255 | an uninterrupted delivery answers with the receipt stored for its request, a conflict for another delivery, or its own signed one, appended |
| Disclosure.StoredReceiptAnswers | internal/disclosure/repository.go:194-234 | after a receipt is stored, every later delivery of its scope gets that receipt or a conflict, and inserts nothing |
| Disclosure.DecisionsArePermanent | internal/disclosure/repository.go:151-184 | no step of a run changes or removes a stored decision |
| Disclosure.RepeatPreparesTheSame | internal/disclosure/disclosure.go:171-224 | the same request under the same decision prepares the same delivery at any instant before expiry |
| Disclosure.RepeatedDeliveriesAgree | internal/disclosure/disclosure.go:226-255 | a request prepared twice, at any points of any run, whose first insert succeeded: the second insert stores nothing and returns the first receipt |
| Observation.StoredIsTainted | internal/evidence/pipeline.go:86-146 | in every run of the pipeline each stored envelope holds a parsed observation that lists its interface name as tainted |
| Observation.StoredWasCaptured | internal/evidence/pipeline.go:86-146 | every stored document is what one step observed in its own capture, under that task's tenant, target and attempt, unchanged since |
| Observation.ObservedWasInspected | internal/parsing/interface_state.go:65-105 | an observation's name is a valid name read from output that the sanitiser did not quarantine and reported as tainted |
| Observation.ObservedExactlyWhen | internal/parsing/interface_state.go:31-105 | a capture is observed if and only if it is of the task's target, arrived unaltered as JSON, was sanitised as tainted without quarantine and reads as a valid observation |
| Observation.DocumentsAreStoredOnce | internal/evidence/pipeline.go:127-146 | a new envelope is stored with its observation; a stored one accepts only the same document again |
| Retrieval.RetrievalService.SelectFields | internal/retrieval/retrieval.go:56-67 | the loop selects exactly the requested fields and the tainted ones among them, or finds an unknown one |
| Retrieval.RetrievalService.RetrieveNormalised | internal/retrieval/retrieval.go:35-74 | a retrieval reads its own tenant's evidence, delivers exactly the requested fields and stores the receipt, or is an error |
| Retrieval.RetrievedExactlyWhen | internal/retrieval/retrieval.go:35-74 | a retrieval succeeds if and only if it is complete, its tenant has the evidence, every field exists and disclosure delivers them |
| Retrieval.ReleasedIsObserved | internal/retrieval/retrieval.go:50-74 | a release holds the requested fields and no others, each with its own value of the stored observation |
| Retrieval.InterfaceNameStaysTainted | internal/retrieval/retrieval.go:35-74 | whatever the pipeline stored, a release that includes the interface name says so in result and receipt under a decision that allows taint; any other reports none; and only the evidence's tenant gets it |
| Retrieval.ReleasedNameWasInspected | internal/retrieval/retrieval.go:43-67 | a released interface name was read from sanitised output of a capture of the caller's own tenant |
| Approval.PostgresRepository.ExistingConsumption | internal/approval/postgres_repository.go:141-162 | the query returns some matching row, or none if none matches |
| Approval.PostgresRepository.ConsumeGrant | internal/approval/postgres_repository.go:70-139 | the consumption transaction for some possible answer of that query |
| Approval.UseNeedsApproval | internal/approval/postgres_repository.go:91-139 | a new use succeeds if and only if the grant is the tenant's, for this recipe and target subset, unexpired and with uses left; then it counts once |
| Approval.EveryUseWasApproved | internal/approval/postgres_repository.go:70-139 | in every run each consumption row was appended by a step whose clock found the grant approving that request, on terms the grant still has |
| Approval.GrantWasRequested | internal/approval/postgres_repository.go:23-47 | in every run each grant has the terms of the request that created it, made before it expired |
| Approval.CreationNeedsALiveGrant | internal/approval/postgres_repository.go:23-47 | a grant is created if and only if it is new, usable and unexpired, and starts unused |
| Approval.RunKeepsTables | internal/approval/postgres_repository.go:70-139 | in every run `used` equals the number of consumption rows, never exceeds max_uses, and identifiers and (grant, task) stay unique |
| Approval.RunNumbersUses | internal/approval/postgres_repository.go:117-131 | in every run the versions recorded with a grant's consumptions are 2, 3 and so on, in order |
| Approval.AnswerIsIndependent | internal/approval/postgres_repository.go:141-162 | whichever matching row the database returns, answer and new state are the same |
| Approval.ConsumptionIsIdempotent | internal/approval/postgres_repository.go:95-106 | a consumption that succeeded answers the same request with success and no change for ever |
| Lifecycle.LifecycleRepository.ApplyLifecycle | internal/artefacts/postgres_lifecycle.go:22-81 | a lifecycle command updates row and ledger together or changes nothing |
| Lifecycle.SucceedsInOrder | internal/artefacts/postgres_lifecycle.go:22-202 | a command succeeds if and only if it was made for the stored version, gives a bounded reason and its action is in order; it changes one row and appends one event |
| Lifecycle.OneCommandPerVersion | internal/artefacts/postgres_lifecycle.go:39-41 | of the commands made for one version of an artefact at most one ever succeeds; the others are conflicts that change nothing |
| Lifecycle.OtherVersionConflicts | internal/artefacts/postgres_lifecycle.go:39-41 | a command for another version than the stored one is a conflict and changes nothing |
| Lifecycle.CheckedIsComplete | internal/artefacts/lifecycle.go:78-97 | what the service lets through is complete, of a known action, with a deadline exactly when it retains |
| Lifecycle.ServiceLedgerIsAttributed | internal/artefacts/lifecycle.go:78-97 | in every run through the service each applied entry names an actor and a bounded reason for a known action; only a retain action moves the deadline, never to an earlier one nor before the action itself |
| Lifecycle.UncheckedIsNotAttributed | internal/artefacts/postgres_lifecycle.go:22-81 | the repository alone records whatever actor it is given: an accepted command without one leaves an unattributed entry |
| Lifecycle.LedgerGivesTheRow | internal/artefacts/postgres_lifecycle.go:44-73 | in every run folding an artefact's event ledger gives its current row, without gap or break |
| Lifecycle.DeletionWasAllowed | internal/artefacts/postgres_lifecycle.go:183-202 | every deleted artefact had no hold and an elapsed deadline at its request and no hold at its confirmation |
| Lifecycle.RunAdvances | internal/artefacts/postgres_lifecycle.go:151-161 | over any continuation the retention deadline never moves earlier, despite truncation, and a deleted artefact never changes |
| Lifecycle.DeletedRefusesEverything | internal/artefacts/postgres_lifecycle.go:134-202 | a deleted artefact accepts no action |

## Left out

- HTTP, TLS, SPIFFE, gRPC, SSH, S3, KMS and NATS plumbing, metrics and configuration: input and output only; their answers are parameters.
- SHA-256, signatures, JSON encoding and decoding, NFKC normalisation and random identifiers: abstract parameters; a grant signature verifies exactly what the authority signed, and verification of stored receipts is not modelled.
- String lengths: bounds on identifiers are counted in characters where the source counts bytes; bytes are exact in the sanitiser, the outbox error bound, the replay lock text and NETCONF.
- Integer widths: counters and versions are unbounded; wrap-around of 32- and 64-bit integers is not modelled.
- Timestamps that a caller passes without truncation: rounding by the database driver is not modelled; explicit truncation is.
- SQL isolation: a transaction is one atomic step; the read that classifies a refused update happens in the same step as the update.
- The fence that the credential broker reads before its transaction: merged with the transaction, which compares it again.
- Listing of expired evidence candidates, dead letters and lifecycles, the policy evaluator, inventory, context store and role audit: easy members only.
- Sanitiser.Sanitise: digests and the outcome items other than redactions are not part of the manifest here, which holds status, taint, redactions with counts, flags and byte counts; that redacted text is absent from the output is not claimed, because replacement runs before stripping.
- Observation.ObservedWasInspected: the parser's comparison of the manifest's digests is not modelled, because the manifest comes with the output it describes; nor are the key lookup and artefact writes of the pipeline, which only add errors.
- Order of records within a claimed batch: the update returns them unordered; `OutboxRuns` lets a dispatcher publish them in any order.
- CollectionProgress.UndisturbedWorkerSucceeds: takes random identifiers that were not used before and a task identifier short enough for its column; it shows that success is reachable, not that every schedule reaches it.
- Resolution event payloads: their decoded schema version, state and version, or malformed.
