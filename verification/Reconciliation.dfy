/**
 Closing the crash window between storing evidence and committing the task
 (internal/collector/reconciliation.go): one guarded UPDATE accepts an envelope of the current
 fence and grant after the lease has expired.
 */
module Reconciliation {
  import opened Wrappers
  import opened Clock
  import opened CollectorTask
  import opened CollectorRuns
  import opened BrokerDatabase
  import opened CollectorRepository

  /** The WHERE clause joining the task with the candidate envelope. */
  predicate Reconcilable(t: Task, e: Envelope, at: Time)
  {
    && t.authority.id == e.taskId && t.authority.tenantId == e.tenantId
    && t.fencingToken == e.fencingToken
    && t.executionGrantId != "" && t.executionGrantId == e.executionGrantId
    && (t.state.Executing? || t.state.Committing?)
    && t.leaseExpiry <= Truncate(at)
    && t.acceptedAttemptId == "" && t.acceptedEvidenceId == ""
  }

  function Accepted(t: Task, e: Envelope): Task
  {
    t.(acceptedAttemptId := e.attemptId, acceptedEvidenceId := e.evidenceId, state := Succeeded)
  }

  /** `classifyEvidenceReconciliation`: an envelope already accepted is returned as a success. */
  function ClassifyReconciliation(tables: Tables, evidenceId: string, at: Time): Result<Task, TaskError>
  {
    if evidenceId !in tables.envelopes then Failure(EvidenceNotFound)
    else
      var e := tables.envelopes[evidenceId];
      if e.taskId == "" then Failure(InvalidInput)
      else if e.taskId !in tables.tasks then Failure(TaskNotFound)
      else
        var t := tables.tasks[e.taskId].task;
        if t.authority.tenantId != e.tenantId || t.fencingToken != e.fencingToken ||
           t.executionGrantId != e.executionGrantId then Failure(StaleFence)
        else if t.acceptedEvidenceId == evidenceId && t.acceptedAttemptId == e.attemptId && t.state.Succeeded? then
          Success(t)
        else if t.acceptedEvidenceId != "" || t.acceptedAttemptId != "" then Failure(DuplicateCommit)
        else if at < t.leaseExpiry then Failure(LeaseHeld)
        else Failure(InvalidState)
  }

  function Reconcile(tables: Tables, evidenceId: string, at: Time): (Result<Task, TaskError>, Tables)
  {
    if evidenceId == "" || at == ZERO then (Failure(InvalidInput), tables)
    else if && evidenceId in tables.envelopes
            && tables.envelopes[evidenceId].taskId in tables.tasks
            && Reconcilable(tables.tasks[tables.envelopes[evidenceId].taskId].task, tables.envelopes[evidenceId], at)
    then
      var e := tables.envelopes[evidenceId];
      var t := Accepted(tables.tasks[e.taskId].task, e);
      match UpdateTask(tables, e.taskId, t, Truncate(at))
      case Success(after) => (Success(t), after)
      case Failure(err) => (Failure(err), tables)
    else (ClassifyReconciliation(tables, evidenceId, at), tables)
  }

  class Reconciler {
    const database: Database

    constructor (database: Database)
      ensures this.database == database
    {
      this.database := database;
    }

    method ReconcileExpiredEvidenceContext(evidenceId: string, at: Time) returns (r: Result<Task, TaskError>)
      modifies database
      ensures var (outcome, after) := Reconcile(old(database.tables), evidenceId, at);
              r == outcome && database.tables == after
    {
      if evidenceId == "" || at == ZERO {
        return Failure(InvalidInput);
      }
      var tables := database.tables;
      if evidenceId in tables.envelopes {
        var candidate := tables.envelopes[evidenceId];
        if candidate.taskId in tables.tasks && Reconcilable(tables.tasks[candidate.taskId].task, candidate, at) {
          var t := tables.tasks[candidate.taskId].task;
          t := t.(acceptedAttemptId := candidate.attemptId);
          t := t.(acceptedEvidenceId := candidate.evidenceId);
          t := t.(state := Succeeded);
          var updated := UpdateTask(tables, candidate.taskId, t, Truncate(at));
          if updated.Failure? {
            return Failure(updated.error);
          }
          database.tables := updated.value;
          return Success(t);
        }
      }
      return ClassifyReconciliation(database.tables, evidenceId, at);
    }
  }

  /** Envelope rows: keyed by their identifier and belonging to a task of their tenant. */
  predicate EnvelopesOk(tables: Tables)
  {
    forall id :: id in tables.envelopes ==>
                   var e := tables.envelopes[id];
                   && e.evidenceId == id && id != "" && e.attemptId != "" && e.fencingToken > 0 && e.executionGrantId != ""
                   && e.taskId in tables.tasks
                   && tables.tasks[e.taskId].task.authority.tenantId == e.tenantId
  }

  /** An UPDATE by reconciliation accepts the envelope on the task it was made for. */
  lemma ReconcileChanges(tables: Tables, evidenceId: string, at: Time)
    requires Reconcile(tables, evidenceId, at).1 != tables
    ensures evidenceId in tables.envelopes && tables.envelopes[evidenceId].taskId in tables.tasks
    ensures var e := tables.envelopes[evidenceId];
            var row := tables.tasks[e.taskId];
            && Reconcilable(row.task, e, at)
            && RowAllowed(tables, e.taskId, row.(task := Accepted(row.task, e)), Truncate(at))
            && Reconcile(tables, evidenceId, at).1 ==
               tables.(tasks := tables.tasks[e.taskId := row.(task := Accepted(row.task, e))])
  {
  }

  /**
   The tables change exactly when the stored envelope carries the tenant, fence and grant of a task that
   is executing or committing with nothing accepted, whose lease has expired at the truncated instant,
   and the constraints admit the accepted row; and then only that task changes, by accepting the envelope.
   */
  lemma ReconcilesOnlyExpired(tables: Tables, evidenceId: string, at: Time)
    requires TasksOk(tables) && EnvelopesOk(tables)
    ensures var (outcome, after) := Reconcile(tables, evidenceId, at);
            after != tables <==>
            && at != ZERO && evidenceId in tables.envelopes
            && var e := tables.envelopes[evidenceId];
               var row := tables.tasks[e.taskId];
               && (row.task.state.Executing? || row.task.state.Committing?)
               && row.task.fencingToken == e.fencingToken && row.task.executionGrantId == e.executionGrantId
               && row.task.acceptedAttemptId == "" && row.task.acceptedEvidenceId == ""
               && row.task.leaseExpiry <= Truncate(at)
               && RowAllowed(tables, e.taskId,
                             row.(task := row.task.(acceptedAttemptId := e.attemptId, acceptedEvidenceId := evidenceId,
                                                    state := Succeeded)),
                             Truncate(at))
    ensures var (outcome, after) := Reconcile(tables, evidenceId, at);
            after != tables ==>
              && var e := tables.envelopes[evidenceId];
                 && outcome == Success(tables.tasks[e.taskId].task.(acceptedAttemptId := e.attemptId,
                                                                    acceptedEvidenceId := evidenceId, state := Succeeded))
                 && after == tables.(tasks := tables.tasks[e.taskId := tables.tasks[e.taskId].(task := outcome.value)])
  {
    if evidenceId in tables.envelopes {
      assert RowOk(tables, tables.envelopes[evidenceId].taskId);
    }
  }

  /**
   What a refusal says. An envelope of another fence or grant is stale; a task that accepted other
   evidence is a duplicate; a matching envelope waits while the lease is held.
   */
  lemma ReconcileRefuses(tables: Tables, evidenceId: string, at: Time)
    requires TasksOk(tables) && EnvelopesOk(tables)
    ensures evidenceId == "" || at == ZERO ==> Reconcile(tables, evidenceId, at) == (Failure(InvalidInput), tables)
    ensures evidenceId != "" && at != ZERO && evidenceId !in tables.envelopes ==>
              Reconcile(tables, evidenceId, at) == (Failure(EvidenceNotFound), tables)
    ensures at != ZERO && evidenceId in tables.envelopes ==>
              var e := tables.envelopes[evidenceId];
              var t := tables.tasks[e.taskId].task;
              if t.fencingToken != e.fencingToken || t.executionGrantId != e.executionGrantId then
                Reconcile(tables, evidenceId, at) == (Failure(StaleFence), tables)
              else if t.acceptedEvidenceId != "" then
                Reconcile(tables, evidenceId, at) ==
                (if t.acceptedEvidenceId == evidenceId && t.acceptedAttemptId == e.attemptId then Success(t)
                 else Failure(DuplicateCommit), tables)
              else
                && (at < t.leaseExpiry ==> Reconcile(tables, evidenceId, at) == (Failure(LeaseHeld), tables))
                && (t.leaseExpiry <= at && !t.state.Executing? && !t.state.Committing? ==>
                      Reconcile(tables, evidenceId, at) == (Failure(InvalidState), tables))
  {
    if evidenceId in tables.envelopes {
      assert RowOk(tables, tables.envelopes[evidenceId].taskId);
    }
  }

  lemma ReconcileKeepsRows(tables: Tables, evidenceId: string, at: Time)
    requires TasksOk(tables) && EnvelopesOk(tables)
    ensures TasksOk(Reconcile(tables, evidenceId, at).1)
  {
    if Reconcile(tables, evidenceId, at).1 != tables {
      ReconcileChanges(tables, evidenceId, at);
      var e := tables.envelopes[evidenceId];
      assert RowOk(tables, e.taskId);
      ReplacedRowKeepsTable(tables, e.taskId, Accepted(tables.tasks[e.taskId].task, e), Truncate(at));
    }
  }

  /**
   Reconciliation succeeds on a task exactly when it accepts the envelope now, or had accepted
   that very envelope; in both cases the task carries the envelope's fence and grant.
   */
  lemma ReconcileAcceptsOneEnvelope(tables: Tables, evidenceId: string, at: Time)
    requires TasksOk(tables) && EnvelopesOk(tables)
    requires Reconcile(tables, evidenceId, at).0.Success?
    ensures evidenceId in tables.envelopes
    ensures var e, t := tables.envelopes[evidenceId], Reconcile(tables, evidenceId, at).0.value;
            && t.authority.id == e.taskId && t.state.Succeeded? && t.acceptedEvidenceId == evidenceId
            && t.acceptedAttemptId == e.attemptId && t.fencingToken == e.fencingToken
            && t.executionGrantId == e.executionGrantId && t.authority.tenantId == e.tenantId
            && e.taskId in Reconcile(tables, evidenceId, at).1.tasks
            && Reconcile(tables, evidenceId, at).1.tasks[e.taskId].task == t
  {
    assert RowOk(tables, tables.envelopes[evidenceId].taskId);
  }

  /** A closed epoch's evidence is never accepted, and an accepted task accepts nothing else. */
  lemma ReconcileRespectsFence(tables: Tables, evidenceId: string, at: Time)
    requires TasksOk(tables) && EnvelopesOk(tables) && evidenceId in tables.envelopes
    ensures var e := tables.envelopes[evidenceId];
            var t := tables.tasks[e.taskId].task;
            && (Closed(t, e.fencingToken) ==> Reconcile(tables, evidenceId, at).0.Failure?)
            && (t.state.Succeeded? ==> Reconcile(tables, evidenceId, at).1 == tables)
            && (t.state.Succeeded? && t.acceptedEvidenceId != evidenceId ==> Reconcile(tables, evidenceId, at).0.Failure?)
  {
    assert RowOk(tables, tables.envelopes[evidenceId].taskId);
  }
}
