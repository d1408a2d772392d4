/**
 The PostgreSQL tables shared by collectors, the credential broker and the evidence pipeline, with
 the constraints of migrations 000007, 000008, 000010 and 000011. A statement that breaks a
 constraint fails and changes nothing.
 */
module BrokerDatabase {
  import opened Wrappers
  import opened Clock
  import opened CollectorTask

  datatype TaskRow = TaskRow(task: Task, createdAt: Time)

  /** A signed evidence envelope; `content` stands for the rest of its document. */
  datatype Envelope = Envelope(
    evidenceId: string, tenantId: string, taskId: string, attemptId: string, fencingToken: nat,
    executionGrantId: string, targetId: string, recipeId: string, collectorId: string,
    observedAt: Time, validUntil: Time, content: string)

  /** One exchanged execution grant. */
  datatype Consumption = Consumption(
    grantId: string, nonceDigest: string, grantDigest: string, tenantId: string, taskId: string,
    collectorId: string, targetId: string, recipeId: string, recipeVersion: string,
    fencingToken: int, grantExpiresAt: Time, requestedAt: Time)

  datatype ConsumptionRow = ConsumptionRow(consumption: Consumption, consumedAt: Time)

  datatype Tables = Tables(
    tasks: map<string, TaskRow>, envelopes: map<string, Envelope>, consumptions: map<string, ConsumptionRow>)

  class Database {
    var tables: Tables

    constructor ()
      ensures tables == Tables(map[], map[], map[])
    {
      tables := Tables(map[], map[], map[]);
    }
  }

  const MAXIMUM_IDENTITY: nat := 512

  predicate Identity(value: string)
  {
    1 <= |value| <= MAXIMUM_IDENTITY
  }

  predicate OptionalIdentity(value: string)
  {
    |value| <= MAXIMUM_IDENTITY
  }

  /** The columns `validateDurableTask` and the schema require of every task. */
  predicate CompleteAuthority(a: Authority)
  {
    && Identity(a.id) && Identity(a.tenantId) && Identity(a.resolutionId) && Identity(a.claimFingerprint)
    && Identity(a.targetSnapshotId) && Identity(a.targetSnapshotHash) && Identity(a.targetId)
    && Identity(a.recipeId) && Identity(a.recipeVersion) && Identity(a.triggerDecisionId)
    && Identity(a.planningDecisionId) && Identity(a.compatibilityHash)
  }

  /** The CHECK constraints of `broker_collector_tasks`, for a row last updated at `updatedAt`. */
  predicate RowChecks(row: TaskRow, updatedAt: Time)
  {
    var t := row.task;
    && !t.state.Unset?
    && CompleteAuthority(t.authority)
    && |t.authority.targetEndpoint| <= 2048 && OptionalIdentity(t.authority.approvalGrantId)
    && OptionalIdentity(t.executionDecisionId) && OptionalIdentity(t.executionGrantId)
    && OptionalIdentity(t.leaseOwner) && OptionalIdentity(t.acceptedAttemptId)
    && OptionalIdentity(t.acceptedEvidenceId)
    && (t.executionDecisionId == "" <==> t.executionGrantId == "")
    && (t.acceptedAttemptId == "" <==> t.acceptedEvidenceId == "")
    && (t.state.Succeeded? <==> t.acceptedAttemptId != "")
    && (t.state.Active() ==> t.leaseOwner != "" && t.leaseExpiry != ZERO && t.fencingToken > 0)
    && (t.state.Available() ==> t.leaseOwner == "" && t.leaseExpiry == ZERO)
    && |t.lastError| <= MAXIMUM_ERROR_RUNES
    && updatedAt >= row.createdAt
  }

  /** The partial unique indexes on accepted attempts and accepted evidence. */
  predicate UniqueAcceptance(tasks: map<string, TaskRow>, id: string, t: Task)
  {
    t.acceptedAttemptId != "" ==>
      forall other :: other in tasks && other != id ==>
                        && tasks[other].task.acceptedAttemptId != t.acceptedAttemptId
                        && tasks[other].task.acceptedEvidenceId != t.acceptedEvidenceId
  }

  /** The foreign key from a task's accepted evidence to the envelope of that tenant and task. */
  predicate AcceptedEvidenceExists(envelopes: map<string, Envelope>, t: Task)
  {
    t.acceptedEvidenceId != "" ==>
      && t.acceptedEvidenceId in envelopes
      && envelopes[t.acceptedEvidenceId].tenantId == t.authority.tenantId
      && envelopes[t.acceptedEvidenceId].taskId == t.authority.id
  }

  predicate RowAllowed(tables: Tables, id: string, row: TaskRow, updatedAt: Time)
  {
    && RowChecks(row, updatedAt)
    && UniqueAcceptance(tables.tasks, id, row.task)
    && AcceptedEvidenceExists(tables.envelopes, row.task)
  }

  /** Replaces task row `id` by `t`, unless a constraint refuses the new row. */
  function UpdateTask(tables: Tables, id: string, t: Task, updatedAt: Time): Result<Tables, TaskError>
    requires id in tables.tasks
  {
    var row := tables.tasks[id].(task := t);
    if RowAllowed(tables, id, row, updatedAt) then Success(tables.(tasks := tables.tasks[id := row]))
    else Failure(ConstraintViolated)
  }
}
