/**
 Signed evidence envelopes: assembly for the active attempt (internal/evidence/evidence.go, called
 by internal/evidence/pipeline.go) and append-only persistence (internal/evidence/repository.go).
 Signing and hashing are abstract: the envelope's identifier and content are inputs.
 */
module Evidence {
  import opened Wrappers
  import opened Clock
  import opened Text
  import opened CollectorTask
  import opened BrokerDatabase

  datatype EvidenceError = Incomplete | NotCurrentAttempt(cause: TaskError) | NotFound | Conflict | Refused

  /** What the pipeline derived from the captured bytes before assembly. */
  datatype Sealed = Sealed(evidenceId: string, observedAt: Time, validUntil: Time, content: string)

  function AttemptId(taskId: string, token: nat): string
  {
    "attempt-" + (taskId + ['-'] + Decimal(token))
  }

  /** Attempts of different tasks or different fences have different identifiers. */
  lemma AttemptIdInjective(id1: string, t1: nat, id2: string, t2: nat)
    requires AttemptId(id1, t1) == AttemptId(id2, t2)
    ensures id1 == id2 && t1 == t2
  {
    DecimalReadsBack(t1);
    DecimalReadsBack(t2);
    assert AttemptId(id1, t1)[8..] == id1 + ['-'] + Decimal(t1);
    assert AttemptId(id2, t2)[8..] == id2 + ['-'] + Decimal(t2);
    SplitAtLast(id1, Decimal(t1), id2, Decimal(t2), '-');
    DecimalInjective(t1, t2);
  }

  /** `validateInput`, for the fields that identify the attempt. */
  predicate CompleteInput(task: Task, owner: string, token: nat, sealed: Sealed, now: Time)
  {
    var a := task.authority;
    && a.tenantId != "" && a.claimFingerprint != "" && a.id != "" && a.targetSnapshotId != ""
    && a.targetId != "" && a.recipeId != "" && a.recipeVersion != "" && a.triggerDecisionId != ""
    && a.planningDecisionId != "" && a.compatibilityHash != ""
    && task.executionDecisionId != "" && task.executionGrantId != "" && owner != ""
    && token > 0 && now != ZERO && sealed.validUntil > sealed.observedAt
  }

  /** `AssembleContext`: an envelope for the worker's copy of the task, if the database still has its attempt. */
  function Assemble(tables: Tables, task: Task, owner: string, token: nat, sealed: Sealed, now: Time)
    : Result<Envelope, EvidenceError>
  {
    var id := task.authority.id;
    if !CompleteInput(task, owner, token, sealed, now) then Failure(Incomplete)
    else if id !in tables.tasks then Failure(NotCurrentAttempt(TaskNotFound))
    else match VerifyAttempt(tables.tasks[id].task, owner, token, now)
      case Fail(e) => Failure(NotCurrentAttempt(e))
      case Pass =>
        Success(Envelope(sealed.evidenceId, task.authority.tenantId, id, AttemptId(id, token), token,
                         task.executionGrantId, task.authority.targetId, task.authority.recipeId, owner,
                         sealed.observedAt, sealed.validUntil, sealed.content))
  }

  const MAXIMUM_ENVELOPE_FIELD: nat := 2048

  predicate Bounded(value: string)
  {
    1 <= |value| <= MAXIMUM_ENVELOPE_FIELD
  }

  /** `validatePersistedEnvelope`. */
  predicate Persistable(e: Envelope)
  {
    && Bounded(e.evidenceId) && Bounded(e.tenantId) && Bounded(e.taskId) && Bounded(e.targetId)
    && Bounded(e.recipeId) && Bounded(e.attemptId) && Bounded(e.collectorId)
    && e.fencingToken > 0 && e.observedAt != ZERO && e.validUntil > e.observedAt && e.content != ""
  }

  /** The constraints on a new envelope row: bounded columns, one envelope per attempt, a known task. */
  predicate EnvelopeAllowed(tables: Tables, e: Envelope)
  {
    && Identity(e.evidenceId) && Identity(e.tenantId) && Identity(e.taskId) && Identity(e.attemptId)
    && Identity(e.targetId) && Identity(e.recipeId) && Identity(e.executionGrantId)
    && e.taskId in tables.tasks && tables.tasks[e.taskId].task.authority.tenantId == e.tenantId
    && forall id :: id in tables.envelopes ==>
                      !(tables.envelopes[id].tenantId == e.tenantId && tables.envelopes[id].taskId == e.taskId
                        && tables.envelopes[id].attemptId == e.attemptId)
  }

  function Create(tables: Tables, e: Envelope): (Outcome<EvidenceError>, Tables)
  {
    if !Persistable(e) then (Fail(Incomplete), tables)
    else if e.evidenceId in tables.envelopes then
      var stored := tables.envelopes[e.evidenceId];
      if stored.tenantId != e.tenantId then (Fail(NotFound), tables)
      else if stored != e then (Fail(Conflict), tables)
      else (Pass, tables)
    else if !EnvelopeAllowed(tables, e) then (Fail(Refused), tables)
    else (Pass, tables.(envelopes := tables.envelopes[e.evidenceId := e]))
  }

  class EnvelopeRepository {
    const database: Database

    constructor (database: Database)
      ensures this.database == database
    {
      this.database := database;
    }

    method CreateContext(e: Envelope) returns (r: Outcome<EvidenceError>)
      modifies database
      ensures var (outcome, after) := Create(old(database.tables), e);
              r == outcome && database.tables == after
    {
      if !Persistable(e) {
        return Fail(Incomplete);
      }
      var rows := 0;
      if e.evidenceId !in database.tables.envelopes {
        if !EnvelopeAllowed(database.tables, e) {
          return Fail(Refused);
        }
        database.tables := database.tables.(envelopes := database.tables.envelopes[e.evidenceId := e]);
        rows := 1;
      }
      if rows == 1 {
        return Pass;
      }
      var stored := database.tables.envelopes[e.evidenceId];
      if stored.tenantId != e.tenantId {
        return Fail(NotFound);
      }
      if stored.evidenceId != e.evidenceId || stored != e {
        return Fail(Conflict);
      }
      return Pass;
    }
  }

  /**
   Persistence is append-only: success means exactly this envelope is stored under its identifier,
   failure changes nothing, nothing stored is ever replaced, and storing it again changes nothing.
   */
  lemma CreateAppends(tables: Tables, e: Envelope)
    ensures var (r, after) := Create(tables, e);
            && (r.Pass? ==> e.evidenceId in after.envelopes && after.envelopes[e.evidenceId] == e)
            && (r.Fail? ==> after == tables)
            && (forall id :: id in tables.envelopes ==> id in after.envelopes && after.envelopes[id] == tables.envelopes[id])
            && (forall id :: id in after.envelopes ==> id in tables.envelopes || (id == e.evidenceId && r.Pass?))
            && after.tasks == tables.tasks && after.consumptions == tables.consumptions
            && (r.Pass? ==> Create(after, e) == (Pass, after))
  {
  }

  /**
   Evidence is assembled exactly for the attempt that the database shows in force: the caller owns the
   task's current epoch, its lease has not expired and it is executing or committing; and everything the
   envelope is to name is there. The envelope then names that task, attempt, fence and collector.
   */
  lemma AssembledExactlyWhen(tables: Tables, task: Task, owner: string, token: nat, sealed: Sealed, now: Time)
    ensures var a, res := task.authority, Assemble(tables, task, owner, token, sealed, now);
            && (res.Success? <==>
                  && "" !in {a.tenantId, a.claimFingerprint, a.id, a.targetSnapshotId, a.targetId, a.recipeId, a.recipeVersion,
                             a.triggerDecisionId, a.planningDecisionId, a.compatibilityHash, task.executionDecisionId,
                             task.executionGrantId, owner}
                  && token > 0 && now != ZERO && sealed.observedAt < sealed.validUntil
                  && a.id in tables.tasks
                  && var t := tables.tasks[a.id].task;
                     && t.leaseOwner == owner && t.fencingToken == token && now < t.leaseExpiry
                     && t.state in {Executing, Committing})
            && (res.Success? ==>
                  && res.value.tenantId == a.tenantId && res.value.taskId == a.id && res.value.fencingToken == token
                  && res.value.attemptId == AttemptId(a.id, token) && res.value.collectorId == owner
                  && res.value.executionGrantId == task.executionGrantId && res.value.targetId == a.targetId
                  && res.value.recipeId == a.recipeId && res.value.evidenceId == sealed.evidenceId
                  && res.value.observedAt == sealed.observedAt && res.value.validUntil == sealed.validUntil
                  && res.value.content == sealed.content)
  {
  }

  /** The envelope is whole, its identifiers fit their columns, and it is valid for some time after its observation. */
  predicate Whole(e: Envelope)
  {
    && 1 <= |e.evidenceId| <= 512 && 1 <= |e.tenantId| <= 512 && 1 <= |e.taskId| <= 512 && 1 <= |e.attemptId| <= 512
    && 1 <= |e.targetId| <= 512 && 1 <= |e.recipeId| <= 512 && 1 <= |e.executionGrantId| <= 512
    && 1 <= |e.collectorId| <= 2048 && e.fencingToken > 0 && ZERO < e.observedAt < e.validUntil && e.content != ""
  }

  /**
   A new envelope is stored exactly when it is whole, its tenant has its task, and the attempt left no other
   envelope. Under an identifier in use, only the very same envelope of its tenant passes.
   */
  lemma StoredExactlyWhen(tables: Tables, e: Envelope)
    ensures e.evidenceId !in tables.envelopes ==>
              (Create(tables, e).0.Pass? <==>
                 && Whole(e) && e.taskId in tables.tasks && tables.tasks[e.taskId].task.authority.tenantId == e.tenantId
                 && forall id :: id in tables.envelopes ==>
                                   !(tables.envelopes[id].tenantId == e.tenantId && tables.envelopes[id].taskId == e.taskId
                                     && tables.envelopes[id].attemptId == e.attemptId))
    ensures Create(tables, e).0.Pass? && e.evidenceId in tables.envelopes ==> tables.envelopes[e.evidenceId] == e
    ensures e.evidenceId in tables.envelopes && Whole(e) ==>
              Create(tables, e) == (if tables.envelopes[e.evidenceId] == e then Pass
                                    else if tables.envelopes[e.evidenceId].tenantId != e.tenantId then Fail(NotFound)
                                    else Fail(Conflict), tables)
  {
  }

  /** No attempt of a task has two envelopes. */
  predicate OnePerAttempt(envelopes: map<string, Envelope>)
  {
    forall x, y :: x in envelopes && y in envelopes && x != y ==>
                     !(envelopes[x].tenantId == envelopes[y].tenantId && envelopes[x].taskId == envelopes[y].taskId
                       && envelopes[x].attemptId == envelopes[y].attemptId)
  }

  lemma CreateKeepsOnePerAttempt(tables: Tables, e: Envelope)
    requires OnePerAttempt(tables.envelopes)
    ensures OnePerAttempt(Create(tables, e).1.envelopes)
  {
  }
}
