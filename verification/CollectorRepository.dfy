/**
 The durable task repository (internal/collector/postgres_repository.go): every change is one
 guarded UPDATE with times truncated to microseconds. It refines the in-memory `Store`: each
 UPDATE does what the store does with the truncated command, unless a constraint refuses it.
 */
module CollectorRepository {
  import opened Wrappers
  import opened Clock
  import opened CollectorTask
  import opened CollectorRuns
  import opened BrokerDatabase

  /** The input checks made before any statement is sent. */
  predicate DurableInput(id: string, c: Command)
  {
    match c
    case Acquire(owner, now, duration) => id != "" && owner != "" && now != ZERO && TruncateDuration(duration) > 0
    case Renew(owner, token, now, duration) =>
      id != "" && owner != "" && now != ZERO && TruncateDuration(duration) > 0 && token > 0
    case RecordAuthority(_, _, decisionId, grantId, _) => decisionId != "" && grantId != ""
    case Commit(_, _, attemptId, evidenceId, _) => attemptId != "" && evidenceId != ""
    case _ => true
  }

  /** The states an UPDATE requires of an owned task. */
  function GuardStates(c: Command): seq<TaskState>
  {
    match c
    case Acquire(_, _, _) => [Queued, RetryWait]
    case Renew(_, _, _, _) => [Leased, Executing]
    case StartExecution(_, _, _) => [Leased]
    case RecordAuthority(_, _, _, _, _) => [Executing]
    case BeginCommit(_, _, _) => [Executing]
    case Commit(_, _, _, _, _) => [Committing]
    case Retry(_, _, _, _) => [Leased, Executing, Committing]
  }

  /** `WHERE lease_owner = $2 AND fencing_token = $3 AND state IN (...) AND lease_expiry > $now`; NULL matches nothing. */
  predicate OwnedGuard(t: Task, owner: string, token: int, states: seq<TaskState>, now: Time)
  {
    && t.leaseOwner != "" && t.leaseOwner == owner && t.fencingToken == token
    && t.state in states && t.leaseExpiry > Truncate(now)
  }

  predicate Guard(t: Task, c: Command)
  {
    match c
    case Acquire(_, now, _) =>
      t.state in GuardStates(c) || (t.state in [Leased, Executing, Committing] && t.leaseExpiry <= Truncate(now))
    case Commit(owner, token, _, _, now) =>
      OwnedGuard(t, owner, token, GuardStates(c), now) && t.acceptedAttemptId == "" && t.acceptedEvidenceId == ""
    case _ => OwnedGuard(t, c.owner, c.token, GuardStates(c), c.now)
  }

  /** The SET clause. */
  function Assigned(t: Task, c: Command): Task
    requires (c.Acquire? || c.Renew?) ==> TruncateDuration(c.duration) > 0
  {
    match c
    case Acquire(owner, now, duration) =>
      t.(state := Leased, leaseOwner := owner, leaseExpiry := After(Truncate(now), TruncateDuration(duration)),
         fencingToken := t.fencingToken + 1, attemptCount := t.attemptCount + 1,
         executionDecisionId := "", executionGrantId := "", lastError := "")
    case Renew(_, _, now, duration) => t.(leaseExpiry := After(Truncate(now), TruncateDuration(duration)))
    case StartExecution(_, _, _) => t.(state := Executing)
    case RecordAuthority(_, _, decisionId, grantId, _) =>
      t.(executionDecisionId := decisionId, executionGrantId := grantId)
    case BeginCommit(_, _, _) => t.(state := Committing)
    case Commit(_, _, attemptId, evidenceId, _) =>
      t.(acceptedAttemptId := attemptId, acceptedEvidenceId := evidenceId, state := Succeeded)
    case Retry(_, _, _, cause) =>
      t.(state := RetryWait, leaseOwner := "", leaseExpiry := ZERO,
         lastError := if cause.Some? then BoundedError(cause.value) else "")
  }

  /** The error reported when no row matched, from a fresh read of the row. */
  function Classify(tables: Tables, id: string, c: Command): TaskError
  {
    if id == "" then InvalidInput
    else if id !in tables.tasks then TaskNotFound
    else
      var t := tables.tasks[id].task;
      if c.Acquire? then (if t.state.Active() && c.now < t.leaseExpiry then LeaseHeld else InvalidState)
      else if c.Commit? && t.acceptedAttemptId != "" then DuplicateCommit
      else match RequireLease(t, c.owner, c.token, c.now)
           case Fail(e) => e
           case Pass => if !c.Commit? && t.state in GuardStates(c) then StaleFence else InvalidState
  }

  function DurableCall(tables: Tables, id: string, c: Command): (Result<Task, TaskError>, Tables)
  {
    if !DurableInput(id, c) then (Failure(InvalidInput), tables)
    else if id in tables.tasks && Guard(tables.tasks[id].task, c) then
      var t := Assigned(tables.tasks[id].task, c);
      match UpdateTask(tables, id, t, Truncate(c.now))
      case Success(after) => (Success(t), after)
      case Failure(e) => (Failure(e), tables)
    else (Failure(Classify(tables, id, c)), tables)
  }

  /** The columns an INSERT leaves to their defaults. */
  function NewTask(a: Authority): Task
  {
    Task(a, Queued, 0, "", ZERO, 0, "", "", "", "", "")
  }

  /** `AddContext` inserts only the authority and the state; a new row is always fresh. */
  function AddRow(tables: Tables, task: Task, createdAt: Time): (Outcome<TaskError>, Tables)
  {
    var id := task.authority.id;
    if !CompleteAuthority(task.authority) then (Fail(InvalidInput), tables)
    else if !task.state.Unset? && !task.state.Queued? then (Fail(InvalidState), tables)
    else if id in tables.tasks || |task.authority.targetEndpoint| > 2048 ||
            !OptionalIdentity(task.authority.approvalGrantId) then (Fail(ConstraintViolated), tables)
    else (Pass, tables.(tasks := tables.tasks[id := TaskRow(NewTask(task.authority), createdAt)]))
  }

  // ----- The repository

  class PostgresRepository {
    const database: Database

    constructor (database: Database)
      ensures this.database == database
    {
      this.database := database;
    }

    method AddContext(task: Task, createdAt: Time) returns (r: Outcome<TaskError>)
      modifies database
      ensures var (outcome, after) := AddRow(old(database.tables), task, createdAt);
              r == outcome && database.tables == after
    {
      if !CompleteAuthority(task.authority) {
        return Fail(InvalidInput);
      }
      if !task.state.Unset? && !task.state.Queued? {
        return Fail(InvalidState);
      }
      var row := TaskRow(NewTask(task.authority), createdAt);
      if task.authority.id in database.tables.tasks || !RowChecks(row, createdAt) {
        return Fail(ConstraintViolated);
      }
      database.tables := database.tables.(tasks := database.tables.tasks[task.authority.id := row]);
      return Pass;
    }

    /** Runs `UPDATE ... WHERE id = $1 AND guard`; reports whether a row matched. */
    method Execute(id: string, matched: bool, t: Task, updatedAt: Time) returns (r: Outcome<TaskError>, rows: nat)
      requires matched ==> id in database.tables.tasks
      modifies database
      ensures rows == if matched && r.Pass? then 1 else 0
      ensures !matched ==> r.Pass? && database.tables == old(database.tables)
      ensures matched ==> match UpdateTask(old(database.tables), id, t, updatedAt)
                          case Success(after) => r.Pass? && database.tables == after
                          case Failure(e) => r == Fail(e) && database.tables == old(database.tables)
    {
      if !matched {
        return Pass, 0;
      }
      var updated := UpdateTask(database.tables, id, t, updatedAt);
      if updated.Failure? {
        return Fail(updated.error), 0;
      }
      database.tables := updated.value;
      return Pass, 1;
    }

    method AcquireContext(id: string, owner: string, now: Time, duration: Duration)
      returns (r: Result<Lease, TaskError>)
      modifies database
      ensures var (outcome, after) := DurableCall(old(database.tables), id, Acquire(owner, now, duration));
              r == LeaseResult(outcome) && database.tables == after
    {
      if id == "" || owner == "" {
        return Failure(InvalidInput);
      }
      if now == ZERO || TruncateDuration(duration) <= 0 {
        return Failure(InvalidInput);
      }
      var at := Truncate(now);
      if id in database.tables.tasks {
        var t := database.tables.tasks[id].task;
        if t.state.Available() || (t.state.Active() && t.leaseExpiry <= at) {
          t := t.(state := Leased, leaseOwner := owner, leaseExpiry := at + TruncateDuration(duration),
                  fencingToken := t.fencingToken + 1, attemptCount := t.attemptCount + 1,
                  executionDecisionId := "", executionGrantId := "", lastError := "");
          var err, _ := Execute(id, true, t, at);
          if err.Fail? {
            return Failure(err.error);
          }
          return Success(LeaseFor(t));
        }
      }
      return Failure(Classify(database.tables, id, Acquire(owner, now, duration)));
    }

    method RenewContext(id: string, owner: string, token: int, now: Time, duration: Duration)
      returns (r: Result<Lease, TaskError>)
      modifies database
      ensures var (outcome, after) := DurableCall(old(database.tables), id, Renew(owner, token, now, duration));
              r == LeaseResult(outcome) && database.tables == after
    {
      if id == "" || owner == "" || now == ZERO || TruncateDuration(duration) <= 0 || token <= 0 {
        return Failure(InvalidInput);
      }
      var states := [Leased, Executing];
      if id in database.tables.tasks && OwnedGuard(database.tables.tasks[id].task, owner, token, states, now) {
        var t := database.tables.tasks[id].task;
        t := t.(leaseExpiry := Truncate(now) + TruncateDuration(duration));
        var err, _ := Execute(id, true, t, Truncate(now));
        if err.Fail? {
          return Failure(err.error);
        }
        return Success(LeaseFor(t));
      }
      var e := ClassifyOwned(id, owner, token, now, states);
      return Failure(e);
    }

    /** `classifyOwned`: why an owned UPDATE matched no row. */
    method ClassifyOwned(id: string, owner: string, token: int, now: Time, states: seq<TaskState>)
      returns (e: TaskError)
      ensures e == if id == "" then InvalidInput
                   else if id !in database.tables.tasks then TaskNotFound
                   else match RequireLease(database.tables.tasks[id].task, owner, token, now)
                        case Fail(err) => err
                        case Pass => if database.tables.tasks[id].task.state in states then StaleFence else InvalidState
    {
      if id == "" {
        return InvalidInput;
      }
      if id !in database.tables.tasks {
        return TaskNotFound;
      }
      var t := database.tables.tasks[id].task;
      var held := RequireLease(t, owner, token, now);
      if held.Fail? {
        return held.error;
      }
      for i := 0 to |states|
        invariant t.state !in states[..i]
      {
        if t.state == states[i] {
          return StaleFence;
        }
      }
      return InvalidState;
    }

    method TransitionOwned(id: string, owner: string, token: int, now: Time, from: TaskState, to: TaskState)
      returns (r: Outcome<TaskError>)
      modifies database
      ensures var tables := old(database.tables);
              if id in tables.tasks && OwnedGuard(tables.tasks[id].task, owner, token, [from], now) then
                match UpdateTask(tables, id, tables.tasks[id].task.(state := to), Truncate(now))
                case Success(after) => r.Pass? && database.tables == after
                case Failure(e) => r == Fail(e) && database.tables == tables
              else
                && database.tables == tables
                && r == Fail(if id == "" then InvalidInput
                             else if id !in tables.tasks then TaskNotFound
                             else match RequireLease(tables.tasks[id].task, owner, token, now)
                                  case Fail(err) => err
                                  case Pass => if tables.tasks[id].task.state in [from] then StaleFence
                                               else InvalidState)
    {
      if id in database.tables.tasks && OwnedGuard(database.tables.tasks[id].task, owner, token, [from], now) {
        var err, _ := Execute(id, true, database.tables.tasks[id].task.(state := to), Truncate(now));
        return err;
      }
      var e := ClassifyOwned(id, owner, token, now, [from]);
      return Fail(e);
    }

    method StartExecutionContext(id: string, owner: string, token: int, now: Time) returns (r: Outcome<TaskError>)
      modifies database
      ensures var (outcome, after) := DurableCall(old(database.tables), id, StartExecution(owner, token, now));
              r == ErrorOf(outcome) && database.tables == after
    {
      r := TransitionOwned(id, owner, token, now, Leased, Executing);
    }

    method BeginCommitContext(id: string, owner: string, token: int, now: Time) returns (r: Outcome<TaskError>)
      modifies database
      ensures var (outcome, after) := DurableCall(old(database.tables), id, BeginCommit(owner, token, now));
              r == ErrorOf(outcome) && database.tables == after
    {
      r := TransitionOwned(id, owner, token, now, Executing, Committing);
    }

    method RecordExecutionAuthorityContext(id: string, owner: string, token: int, decisionId: string,
                                           grantId: string, now: Time)
      returns (r: Outcome<TaskError>)
      modifies database
      ensures var (outcome, after) :=
                DurableCall(old(database.tables), id, RecordAuthority(owner, token, decisionId, grantId, now));
              r == ErrorOf(outcome) && database.tables == after
    {
      if decisionId == "" || grantId == "" {
        return Fail(InvalidInput);
      }
      if id in database.tables.tasks && OwnedGuard(database.tables.tasks[id].task, owner, token, [Executing], now) {
        var t := database.tables.tasks[id].task;
        t := t.(executionDecisionId := decisionId, executionGrantId := grantId);
        var err, _ := Execute(id, true, t, Truncate(now));
        return err;
      }
      var e := ClassifyOwned(id, owner, token, now, [Executing]);
      return Fail(e);
    }

    method CommitContext(id: string, owner: string, token: int, attemptId: string, evidenceId: string, now: Time)
      returns (r: Outcome<TaskError>)
      modifies database
      ensures var (outcome, after) :=
                DurableCall(old(database.tables), id, Commit(owner, token, attemptId, evidenceId, now));
              r == ErrorOf(outcome) && database.tables == after
    {
      if attemptId == "" || evidenceId == "" {
        return Fail(InvalidInput);
      }
      var matched := false;
      if id in database.tables.tasks {
        var t := database.tables.tasks[id].task;
        matched := OwnedGuard(t, owner, token, [Committing], now) && t.acceptedAttemptId == "" && t.acceptedEvidenceId == "";
        if matched {
          t := t.(acceptedAttemptId := attemptId, acceptedEvidenceId := evidenceId, state := Succeeded);
          var err, _ := Execute(id, true, t, Truncate(now));
          return err;
        }
      }
      if id == "" {
        return Fail(InvalidInput);
      }
      if id !in database.tables.tasks {
        return Fail(TaskNotFound);
      }
      var t := database.tables.tasks[id].task;
      if t.acceptedAttemptId != "" {
        return Fail(DuplicateCommit);
      }
      var held := RequireLease(t, owner, token, now);
      if held.Fail? {
        return held;
      }
      return Fail(InvalidState);
    }

    method RetryContext(id: string, owner: string, token: int, now: Time, cause: Option<string>)
      returns (r: Outcome<TaskError>)
      modifies database
      ensures var (outcome, after) := DurableCall(old(database.tables), id, Retry(owner, token, now, cause));
              r == ErrorOf(outcome) && database.tables == after
    {
      var lastError := "";
      if cause.Some? {
        lastError := BoundedError(cause.value);
      }
      var states := [Leased, Executing, Committing];
      if id in database.tables.tasks && OwnedGuard(database.tables.tasks[id].task, owner, token, states, now) {
        var t := database.tables.tasks[id].task;
        t := t.(state := RetryWait, leaseOwner := "", leaseExpiry := ZERO, lastError := lastError);
        var err, _ := Execute(id, true, t, Truncate(now));
        return err;
      }
      var e := ClassifyOwned(id, owner, token, now, states);
      return Fail(e);
    }

    method VerifyCurrentAttempt(id: string, collectorId: string, token: int, at: Time) returns (r: Outcome<TaskError>)
      ensures id == "" ==> r == Fail(InvalidInput)
      ensures id != "" && id !in database.tables.tasks ==> r == Fail(TaskNotFound)
      ensures id != "" && id in database.tables.tasks ==>
                r == VerifyAttempt(database.tables.tasks[id].task, collectorId, token, at)
    {
      if id == "" {
        return Fail(InvalidInput);
      }
      if id !in database.tables.tasks {
        return Fail(TaskNotFound);
      }
      var t := database.tables.tasks[id].task;
      var held := RequireLease(t, collectorId, token, at);
      if held.Fail? {
        return held;
      }
      if !t.state.Executing? && !t.state.Committing? {
        return Fail(InvalidState);
      }
      return Pass;
    }
  }

  // ----- Refinement of the store

  /** The command as the database keeps it. */
  function Truncated(c: Command): Command
  {
    match c
    case Acquire(owner, now, duration) => Acquire(owner, Truncate(now), TruncateDuration(duration))
    case Renew(owner, token, now, duration) => Renew(owner, token, Truncate(now), TruncateDuration(duration))
    case StartExecution(owner, token, now) => StartExecution(owner, token, Truncate(now))
    case RecordAuthority(owner, token, decisionId, grantId, now) =>
      RecordAuthority(owner, token, decisionId, grantId, Truncate(now))
    case BeginCommit(owner, token, now) => BeginCommit(owner, token, Truncate(now))
    case Commit(owner, token, attemptId, evidenceId, now) =>
      Commit(owner, token, attemptId, evidenceId, Truncate(now))
    case Retry(owner, token, now, cause) => Retry(owner, token, Truncate(now), cause)
  }

  /** Rows as the repository leaves them. */
  predicate RowOk(tables: Tables, id: string)
    requires id in tables.tasks
  {
    var row := tables.tasks[id];
    && Consistent(row.task) && row.task.authority.id == id
    && Aligned(row.task.leaseExpiry) && row.createdAt > ZERO
    && RowAllowed(tables, id, row, row.createdAt)
  }

  predicate TasksOk(tables: Tables)
  {
    forall id {:trigger RowOk(tables, id)} :: id in tables.tasks ==> RowOk(tables, id)
  }

  /**
   What every stored row shows: a complete authority within its columns; an owner, an expiry and a fence
   exactly while someone works on it; decision and grant together; an accepted attempt and its evidence
   exactly when it has succeeded, and then evidence that exists for this tenant and task and for no other.
   */
  lemma RowsAreComplete(tables: Tables, id: string)
    requires TasksOk(tables) && id in tables.tasks
    ensures var row := tables.tasks[id];
            var t, a := row.task, row.task.authority;
            && a.id == id && 1 <= |id| <= 512 && 1 <= |a.tenantId| <= 512 && 1 <= |a.resolutionId| <= 512
            && 1 <= |a.claimFingerprint| <= 512 && 1 <= |a.targetSnapshotId| <= 512 && 1 <= |a.targetSnapshotHash| <= 512
            && 1 <= |a.targetId| <= 512 && 1 <= |a.recipeId| <= 512 && 1 <= |a.recipeVersion| <= 512
            && 1 <= |a.triggerDecisionId| <= 512 && 1 <= |a.planningDecisionId| <= 512 && 1 <= |a.compatibilityHash| <= 512
            && |a.targetEndpoint| <= 2048 && |a.approvalGrantId| <= 512 && |t.lastError| <= 2048
            && |t.executionDecisionId| <= 512 && |t.executionGrantId| <= 512 && |t.leaseOwner| <= 512
            && |t.acceptedAttemptId| <= 512 && |t.acceptedEvidenceId| <= 512
            && t.state != Unset && (t.executionDecisionId == "" <==> t.executionGrantId == "")
            && (t.state in {Leased, Executing, Committing} ==> t.leaseOwner != "" && t.leaseExpiry > ZERO && t.fencingToken > 0)
            && (t.state in {Queued, RetryWait} ==> t.leaseOwner == "" && t.leaseExpiry == ZERO)
            && (t.state == Succeeded <==> t.acceptedAttemptId != "") && (t.state == Succeeded <==> t.acceptedEvidenceId != "")
            && (t.state == Succeeded ==>
                  && t.acceptedEvidenceId in tables.envelopes
                  && tables.envelopes[t.acceptedEvidenceId].tenantId == a.tenantId
                  && tables.envelopes[t.acceptedEvidenceId].taskId == id
                  && forall other :: other in tables.tasks && other != id ==>
                                       && tables.tasks[other].task.acceptedEvidenceId != t.acceptedEvidenceId
                                       && tables.tasks[other].task.acceptedAttemptId != t.acceptedAttemptId)
  {
    assert RowOk(tables, id);
  }

  /** What the schema asks of a permitted command, beyond what the store asks. */
  predicate Admissible(tables: Tables, id: string, c: Command)
    requires id in tables.tasks
  {
    && Truncate(c.now) >= tables.tasks[id].createdAt
    && (c.Acquire? ==> OptionalIdentity(c.owner))
    && (c.RecordAuthority? ==> OptionalIdentity(c.decisionId) && OptionalIdentity(c.grantId))
    && (c.Commit? ==>
          var t := tables.tasks[id].task.(acceptedAttemptId := c.attemptId, acceptedEvidenceId := c.evidenceId);
          && OptionalIdentity(c.attemptId) && OptionalIdentity(c.evidenceId)
          && UniqueAcceptance(tables.tasks, id, t) && AcceptedEvidenceExists(tables.envelopes, t))
  }

  /** On a stored row, and at an instant that is not zero, the WHERE clause is the store's permission. */
  lemma GuardIsPermission(tables: Tables, id: string, c: Command)
    requires id in tables.tasks && RowOk(tables, id)
    requires DurableInput(id, c) && Truncate(c.now) != ZERO
    ensures Guard(tables.tasks[id].task, c) <==> Permitted(tables.tasks[id].task, Truncated(c))
    ensures Guard(tables.tasks[id].task, c) ==>
              Assigned(tables.tasks[id].task, c) == Effect(tables.tasks[id].task, Truncated(c))
  {
    AlignedDeadline(tables.tasks[id].task.leaseExpiry, c.now);
  }

  lemma TruncatedAligned(c: Command)
    ensures Aligned(Truncate(c.now))
    ensures (c.Acquire? || c.Renew?) && TruncateDuration(c.duration) > 0 ==>
              TruncateDuration(c.duration) % MICROSECOND == 0
              && Aligned(After(Truncate(c.now), TruncateDuration(c.duration)))
  {
  }

  /** The new row is refused exactly when the command is inadmissible. */
  lemma AllowedIsAdmissible(tables: Tables, id: string, c: Command)
    requires id in tables.tasks && RowOk(tables, id)
    requires DurableInput(id, c) && Guard(tables.tasks[id].task, c)
    ensures RowAllowed(tables, id, tables.tasks[id].(task := Assigned(tables.tasks[id].task, c)), Truncate(c.now))
            <==> Admissible(tables, id, c)
  {
    var t, t' := tables.tasks[id].task, Assigned(tables.tasks[id].task, c);
    TruncatedAligned(c);
    if c.Commit? {
      var u := t.(acceptedAttemptId := c.attemptId, acceptedEvidenceId := c.evidenceId);
      assert UniqueAcceptance(tables.tasks, id, t') <==> UniqueAcceptance(tables.tasks, id, u);
    }
  }

  /** The input checks of the two sides differ only on commands the store would refuse anyway. */
  lemma InputIsPermission(tables: Tables, id: string, c: Command)
    requires id in tables.tasks && RowOk(tables, id) && !DurableInput(id, c)
    ensures !Permitted(tables.tasks[id].task, Truncated(c))
  {
  }

  /**
   One durable operation is the store's operation on the truncated command, plus the schema: it
   succeeds exactly when the store permits it and it is admissible, and then leaves the same task.
   */
  lemma DurableStepIsStoreStep(tables: Tables, id: string, c: Command)
    requires TasksOk(tables) && id in tables.tasks
    ensures var t, (r, after) := tables.tasks[id].task, DurableCall(tables, id, c);
            && (r.Success? <==> Permitted(t, Truncated(c)) && Admissible(tables, id, c))
            && (r.Success? ==>
                  && r.value == Effect(t, Truncated(c))
                  && after == tables.(tasks := tables.tasks[id := tables.tasks[id].(task := r.value)]))
            && (r.Failure? ==> after == tables)
  {
    assert RowOk(tables, id);
    if !DurableInput(id, c) {
      InputIsPermission(tables, id, c);
    } else if Truncate(c.now) == ZERO {
      assert !Admissible(tables, id, c);
      if Guard(tables.tasks[id].task, c) {
        AllowedIsAdmissible(tables, id, c);
      }
    } else {
      GuardIsPermission(tables, id, c);
      if Guard(tables.tasks[id].task, c) {
        AllowedIsAdmissible(tables, id, c);
      }
    }
  }

  /**
   When a refused command gets the same error from both sides. After the first microsecond only a
   renewal without owner or token differs, which the repository rejects as malformed. Before it, the
   store sees instant zero while the database still compares the deadline it stored.
   */
  predicate SameReason(id: string, t: Task, c: Command)
  {
    if Truncate(c.now) != ZERO then c.Renew? && ValidInput(Truncated(c)) ==> c.owner != "" && c.token > 0
    else if c.Acquire? || c.Renew? then !DurableInput(id, c)
    else
      || !DurableInput(id, c) || (c.Commit? && t.acceptedAttemptId != "")
      || t.leaseOwner != c.owner || t.fencingToken != c.token || t.leaseExpiry == ZERO
      || (c.now == ZERO && !Guard(t, c))
  }

  /** A refused operation is blamed for the same reason on both sides exactly under that condition. */
  lemma SameBlame(tables: Tables, id: string, c: Command)
    requires TasksOk(tables) && id in tables.tasks
    requires !Permitted(tables.tasks[id].task, Truncated(c))
    ensures DurableCall(tables, id, c).0 == Failure(Blame(tables.tasks[id].task, Truncated(c))) <==>
            SameReason(id, tables.tasks[id].task, c)
  {
    assert RowOk(tables, id);
    DurableStepIsStoreStep(tables, id, c);
    if Truncate(c.now) != ZERO {
      AlignedDeadline(tables.tasks[id].task.leaseExpiry, c.now);
      if DurableInput(id, c) {
        GuardIsPermission(tables, id, c);
      }
    } else {
      ZeroBlame(tables, id, c);
    }
  }

  lemma ZeroBlame(tables: Tables, id: string, c: Command)
    requires id in tables.tasks && RowOk(tables, id) && Truncate(c.now) == ZERO
    requires !Permitted(tables.tasks[id].task, Truncated(c))
    ensures DurableCall(tables, id, c).0 == Failure(Blame(tables.tasks[id].task, Truncated(c))) <==>
            SameReason(id, tables.tasks[id].task, c)
  {
    assert c.now < MICROSECOND;
    if DurableInput(id, c) && Guard(tables.tasks[id].task, c) {
      AllowedIsAdmissible(tables, id, c);
    }
  }

  /** What one durable operation does to the table: nothing, or one store step on one row. */
  lemma DurableStepKeepsRows(tables: Tables, id: string, c: Command)
    requires TasksOk(tables)
    ensures TasksOk(DurableCall(tables, id, c).1)
    ensures DurableCall(tables, id, c).1.envelopes == tables.envelopes
    ensures DurableCall(tables, id, c).1.consumptions == tables.consumptions
    ensures DurableCall(tables, id, c).1.tasks.Keys == tables.tasks.Keys
  {
    if id in tables.tasks {
      DurableStepIsStoreStep(tables, id, c);
      var r := DurableCall(tables, id, c).0;
      if r.Success? {
        NewRowOk(tables, id, c);
        ReplacedRowKeepsTable(tables, id, r.value, Truncate(c.now));
      }
    }
  }

  lemma NewRowOk(tables: Tables, id: string, c: Command)
    requires TasksOk(tables) && id in tables.tasks
    requires Permitted(tables.tasks[id].task, Truncated(c)) && Admissible(tables, id, c)
    ensures var t := Effect(tables.tasks[id].task, Truncated(c));
            && Consistent(t) && t.authority.id == id && Aligned(t.leaseExpiry)
            && RowAllowed(tables, id, tables.tasks[id].(task := t), Truncate(c.now))
  {
    assert RowOk(tables, id);
    TruncatedAligned(c);
    NextKeepsConsistent(tables.tasks[id].task, Truncated(c));
    if !DurableInput(id, c) {
      InputIsPermission(tables, id, c);
    } else {
      GuardIsPermission(tables, id, c);
      AllowedIsAdmissible(tables, id, c);
    }
  }

  /** Replacing one row by an allowed row leaves every row allowed. */
  lemma ReplacedRowKeepsTable(tables: Tables, id: string, t: Task, updatedAt: Time)
    requires TasksOk(tables) && id in tables.tasks
    requires Consistent(t) && t.authority.id == id && Aligned(t.leaseExpiry)
    requires RowAllowed(tables, id, tables.tasks[id].(task := t), updatedAt)
    ensures TasksOk(tables.(tasks := tables.tasks[id := tables.tasks[id].(task := t)]))
  {
    var after := tables.(tasks := tables.tasks[id := tables.tasks[id].(task := t)]);
    forall other | other in after.tasks ensures RowOk(after, other) {
      assert RowOk(tables, other);
      assert UniqueAcceptance(after.tasks, other, after.tasks[other].task);
    }
  }

  // ----- Whole runs

  datatype Request = Request(id: string, command: Command)

  function DurableRun(tables: Tables, rs: seq<Request>): Tables
  {
    if rs == [] then tables
    else DurableCall(DurableRun(tables, rs[..|rs| - 1]), rs[|rs| - 1].id, rs[|rs| - 1].command).1
  }

  function StoreRun(tasks: map<string, Task>, rs: seq<Request>): map<string, Task>
  {
    if rs == [] then tasks
    else Call(StoreRun(tasks, rs[..|rs| - 1]), rs[|rs| - 1].id, rs[|rs| - 1].command).1
  }

  function TruncatedRequests(rs: seq<Request>): seq<Request>
  {
    seq(|rs|, i requires 0 <= i < |rs| => Request(rs[i].id, Truncated(rs[i].command)))
  }

  function TaskTable(tables: Tables): map<string, Task>
  {
    map id | id in tables.tasks :: tables.tasks[id].task
  }

  /** What the store would permit at the first `n` requests, the schema admits too. */
  predicate SchemaAgrees(tables: Tables, rs: seq<Request>, n: nat)
    requires n <= |rs|
  {
    forall i :: 0 <= i < n ==> AgreesAt(tables, rs, i)
  }

  predicate AgreesAt(tables: Tables, rs: seq<Request>, i: nat)
    requires i < |rs|
  {
    RequestAgrees(DurableRun(tables, rs[..i]), rs[i])
  }

  predicate RequestAgrees(tables: Tables, r: Request)
  {
    r.id in tables.tasks && Permitted(tables.tasks[r.id].task, Truncated(r.command)) ==>
      Admissible(tables, r.id, r.command)
  }

  lemma CallIsStep(tasks: map<string, Task>, id: string, c: Command)
    requires id in tasks
    ensures Call(tasks, id, c).0.Success? <==> Permitted(tasks[id], c)
    ensures Call(tasks, id, c).1 == if Permitted(tasks[id], c) then tasks[id := Effect(tasks[id], c)] else tasks
  {
  }

  /** One request succeeds on both sides or on neither, exactly when the schema agrees. */
  lemma SameOutcome(tables: Tables, r: Request)
    requires TasksOk(tables)
    ensures (DurableCall(tables, r.id, r.command).0.Success? <==>
             Call(TaskTable(tables), r.id, Truncated(r.command)).0.Success?) <==> RequestAgrees(tables, r)
    ensures RequestAgrees(tables, r) ==>
              TaskTable(DurableCall(tables, r.id, r.command).1) == Call(TaskTable(tables), r.id, Truncated(r.command)).1
  {
    if r.id in tables.tasks {
      DurableStepIsStoreStep(tables, r.id, r.command);
      CallIsStep(TaskTable(tables), r.id, Truncated(r.command));
    }
  }

  lemma {:induction false} PrefixesAgree(tables: Tables, rs: seq<Request>, k: nat)
    requires k <= |rs| && TasksOk(tables) && SchemaAgrees(tables, rs, k)
    ensures TasksOk(DurableRun(tables, rs[..k]))
    ensures TaskTable(DurableRun(tables, rs[..k])) == StoreRun(TaskTable(tables), TruncatedRequests(rs)[..k])
  {
    if k > 0 {
      PrefixesAgree(tables, rs, k - 1);
      assert rs[..k][..k - 1] == rs[..k - 1];
      assert TruncatedRequests(rs)[..k][..k - 1] == TruncatedRequests(rs)[..k - 1];
      var before, r := DurableRun(tables, rs[..k - 1]), rs[k - 1];
      assert AgreesAt(tables, rs, k - 1);
      SameOutcome(before, r);
      DurableStepKeepsRows(before, r.id, r.command);
    }
  }

  lemma {:induction false} SuccessesNeedTheSchema(tables: Tables, rs: seq<Request>, k: nat)
    requires k <= |rs| && TasksOk(tables) && forall i :: 0 <= i < k ==> SameSuccess(tables, rs, i)
    ensures SchemaAgrees(tables, rs, k)
  {
    if k > 0 {
      SuccessesNeedTheSchema(tables, rs, k - 1);
      assert SameSuccess(tables, rs, k - 1);
      SuccessNeedsTheSchema(tables, rs, k - 1);
    }
  }

  lemma SuccessNeedsTheSchema(tables: Tables, rs: seq<Request>, i: nat)
    requires i < |rs| && TasksOk(tables) && SchemaAgrees(tables, rs, i) && SameSuccess(tables, rs, i)
    ensures AgreesAt(tables, rs, i)
  {
    PrefixesAgree(tables, rs, i);
    SameOutcome(DurableRun(tables, rs[..i]), rs[i]);
  }

  /**
   For every sequence of requests, the repository and the store fed the truncated commands give the
   same success or failure at every request exactly when the schema admits whatever the store would
   permit; and then they end with the same tasks.
   */
  lemma RepositoryRefinesStore(tables: Tables, rs: seq<Request>)
    requires TasksOk(tables)
    ensures (forall i :: 0 <= i < |rs| ==> SameSuccess(tables, rs, i)) <==> SchemaAgrees(tables, rs, |rs|)
    ensures SchemaAgrees(tables, rs, |rs|) ==>
              && TasksOk(DurableRun(tables, rs))
              && TaskTable(DurableRun(tables, rs)) == StoreRun(TaskTable(tables), TruncatedRequests(rs))
  {
    assert rs[..|rs|] == rs && TruncatedRequests(rs)[..|rs|] == TruncatedRequests(rs);
    if forall i :: 0 <= i < |rs| ==> SameSuccess(tables, rs, i) {
      SuccessesNeedTheSchema(tables, rs, |rs|);
    }
    if SchemaAgrees(tables, rs, |rs|) {
      PrefixesAgree(tables, rs, |rs|);
      forall i | 0 <= i < |rs| ensures SameSuccess(tables, rs, i) {
        PrefixesAgree(tables, rs, i);
        assert AgreesAt(tables, rs, i);
        SameOutcome(DurableRun(tables, rs[..i]), rs[i]);
      }
    }
  }

  /** Where they differ: a worker whose clock is before the row's creation leases the task in memory only. */
  lemma EarlyClockDiffers()
    ensures var a := Authority("t", "n", "r", "c", "s", "h", "d", "", "p", "1", "g", "l", "", "m");
            var tables := Tables(map["t" := TaskRow(NewTask(a), 2 * MICROSECOND)], map[], map[]);
            var c := Acquire("w", MICROSECOND, MICROSECOND);
            && Truncated(c) == c && Call(TaskTable(tables), "t", c).0.Success?
            && DurableCall(tables, "t", c).0 == Failure(ConstraintViolated)
  {
    var a := Authority("t", "n", "r", "c", "s", "h", "d", "", "p", "1", "g", "l", "", "m");
    var tables := Tables(map["t" := TaskRow(NewTask(a), 2 * MICROSECOND)], map[], map[]);
    assert TaskTable(tables)["t"] == NewTask(a);
  }

  /** Request `i` succeeds in the database exactly when it succeeds in the store. */
  predicate SameSuccess(tables: Tables, rs: seq<Request>, i: nat)
    requires i < |rs|
  {
    DurableCall(DurableRun(tables, rs[..i]), rs[i].id, rs[i].command).0.Success? <==>
    Call(StoreRun(TaskTable(tables), TruncatedRequests(rs)[..i]), rs[i].id, Truncated(rs[i].command)).0.Success?
  }

  predicate AlignedCommand(c: Command)
  {
    && Aligned(c.now)
    && (c.Acquire? || c.Renew? ==> c.duration % MICROSECOND == 0)
  }

  /** With microsecond-aligned times the commands of the two runs are the same. */
  lemma AlignedCommandsAreKept(c: Command)
    requires AlignedCommand(c)
    ensures Truncated(c) == c
  {
    TruncateBounds(c.now);
  }

  /** Otherwise a durable lease ends no later than the in-memory one, and less than two microseconds earlier. */
  lemma DurableLeaseIsShorter(t: Task, c: Command)
    requires (c.Acquire? || c.Renew?) && Permitted(t, c) && Permitted(t, Truncated(c))
    ensures Effect(t, Truncated(c)).leaseExpiry <= Effect(t, c).leaseExpiry
              < Effect(t, Truncated(c)).leaseExpiry + 2 * MICROSECOND
  {
    TruncateBounds(c.now);
    TruncateBounds(c.duration);
  }

  /** The store commands that the requests on task `id` amount to, whatever the schema refuses. */
  function Applied(tables: Tables, rs: seq<Request>, id: string): seq<Command>
  {
    if rs == [] then []
    else
      var (before, r) := (DurableRun(tables, rs[..|rs| - 1]), rs[|rs| - 1]);
      Applied(tables, rs[..|rs| - 1], id) +
      if r.id == id && DurableCall(before, id, r.command).0.Success? then [Truncated(r.command)] else []
  }

  lemma {:induction false} DurableRunKeepsRows(tables: Tables, rs: seq<Request>)
    requires TasksOk(tables)
    ensures TasksOk(DurableRun(tables, rs)) && DurableRun(tables, rs).tasks.Keys == tables.tasks.Keys
  {
    if rs != [] {
      DurableRunKeepsRows(tables, rs[..|rs| - 1]);
      DurableStepKeepsRows(DurableRun(tables, rs[..|rs| - 1]), rs[|rs| - 1].id, rs[|rs| - 1].command);
    }
  }

  /** What a request does to the row of task `id`. */
  lemma DurableRowStep(tables: Tables, r: Request, id: string)
    requires TasksOk(tables) && id in tables.tasks
    ensures var (outcome, after) := DurableCall(tables, r.id, r.command);
            && id in after.tasks
            && (r.id == id && outcome.Success? ==> after.tasks[id].task == Next(tables.tasks[id].task, Truncated(r.command)))
            && (!(r.id == id && outcome.Success?) ==> after.tasks[id] == tables.tasks[id])
  {
    if r.id in tables.tasks {
      DurableStepIsStoreStep(tables, r.id, r.command);
    }
  }

  lemma RunAppends(t: Task, cs: seq<Command>, c: Command)
    ensures Run(t, cs + [c]) == Next(Run(t, cs), c)
  {
    assert (cs + [c])[..|cs|] == cs;
  }

  /** So every theorem about runs of one task holds of every row of the table, in every run. */
  lemma {:induction false} DurableRowIsARun(tables: Tables, rs: seq<Request>, id: string)
    requires TasksOk(tables) && id in tables.tasks
    ensures id in DurableRun(tables, rs).tasks
    ensures DurableRun(tables, rs).tasks[id].task == Run(tables.tasks[id].task, Applied(tables, rs, id))
  {
    DurableRunKeepsRows(tables, rs);
    if rs != [] {
      var n := |rs| - 1;
      DurableRowIsARun(tables, rs[..n], id);
      var before, cs := DurableRun(tables, rs[..n]), Applied(tables, rs[..n], id);
      assert TasksOk(before) by { DurableRunKeepsRows(tables, rs[..n]); }
      DurableRowStep(before, rs[n], id);
      RunAppends(tables.tasks[id].task, cs, Truncated(rs[n].command));
      assert cs + [] == cs;
    }
  }
}
