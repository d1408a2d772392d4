/**
 One collector task and the fenced operations on it (internal/collector/task.go). `Permitted`,
 `Effect` and `Blame` say when an operation succeeds, what it does and which error it reports
 otherwise; `Store` is the mutex-guarded map, each method one atomic step.
 */
module CollectorTask {
  import opened Wrappers
  import opened Clock

  /** `Unset` is the empty string a caller may leave in a new task. */
  datatype TaskState =
    | Unset | Queued | Leased | Executing | Committing | Succeeded | RetryWait
    | Failed | Denied | Cancelled | Expired | DeadLetter
  {
    /** Some attempt owns the task. */
    predicate Active() {
      Leased? || Executing? || Committing?
    }

    /** The task may be leased at once. */
    predicate Available() {
      Queued? || RetryWait?
    }
  }

  datatype TaskError =
    | InvalidInput | TaskExists | TaskNotFound | LeaseHeld | StaleFence | LeaseExpired
    | InvalidState | DuplicateCommit | EvidenceNotFound | ConstraintViolated

  /** What the planner fixed when it created the task; no operation changes it. */
  datatype Authority = Authority(
    id: string, tenantId: string, resolutionId: string, claimFingerprint: string,
    targetSnapshotId: string, targetSnapshotHash: string, targetId: string, targetEndpoint: string,
    recipeId: string, recipeVersion: string, triggerDecisionId: string, planningDecisionId: string,
    approvalGrantId: string, compatibilityHash: string)

  /** The empty string stands for an absent value (SQL NULL), instant 0 for no lease. */
  datatype Task = Task(
    authority: Authority, state: TaskState, attemptCount: nat, leaseOwner: string, leaseExpiry: Time,
    fencingToken: nat, executionDecisionId: string, executionGrantId: string,
    acceptedAttemptId: string, acceptedEvidenceId: string, lastError: string)

  datatype Lease = Lease(taskId: string, owner: string, fencingToken: nat, expiresAt: Time)

  datatype Command =
    | Acquire(owner: string, now: Time, duration: Duration)
    | Renew(owner: string, token: int, now: Time, duration: Duration)
    | StartExecution(owner: string, token: int, now: Time)
    | RecordAuthority(owner: string, token: int, decisionId: string, grantId: string, now: Time)
    | BeginCommit(owner: string, token: int, now: Time)
    | Commit(owner: string, token: int, attemptId: string, evidenceId: string, now: Time)
    | Retry(owner: string, token: int, now: Time, cause: Option<string>)

  const MAXIMUM_ERROR_RUNES: nat := 2048

  function BoundedError(text: string): string
  {
    if |text| > MAXIMUM_ERROR_RUNES then text[..MAXIMUM_ERROR_RUNES] else text
  }

  /** The stored error is the whole reason, or its longest prefix within the bound. */
  lemma BoundedErrorIsLongest(text: string, other: string)
    ensures BoundedError(text) <= text && |BoundedError(text)| <= MAXIMUM_ERROR_RUNES
    ensures other <= text && |other| <= MAXIMUM_ERROR_RUNES ==> other <= BoundedError(text)
  {
  }

  /** A task nobody has leased. */
  predicate Fresh(t: Task)
  {
    && t.state == Queued && t.attemptCount == 0 && t.fencingToken == 0
    && t.leaseOwner == "" && t.leaseExpiry == ZERO
    && t.executionDecisionId == "" && t.executionGrantId == ""
    && t.acceptedAttemptId == "" && t.acceptedEvidenceId == "" && t.lastError == ""
  }

  /** `requireLease` accepts: the caller owns the current epoch and its lease is in force. */
  predicate InForce(t: Task, owner: string, token: int, now: Time)
  {
    t.leaseOwner == owner && t.fencingToken == token && now != ZERO && now < t.leaseExpiry
  }

  function RequireLease(t: Task, owner: string, token: int, now: Time): Outcome<TaskError>
  {
    if t.leaseOwner != owner || t.fencingToken != token then Fail(StaleFence)
    else if now == ZERO || t.leaseExpiry <= now then Fail(LeaseExpired)
    else Pass
  }

  predicate ValidInput(c: Command)
  {
    match c
    case Acquire(owner, now, duration) => owner != "" && now != ZERO && duration > 0
    case Renew(_, _, now, duration) => now != ZERO && duration > 0
    case RecordAuthority(_, _, decisionId, grantId, _) => decisionId != "" && grantId != ""
    case Commit(_, _, attemptId, evidenceId, _) => attemptId != "" && evidenceId != ""
    case _ => true
  }

  predicate Permitted(t: Task, c: Command)
  {
    && ValidInput(c)
    && match c
       case Acquire(_, now, _) => t.state.Available() || (t.state.Active() && t.leaseExpiry <= now)
       case Renew(owner, token, now, _) =>
         InForce(t, owner, token, now) && (t.state.Leased? || t.state.Executing?)
       case StartExecution(owner, token, now) => InForce(t, owner, token, now) && t.state.Leased?
       case RecordAuthority(owner, token, _, _, now) => InForce(t, owner, token, now) && t.state.Executing?
       case BeginCommit(owner, token, now) => InForce(t, owner, token, now) && t.state.Executing?
       case Commit(owner, token, _, _, now) =>
         InForce(t, owner, token, now) && t.state.Committing? && t.acceptedAttemptId == ""
       case Retry(owner, token, now, _) => InForce(t, owner, token, now) && t.state.Active()
  }

  function Effect(t: Task, c: Command): Task
    requires Permitted(t, c)
  {
    match c
    case Acquire(owner, now, duration) =>
      t.(state := Leased, leaseOwner := owner, leaseExpiry := After(now, duration),
         fencingToken := t.fencingToken + 1, attemptCount := t.attemptCount + 1,
         executionDecisionId := "", executionGrantId := "", lastError := "")
    case Renew(_, _, now, duration) => t.(leaseExpiry := After(now, duration))
    case StartExecution(_, _, _) => t.(state := Executing)
    case RecordAuthority(_, _, decisionId, grantId, _) =>
      t.(executionDecisionId := decisionId, executionGrantId := grantId)
    case BeginCommit(_, _, _) => t.(state := Committing)
    case Commit(_, _, attemptId, evidenceId, _) =>
      t.(acceptedAttemptId := attemptId, acceptedEvidenceId := evidenceId, state := Succeeded)
    case Retry(_, _, _, cause) =>
      t.(state := RetryWait, leaseOwner := "", leaseExpiry := ZERO,
         lastError := if cause.Some? then BoundedError(cause.value) else t.lastError)
  }

  /** A retry stores as much of its reason as the bound allows, and keeps the earlier error without one. */
  lemma RetryKeepsTheReason(t: Task, c: Command, prefix: string)
    requires Permitted(t, c) && c.Retry?
    ensures match c.cause
            case None => Effect(t, c).lastError == t.lastError
            case Some(text) =>
              && Effect(t, c).lastError <= text && |Effect(t, c).lastError| <= MAXIMUM_ERROR_RUNES
              && (prefix <= text && |prefix| <= MAXIMUM_ERROR_RUNES ==> prefix <= Effect(t, c).lastError)
  {
    if c.cause.Some? {
      BoundedErrorIsLongest(c.cause.value, prefix);
    }
  }

  /** What an operation changes, field by field; nothing changes what the planner fixed. */
  predicate Changed(t: Task, c: Command, u: Task)
  {
    && u.authority == t.authority
    && u.fencingToken == t.fencingToken + (if c.Acquire? then 1 else 0)
    && u.attemptCount == t.attemptCount + (if c.Acquire? then 1 else 0)
    && u.leaseOwner == (if c.Acquire? then c.owner else if c.Retry? then "" else t.leaseOwner)
    && u.leaseExpiry == (if c.Acquire? || c.Renew? then c.now + c.duration else if c.Retry? then ZERO else t.leaseExpiry)
    && u.executionDecisionId ==
       (if c.Acquire? then "" else if c.RecordAuthority? then c.decisionId else t.executionDecisionId)
    && u.executionGrantId == (if c.Acquire? then "" else if c.RecordAuthority? then c.grantId else t.executionGrantId)
    && u.acceptedAttemptId == (if c.Commit? then c.attemptId else t.acceptedAttemptId)
    && u.acceptedEvidenceId == (if c.Commit? then c.evidenceId else t.acceptedEvidenceId)
    && (!c.Acquire? && !c.Retry? ==> u.lastError == t.lastError) && (c.Acquire? ==> u.lastError == "")
    && u.state == (if c.Acquire? then Leased else if c.StartExecution? then Executing
                   else if c.BeginCommit? then Committing else if c.Commit? then Succeeded
                   else if c.Retry? then RetryWait else t.state)
  }

  lemma ChangesFieldByField(t: Task, c: Command)
    requires Permitted(t, c)
    ensures Changed(t, c, Effect(t, c))
  {
  }

  /** The error of an operation that is not permitted. */
  function Blame(t: Task, c: Command): TaskError
    requires !Permitted(t, c)
  {
    if !ValidInput(c) then InvalidInput
    else if c.Acquire? then (if t.state.Active() then LeaseHeld else InvalidState)
    else if c.Commit? && t.acceptedAttemptId != "" then DuplicateCommit
    else match RequireLease(t, c.owner, c.token, c.now)
         case Fail(e) => e
         case Pass => InvalidState
  }

  function Step(t: Task, c: Command): Result<Task, TaskError>
  {
    if Permitted(t, c) then Success(Effect(t, c)) else Failure(Blame(t, c))
  }

  /** `VerifyCurrentAttempt`: the evidence assembler's check of the active attempt. */
  function VerifyAttempt(t: Task, collectorId: string, token: int, at: Time): Outcome<TaskError>
  {
    match RequireLease(t, collectorId, token, at)
    case Fail(e) => Fail(e)
    case Pass => if t.state.Executing? || t.state.Committing? then Pass else Fail(InvalidState)
  }

  /** An attempt is current exactly while its owner holds the epoch in force and is executing or committing. */
  lemma CurrentExactlyWhen(t: Task, collectorId: string, token: int, at: Time)
    ensures VerifyAttempt(t, collectorId, token, at).Pass? <==>
            && t.leaseOwner == collectorId && t.fencingToken == token && ZERO < at < t.leaseExpiry
            && t.state in {Executing, Committing}
    ensures VerifyAttempt(t, collectorId, token, at) == Fail(StaleFence) <==>
            t.leaseOwner != collectorId || t.fencingToken != token
  {
  }

  /**
   What a refusal of a complete request says: a lease in force is held; a result was already accepted; the
   epoch is not the caller's; the caller's lease has ended; and only then that the state is wrong.
   */
  predicate RefusedFor(t: Task, c: Command, error: TaskError)
  {
    if c.Acquire? then error == if t.state in {Leased, Executing, Committing} then LeaseHeld else InvalidState
    else
      var duplicate := c.Commit? && t.acceptedAttemptId != "";
      var stale := t.leaseOwner != c.owner || t.fencingToken != c.token;
      var ended := c.now == ZERO || t.leaseExpiry <= c.now;
      && (error == DuplicateCommit <==> duplicate)
      && (error == StaleFence <==> !duplicate && stale)
      && (error == LeaseExpired <==> !duplicate && !stale && ended)
      && (error == InvalidState <==> !duplicate && !stale && !ended)
  }

  lemma RefusedBecause(t: Task, c: Command)
    requires !Permitted(t, c) && ValidInput(c)
    ensures RefusedFor(t, c, Blame(t, c))
  {
  }

  /** A lease has an owner and some duration; an authority, its decision and grant; a result, its attempt and evidence. */
  predicate CompleteRequest(c: Command)
  {
    && (c.Acquire? ==> c.owner != "") && (c.Acquire? || c.Renew? ==> c.now > ZERO && c.duration > 0)
    && (c.RecordAuthority? ==> c.decisionId != "" && c.grantId != "")
    && (c.Commit? ==> c.attemptId != "" && c.evidenceId != "")
  }

  predicate RefusedBy(tasks: map<string, Task>, id: string, c: Command, error: TaskError)
  {
    if !CompleteRequest(c) then error == InvalidInput
    else if id !in tasks then error == TaskNotFound
    else RefusedFor(tasks[id], c, error)
  }

  function LeaseFor(t: Task): Lease
  {
    Lease(t.authority.id, t.leaseOwner, t.fencingToken, t.leaseExpiry)
  }

  /** One operation on the task table: the outcome and the table afterwards. */
  function Call(tasks: map<string, Task>, id: string, c: Command): (Result<Task, TaskError>, map<string, Task>)
  {
    if !ValidInput(c) then (Failure(InvalidInput), tasks)
    else if id !in tasks then (Failure(TaskNotFound), tasks)
    else
      var r := Step(tasks[id], c);
      (r, if r.Success? then tasks[id := r.value] else tasks)
  }

  /** The caller holds the current epoch and its lease is in force. */
  predicate Holds(t: Task, c: Command)
  {
    !c.Acquire? && t.leaseOwner == c.owner && t.fencingToken == c.token && ZERO < c.now < t.leaseExpiry
  }

  /** The states an operation may start from. */
  function From(c: Command): set<TaskState>
  {
    match c
    case Acquire(_, _, _) => {Queued, RetryWait, Leased, Executing, Committing}
    case Renew(_, _, _, _) => {Leased, Executing}
    case StartExecution(_, _, _) => {Leased}
    case RecordAuthority(_, _, _, _, _) => {Executing}
    case BeginCommit(_, _, _) => {Executing}
    case Commit(_, _, _, _, _) => {Committing}
    case Retry(_, _, _, _) => {Leased, Executing, Committing}
  }

  /**
   An operation on the table succeeds exactly when its request is complete, the task is there in a state the
   operation starts from, and it is free to be leased or leased by the caller; a success changes that task
   alone, a refusal nothing.
   */
  lemma CallSucceedsWhen(tasks: map<string, Task>, id: string, c: Command)
    ensures Call(tasks, id, c).0.Success? <==>
            && CompleteRequest(c) && id in tasks && tasks[id].state in From(c)
            && (if c.Acquire? then tasks[id].state in {Queued, RetryWait} || tasks[id].leaseExpiry <= c.now
                else Holds(tasks[id], c))
            && (c.Commit? ==> tasks[id].acceptedAttemptId == "")
    ensures Call(tasks, id, c).0.Success? ==>
              Call(tasks, id, c).1 == tasks[id := Call(tasks, id, c).0.value] && id in tasks
              && Changed(tasks[id], c, Call(tasks, id, c).0.value)
    ensures Call(tasks, id, c).0.Failure? ==> Call(tasks, id, c).1 == tasks && RefusedBy(tasks, id, c, Call(tasks, id, c).0.error)
  {
    if id in tasks && !Permitted(tasks[id], c) && ValidInput(c) {
      RefusedBecause(tasks[id], c);
    }
    if id in tasks && Permitted(tasks[id], c) {
      ChangesFieldByField(tasks[id], c);
    }
  }

  function LeaseResult(r: Result<Task, TaskError>): Result<Lease, TaskError>
  {
    match r
    case Success(t) => Success(LeaseFor(t))
    case Failure(e) => Failure(e)
  }

  function ErrorOf(r: Result<Task, TaskError>): Outcome<TaskError>
  {
    match r
    case Success(_) => Pass
    case Failure(e) => Fail(e)
  }

  class Store {
    var tasks: map<string, Task>

    constructor ()
      ensures tasks == map[]
    {
      tasks := map[];
    }

    method Add(task: Task) returns (r: Outcome<TaskError>)
      modifies this
      ensures r.Pass? <==>
              && task.authority.id != "" && task.authority.targetId != "" && task.authority.recipeId != ""
              && task.authority.id !in old(tasks) && (task.state.Unset? || task.state.Queued?)
      ensures tasks == if r.Pass? then old(tasks)[task.authority.id := task.(state := Queued)] else old(tasks)
    {
      if task.authority.id == "" || task.authority.targetId == "" || task.authority.recipeId == "" {
        return Fail(InvalidInput);
      }
      if task.authority.id in tasks {
        return Fail(TaskExists);
      }
      var added := task;
      if added.state.Unset? {
        added := added.(state := Queued);
      }
      if !added.state.Queued? {
        return Fail(InvalidState);
      }
      tasks := tasks[added.authority.id := added];
      return Pass;
    }

    method Acquire(taskId: string, owner: string, now: Time, duration: Duration)
      returns (r: Result<Lease, TaskError>)
      modifies this
      ensures var (outcome, after) := Call(old(tasks), taskId, Command.Acquire(owner, now, duration));
              r == LeaseResult(outcome) && tasks == after
    {
      if owner == "" {
        return Failure(InvalidInput);
      }
      if now == ZERO || duration <= 0 {
        return Failure(InvalidInput);
      }
      if taskId !in tasks {
        return Failure(TaskNotFound);
      }
      var task := tasks[taskId];
      if task.state.Queued? || task.state.RetryWait? {
        // Available immediately.
      } else if task.state.Leased? || task.state.Executing? || task.state.Committing? {
        if now < task.leaseExpiry {
          return Failure(LeaseHeld);
        }
      } else {
        return Failure(InvalidState);
      }
      task := task.(state := Leased);
      task := task.(leaseOwner := owner);
      task := task.(leaseExpiry := now + duration);
      task := task.(fencingToken := task.fencingToken + 1);
      task := task.(attemptCount := task.attemptCount + 1);
      task := task.(executionDecisionId := "");
      task := task.(executionGrantId := "");
      task := task.(lastError := "");
      tasks := tasks[taskId := task];
      return Success(LeaseFor(task));
    }

    method Renew(taskId: string, owner: string, token: int, now: Time, duration: Duration)
      returns (r: Result<Lease, TaskError>)
      modifies this
      ensures var (outcome, after) := Call(old(tasks), taskId, Command.Renew(owner, token, now, duration));
              r == LeaseResult(outcome) && tasks == after
    {
      if now == ZERO || duration <= 0 {
        return Failure(InvalidInput);
      }
      if taskId !in tasks {
        return Failure(TaskNotFound);
      }
      var task := tasks[taskId];
      var held := RequireLease(task, owner, token, now);
      if held.Fail? {
        return Failure(held.error);
      }
      if !task.state.Leased? && !task.state.Executing? {
        return Failure(InvalidState);
      }
      task := task.(leaseExpiry := now + duration);
      tasks := tasks[taskId := task];
      return Success(LeaseFor(task));
    }

    /** The shared body of `StartExecution` and `BeginCommit`. */
    method TransitionOwned(taskId: string, owner: string, token: int, now: Time, from: TaskState, to: TaskState)
      returns (r: Outcome<TaskError>)
      modifies this
      ensures taskId !in old(tasks) ==> r == Fail(TaskNotFound)
      ensures taskId in old(tasks) ==>
                && (r.Pass? <==> InForce(old(tasks)[taskId], owner, token, now) && old(tasks)[taskId].state == from)
                && (r.Fail? ==> r.error ==
                                match RequireLease(old(tasks)[taskId], owner, token, now)
                                case Fail(e) => e
                                case Pass => InvalidState)
      ensures tasks == if r.Pass? then old(tasks)[taskId := old(tasks)[taskId].(state := to)] else old(tasks)
    {
      if taskId !in tasks {
        return Fail(TaskNotFound);
      }
      var task := tasks[taskId];
      var held := RequireLease(task, owner, token, now);
      if held.Fail? {
        return held;
      }
      if task.state != from {
        return Fail(InvalidState);
      }
      tasks := tasks[taskId := task.(state := to)];
      return Pass;
    }

    method StartExecution(taskId: string, owner: string, token: int, now: Time) returns (r: Outcome<TaskError>)
      modifies this
      ensures var (outcome, after) := Call(old(tasks), taskId, Command.StartExecution(owner, token, now));
              r == ErrorOf(outcome) && tasks == after
    {
      r := TransitionOwned(taskId, owner, token, now, Leased, Executing);
    }

    method RecordExecutionAuthority(taskId: string, owner: string, token: int, decisionId: string, grantId: string,
                                    now: Time)
      returns (r: Outcome<TaskError>)
      modifies this
      ensures var (outcome, after) :=
                Call(old(tasks), taskId, RecordAuthority(owner, token, decisionId, grantId, now));
              r == ErrorOf(outcome) && tasks == after
    {
      if decisionId == "" || grantId == "" {
        return Fail(InvalidInput);
      }
      if taskId !in tasks {
        return Fail(TaskNotFound);
      }
      var task := tasks[taskId];
      var held := RequireLease(task, owner, token, now);
      if held.Fail? {
        return held;
      }
      if !task.state.Executing? {
        return Fail(InvalidState);
      }
      task := task.(executionDecisionId := decisionId);
      task := task.(executionGrantId := grantId);
      tasks := tasks[taskId := task];
      return Pass;
    }

    method BeginCommit(taskId: string, owner: string, token: int, now: Time) returns (r: Outcome<TaskError>)
      modifies this
      ensures var (outcome, after) := Call(old(tasks), taskId, Command.BeginCommit(owner, token, now));
              r == ErrorOf(outcome) && tasks == after
    {
      r := TransitionOwned(taskId, owner, token, now, Executing, Committing);
    }

    method Commit(taskId: string, owner: string, token: int, attemptId: string, evidenceId: string, now: Time)
      returns (r: Outcome<TaskError>)
      modifies this
      ensures var (outcome, after) := Call(old(tasks), taskId, Command.Commit(owner, token, attemptId, evidenceId, now));
              r == ErrorOf(outcome) && tasks == after
    {
      if attemptId == "" || evidenceId == "" {
        return Fail(InvalidInput);
      }
      if taskId !in tasks {
        return Fail(TaskNotFound);
      }
      var task := tasks[taskId];
      if task.acceptedAttemptId != "" {
        return Fail(DuplicateCommit);
      }
      var held := RequireLease(task, owner, token, now);
      if held.Fail? {
        return held;
      }
      if !task.state.Committing? {
        return Fail(InvalidState);
      }
      task := task.(acceptedAttemptId := attemptId);
      task := task.(acceptedEvidenceId := evidenceId);
      task := task.(state := Succeeded);
      tasks := tasks[taskId := task];
      return Pass;
    }

    method Retry(taskId: string, owner: string, token: int, now: Time, cause: Option<string>)
      returns (r: Outcome<TaskError>)
      modifies this
      ensures var (outcome, after) := Call(old(tasks), taskId, Command.Retry(owner, token, now, cause));
              r == ErrorOf(outcome) && tasks == after
    {
      if taskId !in tasks {
        return Fail(TaskNotFound);
      }
      var task := tasks[taskId];
      var held := RequireLease(task, owner, token, now);
      if held.Fail? {
        return held;
      }
      if !task.state.Leased? && !task.state.Executing? && !task.state.Committing? {
        return Fail(InvalidState);
      }
      task := task.(state := RetryWait);
      task := task.(leaseOwner := "");
      task := task.(leaseExpiry := ZERO);
      if cause.Some? {
        task := task.(lastError := BoundedError(cause.value));
      }
      tasks := tasks[taskId := task];
      return Pass;
    }

    method VerifyCurrentAttempt(taskId: string, collectorId: string, token: int, at: Time)
      returns (r: Outcome<TaskError>)
      ensures taskId !in tasks ==> r == Fail(TaskNotFound)
      ensures taskId in tasks ==> r == VerifyAttempt(tasks[taskId], collectorId, token, at)
    {
      if taskId !in tasks {
        return Fail(TaskNotFound);
      }
      var task := tasks[taskId];
      var held := RequireLease(task, collectorId, token, at);
      if held.Fail? {
        return held;
      }
      if !task.state.Executing? && !task.state.Committing? {
        return Fail(InvalidState);
      }
      return Pass;
    }
  }
}
