/**
 The crash window closes: evidence that was stored by a worker which never committed is accepted by
 reconciliation once the lease has expired, and a planned task can be picked up at all.
 */
module CollectionRecovery {
  import opened Clock
  import opened CollectorTask
  import opened BrokerDatabase
  import opened CollectorRepository
  import opened CollectionProtocol
  import opened CollectionSafety
  import Reconciliation
  import Evidence

  /** A planned task becomes a row, and a worker that is started on it begins with its lease. */
  lemma PlannedTaskIsPickedUp(s: State, task: Task, createdAt: Time, run: nat, worker: Worker)
    requires createdAt != ZERO && CompleteAuthority(task.authority) && (task.state.Unset? || task.state.Queued?)
    requires |task.authority.targetEndpoint| <= 2048 && OptionalIdentity(task.authority.approvalGrantId)
    requires task.authority.id !in s.tables.tasks && run !in s.runs
    ensures var added := CollectionProtocol.Next(s, AddTask(task, createdAt));
            var after := CollectionProtocol.Next(added, Spawn(run, worker, task.authority.id));
            && task.authority.id in after.tables.tasks
            && after.tables.tasks[task.authority.id] == TaskRow(NewTask(task.authority), createdAt)
            && run in after.runs && after.runs[run] == Run(worker, task.authority.id, Acquiring)
            && after.tables.envelopes == s.tables.envelopes && after.tables.consumptions == s.tables.consumptions
  {
  }

  predicate IdsBounded(tables: Tables)
  {
    forall id :: id in tables.envelopes ==> Identity(id) && Identity(tables.envelopes[id].attemptId)
  }

  lemma CreateKeepsBounds(tables: Tables, e: Envelope)
    requires IdsBounded(tables)
    ensures IdsBounded(Evidence.Create(tables, e).1)
  {
  }

  lemma WorkKeepsBounds(s: State, r: Run, input: Input)
    requires Inv(s) && IdsBounded(s.tables)
    ensures IdsBounded(StepRun(s, r, input).tables)
  {
    StepTables(s, r, input);
    if Sends(r.stage) {
      DurableStepKeepsRows(s.tables, r.taskId, Sent(r, input));
    } else if r.stage.Persisting? {
      CreateKeepsBounds(s.tables, r.stage.envelope);
    } else if r.stage.Exchanging? {
      ExchangeStepChangesLedgerOnly(s, r, input);
    }
  }

  lemma NextKeepsBounds(s: State, a: Action)
    requires Inv(s) && IdsBounded(s.tables)
    ensures IdsBounded(CollectionProtocol.Next(s, a).tables)
  {
    if !a.Work? {
      OutsideKeepsEnvelopes(s, a);
    } else if a.run in s.runs {
      WorkKeepsBounds(s, s.runs[a.run], a.input);
    }
  }

  lemma {:induction false} BoundedAlways(states: seq<State>, actions: seq<Action>, j: nat)
    requires Behaviour(states, actions) && j < |states|
    ensures IdsBounded(states[j].tables)
  {
    if j > 0 {
      BoundedAlways(states, actions, j - 1);
      InvAlways(states, actions, j - 1);
      NextKeepsBounds(states[j - 1], actions[j - 1]);
    }
  }

  /** Nobody else accepted this attempt or this evidence: both name the task. */
  lemma AcceptanceIsFree(tables: Tables, evidenceId: string, t: Task)
    requires TablesInv(tables) && evidenceId in tables.envelopes
    requires t.acceptedEvidenceId == evidenceId && t.acceptedAttemptId == tables.envelopes[evidenceId].attemptId
    ensures UniqueAcceptance(tables.tasks, tables.envelopes[evidenceId].taskId, t)
  {
    var e := tables.envelopes[evidenceId];
    forall other | other in tables.tasks && other != e.taskId
      ensures tables.tasks[other].task.acceptedAttemptId != t.acceptedAttemptId
      ensures tables.tasks[other].task.acceptedEvidenceId != t.acceptedEvidenceId
    {
      AcceptsItsOwn(tables, evidenceId, other);
    }
  }

  lemma AcceptsItsOwn(tables: Tables, evidenceId: string, other: string)
    requires TablesInv(tables) && evidenceId in tables.envelopes && other in tables.tasks
    requires other != tables.envelopes[evidenceId].taskId
    ensures tables.tasks[other].task.acceptedAttemptId != tables.envelopes[evidenceId].attemptId
    ensures tables.tasks[other].task.acceptedEvidenceId != evidenceId
  {
    var e, t := tables.envelopes[evidenceId], TaskOf(tables, other);
    assert RowOk(tables, other) && EnvelopeOk(tables, e) && AcceptedOk(tables, t);
    if t.acceptedAttemptId == e.attemptId {
      var f := tables.envelopes[t.acceptedEvidenceId];
      assert EnvelopeOk(tables, f);
      Evidence.AttemptIdInjective(f.taskId, f.fencingToken, e.taskId, e.fencingToken);
      assert false;
    }
  }

  /**
   In every run, stored evidence of the epoch in which its task is executing or committing is accepted by
   a reconciliation at any instant after the lease has expired, whatever became of the worker.
   */
  lemma CrashWindowCloses(states: seq<State>, actions: seq<Action>, j: nat, evidenceId: string, at: Time)
    requires Behaviour(states, actions) && j < |states| && evidenceId in states[j].tables.envelopes
    requires states[j].tables.envelopes[evidenceId].taskId in states[j].tables.tasks
    requires var e := states[j].tables.envelopes[evidenceId];
             var row := states[j].tables.tasks[e.taskId];
             && e.fencingToken == row.task.fencingToken
             && (row.task.state.Executing? || row.task.state.Committing?)
             && row.task.leaseExpiry <= Truncate(at) && row.createdAt <= Truncate(at)
    ensures var after := CollectionProtocol.Next(states[j], CollectionProtocol.Reconcile(evidenceId, at)).tables;
            var e := states[j].tables.envelopes[evidenceId];
            && e.taskId in after.tasks && TaskOf(after, e.taskId).state.Succeeded?
            && TaskOf(after, e.taskId).acceptedEvidenceId == evidenceId
            && TaskOf(after, e.taskId).acceptedAttemptId == e.attemptId
  {
    var tables := states[j].tables;
    var e := tables.envelopes[evidenceId];
    InvAlways(states, actions, j);
    BoundedAlways(states, actions, j);
    assert EnvelopeOk(tables, e) && RowOk(tables, e.taskId);
    var row := tables.tasks[e.taskId];
    AcceptanceIsFree(tables, evidenceId, Reconciliation.Accepted(row.task, e));
    Reconciliation.ReconcilesOnlyExpired(tables, evidenceId, at);
  }
}
