/**
 The fenced collection protocol: any number of worker runs (internal/collector/worker.go), brokers,
 planners and reconcilers acting on shared tables. Each atomic database operation is one step, and
 between two steps of one run anything else may happen, including a crash. Every clock reading is a
 free input, so clocks may be skewed or go back.
 */
module CollectionProtocol {
  import opened Wrappers
  import opened Clock
  import opened CollectorTask
  import opened CollectorRuns
  import opened BrokerDatabase
  import opened CollectorRepository
  import Reconciliation
  import Evidence
  import Grants

  type Grant = Grants.Grant

  datatype WorkerConfig = WorkerConfig(
    id: string, leaseDuration: Duration, grantTTL: Duration, maximumDuration: Duration, maximumBytes: int)

  /** `Run` refuses any other configuration before it touches the task. */
  type Worker = w: WorkerConfig
    | w.id != "" && w.leaseDuration > 0 && w.grantTTL > 0 && w.maximumDuration > 0 && w.maximumBytes > 0
    witness WorkerConfig("w", 1, 1, 1, 1)

  /** Where `Worker.Run` stands, with the local variables it still uses. */
  datatype Stage =
    | Acquiring
    | Starting(lease: Lease)
    | Reading(lease: Lease)
    | Authorising(lease: Lease, task: Task)
    | Recording(lease: Lease, grant: Grant)
    | Rereading(lease: Lease, grant: Grant)
    | Exchanging(lease: Lease, grant: Grant, task: Task)
    | Capturing(lease: Lease, grant: Grant, task: Task)
    | Persisting(lease: Lease, grant: Grant, envelope: Envelope)
    | Finishing(lease: Lease, grant: Grant, envelope: Envelope)
    | Concluding(lease: Lease, grant: Grant, envelope: Envelope)
    | Failing(lease: Lease)
    | Stopped
  {
    predicate HasLease() {
      !Acquiring? && !Stopped?
    }
  }

  datatype Run = Run(worker: Worker, taskId: string, stage: Stage)

  /** What the environment supplies to one step: clocks, random identifiers and the answers of other systems. */
  datatype Input = Input(
    now: Time, proceeds: bool, decisionId: string, maximumDuration: Duration, maximumBytes: int, issuedAt: Time,
    grantId: string, nonce: string, algorithm: string, keyRef: string, digests: Grants.Digests,
    clock: Grants.DatabaseClock, sealed: Evidence.Sealed, cause: Option<string>)

  datatype State = State(issuer: string, audience: string, tables: Tables, issued: set<Grant>, runs: map<nat, Run>)

  datatype Action =
    | AddTask(task: Task, createdAt: Time)
    | Spawn(run: nat, worker: Worker, taskId: string)
    | Work(run: nat, input: Input)
    | Interrupt(run: nat, retries: bool)
    | Reconcile(evidenceId: string, at: Time)
    | Issue(grant: Grant, algorithm: string, keyRef: string)
    | Present(grant: Grant, request: Grants.ExchangeRequest, digests: Grants.Digests, clock: Grants.DatabaseClock)

  // ----- One step of a run

  datatype Stepped = Stepped(tables: Tables, issued: set<Grant>, stage: Stage)

  /** The grant a worker asks for: valid no longer than its lease. */
  function RequestedGrant(w: Worker, lease: Lease, task: Task, input: Input): Grant
  {
    var a := task.authority;
    var requested := input.issuedAt + w.grantTTL;
    Grants.Grant(input.grantId, input.nonce, a.tenantId, w.id, a.id, a.targetId, a.recipeId, a.recipeVersion,
                 lease.fencingToken, input.decisionId, input.issuedAt,
                 if lease.expiresAt < requested then lease.expiresAt else requested,
                 input.maximumDuration, input.maximumBytes, true, "", "", "", "")
  }

  /** The authoriser's answer stays within the worker's own limits. */
  predicate Authorised(w: Worker, input: Input)
  {
    && input.proceeds && input.decisionId != ""
    && 0 < input.maximumDuration <= w.maximumDuration && 0 < input.maximumBytes <= w.maximumBytes
  }

  function Signed(s: State, g: Grant, algorithm: string, keyRef: string): Grant
  {
    g.(issuer := s.issuer, audience := s.audience, signatureAlgorithm := algorithm, signingKeyRef := keyRef)
  }

  function Authorise(s: State, r: Run, input: Input): Stepped
    requires r.stage.Authorising?
  {
    var lease := r.stage.lease;
    if !Authorised(r.worker, input) then Stepped(s.tables, s.issued, Failing(lease))
    else
      var g := Signed(s, RequestedGrant(r.worker, lease, r.stage.task, input), input.algorithm, input.keyRef);
      if g.expiresAt < input.issuedAt + input.maximumDuration || !Grants.ValidGrant(g) then
        Stepped(s.tables, s.issued, Failing(lease))
      else Stepped(s.tables, s.issued + {g}, Recording(lease, g))
  }

  function ExchangeStep(s: State, r: Run, input: Input): Stepped
    requires r.stage.Exchanging?
  {
    var Exchanging(lease, g, task) := r.stage;
    var request := Grants.ExchangeRequest(r.worker.id, task.authority.id, task.authority.targetId,
                                          task.authority.recipeId, task.authority.recipeVersion, lease.fencingToken,
                                          input.now);
    var (credential, after) :=
      Grants.Exchange(s.tables, s.issued, s.issuer, s.audience, g, request, input.digests, input.clock);
    if credential.Success? then Stepped(after, s.issued, Capturing(lease, g, task))
    else Stepped(after, s.issued, Failing(lease))
  }

  /** The operation an owning stage sends to the task repository. */
  function Sent(r: Run, input: Input): Command
    requires r.stage.Acquiring? || r.stage.Starting? || r.stage.Recording? || r.stage.Finishing? ||
             r.stage.Concluding? || r.stage.Failing?
  {
    match r.stage
    case Acquiring => Acquire(r.worker.id, input.now, r.worker.leaseDuration)
    case Starting(lease) => StartExecution(r.worker.id, lease.fencingToken, input.now)
    case Recording(lease, g) =>
      RecordAuthority(r.worker.id, lease.fencingToken, g.executionDecisionId, g.grantId, input.now)
    case Finishing(lease, _, _) => BeginCommit(r.worker.id, lease.fencingToken, input.now)
    case Concluding(lease, _, e) => Commit(r.worker.id, lease.fencingToken, e.attemptId, e.evidenceId, input.now)
    case Failing(lease) => Retry(r.worker.id, lease.fencingToken, input.now, input.cause)
  }

  /** The next stage when that operation succeeded. */
  function Onward(stage: Stage, t: Task): Stage
  {
    match stage
    case Acquiring => Starting(LeaseFor(t))
    case Starting(lease) => Reading(lease)
    case Recording(lease, g) => Rereading(lease, g)
    case Finishing(lease, g, e) => Concluding(lease, g, e)
    case _ => Stopped
  }

  function SendStep(s: State, r: Run, input: Input): Stepped
    requires r.stage.Acquiring? || r.stage.Starting? || r.stage.Recording? || r.stage.Finishing? ||
             r.stage.Concluding? || r.stage.Failing?
  {
    var (outcome, after) := DurableCall(s.tables, r.taskId, Sent(r, input));
    Stepped(after, s.issued, if outcome.Success? then Onward(r.stage, outcome.value) else Stopped)
  }

  /** The next step of a run; `proceeds` is whether the other systems involved answer. */
  function StepRun(s: State, r: Run, input: Input): Stepped
  {
    var stay := (stage: Stage) => Stepped(s.tables, s.issued, stage);
    match r.stage
    case Reading(lease) =>
      stay(if r.taskId in s.tables.tasks then Authorising(lease, s.tables.tasks[r.taskId].task) else Stopped)
    case Authorising(_, _) => Authorise(s, r, input)
    case Rereading(lease, g) =>
      stay(if r.taskId in s.tables.tasks then Exchanging(lease, g, s.tables.tasks[r.taskId].task) else Stopped)
    case Exchanging(_, _, _) => ExchangeStep(s, r, input)
    case Capturing(lease, g, task) =>
      if !input.proceeds then stay(Failing(lease))
      else (match Evidence.Assemble(s.tables, task, lease.owner, lease.fencingToken, input.sealed, input.now)
            case Failure(_) => stay(Failing(lease))
            case Success(e) => stay(Persisting(lease, g, e)))
    case Persisting(lease, g, e) =>
      var (created, after) := Evidence.Create(s.tables, e);
      Stepped(after, s.issued, if created.Pass? then Finishing(lease, g, e) else Failing(lease))
    case Stopped => stay(Stopped)
    case _ => SendStep(s, r, input)
  }

  function Next(s: State, a: Action): State
  {
    match a
    case AddTask(task, createdAt) =>
      if createdAt == ZERO then s else s.(tables := AddRow(s.tables, task, createdAt).1)
    case Spawn(run, worker, taskId) =>
      if run in s.runs then s else s.(runs := s.runs[run := Run(worker, taskId, Acquiring)])
    case Work(run, input) =>
      if run !in s.runs then s
      else
        var x := StepRun(s, s.runs[run], input);
        s.(tables := x.tables, issued := x.issued, runs := s.runs[run := s.runs[run].(stage := x.stage)])
    case Interrupt(run, retries) =>
      if run !in s.runs then s
      else
        var stage := s.runs[run].stage;
        s.(runs := s.runs[run := s.runs[run].(
                     stage := if retries && stage.HasLease() then Failing(stage.lease) else Stopped)])
    case Reconcile(evidenceId, at) => s.(tables := Reconciliation.Reconcile(s.tables, evidenceId, at).1)
    case Issue(request, algorithm, keyRef) =>
      var g := Signed(s, request, algorithm, keyRef);
      if Grants.ValidGrant(g) then s.(issued := s.issued + {g}) else s
    case Present(g, request, digests, clock) =>
      s.(tables := Grants.Exchange(s.tables, s.issued, s.issuer, s.audience, g, request, digests, clock).1)
  }

  predicate Init(s: State)
  {
    s.tables == Tables(map[], map[], map[]) && s.issued == {} && s.runs == map[]
  }

  /** A run of the whole system. */
  predicate Behaviour(states: seq<State>, actions: seq<Action>)
  {
    && |states| == |actions| + 1 && Init(states[0])
    && forall i :: 0 <= i < |actions| ==> states[i + 1] == Next(states[i], actions[i])
  }

  // ----- The invariant

  function TaskOf(tables: Tables, id: string): Task
    requires id in tables.tasks
  {
    tables.tasks[id].task
  }

  /** The lease names an epoch the task has reached. */
  predicate LeaseOk(tables: Tables, id: string, lease: Lease)
  {
    && id in tables.tasks
    && 0 < lease.fencingToken <= TaskOf(tables, id).fencingToken
  }

  /** While the epoch lasts, the task row names no grant yet. */
  predicate NothingRecorded(tables: Tables, id: string, lease: Lease)
  {
    LeaseOk(tables, id, lease) &&
    (TaskOf(tables, id).fencingToken == lease.fencingToken ==> TaskOf(tables, id).executionGrantId == "")
  }

  /** While the epoch lasts, the task row names this grant. */
  predicate RecordedGrant(tables: Tables, id: string, lease: Lease, g: Grant)
  {
    && LeaseOk(tables, id, lease) && g.grantId != ""
    && (TaskOf(tables, id).fencingToken == lease.fencingToken ==> TaskOf(tables, id).executionGrantId == g.grantId)
  }

  /** The worker's copy of the task: read in its epoch it names the grant, otherwise it shows a later epoch. */
  predicate CopyOk(tables: Tables, id: string, lease: Lease, g: Grant, task: Task)
  {
    && RecordedGrant(tables, id, lease, g)
    && task.authority == TaskOf(tables, id).authority
    && lease.fencingToken <= task.fencingToken <= TaskOf(tables, id).fencingToken
    && (task.fencingToken == lease.fencingToken ==> task.executionGrantId == g.grantId)
  }

  /** The envelope was made for this epoch and grant. */
  predicate MadeFor(tables: Tables, id: string, lease: Lease, g: Grant, e: Envelope)
  {
    && RecordedGrant(tables, id, lease, g)
    && e.taskId == id && e.tenantId == TaskOf(tables, id).authority.tenantId
    && e.fencingToken == lease.fencingToken && e.executionGrantId == g.grantId
    && e.attemptId == Evidence.AttemptId(id, lease.fencingToken)
  }

  predicate Stored(tables: Tables, e: Envelope)
  {
    e.evidenceId in tables.envelopes && tables.envelopes[e.evidenceId] == e
  }

  predicate RunOk(tables: Tables, r: Run)
  {
    match r.stage
    case Acquiring => true
    case Starting(lease) => NothingRecorded(tables, r.taskId, lease)
    case Reading(lease) => NothingRecorded(tables, r.taskId, lease)
    case Authorising(lease, _) => NothingRecorded(tables, r.taskId, lease)
    case Recording(lease, g) => NothingRecorded(tables, r.taskId, lease) && g.grantId != ""
    case Rereading(lease, g) => RecordedGrant(tables, r.taskId, lease, g)
    case Exchanging(lease, g, task) => CopyOk(tables, r.taskId, lease, g, task)
    case Capturing(lease, g, task) => CopyOk(tables, r.taskId, lease, g, task)
    case Persisting(lease, g, e) => MadeFor(tables, r.taskId, lease, g, e)
    case Finishing(lease, g, e) => MadeFor(tables, r.taskId, lease, g, e) && Stored(tables, e)
    case Concluding(lease, g, e) => MadeFor(tables, r.taskId, lease, g, e) && Stored(tables, e)
    case Failing(lease) => LeaseOk(tables, r.taskId, lease)
    case Stopped => true
  }

  /** No two runs hold the same epoch of a task. */
  predicate EpochsDistinct(runs: map<nat, Run>)
  {
    forall x, y :: x in runs && y in runs && x != y && runs[x].stage.HasLease() && runs[y].stage.HasLease()
                   && runs[x].taskId == runs[y].taskId ==>
                     runs[x].stage.lease.fencingToken != runs[y].stage.lease.fencingToken
  }

  /** An envelope names its attempt by task and fence; while its epoch lasts, the task row names its grant. */
  predicate EnvelopeOk(tables: Tables, e: Envelope)
  {
    && e.taskId in tables.tasks && e.executionGrantId != ""
    && e.attemptId == Evidence.AttemptId(e.taskId, e.fencingToken)
    && 0 < e.fencingToken <= TaskOf(tables, e.taskId).fencingToken
    && (TaskOf(tables, e.taskId).fencingToken == e.fencingToken ==>
          TaskOf(tables, e.taskId).executionGrantId == e.executionGrantId)
  }

  /** The accepted evidence is a stored envelope of the task's own tenant, attempt, fence and grant. */
  predicate EvidenceOf(tables: Tables, t: Task)
  {
    && t.acceptedEvidenceId in tables.envelopes
    && var e := tables.envelopes[t.acceptedEvidenceId];
       && e.taskId == t.authority.id && e.tenantId == t.authority.tenantId
       && e.fencingToken == t.fencingToken && e.executionGrantId == t.executionGrantId
       && e.attemptId == t.acceptedAttemptId
  }

  predicate AcceptedOk(tables: Tables, t: Task)
  {
    t.state.Succeeded? ==> EvidenceOf(tables, t)
  }

  /** What relates the tables to each other. */
  predicate LinksOk(tables: Tables)
  {
    && Reconciliation.EnvelopesOk(tables)
    && (forall id :: id in tables.envelopes ==> EnvelopeOk(tables, tables.envelopes[id]))
    && (forall id :: id in tables.tasks ==> AcceptedOk(tables, TaskOf(tables, id)))
    && Grants.LedgerOk(tables.consumptions)
  }

  predicate TablesInv(tables: Tables)
  {
    TasksOk(tables) && LinksOk(tables)
  }

  predicate Inv(s: State)
  {
    && TablesInv(s.tables)
    && (forall run :: run in s.runs ==> RunOk(s.tables, s.runs[run]))
    && EpochsDistinct(s.runs)
  }

  // ----- How rows evolve

  /** Any change of a task but the recording of a grant: the epoch goes on unchanged, or a new one starts without grant. */
  predicate Evolves(t: Task, t': Task)
  {
    && t'.authority == t.authority
    && (t'.fencingToken == t.fencingToken ==> t'.executionGrantId == t.executionGrantId)
    && (t'.fencingToken == t.fencingToken || t'.fencingToken == t.fencingToken + 1)
    && (t'.fencingToken == t.fencingToken + 1 ==> t'.executionGrantId == "" && !t'.state.Succeeded?)
    && (t.state.Succeeded? ==> t' == t)
    && (t.state.RetryWait? && t'.fencingToken == t.fencingToken ==> t' == t)
  }

  predicate TablesEvolve(a: Tables, b: Tables)
  {
    && (forall id :: id in a.tasks ==> id in b.tasks && Evolves(TaskOf(a, id), TaskOf(b, id)))
    && (forall id :: id in a.envelopes ==> id in b.envelopes && b.envelopes[id] == a.envelopes[id])
  }

  lemma RunSurvives(a: Tables, b: Tables, r: Run)
    requires RunOk(a, r) && TablesEvolve(a, b)
    ensures RunOk(b, r)
  {
    if r.stage.HasLease() {
      assert Evolves(TaskOf(a, r.taskId), TaskOf(b, r.taskId));
    }
  }

  lemma EnvelopeSurvives(a: Tables, b: Tables, e: Envelope)
    requires EnvelopeOk(a, e) && TablesEvolve(a, b)
    ensures EnvelopeOk(b, e)
  {
    assert Evolves(TaskOf(a, e.taskId), TaskOf(b, e.taskId));
  }

  /** A store operation other than recording lets the task evolve. */
  lemma EffectEvolves(t: Task, c: Command)
    requires Consistent(t) && Permitted(t, c) && !c.RecordAuthority?
    ensures Evolves(t, Effect(t, c))
  {
  }

  // ----- Every step keeps the invariant

  lemma EvolvingTablesKeepLinks(a: Tables, b: Tables)
    requires LinksOk(a) && TablesEvolve(a, b)
    requires b.envelopes == a.envelopes && b.consumptions == a.consumptions
    requires forall id :: id in b.tasks ==> AcceptedOk(b, TaskOf(b, id))
    ensures LinksOk(b)
  {
    forall id | id in b.envelopes ensures EnvelopeOk(b, b.envelopes[id]) {
      EnvelopeSurvives(a, b, a.envelopes[id]);
    }
    assert Reconciliation.EnvelopesOk(b) by {
      forall id | id in b.envelopes
        ensures var e := b.envelopes[id];
                e.taskId in b.tasks && TaskOf(b, e.taskId).authority.tenantId == e.tenantId
      {
        assert Evolves(TaskOf(a, b.envelopes[id].taskId), TaskOf(b, b.envelopes[id].taskId));
      }
    }
  }

  /** The epoch a run holds after its step is the one it held, or a new one. */
  predicate LeaseKeptOrNew(s: State, r: Run, stage: Stage)
  {
    stage.HasLease() ==>
      || (r.stage.HasLease() && stage.lease.fencingToken == r.stage.lease.fencingToken)
      || (r.taskId in s.tables.tasks && stage.lease.fencingToken > TaskOf(s.tables, r.taskId).fencingToken)
  }

  function Moved(s: State, run: nat, x: Stepped): State
    requires run in s.runs
  {
    s.(tables := x.tables, issued := x.issued, runs := s.runs[run := s.runs[run].(stage := x.stage)])
  }

  lemma EpochsStayDistinct(s: State, run: nat, stage: Stage)
    requires Inv(s) && run in s.runs && LeaseKeptOrNew(s, s.runs[run], stage)
    ensures EpochsDistinct(s.runs[run := s.runs[run].(stage := stage)])
  {
    forall x | x in s.runs && s.runs[x].stage.HasLease()
      ensures LeaseOk(s.tables, s.runs[x].taskId, s.runs[x].stage.lease)
    {
      assert RunOk(s.tables, s.runs[x]);
    }
  }

  lemma MovedKeepsInv(s: State, run: nat, x: Stepped)
    requires Inv(s) && run in s.runs && LeaseKeptOrNew(s, s.runs[run], x.stage)
    requires TablesInv(x.tables) && TablesEvolve(s.tables, x.tables)
    requires RunOk(x.tables, s.runs[run].(stage := x.stage))
    ensures Inv(Moved(s, run, x))
  {
    EpochsStayDistinct(s, run, x.stage);
    forall other | other in s.runs && other != run ensures RunOk(x.tables, s.runs[other]) {
      RunSurvives(s.tables, x.tables, s.runs[other]);
    }
  }

  lemma SameTablesEvolve(tables: Tables)
    ensures TablesEvolve(tables, tables)
  {
  }

  /** Table `b` is table `a` with at most the task row `id` replaced. */
  predicate RowReplaced(a: Tables, b: Tables, id: string)
  {
    && id in a.tasks && b == a.(tasks := b.tasks) && b.tasks.Keys == a.tasks.Keys
    && forall other :: other in a.tasks && other != id ==> b.tasks[other] == a.tasks[other]
  }

  lemma OneRowEvolves(a: Tables, b: Tables, id: string)
    requires RowReplaced(a, b, id) && Evolves(TaskOf(a, id), TaskOf(b, id))
    ensures TablesEvolve(a, b)
  {
  }

  lemma OthersStayAccepted(a: Tables, b: Tables, id: string)
    requires RowReplaced(a, b, id) && AcceptedOk(b, TaskOf(b, id))
    requires forall other :: other in a.tasks ==> AcceptedOk(a, TaskOf(a, other))
    ensures forall other :: other in b.tasks ==> AcceptedOk(b, TaskOf(b, other))
  {
    forall other | other in b.tasks && other != id ensures AcceptedOk(b, TaskOf(b, other)) {
      assert AcceptedOk(a, TaskOf(a, other));
    }
  }

  /** One replaced row, evolving, keeps the tables' invariant. */
  lemma ReplacedRowKeepsInv(a: Tables, b: Tables, id: string)
    requires TablesInv(a) && TasksOk(b) && RowReplaced(a, b, id)
    requires Evolves(TaskOf(a, id), TaskOf(b, id)) && AcceptedOk(b, TaskOf(b, id))
    ensures TablesInv(b) && TablesEvolve(a, b)
  {
    OneRowEvolves(a, b, id);
    OthersStayAccepted(a, b, id);
    EvolvingTablesKeepLinks(a, b);
  }

  predicate Sends(stage: Stage)
  {
    stage.Acquiring? || stage.Starting? || stage.Recording? || stage.Finishing? || stage.Concluding? || stage.Failing?
  }

  /** A successful operation replaces one row by the store's result. */
  lemma DurableReplacesRow(tables: Tables, id: string, c: Command)
    requires TasksOk(tables) && DurableCall(tables, id, c).0.Success?
    ensures var (outcome, after) := DurableCall(tables, id, c);
            && RowReplaced(tables, after, id) && TaskOf(after, id) == outcome.value
            && Consistent(TaskOf(tables, id)) && TaskOf(tables, id).authority.id == id
            && Permitted(TaskOf(tables, id), Truncated(c)) && outcome.value == Effect(TaskOf(tables, id), Truncated(c))
  {
    DurableStepIsStoreStep(tables, id, c);
    assert RowOk(tables, id);
  }

  /** An operation that records no grant, and accepts only what it may, keeps the tables' invariant. */
  lemma OperationKeepsInv(tables: Tables, id: string, c: Command)
    requires TablesInv(tables) && DurableCall(tables, id, c).0.Success? && !c.RecordAuthority?
    requires AcceptedOk(tables, DurableCall(tables, id, c).0.value)
    ensures TablesInv(DurableCall(tables, id, c).1) && TablesEvolve(tables, DurableCall(tables, id, c).1)
  {
    var after := DurableCall(tables, id, c).1;
    DurableReplacesRow(tables, id, c);
    assert TasksOk(after) by { DurableStepKeepsRows(tables, id, c); }
    EffectEvolves(TaskOf(tables, id), Truncated(c));
    ReplacedRowKeepsInv(tables, after, id);
  }

  lemma SentRow(s: State, run: nat, input: Input)
    requires Inv(s) && run in s.runs && Sends(s.runs[run].stage) && !s.runs[run].stage.Recording?
    requires DurableCall(s.tables, s.runs[run].taskId, Sent(s.runs[run], input)).0.Success?
    ensures var after := DurableCall(s.tables, s.runs[run].taskId, Sent(s.runs[run], input)).1;
            TablesInv(after) && TablesEvolve(s.tables, after)
  {
    var id, c := s.runs[run].taskId, Sent(s.runs[run], input);
    assert AcceptedOk(s.tables, DurableCall(s.tables, id, c).0.value) by {
      DurableReplacesRow(s.tables, id, c);
      AcceptedByCommit(s, run, input);
    }
    OperationKeepsInv(s.tables, id, c);
  }

  lemma OnlyCommitSucceeds(t: Task, c: Command)
    requires Consistent(t) && Permitted(t, c) && !c.Commit?
    ensures !Effect(t, c).state.Succeeded?
  {
  }

  /** A commit accepts the envelope stored for the epoch and grant the row carries. */
  lemma CommitAcceptsItsEnvelope(tables: Tables, id: string, lease: Lease, g: Grant, e: Envelope, c: Command)
    requires MadeFor(tables, id, lease, g, e) && Stored(tables, e) && TaskOf(tables, id).authority.id == id
    requires c.Commit? && c.token == lease.fencingToken && c.attemptId == e.attemptId && c.evidenceId == e.evidenceId
    requires Permitted(TaskOf(tables, id), c)
    ensures AcceptedOk(tables, Effect(TaskOf(tables, id), c))
  {
  }

  lemma AcceptedByCommit(s: State, run: nat, input: Input)
    requires Inv(s) && run in s.runs && Sends(s.runs[run].stage) && !s.runs[run].stage.Recording?
    requires s.runs[run].taskId in s.tables.tasks
    requires Permitted(TaskOf(s.tables, s.runs[run].taskId), Truncated(Sent(s.runs[run], input)))
    ensures AcceptedOk(s.tables, Effect(TaskOf(s.tables, s.runs[run].taskId), Truncated(Sent(s.runs[run], input))))
  {
    var r := s.runs[run];
    var c := Truncated(Sent(r, input));
    assert RowOk(s.tables, r.taskId);
    if r.stage.Concluding? {
      assert RunOk(s.tables, r);
      CommitAcceptsItsEnvelope(s.tables, r.taskId, r.stage.lease, r.stage.grant, r.stage.envelope, c);
    } else {
      OnlyCommitSucceeds(TaskOf(s.tables, r.taskId), c);
    }
  }

  lemma SendKeepsInv(s: State, run: nat, input: Input)
    requires Inv(s) && run in s.runs && Sends(s.runs[run].stage) && !s.runs[run].stage.Recording?
    ensures Inv(Moved(s, run, SendStep(s, s.runs[run], input)))
  {
    var r := s.runs[run];
    var (outcome, after) := DurableCall(s.tables, r.taskId, Sent(r, input));
    var x := SendStep(s, r, input);
    assert RunOk(s.tables, r);
    if outcome.Success? {
      SentRow(s, run, input);
      SentStageOk(s, r, input);
    } else {
      SameTablesEvolve(s.tables);
    }
    MovedKeepsInv(s, run, x);
  }

  lemma SentStageOk(s: State, r: Run, input: Input)
    requires TasksOk(s.tables) && RunOk(s.tables, r)
    requires Sends(r.stage) && !r.stage.Recording?
    requires DurableCall(s.tables, r.taskId, Sent(r, input)).0.Success?
    requires TablesEvolve(s.tables, SendStep(s, r, input).tables)
    ensures var x := SendStep(s, r, input);
            RunOk(x.tables, r.(stage := x.stage)) && LeaseKeptOrNew(s, r, x.stage)
  {
    DurableReplacesRow(s.tables, r.taskId, Sent(r, input));
    RunSurvives(s.tables, SendStep(s, r, input).tables, r);
  }

  // ----- Recording the grant of an epoch

  /** Row `id` differs only in the execution authority it names. */
  predicate AuthorityRecorded(a: Tables, b: Tables, id: string, g: Grant)
  {
    && RowReplaced(a, b, id)
    && TaskOf(b, id) == TaskOf(a, id).(executionDecisionId := g.executionDecisionId, executionGrantId := g.grantId)
  }

  /** Other runs of the task hold other epochs, so they are not affected. */
  lemma RunSurvivesRecording(a: Tables, b: Tables, id: string, g: Grant, r: Run)
    requires AuthorityRecorded(a, b, id, g) && RunOk(a, r)
    requires r.stage.HasLease() && r.taskId == id ==> r.stage.lease.fencingToken != TaskOf(a, id).fencingToken
    ensures RunOk(b, r)
  {
  }

  /** The epoch had no grant, so no envelope belongs to it yet. */
  lemma RecordingKeepsLinks(a: Tables, b: Tables, id: string, g: Grant)
    requires LinksOk(a) && AuthorityRecorded(a, b, id, g)
    requires TaskOf(a, id).executionGrantId == "" && !TaskOf(a, id).state.Succeeded?
    ensures LinksOk(b)
  {
    OthersStayAccepted(a, b, id);
    forall e | e in b.envelopes ensures EnvelopeOk(b, b.envelopes[e]) {
      assert EnvelopeOk(a, a.envelopes[e]);
    }
  }

  lemma RecordKeepsInv(s: State, run: nat, input: Input)
    requires Inv(s) && run in s.runs && s.runs[run].stage.Recording?
    ensures Inv(Moved(s, run, SendStep(s, s.runs[run], input)))
  {
    var r := s.runs[run];
    var x := SendStep(s, r, input);
    assert RunOk(s.tables, r);
    if DurableCall(s.tables, r.taskId, Sent(r, input)).0.Success? {
      RecordedRow(s.tables, r, input);
      assert TablesInv(x.tables) by { RecordKeepsTables(s.tables, r, input); }
      RecordingKeepsRuns(s, run, x);
    } else {
      SameTablesEvolve(s.tables);
      MovedKeepsInv(s, run, x);
    }
  }

  lemma RecordKeepsTables(tables: Tables, r: Run, input: Input)
    requires TablesInv(tables) && r.stage.Recording? && RunOk(tables, r)
    requires DurableCall(tables, r.taskId, Sent(r, input)).0.Success?
    ensures TablesInv(DurableCall(tables, r.taskId, Sent(r, input)).1)
  {
    var c := Sent(r, input);
    var after := DurableCall(tables, r.taskId, c).1;
    assert TasksOk(after) by { DurableStepKeepsRows(tables, r.taskId, c); }
    assert LinksOk(after) by {
      RecordedRow(tables, r, input);
      RecordingKeepsLinks(tables, after, r.taskId, r.stage.grant);
    }
  }

  lemma RecordedRow(tables: Tables, r: Run, input: Input)
    requires TasksOk(tables) && r.stage.Recording? && RunOk(tables, r)
    requires DurableCall(tables, r.taskId, Sent(r, input)).0.Success?
    ensures AuthorityRecorded(tables, DurableCall(tables, r.taskId, Sent(r, input)).1, r.taskId, r.stage.grant)
    ensures var t := TaskOf(tables, r.taskId);
            t.fencingToken == r.stage.lease.fencingToken && t.executionGrantId == "" && !t.state.Succeeded?
  {
    DurableReplacesRow(tables, r.taskId, Sent(r, input));
  }

  lemma RecordingKeepsRuns(s: State, run: nat, x: Stepped)
    requires Inv(s) && run in s.runs && s.runs[run].stage.Recording?
    requires x.stage == Rereading(s.runs[run].stage.lease, s.runs[run].stage.grant) && TablesInv(x.tables)
    requires AuthorityRecorded(s.tables, x.tables, s.runs[run].taskId, s.runs[run].stage.grant)
    requires TaskOf(s.tables, s.runs[run].taskId).fencingToken == s.runs[run].stage.lease.fencingToken
    ensures Inv(Moved(s, run, x))
  {
    var r := s.runs[run];
    assert RunOk(s.tables, r);
    EpochsStayDistinct(s, run, x.stage);
    forall other | other in s.runs && other != run ensures RunOk(x.tables, s.runs[other]) {
      RunSurvivesRecording(s.tables, x.tables, r.taskId, r.stage.grant, s.runs[other]);
    }
  }

  // ----- The other steps of a run

  lemma LocalStepKeepsInv(s: State, run: nat, input: Input)
    requires Inv(s) && run in s.runs
    requires var stage := s.runs[run].stage;
             stage.Reading? || stage.Authorising? || stage.Rereading? || stage.Capturing? || stage.Stopped?
    ensures Inv(Moved(s, run, StepRun(s, s.runs[run], input)))
  {
    LocalStageOk(s, run, input);
    SameTablesEvolve(s.tables);
    MovedKeepsInv(s, run, StepRun(s, s.runs[run], input));
  }

  lemma LocalStageOk(s: State, run: nat, input: Input)
    requires TasksOk(s.tables) && run in s.runs && RunOk(s.tables, s.runs[run])
    requires var stage := s.runs[run].stage;
             stage.Reading? || stage.Authorising? || stage.Rereading? || stage.Capturing? || stage.Stopped?
    ensures var x := StepRun(s, s.runs[run], input);
            && x.tables == s.tables && LeaseKeptOrNew(s, s.runs[run], x.stage)
            && RunOk(s.tables, s.runs[run].(stage := x.stage))
  {
    if s.runs[run].stage.Capturing? {
      AssembledForEpoch(s.tables, s.runs[run], input);
    }
  }

  /** Assembly succeeds only in the epoch of the worker's copy, so the envelope names the epoch's grant. */
  lemma AssembledForEpoch(tables: Tables, r: Run, input: Input)
    requires TasksOk(tables) && RunOk(tables, r) && r.stage.Capturing?
    ensures var Capturing(lease, g, task) := r.stage;
            var assembled := Evidence.Assemble(tables, task, lease.owner, lease.fencingToken, input.sealed, input.now);
            assembled.Success? ==> MadeFor(tables, r.taskId, lease, g, assembled.value)
  {
    assert RowOk(tables, r.taskId);
  }

  /** Rows depend on the task and envelope tables alone, and survive more envelopes. */
  lemma MoreEnvelopesKeepRows(a: Tables, b: Tables)
    requires TasksOk(a) && b.tasks == a.tasks
    requires forall id :: id in a.envelopes ==> id in b.envelopes && b.envelopes[id] == a.envelopes[id]
    ensures TasksOk(b)
  {
    forall id | id in b.tasks ensures RowOk(b, id) {
      assert RowOk(a, id);
    }
  }

  lemma PersistKeepsLinks(a: Tables, b: Tables, e: Envelope)
    requires LinksOk(a) && EnvelopeOk(a, e) && b == a.(envelopes := a.envelopes[e.evidenceId := e])
    requires e.evidenceId !in a.envelopes && e.evidenceId != "" && e.attemptId != ""
    requires TaskOf(a, e.taskId).authority.tenantId == e.tenantId
    ensures LinksOk(b)
  {
    forall t | t in b.tasks ensures AcceptedOk(b, TaskOf(b, t)) {
      assert AcceptedOk(a, TaskOf(a, t));
    }
    forall k | k in b.envelopes ensures EnvelopeOk(b, b.envelopes[k]) {
      assert k in a.envelopes ==> EnvelopeOk(a, a.envelopes[k]);
    }
  }

  /** Storing an envelope adds a row or changes nothing. */
  lemma CreateAddsAtMostOne(a: Tables, e: Envelope)
    ensures var (r, b) := Evidence.Create(a, e);
            && (r.Pass? ==> Stored(b, e))
            && (b == a || (&& b == a.(envelopes := a.envelopes[e.evidenceId := e]) && e.evidenceId !in a.envelopes
                           && e.evidenceId != "" && e.attemptId != ""))
  {
  }

  lemma PersistKeepsTables(a: Tables, id: string, lease: Lease, g: Grant, e: Envelope)
    requires TablesInv(a) && MadeFor(a, id, lease, g, e)
    ensures TablesInv(Evidence.Create(a, e).1) && TablesEvolve(a, Evidence.Create(a, e).1)
  {
    var b := Evidence.Create(a, e).1;
    CreateAddsAtMostOne(a, e);
    assert TasksOk(b) by { MoreEnvelopesKeepRows(a, b); }
    if b != a {
      PersistKeepsLinks(a, b, e);
    }
  }

  lemma PersistKeepsInv(s: State, run: nat, input: Input)
    requires Inv(s) && run in s.runs && s.runs[run].stage.Persisting?
    ensures Inv(Moved(s, run, StepRun(s, s.runs[run], input)))
  {
    var r := s.runs[run];
    assert RunOk(s.tables, r);
    PersistKeepsTables(s.tables, r.taskId, r.stage.lease, r.stage.grant, r.stage.envelope);
    CreateAddsAtMostOne(s.tables, r.stage.envelope);
    var x := StepRun(s, r, input);
    RunSurvives(s.tables, x.tables, r);
    MovedKeepsInv(s, run, x);
  }

  lemma LedgerKeepsLinks(a: Tables, b: Tables)
    requires LinksOk(a) && b == a.(consumptions := b.consumptions) && Grants.LedgerOk(b.consumptions)
    ensures LinksOk(b)
  {
    forall t | t in b.tasks ensures AcceptedOk(b, TaskOf(b, t)) {
      assert AcceptedOk(a, TaskOf(a, t));
    }
    forall k | k in b.envelopes ensures EnvelopeOk(b, b.envelopes[k]) {
      assert EnvelopeOk(a, a.envelopes[k]);
    }
  }

  lemma ExchangeChangesLedgerOnly(a: Tables, issued: set<Grant>, issuer: string, audience: string, g: Grant,
                                  request: Grants.ExchangeRequest, digests: Grants.Digests,
                                  clock: Grants.DatabaseClock)
    requires Grants.LedgerOk(a.consumptions)
    ensures var b := Grants.Exchange(a, issued, issuer, audience, g, request, digests, clock).1;
            b == a.(consumptions := b.consumptions) && Grants.LedgerOk(b.consumptions)
  {
    Grants.ConsumeNeedsTheExecutingAttempt(a, Grants.ConsumptionOf(g, digests, request.now), clock);
  }

  lemma ExchangeKeepsTables(a: Tables, issued: set<Grant>, issuer: string, audience: string, g: Grant,
                            request: Grants.ExchangeRequest, digests: Grants.Digests, clock: Grants.DatabaseClock)
    requires TablesInv(a)
    ensures var b := Grants.Exchange(a, issued, issuer, audience, g, request, digests, clock).1;
            TablesInv(b) && TablesEvolve(a, b)
  {
    var b := Grants.Exchange(a, issued, issuer, audience, g, request, digests, clock).1;
    ExchangeChangesLedgerOnly(a, issued, issuer, audience, g, request, digests, clock);
    assert TasksOk(b) by { MoreEnvelopesKeepRows(a, b); }
    LedgerKeepsLinks(a, b);
  }

  lemma ExchangeStepKeepsTables(s: State, r: Run, input: Input)
    requires TablesInv(s.tables) && r.stage.Exchanging?
    ensures var x := ExchangeStep(s, r, input);
            && TablesInv(x.tables) && TablesEvolve(s.tables, x.tables)
            && (x.stage == Capturing(r.stage.lease, r.stage.grant, r.stage.task) || x.stage == Failing(r.stage.lease))
  {
    var Exchanging(lease, g, task) := r.stage;
    var request := Grants.ExchangeRequest(r.worker.id, task.authority.id, task.authority.targetId,
                                          task.authority.recipeId, task.authority.recipeVersion, lease.fencingToken,
                                          input.now);
    ExchangeKeepsTables(s.tables, s.issued, s.issuer, s.audience, g, request, input.digests, input.clock);
  }

  lemma ExchangeKeepsInv(s: State, run: nat, input: Input)
    requires Inv(s) && run in s.runs && s.runs[run].stage.Exchanging?
    ensures Inv(Moved(s, run, ExchangeStep(s, s.runs[run], input)))
  {
    var r := s.runs[run];
    assert RunOk(s.tables, r);
    var x := ExchangeStep(s, r, input);
    ExchangeStepKeepsTables(s, r, input);
    RunSurvives(s.tables, x.tables, r);
    MovedKeepsInv(s, run, x);
  }

  lemma WorkKeepsInv(s: State, run: nat, input: Input)
    requires Inv(s) && run in s.runs
    ensures Inv(Moved(s, run, StepRun(s, s.runs[run], input)))
  {
    var stage := s.runs[run].stage;
    if stage.Recording? {
      RecordKeepsInv(s, run, input);
    } else if Sends(stage) {
      SendKeepsInv(s, run, input);
    } else if stage.Persisting? {
      PersistKeepsInv(s, run, input);
    } else if stage.Exchanging? {
      ExchangeKeepsInv(s, run, input);
    } else {
      LocalStepKeepsInv(s, run, input);
    }
  }

  // ----- Steps outside the runs

  lemma InterruptKeepsInv(s: State, run: nat, retries: bool)
    requires Inv(s)
    ensures Inv(Next(s, Interrupt(run, retries)))
  {
    if run in s.runs {
      var stage := s.runs[run].stage;
      assert RunOk(s.tables, s.runs[run]);
      SameTablesEvolve(s.tables);
      MovedKeepsInv(s, run, Stepped(s.tables, s.issued,
                                    if retries && stage.HasLease() then Failing(stage.lease) else Stopped));
    }
  }

  lemma ReconciledRow(a: Tables, evidenceId: string, at: Time)
    requires LinksOk(a) && Reconciliation.Reconcile(a, evidenceId, at).1 != a
    ensures evidenceId in a.envelopes
    ensures var b, id := Reconciliation.Reconcile(a, evidenceId, at).1, a.envelopes[evidenceId].taskId;
            RowReplaced(a, b, id) && Evolves(TaskOf(a, id), TaskOf(b, id)) && AcceptedOk(b, TaskOf(b, id))
  {
    Reconciliation.ReconcileChanges(a, evidenceId, at);
  }

  lemma ReconcileKeepsTables(a: Tables, evidenceId: string, at: Time)
    requires TablesInv(a)
    ensures TablesInv(Reconciliation.Reconcile(a, evidenceId, at).1)
    ensures TablesEvolve(a, Reconciliation.Reconcile(a, evidenceId, at).1)
  {
    var b := Reconciliation.Reconcile(a, evidenceId, at).1;
    SameTablesEvolve(a);
    if b != a {
      assert TasksOk(b) by { Reconciliation.ReconcileKeepsRows(a, evidenceId, at); }
      ReconciledRow(a, evidenceId, at);
      ReplacedRowKeepsInv(a, b, a.envelopes[evidenceId].taskId);
    }
  }

  lemma AddKeepsRows(a: Tables, task: Task, createdAt: Time)
    requires TasksOk(a) && createdAt != ZERO
    ensures TasksOk(AddRow(a, task, createdAt).1)
  {
    var b := AddRow(a, task, createdAt).1;
    forall id | id in b.tasks ensures RowOk(b, id) {
      assert id in a.tasks ==> RowOk(a, id);
    }
  }

  lemma MoreTasksKeepLinks(a: Tables, b: Tables)
    requires LinksOk(a) && b == a.(tasks := b.tasks)
    requires forall id :: id in a.tasks ==> id in b.tasks && b.tasks[id] == a.tasks[id]
    requires forall id :: id in b.tasks && id !in a.tasks ==> !TaskOf(b, id).state.Succeeded?
    ensures LinksOk(b) && TablesEvolve(a, b)
  {
    forall t | t in b.tasks ensures AcceptedOk(b, TaskOf(b, t)) {
      assert t in a.tasks ==> AcceptedOk(a, TaskOf(a, t));
    }
    forall k | k in b.envelopes ensures EnvelopeOk(b, b.envelopes[k]) {
      assert EnvelopeOk(a, a.envelopes[k]);
    }
  }

  lemma AddKeepsTables(a: Tables, task: Task, createdAt: Time)
    requires TablesInv(a) && createdAt != ZERO
    ensures TablesInv(AddRow(a, task, createdAt).1) && TablesEvolve(a, AddRow(a, task, createdAt).1)
  {
    assert TasksOk(AddRow(a, task, createdAt).1) by { AddKeepsRows(a, task, createdAt); }
    MoreTasksKeepLinks(a, AddRow(a, task, createdAt).1);
  }

  lemma TablesStepKeepsInv(s: State, tables: Tables)
    requires Inv(s) && TablesInv(tables) && TablesEvolve(s.tables, tables)
    ensures Inv(s.(tables := tables))
  {
    forall run | run in s.runs ensures RunOk(tables, s.runs[run]) {
      RunSurvives(s.tables, tables, s.runs[run]);
    }
  }

  lemma NextKeepsInv(s: State, a: Action)
    requires Inv(s)
    ensures Inv(Next(s, a))
  {
    match a
    case AddTask(task, createdAt) =>
      if createdAt != ZERO {
        AddKeepsTables(s.tables, task, createdAt);
        TablesStepKeepsInv(s, AddRow(s.tables, task, createdAt).1);
      }
    case Spawn(run, worker, taskId) =>
    case Work(run, input) =>
      if run in s.runs {
        WorkKeepsInv(s, run, input);
      }
    case Interrupt(run, retries) => InterruptKeepsInv(s, run, retries);
    case Reconcile(evidenceId, at) =>
      ReconcileKeepsTables(s.tables, evidenceId, at);
      TablesStepKeepsInv(s, Reconciliation.Reconcile(s.tables, evidenceId, at).1);
    case Issue(g, algorithm, keyRef) =>
    case Present(g, request, digests, clock) =>
      ExchangeKeepsTables(s.tables, s.issued, s.issuer, s.audience, g, request, digests, clock);
      TablesStepKeepsInv(s, Grants.Exchange(s.tables, s.issued, s.issuer, s.audience, g, request, digests, clock).1);
  }

  lemma {:induction false} InvAlways(states: seq<State>, actions: seq<Action>, i: nat)
    requires Behaviour(states, actions) && i < |states|
    ensures Inv(states[i])
  {
    if i > 0 {
      InvAlways(states, actions, i - 1);
      NextKeepsInv(states[i - 1], actions[i - 1]);
    }
  }
}
