/**
 The protocol is not stuck: from every reachable state, a worker that is left alone with answering
 peers and clock readings within its lease takes an unfinished task to success, wherever earlier
 workers stopped.
 */
module CollectionProgress {
  import opened Wrappers
  import opened Clock
  import opened CollectorTask
  import opened CollectorRuns
  import opened BrokerDatabase
  import opened CollectorRepository
  import opened CollectionProtocol
  import Evidence
  import Grants

  function With(tables: Tables, id: string, t: Task): Tables
    requires id in tables.tasks
  {
    tables.(tasks := tables.tasks[id := tables.tasks[id].(task := t)])
  }

  /** The state with other tables and the run at another stage. */
  function At(s: State, run: nat, tables: Tables, issued: set<Grant>, stage: Stage): State
    requires run in s.runs
  {
    s.(tables := tables, issued := issued, runs := s.runs[run := s.runs[run].(stage := stage)])
  }

  /** The run takes one step per input and nothing else happens. */
  function Works(s: State, run: nat, inputs: seq<Input>): State
  {
    if inputs == [] then s
    else CollectionProtocol.Next(Works(s, run, inputs[..|inputs| - 1]), Work(run, inputs[|inputs| - 1]))
  }

  // ----- What the environment must supply

  /** Steps that ask something of the environment, by number. */
  const STEPS: nat := 11
  const AUTHORISING: nat := 3
  const EXCHANGING: nat := 6
  const CAPTURING: nat := 7

  type Inputs = inputs: seq<Input> | |inputs| == STEPS witness seq(STEPS, _ => INPUT)

  const INPUT: Input := Input(
    0, false, "", 0, 0, 0, "", "", "", "", Grants.Digests("", ""), Grants.DatabaseClock(0, 0),
    Evidence.Sealed("", 0, 0, ""), None)

  /** When the lease taken at the first reading ends. */
  function LeaseEnd(w: Worker, inputs: Inputs): int
  {
    Truncate(inputs[0].now) + TruncateDuration(w.leaseDuration)
  }

  function GrantEnd(w: Worker, inputs: Inputs): int
  {
    var requested := inputs[AUTHORISING].issuedAt + w.grantTTL;
    if LeaseEnd(w, inputs) < requested then LeaseEnd(w, inputs) else requested
  }

  /** Every clock reading falls within the lease, and those of the exchange within the grant; none need be ordered. */
  predicate Timely(w: Worker, inputs: Inputs, createdAt: Time)
  {
    && TruncateDuration(w.leaseDuration) > 0
    && (forall k :: 0 <= k < STEPS ==> createdAt <= Truncate(inputs[k].now) && inputs[k].now < LeaseEnd(w, inputs))
    && ZERO < inputs[AUTHORISING].issuedAt <= inputs[EXCHANGING].now < GrantEnd(w, inputs)
    && inputs[AUTHORISING].issuedAt + inputs[AUTHORISING].maximumDuration <= GrantEnd(w, inputs)
    && inputs[EXCHANGING].clock.checkedAt < GrantEnd(w, inputs)
    && inputs[EXCHANGING].clock.consumedAt < GrantEnd(w, inputs)
  }

  /** The authoriser, the signer and the pipeline answer with usable identifiers and documents. */
  predicate Answered(w: Worker, inputs: Inputs)
  {
    Identity(w.id) && Authorises(w, inputs[AUTHORISING]) && Digested(inputs[EXCHANGING]) && Captures(inputs[CAPTURING])
  }

  predicate Authorises(w: Worker, i: Input)
  {
    && i.proceeds && Identity(i.decisionId) && 0 < i.maximumBytes <= w.maximumBytes
    && 0 < i.maximumDuration <= w.maximumDuration
    && Identity(i.grantId) && i.nonce != "" && i.algorithm != "" && i.keyRef != ""
  }

  predicate Digested(i: Input)
  {
    Grants.LowerHexDigest(i.digests.nonce) && Grants.LowerHexDigest(i.digests.grant)
  }

  predicate Captures(i: Input)
  {
    && i.proceeds && Identity(i.sealed.evidenceId) && i.sealed.observedAt != ZERO
    && i.sealed.observedAt < i.sealed.validUntil && i.sealed.content != ""
  }

  /** The random identifiers have not been used before. */
  predicate Unused(tables: Tables, inputs: Inputs)
  {
    && GrantUnused(tables, inputs[AUTHORISING].grantId, inputs[EXCHANGING].digests.nonce)
    && inputs[CAPTURING].sealed.evidenceId !in tables.envelopes
  }

  predicate GrantUnused(tables: Tables, grantId: string, nonceDigest: string)
  {
    grantId !in tables.consumptions && !Grants.NonceUsed(tables.consumptions, nonceDigest)
  }

  // ----- A new epoch's attempt has left no trace

  predicate AttemptUnused(tables: Tables, id: string, token: nat, evidenceId: string)
  {
    var attempt := Evidence.AttemptId(id, token);
    && (forall e :: e in tables.envelopes ==> tables.envelopes[e].attemptId != attempt)
    && (forall other :: other in tables.tasks && other != id ==>
                          && tables.tasks[other].task.acceptedAttemptId != attempt
                          && tables.tasks[other].task.acceptedEvidenceId != evidenceId)
  }

  /** Fencing makes every new attempt identifier unused: the envelopes in store are of epochs already reached. */
  lemma NewAttemptIsUnused(tables: Tables, id: string, token: nat, evidenceId: string)
    requires TablesInv(tables) && id in tables.tasks && TaskOf(tables, id).fencingToken < token
    requires evidenceId !in tables.envelopes && evidenceId != ""
    ensures AttemptUnused(tables, id, token, evidenceId)
  {
    var attempt := Evidence.AttemptId(id, token);
    forall e | e in tables.envelopes
      ensures tables.envelopes[e].attemptId != attempt
    {
      var stored := tables.envelopes[e];
      assert EnvelopeOk(tables, stored);
      if stored.attemptId == attempt {
        Evidence.AttemptIdInjective(stored.taskId, stored.fencingToken, id, token);
        assert false;
      }
    }
    forall other | other in tables.tasks && other != id
      ensures tables.tasks[other].task.acceptedAttemptId != attempt
      ensures tables.tasks[other].task.acceptedEvidenceId != evidenceId
    {
      assert RowOk(tables, other);
      assert AcceptedOk(tables, TaskOf(tables, other));
    }
  }

  // ----- The steps

  lemma CallSucceeds(tables: Tables, id: string, c: Command)
    requires TasksOk(tables) && id in tables.tasks
    requires Permitted(tables.tasks[id].task, Truncated(c)) && Admissible(tables, id, c)
    ensures DurableCall(tables, id, c) == (Success(Effect(tables.tasks[id].task, Truncated(c))),
                                           With(tables, id, Effect(tables.tasks[id].task, Truncated(c))))
    ensures TasksOk(With(tables, id, Effect(tables.tasks[id].task, Truncated(c))))
  {
    DurableStepIsStoreStep(tables, id, c);
    DurableStepKeepsRows(tables, id, c);
  }

  lemma StepAt(s: State, run: nat, tables: Tables, issued: set<Grant>, stage: Stage, i: Input)
    requires run in s.runs
    ensures var here := At(s, run, tables, issued, stage);
            var x := StepRun(here, s.runs[run].(stage := stage), i);
            CollectionProtocol.Next(here, Work(run, i)) == At(s, run, x.tables, x.issued, x.stage)
  {
  }

  function Granted(s: State, w: Worker, lease: Lease, t: Task, i: Input): Grant
  {
    Signed(s, RequestedGrant(w, lease, t, i), i.algorithm, i.keyRef)
  }

  /** The task's row while the attempt lasts. */
  predicate Held(t: Task, w: Worker, token: nat, end: Time)
  {
    && t.leaseOwner == w.id && t.fencingToken == token > 0 && t.leaseExpiry == end
    && CompleteAuthority(t.authority) && t.acceptedAttemptId == ""
  }

  /** A reading at which the holder of the lease may act. */
  predicate Within(i: Input, createdAt: Time, end: Time)
  {
    ZERO < createdAt <= Truncate(i.now) && i.now < end
  }

  lemma TruncatedIsWithin(i: Input, createdAt: Time, end: Time)
    requires Within(i, createdAt, end)
    ensures ZERO < Truncate(i.now) <= i.now < end
  {
    TruncateBounds(i.now);
  }

  lemma AuthoriseSucceeds(s: State, w: Worker, id: string, lease: Lease, t: Task, i: Input, end: Time)
    requires s.issuer != "" && s.audience != "" && Authorises(w, i) && Held(t, w, lease.fencingToken, end)
    requires lease.expiresAt == end && i.issuedAt != ZERO && i.issuedAt + i.maximumDuration <= end
    requires i.maximumDuration <= w.grantTTL
    ensures Authorise(s, Run(w, id, Authorising(lease, t)), i) ==
            Stepped(s.tables, s.issued + {Granted(s, w, lease, t, i)}, Recording(lease, Granted(s, w, lease, t, i)))
  {
  }

  /** The grant names the attempt of the row. */
  predicate GrantFits(g: Grant, s: State, w: Worker, t: Task, token: nat)
  {
    && g.issuer == s.issuer && g.audience == s.audience && g.singleUse && g.collectorId == w.id
    && g.taskId == t.authority.id && g.targetId == t.authority.targetId && g.recipeId == t.authority.recipeId
    && g.recipeVersion == t.authority.recipeVersion && g.fencingToken == token && g.tenantId == t.authority.tenantId
    && g.grantId == t.executionGrantId && Identity(g.grantId) && Identity(g.collectorId)
  }

  /** The exchange is recorded in the ledger and yields a credential. */
  lemma ExchangeSucceeds(s: State, w: Worker, id: string, lease: Lease, g: Grant, t: Task, i: Input)
    requires id in s.tables.tasks && s.tables.tasks[id].task == t && t.authority.id == id
    requires Held(t, w, lease.fencingToken, t.leaseExpiry) && t.state.Executing? && g in s.issued
    requires GrantFits(g, s, w, t, lease.fencingToken) && Digested(i) && g.expiresAt <= t.leaseExpiry
    requires ZERO < g.notBefore <= i.now < g.expiresAt
    requires i.clock.checkedAt < g.expiresAt && i.clock.consumedAt < g.expiresAt
    requires GrantUnused(s.tables, g.grantId, i.digests.nonce)
    ensures var x := ExchangeStep(s, Run(w, id, Exchanging(lease, g, t)), i);
            && x.stage == Capturing(lease, g, t) && x.issued == s.issued
            && x.tables == s.tables.(consumptions := x.tables.consumptions)
  {
  }

  /** The envelope of the attempt. */
  function Sealing(t: Task, w: Worker, token: nat, i: Input): Envelope
  {
    Envelope(i.sealed.evidenceId, t.authority.tenantId, t.authority.id, Evidence.AttemptId(t.authority.id, token), token,
             t.executionGrantId, t.authority.targetId, t.authority.recipeId, w.id, i.sealed.observedAt,
             i.sealed.validUntil, i.sealed.content)
  }

  lemma AssembleSucceeds(tables: Tables, w: Worker, id: string, t: Task, token: nat, i: Input)
    requires id in tables.tasks && tables.tasks[id].task == t && t.authority.id == id
    requires Held(t, w, token, t.leaseExpiry) && w.id != "" && Captures(i) && ZERO < i.now < t.leaseExpiry
    requires t.state.Executing? && t.executionDecisionId != "" && t.executionGrantId != ""
    ensures Evidence.Assemble(tables, t, w.id, token, i.sealed, i.now) == Success(Sealing(t, w, token, i))
  {
  }

  lemma PersistSucceeds(tables: Tables, w: Worker, id: string, t: Task, token: nat, i: Input)
    requires id in tables.tasks && tables.tasks[id].task == t && t.authority.id == id
    requires Held(t, w, token, t.leaseExpiry) && Identity(w.id) && Captures(i) && Identity(t.executionGrantId)
    requires i.sealed.evidenceId !in tables.envelopes && AttemptUnused(tables, id, token, i.sealed.evidenceId)
    requires Identity(Evidence.AttemptId(id, token))
    ensures var e := Sealing(t, w, token, i);
            Evidence.Create(tables, e) == (Pass, tables.(envelopes := tables.envelopes[e.evidenceId := e]))
  {
  }

  predicate Free(t: Task, now: Time)
  {
    t.state.Available() || (t.state.Active() && t.leaseExpiry <= now)
  }

  /** The row after the worker's acquisition and start of execution. */
  function Started(t: Task, w: Worker, end: Time): Task
  {
    t.(state := Executing, leaseOwner := w.id, leaseExpiry := end,
       fencingToken := t.fencingToken + 1, attemptCount := t.attemptCount + 1,
       executionDecisionId := "", executionGrantId := "", lastError := "")
  }

  lemma AcquireSucceeds(s: State, w: Worker, id: string, i: Input, end: Time)
    requires TasksOk(s.tables) && id in s.tables.tasks && Free(s.tables.tasks[id].task, i.now) && Identity(w.id)
    requires TruncateDuration(w.leaseDuration) > 0 && end == Truncate(i.now) + TruncateDuration(w.leaseDuration)
    requires s.tables.tasks[id].createdAt <= Truncate(i.now)
    ensures var t := Started(s.tables.tasks[id].task, w, end).(state := Leased);
            && StepRun(s, Run(w, id, Acquiring), i) == Stepped(With(s.tables, id, t), s.issued, Starting(LeaseFor(t)))
            && TasksOk(With(s.tables, id, t))
  {
    assert RowOk(s.tables, id);
    AlignedDeadline(s.tables.tasks[id].task.leaseExpiry, i.now);
    CallSucceeds(s.tables, id, Acquire(w.id, i.now, w.leaseDuration));
  }

  lemma StartSucceeds(s: State, w: Worker, id: string, lease: Lease, t: Task, i: Input)
    requires TasksOk(s.tables) && id in s.tables.tasks && s.tables.tasks[id].task == t && t.state.Leased?
    requires Within(i, s.tables.tasks[id].createdAt, t.leaseExpiry) && Held(t, w, lease.fencingToken, t.leaseExpiry)
    ensures var u := t.(state := Executing);
            && StepRun(s, Run(w, id, Starting(lease)), i) == Stepped(With(s.tables, id, u), s.issued, Reading(lease))
            && TasksOk(With(s.tables, id, u))
  {
    TruncatedIsWithin(i, s.tables.tasks[id].createdAt, t.leaseExpiry);
    CallSucceeds(s.tables, id, StartExecution(w.id, lease.fencingToken, i.now));
  }

  lemma RecordSucceeds(s: State, w: Worker, id: string, lease: Lease, g: Grant, t: Task, i: Input)
    requires TasksOk(s.tables) && id in s.tables.tasks && s.tables.tasks[id].task == t && t.state.Executing?
    requires Within(i, s.tables.tasks[id].createdAt, t.leaseExpiry) && Held(t, w, lease.fencingToken, t.leaseExpiry)
    requires Identity(g.executionDecisionId) && Identity(g.grantId)
    ensures var u := t.(executionDecisionId := g.executionDecisionId, executionGrantId := g.grantId);
            && StepRun(s, Run(w, id, Recording(lease, g)), i) == Stepped(With(s.tables, id, u), s.issued, Rereading(lease, g))
            && TasksOk(With(s.tables, id, u))
  {
    TruncatedIsWithin(i, s.tables.tasks[id].createdAt, t.leaseExpiry);
    CallSucceeds(s.tables, id, RecordAuthority(w.id, lease.fencingToken, g.executionDecisionId, g.grantId, i.now));
  }

  lemma FinishSucceeds(s: State, w: Worker, id: string, lease: Lease, g: Grant, e: Envelope, t: Task, i: Input)
    requires TasksOk(s.tables) && id in s.tables.tasks && s.tables.tasks[id].task == t && t.state.Executing?
    requires Within(i, s.tables.tasks[id].createdAt, t.leaseExpiry) && Held(t, w, lease.fencingToken, t.leaseExpiry)
    ensures var u := t.(state := Committing);
            && StepRun(s, Run(w, id, Finishing(lease, g, e)), i) == Stepped(With(s.tables, id, u), s.issued, Concluding(lease, g, e))
            && TasksOk(With(s.tables, id, u))
  {
    TruncatedIsWithin(i, s.tables.tasks[id].createdAt, t.leaseExpiry);
    CallSucceeds(s.tables, id, BeginCommit(w.id, lease.fencingToken, i.now));
  }

  lemma CommitSucceeds(s: State, w: Worker, id: string, lease: Lease, g: Grant, e: Envelope, t: Task, i: Input)
    requires TasksOk(s.tables) && id in s.tables.tasks && s.tables.tasks[id].task == t && t.state.Committing?
    requires Within(i, s.tables.tasks[id].createdAt, t.leaseExpiry) && Held(t, w, lease.fencingToken, t.leaseExpiry)
    requires Identity(e.attemptId) && Identity(e.evidenceId) && Stored(s.tables, e)
    requires e.taskId == t.authority.id && e.tenantId == t.authority.tenantId
    requires forall other :: other in s.tables.tasks && other != id ==>
                               && s.tables.tasks[other].task.acceptedAttemptId != e.attemptId
                               && s.tables.tasks[other].task.acceptedEvidenceId != e.evidenceId
    ensures var x := StepRun(s, Run(w, id, Concluding(lease, g, e)), i);
            && x.tables == With(s.tables, id, t.(state := Succeeded, acceptedAttemptId := e.attemptId,
                                                 acceptedEvidenceId := e.evidenceId))
            && x.stage == Stopped && x.issued == s.issued
  {
    TruncatedIsWithin(i, s.tables.tasks[id].createdAt, t.leaseExpiry);
    CallSucceeds(s.tables, id, Commit(w.id, lease.fencingToken, e.attemptId, e.evidenceId, i.now));
  }

  // ----- The whole run

  /** One more step from a known state. */
  lemma OneMore(s: State, run: nat, inputs: Inputs, n: nat, here: State)
    requires n < STEPS && Works(s, run, inputs[..n]) == here
    ensures Works(s, run, inputs[..n + 1]) == CollectionProtocol.Next(here, Work(run, inputs[n]))
  {
    assert inputs[..n + 1][..n] == inputs[..n];
  }

  lemma WithTwice(tables: Tables, id: string, t: Task, u: Task)
    requires id in tables.tasks
    ensures With(With(tables, id, t), id, u) == With(tables, id, u)
  {
  }

  /** What the theorem assumes of the run and the environment. */
  predicate Ready(s: State, run: nat, inputs: Inputs)
  {
    && run in s.runs && s.runs[run].stage.Acquiring? && s.runs[run].taskId in s.tables.tasks
    && s.issuer != "" && s.audience != ""
    && var row := s.tables.tasks[s.runs[run].taskId];
       && Free(row.task, inputs[0].now) && Timely(s.runs[run].worker, inputs, row.createdAt)
       && Answered(s.runs[run].worker, inputs) && Unused(s.tables, inputs)
       && Identity(Evidence.AttemptId(s.runs[run].taskId, row.task.fencingToken + 1))
  }

  /** The executing row of the new attempt. */
  function Executes(s: State, run: nat, inputs: Inputs): Task
    requires run in s.runs && s.runs[run].taskId in s.tables.tasks && LeaseEnd(s.runs[run].worker, inputs) >= 0
  {
    Started(s.tables.tasks[s.runs[run].taskId].task, s.runs[run].worker, LeaseEnd(s.runs[run].worker, inputs))
  }

  /** The same row once the grant is recorded. */
  function Recorded(s: State, run: nat, inputs: Inputs): Task
    requires run in s.runs && s.runs[run].taskId in s.tables.tasks && LeaseEnd(s.runs[run].worker, inputs) >= 0
  {
    Executes(s, run, inputs).(executionDecisionId := inputs[AUTHORISING].decisionId,
                              executionGrantId := inputs[AUTHORISING].grantId)
  }

  function GrantOf(s: State, run: nat, inputs: Inputs): Grant
    requires run in s.runs && s.runs[run].taskId in s.tables.tasks && LeaseEnd(s.runs[run].worker, inputs) >= 0
  {
    var t := Executes(s, run, inputs);
    Granted(s, s.runs[run].worker, LeaseFor(t), t, inputs[AUTHORISING])
  }

  lemma AttemptIsHeld(s: State, run: nat, inputs: Inputs)
    requires TasksOk(s.tables) && Ready(s, run, inputs)
    ensures LeaseEnd(s.runs[run].worker, inputs) >= 0
    ensures var w, id := s.runs[run].worker, s.runs[run].taskId;
            var t := Executes(s, run, inputs);
            && Held(t, w, t.fencingToken, t.leaseExpiry) && t.authority.id == id && Identity(w.id)
            && LeaseFor(t) == Lease(id, w.id, t.fencingToken, t.leaseExpiry)
            && forall k :: 0 <= k < STEPS ==> Within(inputs[k], s.tables.tasks[id].createdAt, t.leaseExpiry)
  {
    assert RowOk(s.tables, s.runs[run].taskId);
  }

  lemma LeasedRun(s: State, run: nat, inputs: Inputs)
    requires TasksOk(s.tables) && Ready(s, run, inputs) && LeaseEnd(s.runs[run].worker, inputs) >= 0
    ensures var id, t := s.runs[run].taskId, Executes(s, run, inputs);
            && Works(s, run, inputs[..3]) == At(s, run, With(s.tables, id, t), s.issued, Authorising(LeaseFor(t), t))
            && TasksOk(With(s.tables, id, t))
  {
    var w, id, t := s.runs[run].worker, s.runs[run].taskId, Executes(s, run, inputs);
    var leased, lease := t.(state := Leased), LeaseFor(t);
    AttemptIsHeld(s, run, inputs);
    assert At(s, run, s.tables, s.issued, Acquiring) == s by {
      assert s.runs[run := s.runs[run].(stage := Acquiring)] == s.runs;
    }
    AcquireSucceeds(s, w, id, inputs[0], t.leaseExpiry);
    StepAt(s, run, s.tables, s.issued, Acquiring, inputs[0]);
    assert inputs[..0] == [];
    OneMore(s, run, inputs, 0, s);
    var one := With(s.tables, id, leased);
    StartGoes(s, run, inputs[1], one, s.issued, lease, leased);
    OneMore(s, run, inputs, 1, At(s, run, one, s.issued, Starting(lease)));
    WithTwice(s.tables, id, leased, t);
    ReadGoes(s, run, inputs[2], With(s.tables, id, t), s.issued, lease);
    OneMore(s, run, inputs, 2, At(s, run, With(s.tables, id, t), s.issued, Reading(lease)));
  }

  lemma StartGoes(s: State, run: nat, i: Input, tables: Tables, issued: set<Grant>, lease: Lease, t: Task)
    requires run in s.runs
    requires var w, id := s.runs[run].worker, s.runs[run].taskId;
             && TasksOk(tables) && id in tables.tasks && tables.tasks[id].task == t && t.state.Leased?
             && Within(i, tables.tasks[id].createdAt, t.leaseExpiry) && Held(t, w, lease.fencingToken, t.leaseExpiry)
    ensures var after := With(tables, s.runs[run].taskId, t.(state := Executing));
            && CollectionProtocol.Next(At(s, run, tables, issued, Starting(lease)), Work(run, i)) ==
               At(s, run, after, issued, Reading(lease))
            && TasksOk(after)
  {
    StartSucceeds(At(s, run, tables, issued, Starting(lease)), s.runs[run].worker, s.runs[run].taskId, lease, t, i);
    StepAt(s, run, tables, issued, Starting(lease), i);
  }

  lemma ReadGoes(s: State, run: nat, i: Input, tables: Tables, issued: set<Grant>, lease: Lease)
    requires run in s.runs && s.runs[run].taskId in tables.tasks
    ensures CollectionProtocol.Next(At(s, run, tables, issued, Reading(lease)), Work(run, i)) ==
            At(s, run, tables, issued, Authorising(lease, tables.tasks[s.runs[run].taskId].task))
  {
    StepAt(s, run, tables, issued, Reading(lease), i);
  }

  lemma GrantedRun(s: State, run: nat, inputs: Inputs)
    requires TasksOk(s.tables) && Ready(s, run, inputs) && LeaseEnd(s.runs[run].worker, inputs) >= 0
    ensures var id, t, g := s.runs[run].taskId, Executes(s, run, inputs), GrantOf(s, run, inputs);
            Works(s, run, inputs[..4]) == At(s, run, With(s.tables, id, t), s.issued + {g}, Recording(LeaseFor(t), g))
  {
    var w, id, t := s.runs[run].worker, s.runs[run].taskId, Executes(s, run, inputs);
    var tables, stage := With(s.tables, id, t), Authorising(LeaseFor(t), t);
    AttemptIsHeld(s, run, inputs);
    LeasedRun(s, run, inputs);
    AuthoriseSucceeds(At(s, run, tables, s.issued, stage), w, id, LeaseFor(t), t, inputs[AUTHORISING], t.leaseExpiry);
    StepAt(s, run, tables, s.issued, stage, inputs[AUTHORISING]);
    OneMore(s, run, inputs, 3, At(s, run, tables, s.issued, stage));
  }

  lemma RecordGoes(s: State, run: nat, i: Input, tables: Tables, issued: set<Grant>, lease: Lease, g: Grant, t: Task)
    requires run in s.runs
    requires var w, id := s.runs[run].worker, s.runs[run].taskId;
             && TasksOk(tables) && id in tables.tasks && tables.tasks[id].task == t && t.state.Executing?
             && Within(i, tables.tasks[id].createdAt, t.leaseExpiry) && Held(t, w, lease.fencingToken, t.leaseExpiry)
    requires Identity(g.executionDecisionId) && Identity(g.grantId)
    ensures var after := With(tables, s.runs[run].taskId,
                              t.(executionDecisionId := g.executionDecisionId, executionGrantId := g.grantId));
            && CollectionProtocol.Next(At(s, run, tables, issued, Recording(lease, g)), Work(run, i)) ==
               At(s, run, after, issued, Rereading(lease, g))
            && TasksOk(after)
  {
    var w, id := s.runs[run].worker, s.runs[run].taskId;
    RecordSucceeds(At(s, run, tables, issued, Recording(lease, g)), w, id, lease, g, t, i);
    StepAt(s, run, tables, issued, Recording(lease, g), i);
  }

  lemma RereadGoes(s: State, run: nat, i: Input, tables: Tables, issued: set<Grant>, lease: Lease, g: Grant)
    requires run in s.runs && s.runs[run].taskId in tables.tasks
    ensures CollectionProtocol.Next(At(s, run, tables, issued, Rereading(lease, g)), Work(run, i)) ==
            At(s, run, tables, issued, Exchanging(lease, g, tables.tasks[s.runs[run].taskId].task))
  {
    StepAt(s, run, tables, issued, Rereading(lease, g), i);
  }

  lemma AuthorisedRun(s: State, run: nat, inputs: Inputs)
    requires TasksOk(s.tables) && Ready(s, run, inputs) && LeaseEnd(s.runs[run].worker, inputs) >= 0
    ensures var id, t, g := s.runs[run].taskId, Recorded(s, run, inputs), GrantOf(s, run, inputs);
            && Works(s, run, inputs[..6]) ==
               At(s, run, With(s.tables, id, t), s.issued + {g}, Exchanging(LeaseFor(t), g, t))
            && TasksOk(With(s.tables, id, t))
  {
    var id, t, g := s.runs[run].taskId, Executes(s, run, inputs), GrantOf(s, run, inputs);
    var tables, issued, u := With(s.tables, id, t), s.issued + {g}, Recorded(s, run, inputs);
    AttemptIsHeld(s, run, inputs);
    assert TasksOk(tables) by {
      LeasedRun(s, run, inputs);
    }
    GrantedRun(s, run, inputs);
    RecordGoes(s, run, inputs[4], tables, issued, LeaseFor(t), g, t);
    OneMore(s, run, inputs, 4, At(s, run, tables, issued, Recording(LeaseFor(t), g)));
    WithTwice(s.tables, id, t, u);
    RereadGoes(s, run, inputs[5], With(s.tables, id, u), issued, LeaseFor(t), g);
    OneMore(s, run, inputs, 5, At(s, run, With(s.tables, id, u), issued, Rereading(LeaseFor(t), g)));
  }

  lemma SameRowsOk(a: Tables, b: Tables)
    requires TasksOk(a) && b.tasks == a.tasks && b.envelopes == a.envelopes
    ensures TasksOk(b)
  {
    MoreEnvelopesKeepRows(a, b);
  }

  lemma ExchangedRun(s: State, run: nat, inputs: Inputs) returns (ledger: map<string, ConsumptionRow>)
    requires TasksOk(s.tables) && Ready(s, run, inputs) && LeaseEnd(s.runs[run].worker, inputs) >= 0
    ensures var id, t, g := s.runs[run].taskId, Recorded(s, run, inputs), GrantOf(s, run, inputs);
            && Works(s, run, inputs[..7]) ==
               At(s, run, With(s.tables, id, t).(consumptions := ledger), s.issued + {g}, Capturing(LeaseFor(t), g, t))
            && TasksOk(With(s.tables, id, t).(consumptions := ledger))
  {
    var id, t, g := s.runs[run].taskId, Recorded(s, run, inputs), GrantOf(s, run, inputs);
    var lease, tables, issued := LeaseFor(t), With(s.tables, id, t), s.issued + {g};
    AttemptIsHeld(s, run, inputs);
    AuthorisedRun(s, run, inputs);
    GrantOfFits(s, run, inputs);
    ledger := ExchangeGoes(s, run, inputs[EXCHANGING], tables, issued, lease, g, t);
    OneMore(s, run, inputs, 6, At(s, run, tables, issued, Exchanging(lease, g, t)));
    SameRowsOk(tables, tables.(consumptions := ledger));
  }

  lemma GrantOfFits(s: State, run: nat, inputs: Inputs)
    requires TasksOk(s.tables) && Ready(s, run, inputs) && LeaseEnd(s.runs[run].worker, inputs) >= 0
    ensures var w, t, g := s.runs[run].worker, Recorded(s, run, inputs), GrantOf(s, run, inputs);
            && GrantFits(g, s, w, t, t.fencingToken) && g.expiresAt == GrantEnd(w, inputs) <= t.leaseExpiry
            && g.notBefore == inputs[AUTHORISING].issuedAt
  {
  }

  lemma ExchangeGoes(s: State, run: nat, i: Input, tables: Tables, issued: set<Grant>, lease: Lease, g: Grant, t: Task)
    returns (ledger: map<string, ConsumptionRow>)
    requires run in s.runs
    requires var w, id := s.runs[run].worker, s.runs[run].taskId;
             && id in tables.tasks && tables.tasks[id].task == t && t.authority.id == id
             && Held(t, w, lease.fencingToken, t.leaseExpiry) && t.state.Executing? && g in issued
             && GrantFits(g, s, w, t, lease.fencingToken) && Digested(i) && g.expiresAt <= t.leaseExpiry
             && ZERO < g.notBefore <= i.now < g.expiresAt
             && i.clock.checkedAt < g.expiresAt && i.clock.consumedAt < g.expiresAt
             && GrantUnused(tables, g.grantId, i.digests.nonce)
    ensures CollectionProtocol.Next(At(s, run, tables, issued, Exchanging(lease, g, t)), Work(run, i)) ==
            At(s, run, tables.(consumptions := ledger), issued, Capturing(lease, g, t))
  {
    var w, id, here := s.runs[run].worker, s.runs[run].taskId, At(s, run, tables, issued, Exchanging(lease, g, t));
    ExchangeSucceeds(here, w, id, lease, g, t, i);
    StepAt(s, run, tables, issued, Exchanging(lease, g, t), i);
    ledger := ExchangeStep(here, Run(w, id, Exchanging(lease, g, t)), i).tables.consumptions;
  }

  lemma AssembleGoes(s: State, run: nat, i: Input, tables: Tables, issued: set<Grant>, lease: Lease, g: Grant, t: Task)
    requires run in s.runs
    requires var w, id := s.runs[run].worker, s.runs[run].taskId;
             && id in tables.tasks && tables.tasks[id].task == t && t.authority.id == id && lease.owner == w.id
             && Held(t, w, lease.fencingToken, t.leaseExpiry) && ZERO < i.now < t.leaseExpiry
             && Captures(i) && t.state.Executing? && t.executionDecisionId != "" && t.executionGrantId != ""
    ensures CollectionProtocol.Next(At(s, run, tables, issued, Capturing(lease, g, t)), Work(run, i)) ==
            At(s, run, tables, issued, Persisting(lease, g, Sealing(t, s.runs[run].worker, lease.fencingToken, i)))
  {
    AssembleSucceeds(tables, s.runs[run].worker, s.runs[run].taskId, t, lease.fencingToken, i);
    StepAt(s, run, tables, issued, Capturing(lease, g, t), i);
  }

  lemma PersistGoes(s: State, run: nat, i: Input, tables: Tables, issued: set<Grant>, lease: Lease, g: Grant, t: Task,
                    captured: Input)
    requires run in s.runs
    requires var w, id := s.runs[run].worker, s.runs[run].taskId;
             var e := Sealing(t, w, lease.fencingToken, captured);
             && id in tables.tasks && tables.tasks[id].task == t && t.authority.id == id && TasksOk(tables)
             && Held(t, w, lease.fencingToken, t.leaseExpiry) && Identity(w.id) && Captures(captured)
             && Identity(t.executionGrantId) && Identity(e.attemptId) && e.evidenceId !in tables.envelopes
             && AttemptUnused(tables, id, lease.fencingToken, e.evidenceId)
    ensures var e := Sealing(t, s.runs[run].worker, lease.fencingToken, captured);
            var after := tables.(envelopes := tables.envelopes[e.evidenceId := e]);
            && CollectionProtocol.Next(At(s, run, tables, issued, Persisting(lease, g, e)), Work(run, i)) ==
               At(s, run, after, issued, Finishing(lease, g, e))
            && TasksOk(after)
  {
    var e := Sealing(t, s.runs[run].worker, lease.fencingToken, captured);
    PersistSucceeds(tables, s.runs[run].worker, s.runs[run].taskId, t, lease.fencingToken, captured);
    StepAt(s, run, tables, issued, Persisting(lease, g, e), i);
    MoreEnvelopesKeepRows(tables, tables.(envelopes := tables.envelopes[e.evidenceId := e]));
  }

  function EnvelopeOf(s: State, run: nat, inputs: Inputs): Envelope
    requires run in s.runs && s.runs[run].taskId in s.tables.tasks && LeaseEnd(s.runs[run].worker, inputs) >= 0
  {
    var t := Recorded(s, run, inputs);
    Sealing(t, s.runs[run].worker, t.fencingToken, inputs[CAPTURING])
  }

  /** Tables after the exchange and the evidence of the attempt. */
  function Evidenced(tables: Tables, ledger: map<string, ConsumptionRow>, e: Envelope): Tables
  {
    tables.(consumptions := ledger, envelopes := tables.envelopes[e.evidenceId := e])
  }

  lemma AssembledRun(s: State, run: nat, inputs: Inputs) returns (ledger: map<string, ConsumptionRow>)
    requires TasksOk(s.tables) && Ready(s, run, inputs) && LeaseEnd(s.runs[run].worker, inputs) >= 0
    ensures var id, t, g := s.runs[run].taskId, Recorded(s, run, inputs), GrantOf(s, run, inputs);
            && Works(s, run, inputs[..8]) ==
               At(s, run, With(s.tables, id, t).(consumptions := ledger), s.issued + {g},
                  Persisting(LeaseFor(t), g, EnvelopeOf(s, run, inputs)))
            && TasksOk(With(s.tables, id, t).(consumptions := ledger))
  {
    var id, t, g := s.runs[run].taskId, Recorded(s, run, inputs), GrantOf(s, run, inputs);
    AttemptIsHeld(s, run, inputs);
    assert ZERO < inputs[CAPTURING].now < t.leaseExpiry by {
      TruncatedIsWithin(inputs[CAPTURING], s.tables.tasks[id].createdAt, t.leaseExpiry);
    }
    ledger := ExchangedRun(s, run, inputs);
    var used := With(s.tables, id, t).(consumptions := ledger);
    AssembleGoes(s, run, inputs[CAPTURING], used, s.issued + {g}, LeaseFor(t), g, t);
    OneMore(s, run, inputs, 7, At(s, run, used, s.issued + {g}, Capturing(LeaseFor(t), g, t)));
  }

  lemma EvidencedRun(s: State, run: nat, inputs: Inputs) returns (ledger: map<string, ConsumptionRow>)
    requires TablesInv(s.tables) && Ready(s, run, inputs) && LeaseEnd(s.runs[run].worker, inputs) >= 0
    ensures var id, t, g := s.runs[run].taskId, Recorded(s, run, inputs), GrantOf(s, run, inputs);
            var e := EnvelopeOf(s, run, inputs);
            && Works(s, run, inputs[..9]) ==
               At(s, run, Evidenced(With(s.tables, id, t), ledger, e), s.issued + {g}, Finishing(LeaseFor(t), g, e))
            && TasksOk(Evidenced(With(s.tables, id, t), ledger, e))
            && AttemptUnused(s.tables, id, t.fencingToken, e.evidenceId)
  {
    var id, t, g := s.runs[run].taskId, Recorded(s, run, inputs), GrantOf(s, run, inputs);
    AttemptIsHeld(s, run, inputs);
    NewAttemptIsUnused(s.tables, id, t.fencingToken, inputs[CAPTURING].sealed.evidenceId);
    ledger := AssembledRun(s, run, inputs);
    var used := With(s.tables, id, t).(consumptions := ledger);
    PersistGoes(s, run, inputs[8], used, s.issued + {g}, LeaseFor(t), g, t, inputs[CAPTURING]);
    OneMore(s, run, inputs, 8, At(s, run, used, s.issued + {g}, Persisting(LeaseFor(t), g, EnvelopeOf(s, run, inputs))));
  }

  /**
   From every state that satisfies the invariant, eleven undisturbed steps of a worker finish its task:
   it is accepted with the evidence of the new attempt, whatever its earlier attempts left behind.
   */
  lemma UndisturbedWorkerSucceeds(s: State, run: nat, inputs: Inputs)
    requires Inv(s) && Ready(s, run, inputs)
    ensures var w, id := s.runs[run].worker, s.runs[run].taskId;
            var after := Works(s, run, inputs);
            && id in after.tables.tasks && run in after.runs && after.runs[run].stage.Stopped?
            && var t := after.tables.tasks[id].task;
               && t.state.Succeeded? && t.fencingToken == s.tables.tasks[id].task.fencingToken + 1
               && t.acceptedEvidenceId == inputs[CAPTURING].sealed.evidenceId
               && t.executionGrantId == inputs[AUTHORISING].grantId
               && t.acceptedAttemptId == Evidence.AttemptId(id, t.fencingToken)
  {
    AttemptIsHeld(s, run, inputs);
    var w, id, t := s.runs[run].worker, s.runs[run].taskId, Recorded(s, run, inputs);
    var lease, g, e := LeaseFor(t), GrantOf(s, run, inputs), EnvelopeOf(s, run, inputs);
    var ledger := EvidencedRun(s, run, inputs);
    var tables, issued := Evidenced(With(s.tables, id, t), ledger, e), s.issued + {g};
    FinishSucceeds(At(s, run, tables, issued, Finishing(lease, g, e)), w, id, lease, g, e, t, inputs[9]);
    StepAt(s, run, tables, issued, Finishing(lease, g, e), inputs[9]);
    OneMore(s, run, inputs, 9, At(s, run, tables, issued, Finishing(lease, g, e)));
    var u := t.(state := Committing);
    var last := With(tables, id, u);
    CommitSucceeds(At(s, run, last, issued, Concluding(lease, g, e)), w, id, lease, g, e, u, inputs[10]);
    StepAt(s, run, last, issued, Concluding(lease, g, e), inputs[10]);
    OneMore(s, run, inputs, 10, At(s, run, last, issued, Concluding(lease, g, e)));
    assert inputs[..11] == inputs;
  }
}
