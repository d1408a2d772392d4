/**
 No evidence without an exchanged grant: in every run of the collection protocol, whatever is stored or
 accepted was collected by a worker whose grant is in the consumption ledger.
 */
module CollectionExchange {
  import opened CollectorTask
  import opened BrokerDatabase
  import opened CollectorRepository
  import opened CollectionProtocol
  import opened CollectionSafety
  import Evidence
  import Grants

  /** The ledger shows the grant exchanged by this collector for this attempt. */
  predicate Spent(tables: Tables, grantId: string, taskId: string, token: int, collectorId: string)
  {
    && grantId in tables.consumptions
    && var c := tables.consumptions[grantId].consumption;
       c.taskId == taskId && c.fencingToken == token && c.collectorId == collectorId
  }

  /** The row also names the tenant, target and recipe of the envelope. */
  predicate Covers(tables: Tables, e: Envelope)
  {
    && Spent(tables, e.executionGrantId, e.taskId, e.fencingToken, e.collectorId)
    && var c := tables.consumptions[e.executionGrantId].consumption;
       c.tenantId == e.tenantId && c.targetId == e.targetId && c.recipeId == e.recipeId
  }

  /** The row names the tenant, target and recipe of the worker's copy of the task. */
  predicate CoversCopy(tables: Tables, r: Run, lease: Lease, g: Grant, task: Task)
  {
    && Spent(tables, g.grantId, r.taskId, lease.fencingToken, lease.owner)
    && var c := tables.consumptions[g.grantId].consumption;
       && c.tenantId == task.authority.tenantId && c.targetId == task.authority.targetId
       && c.recipeId == task.authority.recipeId
  }

  predicate RunCovered(tables: Tables, r: Run)
  {
    && (r.stage.HasLease() ==> r.stage.lease.owner == r.worker.id)
    && match r.stage
       case Capturing(lease, g, task) => CoversCopy(tables, r, lease, g, task)
       case Persisting(_, _, e) => Covers(tables, e)
       case Finishing(_, _, e) => Covers(tables, e)
       case Concluding(_, _, e) => Covers(tables, e)
       case _ => true
  }

  predicate Covered(s: State)
  {
    && (forall run :: run in s.runs ==> RunCovered(s.tables, s.runs[run]))
    && (forall id :: id in s.tables.envelopes ==> Covers(s.tables, s.tables.envelopes[id]))
  }

  predicate LedgerGrows(a: Tables, b: Tables)
  {
    forall g :: g in a.consumptions ==> g in b.consumptions && b.consumptions[g] == a.consumptions[g]
  }

  lemma RunStaysCovered(a: Tables, b: Tables, r: Run)
    requires RunCovered(a, r) && LedgerGrows(a, b)
    ensures RunCovered(b, r)
  {
  }

  lemma EnvelopeStaysCovered(a: Tables, b: Tables, e: Envelope)
    requires Covers(a, e) && LedgerGrows(a, b)
    ensures Covers(b, e)
  {
  }

  // ----- Every step

  /** A worker goes on to capture only with a credential, and then its grant is in the ledger. */
  lemma CapturingNeedsTheExchange(s: State, r: Run, input: Input)
    requires TasksOk(s.tables) && Grants.LedgerOk(s.tables.consumptions)
    requires r.stage.Exchanging? && RunOk(s.tables, r) && r.stage.lease.owner == r.worker.id
    ensures var x := ExchangeStep(s, r, input);
            RunCovered(x.tables, r.(stage := x.stage))
  {
    var Exchanging(lease, g, task) := r.stage;
    var request := Grants.ExchangeRequest(r.worker.id, task.authority.id, task.authority.targetId,
                                          task.authority.recipeId, task.authority.recipeVersion, lease.fencingToken,
                                          input.now);
    assert RowOk(s.tables, r.taskId);
    ExchangedIsSpent(s.tables, s.issued, s.issuer, s.audience, g, request, input.digests, input.clock);
  }

  lemma ExchangedIsSpent(tables: Tables, issued: set<Grant>, issuer: string, audience: string, g: Grant,
                         request: Grants.ExchangeRequest, digests: Grants.Digests, clock: Grants.DatabaseClock)
    requires Grants.LedgerOk(tables.consumptions)
    ensures var (credential, after) := Grants.Exchange(tables, issued, issuer, audience, g, request, digests, clock);
            credential.Success? ==>
              && Spent(after, g.grantId, request.taskId, request.fencingToken, request.presentingId)
              && request.taskId in tables.tasks
              && var c := after.consumptions[g.grantId].consumption;
                 && c.targetId == request.targetId && c.recipeId == request.recipeId
                 && c.tenantId == tables.tasks[request.taskId].task.authority.tenantId
  {
    Grants.ConsumeNeedsTheExecutingAttempt(tables, Grants.ConsumptionOf(g, digests, request.now), clock);
  }

  lemma AssembledIsCovered(s: State, r: Run, input: Input)
    requires TasksOk(s.tables) && RunOk(s.tables, r) && RunCovered(s.tables, r) && r.stage.Capturing?
    ensures var x := StepRun(s, r, input);
            x.tables == s.tables && RunCovered(x.tables, r.(stage := x.stage))
  {
    assert RowOk(s.tables, r.taskId);
  }

  lemma SentIsCovered(s: State, r: Run, input: Input)
    requires TasksOk(s.tables) && RunCovered(s.tables, r) && Sends(r.stage)
    ensures var x := SendStep(s, r, input);
            && x.tables.consumptions == s.tables.consumptions && x.tables.envelopes == s.tables.envelopes
            && RunCovered(x.tables, r.(stage := x.stage))
  {
    DurableStepKeepsRows(s.tables, r.taskId, Sent(r, input));
    if DurableCall(s.tables, r.taskId, Sent(r, input)).0.Success? {
      DurableReplacesRow(s.tables, r.taskId, Sent(r, input));
    }
  }

  lemma PersistedIsCovered(s: State, r: Run, input: Input)
    requires RunCovered(s.tables, r) && r.stage.Persisting?
    ensures var x := StepRun(s, r, input);
            && x.tables.consumptions == s.tables.consumptions
            && RunCovered(x.tables, r.(stage := x.stage))
            && (forall id :: id in x.tables.envelopes ==>
                               || (id in s.tables.envelopes && x.tables.envelopes[id] == s.tables.envelopes[id])
                               || x.tables.envelopes[id] == r.stage.envelope)
  {
    CreateAddsAtMostOne(s.tables, r.stage.envelope);
  }

  /** What a step of a run does to its own coverage and to the envelopes. */
  lemma WorkCovers(s: State, run: nat, input: Input)
    requires Inv(s) && Covered(s) && run in s.runs
    ensures var x := StepRun(s, s.runs[run], input);
            && RunCovered(x.tables, s.runs[run].(stage := x.stage))
            && (forall id :: id in x.tables.envelopes ==> Covers(x.tables, x.tables.envelopes[id]))
  {
    var r := s.runs[run];
    var x := StepRun(s, r, input);
    assert RunOk(s.tables, r) && RunCovered(s.tables, r);
    StepTables(s, r, input);
    if Sends(r.stage) {
      SentIsCovered(s, r, input);
      EnvelopesStayCovered(s.tables, x.tables);
    } else if r.stage.Persisting? {
      PersistedIsCovered(s, r, input);
      AddedStaysCovered(s.tables, x.tables, r.stage.envelope);
    } else if r.stage.Exchanging? {
      CapturingNeedsTheExchange(s, r, input);
      ExchangeStepChangesLedgerOnly(s, r, input);
      WorkLedgerStep(s, run, input);
      EnvelopesStayCovered(s.tables, x.tables);
    } else if r.stage.Capturing? {
      AssembledIsCovered(s, r, input);
    }
  }

  lemma EnvelopesStayCovered(a: Tables, b: Tables)
    requires b.envelopes == a.envelopes && LedgerGrows(a, b)
    requires forall id :: id in a.envelopes ==> Covers(a, a.envelopes[id])
    ensures forall id :: id in b.envelopes ==> Covers(b, b.envelopes[id])
  {
    forall id | id in b.envelopes
      ensures Covers(b, b.envelopes[id])
    {
      EnvelopeStaysCovered(a, b, a.envelopes[id]);
    }
  }

  lemma AddedStaysCovered(a: Tables, b: Tables, e: Envelope)
    requires b.consumptions == a.consumptions && Covers(a, e)
    requires forall id :: id in a.envelopes ==> Covers(a, a.envelopes[id])
    requires forall id :: id in b.envelopes ==>
                            (id in a.envelopes && b.envelopes[id] == a.envelopes[id]) || b.envelopes[id] == e
    ensures forall id :: id in b.envelopes ==> Covers(b, b.envelopes[id])
  {
    forall id | id in b.envelopes
      ensures Covers(b, b.envelopes[id])
    {
      EnvelopeStaysCovered(a, b, b.envelopes[id]);
    }
  }

  lemma OtherRunsStayCovered(s: State, b: Tables)
    requires Covered(s) && LedgerGrows(s.tables, b)
    ensures forall run :: run in s.runs ==> RunCovered(b, s.runs[run])
  {
    forall run | run in s.runs
      ensures RunCovered(b, s.runs[run])
    {
      RunStaysCovered(s.tables, b, s.runs[run]);
    }
  }

  lemma NextKeepsCovered(s: State, a: Action)
    requires Inv(s) && Covered(s)
    ensures Covered(CollectionProtocol.Next(s, a))
  {
    var after := CollectionProtocol.Next(s, a);
    NextLedgerStep(s, a);
    OtherRunsStayCovered(s, after.tables);
    if a.Work? && a.run in s.runs {
      WorkCovers(s, a.run, a.input);
    } else if !a.Work? {
      OutsideKeepsEnvelopes(s, a);
      EnvelopesStayCovered(s.tables, after.tables);
    }
  }

  lemma {:induction false} CoveredAlways(states: seq<State>, actions: seq<Action>, j: nat)
    requires Behaviour(states, actions) && j < |states|
    ensures Covered(states[j])
  {
    if j > 0 {
      CoveredAlways(states, actions, j - 1);
      InvAlways(states, actions, j - 1);
      NextKeepsCovered(states[j - 1], actions[j - 1]);
    }
  }

  /**
   Whatever is refused or unavailable fails the attempt and leaves no trace: no authorisation, no exchange, no
   capture, no assembly and no stored envelope is ever skipped.
   */
  lemma RefusalFailsTheAttempt(s: State, r: Run, input: Input)
    requires r.stage.Authorising? || r.stage.Exchanging? || r.stage.Capturing? || r.stage.Persisting?
    ensures var x := StepRun(s, r, input);
            && (r.stage.Authorising? && (!input.proceeds || input.decisionId == "") ==> x.stage == Failing(r.stage.lease))
            && (r.stage.Capturing? && !input.proceeds ==> x.stage == Failing(r.stage.lease))
            && (x.stage == Failing(r.stage.lease) ==> x.tables == s.tables && x.issued == s.issued)
            && (x.stage != Failing(r.stage.lease) ==>
                  match r.stage
                  case Authorising(lease, _) => x.stage.Recording? && x.stage.lease == lease && x.stage.grant in x.issued
                  case Exchanging(lease, g, task) => x.stage == Capturing(lease, g, task)
                  case Capturing(lease, g, _) => x.stage.Persisting? && x.stage.lease == lease && x.stage.grant == g
                  case Persisting(lease, g, e) => x.stage == Finishing(lease, g, e) && Stored(x.tables, e)
                  case _ => true)
  {
    if r.stage.Persisting? {
      CreateAddsAtMostOne(s.tables, r.stage.envelope);
      Evidence.CreateAppends(s.tables, r.stage.envelope);
    }
    if r.stage.Exchanging? {
      RefusedExchangeChangesNothing(s, r, input);
    }
  }

  lemma RefusedExchangeChangesNothing(s: State, r: Run, input: Input)
    requires r.stage.Exchanging?
    ensures var x := ExchangeStep(s, r, input);
            x.stage == Failing(r.stage.lease) ==> x.tables == s.tables
  {
  }

  // ----- The theorems

  /**
   Every stored envelope has a ledger row for its grant, with its task, fence, collector, tenant, target and
   recipe; and that row was appended by an earlier step whose database clock found the attempt executing
   under that grant, unexpired.
   */
  lemma EvidenceNeedsAnExchange(states: seq<State>, actions: seq<Action>, j: nat, evidenceId: string) returns (i: nat)
    requires Behaviour(states, actions) && j < |states| && evidenceId in states[j].tables.envelopes
    ensures Covers(states[j].tables, states[j].tables.envelopes[evidenceId]) && i < j
    ensures var grantId := states[j].tables.envelopes[evidenceId].executionGrantId;
            RecordedIn(states[i].tables, states[i + 1].tables, ClockOf(actions[i]), grantId,
                       states[j].tables.consumptions[grantId])
  {
    CoveredAlways(states, actions, j);
    i := LedgerRowsAreEarned(states, actions, j, states[j].tables.envelopes[evidenceId].executionGrantId);
  }

  /** So every accepted result was collected by the worker that exchanged the task's own grant in its own epoch. */
  lemma AcceptanceNeedsAnExchange(states: seq<State>, actions: seq<Action>, j: nat, id: string)
    requires Behaviour(states, actions) && j < |states|
    requires id in states[j].tables.tasks && TaskOf(states[j].tables, id).state.Succeeded?
    ensures var tables, t := states[j].tables, TaskOf(states[j].tables, id);
            && t.acceptedEvidenceId in tables.envelopes && t.executionGrantId in tables.consumptions
            && var c := tables.consumptions[t.executionGrantId].consumption;
               && c.taskId == id && c.fencingToken == t.fencingToken
               && c.collectorId == tables.envelopes[t.acceptedEvidenceId].collectorId
               && c.tenantId == t.authority.tenantId
  {
    AcceptedResultIsFinal(states, actions, j, j, id);
    CoveredAlways(states, actions, j);
    InvAlways(states, actions, j);
    assert RowOk(states[j].tables, id);
    assert Covers(states[j].tables, states[j].tables.envelopes[TaskOf(states[j].tables, id).acceptedEvidenceId]);
  }
}
