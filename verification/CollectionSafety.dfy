/**
 What holds in every run of the collection protocol, whatever the interleaving, the crashes and the
 clocks.
 */
module CollectionSafety {
  import opened Wrappers
  import opened Clock
  import opened CollectorTask
  import opened CollectorRuns
  import opened BrokerDatabase
  import opened CollectorRepository
  import opened CollectionProtocol
  import Reconciliation
  import Evidence
  import Grants

  // ----- How one step moves the tables

  /** A task never loses its authority, its fence never goes back, an accepted result and a closed epoch stay. */
  predicate Advances(t: Task, t': Task)
  {
    && t'.authority == t.authority && t.fencingToken <= t'.fencingToken
    && (t.state.Succeeded? ==> t' == t)
    && (t.state.RetryWait? && t'.fencingToken == t.fencingToken ==> t'.state.RetryWait?)
  }

  predicate TablesAdvance(a: Tables, b: Tables)
  {
    && (forall id :: id in a.tasks ==> id in b.tasks && Advances(TaskOf(a, id), TaskOf(b, id)))
    && (forall id :: id in a.envelopes ==> id in b.envelopes && b.envelopes[id] == a.envelopes[id])
  }

  lemma EvolvingAdvances(a: Tables, b: Tables)
    requires TablesEvolve(a, b)
    ensures TablesAdvance(a, b)
  {
    forall id | id in a.tasks ensures id in b.tasks && Advances(TaskOf(a, id), TaskOf(b, id)) {
      assert Evolves(TaskOf(a, id), TaskOf(b, id));
    }
  }

  lemma OneRowAdvances(a: Tables, b: Tables, id: string)
    requires RowReplaced(a, b, id) && Advances(TaskOf(a, id), TaskOf(b, id))
    ensures TablesAdvance(a, b)
  {
  }

  lemma RecordingAdvances(tables: Tables, id: string, c: Command)
    requires TasksOk(tables) && c.RecordAuthority? && DurableCall(tables, id, c).0.Success?
    ensures TablesAdvance(tables, DurableCall(tables, id, c).1)
  {
    DurableReplacesRow(tables, id, c);
    OneRowAdvances(tables, DurableCall(tables, id, c).1, id);
  }

  lemma SendAdvances(s: State, run: nat, input: Input)
    requires Inv(s) && run in s.runs && Sends(s.runs[run].stage)
    ensures TablesAdvance(s.tables, SendStep(s, s.runs[run], input).tables)
  {
    var r := s.runs[run];
    if DurableCall(s.tables, r.taskId, Sent(r, input)).0.Success? {
      if r.stage.Recording? {
        RecordingAdvances(s.tables, r.taskId, Sent(r, input));
      } else {
        SentRow(s, run, input);
        EvolvingAdvances(s.tables, SendStep(s, r, input).tables);
      }
    } else {
      SameAdvances(s.tables);
    }
  }

  lemma SameAdvances(tables: Tables)
    ensures TablesAdvance(tables, tables)
  {
  }

  lemma LedgerAdvances(a: Tables, b: Tables)
    requires b.tasks == a.tasks && b.envelopes == a.envelopes
    ensures TablesAdvance(a, b)
  {
  }

  lemma PersistAdvances(tables: Tables, e: Envelope)
    ensures TablesAdvance(tables, Evidence.Create(tables, e).1)
  {
    CreateAddsAtMostOne(tables, e);
  }

  lemma ExchangeAdvances(s: State, r: Run, input: Input)
    requires TablesInv(s.tables) && r.stage.Exchanging?
    ensures TablesAdvance(s.tables, ExchangeStep(s, r, input).tables)
  {
    ExchangeStepKeepsTables(s, r, input);
    EvolvingAdvances(s.tables, ExchangeStep(s, r, input).tables);
  }

  /** Which of its operations moves the tables in a step of a run. */
  lemma StepTables(s: State, r: Run, input: Input)
    ensures Sends(r.stage) ==> StepRun(s, r, input) == SendStep(s, r, input)
    ensures r.stage.Exchanging? ==> StepRun(s, r, input) == ExchangeStep(s, r, input)
    ensures r.stage.Persisting? ==> StepRun(s, r, input).tables == Evidence.Create(s.tables, r.stage.envelope).1
    ensures !Sends(r.stage) && !r.stage.Exchanging? && !r.stage.Persisting? ==>
              StepRun(s, r, input).tables == s.tables
  {
  }

  lemma WorkAdvances(s: State, run: nat, input: Input)
    requires Inv(s) && run in s.runs
    ensures TablesAdvance(s.tables, StepRun(s, s.runs[run], input).tables)
  {
    var r := s.runs[run];
    StepTables(s, r, input);
    SameAdvances(s.tables);
    if Sends(r.stage) {
      SendAdvances(s, run, input);
    } else if r.stage.Persisting? {
      PersistAdvances(s.tables, r.stage.envelope);
    } else if r.stage.Exchanging? {
      ExchangeAdvances(s, r, input);
    }
  }

  lemma NextAdvances(s: State, a: Action)
    requires Inv(s)
    ensures TablesAdvance(s.tables, CollectionProtocol.Next(s, a).tables)
  {
    match a
    case AddTask(task, createdAt) =>
      if createdAt != ZERO {
        AddKeepsTables(s.tables, task, createdAt);
        EvolvingAdvances(s.tables, AddRow(s.tables, task, createdAt).1);
      } else {
        SameAdvances(s.tables);
      }
    case Work(run, input) =>
      if run in s.runs {
        WorkAdvances(s, run, input);
      } else {
        SameAdvances(s.tables);
      }
    case Reconcile(evidenceId, at) =>
      ReconcileKeepsTables(s.tables, evidenceId, at);
      EvolvingAdvances(s.tables, Reconciliation.Reconcile(s.tables, evidenceId, at).1);
    case Present(g, request, digests, clock) =>
      ExchangeChangesLedgerOnly(s.tables, s.issued, s.issuer, s.audience, g, request, digests, clock);
      LedgerAdvances(s.tables, Grants.Exchange(s.tables, s.issued, s.issuer, s.audience, g, request, digests, clock).1);
    case Spawn(_, _, _) => SameAdvances(s.tables);
    case Interrupt(_, _) => SameAdvances(s.tables);
    case Issue(_, _, _) => SameAdvances(s.tables);
  }

  lemma AdvanceTransitive(a: Tables, b: Tables, c: Tables)
    requires TablesAdvance(a, b) && TablesAdvance(b, c)
    ensures TablesAdvance(a, c)
  {
    forall id | id in a.tasks ensures id in c.tasks && Advances(TaskOf(a, id), TaskOf(c, id)) {
      assert Advances(TaskOf(a, id), TaskOf(b, id)) && Advances(TaskOf(b, id), TaskOf(c, id));
    }
  }

  lemma StepAdvances(states: seq<State>, actions: seq<Action>, j: nat)
    requires Behaviour(states, actions) && 0 < j < |states|
    ensures TablesAdvance(states[j - 1].tables, states[j].tables)
  {
    InvAlways(states, actions, j - 1);
    NextAdvances(states[j - 1], actions[j - 1]);
  }

  lemma {:induction false} RunAdvances(states: seq<State>, actions: seq<Action>, i: nat, j: nat)
    requires Behaviour(states, actions) && i <= j < |states|
    ensures TablesAdvance(states[i].tables, states[j].tables)
    decreases j - i
  {
    if i == j {
      SameAdvances(states[i].tables);
    } else {
      RunAdvances(states, actions, i, j - 1);
      StepAdvances(states, actions, j);
      AdvanceTransitive(states[i].tables, states[j - 1].tables, states[j].tables);
    }
  }

  // ----- One accepted result, of the current fence and grant

  /**
   In every run a succeeded task names a stored envelope of its own tenant, fence and grant, and
   from then on neither the task nor that envelope ever changes.
   */
  lemma AcceptedResultIsFinal(states: seq<State>, actions: seq<Action>, i: nat, j: nat, id: string)
    requires Behaviour(states, actions) && i <= j < |states|
    requires id in states[i].tables.tasks && TaskOf(states[i].tables, id).state.Succeeded?
    ensures EvidenceOf(states[i].tables, TaskOf(states[i].tables, id))
    ensures id in states[j].tables.tasks && TaskOf(states[j].tables, id) == TaskOf(states[i].tables, id)
    ensures EvidenceOf(states[j].tables, TaskOf(states[j].tables, id))
    ensures var e := TaskOf(states[i].tables, id).acceptedEvidenceId;
            states[j].tables.envelopes[e] == states[i].tables.envelopes[e]
  {
    InvAlways(states, actions, i);
    assert AcceptedOk(states[i].tables, TaskOf(states[i].tables, id));
    RunAdvances(states, actions, i, j);
    assert Advances(TaskOf(states[i].tables, id), TaskOf(states[j].tables, id));
  }

  /** After acceptance nobody leases, commits or otherwise changes the task, and no other evidence is accepted. */
  lemma AcceptedTaskRefusesEverything(states: seq<State>, actions: seq<Action>, i: nat, j: nat, id: string,
                                      c: Command, evidenceId: string, at: Time)
    requires Behaviour(states, actions) && i <= j < |states|
    requires id in states[i].tables.tasks && TaskOf(states[i].tables, id).state.Succeeded?
    ensures DurableCall(states[j].tables, id, c).0.Failure?
    ensures evidenceId in states[j].tables.envelopes && states[j].tables.envelopes[evidenceId].taskId == id
            && evidenceId != TaskOf(states[i].tables, id).acceptedEvidenceId ==>
              Reconciliation.Reconcile(states[j].tables, evidenceId, at).0.Failure?
  {
    AcceptedResultIsFinal(states, actions, i, j, id);
    InvAlways(states, actions, j);
    var tables := states[j].tables;
    assert RowOk(tables, id);
    AcceptedForever(TaskOf(tables, id), []);
    DurableStepIsStoreStep(tables, id, c);
    if evidenceId in tables.envelopes && tables.envelopes[evidenceId].taskId == id {
      Reconciliation.ReconcileRespectsFence(tables, evidenceId, at);
    }
  }

  // ----- One envelope per attempt

  /** Steps outside the runs leave the envelopes alone. */
  lemma OutsideKeepsEnvelopes(s: State, a: Action)
    requires Inv(s) && !a.Work?
    ensures CollectionProtocol.Next(s, a).tables.envelopes == s.tables.envelopes
  {
    match a
    case Reconcile(evidenceId, at) =>
      if Reconciliation.Reconcile(s.tables, evidenceId, at).1 != s.tables {
        Reconciliation.ReconcileChanges(s.tables, evidenceId, at);
      }
    case Present(g, request, digests, clock) =>
      ExchangeChangesLedgerOnly(s.tables, s.issued, s.issuer, s.audience, g, request, digests, clock);
    case _ =>
  }

  lemma NextKeepsOnePerAttempt(s: State, a: Action)
    requires Inv(s) && Evidence.OnePerAttempt(s.tables.envelopes)
    ensures Evidence.OnePerAttempt(CollectionProtocol.Next(s, a).tables.envelopes)
  {
    if !a.Work? {
      OutsideKeepsEnvelopes(s, a);
    } else if a.run in s.runs {
      WorkKeepsOnePerAttempt(s, s.runs[a.run], a.input);
    }
  }

  lemma WorkKeepsOnePerAttempt(s: State, r: Run, input: Input)
    requires Inv(s) && Evidence.OnePerAttempt(s.tables.envelopes)
    ensures Evidence.OnePerAttempt(StepRun(s, r, input).tables.envelopes)
  {
    StepTables(s, r, input);
    if Sends(r.stage) {
      DurableStepKeepsRows(s.tables, r.taskId, Sent(r, input));
    } else if r.stage.Persisting? {
      Evidence.CreateKeepsOnePerAttempt(s.tables, r.stage.envelope);
    } else if r.stage.Exchanging? {
      ExchangeStepChangesLedgerOnly(s, r, input);
    }
  }

  lemma ExchangeStepChangesLedgerOnly(s: State, r: Run, input: Input)
    requires r.stage.Exchanging?
    ensures ExchangeStep(s, r, input).tables.envelopes == s.tables.envelopes
  {
  }

  lemma {:induction false} RunKeepsOnePerAttempt(states: seq<State>, actions: seq<Action>, j: nat)
    requires Behaviour(states, actions) && j < |states|
    ensures Evidence.OnePerAttempt(states[j].tables.envelopes)
  {
    if j > 0 {
      RunKeepsOnePerAttempt(states, actions, j - 1);
      InvAlways(states, actions, j - 1);
      NextKeepsOnePerAttempt(states[j - 1], actions[j - 1]);
    }
  }

  /** In every run an epoch of a task leaves at most one envelope, and different epochs have different attempts. */
  lemma OneEnvelopePerEpoch(states: seq<State>, actions: seq<Action>, j: nat, x: string, y: string)
    requires Behaviour(states, actions) && j < |states| && x != y
    requires x in states[j].tables.envelopes && y in states[j].tables.envelopes
    ensures var e, f := states[j].tables.envelopes[x], states[j].tables.envelopes[y];
            e.attemptId != f.attemptId && !(e.taskId == f.taskId && e.fencingToken == f.fencingToken)
  {
    RunKeepsOnePerAttempt(states, actions, j);
    InvAlways(states, actions, j);
    EnvelopesDiffer(states[j].tables, x, y);
  }

  lemma EnvelopesDiffer(tables: Tables, x: string, y: string)
    requires LinksOk(tables) && Evidence.OnePerAttempt(tables.envelopes)
    requires x in tables.envelopes && y in tables.envelopes && x != y
    ensures var e, f := tables.envelopes[x], tables.envelopes[y];
            e.attemptId != f.attemptId && !(e.taskId == f.taskId && e.fencingToken == f.fencingToken)
  {
    var e, f := tables.envelopes[x], tables.envelopes[y];
    assert EnvelopeOk(tables, e) && EnvelopeOk(tables, f);
    if e.attemptId == f.attemptId {
      Evidence.AttemptIdInjective(e.taskId, e.fencingToken, f.taskId, f.fencingToken);
      assert false;
    }
  }

  // ----- Closed epochs

  lemma ClosedStays(states: seq<State>, actions: seq<Action>, i: nat, j: nat, id: string, token: nat)
    requires Behaviour(states, actions) && i <= j < |states|
    requires id in states[i].tables.tasks && Closed(TaskOf(states[i].tables, id), token)
    ensures id in states[j].tables.tasks && Closed(TaskOf(states[j].tables, id), token)
  {
    RunAdvances(states, actions, i, j);
    assert Advances(TaskOf(states[i].tables, id), TaskOf(states[j].tables, id));
  }

  /** Once an epoch is closed, no owner operation, attempt verification or reconciliation with its token ever succeeds. */
  lemma ClosedEpochIsDead(states: seq<State>, actions: seq<Action>, i: nat, j: nat, id: string, token: nat,
                          c: Command, owner: string, at: Time, evidenceId: string)
    requires Behaviour(states, actions) && i <= j < |states|
    requires id in states[i].tables.tasks && Closed(TaskOf(states[i].tables, id), token)
    ensures id in states[j].tables.tasks
    ensures !c.Acquire? && c.token == token ==> DurableCall(states[j].tables, id, c).0.Failure?
    ensures VerifyAttempt(TaskOf(states[j].tables, id), owner, token, at).Fail?
    ensures evidenceId in states[j].tables.envelopes && states[j].tables.envelopes[evidenceId].taskId == id
            && states[j].tables.envelopes[evidenceId].fencingToken == token ==>
              Reconciliation.Reconcile(states[j].tables, evidenceId, at).0.Failure?
  {
    ClosedStays(states, actions, i, j, id, token);
    InvAlways(states, actions, j);
    var tables := states[j].tables;
    assert RowOk(tables, id);
    ClosedForever(TaskOf(tables, id), token, []);
    DurableStepIsStoreStep(tables, id, c);
    if evidenceId in tables.envelopes && tables.envelopes[evidenceId].taskId == id {
      Reconciliation.ReconcileRespectsFence(tables, evidenceId, at);
    }
  }

  /** A grant of a closed epoch can never be exchanged, however validly it was signed. */
  lemma ClosedEpochGrantIsWorthless(states: seq<State>, actions: seq<Action>, i: nat, j: nat, id: string, token: nat,
                                    g: Grant, request: Grants.ExchangeRequest, digests: Grants.Digests,
                                    clock: Grants.DatabaseClock)
    requires Behaviour(states, actions) && i <= j < |states|
    requires id in states[i].tables.tasks && Closed(TaskOf(states[i].tables, id), token)
    requires g.taskId == id && g.fencingToken == token
    ensures var s := states[j];
            Grants.Exchange(s.tables, s.issued, s.issuer, s.audience, g, request, digests, clock).0.Failure?
  {
    ClosedStays(states, actions, i, j, id, token);
    InvAlways(states, actions, j);
    assert RowOk(states[j].tables, id);
  }

  // ----- The consumption ledger

  /** The readings of the database clock an action brings to the ledger, if it may append to it. */
  function ClockOf(a: Action): Option<Grants.DatabaseClock>
  {
    match a
    case Work(_, input) => Some(input.clock)
    case Present(_, _, _, clock) => Some(clock)
    case _ => None
  }

  /**
   The ledger grew by this row in a step whose database clock, read at the row lock, found the grant's
   attempt executing with lease and grant unexpired.
   */
  predicate RecordedIn(before: Tables, after: Tables, clock: Option<Grants.DatabaseClock>, grantId: string,
                       row: ConsumptionRow)
  {
    && grantId !in before.consumptions && grantId in after.consumptions && after.consumptions[grantId] == row
    && row.consumption.grantId == grantId && row.consumption.taskId in before.tasks
    && Grants.RowComplete(row)
    && clock.Some? && row.consumedAt == clock.value.consumedAt < row.consumption.grantExpiresAt
    && Grants.ExecutingUnder(TaskOf(before, row.consumption.taskId), row.consumption, clock.value.checkedAt)
  }

  predicate LedgerStep(a: Tables, b: Tables, clock: Option<Grants.DatabaseClock>)
  {
    && (forall g :: g in a.consumptions ==> g in b.consumptions && b.consumptions[g] == a.consumptions[g])
    && (forall g :: g in b.consumptions && g !in a.consumptions ==> RecordedIn(a, b, clock, g, b.consumptions[g]))
  }

  lemma ExchangeLedgerStep(a: Tables, issued: set<Grant>, issuer: string, audience: string, g: Grant,
                           request: Grants.ExchangeRequest, digests: Grants.Digests, clock: Grants.DatabaseClock)
    requires Grants.LedgerOk(a.consumptions)
    ensures LedgerStep(a, Grants.Exchange(a, issued, issuer, audience, g, request, digests, clock).1, Some(clock))
  {
    Grants.ConsumeNeedsTheExecutingAttempt(a, Grants.ConsumptionOf(g, digests, request.now), clock);
  }

  lemma NextLedgerStep(s: State, a: Action)
    requires Inv(s)
    ensures LedgerStep(s.tables, CollectionProtocol.Next(s, a).tables, ClockOf(a))
  {
    var after := CollectionProtocol.Next(s, a).tables;
    match a
    case Present(g, request, digests, clock) =>
      ExchangeLedgerStep(s.tables, s.issued, s.issuer, s.audience, g, request, digests, clock);
    case Work(run, input) =>
      if run in s.runs {
        WorkLedgerStep(s, run, input);
      } else {
        SameLedger(s.tables, after, ClockOf(a));
      }
    case Reconcile(evidenceId, at) =>
      if after != s.tables {
        Reconciliation.ReconcileChanges(s.tables, evidenceId, at);
      }
      SameLedger(s.tables, after, ClockOf(a));
    case AddTask(_, _) => SameLedger(s.tables, after, ClockOf(a));
    case Spawn(_, _, _) => SameLedger(s.tables, after, ClockOf(a));
    case Interrupt(_, _) => SameLedger(s.tables, after, ClockOf(a));
    case Issue(_, _, _) => SameLedger(s.tables, after, ClockOf(a));
  }

  lemma SameLedger(a: Tables, b: Tables, clock: Option<Grants.DatabaseClock>)
    requires b.consumptions == a.consumptions
    ensures LedgerStep(a, b, clock)
  {
  }

  lemma WorkLedgerStep(s: State, run: nat, input: Input)
    requires Inv(s) && run in s.runs
    ensures LedgerStep(s.tables, StepRun(s, s.runs[run], input).tables, Some(input.clock))
  {
    var r := s.runs[run];
    StepTables(s, r, input);
    if Sends(r.stage) {
      DurableStepKeepsRows(s.tables, r.taskId, Sent(r, input));
      SameLedger(s.tables, StepRun(s, r, input).tables, Some(input.clock));
    } else if r.stage.Persisting? {
      CreateAddsAtMostOne(s.tables, r.stage.envelope);
      SameLedger(s.tables, StepRun(s, r, input).tables, Some(input.clock));
    } else if r.stage.Exchanging? {
      var Exchanging(lease, g, task) := r.stage;
      var request := Grants.ExchangeRequest(r.worker.id, task.authority.id, task.authority.targetId,
                                            task.authority.recipeId, task.authority.recipeVersion,
                                            lease.fencingToken, input.now);
      ExchangeLedgerStep(s.tables, s.issued, s.issuer, s.audience, g, request, input.digests, input.clock);
    } else {
      SameLedger(s.tables, StepRun(s, r, input).tables, Some(input.clock));
    }
  }

  lemma StepLedger(states: seq<State>, actions: seq<Action>, j: nat)
    requires Behaviour(states, actions) && 0 < j < |states|
    ensures LedgerStep(states[j - 1].tables, states[j].tables, ClockOf(actions[j - 1]))
  {
    InvAlways(states, actions, j - 1);
    NextLedgerStep(states[j - 1], actions[j - 1]);
  }

  /** No two rows of the ledger share a grant or a nonce digest. */
  lemma LedgerIsUnique(states: seq<State>, actions: seq<Action>, j: nat)
    requires Behaviour(states, actions) && j < |states|
    ensures Grants.LedgerOk(states[j].tables.consumptions)
  {
    InvAlways(states, actions, j);
  }

  /**
   Every ledger row was appended by one earlier step, and in the state before that step the task was
   executing under the same owner, fence, grant, target and recipe with lease and grant unexpired on
   the database clock that this step read; the row carries that step's insert time.
   */
  lemma {:induction false} LedgerRowsAreEarned(states: seq<State>, actions: seq<Action>, j: nat, grantId: string)
    returns (i: nat)
    requires Behaviour(states, actions) && j < |states| && grantId in states[j].tables.consumptions
    ensures i < j
    ensures RecordedIn(states[i].tables, states[i + 1].tables, ClockOf(actions[i]), grantId,
                       states[j].tables.consumptions[grantId])
  {
    assert j > 0;
    StepLedger(states, actions, j);
    LedgerRowKept(states[j - 1].tables, states[j].tables, ClockOf(actions[j - 1]), grantId);
    if grantId in states[j - 1].tables.consumptions {
      i := LedgerRowsAreEarned(states, actions, j - 1, grantId);
    } else {
      i := j - 1;
    }
  }

  lemma LedgerRowKept(a: Tables, b: Tables, clock: Option<Grants.DatabaseClock>, g: string)
    requires LedgerStep(a, b, clock) && g in b.consumptions
    ensures g in a.consumptions ==> b.consumptions[g] == a.consumptions[g]
    ensures g !in a.consumptions ==> RecordedIn(a, b, clock, g, b.consumptions[g])
  {
  }
}
