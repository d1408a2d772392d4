/**
 The execution grants that workers hold: in every run of the collection protocol each was issued by the
 authority for the worker's own attempt and stays within its lease and its limits.
 */
module CollectionGrants {
  import opened Clock
  import opened CollectorTask
  import opened CollectorRepository
  import opened CollectionProtocol
  import opened CollectionSafety
  import Grants

  /** The authority signed this grant for the attempt, within the lease and the limits of the worker. */
  predicate GrantFor(s: State, r: Run, lease: Lease, g: Grant)
  {
    && g in s.issued && WithinLimits(r.worker, lease, g) && r.taskId in s.tables.tasks
    && var a := TaskOf(s.tables, r.taskId).authority;
       && g.collectorId == r.worker.id && g.taskId == r.taskId && g.fencingToken == lease.fencingToken
       && g.tenantId == a.tenantId && g.targetId == a.targetId
       && g.recipeId == a.recipeId && g.recipeVersion == a.recipeVersion
  }

  /** The grant ends with the lease or before, leaves room for its longest use, and grants no more than the worker may have. */
  predicate WithinLimits(w: Worker, lease: Lease, g: Grant)
  {
    && g.executionDecisionId != "" && g.singleUse
    && g.expiresAt <= lease.expiresAt && g.expiresAt <= g.notBefore + w.grantTTL
    && g.notBefore + g.maximumDuration <= g.expiresAt
    && 0 < g.maximumDuration <= w.maximumDuration && 0 < g.maximumResponseBytes <= w.maximumBytes
  }

  predicate RunGranted(s: State, r: Run)
  {
    match r.stage
    case Authorising(_, task) => r.taskId in s.tables.tasks && task.authority == TaskOf(s.tables, r.taskId).authority
    case Recording(lease, g) => GrantFor(s, r, lease, g)
    case Rereading(lease, g) => GrantFor(s, r, lease, g)
    case Exchanging(lease, g, _) => GrantFor(s, r, lease, g)
    case Capturing(lease, g, _) => GrantFor(s, r, lease, g)
    case Persisting(lease, g, _) => GrantFor(s, r, lease, g)
    case Finishing(lease, g, _) => GrantFor(s, r, lease, g)
    case Concluding(lease, g, _) => GrantFor(s, r, lease, g)
    case _ => true
  }

  /** Whatever the authority signed is complete and carries its own name and audience. */
  predicate IssuedOk(s: State)
  {
    forall g :: g in s.issued ==> Grants.ValidGrant(g) && g.issuer == s.issuer && g.audience == s.audience
  }

  predicate Granted(s: State)
  {
    IssuedOk(s) && forall run :: run in s.runs ==> RunGranted(s, s.runs[run])
  }

  /** What a step leaves of what a run relies on. */
  predicate Upholds(s: State, after: State)
  {
    && s.issued <= after.issued && after.issuer == s.issuer && after.audience == s.audience
    && forall id :: id in s.tables.tasks ==>
                      && id in after.tables.tasks
                      && TaskOf(after.tables, id).authority == TaskOf(s.tables, id).authority
  }

  lemma NextUpholds(s: State, a: Action)
    requires Inv(s)
    ensures Upholds(s, CollectionProtocol.Next(s, a))
  {
    NextAdvances(s, a);
    var after := CollectionProtocol.Next(s, a);
    forall id | id in s.tables.tasks
      ensures id in after.tables.tasks && TaskOf(after.tables, id).authority == TaskOf(s.tables, id).authority
    {
      assert Advances(TaskOf(s.tables, id), TaskOf(after.tables, id));
    }
    NextKeepsIssued(s, a);
  }

  lemma NextKeepsIssued(s: State, a: Action)
    ensures s.issued <= CollectionProtocol.Next(s, a).issued
    ensures IssuedOk(s) ==> IssuedOk(CollectionProtocol.Next(s, a))
  {
    if a.Work? && a.run in s.runs {
      WorkKeepsIssued(s, s.runs[a.run], a.input);
    }
  }

  lemma WorkKeepsIssued(s: State, r: Run, input: Input)
    ensures var issued := StepRun(s, r, input).issued;
            && s.issued <= issued
            && forall g :: g in issued && g !in s.issued ==>
                             Grants.ValidGrant(g) && g.issuer == s.issuer && g.audience == s.audience
  {
  }

  lemma RunStaysGranted(s: State, after: State, r: Run)
    requires RunGranted(s, r) && Upholds(s, after)
    ensures RunGranted(after, r)
  {
  }

  /** The authoriser's answer turns into a grant for the attempt, or the attempt fails. */
  lemma AuthoriseGrants(s: State, r: Run, input: Input)
    requires TasksOk(s.tables) && RunGranted(s, r) && r.stage.Authorising?
    ensures var x := Authorise(s, r, input);
            RunGranted(s.(issued := x.issued), r.(stage := x.stage))
  {
    assert RowOk(s.tables, r.taskId);
  }

  /** Every other step hands its grant on. */
  lemma StepKeepsGrant(s: State, r: Run, input: Input)
    requires RunGranted(s, r) && !r.stage.Authorising?
    ensures var x := StepRun(s, r, input);
            RunGranted(s, r.(stage := x.stage))
  {
    if Sends(r.stage) {
      SendKeepsGrant(s, r, input);
    } else if r.stage.Exchanging? {
      ExchangeKeepsGrant(s, r, input);
    }
  }

  lemma SendKeepsGrant(s: State, r: Run, input: Input)
    requires RunGranted(s, r) && Sends(r.stage)
    ensures RunGranted(s, r.(stage := SendStep(s, r, input).stage))
  {
  }

  lemma ExchangeKeepsGrant(s: State, r: Run, input: Input)
    requires RunGranted(s, r) && r.stage.Exchanging?
    ensures RunGranted(s, r.(stage := ExchangeStep(s, r, input).stage))
  {
  }

  lemma WorkGrants(s: State, run: nat, input: Input)
    requires Inv(s) && Granted(s) && run in s.runs
    ensures var after := CollectionProtocol.Next(s, Work(run, input));
            run in after.runs && RunGranted(after, after.runs[run])
  {
    var r, after := s.runs[run], CollectionProtocol.Next(s, Work(run, input));
    NextUpholds(s, Work(run, input));
    assert RunGranted(s, r);
    if r.stage.Authorising? {
      AuthoriseGrants(s, r, input);
      RunStaysGranted(s.(issued := after.issued), after, after.runs[run]);
    } else {
      StepKeepsGrant(s, r, input);
      RunStaysGranted(s, after, after.runs[run]);
    }
  }

  lemma NextKeepsGranted(s: State, a: Action)
    requires Inv(s) && Granted(s)
    ensures Granted(CollectionProtocol.Next(s, a))
  {
    var after := CollectionProtocol.Next(s, a);
    NextUpholds(s, a);
    NextKeepsIssued(s, a);
    forall run | run in after.runs
      ensures RunGranted(after, after.runs[run])
    {
      if a.Work? && a.run == run && run in s.runs {
        WorkGrants(s, run, a.input);
      } else if run in s.runs && after.runs[run] == s.runs[run] {
        RunStaysGranted(s, after, s.runs[run]);
      }
    }
  }

  lemma {:induction false} GrantedAlways(states: seq<State>, actions: seq<Action>, j: nat)
    requires Behaviour(states, actions) && j < |states|
    ensures Granted(states[j])
  {
    if j > 0 {
      GrantedAlways(states, actions, j - 1);
      InvAlways(states, actions, j - 1);
      NextKeepsGranted(states[j - 1], actions[j - 1]);
    }
  }

  /** In every run whatever the authority signed is complete, single-use and valid for some time, under its own name. */
  lemma IssuedGrantsAreComplete(states: seq<State>, actions: seq<Action>, j: nat, g: Grant)
    requires Behaviour(states, actions) && j < |states| && g in states[j].issued
    ensures g.grantId != "" && g.nonce != "" && g.tenantId != "" && g.collectorId != "" && g.taskId != ""
    ensures g.targetId != "" && g.recipeId != "" && g.recipeVersion != "" && g.issuer != "" && g.audience != ""
    ensures g.signatureAlgorithm != "" && g.signingKeyRef != "" && g.issuer == states[j].issuer && g.audience == states[j].audience
    ensures g.fencingToken > 0 && g.maximumDuration > 0 && g.maximumResponseBytes > 0 && g.singleUse
    ensures ZERO < g.notBefore < g.expiresAt
  {
    GrantedAlways(states, actions, j);
  }

  /**
   In every run, a worker that goes on after authorisation holds a grant that the authority signed for its
   own task, target, recipe and fence, that ends with its lease or before, and that allows no more time
   and no more bytes than the worker itself may use.
   */
  lemma GrantsStayWithinTheLease(states: seq<State>, actions: seq<Action>, j: nat, run: nat)
    requires Behaviour(states, actions) && j < |states| && run in states[j].runs
    requires var stage := states[j].runs[run].stage;
             || stage.Recording? || stage.Rereading? || stage.Exchanging? || stage.Capturing? || stage.Persisting?
             || stage.Finishing? || stage.Concluding?
    ensures var r := states[j].runs[run];
            && GrantFor(states[j], r, r.stage.lease, r.stage.grant)
            && Grants.ValidGrant(r.stage.grant)
            && r.stage.grant.issuer == states[j].issuer && r.stage.grant.audience == states[j].audience
  {
    GrantedAlways(states, actions, j);
    assert RunGranted(states[j], states[j].runs[run]);
  }
}
