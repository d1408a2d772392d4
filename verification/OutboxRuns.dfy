/**
 Every interleaving of writers, dispatchers, crashes and operator replays over the outbox
 (internal/outbox/postgres_store.go, dispatcher.go and internal/deadletter/postgres_repository.go).
 */
module OutboxRuns {
  import opened Wrappers
  import opened Clock
  import opened Outbox
  import Utf8

  /** A dispatcher between steps: the records still to publish, and an answer not yet recorded. */
  datatype Work = Work(inbox: seq<Record>, answered: Option<(Record, bool)>)

  datatype State = State(rows: seq<Row>, actions: seq<ReplayAction>, workers: map<string, Work>)

  /** `name` is a dispatcher process; several may share a worker identifier. */
  datatype Action =
    | Write(event: Event, now: Time)
    | Claim(name: string, config: Dispatcher, locked: set<nat>, now: Time)
    | Publish(name: string, index: nat, acknowledged: bool)
    | Record(name: string, config: Dispatcher, answer: Answer)
    | Crash(name: string)
    | Operate(command: ReplayCommand, now: Time)

  const INITIAL: State := State([], [], map[])

  predicate Idle(s: State, name: string)
  {
    name !in s.workers || s.workers[name] == Work([], None)
  }

  predicate CanPublish(s: State, name: string, index: nat)
  {
    name in s.workers && s.workers[name].answered.None? && index < |s.workers[name].inbox|
  }

  /** One step; a step that is not enabled leaves the state alone. */
  function Next(s: State, a: Action): State
  {
    match a
    case Write(e, now) =>
      if exists k :: 0 <= k < |s.rows| && s.rows[k].event.id == e.id then s
      else s.(rows := s.rows + [NewRow(e, now)])
    case Claim(name, d, locked, now) =>
      if !ValidDispatcher(d) || now == ZERO || !Idle(s, name) then s
      else
        var taken := Taken(s.rows, locked, d.batchSize, now, |s.rows|);
        TakenExactly(s.rows, locked, d.batchSize, now, |s.rows|);
        s.(rows := Claimed(s.rows, taken, d.workerId, now, d.lease),
           workers := s.workers[name := Work(Records(s.rows, taken), None)])
    case Publish(name, index, acknowledged) =>
      if !CanPublish(s, name, index) then s
      else
        var inbox := s.workers[name].inbox;
        s.(workers := s.workers[name := Work(inbox[..index] + inbox[index + 1..], Some((inbox[index], acknowledged)))])
    case Record(name, d, answer) =>
      if name !in s.workers || s.workers[name].answered.None? then s
      else
        var (record, acknowledged) := s.workers[name].answered.value;
        s.(rows := Apply(s.rows, UpdateFor(d, record, answer.(acknowledged := acknowledged))).1,
           workers := s.workers[name := s.workers[name].(answered := None)])
    case Crash(name) => s.(workers := s.workers - {name})
    case Operate(c, now) =>
      var (_, rows, actions) := Replay(s.rows, s.actions, c, now);
      s.(rows := rows, actions := actions)
  }

  function Run(actions: seq<Action>): State
  {
    if actions == [] then INITIAL else Next(Run(actions[..|actions| - 1]), actions[|actions| - 1])
  }

  // ----- Phases

  datatype Phase = Waiting | Leased | Published | Dead

  function PhaseOf(r: Row): Phase
  {
    if r.Published() then Published else if r.Dead() then Dead else if r.Leased() then Leased else Waiting
  }

  /** The four phases exclude each other and the lease columns are filled together. */
  predicate RowOk(r: Row)
  {
    && (r.leaseOwner.Some? <==> r.leaseExpiresAt.Some?)
    && (r.Published() ==> !r.Dead() && !r.Leased())
    && (r.Dead() ==> !r.Leased() && r.lastError.Some?)
    && (r.lastError.Some? ==> Utf8.Valid(r.lastError.value) && |r.lastError.value| <= Utf8.MAXIMUM_ERROR)
    && (r.Leased() ==> r.attempts > 0)
  }

  /** The moves a row may make in one step. */
  predicate Moves(before: Row, after: Row)
  {
    && after.event == before.event
    && (after != before ==>
          match PhaseOf(before)
          case Waiting => PhaseOf(after).Leased? && after.attempts == before.attempts + 1
          case Leased => if PhaseOf(after).Leased? then after.attempts == before.attempts + 1
                         else after.attempts == before.attempts
          case Published => false
          case Dead => PhaseOf(after).Waiting? && after.attempts == 0)
  }

  predicate RowsMove(before: seq<Row>, after: seq<Row>)
  {
    && |before| <= |after|
    && (forall k :: 0 <= k < |before| ==> Moves(before[k], after[k]))
    && (forall k :: |before| <= k < |after| ==> PhaseOf(after[k]).Waiting?)
  }

  predicate RowsOk(rows: seq<Row>)
  {
    forall k :: 0 <= k < |rows| ==> RowOk(rows[k])
  }

  lemma ApplyMoves(rows: seq<Row>, u: Update)
    requires RowsOk(rows)
    ensures RowsOk(Apply(rows, u).1) && RowsMove(rows, Apply(rows, u).1)
    ensures forall k :: 0 <= k < |rows| && rows[k].Dead() ==> Apply(rows, u).1[k] == rows[k]
    ensures forall k :: 0 <= k < |rows| && !rows[k].Published() && Apply(rows, u).1[k].Published() ==>
                          u.MarkPublished? && u.sequence == k
  {
    if !u.MarkPublished? {
      Utf8.BoundedIsValid(u.failure);
    }
  }

  lemma ReplayMoves(rows: seq<Row>, actions: seq<ReplayAction>, c: ReplayCommand, at: Time)
    requires RowsOk(rows)
    ensures var (_, rows', actions') := Replay(rows, actions, c, at);
            && RowsOk(rows') && RowsMove(rows, rows') && |rows'| == |rows|
            && (forall k :: 0 <= k < |rows| && !rows[k].Published() ==> !rows'[k].Published())
            && if actions' == actions then rows' == rows
               else && |actions'| == |actions| + 1 && actions'[..|actions|] == actions
                    && var sequence := actions'[|actions|].sequence;
                       && sequence < |rows| && rows[sequence].Dead() && !rows'[sequence].Dead()
                       && rows' == rows[sequence := rows'[sequence]]
  {
    FindDeadFinds(rows, c);
    FindActionFinds(actions, c);
  }

  /**
   A replay that was not made before takes its own dead event back to the start: no attempts, no lease,
   claimable from the replay instant on and not before; and it says so in its answer and its audit row.
   */
  lemma ReplayedIsClaimable(rows: seq<Row>, actions: seq<ReplayAction>, c: ReplayCommand, at: Time, later: Time)
    requires RowsOk(rows) && Replay(rows, actions, c, at).0.Success? && Replay(rows, actions, c, at).0.value.replayed
    ensures var (r, rows', actions') := Replay(rows, actions, c, at);
            && |actions'| == |actions| + 1 && |rows'| == |rows|
            && var a := actions'[|actions|];
               && a.sequence < |rows|
               && var before, after := rows[a.sequence], rows'[a.sequence];
                  && before.Dead() && !before.Published()
                  && before.event.tenantId == c.tenantId && before.event.id == c.eventId
                  && after.Waiting() && after.attempts == 0 && after.event == before.event
                  && (Claimable(after, later) <==> at <= later)
                  && a.priorDeadLetteredAt == before.deadLetteredAt.value && a.attempts == before.attempts
                  && Some(a.lastError) == before.lastError
                  && a.requestedAt == at && r.value == ReplayResult(c.actionId, c.eventId, at, at, true)
                  && a.actorId == c.actorId && a.tenantId == c.tenantId && a.reason == c.reason
                  && a.idempotencyKey == c.idempotencyKey && a.eventId == c.eventId && a.actionId == c.actionId
  {
    FindDeadFinds(rows, c);
    FindActionFinds(actions, c);
    var k := FindDead(rows, c);
    assert RowOk(rows[k]);
  }

  /**
   Under a new key a replay succeeds exactly when the command is complete and bounded, its action
   identifier is new, and the tenant has a dead event of that name; every refusal changes nothing.
   */
  lemma ReplayNeedsADeadEvent(rows: seq<Row>, actions: seq<ReplayAction>, c: ReplayCommand, at: Time)
    requires RowsOk(rows)
    requires forall k :: 0 <= k < |actions| ==> !(actions[k].tenantId == c.tenantId && actions[k].actorId == c.actorId
                                                  && actions[k].idempotencyKey == c.idempotencyKey)
    ensures var (r, rows', actions') := Replay(rows, actions, c, at);
            && (r.Success? <==>
                  && "" !in {c.actionId, c.tenantId, c.eventId, c.actorId, c.spiffeId, c.identityRevision, c.idempotencyKey}
                  && 1 <= |c.reason| <= 512 && |c.idempotencyKey| <= 128
                  && (forall k :: 0 <= k < |actions| ==> actions[k].actionId != c.actionId)
                  && exists k :: 0 <= k < |rows| && rows[k].Dead() && rows[k].event.tenantId == c.tenantId
                                 && rows[k].event.id == c.eventId)
            && (r.Success? ==> r.value.replayed)
            && (r.Failure? ==> rows' == rows && actions' == actions)
  {
    FindDeadFinds(rows, c);
    FindActionFinds(actions, c);
    var k := FindDead(rows, c);
    assert k < |rows| ==> RowOk(rows[k]);
    forall i | 0 <= i < |rows| && rows[i].Dead() && rows[i].event.tenantId == c.tenantId && rows[i].event.id == c.eventId
      ensures k < |rows|
    {
      assert RowOk(rows[i]);
      assert Replayable(rows[i], c);
    }
  }

  lemma ClaimMoves(rows: seq<Row>, taken: seq<nat>, owner: string, now: Time, lease: nat)
    requires RowsOk(rows) && forall k :: 0 <= k < |taken| ==> taken[k] < |rows| && Claimable(rows[taken[k]], now)
    ensures RowsOk(Claimed(rows, taken, owner, now, lease)) && RowsMove(rows, Claimed(rows, taken, owner, now, lease))
  {
  }

  lemma SameRowsMove(rows: seq<Row>)
    ensures RowsMove(rows, rows)
  {
  }

  lemma NextMoves(s: State, a: Action)
    requires RowsOk(s.rows)
    ensures RowsOk(Next(s, a).rows) && RowsMove(s.rows, Next(s, a).rows)
  {
    SameRowsMove(s.rows);
    match a
    case Write(_, _) =>
    case Claim(_, d, locked, now) =>
      if ValidDispatcher(d) {
        TakenExactly(s.rows, locked, d.batchSize, now, |s.rows|);
        ClaimMoves(s.rows, Taken(s.rows, locked, d.batchSize, now, |s.rows|), d.workerId, now, d.lease);
      }
    case Publish(_, _, _) =>
    case Record(name, d, answer) =>
      if name in s.workers && s.workers[name].answered.Some? {
        var (record, acknowledged) := s.workers[name].answered.value;
        ApplyMoves(s.rows, UpdateFor(d, record, answer.(acknowledged := acknowledged)));
      }
    case Crash(_) =>
    case Operate(c, now) => ReplayMoves(s.rows, s.actions, c, now);
  }

  lemma {:induction false} RunKeepsRows(actions: seq<Action>)
    ensures RowsOk(Run(actions).rows)
  {
    if actions != [] {
      RunKeepsRows(actions[..|actions| - 1]);
      NextMoves(Run(actions[..|actions| - 1]), actions[|actions| - 1]);
    }
  }

  function Count(b: bool): nat
  {
    if b then 1 else 0
  }

  /** In every run, every event is in exactly one phase. */
  lemma ExactlyOnePhase(actions: seq<Action>, k: nat)
    requires k < |Run(actions).rows|
    ensures var r := Run(actions).rows[k];
            Count(r.Waiting()) + Count(r.Leased()) + Count(r.Published()) + Count(r.Dead()) == 1
  {
    RunKeepsRows(actions);
    assert RowOk(Run(actions).rows[k]);
  }

  lemma RunStep(actions: seq<Action>, a: Action)
    ensures Run(actions + [a]) == Next(Run(actions), a)
  {
    assert (actions + [a])[..|actions|] == actions;
  }

  lemma AppendSplits<T>(a: seq<T>, b: seq<T>)
    requires b != []
    ensures a + b == (a + b[..|b| - 1]) + [b[|b| - 1]]
  {
  }

  lemma PublishedStays(s: State, a: Action, k: nat)
    requires RowsOk(s.rows) && k < |s.rows| && s.rows[k].Published()
    ensures k < |Next(s, a).rows| && Next(s, a).rows[k] == s.rows[k]
  {
    NextMoves(s, a);
    assert Moves(s.rows[k], Next(s, a).rows[k]);
  }

  /** A published row never changes again, whatever happens later. */
  lemma {:induction false} PublishedIsFinal(actions: seq<Action>, more: seq<Action>, k: nat)
    requires k < |Run(actions).rows| && Run(actions).rows[k].Published()
    ensures k < |Run(actions + more).rows| && Run(actions + more).rows[k] == Run(actions).rows[k]
    decreases |more|
  {
    if more == [] {
      assert actions + more == actions;
    } else {
      var n := |more| - 1;
      PublishedIsFinal(actions, more[..n], k);
      AppendSplits(actions, more);
      RunStep(actions + more[..n], more[n]);
      RunKeepsRows(actions + more[..n]);
      PublishedStays(Run(actions + more[..n]), more[n], k);
    }
  }

  /** A claimed row is out of reach until its lease ends, and a retried one until the time set for it. */
  lemma RowsWaitTheirTime(rows: seq<Row>, taken: seq<nat>, owner: string, now: Time, lease: nat, u: Update, k: nat,
                          later: Time)
    requires k < |rows| && RowOk(rows[k])
    ensures k in taken && Claimable(Claimed(rows, taken, owner, now, lease)[k], later) ==> now + lease <= later
    ensures u.Retry? && u.sequence == k && Apply(rows, u).0.Pass? ==>
              && PhaseOf(Apply(rows, u).1[k]).Waiting?
              && (Claimable(Apply(rows, u).1[k], later) <==> u.availableAt <= later)
  {
  }

  // ----- Leases exclude

  /**
   A result is recorded exactly when the request is complete and the row is leased to that very worker by
   a lease that has not ended; otherwise nothing changes. Recording it ends the lease.
   */
  lemma RecordingNeedsTheLease(rows: seq<Row>, u: Update)
    requires RowsOk(rows)
    ensures var (res, after) := Apply(rows, u);
            && (res.Pass? <==>
                  && u.owner != "" && u.at != ZERO && (u.Retry? ==> u.at <= u.availableAt)
                  && 0 <= u.sequence < |rows|
                  && rows[u.sequence].leaseOwner == Some(u.owner) && u.at < rows[u.sequence].leaseExpiresAt.value)
            && (res.Fail? ==> after == rows)
            && (res.Pass? ==>
                  var row := after[u.sequence];
                  && after == rows[u.sequence := row] && !row.Leased()
                  && row.event == rows[u.sequence].event && row.attempts == rows[u.sequence].attempts
                  && match u
                     case MarkPublished(_, _, at) => row.publishedAt == Some(at) && row.lastError == None
                     case Retry(_, _, _, available, failure) =>
                       row.Waiting() && row.availableAt == available && row.lastError == Some(Utf8.Bounded(failure))
                     case DeadLetter(_, _, at, failure) =>
                       row.deadLetteredAt == Some(at) && row.lastError == Some(Utf8.Bounded(failure)))
  {
    if 0 <= u.sequence < |rows| {
      assert RowOk(rows[u.sequence]);
    }
  }

  /** A row can be claimed exactly when it waits or its lease has ended, and it is available: no crash strands it. */
  lemma ClaimableWhen(r: Row, now: Time)
    requires RowOk(r)
    ensures Claimable(r, now) <==>
            && r.availableAt <= now
            && match PhaseOf(r)
               case Waiting => true
               case Leased => r.leaseExpiresAt.value <= now
               case Published => false
               case Dead => false
  {
  }

  /** Who may change a row, by its phase. */
  predicate MayMove(r: Row, a: Action)
  {
    match PhaseOf(r)
    case Waiting => a.Claim? && r.availableAt <= a.now
    case Leased =>
      || (a.Claim? && r.availableAt <= a.now && r.leaseExpiresAt.Some? && r.leaseExpiresAt.value <= a.now)
      || (a.Record? && r.leaseOwner == Some(a.config.workerId) && r.leaseExpiresAt.Some?
          && a.answer.at < r.leaseExpiresAt.value)
    case Published => false
    case Dead => a.Operate? && a.command.tenantId == r.event.tenantId && a.command.eventId == r.event.id
  }

  lemma OnlyMayMove(s: State, a: Action, k: nat)
    requires RowsOk(s.rows) && k < |s.rows|
    ensures k < |Next(s, a).rows| && (Next(s, a).rows[k] != s.rows[k] ==> MayMove(s.rows[k], a))
  {
    assert RowOk(s.rows[k]);
    match a
    case Write(_, _) =>
    case Claim(_, d, locked, now) =>
      if ValidDispatcher(d) {
        TakenExactly(s.rows, locked, d.batchSize, now, |s.rows|);
      }
    case Publish(_, _, _) =>
    case Record(name, d, answer) =>
      if name in s.workers && s.workers[name].answered.Some? {
        var (record, acknowledged) := s.workers[name].answered.value;
        RecordingNeedsTheLease(s.rows, UpdateFor(d, record, answer.(acknowledged := acknowledged)));
      }
    case Crash(_) =>
    case Operate(c, now) =>
      FindDeadFinds(s.rows, c);
      FindActionFinds(s.actions, c);
  }

  /**
   In every run a row changes only when it is its turn: a waiting one by a claim once it is available, a
   leased one by its own worker before the lease ends or by a claim after, a dead one by a replay of its
   own event, and a published one never.
   */
  lemma LeasesExclude(actions: seq<Action>, a: Action, k: nat)
    requires k < |Run(actions).rows|
    ensures k < |Run(actions + [a]).rows|
    ensures Run(actions + [a]).rows[k] != Run(actions).rows[k] ==> MayMove(Run(actions).rows[k], a)
  {
    RunKeepsRows(actions);
    RunStep(actions, a);
    OnlyMayMove(Run(actions), a, k);
  }

  // ----- Published only after an acknowledgement

  /** Step `j` is the broker acknowledging event `k`. */
  predicate AcknowledgedBy(actions: seq<Action>, j: nat, k: nat)
    requires j < |actions|
  {
    && actions[j].Publish? && actions[j].acknowledged
    && CanPublish(Run(actions[..j]), actions[j].name, actions[j].index)
    && Run(actions[..j]).workers[actions[j].name].inbox[actions[j].index].sequence == k
  }

  predicate Acknowledged(actions: seq<Action>, k: nat)
  {
    exists j :: 0 <= j < |actions| && AcknowledgedBy(actions, j, k)
  }

  lemma AcknowledgedStill(actions: seq<Action>, k: nat)
    requires actions != [] && Acknowledged(actions[..|actions| - 1], k)
    ensures Acknowledged(actions, k)
  {
    var before := actions[..|actions| - 1];
    var j :| 0 <= j < |before| && AcknowledgedBy(before, j, k);
    assert before[..j] == actions[..j];
    assert AcknowledgedBy(actions, j, k);
  }

  /** A worker about to record success holds an acknowledgement. */
  predicate Backed(actions: seq<Action>, s: State, name: string)
  {
    name in s.workers && s.workers[name].answered.Some? && s.workers[name].answered.value.1 ==>
      Acknowledged(actions, s.workers[name].answered.value.0.sequence)
  }

  lemma {:induction false} AnswersAreBacked(actions: seq<Action>, name: string)
    ensures Backed(actions, Run(actions), name)
  {
    if actions != [] {
      var n := |actions| - 1;
      var s, a := Run(actions[..n]), actions[n];
      AnswersAreBacked(actions[..n], name);
      if a.Publish? && a.name == name && CanPublish(s, name, a.index) {
        if a.acknowledged {
          assert AcknowledgedBy(actions, n, s.workers[name].inbox[a.index].sequence);
        }
      } else if name in s.workers && s.workers[name].answered.Some? && s.workers[name].answered.value.1 {
        AcknowledgedStill(actions, s.workers[name].answered.value.0.sequence);
      }
    }
  }

  /** The step that publishes a row is the recording of an acknowledged publish. */
  lemma PublishingStep(s: State, a: Action, k: nat)
    requires RowsOk(s.rows) && k < |Next(s, a).rows| && Next(s, a).rows[k].Published()
    requires k >= |s.rows| || !s.rows[k].Published()
    ensures && a.Record? && a.name in s.workers && s.workers[a.name].answered.Some?
            && s.workers[a.name].answered.value.1 && s.workers[a.name].answered.value.0.sequence == k
  {
    NextMoves(s, a);
    if a.Operate? {
      ReplayMoves(s.rows, s.actions, a.command, a.now);
    }
    if a.Record? && a.name in s.workers && s.workers[a.name].answered.Some? {
      var (record, acknowledged) := s.workers[a.name].answered.value;
      ApplyMoves(s.rows, UpdateFor(a.config, record, a.answer.(acknowledged := acknowledged)));
    }
  }

  /** In every run, a published event was acknowledged by the broker at an earlier step. */
  lemma {:induction false} PublishedWasAcknowledged(actions: seq<Action>, k: nat)
    requires k < |Run(actions).rows| && Run(actions).rows[k].Published()
    ensures Acknowledged(actions, k)
  {
    if actions != [] {
      var n := |actions| - 1;
      var s, a := Run(actions[..n]), actions[n];
      if k < |s.rows| && s.rows[k].Published() {
        PublishedWasAcknowledged(actions[..n], k);
      } else {
        RunKeepsRows(actions[..n]);
        PublishingStep(s, a, k);
        AnswersAreBacked(actions[..n], a.name);
      }
      AcknowledgedStill(actions, k);
    }
  }

  // ----- Dead letters and their audit

  predicate DeadAt(s: State, k: nat)
  {
    k < |s.rows| && s.rows[k].Dead()
  }

  /** How often event `k` left the dead-letter phase during a run. */
  function Exits(actions: seq<Action>, k: nat): nat
  {
    if actions == [] then 0
    else
      var before := actions[..|actions| - 1];
      Exits(before, k) + Count(DeadAt(Run(before), k) && !DeadAt(Run(actions), k))
  }

  function Entries(actions: seq<Action>, k: nat): nat
  {
    if actions == [] then 0
    else
      var before := actions[..|actions| - 1];
      Entries(before, k) + Count(!DeadAt(Run(before), k) && DeadAt(Run(actions), k))
  }

  /** How many audit rows name event `k`. */
  function Audits(actions: seq<ReplayAction>, k: nat): nat
  {
    if actions == [] then 0
    else Audits(actions[..|actions| - 1], k) + Count(actions[|actions| - 1].sequence == k)
  }

  lemma StepAudits(s: State, a: Action, k: nat)
    requires RowsOk(s.rows)
    ensures Audits(Next(s, a).actions, k)
         == Audits(s.actions, k) + Count(DeadAt(s, k) && !DeadAt(Next(s, a), k))
  {
    match a
    case Operate(c, now) => ReplayMoves(s.rows, s.actions, c, now);
    case Record(name, d, answer) =>
      if name in s.workers && s.workers[name].answered.Some? {
        var (record, acknowledged) := s.workers[name].answered.value;
        ApplyMoves(s.rows, UpdateFor(d, record, answer.(acknowledged := acknowledged)));
      }
    case Claim(_, d, locked, now) =>
      if ValidDispatcher(d) {
        TakenExactly(s.rows, locked, d.batchSize, now, |s.rows|);
      }
    case _ =>
  }

  /**
   In every run an event has left the dead-letter phase exactly as often as it has audit rows, and has
   entered it as often, plus once if it is there now.
   */
  lemma {:induction false} EveryExitIsAudited(actions: seq<Action>, k: nat)
    ensures Exits(actions, k) == Audits(Run(actions).actions, k)
    ensures Entries(actions, k) == Exits(actions, k) + Count(DeadAt(Run(actions), k))
  {
    if actions != [] {
      var before := actions[..|actions| - 1];
      EveryExitIsAudited(before, k);
      RunKeepsRows(before);
      StepAudits(Run(before), actions[|actions| - 1], k);
    }
  }

  // ----- Replay keys

  lemma AuditGrows(s: State, a: Action)
    ensures s.actions <= Next(s, a).actions
  {
    match a
    case Operate(c, now) =>
      FindActionFinds(s.actions, c);
      FindDeadFinds(s.rows, c);
    case _ =>
  }

  lemma {:induction false} AuditOnlyGrows(actions: seq<Action>, more: seq<Action>)
    ensures Run(actions).actions <= Run(actions + more).actions
    decreases |more|
  {
    if more == [] {
      assert actions + more == actions;
    } else {
      var n := |more| - 1;
      AuditOnlyGrows(actions, more[..n]);
      AppendSplits(actions, more);
      RunStep(actions + more[..n], more[n]);
      AuditGrows(Run(actions + more[..n]), more[n]);
    }
  }

  predicate SameScope(c: ReplayCommand, d: ReplayCommand)
  {
    c.tenantId == d.tenantId && c.actorId == d.actorId && c.idempotencyKey == d.idempotencyKey
  }

  lemma FoundStill(actions: seq<ReplayAction>, longer: seq<ReplayAction>, c: ReplayCommand)
    requires actions <= longer && FindAction(actions, c) < |actions|
    ensures FindAction(longer, c) == FindAction(actions, c)
  {
    FindActionFinds(actions, c);
    FindActionFinds(longer, c);
    var k := FindAction(actions, c);
    assert SameKey(longer[k], c);
    assert forall i :: 0 <= i < k ==> longer[i] == actions[i];
  }

  /** A successful replay leaves its audit row where the key finds it. */
  lemma ReplayIsRecorded(rows: seq<Row>, actions: seq<ReplayAction>, c: ReplayCommand, at: Time, d: ReplayCommand)
    requires Replay(rows, actions, c, at).0.Success? && SameScope(c, d)
    ensures var (r, _, after) := Replay(rows, actions, c, at);
            var k := FindAction(after, d);
            && k < |after| && after[k].eventId == c.eventId && after[k].reason == c.reason
            && ResultOf(after[k], false) == r.value.(replayed := false)
  {
    FindActionFinds(actions, c);
    FindDeadFinds(rows, c);
    var after := Replay(rows, actions, c, at).2;
    FindActionFinds(after, c);
    FindActionFinds(after, d);
    assert forall i :: 0 <= i < |after| ==> SameKey(after[i], c) == SameKey(after[i], d);
    assert after != actions ==> SameKey(after[|actions|], c);
  }

  /**
   A replay key is spent once: however long ago it succeeded and whatever happened since, using it again
   changes nothing, and answers with the original result for the same event and reason and with a
   conflict for any other.
   */
  lemma ReplayKeyIsSpent(before: seq<Action>, c: ReplayCommand, at: Time, more: seq<Action>, again: ReplayCommand,
                         later: Time)
    requires Replay(Run(before).rows, Run(before).actions, c, at).0.Success?
    requires ValidCommand(again) && SameScope(c, again)
    ensures var first := Replay(Run(before).rows, Run(before).actions, c, at).0.value;
            var s := Run(before + [Operate(c, at)] + more);
            Replay(s.rows, s.actions, again, later) ==
            (if again.eventId == c.eventId && again.reason == c.reason then Success(first.(replayed := false))
             else Failure(ReplayConflict), s.rows, s.actions)
  {
    var s := Run(before);
    ReplayIsRecorded(s.rows, s.actions, c, at, again);
    RunStep(before, Operate(c, at));
    AuditOnlyGrows(before + [Operate(c, at)], more);
    FoundStill(Run(before + [Operate(c, at)]).actions, Run(before + [Operate(c, at)] + more).actions, again);
    FindActionFinds(Run(before + [Operate(c, at)] + more).actions, again);
  }
}
