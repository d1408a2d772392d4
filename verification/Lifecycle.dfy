/**
 Artefact retention, legal hold and deletion (internal/artefacts/postgres_lifecycle.go and
 lifecycle.go), with the append-only event ledger. Database times are whole microseconds.
 */
module Lifecycle {
  import opened Wrappers
  import opened Clock

  datatype LifecycleState = Active | PendingDeletion | Deleted

  datatype LifecycleAction = Retain | PlaceHold | ReleaseHold | RequestDeletion | ConfirmDeletion | OtherAction(name: string)

  type Key = (string, string)

  datatype Row = Row(state: LifecycleState, retainUntil: Option<Time>, legalHold: bool, version: int, updatedAt: Time)

  datatype LifecycleCommand = LifecycleCommand(
    tenantId: string, artefactId: string, expectedVersion: int, action: LifecycleAction, retainUntil: Option<Time>,
    actorId: string, reason: string)

  /** A ledger row; `Created` is the one written with the artefact's metadata. */
  datatype Event =
    | Created(occurredAt: Time)
    | Applied(version: int, action: LifecycleAction, before: Row, after: Row, actorId: string, reason: string,
              occurredAt: Time)

  datatype LifecycleError = InvalidCommand | NotFound | Conflict | Blocked | Refused

  datatype Tables = Tables(rows: map<Key, Row>, ledger: map<Key, seq<Event>>)

  const INITIAL: Tables := Tables(map[], map[])

  function NewRow(now: Time): Row
  {
    Row(Active, None, false, 1, now)
  }

  /** The lifecycle row and first event that come with new artefact metadata. */
  function Register(t: Tables, key: Key, now: Time): Tables
  {
    if key in t.rows then t
    else Tables(t.rows[key := NewRow(now)], t.ledger[key := [Created(now)]])
  }

  // ----- One action

  function Act(r: Row, action: LifecycleAction, retainUntil: Option<Time>, now: Time): Result<Row, LifecycleError>
  {
    match action
    case Retain =>
      if r.state != Active || retainUntil.None? || retainUntil.value <= now ||
         (r.retainUntil.Some? && retainUntil.value <= r.retainUntil.value)
      then Failure(Blocked) else Success(r.(retainUntil := Some(Truncate(retainUntil.value))))
    case PlaceHold => if r.state == Deleted || r.legalHold then Failure(Blocked) else Success(r.(legalHold := true))
    case ReleaseHold => if r.state == Deleted || !r.legalHold then Failure(Blocked) else Success(r.(legalHold := false))
    case RequestDeletion =>
      if r.state != Active || r.legalHold || (r.retainUntil.Some? && r.retainUntil.value > now) then Failure(Blocked)
      else Success(r.(state := PendingDeletion))
    case ConfirmDeletion =>
      if r.state != PendingDeletion || r.legalHold then Failure(Blocked) else Success(r.(state := Deleted))
    case OtherAction(_) => Failure(InvalidCommand)
  }

  function Apply(t: Tables, c: LifecycleCommand, now: Time): (Result<Row, LifecycleError>, Tables)
  {
    var key := (c.tenantId, c.artefactId);
    if key !in t.rows || key !in t.ledger then (Failure(NotFound), t)
    else
      var r := t.rows[key];
      if r.version != c.expectedVersion then (Failure(Conflict), t)
      else if Act(r, c.action, c.retainUntil, now).Failure? then
        (Failure(Act(r, c.action, c.retainUntil, now).error), t)
      else if !(1 <= |c.reason| <= 512) then (Failure(Refused), t)
      else
        var next := Moved(r, c, now);
        (Success(next),
         Tables(t.rows[key := next], t.ledger[key := t.ledger[key] + [EventOf(r, c, now)]]))
  }

  predicate Allowed(r: Row, c: LifecycleCommand, now: Time)
  {
    Act(r, c.action, c.retainUntil, now).Success?
  }

  /** The row an allowed command leads to. */
  function Moved(r: Row, c: LifecycleCommand, now: Time): Row
    requires Allowed(r, c, now)
  {
    Act(r, c.action, c.retainUntil, now).value.(version := r.version + 1, updatedAt := now)
  }

  function EventOf(r: Row, c: LifecycleCommand, now: Time): Event
    requires Allowed(r, c, now)
  {
    Applied(r.version + 1, c.action, r, Moved(r, c, now), c.actorId, c.reason, now)
  }

  /** The service's own checks; `segment` is whether the tenant is a usable path segment. */
  predicate ValidCommand(c: LifecycleCommand, segment: bool)
  {
    && segment && c.artefactId != "" && c.expectedVersion > 0 && c.actorId != "" && 0 < |c.reason| <= 512
    && match c.action
       case Retain => c.retainUntil.Some? && c.retainUntil.value != ZERO
       case OtherAction(_) => false
       case _ => c.retainUntil.None?
  }

  class LifecycleRepository {
    var tables: Tables

    constructor ()
      ensures tables == INITIAL
    {
      tables := INITIAL;
    }

    method ApplyLifecycle(c: LifecycleCommand, now: Time) returns (res: Result<Row, LifecycleError>)
      modifies this
      ensures (res, tables) == Apply(old(tables), c, now)
    {
      var key := (c.tenantId, c.artefactId);
      if key !in tables.rows || key !in tables.ledger {
        return Failure(NotFound);
      }
      var current := tables.rows[key];
      if current.version != c.expectedVersion {
        return Failure(Conflict);
      }
      var acted := Act(current, c.action, c.retainUntil, now);
      if acted.Failure? {
        return Failure(acted.error);
      }
      var next := acted.value;
      next := next.(version := next.version + 1);
      next := next.(updatedAt := now);
      if |c.reason| < 1 || |c.reason| > 512 {
        return Failure(Refused);
      }
      var event := Applied(next.version, c.action, current, next, c.actorId, c.reason, now);
      tables := Tables(tables.rows[key := next], tables.ledger[key := tables.ledger[key] + [event]]);
      return Success(next);
    }

    /** The service keeps every entry of the ledger attributed, which the repository alone would not. */
    method ApplyChecked(c: LifecycleCommand, segment: bool, now: Time) returns (res: Result<Row, LifecycleError>)
      modifies this
      ensures LedgerAttributed(old(tables).ledger) ==> LedgerAttributed(tables.ledger)
      ensures if ValidCommand(c, segment) then (res, tables) == Apply(old(tables), c, now)
              else res == Failure(InvalidCommand) && tables == old(tables)
    {
      if !ValidCommand(c, segment) {
        return Failure(InvalidCommand);
      }
      if LedgerAttributed(tables.ledger) {
        CheckedKeepsAttribution(tables, c, segment, now);
      }
      res := ApplyLifecycle(c, now);
    }
  }

  // ----- What the service's checks are for

  /**
   An entry made through the service: a known action by a named actor for a bounded reason, a deadline
   that only a retain action moves, and then not before the time of the action.
   */
  predicate Attributed(e: Event)
  {
    e.Applied? ==>
      && !e.action.OtherAction? && e.actorId != "" && 1 <= |e.reason| <= 512
      && (!e.action.Retain? ==> e.after.retainUntil == e.before.retainUntil)
      && (e.action.Retain? ==>
            && e.after.retainUntil.Some? && Truncate(e.occurredAt) <= e.after.retainUntil.value
            && (e.before.retainUntil.Some? ==> Truncate(e.before.retainUntil.value) <= e.after.retainUntil.value))
  }

  predicate LedgerAttributed(ledger: map<Key, seq<Event>>)
  {
    forall key, k :: key in ledger && 0 <= k < |ledger[key]| ==> Attributed(ledger[key][k])
  }

  lemma CheckedIsAttributed(r: Row, c: LifecycleCommand, segment: bool, now: Time)
    requires ValidCommand(c, segment) && Allowed(r, c, now)
    ensures Attributed(EventOf(r, c, now))
  {
    if c.action.Retain? {
      TruncateOrdered(now, c.retainUntil.value);
      if r.retainUntil.Some? {
        TruncateOrdered(r.retainUntil.value, c.retainUntil.value);
      }
    }
  }

  lemma TruncateOrdered(a: Time, b: Time)
    requires a <= b
    ensures Truncate(a) <= Truncate(b)
  {
  }

  lemma CheckedKeepsAttribution(t: Tables, c: LifecycleCommand, segment: bool, now: Time)
    requires ValidCommand(c, segment) && LedgerAttributed(t.ledger)
    ensures LedgerAttributed(Apply(t, c, now).1.ledger)
  {
    var key := (c.tenantId, c.artefactId);
    if Apply(t, c, now).0.Success? {
      CheckedIsAttributed(t.rows[key], c, segment, now);
    }
  }

  // ----- Every run

  datatype Action = RegisterAction(key: Key, now: Time) | ApplyAction(command: LifecycleCommand, now: Time)

  function Next(t: Tables, a: Action): Tables
  {
    match a
    case RegisterAction(key, now) => Register(t, key, now)
    case ApplyAction(c, now) => Apply(t, c, now).1
  }

  function Run(actions: seq<Action>): Tables
  {
    if actions == [] then INITIAL else Next(Run(actions[..|actions| - 1]), actions[|actions| - 1])
  }

  /** The row an event ledger stands for, recomputed from the actions it lists. */
  function Fold(es: seq<Event>): Option<Row>
  {
    if es == [] then None
    else
      var e := es[|es| - 1];
      match e
      case Created(at) => if |es| == 1 then Some(NewRow(at)) else None
      case Applied(_, action, _, after, _, _, at) =>
        match Fold(es[..|es| - 1])
        case None => None
        case Some(r) =>
          var moved :=
            match action
            case Retain => r.(retainUntil := after.retainUntil)
            case PlaceHold => r.(legalHold := true)
            case ReleaseHold => r.(legalHold := false)
            case RequestDeletion => r.(state := PendingDeletion)
            case ConfirmDeletion => r.(state := Deleted)
            case OtherAction(_) => r;
          Some(moved.(version := r.version + 1, updatedAt := at))
  }

  /** Versions count up, and each event starts where the previous one ended. */
  predicate Chained(es: seq<Event>)
  {
    && es != [] && es[0].Created?
    && (forall k :: 0 < k < |es| ==>
                      && es[k].Applied? && es[k].version == k + 1
                      && Some(es[k].before) == Fold(es[..k]) && Some(es[k].after) == Fold(es[..k + 1]))
  }

  /** The checks a deletion went through, as its ledger shows them. */
  predicate DeletionOk(r: Row, es: seq<Event>)
  {
    && (r.state.Active? ==> forall k :: 0 <= k < |es| ==> !(es[k].Applied? && es[k].action.RequestDeletion?))
    && (!r.state.Active? ==> exists k :: 0 <= k < |es| && RequestedProperly(es[k]) && es[k].after.retainUntil == r.retainUntil)
    && (r.state.Deleted? ==>
          !r.legalHold && exists i, j :: 0 <= i < j < |es| && RequestedProperly(es[i]) && ConfirmedProperly(es[j]))
  }

  predicate RequestedProperly(e: Event)
  {
    && e.Applied? && e.action.RequestDeletion? && e.before.state.Active? && !e.before.legalHold
    && (e.before.retainUntil.Some? ==> e.before.retainUntil.value <= e.occurredAt)
    && e.after.retainUntil == e.before.retainUntil
  }

  predicate ConfirmedProperly(e: Event)
  {
    e.Applied? && e.action.ConfirmDeletion? && e.before.state.PendingDeletion? && !e.before.legalHold
  }

  predicate RowOk(r: Row, es: seq<Event>)
  {
    && Fold(es) == Some(r) && Chained(es) && r.version == |es|
    && (r.retainUntil.Some? ==> Aligned(r.retainUntil.value))
    && DeletionOk(r, es)
  }

  predicate KeyOk(t: Tables, key: Key)
  {
    key in t.rows && key in t.ledger && RowOk(t.rows[key], t.ledger[key])
  }

  predicate TablesOk(t: Tables)
  {
    t.rows.Keys == t.ledger.Keys && forall key {:trigger KeyOk(t, key)} :: key in t.rows ==> KeyOk(t, key)
  }

  lemma FoldStep(es: seq<Event>, r: Row, c: LifecycleCommand, now: Time)
    requires Fold(es) == Some(r) && Allowed(r, c, now)
    ensures Fold(es + [EventOf(r, c, now)]) == Some(Moved(r, c, now))
  {
    assert (es + [EventOf(r, c, now)])[..|es|] == es;
  }

  lemma ChainedStep(es: seq<Event>, e: Event)
    requires Chained(es) && e.Applied? && e.version == |es| + 1
    requires Fold(es) == Some(e.before) && Fold(es + [e]) == Some(e.after)
    ensures Chained(es + [e])
  {
    var all := es + [e];
    forall k | 0 < k < |all|
      ensures all[k].Applied? && all[k].version == k + 1
      ensures Some(all[k].before) == Fold(all[..k]) && Some(all[k].after) == Fold(all[..k + 1])
    {
      if k < |es| {
        assert all[..k] == es[..k] && all[..k + 1] == es[..k + 1];
      } else {
        assert all[..k] == es && all[..k + 1] == all;
      }
    }
  }

  lemma DeletionStep(r: Row, es: seq<Event>, c: LifecycleCommand, now: Time)
    requires DeletionOk(r, es) && Allowed(r, c, now)
    ensures DeletionOk(Moved(r, c, now), es + [EventOf(r, c, now)])
  {
    var e := EventOf(r, c, now);
    var all := es + [e];
    assert all[|es|] == e;
    if !r.state.Active? {
      var k :| 0 <= k < |es| && RequestedProperly(es[k]) && es[k].after.retainUntil == r.retainUntil;
      assert all[k] == es[k];
    }
  }

  lemma AlignedStep(r: Row, c: LifecycleCommand, now: Time)
    requires Allowed(r, c, now) && (r.retainUntil.Some? ==> Aligned(r.retainUntil.value))
    ensures var next := Moved(r, c, now);
            && (next.retainUntil.Some? ==> Aligned(next.retainUntil.value))
            && Advances(r, next)
  {
    if c.action.Retain? {
      TruncateBounds(c.retainUntil.value);
      if r.retainUntil.Some? {
        AlignedStays(r.retainUntil.value, c.retainUntil.value);
      }
    }
  }

  lemma ApplyKeepsRow(r: Row, es: seq<Event>, c: LifecycleCommand, now: Time)
    requires RowOk(r, es) && Allowed(r, c, now)
    ensures RowOk(Moved(r, c, now), es + [EventOf(r, c, now)])
  {
    FoldStep(es, r, c, now);
    ChainedStep(es, EventOf(r, c, now));
    DeletionStep(r, es, c, now);
    AlignedStep(r, c, now);
  }

  lemma ReplacedKeepsTables(t: Tables, key: Key, r: Row, es: seq<Event>)
    requires TablesOk(t) && RowOk(r, es)
    ensures TablesOk(Tables(t.rows[key := r], t.ledger[key := es]))
  {
    var after := Tables(t.rows[key := r], t.ledger[key := es]);
    forall other | other in after.rows
      ensures KeyOk(after, other)
    {
      assert other != key ==> KeyOk(t, other);
    }
  }

  lemma ApplyKeepsTables(t: Tables, c: LifecycleCommand, now: Time)
    requires TablesOk(t)
    ensures TablesOk(Apply(t, c, now).1)
  {
    var key := (c.tenantId, c.artefactId);
    if Apply(t, c, now).0.Success? {
      var r, es := t.rows[key], t.ledger[key];
      assert KeyOk(t, key);
      ApplyKeepsRow(r, es, c, now);
      ReplacedKeepsTables(t, key, Moved(r, c, now), es + [EventOf(r, c, now)]);
    }
  }

  lemma RegisterKeepsTables(t: Tables, key: Key, now: Time)
    requires TablesOk(t)
    ensures TablesOk(Register(t, key, now))
  {
    assert Fold([Created(now)]) == Some(NewRow(now));
    ReplacedKeepsTables(t, key, NewRow(now), [Created(now)]);
  }

  lemma NextKeepsTables(t: Tables, a: Action)
    requires TablesOk(t)
    ensures TablesOk(Next(t, a))
  {
    match a
    case RegisterAction(key, now) => RegisterKeepsTables(t, key, now);
    case ApplyAction(c, now) => ApplyKeepsTables(t, c, now);
  }

  lemma {:induction false} RunKeepsTables(actions: seq<Action>)
    ensures TablesOk(Run(actions))
  {
    if actions != [] {
      RunKeepsTables(actions[..|actions| - 1]);
      NextKeepsTables(Run(actions[..|actions| - 1]), actions[|actions| - 1]);
    }
  }

  // ----- When a command succeeds

  /**
   Retention is only extended, and only of an active artefact into the future; a hold is placed or lifted
   once, until deletion; deletion is requested of an active artefact without hold whose deadline has
   passed, and confirmed without hold.
   */
  predicate InOrder(r: Row, c: LifecycleCommand, now: Time)
  {
    match c.action
    case Retain =>
      && r.state == Active && c.retainUntil.Some? && now < c.retainUntil.value
      && (r.retainUntil.None? || r.retainUntil.value < c.retainUntil.value)
    case PlaceHold => r.state != Deleted && !r.legalHold
    case ReleaseHold => r.state != Deleted && r.legalHold
    case RequestDeletion => r.state == Active && !r.legalHold && (r.retainUntil.None? || r.retainUntil.value <= now)
    case ConfirmDeletion => r.state == PendingDeletion && !r.legalHold
    case OtherAction(_) => false
  }

  /** The row is the same but for what the action is about. */
  predicate Differs(r: Row, next: Row, c: LifecycleCommand, now: Time)
  {
    && next.version == r.version + 1 && next.updatedAt == now
    && (c.action.Retain? || next.retainUntil == r.retainUntil)
    && (c.action.Retain? ==> c.retainUntil.Some? && next.retainUntil == Some(Truncate(c.retainUntil.value)))
    && next.legalHold == (if c.action.PlaceHold? then true else if c.action.ReleaseHold? then false else r.legalHold)
    && next.state == (if c.action.RequestDeletion? then PendingDeletion
                      else if c.action.ConfirmDeletion? then Deleted else r.state)
  }

  /**
   A command succeeds exactly when it was made for the stored version of a known artefact, gives a bounded
   reason and is in order; it then changes one row and appends one event. Otherwise nothing changes.
   */
  lemma SucceedsInOrder(t: Tables, c: LifecycleCommand, now: Time)
    requires TablesOk(t)
    ensures var (res, after) := Apply(t, c, now);
            var key := (c.tenantId, c.artefactId);
            && (res.Success? <==>
                  && key in t.rows && t.rows[key].version == c.expectedVersion && 1 <= |c.reason| <= 512
                  && InOrder(t.rows[key], c, now))
            && (res.Failure? ==> after == t)
            && (res.Success? ==>
                  && Differs(t.rows[key], res.value, c, now)
                  && after.rows == t.rows[key := res.value]
                  && after.ledger == t.ledger[key := t.ledger[key] + [Applied(t.rows[key].version + 1, c.action, t.rows[key],
                                                                              res.value, c.actorId, c.reason, now)]])
            && (res == Failure(NotFound) <==> key !in t.rows)
  {
    var key := (c.tenantId, c.artefactId);
    assert key in t.rows ==> KeyOk(t, key);
  }

  /** A command the service lets through is complete, and gives a deadline exactly when it retains. */
  lemma CheckedIsComplete(c: LifecycleCommand, segment: bool)
    ensures ValidCommand(c, segment) ==>
              && segment && c.artefactId != "" && c.expectedVersion >= 1 && c.actorId != "" && 1 <= |c.reason| <= 512
              && (c.action.Retain? <==> c.retainUntil.Some?) && !c.action.OtherAction?
              && c.retainUntil != Some(ZERO)
  {
  }

  // ----- Optimistic locking

  /** A command for another version than the stored one changes nothing and is a conflict. */
  lemma OtherVersionConflicts(t: Tables, c: LifecycleCommand, now: Time)
    requires TablesOk(t) && (c.tenantId, c.artefactId) in t.rows
    requires t.rows[(c.tenantId, c.artefactId)].version != c.expectedVersion
    ensures Apply(t, c, now) == (Failure(Conflict), t)
  {
  }

  lemma VersionAdvances(t: Tables, a: Action, key: Key)
    requires TablesOk(t) && key in t.rows
    ensures key in Next(t, a).rows && t.rows[key].version <= Next(t, a).rows[key].version
  {
  }

  lemma {:induction false} VersionsNeverGoBack(actions: seq<Action>, n: nat, key: Key)
    requires n <= |actions| && key in Run(actions[..n]).rows
    ensures key in Run(actions).rows && Run(actions[..n]).rows[key].version <= Run(actions).rows[key].version
    decreases |actions|
  {
    if n == |actions| {
      assert actions[..n] == actions;
    } else {
      var before := actions[..|actions| - 1];
      assert before[..n] == actions[..n];
      VersionsNeverGoBack(before, n, key);
      RunKeepsTables(before);
      VersionAdvances(Run(before), actions[|actions| - 1], key);
    }
  }

  /** Of the commands that were made for one version of an artefact, at most one ever succeeds. */
  lemma OneCommandPerVersion(actions: seq<Action>, n: nat, c: LifecycleCommand, now: Time)
    requires n < |actions| && actions[n].ApplyAction?
    requires Apply(Run(actions[..n]), actions[n].command, actions[n].now).0.Success?
    requires c.tenantId == actions[n].command.tenantId && c.artefactId == actions[n].command.artefactId
    requires c.expectedVersion == actions[n].command.expectedVersion
    ensures Apply(Run(actions), c, now) == (Failure(Conflict), Run(actions))
  {
    var key := (c.tenantId, c.artefactId);
    assert actions[..n + 1][..n] == actions[..n];
    VersionsNeverGoBack(actions, n + 1, key);
    RunKeepsTables(actions);
    OtherVersionConflicts(Run(actions), c, now);
  }

  // ----- The ledger

  /** In every run, folding an artefact's ledger gives its current row, and the ledger has no gap or break. */
  lemma LedgerGivesTheRow(actions: seq<Action>, key: Key)
    requires key in Run(actions).rows
    ensures key in Run(actions).ledger
    ensures var r, es := Run(actions).rows[key], Run(actions).ledger[key];
            Fold(es) == Some(r) && Chained(es) && r.version == |es|
  {
    RunKeepsTables(actions);
    assert KeyOk(Run(actions), key);
  }

  /**
   In every run, a deleted artefact has no hold, its ledger holds a deletion request made without a hold
   and after the deadline it still has, and a later confirmation made without a hold.
   */
  lemma DeletionWasAllowed(actions: seq<Action>, key: Key)
    requires key in Run(actions).rows && Run(actions).rows[key].state.Deleted?
    ensures key in Run(actions).ledger && !Run(actions).rows[key].legalHold
    ensures var r, es := Run(actions).rows[key], Run(actions).ledger[key];
            && (exists k :: 0 <= k < |es| && RequestedProperly(es[k]) && es[k].after.retainUntil == r.retainUntil)
            && (exists i, j :: 0 <= i < j < |es| && RequestedProperly(es[i]) && ConfirmedProperly(es[j]))
  {
    RunKeepsTables(actions);
    assert KeyOk(Run(actions), key);
  }

  /** Every command of the run passed the service. */
  predicate FromService(actions: seq<Action>)
  {
    forall k :: 0 <= k < |actions| && actions[k].ApplyAction? ==> ValidCommand(actions[k].command, true)
  }

  /** In every run of the service the whole ledger is attributed. */
  lemma {:induction false} ServiceLedgerIsAttributed(actions: seq<Action>)
    requires FromService(actions)
    ensures LedgerAttributed(Run(actions).ledger)
  {
    if actions != [] {
      var before, a := actions[..|actions| - 1], actions[|actions| - 1];
      ServiceLedgerIsAttributed(before);
      if a.ApplyAction? {
        CheckedKeepsAttribution(Run(before), a.command, true, a.now);
      }
    }
  }

  /** The repository alone accepts a command that names no actor. */
  lemma UncheckedIsNotAttributed(t: Tables, c: LifecycleCommand, now: Time)
    requires Apply(t, c, now).0.Success? && c.actorId == ""
    ensures !LedgerAttributed(Apply(t, c, now).1.ledger)
  {
    var key := (c.tenantId, c.artefactId);
    var es := Apply(t, c, now).1.ledger[key];
    assert !Attributed(es[|es| - 1]);
  }

  /** How a row may change: retention never earlier, and nothing after deletion. */
  predicate Advances(before: Row, after: Row)
  {
    && (before.retainUntil.Some? ==> after.retainUntil.Some? && before.retainUntil.value <= after.retainUntil.value)
    && (before.state.Deleted? ==> after == before)
  }

  /** Truncation never takes a time below an aligned one that precedes it. */
  lemma AlignedStays(a: Time, b: Time)
    requires Aligned(a) && a <= b
    ensures a <= Truncate(b)
  {
    TruncateBounds(b);
  }

  lemma NextAdvances(t: Tables, a: Action, key: Key)
    requires key in t.rows && (t.rows[key].retainUntil.Some? ==> Aligned(t.rows[key].retainUntil.value))
    ensures key in Next(t, a).rows && Advances(t.rows[key], Next(t, a).rows[key])
  {
    if a.ApplyAction? && (a.command.tenantId, a.command.artefactId) == key && Apply(t, a.command, a.now).0.Success? {
      AlignedStep(t.rows[key], a.command, a.now);
    }
  }

  lemma RunIsAligned(actions: seq<Action>, key: Key)
    requires key in Run(actions).rows && Run(actions).rows[key].retainUntil.Some?
    ensures Aligned(Run(actions).rows[key].retainUntil.value)
  {
    RunKeepsTables(actions);
    assert KeyOk(Run(actions), key);
  }

  /** Over any continuation the retention deadline never moves earlier and a deleted artefact never changes. */
  lemma {:induction false} RunAdvances(actions: seq<Action>, n: nat, key: Key)
    requires n <= |actions| && key in Run(actions[..n]).rows
    ensures key in Run(actions).rows && Advances(Run(actions[..n]).rows[key], Run(actions).rows[key])
    decreases |actions|
  {
    if n == |actions| {
      assert actions[..n] == actions;
    } else {
      var before := actions[..|actions| - 1];
      assert before[..n] == actions[..n];
      RunAdvances(before, n, key);
      if Run(before).rows[key].retainUntil.Some? {
        RunIsAligned(before, key);
      }
      NextAdvances(Run(before), actions[|actions| - 1], key);
    }
  }

  /** A deleted artefact refuses every command. */
  lemma DeletedRefusesEverything(t: Tables, c: LifecycleCommand, now: Time)
    requires (c.tenantId, c.artefactId) in t.rows && t.rows[(c.tenantId, c.artefactId)].state.Deleted?
    ensures Apply(t, c, now).0.Failure? && Apply(t, c, now).1 == t
  {
  }
}
