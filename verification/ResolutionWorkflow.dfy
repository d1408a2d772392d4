/**
 The durable workflow: creation and transition transactions
 (internal/resolution/postgres_repository.go), the planner (internal/planning/service.go) and the
 atomic task fan-out (internal/collector/fanout.go). A transaction that fails changes nothing.
 */
module ResolutionWorkflow {
  import opened Wrappers
  import opened Clock
  import opened Resolution
  import opened ResolutionRepository
  import CollectorTask
  import BrokerDatabase
  import CollectorRepository

  type Task = CollectorTask.Task

  type Scope = (string, string, string)

  datatype Store = Store(
    resolutions: map<string, Resolution>, idempotency: map<Scope, IdempotencyRecord>, outbox: seq<Event>,
    tasks: map<string, Task>)

  const EMPTY: Store := Store(map[], map[], [], map[])

  predicate EventIdUsed(outbox: seq<Event>, id: string)
  {
    exists k :: 0 <= k < |outbox| && outbox[k].id == id
  }

  function ScopeOf(r: Resolution): Scope
  {
    (r.tenantId, r.actorId, r.idempotencyKey)
  }

  // ----- Transactions of the resolution repository

  function Create(s: Store, r: Resolution, e: Event, documentValid: bool)
    : (Result<(Resolution, bool), ResolutionError>, Store)
  {
    if !ValidNew(r, e, documentValid) then (Failure(InvalidInput), s)
    else if r.id in s.resolutions then (Failure(Refused), s)
    else if ScopeOf(r) in s.idempotency then
      var record := s.idempotency[ScopeOf(r)];
      if record.resolutionId !in s.resolutions then (Failure(NotFound), s)
      else if record.requestDigest != r.requestDigest then (Failure(IdempotencyConflict), s)
      else (Success((s.resolutions[record.resolutionId], false)), s)
    else if EventIdUsed(s.outbox, e.id) then (Failure(Refused), s)
    else
      (Success((r, true)),
       s.(resolutions := s.resolutions[r.id := r],
          idempotency := s.idempotency[ScopeOf(r) := IdempotencyRecord(r.requestDigest, r.id)],
          outbox := s.outbox + [e]))
  }

  function Transition(s: Store, p: Prepared): (Result<Resolution, ResolutionError>, Store)
  {
    if ValidateTransition(p.expectedState, p.next).Fail? then (Failure(InvalidTransition), s)
    else if p.at == ZERO then (Failure(InvalidInput), s)
    else if !BoundEvent(p.event, p.tenantId, p.resolutionId) then (Failure(InvalidEvent), s)
    else if p.resolutionId !in s.resolutions || s.resolutions[p.resolutionId].tenantId != p.tenantId then
      (Failure(NotFound), s)
    else
      var r := s.resolutions[p.resolutionId];
      if r.version != p.expectedVersion || r.state != p.expectedState || r.updatedAt > p.at then
        (Failure(VersionConflict), s)
      else if EventIdUsed(s.outbox, p.event.id) then (Failure(Refused), s)
      else
        var next := Advance(r, p.next, p.at);
        (Success(next), s.(resolutions := s.resolutions[r.id := next], outbox := s.outbox + [p.event]))
  }

  // ----- Fan-out

  datatype FanoutRequest = FanoutRequest(
    tenantId: string, resolutionId: string, expectedVersion: int, tasks: seq<Task>, event: Event, queuedAt: Time)

  datatype FanoutError = InvalidFanout | FanoutConflict | TaskRefused | Unauthorised

  const MAXIMUM_FANOUT: nat := 10000

  predicate PlannedTask(q: FanoutRequest, t: Task)
  {
    && BrokerDatabase.CompleteAuthority(t.authority) && t.authority.tenantId == q.tenantId
    && t.authority.resolutionId == q.resolutionId && (t.state.Unset? || t.state.Queued?)
  }

  predicate DistinctIds(tasks: seq<Task>)
  {
    forall i, j :: 0 <= i < j < |tasks| ==> tasks[i].authority.id != tasks[j].authority.id
  }

  predicate ValidFanout(q: FanoutRequest)
  {
    && q.tenantId != "" && q.resolutionId != "" && q.expectedVersion > 0
    && 0 < |q.tasks| <= MAXIMUM_FANOUT && q.queuedAt != ZERO
    && (forall i :: 0 <= i < |q.tasks| ==> PlannedTask(q, q.tasks[i])) && DistinctIds(q.tasks)
    && BoundEvent(q.event, q.tenantId, q.resolutionId) && q.event.eventType == TasksQueued
    && q.event.occurredAt == q.queuedAt
  }

  /** The primary key and the column bounds of a task row. */
  predicate Insertable(tasks: map<string, Task>, t: Task)
  {
    && t.authority.id !in tasks && |t.authority.targetEndpoint| <= 2048
    && BrokerDatabase.OptionalIdentity(t.authority.approvalGrantId)
  }

  function Inserted(tasks: map<string, Task>, ts: seq<Task>): Option<map<string, Task>>
  {
    if ts == [] then Some(tasks)
    else match Inserted(tasks, ts[..|ts| - 1])
      case None => None
      case Some(m) =>
        var t := ts[|ts| - 1];
        if Insertable(m, t) then Some(m[t.authority.id := CollectorRepository.NewTask(t.authority)]) else None
  }

  function Later(a: Time, b: Time): Time
  {
    if a < b then b else a
  }

  function Fanout(s: Store, q: FanoutRequest): (Outcome<FanoutError>, Store)
  {
    if !ValidFanout(q) then (Fail(InvalidFanout), s)
    else if q.resolutionId !in s.resolutions || s.resolutions[q.resolutionId].tenantId != q.tenantId then
      (Fail(FanoutConflict), s)
    else
      var r := s.resolutions[q.resolutionId];
      if r.version != q.expectedVersion || r.state != Planning then (Fail(FanoutConflict), s)
      else match Inserted(s.tasks, q.tasks)
        case None => (Fail(TaskRefused), s)
        case Some(tasks) =>
          if EventIdUsed(s.outbox, q.event.id) then (Fail(FanoutConflict), s)
          else
            (Pass, s.(tasks := tasks,
                      resolutions := s.resolutions[
                      r.id := r.(state := Queued, targetCount := |q.tasks|, version := r.version + 1,
                                 updatedAt := Later(Truncate(q.queuedAt), r.updatedAt))],
                      outbox := s.outbox + [q.event]))
  }

  class WorkflowDatabase {
    var store: Store

    constructor ()
      ensures store == EMPTY
    {
      store := EMPTY;
    }

    method CreateResolution(r: Resolution, e: Event, documentValid: bool)
      returns (res: Result<(Resolution, bool), ResolutionError>)
      modifies this
      ensures var (outcome, after) := Create(old(store), r, e, documentValid);
              res == outcome && store == after
    {
      if !ValidNew(r, e, documentValid) {
        return Failure(InvalidInput);
      }
      if r.id in store.resolutions {
        return Failure(Refused);
      }
      var draft := store.(resolutions := store.resolutions[r.id := r]);
      if ScopeOf(r) in store.idempotency {
        var record := store.idempotency[ScopeOf(r)];
        if record.resolutionId !in store.resolutions {
          return Failure(NotFound);
        }
        if record.requestDigest != r.requestDigest {
          return Failure(IdempotencyConflict);
        }
        return Success((store.resolutions[record.resolutionId], false));
      }
      draft := draft.(idempotency := draft.idempotency[ScopeOf(r) := IdempotencyRecord(r.requestDigest, r.id)]);
      if EventIdUsed(draft.outbox, e.id) {
        return Failure(Refused);
      }
      draft := draft.(outbox := draft.outbox + [e]);
      store := draft;
      return Success((r, true));
    }

    method TransitionResolution(p: Prepared) returns (res: Result<Resolution, ResolutionError>)
      modifies this
      ensures var (outcome, after) := Transition(old(store), p);
              res == outcome && store == after
    {
      var valid := ValidateTransition(p.expectedState, p.next);
      if valid.Fail? {
        return Failure(valid.error);
      }
      if p.at == ZERO {
        return Failure(InvalidInput);
      }
      if !BoundEvent(p.event, p.tenantId, p.resolutionId) {
        return Failure(InvalidEvent);
      }
      if p.resolutionId !in store.resolutions || store.resolutions[p.resolutionId].tenantId != p.tenantId {
        return Failure(NotFound);
      }
      var r := store.resolutions[p.resolutionId];
      if r.version != p.expectedVersion || r.state != p.expectedState || !(r.updatedAt <= p.at) {
        return Failure(VersionConflict);
      }
      r := r.(state := p.next, completed := p.next.Terminal(), version := r.version + 1, updatedAt := p.at);
      if EventIdUsed(store.outbox, p.event.id) {
        return Failure(Refused);
      }
      store := store.(resolutions := store.resolutions[r.id := r], outbox := store.outbox + [p.event]);
      return Success(r);
    }

    /** `validateFanoutTasks`, with the set of identifiers seen so far. */
    method ValidateTasks(q: FanoutRequest) returns (ok: bool)
      ensures ok <==> (forall i :: 0 <= i < |q.tasks| ==> PlannedTask(q, q.tasks[i])) && DistinctIds(q.tasks)
    {
      var seen: set<string> := {};
      for index := 0 to |q.tasks|
        invariant forall i :: 0 <= i < index ==> PlannedTask(q, q.tasks[i])
        invariant forall i, j :: 0 <= i < j < index ==> q.tasks[i].authority.id != q.tasks[j].authority.id
        invariant seen == set i | 0 <= i < index :: q.tasks[i].authority.id
      {
        var task := q.tasks[index];
        if !PlannedTask(q, task) {
          return false;
        }
        if task.authority.id in seen {
          return false;
        }
        seen := seen + {task.authority.id};
      }
      return true;
    }

    /** The loop of inserts; a refused one ends the transaction. */
    method InsertTasks(ts: seq<Task>) returns (res: Option<map<string, Task>>)
      ensures res == Inserted(store.tasks, ts)
    {
      var tasks := store.tasks;
      for index := 0 to |ts|
        invariant Inserted(store.tasks, ts[..index]) == Some(tasks)
      {
        var t := ts[index];
        assert ts[..index + 1][..index] == ts[..index];
        if !Insertable(tasks, t) {
          InsertFails(store.tasks, ts, index);
          return None;
        }
        tasks := tasks[t.authority.id := CollectorRepository.NewTask(t.authority)];
      }
      assert ts[..|ts|] == ts;
      return Some(tasks);
    }

    method CreateFanout(q: FanoutRequest) returns (res: Outcome<FanoutError>)
      modifies this
      ensures var (outcome, after) := Fanout(old(store), q);
              res == outcome && store == after
    {
      if q.tenantId == "" || q.resolutionId == "" || q.expectedVersion <= 0 || |q.tasks| == 0 ||
         |q.tasks| > MAXIMUM_FANOUT || q.queuedAt == ZERO {
        return Fail(InvalidFanout);
      }
      var planned := ValidateTasks(q);
      if !planned || !BoundEvent(q.event, q.tenantId, q.resolutionId) || q.event.eventType != TasksQueued ||
         q.event.occurredAt != q.queuedAt {
        return Fail(InvalidFanout);
      }
      if q.resolutionId !in store.resolutions || store.resolutions[q.resolutionId].tenantId != q.tenantId {
        return Fail(FanoutConflict);
      }
      var r := store.resolutions[q.resolutionId];
      if r.version != q.expectedVersion || r.state != Planning {
        return Fail(FanoutConflict);
      }
      var tasks := InsertTasks(q.tasks);
      if tasks.None? {
        return Fail(TaskRefused);
      }
      r := r.(state := Queued, targetCount := |q.tasks|, version := r.version + 1,
              updatedAt := Later(Truncate(q.queuedAt), r.updatedAt));
      if EventIdUsed(store.outbox, q.event.id) {
        return Fail(FanoutConflict);
      }
      store := store.(tasks := tasks.value, resolutions := store.resolutions[r.id := r],
                      outbox := store.outbox + [q.event]);
      return Pass;
    }
  }

  /** One refused insert fails the whole list. */
  lemma {:induction false} InsertFails(tasks: map<string, Task>, ts: seq<Task>, index: nat)
    requires index < |ts| && Inserted(tasks, ts[..index + 1]) == None
    ensures Inserted(tasks, ts) == None
    decreases |ts|
  {
    if index + 1 < |ts| {
      assert ts[..|ts| - 1][..index + 1] == ts[..index + 1];
      InsertFails(tasks, ts[..|ts| - 1], index);
    } else {
      assert ts[..index + 1] == ts;
    }
  }

  // ----- The planner

  datatype QueueRequest = QueueRequest(resolutionId: string, expectedVersion: int, tasks: seq<Task>)

  const MAXIMUM_PLAN: nat := 1000

  predicate NoOverride(tenantId: string, q: QueueRequest, t: Task)
  {
    (t.authority.tenantId == "" || t.authority.tenantId == tenantId) &&
    (t.authority.resolutionId == "" || t.authority.resolutionId == q.resolutionId)
  }

  function Bound(tenantId: string, q: QueueRequest, t: Task): Task
  {
    t.(authority := t.authority.(tenantId := tenantId, resolutionId := q.resolutionId),
       state := CollectorTask.Queued)
  }

  /** The event the planner sends along: it announces the version the fan-out will create. */
  function QueuedEvent(tenantId: string, q: QueueRequest, eventId: string, at: Time): Event
  {
    Event(eventId, tenantId, RESOLUTION, q.resolutionId, TasksQueued, Payload(SCHEMA, Queued, q.expectedVersion + 1), at)
  }

  /** `Queue` for an actor of tenant `tenantId`; `authorised` is whether it holds the planning scope. */
  function Plan(tenantId: string, authorised: bool, q: QueueRequest, eventId: string, at: Time)
    : Result<FanoutRequest, FanoutError>
  {
    if tenantId == "" || !authorised then Failure(Unauthorised)
    else if q.resolutionId == "" || q.expectedVersion <= 0 || |q.tasks| == 0 || |q.tasks| > MAXIMUM_PLAN then
      Failure(InvalidFanout)
    else if !(forall i :: 0 <= i < |q.tasks| ==> NoOverride(tenantId, q, q.tasks[i])) then Failure(InvalidFanout)
    else if at == ZERO then Failure(InvalidFanout)
    else
      Success(FanoutRequest(tenantId, q.resolutionId, q.expectedVersion,
                            seq(|q.tasks|, i requires 0 <= i < |q.tasks| => Bound(tenantId, q, q.tasks[i])),
                            QueuedEvent(tenantId, q, eventId, at), at))
  }

  /** The loop that rewrites the copied task slice. */
  method BuildFanout(tenantId: string, authorised: bool, q: QueueRequest, eventId: string, at: Time)
    returns (r: Result<FanoutRequest, FanoutError>)
    ensures r == Plan(tenantId, authorised, q, eventId, at)
  {
    if tenantId == "" || !authorised {
      return Failure(Unauthorised);
    }
    if q.resolutionId == "" || q.expectedVersion <= 0 || |q.tasks| == 0 || |q.tasks| > MAXIMUM_PLAN {
      return Failure(InvalidFanout);
    }
    var tasks := q.tasks;
    for index := 0 to |tasks|
      invariant |tasks| == |q.tasks|
      invariant forall i :: 0 <= i < index ==> NoOverride(tenantId, q, q.tasks[i]) && tasks[i] == Bound(tenantId, q, q.tasks[i])
      invariant forall i :: index <= i < |tasks| ==> tasks[i] == q.tasks[i]
    {
      if !NoOverride(tenantId, q, tasks[index]) {
        return Failure(InvalidFanout);
      }
      tasks := tasks[index := Bound(tenantId, q, tasks[index])];
    }
    if at == ZERO {
      return Failure(InvalidFanout);
    }
    assert tasks == seq(|q.tasks|, i requires 0 <= i < |q.tasks| => Bound(tenantId, q, q.tasks[i]));
    return Success(FanoutRequest(tenantId, q.resolutionId, q.expectedVersion, tasks,
                                 QueuedEvent(tenantId, q, eventId, at), at));
  }

  // ----- Every run

  /**
   Any interleaving of the three services. A transition carries the snapshot its service read, which
   may be out of date or even wrong.
   */
  datatype Action =
    | CreateAction(request: CreateRequest, id: string, eventId: string, now: Time)
    | TransitionAction(snapshot: Resolution, transition: TransitionRequest, now: Time, eventId: string)
    | FanoutAction(tenantId: string, authorised: bool, plan: QueueRequest, eventId: string, now: Time)

  function Next(s: Store, a: Action): Store
  {
    match a
    case CreateAction(q, id, eventId, now) =>
      var r := NewResolution(q, id, now);
      Create(s, r, EventFor(eventId, ReceivedEvent, r, now), q.documentValid).1
    case TransitionAction(snapshot, q, now, eventId) =>
      (match Prepare(snapshot, q, now, eventId)
       case Failure(_) => s
       case Success(p) => Transition(s, p).1)
    case FanoutAction(tenantId, authorised, plan, eventId, now) =>
      (match Plan(tenantId, authorised, plan, eventId, now)
       case Failure(_) => s
       case Success(q) => Fanout(s, q).1)
  }

  function Run(actions: seq<Action>): Store
  {
    if actions == [] then EMPTY else Next(Run(actions[..|actions| - 1]), actions[|actions| - 1])
  }

  /** Every idempotency record points at the resolution it was made for. */
  predicate KeysOk(s: Store)
  {
    forall k :: k in s.idempotency ==>
                  var record := s.idempotency[k];
                  && record.resolutionId in s.resolutions
                  && ScopeOf(s.resolutions[record.resolutionId]) == k
                  && s.resolutions[record.resolutionId].requestDigest == record.requestDigest
  }

  /** The log tells every resolution, and the idempotency records are right. */
  predicate StoreOk(s: Store)
  {
    LogOk(s.resolutions, s.outbox) && KeysOk(s)
  }

  lemma CreateKeepsLog(s: Store, q: CreateRequest, id: string, eventId: string, now: Time)
    requires LogOk(s.resolutions, s.outbox)
    ensures var after := Next(s, CreateAction(q, id, eventId, now)); LogOk(after.resolutions, after.outbox)
  {
    var r := NewResolution(q, id, now);
    var e := EventFor(eventId, ReceivedEvent, r, now);
    if Create(s, r, e, q.documentValid).1 != s {
      LogGainsResolution(s.resolutions, s.outbox, r, e);
    }
  }

  lemma TransitionKeepsLog(s: Store, snapshot: Resolution, q: TransitionRequest, now: Time, eventId: string)
    requires LogOk(s.resolutions, s.outbox)
    ensures var after := Next(s, TransitionAction(snapshot, q, now, eventId)); LogOk(after.resolutions, after.outbox)
  {
    var prepared := Prepare(snapshot, q, now, eventId);
    if prepared.Success? && Transition(s, prepared.value).1 != s {
      var p := prepared.value;
      var r := s.resolutions[p.resolutionId];
      assert Told(r, p.resolutionId, s.outbox);
      LogGainsTransition(s.resolutions, s.outbox, Advance(r, p.next, p.at), p.event);
    }
  }

  lemma FanoutKeepsLog(s: Store, q: FanoutRequest)
    requires LogOk(s.resolutions, s.outbox)
    requires q.event.payload == Payload(SCHEMA, Queued, q.expectedVersion + 1)
    ensures LogOk(Fanout(s, q).1.resolutions, Fanout(s, q).1.outbox)
  {
    if Fanout(s, q).1 != s {
      var r := s.resolutions[q.resolutionId];
      assert Told(r, q.resolutionId, s.outbox);
      LogGainsTransition(s.resolutions, s.outbox, Fanout(s, q).1.resolutions[r.id], q.event);
    }
  }

  /** The identity of stored resolutions never changes. */
  lemma NextKeepsKeys(s: Store, a: Action)
    requires KeysOk(s) && IdsOk(s.resolutions)
    ensures KeysOk(Next(s, a))
  {
  }

  lemma NextKeepsLog(s: Store, a: Action)
    requires LogOk(s.resolutions, s.outbox)
    ensures LogOk(Next(s, a).resolutions, Next(s, a).outbox)
  {
    match a
    case CreateAction(q, id, eventId, now) => CreateKeepsLog(s, q, id, eventId, now);
    case TransitionAction(snapshot, q, now, eventId) => TransitionKeepsLog(s, snapshot, q, now, eventId);
    case FanoutAction(tenantId, authorised, plan, eventId, now) =>
      var p := Plan(tenantId, authorised, plan, eventId, now);
      if p.Success? {
        FanoutKeepsLog(s, p.value);
      }
  }

  lemma IdsAgree(s: Store)
    requires LogOk(s.resolutions, s.outbox)
    ensures IdsOk(s.resolutions)
  {
    forall id | id in s.resolutions
      ensures s.resolutions[id].id == id
    {
      assert Told(s.resolutions[id], id, s.outbox);
    }
  }

  lemma {:induction false} RunKeepsStore(actions: seq<Action>)
    ensures StoreOk(Run(actions))
  {
    if actions != [] {
      var s, a := Run(actions[..|actions| - 1]), actions[|actions| - 1];
      RunKeepsStore(actions[..|actions| - 1]);
      NextKeepsLog(s, a);
      IdsAgree(s);
      NextKeepsKeys(s, a);
    }
  }

  /**
   In every interleaving, each resolution's events carry versions 1 to its version in order, start at
   received, follow the transition graph and end in the stored state; a resolution is completed
   exactly when its state is terminal, and its version never exceeds 5.
   */
  lemma LogTellsTheResolution(actions: seq<Action>, id: string)
    requires id in Run(actions).resolutions
    ensures var r := Run(actions).resolutions[id];
            var es := EventsOf(Run(actions).outbox, r.tenantId, id);
            && |es| == r.version && 1 <= r.version <= 5
            && (forall k :: 0 <= k < |es| ==> Project(es[k]).Success? && Project(es[k]).value.cursor == k + 1
                                              && Project(es[k]).value.state == es[k].payload.state)
            && es[0].payload.state == Received && es[|es| - 1].payload.state == r.state
            && (forall k {:trigger es[k]} :: 0 < k < |es| ==> Allowed(es[k - 1].payload.state, es[k].payload.state))
            && r.completed == r.state.Terminal()
  {
    RunKeepsStore(actions);
    assert Told(Run(actions).resolutions[id], id, Run(actions).outbox);
  }

  // ----- Atomicity and idempotence

  lemma {:induction false} InsertedKeeps(tasks: map<string, Task>, ts: seq<Task>, id: string)
    requires Inserted(tasks, ts).Some? && id in tasks
    ensures id in Inserted(tasks, ts).value && Inserted(tasks, ts).value[id] == tasks[id]
  {
    if ts != [] {
      InsertedKeeps(tasks, ts[..|ts| - 1], id);
    }
  }

  lemma {:induction false} InsertedAdds(tasks: map<string, Task>, ts: seq<Task>, i: nat)
    requires Inserted(tasks, ts).Some? && i < |ts|
    ensures var id, after := ts[i].authority.id, Inserted(tasks, ts).value;
            id !in tasks && id in after && after[id] == CollectorRepository.NewTask(ts[i].authority)
  {
    var n := |ts| - 1;
    if i < n {
      InsertedAdds(tasks, ts[..n], i);
    } else if ts[n].authority.id in tasks {
      InsertedKeeps(tasks, ts[..n], ts[n].authority.id);
      assert false;
    }
  }

  lemma {:induction false} InsertedOnly(tasks: map<string, Task>, ts: seq<Task>, id: string) returns (i: nat)
    requires Inserted(tasks, ts).Some? && id in Inserted(tasks, ts).value && id !in tasks
    ensures i < |ts| && ts[i].authority.id == id
  {
    var n := |ts| - 1;
    if ts[n].authority.id == id {
      i := n;
    } else {
      i := InsertedOnly(tasks, ts[..n], id);
    }
  }

  /**
   Fan-out is all or nothing: on success exactly the planned tasks were added, all fresh, with one
   event and the queued resolution; on failure nothing changed.
   */
  lemma FanoutIsAtomic(s: Store, q: FanoutRequest)
    ensures var (r, after) := Fanout(s, q);
            && (r.Fail? ==> after == s)
            && (r.Pass? ==>
                  && after.outbox == s.outbox + [q.event]
                  && (forall i :: 0 <= i < |q.tasks| ==>
                                    && q.tasks[i].authority.id !in s.tasks && q.tasks[i].authority.id in after.tasks
                                    && CollectorTask.Fresh(after.tasks[q.tasks[i].authority.id])
                                    && after.tasks[q.tasks[i].authority.id].authority == q.tasks[i].authority)
                  && (forall id :: id in s.tasks ==> id in after.tasks && after.tasks[id] == s.tasks[id])
                  && (forall id :: id in after.tasks && id !in s.tasks ==>
                                     exists i :: 0 <= i < |q.tasks| && q.tasks[i].authority.id == id))
  {
    if Fanout(s, q).0.Pass? {
      var after := Fanout(s, q).1.tasks;
      forall i | 0 <= i < |q.tasks|
        ensures q.tasks[i].authority.id !in s.tasks && q.tasks[i].authority.id in after
        ensures CollectorTask.Fresh(after[q.tasks[i].authority.id])
        ensures after[q.tasks[i].authority.id].authority == q.tasks[i].authority
      {
        InsertedAdds(s.tasks, q.tasks, i);
      }
      forall id | id in s.tasks
        ensures id in after && after[id] == s.tasks[id]
      {
        InsertedKeeps(s.tasks, q.tasks, id);
      }
      forall id | id in after && id !in s.tasks
        ensures exists i :: 0 <= i < |q.tasks| && q.tasks[i].authority.id == id
      {
        var i := InsertedOnly(s.tasks, q.tasks, id);
      }
    }
  }

  /** What no step changes of a resolution, and what only grows. */
  predicate Advances(before: Resolution, after: Resolution)
  {
    && after.id == before.id && after.tenantId == before.tenantId && after.actorId == before.actorId
    && after.idempotencyKey == before.idempotencyKey && after.requestDigest == before.requestDigest
    && after.requestDocument == before.requestDocument && after.createdAt == before.createdAt
    && before.version <= after.version && before.updatedAt <= after.updatedAt
    && (after.version == before.version ==> after == before)
    && (before.state.Terminal() ==> after == before)
  }

  predicate IdsOk(resolutions: map<string, Resolution>)
  {
    forall id :: id in resolutions ==> resolutions[id].id == id
  }

  lemma TransitionAdvances(s: Store, p: Prepared, id: string)
    requires IdsOk(s.resolutions) && id in s.resolutions
    ensures id in Transition(s, p).1.resolutions && Advances(s.resolutions[id], Transition(s, p).1.resolutions[id])
  {
  }

  lemma FanoutAdvances(s: Store, q: FanoutRequest, id: string)
    requires IdsOk(s.resolutions) && id in s.resolutions
    ensures id in Fanout(s, q).1.resolutions && Advances(s.resolutions[id], Fanout(s, q).1.resolutions[id])
  {
  }

  lemma NextAdvances(s: Store, a: Action, id: string)
    requires IdsOk(s.resolutions) && id in s.resolutions
    ensures id in Next(s, a).resolutions && Advances(s.resolutions[id], Next(s, a).resolutions[id])
  {
    match a
    case CreateAction(_, _, _, _) =>
    case TransitionAction(snapshot, q, now, eventId) =>
      var p := Prepare(snapshot, q, now, eventId);
      if p.Success? {
        TransitionAdvances(s, p.value, id);
      }
    case FanoutAction(tenantId, authorised, plan, eventId, now) =>
      var p := Plan(tenantId, authorised, plan, eventId, now);
      if p.Success? {
        FanoutAdvances(s, p.value, id);
      }
  }

  /** Over any continuation a resolution keeps its identity and request, its version and time never go back, and a
      terminal resolution never changes. */
  lemma {:induction false} RunAdvances(actions: seq<Action>, n: nat, id: string)
    requires n <= |actions| && id in Run(actions[..n]).resolutions
    ensures id in Run(actions).resolutions && Advances(Run(actions[..n]).resolutions[id], Run(actions).resolutions[id])
    decreases |actions|
  {
    if n == |actions| {
      assert actions[..n] == actions;
    } else {
      var before := actions[..|actions| - 1];
      assert before[..n] == actions[..n];
      RunAdvances(before, n, id);
      RunKeepsStore(before);
      IdsAgree(Run(before));
      NextAdvances(Run(before), actions[|actions| - 1], id);
    }
  }

  // ----- When each service succeeds

  /** The create transaction by itself, whoever calls it, adds only complete, new resolutions that nothing happened to yet. */
  lemma OnlyFreshResolutionsAreStored(s: Store, r: Resolution, e: Event, documentValid: bool)
    ensures Create(s, r, e, documentValid).1 != s <==>
            && r.id != "" && r.actorId != "" && r.tenantId != "" && r.requestDocument != "" && documentValid
            && 1 <= |r.idempotencyKey| <= 128 && 1 <= |r.requestDigest| <= 128
            && r.state == Received && r.version == 1 && !r.completed && ZERO < r.createdAt <= r.updatedAt
            && e.id != "" && e.tenantId == r.tenantId && e.aggregateType == "resolution" && e.aggregateId == r.id
            && e.occurredAt > ZERO && e.eventType != OtherEvent("")
            && r.id !in s.resolutions && (r.tenantId, r.actorId, r.idempotencyKey) !in s.idempotency
            && forall k :: 0 <= k < |s.outbox| ==> s.outbox[k].id != e.id
  {
    var (res, after) := Create(s, r, e, documentValid);
    assert res.Success? && res.value.1 ==> r.id in after.resolutions;
  }

  /**
   A creation adds a resolution exactly when the request is complete and bounded, its document passed the
   checks, and neither the identifiers nor the idempotency key were used before.
   */
  lemma CreatedExactlyWhen(s: Store, q: CreateRequest, id: string, eventId: string, now: Time)
    ensures var after := Next(s, CreateAction(q, id, eventId, now));
            && (after != s <==>
                  && "" !in {q.actorId, q.tenantId, q.idempotencyKey, q.requestDigest, q.requestDocument, id, eventId}
                  && |q.idempotencyKey| <= 128 && |q.requestDigest| <= 128 && q.documentValid && now != ZERO
                  && id !in s.resolutions && (q.tenantId, q.actorId, q.idempotencyKey) !in s.idempotency
                  && forall k :: 0 <= k < |s.outbox| ==> s.outbox[k].id != eventId)
            && (after != s ==>
                  var r := Resolution(id, q.actorId, q.tenantId, q.idempotencyKey, q.requestDigest, q.requestDocument,
                                      Received, 0, false, 1, now, now);
                  && after.resolutions == s.resolutions[id := r] && after.tasks == s.tasks
                  && after.outbox == s.outbox + [Event(eventId, q.tenantId, RESOLUTION, id, ReceivedEvent,
                                                       Payload(SCHEMA, Received, 1), now)]
                  && after.idempotency == s.idempotency[(q.tenantId, q.actorId, q.idempotencyKey) :=
                       IdempotencyRecord(q.requestDigest, id)])
  {
    var r := NewResolution(q, id, now);
    var e := EventFor(eventId, ReceivedEvent, r, now);
    var (res, after) := Create(s, r, e, q.documentValid);
    assert res.Success? && res.value.1 ==> id in after.resolutions;
  }

  /**
   A transition succeeds exactly when its request is complete, the snapshot it was made from is the stored
   version and state, the graph allows the step and time does not go back.
   */
  lemma TransitionedExactlyWhen(s: Store, snapshot: Resolution, q: TransitionRequest, now: Time, eventId: string)
    requires IdsOk(s.resolutions)
    ensures var after := Next(s, TransitionAction(snapshot, q, now, eventId));
            && (after != s <==>
                  && "" !in {q.tenantId, q.resolutionId, eventId} && now != ZERO && q.expectedVersion > 0
                  && snapshot.tenantId == q.tenantId && snapshot.id == q.resolutionId
                  && snapshot.version == q.expectedVersion && Allowed(snapshot.state, q.nextState)
                  && q.resolutionId in s.resolutions
                  && var r := s.resolutions[q.resolutionId];
                     && r.tenantId == q.tenantId && r.version == q.expectedVersion && r.state == snapshot.state
                     && r.updatedAt <= now
                     && forall k :: 0 <= k < |s.outbox| ==> s.outbox[k].id != eventId)
            && (after != s ==>
                  var r := s.resolutions[q.resolutionId];
                  && after.resolutions == s.resolutions[q.resolutionId :=
                       r.(state := q.nextState, completed := q.nextState.Terminal(), version := r.version + 1, updatedAt := now)]
                  && after.outbox == s.outbox + [Event(eventId, q.tenantId, RESOLUTION, q.resolutionId, StateChanged,
                                                       Payload(SCHEMA, q.nextState, r.version + 1), now)]
                  && after.tasks == s.tasks && after.idempotency == s.idempotency)
  {
    var p := Prepare(snapshot, q, now, eventId);
    if p.Success? {
      var (res, after) := Transition(s, p.value);
      assert res.Success? ==> |after.outbox| == |s.outbox| + 1;
    }
  }

  /**
   The in-memory repository and the transaction apply the same transitions, with the same result, as long as
   the event's identifier is new: only the database checks that.
   */
  lemma RepositoriesAgree(s: Store, p: Prepared)
    requires IdsOk(s.resolutions)
    ensures Transition(s, p).0.Success? <==> CompareAndSet(s.resolutions, p) && !EventIdUsed(s.outbox, p.event.id)
    ensures Transition(s, p).0.Success? ==>
              && Transition(s, p).0.value == Advance(s.resolutions[p.resolutionId], p.next, p.at)
              && Transition(s, p).1 == s.(resolutions := s.resolutions[p.resolutionId := Transition(s, p).0.value],
                                          outbox := s.outbox + [p.event])
  {
    EnteredFrom(p.expectedState, p.next);
  }

  predicate Mentions(ts: seq<Task>, id: string)
  {
    exists i :: 0 <= i < |ts| && ts[i].authority.id == id
  }

  predicate Fits(a: CollectorTask.Authority)
  {
    |a.targetEndpoint| <= 2048 && |a.approvalGrantId| <= 512
  }

  lemma {:induction false} InsertedKeys(tasks: map<string, Task>, ts: seq<Task>, id: string)
    requires Inserted(tasks, ts).Some?
    ensures id in Inserted(tasks, ts).value <==> id in tasks || Mentions(ts, id)
  {
    if ts != [] {
      var n := |ts| - 1;
      InsertedKeys(tasks, ts[..n], id);
      assert Mentions(ts, id) <==> Mentions(ts[..n], id) || ts[n].authority.id == id by {
        if i :| 0 <= i < |ts| && ts[i].authority.id == id {
          assert i < n ==> ts[..n][i] == ts[i];
        }
        if i :| 0 <= i < n && ts[..n][i].authority.id == id {
          assert ts[i] == ts[..n][i];
        }
      }
    }
  }

  /** All tasks of the list are new, fit their columns and are different. */
  predicate AllNew(tasks: map<string, Task>, ts: seq<Task>)
  {
    (forall i :: 0 <= i < |ts| ==> ts[i].authority.id !in tasks && Fits(ts[i].authority)) && DistinctIds(ts)
  }

  lemma AllNewStep(tasks: map<string, Task>, ts: seq<Task>)
    requires ts != []
    ensures var n := |ts| - 1;
            AllNew(tasks, ts) <==>
            && AllNew(tasks, ts[..n]) && ts[n].authority.id !in tasks && Fits(ts[n].authority)
            && !Mentions(ts[..n], ts[n].authority.id)
  {
    var n := |ts| - 1;
    assert ts == ts[..n] + [ts[n]];
  }

  /** Inserting a list of tasks succeeds exactly when all are new, all different and all fit their columns. */
  lemma {:induction false} InsertedExactlyWhen(tasks: map<string, Task>, ts: seq<Task>)
    ensures Inserted(tasks, ts).Some? <==> AllNew(tasks, ts)
  {
    if ts != [] {
      var n := |ts| - 1;
      InsertedExactlyWhen(tasks, ts[..n]);
      AllNewStep(tasks, ts);
      if Inserted(tasks, ts[..n]).Some? {
        InsertedKeys(tasks, ts[..n], ts[n].authority.id);
      }
    }
  }

  /** The authority of a planned task: bound to the actor's tenant and the resolution, and complete. */
  predicate Plannable(tenantId: string, q: QueueRequest, a: CollectorTask.Authority)
  {
    && (a.tenantId == "" || a.tenantId == tenantId) && (a.resolutionId == "" || a.resolutionId == q.resolutionId)
    && BrokerDatabase.CompleteAuthority(a.(tenantId := tenantId, resolutionId := q.resolutionId)) && Fits(a)
  }

  /** The resolution of the tenant is being planned at this version, and the event identifier is new. */
  predicate Plans(s: Store, tenantId: string, q: QueueRequest, eventId: string)
  {
    && q.resolutionId in s.resolutions
    && var r := s.resolutions[q.resolutionId];
       && r.tenantId == tenantId && r.version == q.expectedVersion && r.state == Planning
       && forall k :: 0 <= k < |s.outbox| ==> s.outbox[k].id != eventId
  }

  lemma PlanIsValidFanout(tenantId: string, q: QueueRequest, eventId: string, now: Time, f: FanoutRequest)
    requires Plan(tenantId, true, q, eventId, now) == Success(f)
    ensures |f.tasks| == |q.tasks|
    ensures forall i :: 0 <= i < |q.tasks| ==> f.tasks[i].authority.id == q.tasks[i].authority.id
                                               && Fits(f.tasks[i].authority) == Fits(q.tasks[i].authority)
    ensures ValidFanout(f) <==>
            && eventId != "" && DistinctIds(q.tasks)
            && forall i :: 0 <= i < |q.tasks| ==>
                             BrokerDatabase.CompleteAuthority(
                               q.tasks[i].authority.(tenantId := tenantId, resolutionId := q.resolutionId))
  {
    forall i | 0 <= i < |q.tasks|
      ensures f.tasks[i] == Bound(tenantId, q, q.tasks[i])
      ensures PlannedTask(f, f.tasks[i]) <==>
              BrokerDatabase.CompleteAuthority(q.tasks[i].authority.(tenantId := tenantId, resolutionId := q.resolutionId))
    {
    }
  }

  lemma FanoutChangesWhen(s: Store, f: FanoutRequest)
    ensures Fanout(s, f).1 != s <==>
            && ValidFanout(f) && f.resolutionId in s.resolutions && AllNew(s.tasks, f.tasks)
            && var r := s.resolutions[f.resolutionId];
               && r.tenantId == f.tenantId && r.version == f.expectedVersion && r.state == Planning
               && forall k :: 0 <= k < |s.outbox| ==> s.outbox[k].id != f.event.id
  {
    InsertedExactlyWhen(s.tasks, f.tasks);
    assert Fanout(s, f).0.Pass? ==> |Fanout(s, f).1.outbox| == |s.outbox| + 1;
  }

  /**
   The fan-out transaction by itself, whoever calls it, takes effect exactly for one to ten thousand new,
   different and complete tasks of that tenant and resolution that nobody started, announced by a queueing
   event of the same instant, while the resolution is being planned at the version given.
   */
  lemma FanoutTakesEffectWhen(s: Store, f: FanoutRequest)
    ensures Fanout(s, f).1 != s <==>
            && f.tenantId != "" && f.resolutionId != "" && f.expectedVersion > 0 && 1 <= |f.tasks| <= 10000
            && f.queuedAt == f.event.occurredAt > ZERO && f.event.eventType == TasksQueued && f.event.id != ""
            && f.event.tenantId == f.tenantId && f.event.aggregateType == "resolution" && f.event.aggregateId == f.resolutionId
            && (forall i :: 0 <= i < |f.tasks| ==>
                              && BrokerDatabase.CompleteAuthority(f.tasks[i].authority)
                              && f.tasks[i].authority.tenantId == f.tenantId
                              && f.tasks[i].authority.resolutionId == f.resolutionId
                              && f.tasks[i].state in {CollectorTask.Unset, CollectorTask.Queued})
            && AllNew(s.tasks, f.tasks) && f.resolutionId in s.resolutions
            && var r := s.resolutions[f.resolutionId];
               && r.tenantId == f.tenantId && r.version == f.expectedVersion && r.state == Planning
               && forall k :: 0 <= k < |s.outbox| ==> s.outbox[k].id != f.event.id
  {
    FanoutChangesWhen(s, f);
    assert AllNew(s.tasks, f.tasks) ==> DistinctIds(f.tasks);
  }

  /**
   A fan-out succeeds exactly when an authorised planner of the tenant names one to a thousand new, different
   and complete tasks for a resolution of that tenant that is being planned at the version given.
   */
  lemma FannedOutExactlyWhen(s: Store, tenantId: string, authorised: bool, q: QueueRequest, eventId: string, now: Time)
    ensures Next(s, FanoutAction(tenantId, authorised, q, eventId, now)) != s <==>
            && authorised && tenantId != "" && q.resolutionId != "" && eventId != "" && q.expectedVersion > 0 && now != ZERO
            && 1 <= |q.tasks| <= 1000 && AllNew(s.tasks, q.tasks) && Plans(s, tenantId, q, eventId)
            && forall i :: 0 <= i < |q.tasks| ==> Plannable(tenantId, q, q.tasks[i].authority)
  {
    var p := Plan(tenantId, authorised, q, eventId, now);
    if p.Success? {
      PlanIsValidFanout(tenantId, q, eventId, now, p.value);
      FanoutChangesWhen(s, p.value);
      AllNewAgrees(s.tasks, p.value.tasks, q.tasks);
      PlannableSplits(tenantId, q);
    } else {
      PlannableSplits(tenantId, q);
    }
  }

  lemma AllNewAgrees(tasks: map<string, Task>, a: seq<Task>, b: seq<Task>)
    requires |a| == |b|
    requires forall i :: 0 <= i < |a| ==> a[i].authority.id == b[i].authority.id && Fits(a[i].authority) == Fits(b[i].authority)
    ensures AllNew(tasks, a) <==> AllNew(tasks, b)
  {
  }

  lemma PlannableSplits(tenantId: string, q: QueueRequest)
    ensures (forall i :: 0 <= i < |q.tasks| ==> Plannable(tenantId, q, q.tasks[i].authority)) <==>
            && (forall i :: 0 <= i < |q.tasks| ==> NoOverride(tenantId, q, q.tasks[i]))
            && (forall i :: 0 <= i < |q.tasks| ==> Fits(q.tasks[i].authority))
            && forall i :: 0 <= i < |q.tasks| ==>
                             BrokerDatabase.CompleteAuthority(
                               q.tasks[i].authority.(tenantId := tenantId, resolutionId := q.resolutionId))
  {
  }

  // ----- Tasks belong to their resolution

  /** A plan whose task names another tenant or another resolution is refused, whoever asks. */
  lemma OverrideIsRefused(tenantId: string, authorised: bool, q: QueueRequest, eventId: string, at: Time, i: nat)
    requires i < |q.tasks|
    requires var a := q.tasks[i].authority;
             || (a.tenantId != "" && a.tenantId != tenantId)
             || (a.resolutionId != "" && a.resolutionId != q.resolutionId)
    ensures Plan(tenantId, authorised, q, eventId, at).Failure?
  {
    assert !NoOverride(tenantId, q, q.tasks[i]);
  }

  /** What a plan hands on differs from what was asked only in the actor's tenant, the resolution and the state. */
  lemma PlanBindsTasks(tenantId: string, authorised: bool, q: QueueRequest, eventId: string, at: Time, i: nat)
    requires i < |q.tasks| && Plan(tenantId, authorised, q, eventId, at).Success?
    ensures var f := Plan(tenantId, authorised, q, eventId, at).value;
            && authorised && f.tenantId == tenantId != "" && f.resolutionId == q.resolutionId
            && |f.tasks| == |q.tasks| <= MAXIMUM_PLAN && f.queuedAt == at
            && f.tasks[i].authority == q.tasks[i].authority.(tenantId := tenantId, resolutionId := q.resolutionId)
  {
  }

  /** The identifiers of the tasks planned for a resolution. */
  function TasksOf(tasks: map<string, Task>, id: string): set<string>
  {
    set t | t in tasks && tasks[t].authority.resolutionId == id
  }

  /** The resolution has as many tasks as its target count says, none before it is queued, all of its tenant. */
  predicate Staffed(s: Store, id: string)
    requires id in s.resolutions
  {
    var r := s.resolutions[id];
    && |TasksOf(s.tasks, id)| == r.targetCount
    && (Unqueued(r.state) ==> r.targetCount == 0)
    && (forall t :: t in TasksOf(s.tasks, id) ==> s.tasks[t].authority.tenantId == r.tenantId)
  }

  predicate AllStaffed(s: Store)
  {
    && (forall id :: id in s.resolutions ==> Staffed(s, id))
    && (forall t :: t in s.tasks ==> s.tasks[t].authority.id == t && s.tasks[t].authority.resolutionId in s.resolutions)
  }

  lemma {:induction false} InsertedCounts(tasks: map<string, Task>, ts: seq<Task>, id: string)
    requires Inserted(tasks, ts).Some? && forall i :: 0 <= i < |ts| ==> ts[i].authority.resolutionId == id
    ensures |TasksOf(Inserted(tasks, ts).value, id)| == |TasksOf(tasks, id)| + |ts|
  {
    if ts != [] {
      var n := |ts| - 1;
      InsertedCounts(tasks, ts[..n], id);
      var before := Inserted(tasks, ts[..n]).value;
      assert TasksOf(Inserted(tasks, ts).value, id) == TasksOf(before, id) + {ts[n].authority.id};
    }
  }

  lemma {:induction false} InsertedElsewhere(tasks: map<string, Task>, ts: seq<Task>, id: string, other: string)
    requires Inserted(tasks, ts).Some? && forall i :: 0 <= i < |ts| ==> ts[i].authority.resolutionId == id
    requires other != id
    ensures TasksOf(Inserted(tasks, ts).value, other) == TasksOf(tasks, other)
  {
    if ts != [] {
      InsertedElsewhere(tasks, ts[..|ts| - 1], id, other);
    }
  }

  lemma {:induction false} InsertedAreNew(tasks: map<string, Task>, ts: seq<Task>, t: string)
    requires Inserted(tasks, ts).Some? && t in Inserted(tasks, ts).value
    ensures var after := Inserted(tasks, ts).value;
            || (t in tasks && after[t] == tasks[t])
            || (exists i :: 0 <= i < |ts| && t == ts[i].authority.id && after[t].authority == ts[i].authority)
  {
    if ts != [] {
      var n := |ts| - 1;
      if t == ts[n].authority.id {
        assert Inserted(tasks, ts).value[t].authority == ts[n].authority;
      } else {
        InsertedAreNew(tasks, ts[..n], t);
      }
    }
  }

  lemma FanoutStaffs(s: Store, q: FanoutRequest)
    requires AllStaffed(s) && IdsOk(s.resolutions)
    ensures AllStaffed(Fanout(s, q).1)
  {
    var after := Fanout(s, q).1;
    if Fanout(s, q).0.Pass? {
      forall t | t in after.tasks
        ensures after.tasks[t].authority.id == t && after.tasks[t].authority.resolutionId in after.resolutions
        ensures t !in s.tasks ==> after.tasks[t].authority.resolutionId == q.resolutionId
                                  && after.tasks[t].authority.tenantId == q.tenantId
        ensures t in s.tasks ==> after.tasks[t] == s.tasks[t]
      {
        InsertedAreNew(s.tasks, q.tasks, t);
        if t in s.tasks {
          InsertedKeeps(s.tasks, q.tasks, t);
        }
      }
      forall id | id in after.resolutions
        ensures Staffed(after, id)
      {
        assert Staffed(s, id);
        if id == q.resolutionId {
          InsertedCounts(s.tasks, q.tasks, id);
        } else {
          InsertedElsewhere(s.tasks, q.tasks, q.resolutionId, id);
        }
      }
    }
  }

  lemma TransitionStaffs(s: Store, p: Prepared)
    requires AllStaffed(s) && IdsOk(s.resolutions)
    ensures AllStaffed(Transition(s, p).1)
  {
    var after := Transition(s, p).1;
    TransitionKeepsTasks(s, p);
    forall id | id in after.resolutions
      ensures Staffed(after, id)
    {
      assert Staffed(s, id);
    }
  }

  predicate Unqueued(state: ResolutionState)
  {
    state in {Received, ResolvingTargets, Planning}
  }

  lemma TransitionKeepsTasks(s: Store, p: Prepared)
    requires IdsOk(s.resolutions)
    ensures var after := Transition(s, p).1;
            && after.tasks == s.tasks && after.resolutions.Keys == s.resolutions.Keys
            && forall id :: id in after.resolutions ==>
                              && after.resolutions[id].targetCount == s.resolutions[id].targetCount
                              && after.resolutions[id].tenantId == s.resolutions[id].tenantId
                              && (Unqueued(after.resolutions[id].state) ==> Unqueued(s.resolutions[id].state))
  {
    EnteredFrom(p.expectedState, p.next);
  }

  lemma CreateKeepsTasks(s: Store, q: CreateRequest, id: string, eventId: string, now: Time)
    ensures var after := Next(s, CreateAction(q, id, eventId, now));
            && after.tasks == s.tasks
            && (forall other :: other in s.resolutions ==>
                                  other in after.resolutions && after.resolutions[other] == s.resolutions[other])
            && (forall other :: other in after.resolutions && other !in s.resolutions ==>
                                  after.resolutions[other] == NewResolution(q, other, now))
  {
  }

  lemma CreateStaffs(s: Store, q: CreateRequest, id: string, eventId: string, now: Time)
    requires AllStaffed(s)
    ensures AllStaffed(Next(s, CreateAction(q, id, eventId, now)))
  {
    var after := Next(s, CreateAction(q, id, eventId, now));
    CreateKeepsTasks(s, q, id, eventId, now);
    forall other | other in after.resolutions
      ensures Staffed(after, other)
    {
      if other in s.resolutions {
        assert Staffed(s, other);
      } else {
        assert TasksOf(s.tasks, other) == {};
      }
    }
  }

  lemma {:induction false} RunStaffs(actions: seq<Action>)
    ensures AllStaffed(Run(actions))
  {
    if actions != [] {
      var s, a := Run(actions[..|actions| - 1]), actions[|actions| - 1];
      RunStaffs(actions[..|actions| - 1]);
      RunKeepsStore(actions[..|actions| - 1]);
      IdsAgree(s);
      match a
      case CreateAction(q, id, eventId, now) => CreateStaffs(s, q, id, eventId, now);
      case TransitionAction(snapshot, q, now, eventId) =>
        var p := Prepare(snapshot, q, now, eventId);
        if p.Success? {
          TransitionStaffs(s, p.value);
        }
      case FanoutAction(tenantId, authorised, plan, eventId, now) =>
        var p := Plan(tenantId, authorised, plan, eventId, now);
        if p.Success? {
          FanoutStaffs(s, p.value);
        }
    }
  }

  /**
   In every run the target count of a resolution is the number of tasks planned for it, which are none
   before it is queued; and every task is of the tenant of its resolution.
   */
  lemma TargetCountCountsTasks(actions: seq<Action>, id: string)
    requires id in Run(actions).resolutions
    ensures Staffed(Run(actions), id)
  {
    RunStaffs(actions);
  }

  // ----- When a resolution is over

  /** No step of any service can change the resolution any more. */
  ghost predicate Over(s: Store, id: string)
    requires id in s.resolutions
  {
    forall a: Action :: id in Next(s, a).resolutions && Next(s, a).resolutions[id] == s.resolutions[id]
  }

  predicate Named(s: Store)
  {
    forall id :: id in s.resolutions ==> id != "" && s.resolutions[id].tenantId != ""
  }

  lemma {:induction false} RunNames(actions: seq<Action>)
    ensures Named(Run(actions))
  {
    if actions != [] {
      RunNames(actions[..|actions| - 1]);
      RunKeepsStore(actions[..|actions| - 1]);
      IdsAgree(Run(actions[..|actions| - 1]));
      NextKeepsNames(Run(actions[..|actions| - 1]), actions[|actions| - 1]);
    }
  }

  lemma NextKeepsNames(s: Store, a: Action)
    requires Named(s) && IdsOk(s.resolutions)
    ensures Named(Next(s, a))
  {
  }

  /** An identifier longer than every one in the log. */
  function UnusedId(events: seq<Event>): string
  {
    if events == [] then "e" else UnusedId(events[..|events| - 1]) + events[|events| - 1].id
  }

  lemma {:induction false} UnusedIdIsLonger(events: seq<Event>, k: nat)
    ensures |UnusedId(events)| >= 1
    ensures k < |events| ==> |events[k].id| < |UnusedId(events)|
  {
    if events != [] {
      UnusedIdIsLonger(events[..|events| - 1], k);
    }
  }

  lemma UnusedIdIsUnused(events: seq<Event>)
    ensures UnusedId(events) != "" && !EventIdUsed(events, UnusedId(events))
  {
    UnusedIdIsLonger(events, 0);
    forall k | 0 <= k < |events|
      ensures events[k].id != UnusedId(events)
    {
      UnusedIdIsLonger(events, k);
    }
  }

  /** The step by which an unfinished resolution fails. */
  function Abandonment(s: Store, r: Resolution): Action
  {
    TransitionAction(r, TransitionRequest(r.tenantId, r.id, r.version, Failed), Later(r.updatedAt, 1), UnusedId(s.outbox))
  }

  lemma UnfinishedCanFail(s: Store, id: string)
    requires StoreOk(s) && Named(s) && id in s.resolutions && !s.resolutions[id].completed
    ensures var a := Abandonment(s, s.resolutions[id]);
            id in Next(s, a).resolutions && Next(s, a).resolutions[id].state == Failed != s.resolutions[id].state
  {
    var r := s.resolutions[id];
    assert Told(r, id, s.outbox);
    assert r.id == id && r.version > 0 && Allowed(r.state, Failed);
    var q := TransitionRequest(r.tenantId, id, r.version, Failed);
    var now, eventId := Later(r.updatedAt, 1), UnusedId(s.outbox);
    UnusedIdIsUnused(s.outbox);
    AbandonmentIsPrepared(r, q, now, eventId);
    PreparedFailureSucceeds(s, Prepare(r, q, now, eventId).value);
  }

  lemma AbandonmentIsPrepared(r: Resolution, q: TransitionRequest, now: Time, eventId: string)
    requires r.id != "" && r.tenantId != "" && r.version > 0 && Allowed(r.state, Failed) && now != ZERO && eventId != ""
    requires q == TransitionRequest(r.tenantId, r.id, r.version, Failed)
    ensures var p := Prepare(r, q, now, eventId);
            && p.Success? && BoundEvent(p.value.event, r.tenantId, r.id) && p.value.event.id == eventId
            && p.value == Prepared(r.tenantId, r.id, r.version, r.state, Failed, now, p.value.event)
  {
  }

  lemma PreparedFailureSucceeds(s: Store, p: Prepared)
    requires p.resolutionId in s.resolutions && p.next == Failed && p.at != ZERO && Allowed(p.expectedState, Failed)
    requires var r := s.resolutions[p.resolutionId];
             && r.id == p.resolutionId && r.tenantId == p.tenantId && r.version == p.expectedVersion
             && r.state == p.expectedState && r.updatedAt <= p.at
    requires BoundEvent(p.event, p.tenantId, p.resolutionId) && !EventIdUsed(s.outbox, p.event.id)
    ensures var after := Transition(s, p).1;
            p.resolutionId in after.resolutions && after.resolutions[p.resolutionId].state == Failed
  {
  }

  /**
   In every run `completed` says exactly that the resolution is over: no later step of any service, with
   whatever snapshot, plan and clock, changes it again.
   */
  lemma CompletedMeansOver(actions: seq<Action>, id: string)
    requires id in Run(actions).resolutions
    ensures Run(actions).resolutions[id].completed <==> Over(Run(actions), id)
  {
    var s := Run(actions);
    RunKeepsStore(actions);
    RunNames(actions);
    IdsAgree(s);
    assert Told(s.resolutions[id], id, s.outbox);
    if s.resolutions[id].completed {
      forall a: Action
        ensures id in Next(s, a).resolutions && Next(s, a).resolutions[id] == s.resolutions[id]
      {
        NextAdvances(s, a, id);
      }
    } else {
      UnfinishedCanFail(s, id);
    }
  }

  /** And it stays as it is over every continuation of the run. */
  lemma CompletedIsFinal(actions: seq<Action>, more: seq<Action>, id: string)
    requires id in Run(actions).resolutions && Run(actions).resolutions[id].completed
    ensures id in Run(actions + more).resolutions && Run(actions + more).resolutions[id] == Run(actions).resolutions[id]
  {
    RunKeepsStore(actions);
    assert Told(Run(actions).resolutions[id], id, Run(actions).outbox);
    assert (actions + more)[..|actions|] == actions;
    RunAdvances(actions + more, |actions|, id);
  }

  // ----- The log

  lemma NextGrowsOutbox(s: Store, a: Action)
    ensures s.outbox <= Next(s, a).outbox
  {
  }

  /** The event log of a run only grows. */
  lemma {:induction false} OutboxGrows(actions: seq<Action>, n: nat)
    requires n <= |actions|
    ensures Run(actions[..n]).outbox <= Run(actions).outbox
    decreases |actions|
  {
    if n == |actions| {
      assert actions[..n] == actions;
    } else {
      var before := actions[..|actions| - 1];
      assert before[..n] == actions[..n];
      OutboxGrows(before, n);
      NextGrowsOutbox(Run(before), actions[|actions| - 1]);
    }
  }

  /** Exactly one resolution is queued by a fan-out, with its task count and a time that does not go back. */
  lemma FanoutQueuesTheResolution(s: Store, q: FanoutRequest)
    requires IdsOk(s.resolutions) && Fanout(s, q).0.Pass?
    ensures var before, after := s.resolutions[q.resolutionId], Fanout(s, q).1.resolutions;
            && q.resolutionId in after && after.Keys == s.resolutions.Keys
            && (forall id :: id in after && id != q.resolutionId ==> after[id] == s.resolutions[id])
            && var r := after[q.resolutionId];
               && before.state == Planning && r.state == Queued && r.targetCount == |q.tasks|
               && r.version == before.version + 1 && r.completed == before.completed && Advances(before, r)
               && (r.updatedAt == before.updatedAt || r.updatedAt == Truncate(q.queuedAt))
               && r.updatedAt >= Truncate(q.queuedAt)
  {
    FanoutAdvances(s, q, q.resolutionId);
  }

  /** A losing planner changes nothing: after one fan-out, no other one with the same version succeeds. */
  lemma SecondFanoutLoses(s: Store, first: FanoutRequest, second: FanoutRequest)
    requires StoreOk(s) && Fanout(s, first).0.Pass?
    requires second.resolutionId == first.resolutionId && second.expectedVersion == first.expectedVersion
    ensures Fanout(Fanout(s, first).1, second).0.Fail? && Fanout(Fanout(s, first).1, second).1 == Fanout(s, first).1
  {
    assert Told(s.resolutions[first.resolutionId], first.resolutionId, s.outbox);
  }

  /** A repeated creation returns the original and changes nothing; another digest under the key is refused. */
  lemma CreateIsIdempotent(s: Store, r: Resolution, e: Event, again: Resolution, e2: Event)
    requires KeysOk(s) && Create(s, r, e, true).0.Success?
    requires ValidNew(again, e2, true) && ScopeOf(again) == ScopeOf(r)
    requires again.id !in Create(s, r, e, true).1.resolutions
    ensures var (first, after) := Create(s, r, e, true);
            var (second, last) := Create(after, again, e2, true);
            && last == after
            && (again.requestDigest == r.requestDigest <==> second.Success?)
            && (second.Success? ==> second.value == (first.value.0, false))
  {
  }
}
