/**
 The resolution workflow: its transition graph (internal/resolution/resolution_state.go) and its
 events (service.go, events.go). JSON is abstract: a payload is its decoded fields, or `Malformed`.
 */
module Resolution {
  import opened Wrappers
  import opened Clock

  /** `Other` is any text that names no state, including the empty one. */
  datatype ResolutionState =
    | Received | ResolvingTargets | Planning | Queued | Complete | Partial
    | Denied | Failed | Cancelled | Expired | Other(text: string)
  {
    predicate Terminal() {
      Complete? || Partial? || Denied? || Failed? || Cancelled? || Expired?
    }
  }

  datatype ResolutionError =
    | InvalidInput | NotFound | VersionConflict | IdempotencyConflict | InvalidTransition | ClockWentBack
    | InvalidEvent | Refused

  predicate Allowed(current: ResolutionState, next: ResolutionState)
  {
    match current
    case Received => next in {ResolvingTargets, Denied, Failed, Cancelled, Expired}
    case ResolvingTargets => next in {Planning, Denied, Failed, Cancelled, Expired}
    case Planning => next in {Queued, Denied, Failed, Cancelled, Expired}
    case Queued => next in {Complete, Partial, Failed, Cancelled, Expired}
    case _ => false
  }

  /** A known state is terminal exactly when nothing can follow it. */
  lemma TerminalIsStuck(s: ResolutionState)
    requires !s.Other?
    ensures s.Terminal() <==> forall next :: !Allowed(s, next)
  {
    if !s.Terminal() {
      assert Allowed(s, Failed);
    }
  }

  /**
   The graph seen from its ends: planning advances one stage at a time; a queued resolution, and no
   other, completes wholly or partly; denial comes before queueing; and whatever is unfinished may
   fail, be cancelled or expire.
   */
  lemma EnteredFrom(s: ResolutionState, next: ResolutionState)
    ensures Allowed(s, next) <==>
            match next
            case Received => false
            case ResolvingTargets => s == Received
            case Planning => s == ResolvingTargets
            case Queued => s == Planning
            case Complete => s == Queued
            case Partial => s == Queued
            case Denied => s in {Received, ResolvingTargets, Planning}
            case Failed => s in {Received, ResolvingTargets, Planning, Queued}
            case Cancelled => s in {Received, ResolvingTargets, Planning, Queued}
            case Expired => s in {Received, ResolvingTargets, Planning, Queued}
            case Other(_) => false
  {
  }

  function ValidateTransition(current: ResolutionState, next: ResolutionState): Outcome<ResolutionError>
  {
    if next == Other("") || current.Terminal() || !Allowed(current, next) then Fail(InvalidTransition) else Pass
  }

  datatype Resolution = Resolution(
    id: string, actorId: string, tenantId: string, idempotencyKey: string, requestDigest: string,
    requestDocument: string, state: ResolutionState, targetCount: nat, completed: bool, version: int,
    createdAt: Time, updatedAt: Time)

  datatype EventType = ReceivedEvent | StateChanged | TasksQueued | OtherEvent(name: string)

  datatype Payload = Malformed | Payload(schemaVersion: string, state: ResolutionState, version: int)

  datatype Event = Event(
    id: string, tenantId: string, aggregateType: string, aggregateId: string, eventType: EventType,
    payload: Payload, occurredAt: Time)

  const SCHEMA: string := "v1"
  const RESOLUTION: string := "resolution"

  predicate ValidEvent(e: Event)
  {
    e.id != "" && e.tenantId != "" && e.aggregateType != "" && e.aggregateId != "" &&
    e.eventType != OtherEvent("") && e.occurredAt != ZERO
  }

  predicate BoundEvent(e: Event, tenantId: string, resolutionId: string)
  {
    ValidEvent(e) && e.tenantId == tenantId && e.aggregateType == RESOLUTION && e.aggregateId == resolutionId
  }

  /** `resolutionEvent`. */
  function EventFor(eventId: string, eventType: EventType, r: Resolution, at: Time): Event
  {
    Event(eventId, r.tenantId, RESOLUTION, r.id, eventType, Payload(SCHEMA, r.state, r.version), at)
  }

  // ----- The service

  /** `documentValid` is the outcome of the JSON, size and digest checks on the request document. */
  datatype CreateRequest = CreateRequest(
    actorId: string, tenantId: string, idempotencyKey: string, requestDigest: string, requestDocument: string,
    documentValid: bool)

  const MAXIMUM_KEY: nat := 128

  predicate ValidCreate(q: CreateRequest)
  {
    && q.actorId != "" && q.tenantId != "" && q.idempotencyKey != "" && q.requestDigest != ""
    && q.requestDocument != "" && |q.idempotencyKey| <= MAXIMUM_KEY && |q.requestDigest| <= MAXIMUM_KEY
    && q.documentValid
  }

  /** The resolution and event `Service.Create` hands to its repository. */
  function NewResolution(q: CreateRequest, id: string, now: Time): Resolution
  {
    Resolution(id, q.actorId, q.tenantId, q.idempotencyKey, q.requestDigest, q.requestDocument, Received, 0, false,
               1, now, now)
  }

  datatype TransitionRequest = TransitionRequest(
    tenantId: string, resolutionId: string, expectedVersion: int, nextState: ResolutionState)

  /** What `Service.Transition` hands to its repository after reading `current`. */
  datatype Prepared = Prepared(
    tenantId: string, resolutionId: string, expectedVersion: int, expectedState: ResolutionState,
    next: ResolutionState, at: Time, event: Event)

  function Advance(r: Resolution, next: ResolutionState, at: Time): Resolution
  {
    r.(state := next, completed := next.Terminal(), version := r.version + 1, updatedAt := at)
  }

  /** The part of `Service.Transition` between its read and its write. */
  function Prepare(current: Resolution, q: TransitionRequest, now: Time, eventId: string)
    : Result<Prepared, ResolutionError>
  {
    if q.tenantId == "" || q.resolutionId == "" || q.expectedVersion <= 0 then Failure(InvalidInput)
    else if current.tenantId != q.tenantId || current.id != q.resolutionId then Failure(NotFound)
    else if current.version != q.expectedVersion then Failure(VersionConflict)
    else match ValidateTransition(current.state, q.nextState)
      case Fail(e) => Failure(e)
      case Pass =>
        Success(Prepared(q.tenantId, q.resolutionId, q.expectedVersion, current.state, q.nextState, now,
                         EventFor(eventId, StateChanged, Advance(current, q.nextState, now), now)))
  }

  // ----- Watch events

  datatype WatchEvent = WatchEvent(cursor: int, eventType: EventType, state: ResolutionState, occurredAt: Time)

  /** `safeWatchEvent`: the projection of one stored event, or an error. */
  function Project(e: Event): Result<WatchEvent, ResolutionError>
  {
    if e.eventType.OtherEvent? || e.payload.Malformed? then Failure(InvalidEvent)
    else
      var p := e.payload;
      if p.schemaVersion != SCHEMA || p.version <= 0 || e.occurredAt == ZERO then Failure(InvalidEvent)
      else
        var state := if p.state == Other("") && e.eventType.TasksQueued? then Queued else p.state;
        if state.Other? then Failure(InvalidEvent)
        else Success(WatchEvent(p.version, e.eventType, state, e.occurredAt))
  }

  /**
   An event is shown exactly when it is of a known type, dated, of the current schema with a positive version,
   and names a known state; an old queueing event without a state counts as queued.
   */
  lemma ShownExactlyWhen(e: Event)
    ensures Project(e).Success? <==>
            && e.eventType in {ReceivedEvent, StateChanged, TasksQueued} && e.occurredAt > ZERO && e.payload.Payload?
            && e.payload.schemaVersion == "v1" && e.payload.version >= 1
            && (e.payload.state.Other? ==> e.payload.state.text == "" && e.eventType == TasksQueued)
    ensures Project(e).Success? ==>
              Project(e).value == WatchEvent(e.payload.version, e.eventType,
                                             if e.payload.state.Other? then Queued else e.payload.state, e.occurredAt)
  {
  }

  // ----- The log of one resolution

  predicate Concerns(e: Event, tenantId: string, id: string)
  {
    e.tenantId == tenantId && e.aggregateType == RESOLUTION && e.aggregateId == id
  }

  function EventsOf(events: seq<Event>, tenantId: string, id: string): seq<Event>
  {
    if events == [] then []
    else
      var rest := EventsOf(events[..|events| - 1], tenantId, id);
      if Concerns(events[|events| - 1], tenantId, id) then rest + [events[|events| - 1]] else rest
  }

  /** A stored event that the watch can show. */
  predicate Showable(e: Event, version: int)
  {
    && !e.eventType.OtherEvent? && e.payload.Payload? && e.payload.schemaVersion == SCHEMA
    && e.payload.version == version && !e.payload.state.Other? && e.occurredAt != ZERO
  }

  /** Distance of an unfinished state from the start, counted as versions. */
  function Rank(s: ResolutionState): nat
  {
    match s
    case Received => 1
    case ResolvingTargets => 2
    case Planning => 3
    case Queued => 4
    case _ => 5
  }

  /** The event log tells exactly how the resolution got where it is. */
  predicate HistoryOk(r: Resolution, es: seq<Event>)
  {
    && r.version == |es| && 1 <= |es| <= Rank(r.state) && !r.state.Other?
    && (!r.state.Terminal() ==> |es| == Rank(r.state))
    && (forall k :: 0 <= k < |es| ==> Showable(es[k], k + 1))
    && es[0].payload.state == Received
    && (forall k {:trigger es[k]} :: 0 < k < |es| ==> Allowed(es[k - 1].payload.state, es[k].payload.state))
    && es[|es| - 1].payload.state == r.state
    && r.completed == r.state.Terminal()
  }

  predicate Told(r: Resolution, id: string, events: seq<Event>)
  {
    r.id == id && HistoryOk(r, EventsOf(events, r.tenantId, id))
  }

  predicate LogOk(resolutions: map<string, Resolution>, events: seq<Event>)
  {
    && (forall id :: id in resolutions ==> Told(resolutions[id], id, events))
    && (forall k :: 0 <= k < |events| && events[k].aggregateType == RESOLUTION ==>
                      && events[k].aggregateId in resolutions
                      && resolutions[events[k].aggregateId].tenantId == events[k].tenantId)
  }

  lemma EventsOfAppend(events: seq<Event>, e: Event, tenantId: string, id: string)
    ensures EventsOf(events + [e], tenantId, id) ==
            EventsOf(events, tenantId, id) + if Concerns(e, tenantId, id) then [e] else []
  {
    assert (events + [e])[..|events|] == events;
  }

  lemma {:induction false} NoEventsOfUnknown(events: seq<Event>, tenantId: string, id: string)
    requires forall k :: 0 <= k < |events| ==> !Concerns(events[k], tenantId, id)
    ensures EventsOf(events, tenantId, id) == []
  {
    if events != [] {
      NoEventsOfUnknown(events[..|events| - 1], tenantId, id);
    }
  }

  /** Every transition of the graph adds one to the rank or ends the workflow. */
  lemma AllowedRanks(current: ResolutionState, next: ResolutionState)
    requires Allowed(current, next)
    ensures !current.Terminal() && !current.Other? && !next.Other?
    ensures next.Terminal() || Rank(next) == Rank(current) + 1
    ensures Rank(current) < Rank(next) <= 5
  {
  }

  lemma HistoryExtends(r: Resolution, es: seq<Event>, next: Resolution, e: Event)
    requires HistoryOk(r, es) && Allowed(r.state, next.state) && Showable(e, r.version + 1)
    requires e.payload.state == next.state && next.version == r.version + 1
    requires next.completed == next.state.Terminal()
    ensures HistoryOk(next, es + [e])
  {
    AllowedRanks(r.state, next.state);
    var all := es + [e];
    forall k | 0 <= k < |all| ensures Showable(all[k], k + 1) {
      assert k < |es| ==> all[k] == es[k];
    }
    forall k {:trigger all[k]} | 0 < k < |all| ensures Allowed(all[k - 1].payload.state, all[k].payload.state) {
      assert k < |es| ==> all[k] == es[k] && all[k - 1] == es[k - 1];
    }
  }

  lemma HistoryStarts(r: Resolution, e: Event)
    requires r.state == Received && r.version == 1 && !r.completed && Showable(e, 1) && e.payload.state == Received
    ensures HistoryOk(r, [e])
  {
  }

  /** An event of another resolution is not part of this one's log. */
  lemma ToldStill(r: Resolution, id: string, events: seq<Event>, e: Event)
    requires Told(r, id, events) && !Concerns(e, r.tenantId, id)
    ensures Told(r, id, events + [e])
  {
    EventsOfAppend(events, e, r.tenantId, id);
    assert EventsOf(events, r.tenantId, id) + [] == EventsOf(events, r.tenantId, id);
  }

  /** Storing a new resolution with its first event keeps the log. */
  lemma LogGainsResolution(resolutions: map<string, Resolution>, events: seq<Event>, r: Resolution, e: Event)
    requires LogOk(resolutions, events) && r.id !in resolutions
    requires r.state == Received && r.version == 1 && !r.completed
    requires BoundEvent(e, r.tenantId, r.id) && Showable(e, 1) && e.payload.state == Received
    ensures LogOk(resolutions[r.id := r], events + [e])
  {
    var after := resolutions[r.id := r];
    forall id | id in after ensures Told(after[id], id, events + [e]) {
      if id == r.id {
        NoEventsOfUnknown(events, r.tenantId, r.id);
        EventsOfAppend(events, e, r.tenantId, id);
        HistoryStarts(r, e);
        assert EventsOf(events + [e], r.tenantId, id) == [e];
      } else {
        ToldStill(resolutions[id], id, events, e);
      }
    }
  }

  /** Replacing a resolution by a successor with its event keeps the log. */
  lemma LogGainsTransition(resolutions: map<string, Resolution>, events: seq<Event>, next: Resolution, e: Event)
    requires LogOk(resolutions, events) && next.id in resolutions
    requires var r := resolutions[next.id];
             && next.tenantId == r.tenantId && Allowed(r.state, next.state) && next.version == r.version + 1
             && next.completed == next.state.Terminal()
             && BoundEvent(e, r.tenantId, r.id) && Showable(e, r.version + 1) && e.payload.state == next.state
    ensures LogOk(resolutions[next.id := next], events + [e])
  {
    var after := resolutions[next.id := next];
    forall id | id in after ensures Told(after[id], id, events + [e]) {
      var r := resolutions[id];
      if id == next.id {
        assert Told(r, id, events);
        HistoryExtends(r, EventsOf(events, r.tenantId, id), next, e);
        EventsOfAppend(events, e, r.tenantId, id);
      } else {
        ToldStill(r, id, events, e);
      }
    }
  }
}
