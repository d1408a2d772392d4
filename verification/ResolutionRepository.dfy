/**
 The in-memory resolution repository (internal/resolution/memory_repository.go), which commits state
 and event together, and the page of events it lists.
 */
module ResolutionRepository {
  import opened Wrappers
  import opened Clock
  import opened Text
  import opened Resolution

  datatype IdempotencyRecord = IdempotencyRecord(requestDigest: string, resolutionId: string)

  /** `validateNewResolution`; `documentValid` is the outcome of the checks on the request document. */
  predicate ValidNew(r: Resolution, e: Event, documentValid: bool)
  {
    && r.id != ""
    && ValidCreate(CreateRequest(r.actorId, r.tenantId, r.idempotencyKey, r.requestDigest, r.requestDocument,
                                 documentValid))
    && r.state == Received && r.version == 1 && !r.completed
    && r.createdAt != ZERO && r.updatedAt >= r.createdAt
    && BoundEvent(e, r.tenantId, r.id)
  }

  const MAXIMUM_PAGE: nat := 100

  predicate ValidWatch(tenantId: string, id: string, after: int, limit: int)
  {
    tenantId != "" && id != "" && after >= 0 && 0 < limit <= MAXIMUM_PAGE
  }

  /** The first `limit` events after a cursor; an unreadable event before them is an error. */
  function Page(es: seq<Event>, after: int, limit: nat): Result<seq<WatchEvent>, ResolutionError>
  {
    if es == [] || limit == 0 then Success([])
    else match Project(es[0])
      case Failure(err) => Failure(err)
      case Success(w) =>
        if w.cursor <= after then Page(es[1..], after, limit)
        else match Page(es[1..], after, limit - 1)
          case Failure(err) => Failure(err)
          case Success(ws) => Success([w] + ws)
  }

  function Prepend(ws: seq<WatchEvent>, r: Result<seq<WatchEvent>, ResolutionError>)
    : Result<seq<WatchEvent>, ResolutionError>
  {
    match r
    case Failure(err) => Failure(err)
    case Success(more) => Success(ws + more)
  }

  lemma {:induction false} EventsOfSplit(a: seq<Event>, b: seq<Event>, tenantId: string, id: string)
    ensures EventsOf(a + b, tenantId, id) == EventsOf(a, tenantId, id) + EventsOf(b, tenantId, id)
  {
    if b == [] {
      assert a + b == a;
    } else {
      var n := |b| - 1;
      EventsOfSplit(a, b[..n], tenantId, id);
      assert a + b == (a + b[..n]) + [b[n]];
      EventsOfAppend(a + b[..n], b[n], tenantId, id);
    }
  }

  lemma EventsOfFirst(events: seq<Event>, tenantId: string, id: string)
    requires events != []
    ensures EventsOf(events, tenantId, id) ==
            (if Concerns(events[0], tenantId, id) then [events[0]] else []) + EventsOf(events[1..], tenantId, id)
  {
    assert events == [events[0]] + events[1..];
    EventsOfSplit([events[0]], events[1..], tenantId, id);
  }

  lemma PrependNothing(r: Result<seq<WatchEvent>, ResolutionError>)
    ensures Prepend([], r) == r
  {
    assert r.Success? ==> [] + r.value == r.value;
  }

  /** One iteration of the listing loop. */
  lemma PageStep(events: seq<Event>, i: nat, tenantId: string, id: string, after: int, limit: nat,
                 ws: seq<WatchEvent>)
    requires i < |events| && limit > 0
    ensures var here := Prepend(ws, Page(EventsOf(events[i..], tenantId, id), after, limit));
            var rest := EventsOf(events[i + 1..], tenantId, id);
            if !Concerns(events[i], tenantId, id) then here == Prepend(ws, Page(rest, after, limit))
            else match Project(events[i])
              case Failure(err) => here == Failure(err)
              case Success(w) =>
                if w.cursor <= after then here == Prepend(ws, Page(rest, after, limit))
                else && here == Prepend(ws + [w], Page(rest, after, limit - 1))
                     && (limit == 1 ==> here == Success(ws + [w]))
  {
    EventsOfFirst(events[i..], tenantId, id);
    assert events[i..][1..] == events[i + 1..];
    var rest := EventsOf(events[i + 1..], tenantId, id);
    if Concerns(events[i], tenantId, id) {
      assert ([events[i]] + rest)[1..] == rest;
      var p := Project(events[i]);
      if p.Success? && p.value.cursor > after && Page(rest, after, limit - 1).Success? {
        var more := Page(rest, after, limit - 1).value;
        assert ws + ([p.value] + more) == (ws + [p.value]) + more;
        assert limit == 1 ==> ws + [p.value] + [] == ws + [p.value];
      }
    } else {
      assert [] + rest == rest;
    }
  }

  class MemoryRepository {
    var resolutions: map<string, Resolution>
    var idempotency: map<string, IdempotencyRecord>
    var events: seq<Event>

    /** Idempotency records point at stored resolutions. */
    ghost predicate Valid()
      reads this
    {
      forall key :: key in idempotency ==> idempotency[key].resolutionId in resolutions
    }

    constructor ()
      ensures Valid() && resolutions == map[] && events == [] && LogOk(resolutions, events)
    {
      resolutions, idempotency, events := map[], map[], [];
    }

    method Create(r: Resolution, e: Event, documentValid: bool) returns (res: Result<(Resolution, bool), ResolutionError>)
      requires Valid()
      modifies this
      ensures Valid()
      ensures LogOk(old(resolutions), old(events)) && Showable(e, 1) && e.payload.state == Received ==>
                LogOk(resolutions, events)
      ensures var key := ScopedKey(r.tenantId, r.actorId, r.idempotencyKey);
              if ValidNew(r, e, documentValid) && key !in old(idempotency) && r.id !in old(resolutions) then
                && res == Success((r, true))
                && resolutions == old(resolutions)[r.id := r]
                && events == old(events) + [e]
                && idempotency == old(idempotency)[key := IdempotencyRecord(r.requestDigest, r.id)]
              else
                && resolutions == old(resolutions) && events == old(events) && idempotency == old(idempotency)
                && (if ValidNew(r, e, documentValid) && key in old(idempotency)
                       && old(idempotency)[key].requestDigest == r.requestDigest
                    then res == Success((resolutions[old(idempotency)[key].resolutionId], false))
                    else res.Failure?)
    {
      if !ValidNew(r, e, documentValid) {
        return Failure(InvalidInput);
      }
      var key := ScopedKey(r.tenantId, r.actorId, r.idempotencyKey);
      if key in idempotency {
        var record := idempotency[key];
        if record.requestDigest != r.requestDigest {
          return Failure(IdempotencyConflict);
        }
        return Success((resolutions[record.resolutionId], false));
      }
      if r.id in resolutions {
        return Failure(VersionConflict);
      }
      if LogOk(resolutions, events) && Showable(e, 1) && e.payload.state == Received {
        LogGainsResolution(resolutions, events, r, e);
      }
      resolutions := resolutions[r.id := r];
      idempotency := idempotency[key := IdempotencyRecord(r.requestDigest, r.id)];
      events := events + [e];
      return Success((r, true));
    }

    method Transition(p: Prepared) returns (res: Result<Resolution, ResolutionError>)
      requires Valid()
      modifies this
      ensures Valid()
      ensures && LogOk(old(resolutions), old(events))
              && Showable(p.event, p.expectedVersion + 1) && p.event.payload.state == p.next ==>
                LogOk(resolutions, events)
      ensures res.Success? <==> CompareAndSet(old(resolutions), p)
      ensures res.Success? ==>
                && res.value == Advance(old(resolutions)[p.resolutionId], p.next, p.at)
                && resolutions == old(resolutions)[p.resolutionId := res.value] && events == old(events) + [p.event]
      ensures res.Failure? ==> resolutions == old(resolutions) && events == old(events)
      ensures idempotency == old(idempotency)
    {
      if p.resolutionId !in resolutions || resolutions[p.resolutionId].tenantId != p.tenantId {
        return Failure(NotFound);
      }
      var r := resolutions[p.resolutionId];
      if r.version != p.expectedVersion || r.state != p.expectedState {
        return Failure(VersionConflict);
      }
      var valid := ValidateTransition(p.expectedState, p.next);
      if valid.Fail? {
        return Failure(valid.error);
      }
      if p.at == ZERO || p.at < r.updatedAt {
        return Failure(ClockWentBack);
      }
      if !BoundEvent(p.event, p.tenantId, p.resolutionId) {
        return Failure(InvalidEvent);
      }
      r := r.(state := p.next);
      r := r.(completed := p.next.Terminal());
      r := r.(version := r.version + 1);
      r := r.(updatedAt := p.at);
      if && LogOk(resolutions, events)
         && Showable(p.event, p.expectedVersion + 1) && p.event.payload.state == p.next {
        assert Told(resolutions[p.resolutionId], p.resolutionId, events);
        LogGainsTransition(resolutions, events, r, p.event);
      }
      resolutions := resolutions[p.resolutionId := r];
      events := events + [p.event];
      return Success(r);
    }

    method ListEvents(tenantId: string, id: string, after: int, limit: int)
      returns (res: Result<seq<WatchEvent>, ResolutionError>)
      ensures tenantId == "" || id == "" || after < 0 || limit <= 0 || limit > 100 ==> res == Failure(InvalidInput)
      ensures tenantId != "" && id != "" && 0 <= after && 0 < limit <= 100 ==>
                res == if id !in resolutions || resolutions[id].tenantId != tenantId then Failure(NotFound)
                       else Page(EventsOf(events, tenantId, id), after, limit)
    {
      if !ValidWatch(tenantId, id, after, limit) {
        return Failure(InvalidInput);
      }
      if id !in resolutions || resolutions[id].tenantId != tenantId {
        return Failure(NotFound);
      }
      var ws: seq<WatchEvent> := [];
      assert events[0..] == events;
      PrependNothing(Page(EventsOf(events, tenantId, id), after, limit));
      for i := 0 to |events|
        invariant |ws| < limit
        invariant Page(EventsOf(events, tenantId, id), after, limit) ==
                  Prepend(ws, Page(EventsOf(events[i..], tenantId, id), after, limit - |ws|))
      {
        PageStep(events, i, tenantId, id, after, limit - |ws|, ws);
        var e := events[i];
        if e.tenantId != tenantId || e.aggregateType != RESOLUTION || e.aggregateId != id {
          continue;
        }
        var projected := Project(e);
        if projected.Failure? {
          return Failure(projected.error);
        }
        if projected.value.cursor <= after {
          continue;
        }
        ws := ws + [projected.value];
        if |ws| == limit {
          return Success(ws);
        }
      }
      assert ws + [] == ws;
      return Success(ws);
    }
  }

  /** When a prepared transition is applied. */
  predicate CompareAndSet(resolutions: map<string, Resolution>, p: Prepared)
  {
    && p.resolutionId in resolutions
    && var r := resolutions[p.resolutionId];
       && r.tenantId == p.tenantId && r.version == p.expectedVersion && r.state == p.expectedState
       && Allowed(r.state, p.next) && p.at != ZERO && r.updatedAt <= p.at
       && BoundEvent(p.event, p.tenantId, p.resolutionId)
  }
}
