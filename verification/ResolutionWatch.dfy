/**
 Watching a resolution: both listings of its events (internal/resolution/memory_repository.go and
 postgres_repository.go) and the event stream built on them
 (cmd/controlplane/resolution_watch_handlers.go), over any number of polls and reconnections.
 */
module ResolutionWatch {
  import opened Wrappers
  import opened Resolution
  import opened ResolutionRepository
  import ResolutionWorkflow

  function View(e: Event): WatchEvent
    requires e.payload.Payload?
  {
    WatchEvent(e.payload.version, e.eventType, e.payload.state, e.occurredAt)
  }

  lemma ShowableIsProjected(e: Event, version: int)
    requires Showable(e, version) && version > 0
    ensures Project(e) == Success(View(e)) && View(e).cursor == version
  {
  }

  /** A readable history: the `k`th event carries version `k + 1`, and nothing follows a terminal state. */
  predicate Readable(es: seq<Event>)
  {
    && (forall k :: 0 <= k < |es| ==> Showable(es[k], k + 1))
    && (forall k :: 0 <= k < |es| - 1 ==> !es[k].payload.state.Terminal())
  }

  /** The whole stream a resolution's events stand for: one watch event per version. */
  function Projection(es: seq<Event>): seq<WatchEvent>
    requires Readable(es)
  {
    seq(|es|, k requires 0 <= k < |es| => View(es[k]))
  }

  predicate Stream(ws: seq<WatchEvent>)
  {
    && (forall k :: 0 <= k < |ws| ==> ws[k].cursor == k + 1)
    && (forall k :: 0 <= k < |ws| - 1 ==> !ws[k].state.Terminal())
  }

  lemma ProjectionIsStream(es: seq<Event>)
    requires Readable(es)
    ensures Stream(Projection(es)) && |Projection(es)| == |es|
  {
  }

  lemma HistoryIsReadable(r: Resolution, es: seq<Event>)
    requires HistoryOk(r, es)
    ensures Readable(es)
  {
    forall k | 0 <= k < |es| - 1
      ensures !es[k].payload.state.Terminal()
    {
      assert Allowed(es[k + 1 - 1].payload.state, es[k + 1].payload.state);
    }
  }

  function Min(a: nat, b: nat): nat
  {
    if a < b then a else b
  }

  /** What a listing should return: at most `limit` entries, starting right after the cursor. */
  function Slice<T>(ws: seq<T>, after: nat, limit: nat): seq<T>
  {
    if after <= |ws| then ws[after..Min(after + limit, |ws|)] else []
  }

  lemma SliceCons<T>(ws: seq<T>, i: nat, limit: nat)
    requires i < |ws| && limit > 0
    ensures Slice(ws, i, limit) == [ws[i]] + Slice(ws, i + 1, limit - 1)
  {
  }

  lemma SliceTake<T>(ws: seq<T>, after: nat, limit: nat, capacity: nat)
    ensures var batch := Slice(ws, after, limit);
            batch[..Min(|batch|, capacity)] == Slice(ws, after, Min(limit, capacity))
  {
  }

  lemma DropTake<T>(ws: seq<T>, after: nat, limit: nat)
    ensures var rest := if after <= |ws| then ws[after..] else [];
            rest[..Min(limit, |rest|)] == Slice(ws, after, limit)
  {
  }

  // ----- The in-memory listing

  lemma PageFirst(es: seq<Event>, i: nat, after: nat, limit: nat)
    requires Readable(es) && i < |es| && limit > 0
    ensures var here := Page(es[i..], after, limit);
            if i < after then here == Page(es[i + 1..], after, limit)
            else here == Prepend([Projection(es)[i]], Page(es[i + 1..], after, limit - 1))
  {
    ShowableIsProjected(es[i], i + 1);
    assert es[i..][0] == es[i] && es[i..][1..] == es[i + 1..];
  }

  lemma SliceEmpty<T>(ws: seq<T>, after: nat, limit: nat)
    requires after >= |ws| || limit == 0
    ensures Slice(ws, after, limit) == []
  {
  }

  lemma {:induction false} PageFrom(es: seq<Event>, i: nat, after: nat, limit: nat)
    requires Readable(es) && i <= |es|
    ensures Page(es[i..], after, limit) == Success(Slice(Projection(es), if i < after then after else i, limit))
    decreases |es| - i
  {
    var ws := Projection(es);
    if i == |es| || limit == 0 {
      SliceEmpty(ws, if i < after then after else i, limit);
    } else {
      PageFirst(es, i, after, limit);
      if i < after {
        PageFrom(es, i + 1, after, limit);
      } else {
        PageFrom(es, i + 1, after, limit - 1);
        SliceCons(ws, i, limit);
      }
    }
  }

  /** The in-memory listing answers with exactly the next events. */
  lemma MemoryListing(es: seq<Event>, after: nat, limit: nat)
    requires Readable(es)
    ensures Page(es, after, limit) == Success(Slice(Projection(es), after, limit))
  {
    assert es[0..] == es;
    PageFrom(es, 0, after, limit);
  }

  // ----- The SQL listing

  /** `WHERE (payload->>'version')::bigint > after`, with the three known event types. */
  function Matching(es: seq<Event>, after: int): seq<Event>
  {
    if es == [] then []
    else
      var e := es[|es| - 1];
      Matching(es[..|es| - 1], after) +
      if !e.eventType.OtherEvent? && e.payload.Payload? && e.payload.version > after then [e] else []
  }

  predicate Ordered(rows: seq<Event>)
  {
    && (forall i :: 0 <= i < |rows| ==> rows[i].payload.Payload?)
    && (forall i, j :: 0 <= i < j < |rows| ==> rows[i].payload.version <= rows[j].payload.version)
  }

  /** `ORDER BY version LIMIT limit`: the first rows of any order the database may choose. */
  ghost predicate Selected(es: seq<Event>, after: int, limit: nat, rows: seq<Event>)
  {
    exists order: seq<Event> {:trigger Ordered(order)} ::
      && multiset(order) == multiset(Matching(es, after)) && Ordered(order)
      && rows == order[..Min(limit, |order|)]
  }

  lemma RangeGrows<T>(s: seq<T>, a: nat, n: nat)
    requires n < |s|
    ensures (if a <= n then s[a..n] else []) + (if n >= a then [s[n]] else []) == if a <= n + 1 then s[a..n + 1] else []
  {
  }

  lemma MatchingLast(es: seq<Event>, after: nat, n: nat)
    requires Readable(es) && n < |es|
    ensures Matching(es[..n + 1], after) == Matching(es[..n], after) + if n >= after then [es[n]] else []
  {
    assert es[..n + 1][..n] == es[..n];
    assert Showable(es[n], n + 1);
  }

  lemma {:induction false} MatchingReadable(es: seq<Event>, after: nat, n: nat)
    requires Readable(es) && n <= |es|
    ensures Matching(es[..n], after) == if after <= n then es[after..n] else []
  {
    if n > 0 {
      MatchingReadable(es, after, n - 1);
      MatchingLast(es, after, n - 1);
      RangeGrows(es, after, n - 1);
    }
  }

  /** A sequence whose versions strictly increase is its own only ordering. */
  lemma {:induction false} OnlyOrder(es: seq<Event>, order: seq<Event>)
    requires Ordered(es) && Ordered(order) && multiset(order) == multiset(es)
    requires forall i, j :: 0 <= i < j < |es| ==> es[i].payload.version < es[j].payload.version
    ensures order == es
  {
    assert |multiset(order)| == |multiset(es)|;
    if es != [] {
      SameFirst(es, order);
      SameRest(es, order);
      OnlyOrder(es[1..], order[1..]);
    }
  }

  lemma SameRest<T>(a: seq<T>, b: seq<T>)
    requires a != [] && b != [] && a[0] == b[0] && multiset(a) == multiset(b)
    ensures multiset(a[1..]) == multiset(b[1..])
  {
    assert a == [a[0]] + a[1..] && b == [b[0]] + b[1..];
    assert multiset(a[1..]) == multiset(a) - multiset{a[0]};
    assert multiset(b[1..]) == multiset(b) - multiset{b[0]};
  }

  lemma SameFirst(es: seq<Event>, order: seq<Event>)
    requires es != [] && order != []
    requires Ordered(es) && Ordered(order) && multiset(order) == multiset(es)
    requires forall i, j :: 0 <= i < j < |es| ==> es[i].payload.version < es[j].payload.version
    ensures order[0] == es[0]
  {
    assert es[0] in multiset(order) && order[0] in multiset(es);
    var i :| 0 <= i < |order| && order[i] == es[0];
    var j :| 0 <= j < |es| && es[j] == order[0];
    assert es[0].payload.version >= order[0].payload.version;
  }

  lemma MatchingIsOrdered(es: seq<Event>, after: nat)
    requires Readable(es)
    ensures var rest := if after <= |es| then es[after..] else [];
            && Matching(es, after) == rest && Ordered(rest)
            && forall i, j :: 0 <= i < j < |rest| ==> rest[i].payload.version < rest[j].payload.version
  {
    assert es[..|es|] == es;
    MatchingReadable(es, after, |es|);
    assert after <= |es| ==> es[after..|es|] == es[after..];
  }

  lemma SelectedRows(es: seq<Event>, after: nat, limit: nat, order: seq<Event>)
    requires Readable(es) && multiset(order) == multiset(Matching(es, after)) && Ordered(order)
    ensures order[..Min(limit, |order|)] == Slice(es, after, limit)
  {
    assert order == (if after <= |es| then es[after..] else []) by {
      MatchingIsOrdered(es, after);
      OnlyOrder(Matching(es, after), order);
    }
    DropTake(es, after, limit);
  }

  /** The SQL listing selects exactly the next events, whatever order the database breaks ties in. */
  lemma SqlListing(es: seq<Event>, after: nat, limit: nat, rows: seq<Event>)
    requires Readable(es) && Selected(es, after, limit, rows)
    ensures rows == Slice(es, after, limit)
  {
    var order: seq<Event> :| && multiset(order) == multiset(Matching(es, after)) && Ordered(order)
                             && rows == order[..Min(limit, |order|)];
    SelectedRows(es, after, limit, order);
  }

  /** So the two listings return the same watch events. */
  lemma SqlProjection(es: seq<Event>, after: nat, limit: nat, k: nat)
    requires Readable(es) && k < |Slice(es, after, limit)|
    ensures |Slice(Projection(es), after, limit)| == |Slice(es, after, limit)|
    ensures Project(Slice(es, after, limit)[k]) == Success(Slice(Projection(es), after, limit)[k])
  {
    ShowableIsProjected(es[after + k], after + k + 1);
  }

  // ----- Writing one batch

  datatype Ending = Open | Finished | Broken

  /** What reaches the client of one batch when the connection carries `capacity` more events. */
  function Written(cursor: int, ws: seq<WatchEvent>, capacity: nat): (seq<WatchEvent>, Ending)
    decreases |ws|
  {
    if ws == [] then ([], Open)
    else if ws[0].cursor <= cursor || capacity == 0 then ([], Broken)
    else if ws[0].state.Terminal() then ([ws[0]], Finished)
    else
      var (more, ending) := Written(ws[0].cursor, ws[1..], capacity - 1);
      ([ws[0]] + more, ending)
  }

  function LastCursor(cursor: int, out: seq<WatchEvent>): int
  {
    if out == [] then cursor else out[|out| - 1].cursor
  }

  /** What has been written so far, and what writing the rest adds to it. */
  function Continued(out: seq<WatchEvent>, cursor: int, ws: seq<WatchEvent>, capacity: nat): (seq<WatchEvent>, Ending)
  {
    (out + Written(cursor, ws, capacity).0, Written(cursor, ws, capacity).1)
  }

  /** One iteration of the writing loop. */
  lemma WrittenStep(out: seq<WatchEvent>, cursor: int, ws: seq<WatchEvent>, i: nat, capacity: nat)
    requires i < |ws|
    ensures var here := Continued(out, cursor, ws[i..], capacity);
            if ws[i].cursor <= cursor || capacity == 0 then here == (out, Broken)
            else if ws[i].state.Terminal() then here == (out + [ws[i]], Finished)
            else here == Continued(out + [ws[i]], ws[i].cursor, ws[i + 1..], capacity - 1)
  {
    assert ws[i..][0] == ws[i] && ws[i..][1..] == ws[i + 1..];
    assert out + [] == out;
    if ws[i].cursor > cursor && capacity > 0 {
      var more := Written(ws[i].cursor, ws[i + 1..], capacity - 1).0;
      assert out + ([ws[i]] + more) == (out + [ws[i]]) + more;
    }
  }

  /** `writeResolutionWatchEvents`. */
  method WriteEvents(cursor: int, ws: seq<WatchEvent>, capacity: nat)
    returns (out: seq<WatchEvent>, next: int, terminal: bool, ok: bool)
    ensures out == Written(cursor, ws, capacity).0 && next == LastCursor(cursor, out)
    ensures ok == !Written(cursor, ws, capacity).1.Broken? && terminal == Written(cursor, ws, capacity).1.Finished?
  {
    out, next := [], cursor;
    ghost var target := Written(cursor, ws, capacity);
    assert ws[0..] == ws && [] + target.0 == target.0;
    for i := 0 to |ws|
      invariant |out| == i <= capacity && next == LastCursor(cursor, out)
      invariant Continued(out, next, ws[i..], capacity - i) == target
    {
      WrittenStep(out, next, ws, i, capacity - i);
      if ws[i].cursor <= next {
        return out, next, false, false;
      }
      if |out| == capacity {
        return out, next, false, false;
      }
      out := out + [ws[i]];
      next := ws[i].cursor;
      if ws[i].state.Terminal() {
        return out, next, true, true;
      }
    }
    assert ws[|ws|..] == [] && out + [] == out;
    return out, next, false, true;
  }

  /** A batch that continues the cursor is written in order, up to the capacity, and ends exactly at the terminal event. */
  lemma {:induction false} WrittenInOrder(cursor: int, batch: seq<WatchEvent>, capacity: nat)
    requires forall k :: 0 <= k < |batch| ==> batch[k].cursor == cursor + k + 1
    requires forall k :: 0 <= k < |batch| - 1 ==> !batch[k].state.Terminal()
    ensures Written(cursor, batch, capacity).0 == batch[..Min(|batch|, capacity)]
    ensures var out := batch[..Min(|batch|, capacity)];
            Written(cursor, batch, capacity).1.Finished? <==> out != [] && out[|out| - 1].state.Terminal()
    decreases |batch|
  {
    if batch != [] && capacity > 0 {
      if batch[0].state.Terminal() {
        assert batch[..Min(|batch|, capacity)] == [batch[0]];
      } else {
        var rest := batch[1..];
        WrittenInOrder(batch[0].cursor, rest, capacity - 1);
        assert batch[..Min(|batch|, capacity)] == [batch[0]] + rest[..Min(|rest|, capacity - 1)];
      }
    }
  }

  lemma WrittenSlice(ws: seq<WatchEvent>, after: nat, limit: nat, capacity: nat)
    requires Stream(ws)
    ensures var out := Slice(ws, after, Min(limit, capacity));
            && Written(after, Slice(ws, after, limit), capacity).0 == out
            && (Written(after, Slice(ws, after, limit), capacity).1.Finished? <==>
                out != [] && out[|out| - 1].state.Terminal())
  {
    var batch := Slice(ws, after, limit);
    WrittenInOrder(after, batch, capacity);
    SliceTake(ws, after, limit, capacity);
  }

  // ----- Whole watches

  /** One listing and its write: the events stored at that moment and what the connection still carries. */
  datatype Poll = Poll(events: seq<Event>, limit: nat, capacity: nat)

  /** What the client holds; it reconnects with the cursor of the last event it received. */
  datatype Client = Client(cursor: int, received: seq<WatchEvent>, finished: bool)

  function Step(c: Client, p: Poll): Client
  {
    if c.finished then c
    else match Page(p.events, c.cursor, p.limit)
      case Failure(_) => c
      case Success(ws) =>
        var (out, ending) := Written(c.cursor, ws, p.capacity);
        Client(LastCursor(c.cursor, out), c.received + out, ending.Finished?)
  }

  function Watch(start: nat, polls: seq<Poll>): Client
  {
    if polls == [] then Client(start, [], false) else Step(Watch(start, polls[..|polls| - 1]), polls[|polls| - 1])
  }

  /** The log only grows between polls. */
  predicate Growing(polls: seq<Poll>)
  {
    && (forall k :: 0 <= k < |polls| ==> Readable(polls[k].events))
    && (forall j, k :: 0 <= j <= k < |polls| ==> polls[j].events <= polls[k].events)
  }

  /** What a client that started at `start` holds is the unbroken stretch after `start`, and no more. */
  predicate Exact(c: Client, start: nat, ws: seq<WatchEvent>)
  {
    && c.cursor == start + |c.received|
    && (c.received != [] ==> c.cursor <= |ws| && c.received == ws[start..c.cursor])
    && (c.finished <==> c.received != [] && c.received[|c.received| - 1].state.Terminal())
  }

  lemma ExactLater(c: Client, start: nat, es: seq<Event>, later: seq<Event>)
    requires Readable(es) && Readable(later) && es <= later && Exact(c, start, Projection(es))
    ensures Exact(c, start, Projection(later))
  {
    if c.received != [] {
      assert Projection(later)[..|es|] == Projection(es);
      assert Projection(later)[start..c.cursor] == Projection(es)[start..c.cursor];
    }
  }

  lemma Adjacent<T>(ws: seq<T>, a: nat, b: nat, c: nat)
    requires a <= b <= c <= |ws|
    ensures ws[a..b] + ws[b..c] == ws[a..c]
  {
  }

  lemma DeliveredIsExact(c: Client, start: nat, ws: seq<WatchEvent>, out: seq<WatchEvent>, room: nat)
    requires Stream(ws) && Exact(c, start, ws) && !c.finished && out == Slice(ws, c.cursor, room)
    ensures Exact(Client(LastCursor(c.cursor, out), c.received + out, out != [] && out[|out| - 1].state.Terminal()),
                  start, ws)
  {
    if out == [] {
      assert c.received + out == c.received;
    } else {
      assert out[|out| - 1] == ws[c.cursor + |out| - 1];
      Adjacent(ws, start, c.cursor, c.cursor + |out|);
    }
  }

  lemma StepDelivers(c: Client, p: Poll)
    requires Readable(p.events) && !c.finished && c.cursor >= 0
    ensures var out := Slice(Projection(p.events), c.cursor, Min(p.limit, p.capacity));
            Step(c, p) == Client(LastCursor(c.cursor, out), c.received + out,
                                 out != [] && out[|out| - 1].state.Terminal())
  {
    ProjectionIsStream(p.events);
    MemoryListing(p.events, c.cursor, p.limit);
    WrittenSlice(Projection(p.events), c.cursor, p.limit, p.capacity);
  }

  lemma StepIsExact(c: Client, start: nat, p: Poll)
    requires Readable(p.events) && Exact(c, start, Projection(p.events))
    ensures Exact(Step(c, p), start, Projection(p.events))
    ensures !c.finished ==>
              Step(c, p).received == c.received + Slice(Projection(p.events), c.cursor, Min(p.limit, p.capacity))
  {
    if !c.finished {
      var ws, room := Projection(p.events), Min(p.limit, p.capacity);
      ProjectionIsStream(p.events);
      DeliveredIsExact(c, start, ws, Slice(ws, c.cursor, room), room);
      StepDelivers(c, p);
    }
  }

  /**
   Whatever the page sizes, dropped connections and concurrent writes, a client that resumes from the
   last event it received gets every event after its starting cursor once, in version order, and its
   watch is over exactly when it has received the terminal event.
   */
  lemma {:induction false} WatchIsExact(start: nat, polls: seq<Poll>)
    requires polls != [] && Growing(polls)
    ensures Exact(Watch(start, polls), start, Projection(polls[|polls| - 1].events))
  {
    var n := |polls| - 1;
    var c := Watch(start, polls[..n]);
    if n == 0 {
      assert polls[..n] == [];
    } else {
      WatchIsExact(start, polls[..n]);
      ExactLater(c, start, polls[n - 1].events, polls[n].events);
    }
    StepIsExact(c, start, polls[n]);
  }

  const BATCH: nat := 100

  lemma HistoryEnd(r: Resolution, es: seq<Event>)
    requires HistoryOk(r, es)
    ensures Readable(es) && 1 <= |es| == r.version <= 5
    ensures Projection(es)[|es| - 1].state.Terminal() == r.completed
  {
    HistoryIsReadable(r, es);
  }

  /** A client with room for everything left catches up in one step. */
  lemma StepCatchesUp(c: Client, start: nat, p: Poll)
    requires Readable(p.events) && Exact(c, start, Projection(p.events)) && start < |p.events|
    requires Min(p.limit, p.capacity) >= |p.events|
    ensures Step(c, p).received == Projection(p.events)[start..]
  {
    var ws := Projection(p.events);
    ProjectionIsStream(p.events);
    StepIsExact(c, start, p);
    if c.finished {
      FinishedIsAll(c, start, ws);
    } else {
      RestIsAll(ws, start, c.cursor, Min(p.limit, p.capacity));
    }
  }

  lemma RestIsAll<T>(ws: seq<T>, start: nat, cursor: nat, room: nat)
    requires start <= cursor <= |ws| <= room
    ensures ws[start..cursor] + Slice(ws, cursor, room) == ws[start..]
    ensures start == cursor ==> [] + Slice(ws, cursor, room) == ws[start..]
  {
  }

  lemma FinishedIsAll(c: Client, start: nat, ws: seq<WatchEvent>)
    requires Stream(ws) && Exact(c, start, ws) && c.finished
    ensures c.received == ws[start..]
  {
    assert c.received[|c.received| - 1] == ws[c.cursor - 1];
    assert ws[start..|ws|] == ws[start..];
  }

  lemma FinishedAtTheEnd(c: Client, start: nat, ws: seq<WatchEvent>)
    requires start < |ws| && c.received == ws[start..] && Exact(c, start, ws)
    ensures c.finished <==> ws[|ws| - 1].state.Terminal()
  {
  }

  lemma ExactBefore(start: nat, polls: seq<Poll>)
    requires polls != [] && Growing(polls)
    ensures Exact(Watch(start, polls[..|polls| - 1]), start, Projection(polls[|polls| - 1].events))
  {
    var n := |polls| - 1;
    if n == 0 {
      assert polls[..n] == [];
    } else {
      WatchIsExact(start, polls[..n]);
      ExactLater(Watch(start, polls[..n]), start, polls[n - 1].events, polls[n].events);
    }
  }

  /**
   Completeness: one poll of the handler's batch size over a connection that holds brings the client
   up to date, because a resolution never has more than five events.
   */
  lemma UnbrokenPollCatchesUp(r: Resolution, start: nat, polls: seq<Poll>)
    requires polls != [] && Growing(polls)
    requires var p := polls[|polls| - 1]; HistoryOk(r, p.events) && p.limit == BATCH && p.capacity >= BATCH
    ensures start < r.version ==>
              && Watch(start, polls).received == Projection(polls[|polls| - 1].events)[start..]
              && (Watch(start, polls).finished <==> r.completed)
  {
    var n := |polls| - 1;
    HistoryEnd(r, polls[n].events);
    if start < r.version {
      ExactBefore(start, polls);
      StepCatchesUp(Watch(start, polls[..n]), start, polls[n]);
      assert Exact(Watch(start, polls), start, Projection(polls[n].events)) by {
        WatchIsExact(start, polls);
      }
      FinishedAtTheEnd(Watch(start, polls), start, Projection(polls[n].events));
    }
  }

  // ----- Watching a workflow run

  lemma WorkflowIsReadable(actions: seq<ResolutionWorkflow.Action>, id: string)
    requires id in ResolutionWorkflow.Run(actions).resolutions
    ensures var s := ResolutionWorkflow.Run(actions);
            Readable(EventsOf(s.outbox, s.resolutions[id].tenantId, id))
            && HistoryOk(s.resolutions[id], EventsOf(s.outbox, s.resolutions[id].tenantId, id))
  {
    ResolutionWorkflow.RunKeepsStore(actions);
    var s := ResolutionWorkflow.Run(actions);
    assert Told(s.resolutions[id], id, s.outbox);
    HistoryIsReadable(s.resolutions[id], EventsOf(s.outbox, s.resolutions[id].tenantId, id));
  }

  lemma EventsOfGrows(events: seq<Event>, later: seq<Event>, tenantId: string, id: string)
    requires events <= later
    ensures EventsOf(events, tenantId, id) <= EventsOf(later, tenantId, id)
  {
    assert later == events + later[|events|..];
    EventsOfSplit(events, later[|events|..], tenantId, id);
  }

  /** One poll of a watch, after `point` steps of the run. */
  datatype Visit = Visit(point: nat, limit: nat, capacity: nat)

  /** The client polls at points of the run in order, the first one when the resolution exists. */
  predicate Visits(actions: seq<ResolutionWorkflow.Action>, tenantId: string, id: string, visits: seq<Visit>)
  {
    && visits != [] && (forall k :: 0 <= k < |visits| ==> visits[k].point <= |actions|)
    && (forall j, k :: 0 <= j <= k < |visits| ==> visits[j].point <= visits[k].point)
    && var s := ResolutionWorkflow.Run(actions[..visits[0].point]);
       id in s.resolutions && s.resolutions[id].tenantId == tenantId
  }

  function LogAt(actions: seq<ResolutionWorkflow.Action>, tenantId: string, id: string, point: nat): seq<Event>
    requires point <= |actions|
  {
    EventsOf(ResolutionWorkflow.Run(actions[..point]).outbox, tenantId, id)
  }

  function PollsOf(actions: seq<ResolutionWorkflow.Action>, tenantId: string, id: string, visits: seq<Visit>): seq<Poll>
    requires Visits(actions, tenantId, id, visits)
  {
    seq(|visits|, k requires 0 <= k < |visits| =>
      Poll(LogAt(actions, tenantId, id, visits[k].point), visits[k].limit, visits[k].capacity))
  }

  lemma LogGrows(actions: seq<ResolutionWorkflow.Action>, tenantId: string, id: string, m: nat, n: nat)
    requires m <= n <= |actions|
    ensures LogAt(actions, tenantId, id, m) <= LogAt(actions, tenantId, id, n)
  {
    assert actions[..n][..m] == actions[..m];
    ResolutionWorkflow.OutboxGrows(actions[..n], m);
    EventsOfGrows(ResolutionWorkflow.Run(actions[..m]).outbox, ResolutionWorkflow.Run(actions[..n]).outbox, tenantId, id);
  }

  /** The resolution is there at every later point, with the log that tells it. */
  lemma StillThere(actions: seq<ResolutionWorkflow.Action>, tenantId: string, id: string, m: nat, n: nat)
    requires m <= n <= |actions| && id in ResolutionWorkflow.Run(actions[..m]).resolutions
    requires ResolutionWorkflow.Run(actions[..m]).resolutions[id].tenantId == tenantId
    ensures var s := ResolutionWorkflow.Run(actions[..n]);
            && id in s.resolutions && s.resolutions[id].tenantId == tenantId
            && HistoryOk(s.resolutions[id], LogAt(actions, tenantId, id, n)) && Readable(LogAt(actions, tenantId, id, n))
  {
    assert actions[..n][..m] == actions[..m];
    ResolutionWorkflow.RunAdvances(actions[..n], m, id);
    WorkflowIsReadable(actions[..n], id);
  }

  lemma PollsGrow(actions: seq<ResolutionWorkflow.Action>, tenantId: string, id: string, visits: seq<Visit>)
    requires Visits(actions, tenantId, id, visits)
    ensures Growing(PollsOf(actions, tenantId, id, visits))
  {
    var polls := PollsOf(actions, tenantId, id, visits);
    forall k | 0 <= k < |polls|
      ensures Readable(polls[k].events)
    {
      StillThere(actions, tenantId, id, visits[0].point, visits[k].point);
    }
    forall j, k | 0 <= j <= k < |polls|
      ensures polls[j].events <= polls[k].events
    {
      LogGrows(actions, tenantId, id, visits[j].point, visits[k].point);
    }
  }

  /**
   For every workflow run and every way of polling, dropping and reconnecting during it, the client
   holds exactly the stretch of the resolution's projection after its starting cursor, in order, and its
   watch is over exactly when it has received the terminal event.
   */
  lemma WorkflowWatchIsExact(actions: seq<ResolutionWorkflow.Action>, tenantId: string, id: string, start: nat,
                             visits: seq<Visit>)
    requires Visits(actions, tenantId, id, visits)
    ensures var last := LogAt(actions, tenantId, id, visits[|visits| - 1].point);
            Readable(last) && Exact(Watch(start, PollsOf(actions, tenantId, id, visits)), start, Projection(last))
  {
    PollsGrow(actions, tenantId, id, visits);
    WatchIsExact(start, PollsOf(actions, tenantId, id, visits));
  }

  /** And one full poll over a connection that holds makes that all of it, as of that point of the run. */
  lemma WorkflowWatchCatchesUp(actions: seq<ResolutionWorkflow.Action>, tenantId: string, id: string, start: nat,
                               visits: seq<Visit>)
    requires Visits(actions, tenantId, id, visits)
    requires visits[|visits| - 1].limit == BATCH && visits[|visits| - 1].capacity >= BATCH
    ensures var n := visits[|visits| - 1].point;
            var s, log := ResolutionWorkflow.Run(actions[..n]), LogAt(actions, tenantId, id, n);
            && id in s.resolutions && Readable(log) && |log| == s.resolutions[id].version
            && (start < |log| ==>
                  && Watch(start, PollsOf(actions, tenantId, id, visits)).received == Projection(log)[start..]
                  && (Watch(start, PollsOf(actions, tenantId, id, visits)).finished <==> s.resolutions[id].completed))
  {
    var n := visits[|visits| - 1].point;
    StillThere(actions, tenantId, id, visits[0].point, n);
    PollsGrow(actions, tenantId, id, visits);
    UnbrokenPollCatchesUp(ResolutionWorkflow.Run(actions[..n]).resolutions[id], start,
                          PollsOf(actions, tenantId, id, visits));
  }

  /**
   A watch that was polled fully since the resolution ended is finished, and a finished watch means that
   no step of any service can add an event to the resolution.
   */
  lemma WatchEndsWithTheResolution(actions: seq<ResolutionWorkflow.Action>, tenantId: string, id: string, start: nat,
                                   visits: seq<Visit>)
    requires Visits(actions, tenantId, id, visits)
    requires visits[|visits| - 1].limit == BATCH && visits[|visits| - 1].capacity >= BATCH
    ensures var s := ResolutionWorkflow.Run(actions[..visits[|visits| - 1].point]);
            && id in s.resolutions
            && (start < s.resolutions[id].version ==>
                  (Watch(start, PollsOf(actions, tenantId, id, visits)).finished <==> ResolutionWorkflow.Over(s, id)))
  {
    var n := visits[|visits| - 1].point;
    WorkflowWatchCatchesUp(actions, tenantId, id, start, visits);
    ResolutionWorkflow.CompletedMeansOver(actions[..n], id);
  }
}
