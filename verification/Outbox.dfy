/**
 The durable outbox (internal/outbox/postgres_store.go), its dispatcher
 (internal/outbox/dispatcher.go) and operator replay (internal/deadletter/postgres_repository.go).
 A row's sequence number is its position; event contents are abstract.
 */
module Outbox {
  import opened Wrappers
  import opened Clock
  import opened Text
  import Utf8

  type Bytes = Utf8.Bytes

  datatype Event = Event(id: string, tenantId: string, contents: string)

  datatype Row = Row(
    event: Event, publishedAt: Option<Time>, attempts: nat, lastError: Option<Bytes>, availableAt: Time,
    leaseOwner: Option<string>, leaseExpiresAt: Option<Time>, deadLetteredAt: Option<Time>)
  {
    predicate Published() { publishedAt.Some? }
    predicate Dead() { deadLetteredAt.Some? }
    predicate Leased() { leaseOwner.Some? }
    predicate Waiting() { !Published() && !Dead() && !Leased() }
  }

  datatype Record = Record(sequence: nat, attempts: nat)

  datatype OutboxError = InvalidRequest | LeaseLost | NotFound | ReplayConflict | Refused

  function NewRow(e: Event, at: Time): Row
  {
    Row(e, None, 0, None, at, None, None, None)
  }

  // ----- Claims

  predicate Claimable(r: Row, now: Time)
  {
    && !r.Published() && !r.Dead() && r.availableAt <= now
    && (r.leaseExpiresAt.None? || r.leaseExpiresAt.value <= now)
  }

  function ClaimRow(r: Row, owner: string, now: Time, lease: nat): Row
  {
    r.(leaseOwner := Some(owner), leaseExpiresAt := Some(now + lease), attempts := r.attempts + 1)
  }

  /** The rows among the first `n` that a claim takes: claimable, not locked by another claim, lowest first. */
  function Taken(rows: seq<Row>, locked: set<nat>, limit: nat, now: Time, n: nat): seq<nat>
    requires n <= |rows|
  {
    if n == 0 then []
    else
      var before := Taken(rows, locked, limit, now, n - 1);
      if |before| < limit && n - 1 !in locked && Claimable(rows[n - 1], now) then before + [n - 1] else before
  }

  function Claimed(rows: seq<Row>, taken: seq<nat>, owner: string, now: Time, lease: nat): seq<Row>
  {
    seq(|rows|, k requires 0 <= k < |rows| => if k in taken then ClaimRow(rows[k], owner, now, lease) else rows[k])
  }

  function Records(rows: seq<Row>, taken: seq<nat>): seq<Record>
    requires forall k :: 0 <= k < |taken| ==> taken[k] < |rows|
  {
    seq(|taken|, k requires 0 <= k < |taken| => Record(taken[k], rows[taken[k]].attempts + 1))
  }

  /** A claim takes only claimable rows that nobody else holds, each once, lowest first, within its limit. */
  lemma {:induction false} TakenExactly(rows: seq<Row>, locked: set<nat>, limit: nat, now: Time, n: nat)
    requires n <= |rows|
    ensures var taken := Taken(rows, locked, limit, now, n);
            && |taken| <= limit
            && (forall k :: 0 <= k < |taken| ==> taken[k] < n && taken[k] !in locked && Claimable(rows[taken[k]], now))
            && (forall i, j :: 0 <= i < j < |taken| ==> taken[i] < taken[j])
  {
    if n > 0 {
      TakenExactly(rows, locked, limit, now, n - 1);
    }
  }

  /** A claim below its limit took every row it could. */
  lemma {:induction false} TakenComplete(rows: seq<Row>, locked: set<nat>, limit: nat, now: Time, n: nat, k: nat)
    requires k < n <= |rows| && |Taken(rows, locked, limit, now, n)| < limit
    requires k !in locked && Claimable(rows[k], now)
    ensures k in Taken(rows, locked, limit, now, n)
  {
    var before := Taken(rows, locked, limit, now, n - 1);
    if k < n - 1 {
      TakenComplete(rows, locked, limit, now, n - 1, k);
    } else {
      assert (before + [k])[|before|] == k;
    }
  }

  // ----- Updates under a lease

  datatype Update =
    | MarkPublished(sequence: int, owner: string, at: Time)
    | Retry(sequence: int, owner: string, at: Time, availableAt: int, failure: Bytes)
    | DeadLetter(sequence: int, owner: string, at: Time, failure: Bytes)

  /** The `WHERE` clause all three updates share. */
  predicate Holds(r: Row, owner: string, at: Time)
  {
    && r.leaseOwner == Some(owner) && r.leaseExpiresAt.Some? && r.leaseExpiresAt.value > at
    && !r.Published() && !r.Dead()
  }

  predicate ValidUpdate(u: Update)
  {
    && u.sequence >= 0 && u.owner != "" && u.at != ZERO
    && (u.Retry? ==> u.availableAt >= u.at)
  }

  function Released(r: Row): Row
  {
    r.(leaseOwner := None, leaseExpiresAt := None)
  }

  function Updated(r: Row, u: Update): Row
    requires ValidUpdate(u)
  {
    match u
    case MarkPublished(_, _, at) => Released(r).(publishedAt := Some(at), lastError := None)
    case Retry(_, _, _, availableAt, failure) => Released(r).(availableAt := availableAt, lastError := Some(Utf8.Bounded(failure)))
    case DeadLetter(_, _, at, failure) => Released(r).(deadLetteredAt := Some(at), lastError := Some(Utf8.Bounded(failure)))
  }

  function Apply(rows: seq<Row>, u: Update): (Outcome<OutboxError>, seq<Row>)
  {
    if !ValidUpdate(u) then (Fail(InvalidRequest), rows)
    else if u.sequence >= |rows| || !Holds(rows[u.sequence], u.owner, u.at) then (Fail(LeaseLost), rows)
    else (Pass, rows[u.sequence := Updated(rows[u.sequence], u)])
  }

  // ----- Replay

  datatype ReplayCommand = ReplayCommand(
    actionId: string, tenantId: string, eventId: string, actorId: string, spiffeId: string, identityRevision: string,
    idempotencyKey: string, reason: string)

  datatype ReplayAction = ReplayAction(
    actionId: string, tenantId: string, sequence: nat, eventId: string, actorId: string, idempotencyKey: string,
    reason: string, priorDeadLetteredAt: Time, attempts: nat, lastError: Bytes, requestedAt: Time, availableAt: Time)

  datatype ReplayResult = ReplayResult(
    actionId: string, eventId: string, requestedAt: Time, availableAt: Time, replayed: bool)

  predicate ValidCommand(c: ReplayCommand)
  {
    && c.actionId != "" && c.tenantId != "" && c.eventId != "" && c.actorId != "" && c.spiffeId != ""
    && c.identityRevision != "" && c.idempotencyKey != "" && c.reason != ""
  }

  predicate SameKey(a: ReplayAction, c: ReplayCommand)
  {
    a.tenantId == c.tenantId && a.actorId == c.actorId && a.idempotencyKey == c.idempotencyKey
  }

  /** Position of the audit row stored under the command's key, or the number of rows. */
  function FindAction(actions: seq<ReplayAction>, c: ReplayCommand): nat
  {
    if actions == [] then 0
    else if SameKey(actions[0], c) then 0
    else 1 + FindAction(actions[1..], c)
  }

  predicate Replayable(r: Row, c: ReplayCommand)
  {
    r.event.tenantId == c.tenantId && r.event.id == c.eventId && !r.Published() && r.Dead()
  }

  function FindDead(rows: seq<Row>, c: ReplayCommand): nat
  {
    if rows == [] then 0
    else if Replayable(rows[0], c) then 0
    else 1 + FindDead(rows[1..], c)
  }

  lemma {:induction false} FindActionFinds(actions: seq<ReplayAction>, c: ReplayCommand)
    ensures var k := FindAction(actions, c);
            && k <= |actions| && (k < |actions| ==> SameKey(actions[k], c))
            && forall i :: 0 <= i < k ==> !SameKey(actions[i], c)
  {
    if actions != [] && !SameKey(actions[0], c) {
      FindActionFinds(actions[1..], c);
      var k := FindAction(actions[1..], c);
      forall i | 0 <= i < 1 + k
        ensures !SameKey(actions[i], c)
      {
        assert i > 0 ==> actions[i] == actions[1..][i - 1];
      }
    }
  }

  lemma {:induction false} FindDeadFinds(rows: seq<Row>, c: ReplayCommand)
    ensures var k := FindDead(rows, c);
            && k <= |rows| && (k < |rows| ==> Replayable(rows[k], c))
            && forall i :: 0 <= i < k ==> !Replayable(rows[i], c)
  {
    if rows != [] && !Replayable(rows[0], c) {
      FindDeadFinds(rows[1..], c);
      var k := FindDead(rows[1..], c);
      forall i | 0 <= i < 1 + k
        ensures !Replayable(rows[i], c)
      {
        assert i > 0 ==> rows[i] == rows[1..][i - 1];
      }
    }
  }

  function ActionFor(c: ReplayCommand, sequence: nat, r: Row, at: Time): ReplayAction
    requires r.Dead()
  {
    ReplayAction(c.actionId, c.tenantId, sequence, r.event.id, c.actorId, c.idempotencyKey, c.reason,
                 r.deadLetteredAt.value, r.attempts, if r.lastError.Some? then r.lastError.value else [], at, at)
  }

  /** Primary key and length checks of an audit row. */
  predicate ActionAllowed(actions: seq<ReplayAction>, c: ReplayCommand)
  {
    && (forall k :: 0 <= k < |actions| ==> actions[k].actionId != c.actionId)
    && |c.reason| <= 512 && |c.idempotencyKey| <= 128
  }

  function Requeued(r: Row, at: Time): Row
  {
    Released(r).(deadLetteredAt := None, attempts := 0, availableAt := at)
  }

  function ResultOf(a: ReplayAction, replayed: bool): ReplayResult
  {
    ReplayResult(a.actionId, a.eventId, a.requestedAt, a.availableAt, replayed)
  }

  /** The replay transaction; `at` is the transaction's `CURRENT_TIMESTAMP`. */
  function Replay(rows: seq<Row>, actions: seq<ReplayAction>, c: ReplayCommand, at: Time)
    : (Result<ReplayResult, OutboxError>, seq<Row>, seq<ReplayAction>)
  {
    if !ValidCommand(c) then (Failure(InvalidRequest), rows, actions)
    else
      FindActionFinds(actions, c);
      FindDeadFinds(rows, c);
      var found := FindAction(actions, c);
      if found < |actions| then
        if actions[found].eventId != c.eventId || actions[found].reason != c.reason then
          (Failure(ReplayConflict), rows, actions)
        else (Success(ResultOf(actions[found], false)), rows, actions)
      else
        var k := FindDead(rows, c);
        if k == |rows| then (Failure(NotFound), rows, actions)
        else if !ActionAllowed(actions, c) then (Failure(Refused), rows, actions)
        else
          var a := ActionFor(c, k, rows[k], at);
          (Success(ResultOf(a, true)), rows[k := Requeued(rows[k], at)], actions + [a])
  }

  // ----- The advisory lock of a replay

  const COLON: Utf8.byte := 0x3A

  function DecimalBytes(n: nat): Bytes
  {
    DecimalReadsBack(n);
    seq(|Decimal(n)|, i requires 0 <= i < |Decimal(n)| => Decimal(n)[i] as int as Utf8.byte)
  }

  function Prefixed(s: Bytes): Bytes
  {
    DecimalBytes(|s|) + [COLON] + s
  }

  /** `%d:%s%d:%s%d:%s` of the tenant, the actor and the idempotency key with their lengths in bytes. */
  function LockKey(tenantId: Bytes, actorId: Bytes, key: Bytes): Bytes
  {
    Prefixed(tenantId) + (Prefixed(actorId) + Prefixed(key))
  }

  lemma DecimalBytesInjective(m: nat, n: nat)
    ensures COLON !in DecimalBytes(m)
    ensures DecimalBytes(m) == DecimalBytes(n) ==> m == n
  {
    DecimalReadsBack(m);
    if DecimalBytes(m) == DecimalBytes(n) {
      DecimalReadsBack(n);
      forall i | 0 <= i < |Decimal(m)|
        ensures Decimal(m)[i] == Decimal(n)[i]
      {
        assert DecimalBytes(m)[i] == DecimalBytes(n)[i];
      }
      assert |Decimal(m)| == |DecimalBytes(m)| == |Decimal(n)|;
      assert Decimal(m) == Decimal(n);
      DecimalInjective(m, n);
    }
  }

  lemma PrefixedSplits(x: Bytes, rest: Bytes, y: Bytes, other: Bytes)
    requires Prefixed(x) + rest == Prefixed(y) + other
    ensures x == y && rest == other
  {
    assert Prefixed(x) + rest == DecimalBytes(|x|) + [COLON] + (x + rest);
    assert Prefixed(y) + other == DecimalBytes(|y|) + [COLON] + (y + other);
    DecimalBytesInjective(|x|, |y|);
    DecimalBytesInjective(|y|, |x|);
    SplitAtFirst(DecimalBytes(|x|), x + rest, DecimalBytes(|y|), y + other, COLON);
    assert x == (x + rest)[..|x|] && y == (y + other)[..|y|];
    assert rest == (x + rest)[|x|..] && other == (y + other)[|y|..];
  }

  /** Different replay scopes never take the same lock text, whatever bytes they hold. */
  lemma LockKeyInjective(t1: Bytes, a1: Bytes, k1: Bytes, t2: Bytes, a2: Bytes, k2: Bytes)
    requires LockKey(t1, a1, k1) == LockKey(t2, a2, k2)
    ensures t1 == t2 && a1 == a2 && k1 == k2
  {
    PrefixedSplits(t1, Prefixed(a1) + Prefixed(k1), t2, Prefixed(a2) + Prefixed(k2));
    PrefixedSplits(a1, Prefixed(k1), a2, Prefixed(k2));
    assert Prefixed(k1) + [] == Prefixed(k2) + [];
    PrefixedSplits(k1, [], k2, []);
  }

  // ----- The stores

  class OutboxDatabase {
    var rows: seq<Row>
    var actions: seq<ReplayAction>

    constructor ()
      ensures rows == [] && actions == []
    {
      rows, actions := [], [];
    }

    /** `Claim`; `locked` are the rows that concurrent claims hold at that moment. */
    method Claim(owner: string, limit: int, now: Time, lease: int, locked: set<nat>)
      returns (res: Result<seq<Record>, OutboxError>)
      modifies this`rows
      ensures owner == "" || limit <= 0 || now == ZERO || lease <= 0 ==>
                res == Failure(InvalidRequest) && rows == old(rows)
      ensures owner != "" && limit > 0 && now != ZERO && lease > 0 ==>
                var taken := Taken(old(rows), locked, limit, now, |old(rows)|);
                && (forall k :: 0 <= k < |taken| ==> taken[k] < |old(rows)|)
                && rows == Claimed(old(rows), taken, owner, now, lease)
                && res == Success(Records(old(rows), taken))
    {
      if owner == "" || limit <= 0 || now == ZERO || lease <= 0 {
        return Failure(InvalidRequest);
      }
      var taken := SelectClaimable(limit, now, locked);
      TakenExactly(rows, locked, limit, now, |rows|);
      var records := Records(rows, taken);
      rows := Claimed(rows, taken, owner, now, lease);
      return Success(records);
    }

    /** The claim's row selection: in sequence order, skipping locked rows, up to the limit. */
    method SelectClaimable(limit: int, now: Time, locked: set<nat>) returns (taken: seq<nat>)
      requires limit > 0
      ensures taken == Taken(rows, locked, limit, now, |rows|)
    {
      taken := [];
      for k := 0 to |rows|
        invariant taken == Taken(rows, locked, limit, now, k) && |taken| <= limit
      {
        if |taken| == limit {
          continue;
        }
        var r := rows[k];
        if k !in locked && r.publishedAt.None? && r.deadLetteredAt.None? && r.availableAt <= now
           && (r.leaseExpiresAt.None? || r.leaseExpiresAt.value <= now) {
          taken := taken + [k];
        }
      }
    }

    method Update(u: Update) returns (res: Outcome<OutboxError>)
      modifies this`rows
      ensures var (outcome, after) := Apply(old(rows), u);
              res == outcome && rows == after
    {
      if u.sequence < 0 || u.owner == "" || u.at == ZERO {
        return Fail(InvalidRequest);
      }
      if u.Retry? && u.availableAt < u.at {
        return Fail(InvalidRequest);
      }
      if u.sequence >= |rows| || !Holds(rows[u.sequence], u.owner, u.at) {
        return Fail(LeaseLost);
      }
      var r := rows[u.sequence];
      match u {
        case MarkPublished(_, _, at) => r := r.(publishedAt := Some(at), lastError := None);
        case Retry(_, _, _, availableAt, failure) =>
          var bounded := Utf8.BoundedError(failure);
          r := r.(availableAt := availableAt, lastError := Some(bounded));
        case DeadLetter(_, _, at, failure) =>
          var bounded := Utf8.BoundedError(failure);
          r := r.(deadLetteredAt := Some(at), lastError := Some(bounded));
      }
      r := r.(leaseOwner := None, leaseExpiresAt := None);
      rows := rows[u.sequence := r];
      return Pass;
    }

    method ReplayEvent(c: ReplayCommand, at: Time) returns (res: Result<ReplayResult, OutboxError>)
      modifies this
      ensures var (outcome, rows', actions') := Replay(old(rows), old(actions), c, at);
              res == outcome && rows == rows' && actions == actions'
    {
      if !ValidCommand(c) {
        return Failure(InvalidRequest);
      }
      FindActionFinds(actions, c);
      FindDeadFinds(rows, c);
      var found := FindAction(actions, c);
      if found < |actions| {
        if actions[found].eventId != c.eventId || actions[found].reason != c.reason {
          return Failure(ReplayConflict);
        }
        return Success(ResultOf(actions[found], false));
      }
      var k := FindDead(rows, c);
      if k == |rows| {
        return Failure(NotFound);
      }
      if !ActionAllowed(actions, c) {
        return Failure(Refused);
      }
      var r := rows[k];
      actions := actions + [ActionFor(c, k, r, at)];
      rows := rows[k := r.(deadLetteredAt := None, leaseOwner := None, leaseExpiresAt := None, attempts := 0,
                           availableAt := at)];
      return Success(ReplayResult(c.actionId, r.event.id, at, at, true));
    }

    /**
     `RunOnce` undisturbed: `answers(k)` says whether the broker acknowledges the `k`th record and when
     the dispatcher reads its clock afterwards.
     */
    method RunOnce(d: Dispatcher, now: Time, locked: set<nat>, answers: nat -> Answer)
      returns (handled: nat, clean: bool)
      modifies this`rows
      ensures d.workerId == "" || d.batchSize <= 0 || d.maxAttempts <= 0 || d.lease <= 0 || now == ZERO ==>
                rows == old(rows) && handled == 0 && !clean
      ensures d.workerId != "" && d.batchSize > 0 && d.maxAttempts > 0 && d.lease > 0 && now != ZERO ==>
                var taken := Taken(old(rows), locked, d.batchSize, now, |old(rows)|);
                && (forall k :: 0 <= k < |taken| ==> taken[k] < |old(rows)|)
                && handled == |taken|
                && var claimed := Claimed(old(rows), taken, d.workerId, now, d.lease);
                   && rows == Handled(claimed, d, Records(old(rows), taken), seq(|taken|, answers))
                   && clean == AllPublished(claimed, d, Records(old(rows), taken), seq(|taken|, answers))
    {
      if d.workerId == "" || d.batchSize <= 0 || d.maxAttempts <= 0 || d.lease <= 0 {
        return 0, false;
      }
      ghost var before := rows;
      var claimed := Claim(d.workerId, d.batchSize, now, d.lease, locked);
      if claimed.Failure? {
        return 0, false;
      }
      ghost var taken := Taken(before, locked, d.batchSize, now, |before|);
      TakenExactly(before, locked, d.batchSize, now, |before|);
      clean := HandleRecords(d, claimed.value, seq(|claimed.value|, answers));
      handled := |claimed.value|;
    }

    /** The dispatcher's loop over its claimed batch. */
    method HandleRecords(d: Dispatcher, records: seq<Record>, answers: seq<Answer>) returns (clean: bool)
      requires |records| == |answers|
      modifies this`rows
      ensures rows == Handled(old(rows), d, records, answers)
      ensures clean == AllPublished(old(rows), d, records, answers)
    {
      clean := true;
      for k := 0 to |records|
        invariant rows == Handled(old(rows), d, records[..k], answers[..k])
        invariant clean == AllPublished(old(rows), d, records[..k], answers[..k])
      {
        assert records[..k + 1][..k] == records[..k] && answers[..k + 1][..k] == answers[..k];
        if !answers[k].acknowledged {
          clean := false;
        }
        var res := Update(UpdateFor(d, records[k], answers[k]));
        if res.Fail? {
          clean := false;
        }
      }
      assert records[..|records|] == records && answers[..|answers|] == answers;
    }
  }

  // ----- The dispatcher

  datatype Dispatcher = Dispatcher(workerId: string, batchSize: int, maxAttempts: int, lease: int)

  predicate ValidDispatcher(d: Dispatcher)
  {
    d.workerId != "" && d.batchSize > 0 && d.maxAttempts > 0 && d.lease > 0
  }

  datatype Answer = Answer(acknowledged: bool, at: Time, delay: Duration, failure: Bytes)

  /** What the dispatcher writes after the broker answered for a record. */
  function UpdateFor(d: Dispatcher, record: Record, answer: Answer): Update
  {
    if answer.acknowledged then MarkPublished(record.sequence, d.workerId, answer.at)
    else if record.attempts >= d.maxAttempts then DeadLetter(record.sequence, d.workerId, answer.at, answer.failure)
    else Retry(record.sequence, d.workerId, answer.at, answer.at + answer.delay, answer.failure)
  }

  function Handled(rows: seq<Row>, d: Dispatcher, records: seq<Record>, answers: seq<Answer>): seq<Row>
    requires |records| == |answers|
  {
    if records == [] then rows
    else
      var n := |records| - 1;
      Apply(Handled(rows, d, records[..n], answers[..n]), UpdateFor(d, records[n], answers[n])).1
  }

  /** No failure to report: every record was acknowledged and its result recorded. */
  predicate AllPublished(rows: seq<Row>, d: Dispatcher, records: seq<Record>, answers: seq<Answer>)
    requires |records| == |answers|
  {
    records == [] ||
    (var n := |records| - 1;
     && AllPublished(rows, d, records[..n], answers[..n]) && answers[n].acknowledged
     && Apply(Handled(rows, d, records[..n], answers[..n]), UpdateFor(d, records[n], answers[n])).0.Pass?)
  }

  // ----- What a round achieves

  /** The claimed records in whatever order the database returned them. */
  predicate Enumerates(records: seq<Record>, rows: seq<Row>, taken: seq<nat>)
  {
    && (forall i, j :: 0 <= i < j < |records| ==> records[i].sequence != records[j].sequence)
    && (forall i :: 0 <= i < |records| ==>
                      records[i].sequence in taken && records[i].sequence < |rows|
                      && records[i].attempts == rows[records[i].sequence].attempts + 1)
    && (forall k :: 0 <= k < |taken| ==> exists i :: 0 <= i < |records| && records[i].sequence == taken[k])
  }

  lemma {:induction false} HandledElsewhere(rows: seq<Row>, d: Dispatcher, records: seq<Record>, answers: seq<Answer>, k: nat)
    requires |records| == |answers| && k < |rows| && forall i :: 0 <= i < |records| ==> records[i].sequence != k
    ensures |Handled(rows, d, records, answers)| == |rows| && Handled(rows, d, records, answers)[k] == rows[k]
  {
    if records != [] {
      var n := |records| - 1;
      HandledElsewhere(rows, d, records[..n], answers[..n], k);
    }
  }

  lemma {:induction false} HandledRow(rows: seq<Row>, d: Dispatcher, records: seq<Record>, answers: seq<Answer>, i: nat)
    requires |records| == |answers| && i < |records| && records[i].sequence < |rows|
    requires forall x, y :: 0 <= x < y < |records| ==> records[x].sequence != records[y].sequence
    requires var u := UpdateFor(d, records[i], answers[i]); ValidUpdate(u) && Holds(rows[u.sequence], u.owner, u.at)
    ensures |Handled(rows, d, records, answers)| == |rows|
    ensures var u := UpdateFor(d, records[i], answers[i]);
            Handled(rows, d, records, answers)[u.sequence] == Updated(rows[u.sequence], u)
    decreases |records|
  {
    var n := |records| - 1;
    if i < n {
      HandledRow(rows, d, records[..n], answers[..n], i);
    } else {
      HandledElsewhere(rows, d, records[..n], answers[..n], records[i].sequence);
    }
  }

  lemma {:induction false} SettledRow(r: Row, k: nat, d: Dispatcher, now: Time, answer: Answer)
    requires ValidDispatcher(d) && Claimable(r, now) && ZERO < answer.at < now + d.lease && answer.delay >= 0
    ensures var claimed, u := ClaimRow(r, d.workerId, now, d.lease), UpdateFor(d, Record(k, r.attempts + 1), answer);
            && ValidUpdate(u) && u.sequence == k && Holds(claimed, u.owner, u.at)
            && Settled(r, Updated(claimed, u), d, answer)
  {
  }

  lemma {:induction false} RecordIsSettled(rows: seq<Row>, taken: seq<nat>, d: Dispatcher, now: Time, records: seq<Record>,
                        answers: seq<Answer>, i: nat)
    requires ValidDispatcher(d) && |answers| == |records| && i < |records| && Enumerates(records, rows, taken)
    requires Claimable(rows[records[i].sequence], now) && ZERO < answers[i].at < now + d.lease && answers[i].delay >= 0
    ensures var k, after := records[i].sequence, Handled(Claimed(rows, taken, d.workerId, now, d.lease), d, records, answers);
            |after| == |rows| && Settled(rows[k], after[k], d, answers[i])
  {
    var k, claimed := records[i].sequence, Claimed(rows, taken, d.workerId, now, d.lease);
    SettledRow(rows[k], k, d, now, answers[i]);
    assert records[i] == Record(k, rows[k].attempts + 1);
    HandledRow(claimed, d, records, answers, i);
  }

  /**
   A round whose clock readings fall before the lease ends settles every record it claimed: the row is
   published exactly when the broker acknowledged it, dead-lettered exactly when refused at the attempt
   limit, and otherwise waits until its backoff has passed. Every other row is as it was.
   */
  lemma {:induction false} RoundSettlesEveryRecord(rows: seq<Row>, locked: set<nat>, d: Dispatcher, now: Time, records: seq<Record>,
                                answers: seq<Answer>, k: nat)
    requires ValidDispatcher(d) && |answers| == |records| && k < |rows|
    requires Enumerates(records, rows, Taken(rows, locked, d.batchSize, now, |rows|))
    requires forall i :: 0 <= i < |answers| ==> ZERO < answers[i].at < now + d.lease && answers[i].delay >= 0
    ensures var taken := Taken(rows, locked, d.batchSize, now, |rows|);
            var after := Handled(Claimed(rows, taken, d.workerId, now, d.lease), d, records, answers);
            && |after| == |rows|
            && (k !in taken ==> after[k] == rows[k])
            && (k in taken ==>
                  exists i :: 0 <= i < |records| && records[i].sequence == k &&
                              Settled(rows[k], after[k], d, answers[i]))
  {
    var taken := Taken(rows, locked, d.batchSize, now, |rows|);
    TakenExactly(rows, locked, d.batchSize, now, |rows|);
    var claimed := Claimed(rows, taken, d.workerId, now, d.lease);
    if k in taken {
      var j :| 0 <= j < |taken| && taken[j] == k;
      var i :| 0 <= i < |records| && records[i].sequence == taken[j];
      RecordIsSettled(rows, taken, d, now, records, answers, i);
    } else {
      HandledElsewhere(claimed, d, records, answers, k);
    }
  }

  /** Nothing is to be reported exactly when every record was acknowledged and its row is published now. */
  lemma {:induction false} CleanMeansPublished(rows: seq<Row>, d: Dispatcher, records: seq<Record>, answers: seq<Answer>)
    requires |records| == |answers|
    requires forall x, y :: 0 <= x < y < |records| ==> records[x].sequence != records[y].sequence
    requires forall i :: 0 <= i < |records| ==> records[i].sequence < |rows| && !rows[records[i].sequence].Published()
    ensures |Handled(rows, d, records, answers)| == |rows|
    ensures AllPublished(rows, d, records, answers) <==>
            forall i :: 0 <= i < |records| ==>
                          answers[i].acknowledged && Handled(rows, d, records, answers)[records[i].sequence].Published()
  {
    if records != [] {
      var n := |records| - 1;
      var before := Handled(rows, d, records[..n], answers[..n]);
      CleanMeansPublished(rows, d, records[..n], answers[..n]);
      HandledElsewhere(rows, d, records[..n], answers[..n], records[n].sequence);
      assert before[records[n].sequence] == rows[records[n].sequence];
      LastIsClean(before, d, records[n], answers[n]);
    }
  }

  /** One more record leaves the other rows alone and publishes its own exactly when acknowledged and recorded. */
  lemma LastIsClean(rows: seq<Row>, d: Dispatcher, record: Record, answer: Answer)
    requires record.sequence < |rows| && !rows[record.sequence].Published()
    ensures var (res, after) := Apply(rows, UpdateFor(d, record, answer));
            && |after| == |rows| && (forall k :: 0 <= k < |rows| && k != record.sequence ==> after[k] == rows[k])
            && (answer.acknowledged && res.Pass? <==> answer.acknowledged && after[record.sequence].Published())
  {
  }

  ghost predicate Settled(before: Row, after: Row, d: Dispatcher, answer: Answer)
  {
    && after.event == before.event && after.attempts == before.attempts + 1
    && (after.Published() <==> answer.acknowledged)
    && (after.Dead() <==> !answer.acknowledged && after.attempts >= d.maxAttempts)
    && (after.Waiting() <==> !answer.acknowledged && after.attempts < d.maxAttempts)
    && (after.Waiting() ==> forall later: Time :: Claimable(after, later) <==> answer.at + answer.delay <= later)
  }
}
