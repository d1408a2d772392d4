/**
 Durable approval grants and their consumption (internal/approval/postgres_repository.go). Consumption
 is one serializable transaction; the row that `LIMIT 1` returns is an argument.
 */
module Approval {
  import opened Wrappers
  import opened Clock

  datatype Grant = Grant(
    grantId: string, tenantId: string, recipeId: string, targetSubsetHash: string, maxUses: int, used: int,
    expiresAt: Time, version: int)

  datatype Consumption = Consumption(
    consumptionId: string, grantId: string, tenantId: string, taskId: string, actorId: string, grantVersion: int)

  datatype CreateRequest = CreateRequest(
    grantId: string, tenantId: string, recipeId: string, targetSubsetHash: string, maxUses: int, expiresAt: Time)

  datatype ConsumeRequest = ConsumeRequest(
    consumptionId: string, grantId: string, tenantId: string, recipeId: string, targetSubsetHash: string,
    taskId: string, actorId: string)

  datatype ApprovalError = NotFound | BindingMismatch | ExpiredGrant | Exhausted | Refused

  datatype Tables = Tables(grants: map<string, Grant>, consumptions: seq<Consumption>)

  function Create(t: Tables, q: CreateRequest, now: Time): (Result<Grant, ApprovalError>, Tables)
  {
    if q.expiresAt <= now then (Failure(ExpiredGrant), t)
    else if q.grantId in t.grants || q.maxUses <= 0 then (Failure(Refused), t)
    else
      var g := Grant(q.grantId, q.tenantId, q.recipeId, q.targetSubsetHash, q.maxUses, 0, q.expiresAt, 1);
      (Success(g), t.(grants := t.grants[q.grantId := g]))
  }

  predicate Matches(c: Consumption, q: ConsumeRequest)
  {
    c.consumptionId == q.consumptionId || (c.grantId == q.grantId && c.taskId == q.taskId)
  }

  /** `row` is a possible answer of the idempotency query. */
  predicate LimitOne(cs: seq<Consumption>, q: ConsumeRequest, row: Option<Consumption>)
  {
    match row
    case Some(c) => c in cs && Matches(c, q)
    case None => forall k :: 0 <= k < |cs| ==> !Matches(cs[k], q)
  }

  /** The stored row is this very consumption. */
  predicate Same(c: Consumption, q: ConsumeRequest)
  {
    && c.consumptionId == q.consumptionId && c.grantId == q.grantId && c.tenantId == q.tenantId
    && c.taskId == q.taskId
  }

  function Consume(t: Tables, q: ConsumeRequest, now: Time, row: Option<Consumption>)
    : (Result<Grant, ApprovalError>, Tables)
  {
    if q.grantId !in t.grants || t.grants[q.grantId].tenantId != q.tenantId then (Failure(NotFound), t)
    else
      var g := t.grants[q.grantId];
      if row.Some? then if Same(row.value, q) then (Success(g), t) else (Failure(BindingMismatch), t)
      else if g.recipeId != q.recipeId || g.targetSubsetHash != q.targetSubsetHash then (Failure(BindingMismatch), t)
      else if now >= g.expiresAt then (Failure(ExpiredGrant), t)
      else if g.used >= g.maxUses then (Failure(Exhausted), t)
      else
        var next := g.(used := g.used + 1, version := g.version + 1);
        (Success(next),
         Tables(t.grants[q.grantId := next],
                t.consumptions + [Consumption(q.consumptionId, q.grantId, q.tenantId, q.taskId, q.actorId,
                                              next.version)]))
  }

  class PostgresRepository {
    var tables: Tables

    constructor ()
      ensures tables == Tables(map[], [])
    {
      tables := Tables(map[], []);
    }

    /** `existingConsumption`; this one returns the first matching row. */
    method ExistingConsumption(q: ConsumeRequest) returns (row: Option<Consumption>)
      ensures LimitOne(tables.consumptions, q, row)
    {
      for k := 0 to |tables.consumptions|
        invariant forall i :: 0 <= i < k ==> !Matches(tables.consumptions[i], q)
      {
        var c := tables.consumptions[k];
        if c.consumptionId == q.consumptionId || (c.grantId == q.grantId && c.taskId == q.taskId) {
          return Some(c);
        }
      }
      return None;
    }

    method ConsumeGrant(q: ConsumeRequest, now: Time) returns (res: Result<Grant, ApprovalError>)
      modifies this
      ensures exists row :: LimitOne(old(tables).consumptions, q, row) &&
                            (res, tables) == Consume(old(tables), q, now, row)
    {
      ghost var before := tables;
      var row := ExistingConsumption(q);
      if q.grantId !in tables.grants || tables.grants[q.grantId].tenantId != q.tenantId {
        res := Failure(NotFound);
      } else {
        var g := tables.grants[q.grantId];
        if row.Some? {
          if row.value.consumptionId != q.consumptionId || row.value.grantId != q.grantId ||
             row.value.tenantId != q.tenantId || row.value.taskId != q.taskId {
            res := Failure(BindingMismatch);
          } else {
            res := Success(g);
          }
        } else if g.recipeId != q.recipeId || g.targetSubsetHash != q.targetSubsetHash {
          res := Failure(BindingMismatch);
        } else if !(now < g.expiresAt) {
          res := Failure(ExpiredGrant);
        } else if g.used >= g.maxUses {
          res := Failure(Exhausted);
        } else {
          g := g.(used := g.used + 1, version := g.version + 1);
          tables := tables.(grants := tables.grants[q.grantId := g]);
          tables := tables.(consumptions := tables.consumptions +
            [Consumption(q.consumptionId, q.grantId, q.tenantId, q.taskId, q.actorId, g.version)]);
          res := Success(g);
        }
      }
      assert LimitOne(before.consumptions, q, row) && (res, tables) == Consume(before, q, now, row);
    }
  }

  // ----- Every run

  function Uses(cs: seq<Consumption>, grantId: string): nat
  {
    if cs == [] then 0
    else Uses(cs[..|cs| - 1], grantId) + if cs[|cs| - 1].grantId == grantId then 1 else 0
  }

  predicate GrantOk(t: Tables, id: string)
    requires id in t.grants
  {
    var g := t.grants[id];
    g.grantId == id && g.used == Uses(t.consumptions, id) && g.used <= g.maxUses && g.version == g.used + 1
  }

  /** Consumption identifiers are unique, and so are grant and task together. */
  predicate Unique(cs: seq<Consumption>)
  {
    forall i, j :: 0 <= i < j < |cs| ==>
                     && cs[i].consumptionId != cs[j].consumptionId
                     && !(cs[i].grantId == cs[j].grantId && cs[i].taskId == cs[j].taskId)
  }

  predicate TablesOk(t: Tables)
  {
    && (forall id :: id in t.grants ==> GrantOk(t, id))
    && Unique(t.consumptions)
    && (forall k :: 0 <= k < |t.consumptions| ==>
                      && t.consumptions[k].grantId in t.grants
                      && t.grants[t.consumptions[k].grantId].tenantId == t.consumptions[k].tenantId)
  }

  datatype Action = CreateAction(create: CreateRequest, now: Time) | ConsumeAction(consume: ConsumeRequest, now: Time, row: Option<Consumption>)

  /** Every step of a run gets an answer the database could give. */
  predicate Enabled(t: Tables, a: Action)
  {
    a.ConsumeAction? ==> LimitOne(t.consumptions, a.consume, a.row)
  }

  function Next(t: Tables, a: Action): Tables
  {
    match a
    case CreateAction(q, now) => Create(t, q, now).1
    case ConsumeAction(q, now, row) => Consume(t, q, now, row).1
  }

  function Run(actions: seq<Action>): Tables
  {
    if actions == [] then Tables(map[], []) else Next(Run(actions[..|actions| - 1]), actions[|actions| - 1])
  }

  predicate Possible(actions: seq<Action>)
  {
    forall k :: 0 <= k < |actions| ==> Enabled(Run(actions[..k]), actions[k])
  }

  lemma {:induction false} NoUsesOfUnknown(cs: seq<Consumption>, id: string)
    requires forall k :: 0 <= k < |cs| ==> cs[k].grantId != id
    ensures Uses(cs, id) == 0
  {
    if cs != [] {
      NoUsesOfUnknown(cs[..|cs| - 1], id);
    }
  }

  lemma UsesAppend(cs: seq<Consumption>, c: Consumption, id: string)
    ensures Uses(cs + [c], id) == Uses(cs, id) + if c.grantId == id then 1 else 0
  {
    assert (cs + [c])[..|cs|] == cs;
  }

  lemma CreateKeepsTables(t: Tables, q: CreateRequest, now: Time)
    requires TablesOk(t)
    ensures TablesOk(Create(t, q, now).1)
  {
    if Create(t, q, now).0.Success? {
      NoUsesOfUnknown(t.consumptions, q.grantId);
      var after := Create(t, q, now).1;
      forall id | id in after.grants
        ensures GrantOk(after, id)
      {
        assert id != q.grantId ==> GrantOk(t, id);
      }
    }
  }

  lemma ConsumeKeepsTables(t: Tables, q: ConsumeRequest, now: Time, row: Option<Consumption>)
    requires TablesOk(t) && LimitOne(t.consumptions, q, row)
    ensures TablesOk(Consume(t, q, now, row).1)
  {
    var after := Consume(t, q, now, row).1;
    if after != t {
      var c := after.consumptions[|t.consumptions|];
      forall id | id in after.grants
        ensures GrantOk(after, id)
      {
        assert GrantOk(t, id);
        UsesAppend(t.consumptions, c, id);
      }
      assert Unique(after.consumptions) by {
        forall i | 0 <= i < |t.consumptions|
          ensures !Matches(t.consumptions[i], q)
        {
        }
      }
    }
  }

  /** In every run, `used` counts the consumption rows, never exceeds the maximum, and rows stay unique. */
  lemma {:induction false} RunKeepsTables(actions: seq<Action>)
    requires Possible(actions)
    ensures TablesOk(Run(actions))
  {
    if actions != [] {
      var before := actions[..|actions| - 1];
      assert forall k :: 0 <= k < |before| ==> before[..k] == actions[..k];
      RunKeepsTables(before);
      match actions[|actions| - 1]
      case CreateAction(q, now) => CreateKeepsTables(Run(before), q, now);
      case ConsumeAction(q, now, row) =>
        assert Enabled(Run(actions[..|before|]), actions[|before|]);
        ConsumeKeepsTables(Run(before), q, now, row);
    }
  }

  // ----- What a use needs

  /** The grant is the tenant's, approves this recipe on these targets, has not expired and has uses left. */
  predicate Approves(g: Grant, q: ConsumeRequest, now: Time)
  {
    && g.tenantId == q.tenantId && g.recipeId == q.recipeId && g.targetSubsetHash == q.targetSubsetHash
    && now < g.expiresAt && g.used < g.maxUses
  }

  /**
   A request without a stored row succeeds exactly when its grant approves it, and then uses it once; of
   the refusals, another recipe or target subset is named before expiry, and expiry before exhaustion.
   */
  lemma UseNeedsApproval(t: Tables, q: ConsumeRequest, now: Time)
    ensures var (res, after) := Consume(t, q, now, None);
            && (res.Success? <==> q.grantId in t.grants && Approves(t.grants[q.grantId], q, now))
            && (res.Failure? ==> after == t)
            && (res.Success? ==>
                  var g := t.grants[q.grantId];
                  && res.value == g.(used := g.used + 1, version := g.version + 1)
                  && after.grants == t.grants[q.grantId := res.value]
                  && after.consumptions == t.consumptions + [Consumption(q.consumptionId, q.grantId, q.tenantId, q.taskId,
                                                                         q.actorId, g.version + 1)])
            && (res == Failure(BindingMismatch) <==>
                  && q.grantId in t.grants && t.grants[q.grantId].tenantId == q.tenantId
                  && !(t.grants[q.grantId].recipeId == q.recipeId && t.grants[q.grantId].targetSubsetHash == q.targetSubsetHash))
            && (res == Failure(ExpiredGrant) ==> t.grants[q.grantId].expiresAt <= now)
            && (res == Failure(Exhausted) ==> now < t.grants[q.grantId].expiresAt)
  {
  }

  /** What consumption never changes of a grant. */
  predicate SameTerms(a: Grant, b: Grant)
  {
    && a.grantId == b.grantId && a.tenantId == b.tenantId && a.recipeId == b.recipeId
    && a.targetSubsetHash == b.targetSubsetHash && a.maxUses == b.maxUses && a.expiresAt == b.expiresAt
  }

  lemma StepKeepsTerms(t: Tables, a: Action, id: string)
    requires id in t.grants
    ensures id in Next(t, a).grants && SameTerms(t.grants[id], Next(t, a).grants[id])
    ensures t.consumptions <= Next(t, a).consumptions
  {
  }

  /** The terms of a grant are those it was created with: unexpired then, and for at least one use. */
  lemma {:induction false} TermsArePermanent(actions: seq<Action>, n: nat, id: string)
    requires n <= |actions| && id in Run(actions[..n]).grants
    ensures id in Run(actions).grants && SameTerms(Run(actions[..n]).grants[id], Run(actions).grants[id])
    decreases |actions|
  {
    if n == |actions| {
      assert actions[..n] == actions;
    } else {
      var before := actions[..|actions| - 1];
      assert before[..n] == actions[..n];
      TermsArePermanent(before, n, id);
      StepKeepsTerms(Run(before), actions[|actions| - 1], id);
    }
  }

  /** A grant is created exactly when its identifier is new, it may be used and it has not expired; then it is unused. */
  lemma CreationNeedsALiveGrant(t: Tables, q: CreateRequest, now: Time)
    ensures var (res, after) := Create(t, q, now);
            && (res.Success? <==> q.grantId !in t.grants && 0 < q.maxUses && now < q.expiresAt)
            && after.consumptions == t.consumptions
            && (res.Success? ==>
                  && q.grantId in after.grants && after.grants == t.grants[q.grantId := res.value]
                  && CreatedFor(after.grants[q.grantId], q) && res.value.used == 0)
            && (res.Failure? ==> after == t)
  {
  }

  predicate CreatedFor(g: Grant, q: CreateRequest)
  {
    && g.grantId == q.grantId && g.tenantId == q.tenantId && g.recipeId == q.recipeId
    && g.targetSubsetHash == q.targetSubsetHash && g.maxUses == q.maxUses && g.expiresAt == q.expiresAt
  }

  /** Every grant of a run has the terms of the request that created it, which was made before it expired. */
  lemma {:induction false} GrantWasRequested(actions: seq<Action>, id: string) returns (i: nat)
    requires id in Run(actions).grants
    ensures i < |actions| && actions[i].CreateAction? && CreatedFor(Run(actions).grants[id], actions[i].create)
    ensures actions[i].now < Run(actions).grants[id].expiresAt && 0 < Run(actions).grants[id].maxUses
  {
    var n := |actions| - 1;
    var before, a := Run(actions[..n]), actions[n];
    if id in before.grants {
      i := GrantWasRequested(actions[..n], id);
      StepKeepsTerms(before, a, id);
    } else {
      i := n;
      CreationNeedsALiveGrant(before, a.create, a.now);
    }
  }

  /** Row `k` was appended by step `i`, whose clock found the grant approving that step's request. */
  predicate UsedBy(actions: seq<Action>, i: nat, k: nat)
    requires i < |actions|
  {
    && actions[i].ConsumeAction? && |Run(actions[..i]).consumptions| == k < |Run(actions).consumptions|
    && var q, t, c := actions[i].consume, Run(actions[..i]), Run(actions).consumptions[k];
       && q.grantId in t.grants && Approves(t.grants[q.grantId], q, actions[i].now)
       && c == Consumption(q.consumptionId, q.grantId, q.tenantId, q.taskId, q.actorId, t.grants[q.grantId].version + 1)
       && q.grantId in Run(actions).grants && SameTerms(t.grants[q.grantId], Run(actions).grants[q.grantId])
  }

  lemma StepUses(t: Tables, a: Action)
    requires Enabled(t, a)
    ensures |Next(t, a).consumptions| <= |t.consumptions| + 1
    ensures |Next(t, a).consumptions| > |t.consumptions| ==>
              && a.ConsumeAction? && a.row.None?
  {
  }

  /** In every run each recorded use was approved, at the clock of the step that recorded it. */
  lemma {:induction false} EveryUseWasApproved(actions: seq<Action>, k: nat) returns (i: nat)
    requires Possible(actions) && k < |Run(actions).consumptions|
    ensures i < |actions| && UsedBy(actions, i, k)
  {
    var n := |actions| - 1;
    var before, a := actions[..n], actions[n];
    assert forall j :: 0 <= j <= n ==> before[..j] == actions[..j];
    assert Enabled(Run(actions[..n]), a);
    StepUses(Run(before), a);
    if k < |Run(before).consumptions| {
      i := EveryUseWasApproved(before, k);
      StepKeepsTerms(Run(before), a, actions[i].consume.grantId);
    } else {
      i := n;
      UseNeedsApproval(Run(before), a.consume, a.now);
    }
  }

  // ----- How uses are numbered

  /** The recorded grant versions number the uses of each grant, starting at 2. */
  predicate Numbered(cs: seq<Consumption>)
  {
    forall k :: 0 <= k < |cs| ==> cs[k].grantVersion == 2 + Uses(cs[..k], cs[k].grantId)
  }

  lemma NumberedAppend(cs: seq<Consumption>, c: Consumption)
    requires Numbered(cs) && c.grantVersion == 2 + Uses(cs, c.grantId)
    ensures Numbered(cs + [c])
  {
    var all := cs + [c];
    forall k | 0 <= k < |all|
      ensures all[k].grantVersion == 2 + Uses(all[..k], all[k].grantId)
    {
      assert all[..k] == cs[..k];
      assert k == |cs| ==> cs[..k] == cs;
    }
  }

  lemma ConsumeNumbers(t: Tables, q: ConsumeRequest, now: Time, row: Option<Consumption>)
    requires q.grantId in t.grants ==> GrantOk(t, q.grantId)
    requires Numbered(t.consumptions)
    ensures Numbered(Consume(t, q, now, row).1.consumptions)
  {
    var after := Consume(t, q, now, row).1;
    if after != t {
      NumberedAppend(t.consumptions, after.consumptions[|t.consumptions|]);
    }
  }

  /** In every run the versions recorded with a grant's consumptions are 2, 3, ... in order. */
  lemma {:induction false} RunNumbersUses(actions: seq<Action>)
    requires Possible(actions)
    ensures Numbered(Run(actions).consumptions)
  {
    if actions != [] {
      var before := actions[..|actions| - 1];
      assert forall k :: 0 <= k < |before| ==> before[..k] == actions[..k];
      RunNumbersUses(before);
      RunKeepsTables(before);
      match actions[|actions| - 1]
      case CreateAction(_, _) =>
      case ConsumeAction(q, now, row) => ConsumeNumbers(Run(before), q, now, row);
    }
  }

  /** Whichever matching row the database returns, the answer and the new state are the same. */
  lemma AnswerIsIndependent(t: Tables, q: ConsumeRequest, now: Time, one: Option<Consumption>, other: Option<Consumption>)
    requires TablesOk(t) && LimitOne(t.consumptions, q, one) && LimitOne(t.consumptions, q, other)
    ensures Consume(t, q, now, one) == Consume(t, q, now, other)
  {
    if one.Some? && other.Some? && one != other {
      OnlyMatch(t.consumptions, q, one.value, other.value);
    }
  }

  lemma OnlyMatch(cs: seq<Consumption>, q: ConsumeRequest, one: Consumption, other: Consumption)
    requires Unique(cs) && one in cs && other in cs && Matches(one, q) && Matches(other, q) && one != other
    ensures !Same(one, q) && !Same(other, q)
  {
    var i :| 0 <= i < |cs| && cs[i] == one;
    var j :| 0 <= j < |cs| && cs[j] == other;
    if i < j {
      assert one.consumptionId != other.consumptionId && !(one.grantId == other.grantId && one.taskId == other.taskId);
    } else {
      assert j < i;
      assert one.consumptionId != other.consumptionId && !(one.grantId == other.grantId && one.taskId == other.taskId);
    }
  }

  // ----- Repetition

  predicate SameRequest(q: ConsumeRequest, again: ConsumeRequest)
  {
    && q.consumptionId == again.consumptionId && q.grantId == again.grantId && q.tenantId == again.tenantId
    && q.taskId == again.taskId
  }

  lemma StepKeepsRows(t: Tables, a: Action, c: Consumption)
    requires c in t.consumptions && TablesOk(t) && Enabled(t, a)
    ensures c in Next(t, a).consumptions
    ensures c.grantId in Next(t, a).grants && Next(t, a).grants[c.grantId].tenantId == c.tenantId
  {
    var k :| 0 <= k < |t.consumptions| && t.consumptions[k] == c;
    assert t.consumptions <= Next(t, a).consumptions;
    assert Next(t, a).consumptions[k] == c;
  }

  lemma {:induction false} RowsArePermanent(actions: seq<Action>, n: nat, c: Consumption)
    requires Possible(actions) && n <= |actions| && c in Run(actions[..n]).consumptions
    ensures c in Run(actions).consumptions
    decreases |actions|
  {
    if n == |actions| {
      assert actions[..n] == actions;
    } else {
      var before := actions[..|actions| - 1];
      assert forall k :: 0 <= k <= |before| ==> before[..k] == actions[..k];
      RowsArePermanent(before, n, c);
      RunKeepsTables(before);
      assert Enabled(Run(actions[..|before|]), actions[|before|]);
      StepKeepsRows(Run(before), actions[|before|], c);
    }
  }

  lemma SuccessLeavesRow(t: Tables, q: ConsumeRequest, now: Time, row: Option<Consumption>) returns (c: Consumption)
    requires LimitOne(t.consumptions, q, row) && Consume(t, q, now, row).0.Success?
    ensures c in Consume(t, q, now, row).1.consumptions && Same(c, q) && (row.None? ==> c.actorId == q.actorId)
  {
    if row.Some? {
      c := row.value;
    } else {
      var after := Consume(t, q, now, row).1;
      c := after.consumptions[|t.consumptions|];
    }
  }

  lemma RowAnswers(t: Tables, q: ConsumeRequest, now: Time, row: Option<Consumption>, c: Consumption)
    requires TablesOk(t) && LimitOne(t.consumptions, q, row) && c in t.consumptions && Same(c, q)
    ensures Consume(t, q, now, row).0.Success? && Consume(t, q, now, row).1 == t
  {
    var k :| 0 <= k < |t.consumptions| && t.consumptions[k] == c;
    AnswerIsIndependent(t, q, now, Some(c), row);
  }

  /** A consumption that succeeded answers the same request with success and no change for ever, even after expiry. */
  lemma ConsumptionIsIdempotent(actions: seq<Action>, n: nat, again: ConsumeRequest, now: Time, row: Option<Consumption>)
    requires Possible(actions) && n < |actions| && actions[n].ConsumeAction?
    requires Consume(Run(actions[..n]), actions[n].consume, actions[n].now, actions[n].row).0.Success?
    requires SameRequest(actions[n].consume, again) && LimitOne(Run(actions).consumptions, again, row)
    ensures Consume(Run(actions), again, now, row).0.Success? && Consume(Run(actions), again, now, row).1 == Run(actions)
  {
    assert Enabled(Run(actions[..n]), actions[n]);
    var c := SuccessLeavesRow(Run(actions[..n]), actions[n].consume, actions[n].now, actions[n].row);
    assert c in Run(actions[..n + 1]).consumptions by {
      assert actions[..n + 1][..n] == actions[..n];
    }
    RowsArePermanent(actions, n + 1, c);
    RunKeepsTables(actions);
    RowAnswers(Run(actions), again, now, row, c);
  }
}
