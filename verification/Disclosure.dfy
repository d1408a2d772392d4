/**
 Disclosure decisions, deliveries and receipts (internal/disclosure/disclosure.go, repository.go).
 Sorted lists without repetition are sets; the payload digest is a parameter, and signatures are
 opaque values that every stored receipt carries.
 */
module Disclosure {
  import opened Wrappers
  import opened Clock
  import opened Text

  datatype Decision = Decision(
    decisionId: string, actorId: string, tenantId: string, evidenceId: string, policyBundleDigest: string,
    policyInputDigest: string, permittedFields: set<string>, representation: string, requiredRedactions: set<string>,
    allowTaintedFields: bool, evaluatedAt: Time, expiresAt: Time)

  datatype Receipt = Receipt(
    receiptId: string, tenantId: string, evidenceId: string, actorId: string, decisionId: string,
    policyBundleDigest: string, policyInputDigest: string, representation: string, fieldsDelivered: set<string>,
    taintedFields: set<string>, redactionsApplied: set<string>, payloadDigest: string, requestId: string,
    deliveredAt: Time, signature: string)

  datatype Delivery = Delivery(
    decisionId: string, actorId: string, tenantId: string, evidenceId: string, requestId: string,
    representation: string, fields: map<string, string>, redactions: seq<string>, tainted: seq<string>)

  datatype DisclosureError =
    | InvalidRequest | DecisionNotFound | DecisionExpired | BindingMismatch
    | FieldNotPermitted | RedactionMissing | TaintNotDelivered | TaintNotPermitted | InvalidReceipt
    | ReceiptConflict

  type Digester = map<string, string> -> string

  /** `uniqueSorted`: the non-empty values. */
  function Unique(values: seq<string>): set<string>
  {
    set v | v in values && v != ""
  }

  // ----- Preparing a delivery

  /** The checks of a delivery against its stored decision, and the unsigned receipt they lead to. */
  function Prepare(decisions: map<string, Decision>, q: Delivery, now: Time, receiptId: string, digest: Digester)
    : Result<Receipt, DisclosureError>
  {
    if q.decisionId == "" || q.actorId == "" || q.tenantId == "" || q.evidenceId == "" || q.requestId == ""
       || q.representation == "" || q.fields == map[] then Failure(InvalidRequest)
    else if q.decisionId !in decisions || decisions[q.decisionId].tenantId != q.tenantId then Failure(DecisionNotFound)
    else
      var d := decisions[q.decisionId];
      if now >= d.expiresAt then Failure(DecisionExpired)
      else if q.actorId != d.actorId || q.evidenceId != d.evidenceId || q.representation != d.representation then
        Failure(BindingMismatch)
      else if !(q.fields.Keys <= d.permittedFields - {""}) then Failure(FieldNotPermitted)
      else if !(d.requiredRedactions <= Unique(q.redactions)) then Failure(RedactionMissing)
      else if !(Unique(q.tainted) <= q.fields.Keys) then Failure(TaintNotDelivered)
      else if Unique(q.tainted) != {} && !d.allowTaintedFields then Failure(TaintNotPermitted)
      else
        Success(Receipt(receiptId, d.tenantId, d.evidenceId, d.actorId, d.decisionId, d.policyBundleDigest,
                        d.policyInputDigest, q.representation, q.fields.Keys, Unique(q.tainted), Unique(q.redactions),
                        digest(q.fields), q.requestId, now, ""))
  }

  // ----- The receipt table

  predicate SameScope(a: Receipt, b: Receipt)
  {
    a.tenantId == b.tenantId && a.actorId == b.actorId && a.requestId == b.requestId
  }

  /** `sameDelivery`: equal but for identifier, time and signature. */
  predicate SameDelivery(a: Receipt, b: Receipt)
  {
    a == b.(receiptId := a.receiptId, deliveredAt := a.deliveredAt, signature := a.signature)
  }

  /** Position of the receipt of a scope, or the number of rows. */
  function Find(rows: seq<Receipt>, r: Receipt): nat
  {
    if rows == [] then 0 else if SameScope(rows[0], r) then 0 else 1 + Find(rows[1..], r)
  }

  lemma {:induction false} FindFinds(rows: seq<Receipt>, r: Receipt)
    ensures var k := Find(rows, r);
            && k <= |rows| && (k < |rows| ==> SameScope(rows[k], r))
            && forall i :: 0 <= i < k ==> !SameScope(rows[i], r)
  {
    if rows != [] && !SameScope(rows[0], r) {
      FindFinds(rows[1..], r);
      forall i | 0 <= i < 1 + Find(rows[1..], r)
        ensures !SameScope(rows[i], r)
      {
        assert i > 0 ==> rows[i] == rows[1..][i - 1];
      }
    }
  }

  predicate IdUsed(rows: seq<Receipt>, id: string)
  {
    exists k :: 0 <= k < |rows| && rows[k].receiptId == id
  }

  /** `validateReceipt` and the signature that every stored receipt carries. */
  predicate ValidReceipt(r: Receipt)
  {
    && r.receiptId != "" && r.tenantId != "" && r.evidenceId != "" && r.actorId != "" && r.decisionId != ""
    && r.policyBundleDigest != "" && r.policyInputDigest != "" && r.representation != "" && r.fieldsDelivered != {}
    && r.payloadDigest != "" && r.requestId != "" && r.deliveredAt != ZERO && r.signature != ""
  }

  /** `CreateReceipt`: insert unless a constraint objects, then compare with the receipt of the scope. */
  function CreateReceipt(rows: seq<Receipt>, r: Receipt): (Result<Receipt, DisclosureError>, seq<Receipt>)
  {
    FindFinds(rows, r);
    var k := Find(rows, r);
    if !ValidReceipt(r) then (Failure(InvalidReceipt), rows)
    else if k < |rows| then
      if SameDelivery(rows[k], r) then (Success(rows[k]), rows) else (Failure(ReceiptConflict), rows)
    else if IdUsed(rows, r.receiptId) then (Failure(ReceiptConflict), rows)
    else (Success(r), rows + [r])
  }

  /**
   `DeliverContextWithTaint` without interruption: a repeated request gets its stored receipt, a new one
   is signed and stored.
   */
  function Deliver(decisions: map<string, Decision>, rows: seq<Receipt>, q: Delivery, now: Time, receiptId: string,
                   signature: string, digest: Digester): (Result<Receipt, DisclosureError>, seq<Receipt>)
  {
    match Prepare(decisions, q, now, receiptId, digest)
    case Failure(e) => (Failure(e), rows)
    case Success(r) =>
      FindFinds(rows, r);
      var k := Find(rows, r);
      if k == |rows| then CreateReceipt(rows, r.(signature := signature))
      else if SameDelivery(rows[k], r) then (Success(rows[k]), rows)
      else (Failure(ReceiptConflict), rows)
  }

  // ----- The in-memory repository

  function RequestKey(r: Receipt): string
  {
    ScopedKey(r.tenantId, r.actorId, r.requestId)
  }

  /** The receipt's composite key is that of another scope as well. */
  predicate AmbiguousScope(r: Receipt)
  {
    Ambiguous(r.tenantId, r.actorId, r.requestId)
  }

  /** A composite key stands for one scope exactly when the scope's parts are not ambiguous. */
  lemma KeyStandsForScope(r: Receipt)
    requires ValidReceipt(r)
    ensures (forall other :: ValidReceipt(other) && RequestKey(other) == RequestKey(r) ==> SameScope(other, r)) <==>
            !AmbiguousScope(r)
  {
    ScopedKeyShared(r.tenantId, r.actorId, r.requestId);
    if AmbiguousScope(r) {
      var t, a, k :| && NonEmptyScope(t, a, k) && (t, a, k) != (r.tenantId, r.actorId, r.requestId)
                     && ScopedKey(t, a, k) == RequestKey(r);
      var other := r.(tenantId := t, actorId := a, requestId := k);
      assert ValidReceipt(other) && RequestKey(other) == RequestKey(r) && !SameScope(other, r);
    } else {
      forall other | ValidReceipt(other) && RequestKey(other) == RequestKey(r)
        ensures SameScope(other, r)
      {
        assert ScopedKey(other.tenantId, other.actorId, other.requestId) == RequestKey(r);
      }
    }
  }

  /** Both maps index exactly the receipts stored so far. */
  predicate Indexed(rows: seq<Receipt>, receipts: map<string, Receipt>, requests: map<string, string>)
  {
    && (forall k :: 0 <= k < |rows| ==> ValidReceipt(rows[k]) && IndexedRow(rows[k], receipts, requests))
    && (forall key :: key in requests ==> KeyUsed(rows, key))
    && (forall id :: id in receipts ==> IdUsed(rows, id))
  }

  predicate KeyUsed(rows: seq<Receipt>, key: string)
  {
    exists k :: 0 <= k < |rows| && RequestKey(rows[k]) == key
  }

  predicate IndexedRow(r: Receipt, receipts: map<string, Receipt>, requests: map<string, string>)
  {
    && RequestKey(r) in requests && requests[RequestKey(r)] == r.receiptId
    && r.receiptId in receipts && receipts[r.receiptId] == r
  }

  lemma KeyHasReceipt(rows: seq<Receipt>, receipts: map<string, Receipt>, requests: map<string, string>, key: string)
    requires Indexed(rows, receipts, requests) && key in requests
    ensures requests[key] in receipts && RequestKey(receipts[requests[key]]) == key
  {
    var k :| 0 <= k < |rows| && RequestKey(rows[k]) == key;
    assert IndexedRow(rows[k], receipts, requests);
  }

  /** Looking a scope up by its composite key finds the receipt of that scope, unless the scope is ambiguous. */
  lemma KeyFindsScope(rows: seq<Receipt>, receipts: map<string, Receipt>, requests: map<string, string>, r: Receipt)
    requires Indexed(rows, receipts, requests) && ValidReceipt(r) && !AmbiguousScope(r)
    ensures RequestKey(r) in requests <==> Find(rows, r) < |rows|
    ensures Find(rows, r) < |rows| ==> IndexedRow(rows[Find(rows, r)], receipts, requests)
                                       && RequestKey(rows[Find(rows, r)]) == RequestKey(r)
  {
    FindFinds(rows, r);
    if RequestKey(r) in requests {
      var k :| 0 <= k < |rows| && RequestKey(rows[k]) == RequestKey(r);
      KeyStandsForScope(r);
      assert ValidReceipt(rows[k]) && SameScope(rows[k], r);
    }
  }

  lemma RowsStayIndexed(rows: seq<Receipt>, receipts: map<string, Receipt>, requests: map<string, string>, r: Receipt)
    requires Indexed(rows, receipts, requests) && ValidReceipt(r)
    requires RequestKey(r) !in requests && r.receiptId !in receipts
    ensures forall k :: 0 <= k < |rows + [r]| ==>
                          && ValidReceipt((rows + [r])[k])
                          && IndexedRow((rows + [r])[k], receipts[r.receiptId := r], requests[RequestKey(r) := r.receiptId])
  {
    forall k | 0 <= k < |rows|
      ensures IndexedRow(rows[k], receipts[r.receiptId := r], requests[RequestKey(r) := r.receiptId])
    {
      assert IndexedRow(rows[k], receipts, requests);
    }
  }

  lemma UsedStill(rows: seq<Receipt>, r: Receipt, key: string, id: string)
    ensures KeyUsed(rows, key) || key == RequestKey(r) ==> KeyUsed(rows + [r], key)
    ensures IdUsed(rows, id) || id == r.receiptId ==> IdUsed(rows + [r], id)
  {
    var all := rows + [r];
    assert all[|rows|] == r;
    if k :| 0 <= k < |rows| && RequestKey(rows[k]) == key {
      assert all[k] == rows[k];
    }
    if k :| 0 <= k < |rows| && rows[k].receiptId == id {
      assert all[k] == rows[k];
    }
  }

  lemma IndexedInsert(rows: seq<Receipt>, receipts: map<string, Receipt>, requests: map<string, string>, r: Receipt)
    requires Indexed(rows, receipts, requests) && ValidReceipt(r)
    requires RequestKey(r) !in requests && r.receiptId !in receipts
    ensures Indexed(rows + [r], receipts[r.receiptId := r], requests[RequestKey(r) := r.receiptId])
  {
    RowsStayIndexed(rows, receipts, requests, r);
    forall key | key in requests || key == RequestKey(r)
      ensures KeyUsed(rows + [r], key)
    {
      UsedStill(rows, r, key, "");
    }
    forall id | id in receipts || id == r.receiptId
      ensures IdUsed(rows + [r], id)
    {
      UsedStill(rows, r, "", id);
    }
  }

  lemma IdsAreIndexed(rows: seq<Receipt>, receipts: map<string, Receipt>, requests: map<string, string>, id: string)
    requires Indexed(rows, receipts, requests)
    ensures id in receipts <==> IdUsed(rows, id)
  {
    if k :| 0 <= k < |rows| && rows[k].receiptId == id {
      assert IndexedRow(rows[k], receipts, requests);
    }
  }

  class MemoryRepository {
    var receipts: map<string, Receipt>
    var requests: map<string, string>
    ghost var rows: seq<Receipt>

    ghost predicate Valid()
      reads this
    {
      Indexed(rows, receipts, requests)
    }

    constructor ()
      ensures Valid() && rows == []
    {
      receipts, requests, rows := map[], map[], [];
    }

    /** The receipt table for every scope that is not ambiguous; otherwise one receipt per composite key. */
    method Create(r: Receipt) returns (res: Result<Receipt, DisclosureError>)
      requires Valid()
      modifies this
      ensures Valid()
      ensures !AmbiguousScope(r) ==> (res, rows) == CreateReceipt(old(rows), r)
      ensures res.Success? ==> SameDelivery(res.value, r) && res.value in rows
      ensures rows == old(rows) || (rows == old(rows) + [r] && res == Success(r) && !KeyUsed(old(rows), RequestKey(r)))
      ensures ValidReceipt(r) && !KeyUsed(old(rows), RequestKey(r)) && !IdUsed(old(rows), r.receiptId) ==>
                rows == old(rows) + [r]
    {
      if !ValidReceipt(r) {
        return Failure(InvalidReceipt);
      }
      if !AmbiguousScope(r) {
        KeyFindsScope(rows, receipts, requests, r);
      }
      IdsAreIndexed(rows, receipts, requests, r.receiptId);
      var key := RequestKey(r);
      if key in requests {
        KeyHasReceipt(rows, receipts, requests, key);
        var existing := receipts[requests[key]];
        if SameDelivery(existing, r) {
          ReceiptIsRow(rows, receipts, requests, requests[key]);
          return Success(existing);
        }
        return Failure(ReceiptConflict);
      }
      // A stored receipt equal to `r` would have its key and was answered above.
      if r.receiptId in receipts {
        return Failure(ReceiptConflict);
      }
      NoKeyNoRow(rows, receipts, requests, key);
      IndexedInsert(rows, receipts, requests, r);
      receipts := receipts[r.receiptId := r];
      requests := requests[key := r.receiptId];
      rows := rows + [r];
      assert rows[|rows| - 1] == r;
      return Success(r);
    }
  }

  lemma ReceiptIsRow(rows: seq<Receipt>, receipts: map<string, Receipt>, requests: map<string, string>, id: string)
    requires Indexed(rows, receipts, requests) && id in receipts
    ensures receipts[id] in rows
  {
    var k :| 0 <= k < |rows| && rows[k].receiptId == id;
    assert IndexedRow(rows[k], receipts, requests);
  }

  lemma NoKeyNoRow(rows: seq<Receipt>, receipts: map<string, Receipt>, requests: map<string, string>, key: string)
    requires Indexed(rows, receipts, requests) && key !in requests
    ensures !KeyUsed(rows, key)
  {
    assert forall k :: 0 <= k < |rows| ==> IndexedRow(rows[k], receipts, requests);
  }

  // ----- Every run

  /** A delivery between its checks and its insert is pending under a name. */
  datatype State = State(decisions: map<string, Decision>, rows: seq<Receipt>, pending: map<string, Receipt>)

  datatype Action =
    | Evaluate(decision: Decision)
    | Begin(name: string, delivery: Delivery, now: Time, receiptId: string)
    | Finish(name: string, signature: string)
    | Abandon(name: string)

  const INITIAL: State := State(map[], [], map[])

  predicate ValidDecision(d: Decision)
  {
    && d.decisionId != "" && d.actorId != "" && d.tenantId != "" && d.evidenceId != "" && d.policyBundleDigest != ""
    && d.policyInputDigest != "" && d.representation != "" && d.permittedFields != {} && d.evaluatedAt != ZERO
    && d.evaluatedAt < d.expiresAt
  }

  /** `CreateDecision`: stored decisions are immutable. */
  function CreateDecision(decisions: map<string, Decision>, d: Decision): map<string, Decision>
  {
    if !ValidDecision(d) || d.decisionId in decisions then decisions else decisions[d.decisionId := d]
  }

  /** A delivery that finds its receipt already stored ends at once; the others insert in a later step. */
  function Next(s: State, a: Action, digest: Digester): State
  {
    match a
    case Evaluate(d) => s.(decisions := CreateDecision(s.decisions, d))
    case Begin(name, q, now, receiptId) =>
      (match Prepare(s.decisions, q, now, receiptId, digest)
       case Failure(_) => s
       case Success(r) => if Find(s.rows, r) < |s.rows| then s else s.(pending := s.pending[name := r]))
    case Finish(name, signature) =>
      if name !in s.pending then s
      else s.(rows := CreateReceipt(s.rows, s.pending[name].(signature := signature)).1, pending := s.pending - {name})
    case Abandon(name) => s.(pending := s.pending - {name})
  }

  function Run(actions: seq<Action>, digest: Digester): State
  {
    if actions == [] then INITIAL else Next(Run(actions[..|actions| - 1], digest), actions[|actions| - 1], digest)
  }

  predicate UniqueScopes(rows: seq<Receipt>)
  {
    forall i, j :: 0 <= i < j < |rows| ==> !SameScope(rows[i], rows[j]) && rows[i].receiptId != rows[j].receiptId
  }

  /** What a receipt proves about its delivery. */
  predicate Earned(decisions: map<string, Decision>, r: Receipt)
  {
    && r.decisionId in decisions
    && var d := decisions[r.decisionId];
       && r.tenantId == d.tenantId && r.actorId == d.actorId && r.evidenceId == d.evidenceId
       && r.policyBundleDigest == d.policyBundleDigest && r.policyInputDigest == d.policyInputDigest
       && r.representation == d.representation && r.deliveredAt < d.expiresAt
       && r.fieldsDelivered <= d.permittedFields && r.fieldsDelivered != {}
       && d.requiredRedactions <= r.redactionsApplied
       && r.taintedFields <= r.fieldsDelivered && (r.taintedFields != {} ==> d.allowTaintedFields)
  }

  predicate StateOk(s: State)
  {
    && UniqueScopes(s.rows)
    && (forall id :: id in s.decisions ==> s.decisions[id].decisionId == id)
    && (forall k :: 0 <= k < |s.rows| ==> Earned(s.decisions, s.rows[k]))
    && (forall name :: name in s.pending ==> Earned(s.decisions, s.pending[name]))
  }

  lemma PreparedIsEarned(decisions: map<string, Decision>, q: Delivery, now: Time, receiptId: string, digest: Digester)
    requires forall id :: id in decisions ==> decisions[id].decisionId == id
    requires Prepare(decisions, q, now, receiptId, digest).Success?
    ensures var r := Prepare(decisions, q, now, receiptId, digest).value;
            && Earned(decisions, r) && r.receiptId == receiptId && r.deliveredAt == now
            && r.decisionId == q.decisionId && r.requestId == q.requestId && r.tenantId == q.tenantId
            && r.actorId == q.actorId && r.evidenceId == q.evidenceId && r.fieldsDelivered == q.fields.Keys
            && r.payloadDigest == digest(q.fields)
  {
    var k :| k in q.fields;
    assert k in q.fields.Keys;
  }

  /**
   A delivery is prepared exactly when the request is complete and its tenant has that decision, not yet
   expired, for this actor, evidence and representation; every field is permitted, every required
   redaction applied, every tainted name delivered, and taint allowed if there is any.
   */
  lemma PreparedExactlyWhen(decisions: map<string, Decision>, q: Delivery, now: Time, receiptId: string, digest: Digester)
    ensures Prepare(decisions, q, now, receiptId, digest).Success? <==>
            && "" !in {q.decisionId, q.actorId, q.tenantId, q.evidenceId, q.requestId, q.representation}
            && (exists f :: f in q.fields) && q.decisionId in decisions
            && var d := decisions[q.decisionId];
               && d.tenantId == q.tenantId && d.actorId == q.actorId && d.evidenceId == q.evidenceId
               && d.representation == q.representation && now < d.expiresAt
               && (forall f :: f in q.fields ==> f != "" && f in d.permittedFields)
               && (forall r :: r in d.requiredRedactions ==> r != "" && r in q.redactions)
               && (forall f :: f in q.tainted && f != "" ==> f in q.fields)
               && (d.allowTaintedFields || forall f :: f in q.tainted ==> f == "")
  {
    if q.decisionId in decisions {
      var d := decisions[q.decisionId];
      assert (forall f :: f in q.fields ==> f != "" && f in d.permittedFields) <==> q.fields.Keys <= d.permittedFields - {""};
      assert Unique(q.tainted) == {} <==> forall f :: f in q.tainted ==> f == "" by {
        if f :| f in q.tainted && f != "" {
          assert f in Unique(q.tainted);
        }
      }
    }
    if q.fields != map[] {
      assert q.fields.Keys != {};
      var f :| f in q.fields.Keys;
    }
  }

  lemma CreateKeepsScopes(rows: seq<Receipt>, r: Receipt)
    requires UniqueScopes(rows)
    ensures UniqueScopes(CreateReceipt(rows, r).1)
  {
    FindFinds(rows, r);
  }

  lemma NextKeepsState(s: State, a: Action, digest: Digester)
    requires StateOk(s)
    ensures StateOk(Next(s, a, digest)) && s.rows <= Next(s, a, digest).rows
  {
    match a
    case Evaluate(d) =>
    case Begin(_, q, now, receiptId) =>
      if Prepare(s.decisions, q, now, receiptId, digest).Success? {
        PreparedIsEarned(s.decisions, q, now, receiptId, digest);
      }
    case Finish(name, signature) =>
      if name in s.pending {
        CreateKeepsScopes(s.rows, s.pending[name].(signature := signature));
      }
    case Abandon(_) =>
  }

  /**
   In every interleaving of deliveries there is at most one receipt per tenant, actor and request, and
   every receipt was earned: permitted fields only, required redactions applied, before expiry, and
   tainted fields only under a decision that allows them.
   */
  lemma {:induction false} RunKeepsState(actions: seq<Action>, digest: Digester)
    ensures StateOk(Run(actions, digest))
  {
    if actions != [] {
      RunKeepsState(actions[..|actions| - 1], digest);
      NextKeepsState(Run(actions[..|actions| - 1], digest), actions[|actions| - 1], digest);
    }
  }

  // ----- What is stored is complete

  predicate CompleteDecision(d: Decision)
  {
    && "" !in {d.decisionId, d.actorId, d.tenantId, d.evidenceId, d.policyBundleDigest, d.policyInputDigest,
               d.representation}
    && (exists f :: f in d.permittedFields) && ZERO < d.evaluatedAt < d.expiresAt
  }

  predicate CompleteReceipt(r: Receipt)
  {
    && "" !in {r.receiptId, r.tenantId, r.evidenceId, r.actorId, r.decisionId, r.policyBundleDigest, r.policyInputDigest,
               r.representation, r.payloadDigest, r.requestId, r.signature}
    && (exists f :: f in r.fieldsDelivered) && r.deliveredAt > ZERO
  }

  lemma DecisionIsComplete(d: Decision)
    ensures ValidDecision(d) <==> CompleteDecision(d)
  {
    if d.permittedFields != {} {
      var f :| f in d.permittedFields;
    }
  }

  lemma ReceiptIsComplete(r: Receipt)
    ensures ValidReceipt(r) <==> CompleteReceipt(r)
  {
    if r.fieldsDelivered != {} {
      var f :| f in r.fieldsDelivered;
    }
  }

  predicate AllComplete(s: State)
  {
    && (forall id :: id in s.decisions ==> CompleteDecision(s.decisions[id]))
    && (forall k :: 0 <= k < |s.rows| ==> CompleteReceipt(s.rows[k]))
  }

  lemma NextKeepsComplete(s: State, a: Action, digest: Digester)
    requires AllComplete(s)
    ensures AllComplete(Next(s, a, digest))
  {
    match a
    case Evaluate(d) =>
      if ValidDecision(d) {
        DecisionIsComplete(d);
      }
    case Finish(name, signature) =>
      if name in s.pending {
        var r := s.pending[name].(signature := signature);
        FindFinds(s.rows, r);
        if ValidReceipt(r) {
          ReceiptIsComplete(r);
        }
      }
    case Begin(_, _, _, _) => assert Next(s, a, digest).rows == s.rows && Next(s, a, digest).decisions == s.decisions;
    case Abandon(_) => assert Next(s, a, digest).rows == s.rows && Next(s, a, digest).decisions == s.decisions;
  }

  /** In every run every stored decision and every stored receipt is complete; a receipt is always signed. */
  lemma {:induction false} StoredIsComplete(actions: seq<Action>, digest: Digester)
    ensures AllComplete(Run(actions, digest))
  {
    if actions != [] {
      StoredIsComplete(actions[..|actions| - 1], digest);
      NextKeepsComplete(Run(actions[..|actions| - 1], digest), actions[|actions| - 1], digest);
    }
  }

  /** A delivery that is prepared under a new request and signed is stored, and is no longer pending. */
  lemma DeliveryCompletes(s: State, q: Delivery, name: string, now: Time, receiptId: string, signature: string,
                          digest: Digester)
    requires Prepare(s.decisions, q, now, receiptId, digest).Success?
    requires var r := Prepare(s.decisions, q, now, receiptId, digest).value.(signature := signature);
             && CompleteReceipt(r) && !IdUsed(s.rows, receiptId)
             && forall k :: 0 <= k < |s.rows| ==> !(s.rows[k].tenantId == r.tenantId && s.rows[k].actorId == r.actorId
                                                    && s.rows[k].requestId == r.requestId)
    ensures var r := Prepare(s.decisions, q, now, receiptId, digest).value;
            var begun := Next(s, Begin(name, q, now, receiptId), digest);
            var done := Next(begun, Finish(name, signature), digest);
            && begun == s.(pending := s.pending[name := r])
            && done.rows == s.rows + [r.(signature := signature)] && done.decisions == s.decisions
            && name !in done.pending
            && name !in Next(begun, Abandon(name), digest).pending && Next(begun, Abandon(name), digest).rows == s.rows
  {
    var r := Prepare(s.decisions, q, now, receiptId, digest).value;
    FindFinds(s.rows, r);
    FindFinds(s.rows, r.(signature := signature));
  }

  /** A complete decision is stored, unless its identifier is taken. */
  lemma DecisionIsStored(s: State, d: Decision, digest: Digester)
    requires CompleteDecision(d) && d.decisionId !in s.decisions
    ensures Next(s, Evaluate(d), digest) == s.(decisions := s.decisions[d.decisionId := d])
  {
  }

  /**
   A delivery answers with the receipt that is stored for its request: the one already there if it is the
   same delivery, a conflict if it is another, and otherwise its own, signed and appended.
   */
  lemma DeliverAnswers(decisions: map<string, Decision>, rows: seq<Receipt>, q: Delivery, now: Time, receiptId: string,
                       signature: string, digest: Digester)
    requires Prepare(decisions, q, now, receiptId, digest).Success?
    ensures var r := Prepare(decisions, q, now, receiptId, digest).value;
            var (res, after) := Deliver(decisions, rows, q, now, receiptId, signature, digest);
            && (res.Success? ==> res.value in after && SameScope(res.value, r) && SameDelivery(res.value, r))
            && (after == rows || (after == rows + [r.(signature := signature)] && res == Success(r.(signature := signature))))
            && ((exists k :: 0 <= k < |rows| && SameScope(rows[k], r)) ==>
                  after == rows && (res.Success? || res == Failure(ReceiptConflict)))
            && ((forall k :: 0 <= k < |rows| ==> !SameScope(rows[k], r)) ==>
                  (res.Success? <==> CompleteReceipt(r.(signature := signature)) && !IdUsed(rows, receiptId)))
            && (UniqueScopes(rows) ==>
                  forall k :: 0 <= k < |rows| && SameScope(rows[k], r) ==>
                                (res.Success? <==> SameDelivery(rows[k], r)))
  {
    var r := Prepare(decisions, q, now, receiptId, digest).value;
    FindFinds(rows, r);
    FindFinds(rows, r.(signature := signature));
    ReceiptIsComplete(r.(signature := signature));
    var after := Deliver(decisions, rows, q, now, receiptId, signature, digest).1;
    assert after != rows ==> after[|rows|] == r.(signature := signature);
    if UniqueScopes(rows) {
      forall k | 0 <= k < |rows| && SameScope(rows[k], r)
        ensures Find(rows, r) < |rows| && rows[Find(rows, r)] == rows[k]
      {
        OneReceiptOfScope(rows, rows[k], r);
      }
    }
  }

  lemma {:induction false} ReceiptsArePermanent(actions: seq<Action>, n: nat, digest: Digester)
    requires n <= |actions|
    ensures Run(actions[..n], digest).rows <= Run(actions, digest).rows
    decreases |actions|
  {
    if n == |actions| {
      assert actions[..n] == actions;
    } else {
      var before := actions[..|actions| - 1];
      assert before[..n] == actions[..n];
      ReceiptsArePermanent(before, n, digest);
      RunKeepsState(before, digest);
      NextKeepsState(Run(before, digest), actions[|actions| - 1], digest);
    }
  }

  /**
   Once a receipt is stored, in every later state a delivery of the same scope inserts nothing: it gets
   that very receipt when it is the same delivery and a conflict otherwise.
   */
  lemma StoredReceiptAnswers(actions: seq<Action>, n: nat, digest: Digester, stored: Receipt, r: Receipt)
    requires n <= |actions| && stored in Run(actions[..n], digest).rows && SameScope(stored, r) && ValidReceipt(r)
    ensures CreateReceipt(Run(actions, digest).rows, r) ==
            (if SameDelivery(stored, r) then Success(stored) else Failure(ReceiptConflict), Run(actions, digest).rows)
  {
    ReceiptsArePermanent(actions, n, digest);
    RunKeepsState(actions, digest);
    OneReceiptOfScope(Run(actions, digest).rows, stored, r);
  }

  lemma OneReceiptOfScope(rows: seq<Receipt>, stored: Receipt, r: Receipt)
    requires UniqueScopes(rows) && stored in rows && SameScope(stored, r)
    ensures Find(rows, r) < |rows| && rows[Find(rows, r)] == stored
  {
    FindFinds(rows, r);
    var k :| 0 <= k < |rows| && rows[k] == stored;
    var f := Find(rows, r);
    assert f <= k;
    if f < k {
      assert false;
    }
  }

  /** A receipt that a delivery got stays the answer to every delivery that is the same. */
  lemma StoredDeliveryAnswers(actions: seq<Action>, n: nat, digest: Digester, first: Receipt, second: Receipt)
    requires n < |actions| && actions[n].Finish? && actions[n].name in Run(actions[..n], digest).pending
    requires first == Run(actions[..n], digest).pending[actions[n].name].(signature := actions[n].signature)
    requires CreateReceipt(Run(actions[..n], digest).rows, first).0.Success? && SameDelivery(first, second)
    requires ValidReceipt(second)
    ensures CreateReceipt(Run(actions, digest).rows, second) ==
            (CreateReceipt(Run(actions[..n], digest).rows, first).0, Run(actions, digest).rows)
  {
    CreateStores(Run(actions[..n], digest).rows, first, second);
    FinishCreates(actions, n, digest);
    var stored := CreateReceipt(Run(actions[..n], digest).rows, first).0.value;
    StoredReceiptAnswers(actions, n + 1, digest, stored, second);
  }

  lemma FinishCreates(actions: seq<Action>, n: nat, digest: Digester)
    requires n < |actions| && actions[n].Finish? && actions[n].name in Run(actions[..n], digest).pending
    ensures var s := Run(actions[..n], digest);
            Run(actions[..n + 1], digest).rows ==
            CreateReceipt(s.rows, s.pending[actions[n].name].(signature := actions[n].signature)).1
  {
    assert actions[..n + 1][..n] == actions[..n];
  }

  lemma CreateStores(rows: seq<Receipt>, first: Receipt, second: Receipt)
    requires CreateReceipt(rows, first).0.Success? && SameDelivery(first, second)
    ensures var (stored, after) := CreateReceipt(rows, first);
            stored.value in after && SameDelivery(stored.value, second) && SameScope(stored.value, second)
  {
    FindFinds(rows, first);
    var (stored, after) := CreateReceipt(rows, first);
    assert after != rows ==> after[|rows|] == first;
  }

  // ----- Repeating a request

  /** Stored decisions are never replaced or removed. */
  lemma {:induction false} DecisionsArePermanent(actions: seq<Action>, n: nat, digest: Digester, id: string)
    requires n <= |actions| && id in Run(actions[..n], digest).decisions
    ensures id in Run(actions, digest).decisions
    ensures Run(actions, digest).decisions[id] == Run(actions[..n], digest).decisions[id]
    decreases |actions|
  {
    if n == |actions| {
      assert actions[..n] == actions;
    } else {
      var before := actions[..|actions| - 1];
      assert before[..n] == actions[..n];
      DecisionsArePermanent(before, n, digest, id);
    }
  }

  /** Two points of a run agree on every decision they both know. */
  lemma DecisionsAgree(actions: seq<Action>, m: nat, n: nat, digest: Digester, id: string)
    requires m <= |actions| && n <= |actions|
    requires id in Run(actions[..m], digest).decisions && id in Run(actions[..n], digest).decisions
    ensures Run(actions[..m], digest).decisions[id] == Run(actions[..n], digest).decisions[id]
  {
    DecisionsArePermanent(actions, m, digest, id);
    DecisionsArePermanent(actions, n, digest, id);
  }

  /** The same request under the same live decision prepares the same delivery, whenever it is made. */
  lemma RepeatPreparesTheSame(before: map<string, Decision>, after: map<string, Decision>, q: Delivery, now: Time,
                              receiptId: string, later: Time, laterId: string, digest: Digester)
    requires Prepare(before, q, now, receiptId, digest).Success?
    requires q.decisionId in after && after[q.decisionId] == before[q.decisionId] && later < after[q.decisionId].expiresAt
    ensures Prepare(after, q, later, laterId, digest).Success?
    ensures SameDelivery(Prepare(before, q, now, receiptId, digest).value, Prepare(after, q, later, laterId, digest).value)
  {
  }

  /**
   Deliveries of one request that race: the request was prepared at point `b` of the run and its insert
   was step `n`. Prepared again at any point `c` that knows the decision, before it expires, the request
   succeeds, and its insert at any point after step `n` stores nothing and returns that first receipt.
   */
  lemma RepeatedDeliveriesAgree(actions: seq<Action>, digest: Digester, q: Delivery, b: nat, now: Time,
                                receiptId: string, n: nat, c: nat, later: Time, laterId: string, m: nat,
                                signature: string)
    requires b <= n < m <= |actions| && c <= m && actions[n].Finish?
    requires Prepare(Run(actions[..b], digest).decisions, q, now, receiptId, digest).Success?
    requires actions[n].name in Run(actions[..n], digest).pending
    requires Run(actions[..n], digest).pending[actions[n].name]
          == Prepare(Run(actions[..b], digest).decisions, q, now, receiptId, digest).value
    requires CreateReceipt(Run(actions[..n], digest).rows,
                           Run(actions[..n], digest).pending[actions[n].name].(signature := actions[n].signature)).0.Success?
    requires q.decisionId in Run(actions[..c], digest).decisions
    requires ZERO < later < Run(actions[..c], digest).decisions[q.decisionId].expiresAt
    requires laterId != "" && signature != ""
    ensures var s := Run(actions[..n], digest);
            var first := s.pending[actions[n].name].(signature := actions[n].signature);
            var again := Prepare(Run(actions[..c], digest).decisions, q, later, laterId, digest);
            && again.Success?
            && CreateReceipt(Run(actions[..m], digest).rows, again.value.(signature := signature)) ==
               (CreateReceipt(s.rows, first).0, Run(actions[..m], digest).rows)
  {
    var s := Run(actions[..n], digest);
    var first := s.pending[actions[n].name].(signature := actions[n].signature);
    DecisionsAgree(actions, b, c, digest, q.decisionId);
    RepeatPreparesTheSame(Run(actions[..b], digest).decisions, Run(actions[..c], digest).decisions, q, now, receiptId,
                          later, laterId, digest);
    var again := Prepare(Run(actions[..c], digest).decisions, q, later, laterId, digest).value.(signature := signature);
    var run := actions[..m];
    assert run[..n] == actions[..n];
    assert ValidReceipt(first) && SameDelivery(first, again);
    StoredDeliveryAnswers(run, n, digest, first, again);
  }
}
