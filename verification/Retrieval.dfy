/** Releasing stored observations through disclosure (internal/retrieval/retrieval.go). */
module Retrieval {
  import opened Wrappers
  import opened Clock
  import opened Disclosure
  import opened Observation

  datatype Request = Request(
    actorId: string, tenantId: string, evidenceId: string, decisionId: string, requestId: string,
    fields: seq<string>, redactions: seq<string>)

  datatype Released = Released(evidenceId: string, fields: map<string, string>, tainted: seq<string>, receipt: Receipt)

  datatype RetrievalError = InvalidRetrieval | EvidenceNotFound | UnknownField | NotDelivered(error: DisclosureError)

  predicate Complete(q: Request)
  {
    q.actorId != "" && q.tenantId != "" && q.evidenceId != "" && q.decisionId != "" && q.requestId != "" && q.fields != []
  }

  /** The tenant-scoped evidence read. */
  function GetForTenant(s: Store, tenantId: string, evidenceId: string): Option<InterfaceState>
  {
    if evidenceId in s.tables.envelopes && evidenceId in s.observations
       && s.tables.envelopes[evidenceId].tenantId == tenantId
    then Some(s.observations[evidenceId]) else None
  }

  /** The fields a caller may ask for; times are formatted by a parameter. */
  function Available(state: InterfaceState, format: Time -> string): map<string, string>
  {
    map["schema_version" := state.schemaVersion, INTERFACE_NAME := state.interfaceName,
        "operational_state" := state.operationalState, "observed_at" := format(state.observedAt)]
  }

  function Selected(available: map<string, string>, fields: seq<string>): map<string, string>
  {
    map f | f in fields && f in available :: available[f]
  }

  /** The requested fields that the state marks as tainted, in request order. */
  function TaintedOf(fields: seq<string>, tainted: seq<string>): seq<string>
  {
    if fields == [] then []
    else
      var n := |fields| - 1;
      TaintedOf(fields[..n], tainted) + if fields[n] in tainted then [fields[n]] else []
  }

  /** The delivery a retrieval asks for. */
  function DeliveryOf(q: Request, state: InterfaceState, format: Time -> string): Delivery
  {
    Delivery(q.decisionId, q.actorId, q.tenantId, q.evidenceId, q.requestId, "normalised",
             Selected(Available(state, format), q.fields), q.redactions, TaintedOf(q.fields, state.taintedFields))
  }

  /** What the disclosure service brings to a delivery: clock, identifier, signature and digest. */
  datatype Service = Service(now: Time, receiptId: string, signature: string, digest: Digester, format: Time -> string)

  function Answer(decisions: map<string, Decision>, rows: seq<Receipt>, q: Delivery, service: Service)
    : (Result<Receipt, DisclosureError>, seq<Receipt>)
  {
    Deliver(decisions, rows, q, service.now, service.receiptId, service.signature, service.digest)
  }

  function Retrieve(s: Store, decisions: map<string, Decision>, rows: seq<Receipt>, q: Request, service: Service)
    : (Result<Released, RetrievalError>, seq<Receipt>)
  {
    if !Complete(q) then (Failure(InvalidRetrieval), rows)
    else match GetForTenant(s, q.tenantId, q.evidenceId)
      case None => (Failure(EvidenceNotFound), rows)
      case Some(state) =>
        var available := Available(state, service.format);
        if exists k :: 0 <= k < |q.fields| && q.fields[k] !in available then (Failure(UnknownField), rows)
        else
          var delivery := DeliveryOf(q, state, service.format);
          match Answer(decisions, rows, delivery, service)
          case (Failure(e), after) => (Failure(NotDelivered(e)), after)
          case (Success(receipt), after) =>
            (Success(Released(q.evidenceId, delivery.fields, delivery.tainted, receipt)), after)
  }

  class RetrievalService {
    var evidence: Store
    var decisions: map<string, Decision>
    var rows: seq<Receipt>

    constructor (evidence: Store, decisions: map<string, Decision>, rows: seq<Receipt>)
      ensures this.evidence == evidence && this.decisions == decisions && this.rows == rows
    {
      this.evidence, this.decisions, this.rows := evidence, decisions, rows;
    }

    /** The loop that copies the requested fields and collects the tainted ones. */
    method SelectFields(fields: seq<string>, available: map<string, string>, taintedFields: seq<string>)
      returns (res: Option<(map<string, string>, seq<string>)>)
      ensures res.Some? <==> forall k :: 0 <= k < |fields| ==> fields[k] in available
      ensures res.Some? ==> res.value == (Selected(available, fields), TaintedOf(fields, taintedFields))
    {
      var selected: map<string, string> := map[];
      var tainted: seq<string> := [];
      for k := 0 to |fields|
        invariant forall i :: 0 <= i < k ==> fields[i] in available
        invariant selected == Selected(available, fields[..k])
        invariant tainted == TaintedOf(fields[..k], taintedFields)
      {
        var field := fields[k];
        if field !in available {
          return None;
        }
        assert fields[..k + 1] == fields[..k] + [field];
        assert fields[..k + 1][..k] == fields[..k];
        selected := selected[field := available[field]];
        if field in taintedFields {
          tainted := tainted + [field];
        }
      }
      assert fields[..|fields|] == fields;
      return Some((selected, tainted));
    }

    method RetrieveNormalised(q: Request, service: Service) returns (res: Result<Released, RetrievalError>)
      modifies this`rows
      ensures (res, rows) == Retrieve(evidence, decisions, old(rows), q, service)
    {
      if !Complete(q) {
        return Failure(InvalidRetrieval);
      }
      var found := GetForTenant(evidence, q.tenantId, q.evidenceId);
      if found.None? {
        return Failure(EvidenceNotFound);
      }
      var chosen := SelectFields(q.fields, Available(found.value, service.format), found.value.taintedFields);
      if chosen.None? {
        return Failure(UnknownField);
      }
      var (selected, tainted) := chosen.value;
      var delivery := Delivery(q.decisionId, q.actorId, q.tenantId, q.evidenceId, q.requestId, "normalised", selected,
                               q.redactions, tainted);
      var (receipt, after) := Answer(decisions, rows, delivery, service);
      rows := after;
      if receipt.Failure? {
        return Failure(NotDelivered(receipt.error));
      }
      return Success(Released(q.evidenceId, selected, tainted, receipt.value));
    }
  }

  lemma {:induction false} TaintedOfContains(fields: seq<string>, tainted: seq<string>, f: string)
    ensures f in TaintedOf(fields, tainted) <==> f in fields && f in tainted
  {
    if fields != [] {
      var n := |fields| - 1;
      TaintedOfContains(fields[..n], tainted, f);
      assert fields == fields[..n] + [fields[n]];
    }
  }

  lemma TaintOfObservation(fields: seq<string>)
    ensures Unique(TaintedOf(fields, [INTERFACE_NAME])) == if INTERFACE_NAME in fields then {INTERFACE_NAME} else {}
  {
    var tainted := TaintedOf(fields, [INTERFACE_NAME]);
    forall f
      ensures f in tainted <==> f in fields && f == INTERFACE_NAME
    {
      TaintedOfContains(fields, [INTERFACE_NAME], f);
    }
  }

  lemma DeliveredTaint(decisions: map<string, Decision>, rows: seq<Receipt>, q: Delivery, service: Service)
    requires Answer(decisions, rows, q, service).0.Success?
    ensures var r := Answer(decisions, rows, q, service).0.value;
            && r.taintedFields == Unique(q.tainted) && r.tenantId == q.tenantId && r.evidenceId == q.evidenceId
            && r.fieldsDelivered == q.fields.Keys && r.payloadDigest == service.digest(q.fields)
            && q.decisionId in decisions && (Unique(q.tainted) != {} ==> decisions[q.decisionId].allowTaintedFields)
  {
    var r := Prepare(decisions, q, service.now, service.receiptId, service.digest).value;
    FindFinds(rows, r);
    FindFinds(rows, r.(signature := service.signature));
  }

  /**
   Taint cannot be dropped: whatever the pipeline stored and whoever retrieves it, a release that includes
   the interface name says so in its result and in its receipt, under a decision that allows tainted
   fields; a release without it reports no taint. And only the evidence's own tenant gets anything.
   */
  lemma InterfaceNameStaysTainted(actions: seq<Observation.Action>, decisions: map<string, Decision>, rows: seq<Receipt>,
                                  q: Request, service: Service)
    requires Retrieve(Observation.Run(actions), decisions, rows, q, service).0.Success?
    ensures var s := Observation.Run(actions);
            var released := Retrieve(s, decisions, rows, q, service).0.value;
            && q.evidenceId in s.observations && s.tables.envelopes[q.evidenceId].tenantId == q.tenantId
            && released.receipt.tenantId == q.tenantId && released.receipt.evidenceId == q.evidenceId
            && released.receipt.fieldsDelivered == released.fields.Keys
            && (INTERFACE_NAME in q.fields ==>
                  && INTERFACE_NAME in released.tainted && released.receipt.taintedFields == {INTERFACE_NAME}
                  && INTERFACE_NAME in released.fields
                  && released.fields[INTERFACE_NAME] == s.observations[q.evidenceId].interfaceName
                  && q.decisionId in decisions && decisions[q.decisionId].allowTaintedFields)
            && (INTERFACE_NAME !in q.fields ==> released.tainted == [] && released.receipt.taintedFields == {})
  {
    var s := Observation.Run(actions);
    Observation.StoredIsTainted(actions);
    ReleaseKeepsTaint(s, decisions, rows, q, service);
  }

  /**
   A retrieval succeeds exactly when the request is complete, the tenant has that evidence, every field asked
   for is one of the observation, and the disclosure service delivers them.
   */
  lemma RetrievedExactlyWhen(s: Store, decisions: map<string, Decision>, rows: seq<Receipt>, q: Request, service: Service)
    requires Observation.StoreOk(s)
    ensures Retrieve(s, decisions, rows, q, service).0.Success? <==>
            && "" !in {q.actorId, q.tenantId, q.evidenceId, q.decisionId, q.requestId} && |q.fields| >= 1
            && q.evidenceId in s.tables.envelopes && s.tables.envelopes[q.evidenceId].tenantId == q.tenantId
            && (forall k :: 0 <= k < |q.fields| ==>
                              q.fields[k] in {"schema_version", "interface_name", "operational_state", "observed_at"})
            && Answer(decisions, rows, DeliveryOf(q, s.observations[q.evidenceId], service.format), service).0.Success?
    ensures Retrieve(s, decisions, rows, q, service).0.Failure? && Retrieve(s, decisions, rows, q, service).1 != rows ==>
              Retrieve(s, decisions, rows, q, service).0.error.NotDelivered?
  {
    if q.evidenceId in s.tables.envelopes {
      var available := Available(s.observations[q.evidenceId], service.format);
      assert available.Keys == {"schema_version", "interface_name", "operational_state", "observed_at"};
    }
  }

  /** A release holds the requested fields and no others, each with its own value of the stored observation. */
  lemma ReleasedIsObserved(s: Store, decisions: map<string, Decision>, rows: seq<Receipt>, q: Request, service: Service,
                           f: string)
    requires Retrieve(s, decisions, rows, q, service).0.Success?
    ensures q.evidenceId in s.observations
    ensures var released, o := Retrieve(s, decisions, rows, q, service).0.value, s.observations[q.evidenceId];
            && released.evidenceId == q.evidenceId
            && (f in released.fields <==> f in q.fields)
            && (f in released.fields ==>
                  || (f == "schema_version" && released.fields[f] == o.schemaVersion)
                  || (f == "interface_name" && released.fields[f] == o.interfaceName)
                  || (f == "operational_state" && released.fields[f] == o.operationalState)
                  || (f == "observed_at" && released.fields[f] == service.format(o.observedAt)))
            && released.receipt.payloadDigest == service.digest(released.fields)
  {
    var state := s.observations[q.evidenceId];
    DeliveredTaint(decisions, rows, DeliveryOf(q, state, service.format), service);
    if f in q.fields {
      var k :| 0 <= k < |q.fields| && q.fields[k] == f;
      assert q.fields[k] in Available(state, service.format);
    }
  }

  /** A released interface name was read from the sanitiser's output for a capture of the caller's own tenant. */
  lemma ReleasedNameWasInspected(actions: seq<Observation.Action>, decisions: map<string, Decision>, rows: seq<Receipt>,
                                 q: Request, service: Service)
    requires Retrieve(Observation.Run(actions), decisions, rows, q, service).0.Success? && INTERFACE_NAME in q.fields
    ensures var released := Retrieve(Observation.Run(actions), decisions, rows, q, service).0.value;
            INTERFACE_NAME in released.fields
            && exists i :: 0 <= i < |actions| && NameCaptured(actions[i], q, released.fields[INTERFACE_NAME])
  {
    InterfaceNameStaysTainted(actions, decisions, rows, q, service);
    Observation.StoredWasCaptured(actions, q.evidenceId);
    var i :| 0 <= i < |actions| && Observation.WrittenBy(Observation.Run(actions), q.evidenceId, actions[i]);
    WrittenIsCaptured(Observation.Run(actions), q, actions[i]);
  }

  lemma WrittenIsCaptured(s: Store, q: Request, a: Observation.Action)
    requires Observation.WrittenBy(s, q.evidenceId, a) && s.tables.envelopes[q.evidenceId].tenantId == q.tenantId
    ensures NameCaptured(a, q, s.observations[q.evidenceId].interfaceName)
  {
    Observation.ObservedWasInspected(a.sink, a.task, a.captured);
  }

  predicate NameCaptured(a: Observation.Action, q: Request, name: string)
  {
    && a.Write? && a.evidenceId == q.evidenceId && a.task.authority.tenantId == q.tenantId
    && a.captured.targetId == a.task.authority.targetId && Observation.Inspected(a.sink, a.captured, name)
  }

  lemma NothingTainted(fields: seq<string>)
    requires INTERFACE_NAME !in fields
    ensures TaintedOf(fields, [INTERFACE_NAME]) == []
  {
    forall f
      ensures f !in TaintedOf(fields, [INTERFACE_NAME])
    {
      TaintedOfContains(fields, [INTERFACE_NAME], f);
    }
  }

  lemma ReleaseKeepsTaint(s: Store, decisions: map<string, Decision>, rows: seq<Receipt>, q: Request, service: Service)
    requires Observation.StoreOk(s) && Retrieve(s, decisions, rows, q, service).0.Success?
    ensures var released := Retrieve(s, decisions, rows, q, service).0.value;
            && q.evidenceId in s.observations && s.tables.envelopes[q.evidenceId].tenantId == q.tenantId
            && released.receipt.tenantId == q.tenantId && released.receipt.evidenceId == q.evidenceId
            && released.receipt.fieldsDelivered == released.fields.Keys
            && (INTERFACE_NAME in q.fields ==>
                  && INTERFACE_NAME in released.tainted && released.receipt.taintedFields == {INTERFACE_NAME}
                  && INTERFACE_NAME in released.fields
                  && released.fields[INTERFACE_NAME] == s.observations[q.evidenceId].interfaceName
                  && q.decisionId in decisions && decisions[q.decisionId].allowTaintedFields)
            && (INTERFACE_NAME !in q.fields ==> released.tainted == [] && released.receipt.taintedFields == {})
  {
    var state := s.observations[q.evidenceId];
    DeliveredTaint(decisions, rows, DeliveryOf(q, state, service.format), service);
    TaintOfObservation(q.fields);
    TaintedOfContains(q.fields, [INTERFACE_NAME], INTERFACE_NAME);
    if INTERFACE_NAME !in q.fields {
      NothingTainted(q.fields);
    }
  }
}
