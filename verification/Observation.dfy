/**
 From captured bytes to a stored observation: the typed parser (internal/parsing/interface_state.go)
 and the evidence pipeline (internal/evidence/pipeline.go) that sanitises, parses, assembles and
 persists. Reading JSON fields from bytes is a parameter, and so are letters and digits.
 */
module Observation {
  import opened Wrappers
  import opened Clock
  import opened CollectorTask
  import opened BrokerDatabase
  import Evidence
  import Sanitiser
  import Utf8

  const INTERFACE_NAME: string := "interface_name"

  datatype Wire = Wire(schemaVersion: string, interfaceName: string, operationalState: string, observedAt: Time)

  datatype InterfaceState = InterfaceState(
    schemaVersion: string, interfaceName: string, operationalState: string, observedAt: Time, taintedFields: seq<string>)

  datatype ParseError = NoIdentity | WrongMediaType | QuarantinedPayload | ManifestMismatch | InvalidDocument

  /** The parser, with what its environment provides: decoded fields, and which characters are letters or digits. */
  datatype Reader = Reader(id: string, version: string, fields: Utf8.Bytes -> Option<Wire>, alphanumeric: char -> bool)

  predicate ValidInterfaceName(name: string, alphanumeric: char -> bool)
  {
    && 0 < |name| <= 128
    && forall k :: 0 <= k < |name| ==> alphanumeric(name[k]) || name[k] in "-_.:/[]"
  }

  predicate ValidWire(w: Wire, reader: Reader)
  {
    && w.schemaVersion == "v1" && ValidInterfaceName(w.interfaceName, reader.alphanumeric) && w.observedAt != ZERO
    && w.operationalState in {"up", "down", "unknown"}
  }

  /** `ParseWithManifest` of a payload with the manifest of the transformation that produced it. */
  function Parse(payload: Utf8.Bytes, mediaType: string, manifest: Sanitiser.Manifest, reader: Reader)
    : Result<InterfaceState, ParseError>
  {
    if mediaType != "application/json" then Failure(WrongMediaType)
    else if manifest.quarantined then Failure(QuarantinedPayload)
    else if manifest.rulesVersion == "" || !manifest.status.TaintedStatus?
            || "$/interface_name" !in manifest.taintedFields then Failure(ManifestMismatch)
    else if reader.id == "" || reader.version == "" || payload == [] then Failure(NoIdentity)
    else match reader.fields(payload)
      case None => Failure(InvalidDocument)
      case Some(w) =>
        if !ValidWire(w, reader) then Failure(InvalidDocument)
        else Success(InterfaceState(w.schemaVersion, w.interfaceName, w.operationalState, w.observedAt, [INTERFACE_NAME]))
  }

  // ----- The pipeline

  /** `digestMatches` is whether the transport's digest is that of the payload. */
  datatype Capture = Capture(targetId: string, payload: Utf8.Bytes, digestMatches: bool, mediaType: string)

  type Transformer = Utf8.Bytes -> Result<(Utf8.Bytes, Sanitiser.Manifest), Sanitiser.SanitiseError>

  /** A pipeline sink; `Sanitiser.Transform` of a configured pipeline is the transformer of the system. */
  datatype Sink = Sink(transform: Transformer, reader: Reader, validity: nat)

  datatype SinkError =
    | TargetMismatch | CaptureMismatch | NotSanitised(cause: Sanitiser.SanitiseError) | Quarantined
    | NotParsed(reason: ParseError) | NotAssembled(error: Evidence.EvidenceError)
    | NotPersisted(failure: Evidence.EvidenceError)

  /** The tables, and the observation inside each envelope's document. */
  datatype Store = Store(tables: Tables, observations: map<string, InterfaceState>)

  /** Sanitising and parsing one capture. */
  function Observe(sink: Sink, task: Task, captured: Capture): Result<InterfaceState, SinkError>
  {
    if captured.targetId != task.authority.targetId then Failure(TargetMismatch)
    else if !captured.digestMatches || captured.mediaType == "" then Failure(CaptureMismatch)
    else match sink.transform(captured.payload)
      case Failure(e) => Failure(NotSanitised(e))
      case Success((payload, manifest)) =>
        if manifest.quarantined then Failure(Quarantined)
        else match Parse(payload, captured.mediaType, manifest, sink.reader)
          case Failure(e) => Failure(NotParsed(e))
          case Success(o) => Success(o)
  }

  /** An envelope's document, with its observation, is stored once and only compared afterwards. */
  function Persist(s: Store, envelope: Envelope, o: InterfaceState): (Outcome<Evidence.EvidenceError>, Store)
  {
    var id := envelope.evidenceId;
    var (created, tables) := Evidence.Create(s.tables, envelope);
    if created.Fail? then (created, s)
    else if id !in s.tables.envelopes then (Pass, Store(tables, s.observations[id := o]))
    else if id in s.observations && s.observations[id] == o then (Pass, s)
    else (Fail(Evidence.Conflict), s)
  }

  /** The observation goes into an envelope for the active attempt, which is persisted. */
  function Record(s: Store, observed: Result<InterfaceState, SinkError>, task: Task, lease: Lease, evidenceId: string,
                  validUntil: Time, content: string, now: Time): (Result<(string, string), SinkError>, Store)
  {
    match observed
    case Failure(e) => (Failure(e), s)
    case Success(o) =>
      var sealed := Evidence.Sealed(evidenceId, o.observedAt, validUntil, content);
      match Evidence.Assemble(s.tables, task, lease.owner, lease.fencingToken, sealed, now)
      case Failure(e) => (Failure(NotAssembled(e)), s)
      case Success(envelope) =>
        match Persist(s, envelope, o)
        case (Fail(e), after) => (Failure(NotPersisted(e)), after)
        case (Pass, after) => (Success((envelope.attemptId, evidenceId)), after)
  }

  /** `WriteCaptured`: the attempt and evidence identifiers of the stored document. */
  function WriteCaptured(s: Store, sink: Sink, task: Task, lease: Lease, captured: Capture, evidenceId: string,
                         content: string, now: Time): (Result<(string, string), SinkError>, Store)
  {
    Record(s, Observe(sink, task, captured), task, lease, evidenceId, now + sink.validity, content, now)
  }

  /** Every stored envelope holds an observation that the parser made, with its taint. */
  predicate StoreOk(s: Store)
  {
    && s.observations.Keys == s.tables.envelopes.Keys
    && forall id :: id in s.observations ==> DocumentOk(s.tables.envelopes[id], s.observations[id])
  }

  predicate DocumentOk(envelope: Envelope, o: InterfaceState)
  {
    Parsed(o) && Matches(envelope, o)
  }

  predicate Parsed(o: InterfaceState)
  {
    && o.taintedFields == [INTERFACE_NAME] && o.schemaVersion == "v1" && 0 < |o.interfaceName| <= 128
    && o.operationalState in {"up", "down", "unknown"}
  }

  predicate ParsedIfAny(observed: Result<InterfaceState, SinkError>)
  {
    observed.Success? ==> Parsed(observed.value)
  }

  predicate Matches(envelope: Envelope, o: InterfaceState)
  {
    envelope.observedAt == o.observedAt && envelope.validUntil > o.observedAt
  }

  /** A sink writes a capture, or another component changes tables but never envelopes. */
  datatype Action =
    | Write(sink: Sink, task: Task, lease: Lease, captured: Capture, evidenceId: string, content: string,
            now: Time)
    | Elsewhere(tables: Tables)

  function Next(s: Store, a: Action): Store
  {
    match a
    case Write(sink, task, lease, captured, evidenceId, content, now) =>
      WriteCaptured(s, sink, task, lease, captured, evidenceId, content, now).1
    case Elsewhere(tables) => if tables.envelopes == s.tables.envelopes then s.(tables := tables) else s
  }

  function Run(actions: seq<Action>): Store
  {
    if actions == [] then Store(Tables(map[], map[], map[]), map[])
    else Next(Run(actions[..|actions| - 1]), actions[|actions| - 1])
  }

  lemma ObservedIsTainted(sink: Sink, task: Task, captured: Capture)
    ensures ParsedIfAny(Observe(sink, task, captured))
  {
  }

  predicate Keeps(s: Store, after: Store)
  {
    forall id {:trigger Kept(s, after, id)} :: id in s.observations ==> Kept(s, after, id)
  }

  /** A sound store that still has every document of the former one. */
  predicate Extends(s: Store, after: Store)
  {
    StoreOk(after) && Keeps(s, after)
  }

  /** The document is still there, unchanged. */
  predicate Kept(s: Store, after: Store, id: string)
    requires id in s.observations
  {
    && id in after.observations && after.observations[id] == s.observations[id]
    && (id in s.tables.envelopes ==> id in after.tables.envelopes && after.tables.envelopes[id] == s.tables.envelopes[id])
  }

  lemma PersistKeepsStore(s: Store, envelope: Envelope, o: InterfaceState)
    requires StoreOk(s) && Parsed(o) && Matches(envelope, o)
    ensures Extends(s, Persist(s, envelope, o).1)
  {
    Evidence.CreateAppends(s.tables, envelope);
  }

  lemma RecordKeepsStore(s: Store, observed: Result<InterfaceState, SinkError>, task: Task, lease: Lease,
                         evidenceId: string, validUntil: Time, content: string, now: Time, after: Store)
    requires StoreOk(s) && ParsedIfAny(observed)
    requires after == Record(s, observed, task, lease, evidenceId, validUntil, content, now).1
    ensures Extends(s, after)
  {
    if observed.Success? {
      var sealed := Evidence.Sealed(evidenceId, observed.value.observedAt, validUntil, content);
      var assembled := Evidence.Assemble(s.tables, task, lease.owner, lease.fencingToken, sealed, now);
      if assembled.Success? {
        PersistKeepsStore(s, assembled.value, observed.value);
      }
    }
  }

  /** What a write adds is its own document, for the task's attempt. */
  lemma RecordWrites(s: Store, observed: Result<InterfaceState, SinkError>, task: Task, lease: Lease, evidenceId: string,
                     validUntil: Time, content: string, now: Time, id: string)
    requires StoreOk(s) && id !in s.observations
    requires id in Record(s, observed, task, lease, evidenceId, validUntil, content, now).1.observations
    ensures var after := Record(s, observed, task, lease, evidenceId, validUntil, content, now).1;
            && id == evidenceId && observed == Success(after.observations[id]) && id in after.tables.envelopes
            && after.tables.envelopes[id].tenantId == task.authority.tenantId
            && after.tables.envelopes[id].targetId == task.authority.targetId
            && after.tables.envelopes[id].attemptId == Evidence.AttemptId(task.authority.id, lease.fencingToken)
  {
  }

  lemma WriteKeepsStore(s: Store, sink: Sink, task: Task, lease: Lease, captured: Capture, evidenceId: string,
                        content: string, now: Time, after: Store)
    requires StoreOk(s) && after == WriteCaptured(s, sink, task, lease, captured, evidenceId, content, now).1
    ensures Extends(s, after)
  {
    ObservedIsTainted(sink, task, captured);
    RecordKeepsStore(s, Observe(sink, task, captured), task, lease, evidenceId, now + sink.validity, content, now, after);
  }

  lemma NextKeepsStore(s: Store, a: Action)
    requires StoreOk(s)
    ensures Extends(s, Next(s, a))
  {
    match a
    case Write(sink, task, lease, captured, evidenceId, content, now) =>
      WriteKeepsStore(s, sink, task, lease, captured, evidenceId, content, now, Next(s, a));
    case Elsewhere(_) =>
  }

  /** In every run of the pipeline, each stored envelope carries an observation that marks its interface name as tainted. */
  lemma {:induction false} StoredIsTainted(actions: seq<Action>)
    ensures StoreOk(Run(actions))
  {
    if actions != [] {
      StoredIsTainted(actions[..|actions| - 1]);
      NextKeepsStore(Run(actions[..|actions| - 1]), actions[|actions| - 1]);
    }
  }

  /** The fields make an observation: current schema, a plain name, a known state and an instant. */
  predicate Observes(w: Wire, reader: Reader)
  {
    && w.schemaVersion == "v1" && 1 <= |w.interfaceName| <= 128 && w.observedAt > ZERO
    && (w.operationalState == "up" || w.operationalState == "down" || w.operationalState == "unknown")
    && forall k :: 0 <= k < |w.interfaceName| ==>
                     reader.alphanumeric(w.interfaceName[k])
                     || w.interfaceName[k] in {'-', '_', '.', ':', '/', '[', ']'}
  }

  /**
   A capture is observed exactly when it is of the task's target, arrived unaltered as JSON, and was sanitised
   without quarantine by named rules that report its interface name as tainted, and a named parser reads an
   observation from the sanitised text.
   */
  lemma ObservedExactlyWhen(sink: Sink, task: Task, captured: Capture)
    ensures var t := sink.transform(captured.payload);
            && (Observe(sink, task, captured).Success? <==>
                  && captured.targetId == task.authority.targetId && captured.digestMatches
                  && captured.mediaType == "application/json" && t.Success?
                  && var (payload, m) := t.value;
                     && !m.quarantined && m.rulesVersion != "" && m.status == Sanitiser.TaintedStatus
                     && "$/interface_name" in m.taintedFields && payload != []
                     && sink.reader.id != "" && sink.reader.version != ""
                     && sink.reader.fields(payload).Some? && Observes(sink.reader.fields(payload).value, sink.reader))
            && (t.Success? && t.value.1.quarantined ==> Observe(sink, task, captured).Failure?)
  {
    var t := sink.transform(captured.payload);
    if t.Success? && sink.reader.fields(t.value.0).Some? {
      WireObserves(sink.reader.fields(t.value.0).value, sink.reader);
    }
  }

  lemma WireObserves(w: Wire, reader: Reader)
    ensures ValidWire(w, reader) <==> Observes(w, reader)
  {
    forall c: char
      ensures c in "-_.:/[]" <==> c in {'-', '_', '.', ':', '/', '[', ']'}
    {
      var marks := "-_.:/[]";
      assert marks == ['-', '_', '.', ':', '/', '[', ']'];
      assert c in marks <==> exists k :: 0 <= k < 7 && marks[k] == c;
    }
  }

  /** A document is stored once: a new envelope takes its observation along, and an old one accepts only its own. */
  lemma DocumentsAreStoredOnce(s: Store, envelope: Envelope, o: InterfaceState)
    requires StoreOk(s)
    ensures var id, (res, after) := envelope.evidenceId, Persist(s, envelope, o);
            && (id !in s.observations && Evidence.Create(s.tables, envelope).0.Pass? ==>
                  && res.Pass? && after.observations == s.observations[id := o]
                  && after.tables == s.tables.(envelopes := s.tables.envelopes[id := envelope]))
            && (id in s.observations ==>
                  after == s && (res.Pass? ==> s.tables.envelopes[id] == envelope && s.observations[id] == o))
            && (id in s.observations && Evidence.Create(s.tables, envelope).0.Pass? && s.observations[id] == o ==> res.Pass?)
            && (res.Fail? ==> after == s)
  {
    Evidence.CreateAppends(s.tables, envelope);
  }

  /** The document holds what this step observed, under the attempt of its task. */
  predicate WrittenBy(s: Store, id: string, a: Action)
  {
    && a.Write? && a.evidenceId == id && id in s.observations && id in s.tables.envelopes
    && Observe(a.sink, a.task, a.captured) == Success(s.observations[id])
    && var envelope := s.tables.envelopes[id];
       && envelope.tenantId == a.task.authority.tenantId && envelope.targetId == a.captured.targetId
       && envelope.attemptId == Evidence.AttemptId(a.task.authority.id, a.lease.fencingToken)
  }

  lemma NewIsWritten(s: Store, a: Action, id: string)
    requires StoreOk(s) && id !in s.observations && id in Next(s, a).observations
    ensures WrittenBy(Next(s, a), id, a)
  {
    var observed := Observe(a.sink, a.task, a.captured);
    RecordWrites(s, observed, a.task, a.lease, a.evidenceId, a.now + a.sink.validity, a.content, a.now, id);
  }

  /** Every stored document was written by one step of the run, from that step's capture, and never changed since. */
  lemma {:induction false} StoredWasCaptured(actions: seq<Action>, id: string)
    requires id in Run(actions).observations
    ensures exists i :: 0 <= i < |actions| && WrittenBy(Run(actions), id, actions[i])
  {
    var n := |actions| - 1;
    var before := Run(actions[..n]);
    StoredIsTainted(actions[..n]);
    if id in before.observations {
      StoredWasCaptured(actions[..n], id);
      var i :| 0 <= i < n && WrittenBy(before, id, actions[..n][i]);
      NextKeepsStore(before, actions[n]);
      assert Kept(before, Run(actions), id);
      assert WrittenBy(Run(actions), id, actions[i]);
    } else {
      NewIsWritten(before, actions[n], id);
    }
  }

  /** What is promoted to an observation passed the sanitiser: not quarantined, and its name reported as free text. */
  lemma ObservedWasInspected(sink: Sink, task: Task, captured: Capture)
    requires Observe(sink, task, captured).Success?
    ensures Inspected(sink, captured, Observe(sink, task, captured).value.interfaceName)
  {
  }

  /** The sanitiser accepted the capture and reported a tainted interface name; the parser read this one from its output. */
  predicate Inspected(sink: Sink, captured: Capture, name: string)
  {
    var t := sink.transform(captured.payload);
    && t.Success? && !t.value.1.quarantined && "$/interface_name" in t.value.1.taintedFields
    && sink.reader.fields(t.value.0).Some? && sink.reader.fields(t.value.0).value.interfaceName == name
    && ValidInterfaceName(name, sink.reader.alphanumeric)
  }
}
