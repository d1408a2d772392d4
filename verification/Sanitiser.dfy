/**
 The whole sanitisation pipeline (internal/sanitise/sanitise.go): captured bytes in, a bounded safe
 derivative and its manifest out. JSON decoding and text normalisation are parameters; digests and
 the itemised outcome list are not part of the manifest here.
 */
module Sanitiser {
  import opened Wrappers
  import opened Utf8
  import opened Stripping
  import opened TextInspection
  import opened JsonTaint
  import opened Redaction
  import JsonBounds

  const MAXIMUM_CAPTURED: nat := 16777216

  function Ascii(s: string): Bytes
  {
    seq(|s|, i requires 0 <= i < |s| => (s[i] as int % 256) as byte)
  }

  const QUARANTINED_OUTPUT: Bytes := Ascii("{\"quarantined\":true}")

  datatype Decoded = InvalidJson | SeveralValues | Document(value: Value)

  /** Decoding the first value and looking for a second one. */
  type Decoder = Bytes -> Decoded

  datatype Pipeline = Pipeline(
    id: string, version: string, redactions: seq<(Bytes, Bytes)>, maximumBytes: int, rules: Rules)

  datatype Status = CleanStatus | TaintedStatus | QuarantinedStatus

  /** Tainted fields are a set: the manifest lists them sorted and without repetition. */
  datatype Manifest = Manifest(
    pipelineId: string, pipelineVersion: string, rulesVersion: string, status: Status, taintedFields: set<string>,
    redactions: seq<Applied>, quarantined: bool, truncated: bool, originalByteCount: nat, outputByteCount: nat)

  datatype SanitiseError = InvalidPipeline | InvalidRules | InvalidRedaction

  // ----- Rules

  predicate Space(r: int)
  {
    || 0x09 <= r <= 0x0D || r == 0x20 || r == 0x85 || r == 0xA0 || r == 0x1680 || 0x2000 <= r <= 0x200A
    || r == 0x2028 || r == 0x2029 || r == 0x202F || r == 0x205F || r == 0x3000
  }

  predicate SafeToken(name: string)
  {
    && 0 < |name| <= 128
    && forall k :: 0 <= k < |name| ==>
                     !Space(name[k] as int) && !Control(name[k] as int) && name[k] != '/' && name[k] != '~'
  }

  predicate SafePattern(pattern: Bytes)
  {
    0 < |pattern| <= 256 && forall k :: 0 <= k < |DecodeAll(pattern)| ==> !Control(DecodeAll(pattern)[k])
  }

  predicate ValidRules(rules: Rules)
  {
    && rules.version != "" && rules.maximumStringBytes > 0 && rules.maximumDepth > 0 && rules.maximumNodes > 0
    && rules.tokenMinimum >= 32 && rules.repetitionLimit >= 8 && rules.patterns != []
    && (forall k :: 0 <= k < |rules.freeText| ==> SafeToken(rules.freeText[k]))
    && (forall k :: 0 <= k < |rules.patterns| ==> SafePattern(rules.patterns[k]))
  }

  const DEFAULT_RULES: Rules := Rules(
    "network-hostile-output/v1",
    ["banner", "description", "interface_name", "message", "neighbor_description", "port_description", "sys_descr",
     "system_description"],
    [Ascii("###"), Ascii("```"), Ascii("assistant:"), Ascii("execute the following"), Ascii("ignore all previous"),
     Ascii("ignore previous"), Ascii("instruction:"), Ascii("reveal the system prompt"), Ascii("system prompt"),
     Ascii("system:"), Ascii("you are chatgpt")],
    4096, 64, 10000, 128, 64)

  function ResolveRules(configured: Rules): Result<Rules, SanitiseError>
  {
    var rules := if configured.version == "" then DEFAULT_RULES else configured;
    if ValidRules(rules) then Success(rules) else Failure(InvalidRules)
  }

  lemma {:induction false} PrintableHasNoControl(s: Bytes)
    requires forall k :: 0 <= k < |s| ==> 0x20 <= s[k] < 0x7F
    ensures forall k :: 0 <= k < |DecodeAll(s)| ==> !Control(DecodeAll(s)[k])
  {
    if s != [] {
      assert DecodeRune(s) == (s[0] as int, 1);
      PrintableHasNoControl(s[1..]);
    }
  }

  lemma PrintablePattern(s: string)
    requires 0 < |s| <= 256 && forall k :: 0 <= k < |s| ==> ' ' <= s[k] <= '}'
    ensures SafePattern(Ascii(s))
  {
    PrintableHasNoControl(Ascii(s));
  }

  lemma DefaultPatternsAreSafe()
    ensures forall k :: 0 <= k < |DEFAULT_RULES.patterns| ==> SafePattern(DEFAULT_RULES.patterns[k])
  {
    PrintablePattern("###");
    PrintablePattern("```");
    PrintablePattern("assistant:");
    PrintablePattern("execute the following");
    PrintablePattern("ignore all previous");
    PrintablePattern("ignore previous");
    PrintablePattern("instruction:");
    PrintablePattern("reveal the system prompt");
    PrintablePattern("system prompt");
    PrintablePattern("system:");
    PrintablePattern("you are chatgpt");
  }

  lemma PlainToken(s: string)
    requires 0 < |s| <= 128 && forall k :: 0 <= k < |s| ==> '_' <= s[k] <= 'z'
    ensures SafeToken(s)
  {
  }

  lemma DefaultFieldsAreSafe()
    ensures forall k :: 0 <= k < |DEFAULT_RULES.freeText| ==> SafeToken(DEFAULT_RULES.freeText[k])
  {
    PlainToken("banner");
    PlainToken("description");
    PlainToken("interface_name");
    PlainToken("message");
    PlainToken("neighbor_description");
    PlainToken("port_description");
    PlainToken("sys_descr");
    PlainToken("system_description");
  }

  /** The default rules are usable, so a pipeline may leave its rules out. */
  lemma DefaultRulesAreValid()
    ensures ResolveRules(DEFAULT_RULES) == Success(DEFAULT_RULES)
  {
    DefaultPatternsAreSafe();
    DefaultFieldsAreSafe();
  }

  /** A name that may stand in a JSON pointer: short, in one word, without controls, `/` and `~`. */
  predicate OneWord(name: string)
  {
    && 1 <= |name| <= 128
    && forall k :: 0 <= k < |name| ==>
                     && name[k] as int >= 0x20 && !(0x7F <= name[k] as int <= 0x9F) && !Space(name[k] as int)
                     && name[k] !in "/~"
  }

  /**
   Rules are used exactly when they are named, every limit is positive, the token and repetition limits leave
   room for ordinary text, and all names and patterns are short and free of controls; unnamed rules are the
   default ones.
   */
  lemma RulesAreUsedWhen(configured: Rules)
    ensures configured.version == "" ==> ResolveRules(configured) == Success(DEFAULT_RULES)
    ensures configured.version != "" ==>
              ResolveRules(configured) ==
              if && configured.maximumStringBytes >= 1 && configured.maximumDepth >= 1 && configured.maximumNodes >= 1
                 && configured.tokenMinimum >= 32 && configured.repetitionLimit >= 8 && |configured.patterns| >= 1
                 && (forall k :: 0 <= k < |configured.freeText| ==> OneWord(configured.freeText[k]))
                 && (forall k :: 0 <= k < |configured.patterns| ==>
                                   1 <= |configured.patterns[k]| <= 256 && NoControl(DecodeAll(configured.patterns[k])))
              then Success(configured) else Failure(InvalidRules)
  {
    DefaultRulesAreValid();
    forall k | 0 <= k < |configured.freeText|
      ensures SafeToken(configured.freeText[k]) <==> OneWord(configured.freeText[k])
    {
    }
    forall k | 0 <= k < |configured.patterns|
      ensures SafePattern(configured.patterns[k]) <==>
              1 <= |configured.patterns[k]| <= 256 && NoControl(DecodeAll(configured.patterns[k]))
    {
    }
  }

  predicate NoControl(rs: seq<Rune>)
  {
    forall k :: 0 <= k < |rs| ==> rs[k] >= 0x20 && !(0x7F <= rs[k] <= 0x9F)
  }

  // ----- Bytes

  /** The captured text as UTF-8. */
  function Repaired(captured: Bytes): Bytes
  {
    if Valid(captured) then captured else ToValid(captured, false)
  }

  function TransformBytes(captured: Bytes, redactions: seq<(Bytes, Bytes)>): Bytes
    requires ValidRedactions(redactions)
  {
    StripControls(StripTerminal(Redacted(Repaired(captured), redactions)).0).0
  }

  // ----- Inspection

  function SkipSpace(s: Bytes): Bytes
    decreases |s|
  {
    if s == [] then [] else if Space(DecodeRune(s).0) then SkipSpace(s[DecodeRune(s).1..]) else s
  }

  predicate LooksLikeJson(s: Bytes)
  {
    SkipSpace(s) != [] && (SkipSpace(s)[0] == 0x7B || SkipSpace(s)[0] == 0x5B)
  }

  /** White space and nothing else. */
  predicate AllSpace(s: Bytes)
  {
    Valid(s) && forall k :: 0 <= k < |DecodeAll(s)| ==> Space(DecodeAll(s)[k])
  }

  lemma SpaceStep(s: Bytes)
    requires s != [] && Space(DecodeRune(s).0)
    ensures Starts(s) && DecodeRune(s).1 == Width(s[0])
  {
  }

  lemma AllSpaceStep(s: Bytes)
    requires Starts(s)
    ensures AllSpace(s) <==> Space(DecodeRune(s).0) && AllSpace(s[Width(s[0])..])
  {
    DecodeAllStep(s);
    var rest := DecodeAll(s[Width(s[0])..]);
    assert DecodeAll(s) == [DecodeRune(s).0] + rest && DecodeAll(s)[0] == DecodeRune(s).0;
    assert forall k :: 0 <= k < |rest| ==> rest[k] == DecodeAll(s)[k + 1];
    assert forall k :: 1 <= k < |DecodeAll(s)| ==> DecodeAll(s)[k] == rest[k - 1];
  }

  lemma {:induction false} SkipSpaceSplits(s: Bytes) returns (i: nat)
    ensures i <= |s| && SkipSpace(s) == s[i..] && AllSpace(s[..i])
    decreases |s|
  {
    if s == [] || !Space(DecodeRune(s).0) {
      i := 0;
      assert s[..0] == [] && s[0..] == s;
    } else {
      SpaceStep(s);
      var w := Width(s[0]);
      var more := SkipSpaceSplits(s[w..]);
      i := w + more;
      assert s[w..][more..] == s[i..];
      SpacePrefix(s, more);
    }
  }

  lemma SpacePrefix(s: Bytes, more: nat)
    requires Starts(s) && Space(DecodeRune(s).0) && Width(s[0]) + more <= |s| && AllSpace(s[Width(s[0])..][..more])
    ensures AllSpace(s[..Width(s[0]) + more])
  {
    var w := Width(s[0]);
    var first, prefix := s[..w], s[..w + more];
    assert Starts(first);
    FirstStays(first, s[w..][..more]);
    FirstStays(first, s[w..]);
    assert first + s[w..][..more] == prefix && first + s[w..] == s;
    assert prefix[w..] == s[w..][..more];
    AllSpaceStep(prefix);
  }

  lemma {:induction false} SpaceIsSkipped(a: Bytes, b: Bytes)
    requires AllSpace(a)
    ensures SkipSpace(a + b) == SkipSpace(b)
    decreases |a|
  {
    if a == [] {
      assert a + b == b;
    } else {
      var w := Width(a[0]);
      AllSpaceStep(a);
      FirstStays(a, b);
      SplitJoined(a, b, w);
      SpaceIsSkipped(a[w..], b);
    }
  }

  /** Text is treated as JSON exactly when the first thing after its leading white space is `{` or `[`. */
  lemma JsonStartsWithABracket(s: Bytes)
    ensures LooksLikeJson(s) <==> exists i :: 0 <= i < |s| && AllSpace(s[..i]) && s[i] in {0x5B, 0x7B}
  {
    if LooksLikeJson(s) {
      var i := SkipSpaceSplits(s);
      assert s[i..][0] == s[i];
    }
    if i :| 0 <= i < |s| && AllSpace(s[..i]) && s[i] in {0x5B, 0x7B} {
      SpaceIsSkipped(s[..i], s[i..]);
      assert s[..i] + s[i..] == s;
      assert DecodeRune(s[i..]).0 == s[i] as int;
    }
  }

  function AsSet(pointers: seq<string>): set<string>
  {
    set p | p in pointers
  }

  function InspectPayload(s: Bytes, rules: Rules, normal: Normaliser, decode: Decoder): (set<string>, bool)
    requires rules.tokenMinimum > 0
  {
    if !LooksLikeJson(s) then ({"$"}, Hostile(s, true, rules, normal))
    else if !JsonBounds.Accepts(s, JsonBounds.Limits(rules.maximumDepth, rules.maximumNodes)) then ({}, true)
    else match decode(s)
      case InvalidJson => ({}, true)
      case SeveralValues => ({}, true)
      case Document(v) => (AsSet(Tainted(v, "$", "", rules)), Quarantined(v, "", rules, normal))
  }

  // ----- The pipeline

  predicate ValidPipeline(p: Pipeline, captured: Bytes)
  {
    && p.id != "" && p.version != "" && |QUARANTINED_OUTPUT| <= p.maximumBytes <= MAXIMUM_CAPTURED
    && 0 < |captured| <= MAXIMUM_CAPTURED
  }

  function Transform(p: Pipeline, captured: Bytes, normal: Normaliser, decode: Decoder)
    : Result<(Bytes, Manifest), SanitiseError>
  {
    if !ValidPipeline(p, captured) then Failure(InvalidPipeline)
    else match ResolveRules(p.rules)
      case Failure(e) => Failure(e)
      case Success(rules) =>
        if !ValidRedactions(p.redactions) then Failure(InvalidRedaction)
        else
          var text := TransformBytes(captured, p.redactions);
          var (tainted, hostile) := if text == [] then ({}, true) else InspectPayload(text, rules, normal, decode);
          Success(Release(p, rules.version, |captured|, text, tainted, hostile, Reported(Repaired(captured), p.redactions)))
  }

  /** The output and manifest for inspected text. */
  function Release(p: Pipeline, rulesVersion: string, captured: nat, text: Bytes, tainted: set<string>, hostile: bool,
                   redactions: seq<Applied>): (Bytes, Manifest)
    requires p.maximumBytes >= 0
  {
    var long := |text| > p.maximumBytes;
    var quarantine := hostile || (long && LooksLikeJson(text));
    var output := if quarantine then QUARANTINED_OUTPUT
                  else if long then Truncated(text, p.maximumBytes) else text;
    (output,
     Manifest(p.id, p.version, rulesVersion,
              if quarantine then QuarantinedStatus else if tainted != {} then TaintedStatus else CleanStatus,
              tainted, redactions, quarantine, long && !quarantine, captured, |output|))
  }

  method Inspect(s: Bytes, rules: Rules, normal: Normaliser, decode: Decoder)
    returns (tainted: set<string>, quarantine: bool)
    requires rules.tokenMinimum > 0
    ensures (tainted, quarantine) == InspectPayload(s, rules, normal, decode)
  {
    if !LooksLikeJson(s) {
      quarantine := InspectText(s, true, rules, normal);
      return {"$"}, quarantine;
    }
    var bounded := JsonBounds.BoundedJsonStructure(s, JsonBounds.Limits(rules.maximumDepth, rules.maximumNodes));
    if !bounded {
      return {}, true;
    }
    match decode(s)
    case InvalidJson => return {}, true;
    case SeveralValues => return {}, true;
    case Document(v) =>
      var report := new InspectionReport();
      InspectJsonValue(v, "$", "", rules, normal, report);
      assert [] + Tainted(v, "$", "", rules) == Tainted(v, "$", "", rules);
      return AsSet(report.tainted), report.quarantine;
  }

  method Sanitise(p: Pipeline, captured: Bytes, normal: Normaliser, decode: Decoder)
    returns (res: Result<(Bytes, Manifest), SanitiseError>)
    ensures res == Transform(p, captured, normal, decode)
  {
    if !ValidPipeline(p, captured) {
      return Failure(InvalidPipeline);
    }
    var rules := if p.rules.version == "" then DEFAULT_RULES else p.rules;
    if !ValidRules(rules) {
      return Failure(InvalidRules);
    }
    var output := if Valid(captured) then captured else ToValid(captured, false);
    var redacted := ApplyRedactions(output, p.redactions);
    if redacted.None? {
      return Failure(InvalidRedaction);
    }
    var (text, redactions) := redacted.value;
    var stripped, count := StripTerminalSequences(text);
    output, count := StripRawControls(stripped);
    var tainted: set<string>, quarantine := {}, output == [];
    if !quarantine {
      tainted, quarantine := Inspect(output, rules, normal, decode);
    }
    var truncated := |output| > p.maximumBytes;
    if truncated && LooksLikeJson(output) {
      quarantine := true;
    } else if truncated {
      output := TruncateUtf8(output, p.maximumBytes);
    }
    if quarantine {
      output := QUARANTINED_OUTPUT;
    }
    var status := CleanStatus;
    if quarantine {
      status := QuarantinedStatus;
    } else if |tainted| > 0 {
      status := TaintedStatus;
    }
    return Success((output, Manifest(p.id, p.version, rules.version, status, tainted, redactions, quarantine,
                                     truncated && !quarantine, |captured|, |output|)));
  }

  // ----- What it promises

  /** `validOverallStatus` of the artefact store. */
  predicate ValidOverallStatus(m: Manifest)
  {
    match m.status
    case CleanStatus => !m.quarantined && m.taintedFields == {}
    case TaintedStatus => !m.quarantined && m.taintedFields != {}
    case QuarantinedStatus => m.quarantined
  }

  lemma {:induction false} AsciiIsClean(s: Bytes)
    requires forall k :: 0 <= k < |s| ==> 0x20 <= s[k] < 0x7F
    ensures Clean(s)
  {
    if s != [] {
      AsciiIsClean(s[1..]);
      assert Starts(s) && Width(s[0]) == 1;
    }
  }

  lemma TruncationIsSafe(s: Bytes, limit: nat)
    requires Clean(s) && 3 < limit < |s|
    ensures Clean(Truncated(s, limit)) && 0 < |Truncated(s, limit)| <= limit
  {
    TruncatedIsLongest(s, limit);
    var out := Truncated(s, limit);
    assert out == s[..|out|];
  }

  lemma PrintableIsClean(s: string)
    requires forall k :: 0 <= k < |s| ==> ' ' <= s[k] <= '}'
    ensures Clean(Ascii(s)) && |Ascii(s)| == |s|
  {
    AsciiIsClean(Ascii(s));
  }

  lemma QuarantinedOutputIsClean()
    ensures Clean(QUARANTINED_OUTPUT) && |QUARANTINED_OUTPUT| == 20
  {
    PrintableIsClean("{\"quarantined\":true}");
  }

  lemma TransformedIsClean(captured: Bytes, redactions: seq<(Bytes, Bytes)>)
    requires ValidRedactions(redactions)
    ensures Clean(TransformBytes(captured, redactions))
  {
    StripControlsIsClean(StripTerminal(Redacted(Repaired(captured), redactions)).0);
  }

  lemma ReleaseIsSafe(p: Pipeline, version: string, captured: nat, text: Bytes, tainted: set<string>, hostile: bool,
                      redactions: seq<Applied>)
    requires Clean(text) && |QUARANTINED_OUTPUT| <= p.maximumBytes && (text == [] ==> hostile)
    ensures var (output, m) := Release(p, version, captured, text, tainted, hostile, redactions);
            && 0 < |output| <= p.maximumBytes && Clean(output)
            && m.originalByteCount == captured && m.outputByteCount == |output| && ValidOverallStatus(m)
            && (m.quarantined ==> output == QUARANTINED_OUTPUT && !m.truncated)
  {
    QuarantinedOutputIsClean();
    if |text| > p.maximumBytes {
      TruncationIsSafe(text, p.maximumBytes);
    }
  }

  /**
   For every configuration and every input, a successful transformation gives non-empty output within
   the bound that is valid UTF-8 without ESC, DEL or other C0 controls than tab, CR and LF, and a
   manifest whose counts and status agree with it.
   */
  lemma OutputIsSafe(p: Pipeline, captured: Bytes, normal: Normaliser, decode: Decoder)
    requires Transform(p, captured, normal, decode).Success?
    ensures var (output, m) := Transform(p, captured, normal, decode).value;
            && 0 < |output| <= p.maximumBytes && Clean(output)
            && m.originalByteCount == |captured| && m.outputByteCount == |output| && ValidOverallStatus(m)
            && (m.quarantined ==> output == QUARANTINED_OUTPUT && !m.truncated)
            && m.pipelineId == p.id && m.pipelineVersion == p.version && m.rulesVersion != ""
            && m.redactions == Reported(Repaired(captured), p.redactions)
  {
    var rules := ResolveRules(p.rules).value;
    var text := TransformBytes(captured, p.redactions);
    TransformedIsClean(captured, p.redactions);
    var (tainted, hostile) := if text == [] then ({}, true) else InspectPayload(text, rules, normal, decode);
    ReleaseIsSafe(p, rules.version, |captured|, text, tainted, hostile, Reported(Repaired(captured), p.redactions));
  }

  /**
   A transformation succeeds exactly when the pipeline is named, its bound can hold the quarantine marker and
   stays within 16 MiB like the captured bytes, which are not empty, and rules and redactions are usable.
   */
  lemma TransformsExactlyWhen(p: Pipeline, captured: Bytes, normal: Normaliser, decode: Decoder)
    ensures Transform(p, captured, normal, decode).Success? <==>
            && p.id != "" && p.version != "" && 20 <= p.maximumBytes <= 16777216 && 1 <= |captured| <= 16777216
            && ResolveRules(p.rules).Success?
            && forall k :: 0 <= k < |p.redactions| ==> |p.redactions[k].0| >= 1 && |p.redactions[k].1| >= 1
  {
    QuarantinedOutputIsClean();
  }

  /**
   What a transformation does with the cleaned text: it is quarantined exactly when nothing is left, or JSON is
   longer than the bound, deeper or larger than the limits, not one document, or holds a hostile string, or
   plain text is hostile. Otherwise it is released, plain text beyond the bound cut to its longest valid part.
   */
  lemma QuarantinedExactlyWhen(p: Pipeline, captured: Bytes, normal: Normaliser, decode: Decoder)
    requires Transform(p, captured, normal, decode).Success?
    ensures var (output, m) := Transform(p, captured, normal, decode).value;
            var rules := ResolveRules(p.rules).value;
            var text := TransformBytes(captured, p.redactions);
            && (m.quarantined <==>
                  if text == [] then true
                  else if LooksLikeJson(text) then
                    || |text| > p.maximumBytes
                    || !JsonBounds.Accepts(text, JsonBounds.Limits(rules.maximumDepth, rules.maximumNodes))
                    || !decode(text).Document? || Quarantined(decode(text).value, "", rules, normal)
                  else Hostile(text, true, rules, normal))
            && (m.truncated <==> !m.quarantined && |text| > p.maximumBytes)
            && (!m.quarantined && !m.truncated ==> output == text)
            && (m.truncated ==> output <= text && LongestValid(text, p.maximumBytes, |output|))
  {
    var text := TransformBytes(captured, p.redactions);
    if |text| > p.maximumBytes {
      TruncatedIsLongest(text, p.maximumBytes);
    }
  }

  /** Output that is not quarantined passed every inspection, on the text it was cut from. */
  lemma ReleasedWasInspected(p: Pipeline, captured: Bytes, normal: Normaliser, decode: Decoder)
    requires Transform(p, captured, normal, decode).Success?
    requires !Transform(p, captured, normal, decode).value.1.quarantined
    ensures var (output, m) := Transform(p, captured, normal, decode).value;
            var rules := ResolveRules(p.rules).value;
            var text := TransformBytes(captured, p.redactions);
            && output <= text && (!m.truncated ==> output == text)
            && if LooksLikeJson(text) then
                 && output == text && decode(text).Document?
                 && JsonBounds.Accepts(text, JsonBounds.Limits(rules.maximumDepth, rules.maximumNodes))
                 && !Quarantined(decode(text).value, "", rules, normal)
                 && m.taintedFields == AsSet(Tainted(decode(text).value, "$", "", rules))
               else !Hostile(text, true, rules, normal) && m.taintedFields == {"$"}
  {
    var text := TransformBytes(captured, p.redactions);
    if |text| > p.maximumBytes {
      TruncatedIsLongest(text, p.maximumBytes);
    }
  }

  /**
   Plain text is released redacted and otherwise unchanged, when the redacted text is clean, within the
   bound and passes inspection; without redactions that is the captured text itself.
   */
  lemma CleanTextIsKept(p: Pipeline, captured: Bytes, normal: Normaliser, decode: Decoder)
    requires ValidPipeline(p, captured) && ResolveRules(p.rules).Success? && ValidRedactions(p.redactions)
    requires Valid(captured)
    requires var text := Redacted(captured, p.redactions);
             && text != [] && Clean(text) && |text| <= p.maximumBytes && !LooksLikeJson(text)
             && !Hostile(text, true, ResolveRules(p.rules).value, normal)
    ensures Transform(p, captured, normal, decode).Success?
    ensures var (output, m) := Transform(p, captured, normal, decode).value;
            && output == Redacted(captured, p.redactions) && m.redactions == Reported(captured, p.redactions)
            && (p.redactions == [] ==> output == captured)
            && !m.truncated && m.taintedFields == {"$"}
  {
    NoEscapeSurvives(Redacted(captured, p.redactions));
    StripControlsIsClean(Redacted(captured, p.redactions));
  }
}
