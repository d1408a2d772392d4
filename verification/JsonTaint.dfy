/**
 Inspection of decoded JSON (internal/sanitise/sanitise.go): which string values are reported as
 device-controlled free text, under which JSON pointer, and which quarantine the payload. Text
 normalisation is a parameter; decoding is not part of this module.
 */
module JsonTaint {
  import opened Wrappers
  import opened Text
  import opened Utf8
  import opened TextInspection

  datatype Rules = Rules(
    version: string, freeText: seq<string>, patterns: seq<Bytes>, maximumStringBytes: int, maximumDepth: int,
    maximumNodes: int, tokenMinimum: int, repetitionLimit: int)

  /** `normalizedText`: compatibility normalisation, lower case and single spaces. */
  type Normaliser = Bytes -> Bytes

  // ----- One string

  predicate OccursAt(s: Bytes, part: Bytes, i: nat)
  {
    i + |part| <= |s| && s[i..i + |part|] == part
  }

  predicate Contains(s: Bytes, part: Bytes)
  {
    exists i :: 0 <= i <= |s| && OccursAt(s, part, i)
  }

  /** `inspectString`: over-long, instruction-like or control-bearing text. */
  predicate Rejected(text: Bytes, rules: Rules, normal: Normaliser)
  {
    || |text| > rules.maximumStringBytes
    || (exists k :: 0 <= k < |rules.patterns| && Contains(normal(text), normal(rules.patterns[k])))
    || ContainsControl(DecodeAll(text))
  }

  /** With `inspectTaintedString` for free text: encoded payloads and abnormal repetition as well. */
  predicate Hostile(text: Bytes, tainted: bool, rules: Rules, normal: Normaliser)
    requires rules.tokenMinimum > 0
  {
    || Rejected(text, rules, normal)
    || (tainted && (HasToken(text, rules.tokenMinimum) || Repeats(DecodeAll(text), rules.repetitionLimit)))
  }

  /** The part stands somewhere in the text. */
  predicate Within(text: Bytes, part: Bytes)
  {
    exists i :: 0 <= i <= |text| && part <= text[i..]
  }

  /**
   Text is hostile exactly when it is too long, holds a forbidden pattern once both are normalised, or holds a
   control character other than tab, line feed and carriage return; and free text also when it holds an
   encoded token or repeats a character too often.
   */
  lemma HostileExactlyWhen(text: Bytes, tainted: bool, rules: Rules, normal: Normaliser)
    requires rules.tokenMinimum > 0
    ensures Hostile(text, tainted, rules, normal) <==>
            || |text| > rules.maximumStringBytes
            || (exists k :: 0 <= k < |rules.patterns| && Within(normal(text), normal(rules.patterns[k])))
            || (exists k :: 0 <= k < |DecodeAll(text)|
                            && (DecodeAll(text)[k] < 0x20 || 0x7F <= DecodeAll(text)[k] <= 0x9F)
                            && DecodeAll(text)[k] !in {0x09, 0x0A, 0x0D})
            || (tainted && HasToken(text, rules.tokenMinimum))
            || (tainted && Repeats(DecodeAll(text), rules.repetitionLimit))
  {
    forall k | 0 <= k < |rules.patterns|
      ensures Contains(normal(text), normal(rules.patterns[k])) <==> Within(normal(text), normal(rules.patterns[k]))
    {
      ContainsWithin(normal(text), normal(rules.patterns[k]));
    }
  }

  lemma ContainsWithin(text: Bytes, part: Bytes)
    ensures Contains(text, part) <==> Within(text, part)
  {
    if i :| 0 <= i <= |text| && OccursAt(text, part, i) {
      assert text[i..][..|part|] == text[i..i + |part|];
      assert part <= text[i..];
    }
    if i :| 0 <= i <= |text| && part <= text[i..] {
      assert text[i..][..|part|] == text[i..i + |part|];
      assert OccursAt(text, part, i);
    }
  }

  method InspectText(text: Bytes, tainted: bool, rules: Rules, normal: Normaliser) returns (quarantine: bool)
    requires rules.tokenMinimum > 0
    ensures quarantine == Hostile(text, tainted, rules, normal)
  {
    if |text| > rules.maximumStringBytes {
      return true;
    }
    var normalized := normal(text);
    for k := 0 to |rules.patterns|
      invariant forall i :: 0 <= i < k ==> !Contains(normalized, normal(rules.patterns[i]))
    {
      if Contains(normalized, normal(rules.patterns[k])) {
        return true;
      }
    }
    if ContainsControl(DecodeAll(text)) {
      return true;
    }
    if tainted {
      var token := ContainsEncodedToken(text, rules.tokenMinimum);
      if token {
        return true;
      }
      var repeated := HasAbnormalRepetition(text, rules.repetitionLimit);
      return repeated;
    }
    return false;
  }

  // ----- JSON pointers

  function ReplaceChar(s: string, c: char, with: string): string
  {
    if s == [] then [] else (if s[0] == c then with else [s[0]]) + ReplaceChar(s[1..], c, with)
  }

  /** `escapeJSONPointer`. */
  function Escape(name: string): string
  {
    ReplaceChar(ReplaceChar(name, '~', "~0"), '/', "~1")
  }

  /** Reading a token back (section 4 of RFC 6901). */
  function Unescape(token: string): string
  {
    if |token| >= 2 && token[0] == '~' then (if token[1] == '1' then "/" else "~") + Unescape(token[2..])
    else if token == [] then []
    else [token[0]] + Unescape(token[1..])
  }

  lemma {:induction false} ReplaceCharSplits(a: string, b: string, c: char, with: string)
    ensures ReplaceChar(a + b, c, with) == ReplaceChar(a, c, with) + ReplaceChar(b, c, with)
  {
    if a == [] {
      assert a + b == b;
    } else {
      assert (a + b)[1..] == a[1..] + b;
      ReplaceCharSplits(a[1..], b, c, with);
    }
  }

  function EscapeChar(c: char): string
  {
    if c == '~' then "~0" else if c == '/' then "~1" else [c]
  }

  lemma EscapeCons(name: string)
    requires name != []
    ensures Escape(name) == EscapeChar(name[0]) + Escape(name[1..])
  {
    var first := if name[0] == '~' then "~0" else [name[0]];
    ReplaceCharSplits(first, ReplaceChar(name[1..], '~', "~0"), '/', "~1");
    assert ReplaceChar(first, '/', "~1") == EscapeChar(name[0]) by {
      assert first[1..] == if name[0] == '~' then "0" else "";
      assert "0"[1..] == "";
    }
  }

  /** Escaped names hold no separator and are read back exactly. */
  lemma {:induction false} EscapeReadsBack(name: string)
    ensures '/' !in Escape(name) && Unescape(Escape(name)) == name
  {
    if name != [] {
      EscapeReadsBack(name[1..]);
      EscapeCons(name);
      var e := EscapeChar(name[0]);
      assert Escape(name)[|e|..] == Escape(name[1..]);
      SplitFirst(name);
    }
  }

  lemma DecimalHasNoSeparator(n: nat)
    ensures '/' !in Decimal(n)
  {
    DecimalReadsBack(n);
  }

  // ----- Values and the nodes inside them

  datatype Value = Atom | Str(text: Bytes) | Arr(items: Items) | Obj(members: Members)

  datatype Items = NoItems | Item(value: Value, rest: Items)

  /** The members of an object in the order the inspection visits them. */
  datatype Members = NoMembers | Member(name: string, value: Value, rest: Members)

  datatype Hop = Name(name: string) | Index(index: nat)

  function ItemAt(items: Items, i: nat): Option<Value>
  {
    match items
    case NoItems => None
    case Item(v, rest) => if i == 0 then Some(v) else ItemAt(rest, i - 1)
  }

  function MemberAt(members: Members, name: string): Option<Value>
  {
    match members
    case NoMembers => None
    case Member(n, v, rest) => if n == name then Some(v) else MemberAt(rest, name)
  }

  /** The child one hop away. */
  function Child(v: Value, hop: Hop): Option<Value>
  {
    match (v, hop)
    case (Arr(items), Index(i)) => ItemAt(items, i)
    case (Obj(members), Name(n)) => MemberAt(members, n)
    case _ => None
  }

  /** The node reached from `v` along a path. */
  function Reach(v: Value, path: seq<Hop>): Option<Value>
    decreases |path|
  {
    if path == [] then Some(v)
    else match Child(v, path[0])
      case None => None
      case Some(w) => Reach(w, path[1..])
  }

  /** The nearest enclosing member name. */
  function Nearest(path: seq<Hop>, outer: string): string
  {
    if path == [] then outer
    else if path[|path| - 1].Name? then path[|path| - 1].name
    else Nearest(path[..|path| - 1], outer)
  }

  function Token(hop: Hop): string
  {
    match hop
    case Name(n) => Escape(n)
    case Index(i) => Decimal(i)
  }

  function Pointer(path: seq<Hop>): string
  {
    if path == [] then "" else Pointer(path[..|path| - 1]) + ['/'] + Token(path[|path| - 1])
  }

  predicate DistinctNames(members: Members)
  {
    match members
    case NoMembers => true
    case Member(n, _, rest) => MemberAt(rest, n).None? && DistinctNames(rest)
  }

  predicate WellFormed(v: Value)
  {
    match v
    case Atom => true
    case Str(_) => true
    case Arr(items) => WellFormedItems(items)
    case Obj(members) => DistinctNames(members) && WellFormedMembers(members)
  }

  predicate WellFormedItems(items: Items)
  {
    match items
    case NoItems => true
    case Item(v, rest) => WellFormed(v) && WellFormedItems(rest)
  }

  predicate WellFormedMembers(members: Members)
  {
    match members
    case NoMembers => true
    case Member(_, v, rest) => WellFormed(v) && WellFormedMembers(rest)
  }

  // ----- Distinct nodes have distinct pointers

  lemma TokenHasNoSeparator(hop: Hop)
    ensures '/' !in Token(hop)
  {
    match hop
    case Name(n) => EscapeReadsBack(n);
    case Index(i) => DecimalHasNoSeparator(i);
  }

  lemma SiblingTokensDiffer(v: Value, a: Hop, b: Hop)
    requires Child(v, a).Some? && Child(v, b).Some? && Token(a) == Token(b)
    ensures a == b
  {
    match v
    case Arr(_) => DecimalInjective(a.index, b.index);
    case Obj(_) =>
      EscapeReadsBack(a.name);
      EscapeReadsBack(b.name);
  }

  lemma {:induction false} ReachInit(v: Value, path: seq<Hop>)
    requires path != [] && Reach(v, path).Some?
    ensures var n := |path| - 1;
            && Reach(v, path[..n]).Some? && Child(Reach(v, path[..n]).value, path[n]) == Reach(v, path)
    decreases |path|
  {
    var n := |path| - 1;
    if n > 0 {
      ReachInit(Child(v, path[0]).value, path[1..]);
      assert path[1..][..n - 1] == path[..n][1..];
    } else {
      assert path[..n] == [] && path[1..] == [];
    }
  }

  lemma PointerSplits(a: seq<Hop>, b: seq<Hop>)
    requires a != [] && b != [] && Pointer(a) == Pointer(b)
    ensures Pointer(a[..|a| - 1]) == Pointer(b[..|b| - 1]) && Token(a[|a| - 1]) == Token(b[|b| - 1])
  {
    TokenHasNoSeparator(a[|a| - 1]);
    TokenHasNoSeparator(b[|b| - 1]);
    SplitAtLast(Pointer(a[..|a| - 1]), Token(a[|a| - 1]), Pointer(b[..|b| - 1]), Token(b[|b| - 1]), '/');
  }

  /** Two nodes of one value with the same pointer are the same node. */
  lemma {:induction false} PointersAreDistinct(v: Value, a: seq<Hop>, b: seq<Hop>)
    requires Reach(v, a).Some? && Reach(v, b).Some? && Pointer(a) == Pointer(b)
    ensures a == b
    decreases |a|
  {
    if a != [] && b != [] {
      var m, n := |a| - 1, |b| - 1;
      PointerSplits(a, b);
      ReachInit(v, a);
      ReachInit(v, b);
      assert a[..m] == b[..n] by {
        PointersAreDistinct(v, a[..m], b[..n]);
      }
      SiblingTokensDiffer(Reach(v, a[..m]).value, a[m], b[n]);
      SplitLast(a);
      SplitLast(b);
    }
  }

  // ----- The inspection

  function ItemPath(path: string, index: nat): string
  {
    path + ['/'] + Decimal(index)
  }

  function MemberPath(path: string, name: string): string
  {
    path + ['/'] + Escape(name)
  }

  /** Pointers of the tainted strings below a value at `path` whose nearest member name is `field`. */
  function Tainted(v: Value, path: string, field: string, rules: Rules): seq<string>
  {
    match v
    case Atom => []
    case Str(_) => if field in rules.freeText then [path] else []
    case Arr(items) => TaintedItems(items, 0, path, field, rules)
    case Obj(members) => TaintedMembers(members, path, rules)
  }

  function TaintedItems(items: Items, i: nat, path: string, field: string, rules: Rules): seq<string>
  {
    match items
    case NoItems => []
    case Item(v, rest) =>
      Tainted(v, ItemPath(path, i), field, rules) + TaintedItems(rest, i + 1, path, field, rules)
  }

  function TaintedMembers(members: Members, path: string, rules: Rules): seq<string>
  {
    match members
    case NoMembers => []
    case Member(n, v, rest) => Tainted(v, MemberPath(path, n), n, rules) + TaintedMembers(rest, path, rules)
  }

  /** Some string below the value is hostile. */
  predicate Quarantined(v: Value, field: string, rules: Rules, normal: Normaliser)
    requires rules.tokenMinimum > 0
  {
    match v
    case Atom => false
    case Str(text) => Hostile(text, field in rules.freeText, rules, normal)
    case Arr(items) => QuarantinedItems(items, field, rules, normal)
    case Obj(members) => QuarantinedMembers(members, rules, normal)
  }

  predicate QuarantinedItems(items: Items, field: string, rules: Rules, normal: Normaliser)
    requires rules.tokenMinimum > 0
  {
    match items
    case NoItems => false
    case Item(v, rest) => Quarantined(v, field, rules, normal) || QuarantinedItems(rest, field, rules, normal)
  }

  predicate QuarantinedMembers(members: Members, rules: Rules, normal: Normaliser)
    requires rules.tokenMinimum > 0
  {
    match members
    case NoMembers => false
    case Member(n, v, rest) => Quarantined(v, n, rules, normal) || QuarantinedMembers(rest, rules, normal)
  }

  class InspectionReport {
    var tainted: seq<string>
    var quarantine: bool

    constructor ()
      ensures tainted == [] && !quarantine
    {
      tainted, quarantine := [], false;
    }
  }

  method InspectJsonValue(v: Value, path: string, field: string, rules: Rules, normal: Normaliser,
                          report: InspectionReport)
    requires rules.tokenMinimum > 0
    modifies report
    ensures report.tainted == old(report.tainted) + Tainted(v, path, field, rules)
    ensures report.quarantine == (old(report.quarantine) || Quarantined(v, field, rules, normal))
    decreases v
  {
    match v
    case Atom =>
    case Str(text) =>
      var isTainted := field in rules.freeText;
      if isTainted {
        report.tainted := report.tainted + [path];
      }
      var quarantine := InspectText(text, isTainted, rules, normal);
      report.quarantine := report.quarantine || quarantine;
    case Arr(items) =>
      var rest, index := items, 0;
      while rest.Item?
        invariant index >= 0 && (rest == items || rest < items)
        invariant old(report.tainted) + TaintedItems(items, 0, path, field, rules)
               == report.tainted + TaintedItems(rest, index, path, field, rules)
        invariant (old(report.quarantine) || QuarantinedItems(items, field, rules, normal))
               == (report.quarantine || QuarantinedItems(rest, field, rules, normal))
        decreases rest
      {
        ghost var before := report.tainted;
        InspectJsonValue(rest.value, ItemPath(path, index), field, rules, normal, report);
        assert before + TaintedItems(rest, index, path, field, rules)
            == report.tainted + TaintedItems(rest.rest, index + 1, path, field, rules);
        rest, index := rest.rest, index + 1;
      }
    case Obj(members) =>
      var rest := members;
      while rest.Member?
        invariant rest == members || rest < members
        invariant old(report.tainted) + TaintedMembers(members, path, rules)
               == report.tainted + TaintedMembers(rest, path, rules)
        invariant (old(report.quarantine) || QuarantinedMembers(members, rules, normal))
               == (report.quarantine || QuarantinedMembers(rest, rules, normal))
        decreases rest
      {
        ghost var before := report.tainted;
        InspectJsonValue(rest.value, MemberPath(path, rest.name), rest.name, rules, normal, report);
        assert before + TaintedMembers(rest, path, rules) == report.tainted + TaintedMembers(rest.rest, path, rules);
        rest := rest.rest;
      }
  }

  // ----- What the report means

  /** A string value at `path` whose nearest member name is a free-text field. */
  predicate FreeTextAt(v: Value, path: seq<Hop>, field: string, rules: Rules)
  {
    Reach(v, path).Some? && Reach(v, path).value.Str? && Nearest(path, field) in rules.freeText
  }

  lemma Regroup(a: string, b: string, c: string, d: string)
    ensures a + b + c + d == a + (b + c + d)
  {
  }

  lemma Shift<T>(first: T, middle: seq<T>, last: T)
    ensures [first] + (middle + [last]) == [first] + middle + [last]
  {
  }

  lemma PointerSnoc(path: seq<Hop>, hop: Hop)
    ensures Pointer(path + [hop]) == Pointer(path) + ['/'] + Token(hop)
  {
    assert (path + [hop])[..|path|] == path;
  }

  lemma PointerOne(hop: Hop)
    ensures Pointer([hop]) == ['/'] + Token(hop)
  {
    PointerSnoc([], hop);
    assert [] + [hop] == [hop];
  }

  lemma {:induction false} PointerCons(hop: Hop, path: seq<Hop>)
    ensures Pointer([hop] + path) == ['/'] + Token(hop) + Pointer(path)
  {
    if path == [] {
      PointerOne(hop);
      assert [hop] + path == [hop];
    } else {
      var n := |path| - 1;
      PointerCons(hop, path[..n]);
      PointerConsStep(hop, path[..n], path[n]);
      SplitLast(path);
    }
  }

  lemma PointerConsStep(hop: Hop, init: seq<Hop>, last: Hop)
    requires Pointer([hop] + init) == ['/'] + Token(hop) + Pointer(init)
    ensures Pointer([hop] + (init + [last])) == ['/'] + Token(hop) + Pointer(init + [last])
  {
    PointerSnoc(init, last);
    PointerSnoc([hop] + init, last);
    Shift(hop, init, last);
    Regroup(['/'] + Token(hop), Pointer(init), ['/'], Token(last));
  }

  lemma {:induction false} NearestCons(hop: Hop, path: seq<Hop>, outer: string)
    ensures Nearest([hop] + path, outer) == Nearest(path, if hop.Name? then hop.name else outer)
  {
    var all := [hop] + path;
    if path == [] {
      assert all[..0] == [];
    } else {
      NearestCons(hop, path[..|path| - 1], outer);
      assert all[..|all| - 1] == [hop] + path[..|path| - 1];
    }
  }

  lemma Deeper(v: Value, hop: Hop, path: seq<Hop>, outer: string, rules: Rules)
    requires Child(v, hop).Some?
    ensures FreeTextAt(v, [hop] + path, outer, rules)
        <==> FreeTextAt(Child(v, hop).value, path, if hop.Name? then hop.name else outer, rules)
  {
    NearestCons(hop, path, outer);
    assert ([hop] + path)[1..] == path;
  }

  lemma FoundBelow(v: Value, hop: Hop, path: seq<Hop>, base: string, outer: string, rules: Rules)
    requires Child(v, hop).Some?
    requires FreeTextAt(Child(v, hop).value, path, if hop.Name? then hop.name else outer, rules)
    ensures FreeTextAt(v, [hop] + path, outer, rules)
    ensures base + Pointer([hop] + path) == base + ['/'] + Token(hop) + Pointer(path)
  {
    Deeper(v, hop, path, outer, rules);
    PointerCons(hop, path);
    Regroup(base, ['/'], Token(hop), Pointer(path));
  }

  /** Every reported pointer is the pointer of a free-text string. */
  lemma {:induction false} TaintedIsFreeText(v: Value, base: string, field: string, rules: Rules, p: string)
    returns (path: seq<Hop>)
    requires WellFormed(v) && p in Tainted(v, base, field, rules)
    ensures FreeTextAt(v, path, field, rules) && p == base + Pointer(path)
    decreases v
  {
    match v
    case Str(_) => path := [];
    case Arr(items) =>
      var k, rest := TaintedItemFound(items, 0, base, field, rules, p);
      path := [Index(k)] + rest;
      FoundBelow(v, Index(k), rest, base, field, rules);
    case Obj(members) =>
      var n, rest := TaintedMemberFound(members, base, rules, p);
      path := [Name(n)] + rest;
      FoundBelow(v, Name(n), rest, base, field, rules);
  }

  lemma {:induction false} TaintedItemFound(items: Items, i: nat, base: string, field: string, rules: Rules, p: string)
    returns (k: nat, path: seq<Hop>)
    requires WellFormedItems(items) && p in TaintedItems(items, i, base, field, rules)
    ensures i <= k && ItemAt(items, k - i).Some? && FreeTextAt(ItemAt(items, k - i).value, path, field, rules)
    ensures p == ItemPath(base, k) + Pointer(path)
    decreases items
  {
    if p in Tainted(items.value, ItemPath(base, i), field, rules) {
      k := i;
      path := TaintedIsFreeText(items.value, ItemPath(base, i), field, rules, p);
    } else {
      k, path := TaintedItemFound(items.rest, i + 1, base, field, rules, p);
    }
  }

  lemma {:induction false} TaintedMemberFound(members: Members, base: string, rules: Rules, p: string)
    returns (n: string, path: seq<Hop>)
    requires DistinctNames(members) && WellFormedMembers(members) && p in TaintedMembers(members, base, rules)
    ensures MemberAt(members, n).Some? && FreeTextAt(MemberAt(members, n).value, path, n, rules)
    ensures p == MemberPath(base, n) + Pointer(path)
    decreases members
  {
    if p in Tainted(members.value, MemberPath(base, members.name), members.name, rules) {
      n := members.name;
      path := TaintedIsFreeText(members.value, MemberPath(base, n), n, rules, p);
    } else {
      n, path := TaintedMemberFound(members.rest, base, rules, p);
    }
  }

  /** Every free-text string is reported. */
  lemma {:induction false} FreeTextIsTainted(v: Value, base: string, field: string, rules: Rules, path: seq<Hop>)
    requires FreeTextAt(v, path, field, rules)
    ensures base + Pointer(path) in Tainted(v, base, field, rules)
    decreases |path|
  {
    if path == [] {
      assert base + Pointer(path) == base;
    } else {
      var hop, rest := path[0], path[1..];
      SplitFirst(path);
      Deeper(v, hop, rest, field, rules);
      PointerCons(hop, rest);
      var below := base + ['/'] + Token(hop);
      FreeTextIsTainted(Child(v, hop).value, below, if hop.Name? then hop.name else field, rules, rest);
      Regroup(base, ['/'], Token(hop), Pointer(rest));
      match hop
      case Index(i) => ItemIsIncluded(v.items, 0, i, base, field, rules, below + Pointer(rest));
      case Name(n) => MemberIsIncluded(v.members, n, base, rules, below + Pointer(rest));
    }
  }

  lemma {:induction false} ItemIsIncluded(items: Items, i: nat, k: nat, base: string, field: string, rules: Rules,
                                          p: string)
    requires ItemAt(items, k).Some?
    requires p in Tainted(ItemAt(items, k).value, ItemPath(base, i + k), field, rules)
    ensures p in TaintedItems(items, i, base, field, rules)
    decreases items
  {
    if k > 0 {
      ItemIsIncluded(items.rest, i + 1, k - 1, base, field, rules, p);
    }
  }

  lemma {:induction false} MemberIsIncluded(members: Members, n: string, base: string, rules: Rules, p: string)
    requires MemberAt(members, n).Some?
    requires p in Tainted(MemberAt(members, n).value, MemberPath(base, n), n, rules)
    ensures p in TaintedMembers(members, base, rules)
    decreases members
  {
    if members.name != n {
      MemberIsIncluded(members.rest, n, base, rules, p);
    }
  }

  /** The reported pointers are exactly those of the free-text strings of the document. */
  lemma TaintIsExact(v: Value, rules: Rules, p: string)
    requires WellFormed(v)
    ensures p in Tainted(v, "$", "", rules) <==>
            exists path: seq<Hop> :: FreeTextAt(v, path, "", rules) && p == "$" + Pointer(path)
  {
    if p in Tainted(v, "$", "", rules) {
      var path := TaintedIsFreeText(v, "$", "", rules, p);
    }
    if path: seq<Hop> :| FreeTextAt(v, path, "", rules) && p == "$" + Pointer(path) {
      FreeTextIsTainted(v, "$", "", rules, path);
    }
  }

  // ----- Quarantine

  /** A string value at `path` that fails its inspection. */
  predicate HostileAt(v: Value, path: seq<Hop>, field: string, rules: Rules, normal: Normaliser)
    requires rules.tokenMinimum > 0
  {
    && Reach(v, path).Some? && Reach(v, path).value.Str?
    && Hostile(Reach(v, path).value.text, Nearest(path, field) in rules.freeText, rules, normal)
  }

  /** Without quarantine, every string value anywhere passed its inspection. */
  lemma {:induction false} NotQuarantinedMeansInspected(v: Value, field: string, rules: Rules, normal: Normaliser,
                                                        path: seq<Hop>)
    requires rules.tokenMinimum > 0 && !Quarantined(v, field, rules, normal)
    ensures !HostileAt(v, path, field, rules, normal)
    decreases |path|
  {
    if path != [] && Child(v, path[0]).Some? {
      var hop, rest := path[0], path[1..];
      assert path == [hop] + rest;
      NearestCons(hop, rest, field);
      match hop {
        case Index(i) => ItemIsInspected(v.items, i, field, rules, normal);
        case Name(n) => MemberIsInspected(v.members, n, rules, normal);
      }
      NotQuarantinedMeansInspected(Child(v, hop).value, if hop.Name? then hop.name else field, rules, normal, rest);
    }
  }

  lemma {:induction false} ItemIsInspected(items: Items, k: nat, field: string, rules: Rules, normal: Normaliser)
    requires rules.tokenMinimum > 0 && !QuarantinedItems(items, field, rules, normal) && ItemAt(items, k).Some?
    ensures !Quarantined(ItemAt(items, k).value, field, rules, normal)
    decreases items
  {
    if k > 0 {
      ItemIsInspected(items.rest, k - 1, field, rules, normal);
    }
  }

  lemma {:induction false} MemberIsInspected(members: Members, n: string, rules: Rules, normal: Normaliser)
    requires rules.tokenMinimum > 0 && !QuarantinedMembers(members, rules, normal) && MemberAt(members, n).Some?
    ensures !Quarantined(MemberAt(members, n).value, n, rules, normal)
    decreases members
  {
    if members.name != n {
      MemberIsInspected(members.rest, n, rules, normal);
    }
  }
}
