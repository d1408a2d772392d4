/**
 The byte scanner that bounds JSON nesting and size before decoding
 (internal/sanitise/sanitise.go), against the structure of the text it reads.
 */
module JsonBounds {
  import opened Wrappers
  import opened Utf8

  const QUOTE: byte := 0x22
  const COMMA: byte := 0x2C
  const COLON: byte := 0x3A
  const BACKSLASH: byte := 0x5C

  function Opening(isObject: bool): byte
  {
    if isObject then 0x7B else 0x5B
  }

  function Closing(isObject: bool): byte
  {
    if isObject then 0x7D else 0x5D
  }

  // ----- JSON texts

  /** A JSON text with everything its rendering chose: whitespace, number spelling and string escapes. */
  datatype Node =
    | Literal(text: Bytes)
    | Text(content: Bytes)
    | Empty(isObject: bool, gap: Bytes)
    | Full(isObject: bool, entries: Entries)

  datatype Entries = One(entry: Entry) | And(entry: Entry, rest: Entries)

  datatype Entry =
    | Element(before: Bytes, node: Node, after: Bytes)
    | Member(before: Bytes, name: Bytes, beforeColon: Bytes, afterColon: Bytes, node: Node, after: Bytes)

  /** Bytes that are neither quotes, brackets, braces nor commas: whitespace, colons, numbers and keywords. */
  predicate Plain(s: Bytes)
  {
    forall k :: 0 <= k < |s| ==> s[k] !in {QUOTE, COMMA, 0x7B, 0x5B, 0x7D, 0x5D}
  }

  /** The characters between two quotes: no bare quote, and no escape cut short. */
  predicate StringBody(s: Bytes)
    decreases |s|
  {
    if s == [] then true
    else if s[0] == BACKSLASH then |s| > 1 && StringBody(s[2..])
    else s[0] != QUOTE && StringBody(s[1..])
  }

  /** Every JSON text has this shape. */
  predicate Shaped(t: Node)
  {
    match t
    case Literal(text) => text != [] && Plain(text)
    case Text(content) => StringBody(content)
    case Empty(_, gap) => Plain(gap)
    case Full(_, entries) => ShapedEntries(entries)
  }

  predicate ShapedEntries(es: Entries)
  {
    match es
    case One(e) => ShapedEntry(e)
    case And(e, rest) => ShapedEntry(e) && ShapedEntries(rest)
  }

  predicate ShapedEntry(e: Entry)
  {
    match e
    case Element(before, node, after) => Plain(before) && Shaped(node) && Plain(after)
    case Member(before, name, beforeColon, afterColon, node, after) =>
      Plain(before) && StringBody(name) && Plain(beforeColon) && Plain(afterColon) && Shaped(node) && Plain(after)
  }

  function Quoted(content: Bytes): Bytes
  {
    [QUOTE] + content + [QUOTE]
  }

  function Print(t: Node): Bytes
  {
    match t
    case Literal(text) => text
    case Text(content) => Quoted(content)
    case Empty(isObject, gap) => [Opening(isObject)] + gap + [Closing(isObject)]
    case Full(isObject, entries) => [Opening(isObject)] + PrintEntries(entries) + [Closing(isObject)]
  }

  function PrintEntries(es: Entries): Bytes
  {
    match es
    case One(e) => PrintEntry(e)
    case And(e, rest) => PrintEntry(e) + [COMMA] + PrintEntries(rest)
  }

  function PrintEntry(e: Entry): Bytes
  {
    match e
    case Element(before, node, after) => before + Print(node) + after
    case Member(before, name, beforeColon, afterColon, node, after) =>
      before + Quoted(name) + (beforeColon + [COLON] + afterColon) + Print(node) + after
  }

  function Max(a: nat, b: nat): nat
  {
    if a < b then b else a
  }

  /** How deep containers nest. */
  function Depth(t: Node): nat
  {
    match t
    case Literal(_) => 0
    case Text(_) => 0
    case Empty(_, _) => 1
    case Full(_, entries) => 1 + EntriesDepth(entries)
  }

  function EntriesDepth(es: Entries): nat
  {
    match es
    case One(e) => Depth(e.node)
    case And(e, rest) => Max(Depth(e.node), EntriesDepth(rest))
  }

  /** Containers plus commas. */
  function Size(t: Node): nat
  {
    match t
    case Literal(_) => 0
    case Text(_) => 0
    case Empty(_, _) => 1
    case Full(_, entries) => 1 + EntriesSize(entries)
  }

  function EntriesSize(es: Entries): nat
  {
    match es
    case One(e) => Size(e.node)
    case And(e, rest) => Size(e.node) + 1 + EntriesSize(rest)
  }

  // ----- The scanner

  datatype Limits = Limits(depth: int, nodes: int)

  datatype Scan = Scan(depth: int, nodes: int, inString: bool, escaped: bool)

  const START: Scan := Scan(0, 0, false, false)

  predicate Within(c: Scan, m: Limits)
  {
    0 <= c.depth <= m.depth && c.nodes <= m.nodes
  }

  function Moved(c: Scan, b: byte): Scan
  {
    if b == QUOTE then c.(inString := true)
    else if b == 0x7B || b == 0x5B then c.(depth := c.depth + 1, nodes := c.nodes + 1)
    else if b == 0x7D || b == 0x5D then c.(depth := c.depth - 1)
    else if b == COMMA then c.(nodes := c.nodes + 1)
    else c
  }

  /** One byte; `None` when the scanner gives up. */
  function Step(c: Scan, b: byte, m: Limits): Option<Scan>
  {
    if c.inString then
      if c.escaped then Some(c.(escaped := false))
      else if b == BACKSLASH then Some(c.(escaped := true))
      else if b == QUOTE then Some(c.(inString := false))
      else Some(c)
    else if Within(Moved(c, b), m) then Some(Moved(c, b)) else None
  }

  function Steps(c: Scan, s: Bytes, m: Limits): Option<Scan>
    decreases |s|
  {
    if s == [] then Some(c)
    else match Step(c, s[0], m)
      case None => None
      case Some(next) => Steps(next, s[1..], m)
  }

  function Accepts(s: Bytes, m: Limits): bool
  {
    match Steps(START, s, m)
    case None => false
    case Some(c) => c.depth == 0 && !c.inString && !c.escaped
  }

  class JsonBoundScanner {
    var depth: int
    var nodes: int
    var inString: bool
    var escaped: bool
    const limits: Limits

    constructor (limits: Limits)
      ensures View() == START && this.limits == limits
    {
      depth, nodes, inString, escaped := 0, 0, false, false;
      this.limits := limits;
    }

    function View(): Scan
      reads this
    {
      Scan(depth, nodes, inString, escaped)
    }

    method Consume(b: byte) returns (ok: bool)
      modifies this
      ensures ok == Step(old(View()), b, limits).Some?
      ensures ok ==> View() == Step(old(View()), b, limits).value
    {
      if inString {
        if escaped {
          escaped := false;
        } else if b == BACKSLASH {
          escaped := true;
        } else if b == QUOTE {
          inString := false;
        }
        return true;
      }
      if b == QUOTE {
        inString := true;
      } else if b == 0x7B || b == 0x5B {
        depth := depth + 1;
        nodes := nodes + 1;
      } else if b == 0x7D || b == 0x5D {
        depth := depth - 1;
      } else if b == COMMA {
        nodes := nodes + 1;
      }
      return depth >= 0 && depth <= limits.depth && nodes <= limits.nodes;
    }
  }

  method BoundedJsonStructure(payload: Bytes, limits: Limits) returns (ok: bool)
    ensures ok == Accepts(payload, limits)
  {
    var scanner := new JsonBoundScanner(limits);
    assert payload[0..] == payload;
    for i := 0 to |payload|
      invariant scanner.limits == limits && fresh(scanner)
      invariant Steps(START, payload, limits) == Steps(scanner.View(), payload[i..], limits)
    {
      assert payload[i..][1..] == payload[i + 1..];
      var fine := scanner.Consume(payload[i]);
      if !fine {
        return false;
      }
    }
    return scanner.depth == 0 && !scanner.inString && !scanner.escaped;
  }

  // ----- What the scanner measures

  lemma {:induction false} StepsAppend(c: Scan, a: Bytes, b: Bytes, m: Limits)
    ensures Steps(c, a + b, m) == match Steps(c, a, m) case None => None case Some(d) => Steps(d, b, m)
    decreases |a|
  {
    if a == [] {
      assert a + b == b;
    } else {
      assert (a + b)[1..] == a[1..] + b;
      var d := Step(c, a[0], m);
      if d.Some? {
        StepsAppend(d.value, a[1..], b, m);
      }
    }
  }

  /** Between values: outside strings and within the limits. */
  predicate Ready(c: Scan, m: Limits)
  {
    !c.inString && !c.escaped && Within(c, m)
  }

  /** The scanner after text that adds `size` and nests `depth` deep: the same depth, or given up. */
  function After(c: Scan, depth: nat, size: nat, m: Limits): Option<Scan>
  {
    if c.depth + depth <= m.depth && c.nodes + size <= m.nodes then Some(c.(nodes := c.nodes + size)) else None
  }

  lemma {:induction false} PlainIsSkipped(c: Scan, s: Bytes, m: Limits)
    requires Ready(c, m) && Plain(s)
    ensures Steps(c, s, m) == Some(c)
  {
    if s != [] {
      assert Moved(c, s[0]) == c;
      PlainIsSkipped(c, s[1..], m);
    }
  }

  lemma {:induction false} BodyIsSkipped(c: Scan, s: Bytes, m: Limits)
    requires c.inString && !c.escaped && StringBody(s)
    ensures Steps(c, s, m) == Some(c)
    decreases |s|
  {
    if s != [] {
      if s[0] == BACKSLASH {
        BodyIsSkipped(c, s[2..], m);
        assert s[1..][1..] == s[2..];
        assert Steps(c.(escaped := true), s[1..], m) == Steps(c, s[2..], m);
      } else {
        BodyIsSkipped(c, s[1..], m);
      }
    }
  }

  lemma QuotedIsSkipped(c: Scan, content: Bytes, m: Limits)
    requires Ready(c, m) && StringBody(content)
    ensures Steps(c, Quoted(content), m) == Some(c)
  {
    var inside := c.(inString := true);
    assert Quoted(content) == [QUOTE] + (content + [QUOTE]);
    assert (Quoted(content))[1..] == content + [QUOTE];
    StepsAppend(inside, content, [QUOTE], m);
    BodyIsSkipped(inside, content, m);
    SingleStep(inside, QUOTE, m);
  }

  lemma SingleStep(c: Scan, b: byte, m: Limits)
    ensures Steps(c, [b], m) == Step(c, b, m)
  {
    assert [b][1..] == [];
  }

  /** A container around text that adds `size` and nests `depth` deep. */
  lemma Enclosed(c: Scan, isObject: bool, inner: Bytes, depth: nat, size: nat, m: Limits)
    requires Ready(c, m)
    requires var d := c.(depth := c.depth + 1, nodes := c.nodes + 1);
             Ready(d, m) ==> Steps(d, inner, m) == After(d, depth, size, m)
    ensures Steps(c, [Opening(isObject)] + inner + [Closing(isObject)], m) == After(c, 1 + depth, 1 + size, m)
  {
    var d := c.(depth := c.depth + 1, nodes := c.nodes + 1);
    StepsAppend(c, [Opening(isObject)] + inner, [Closing(isObject)], m);
    StepsAppend(c, [Opening(isObject)], inner, m);
    SingleStep(c, Opening(isObject), m);
    if Ready(d, m) && After(d, depth, size, m).Some? {
      SingleStep(After(d, depth, size, m).value, Closing(isObject), m);
    }
  }

  lemma {:induction false} NodeIsMeasured(t: Node, c: Scan, m: Limits)
    requires Shaped(t) && Ready(c, m)
    ensures Steps(c, Print(t), m) == After(c, Depth(t), Size(t), m)
    decreases t, 0
  {
    match t
    case Literal(text) => PlainIsSkipped(c, text, m);
    case Text(content) => QuotedIsSkipped(c, content, m);
    case Empty(isObject, gap) =>
      var d := c.(depth := c.depth + 1, nodes := c.nodes + 1);
      if Ready(d, m) {
        PlainIsSkipped(d, gap, m);
      }
      Enclosed(c, isObject, gap, 0, 0, m);
    case Full(isObject, entries) =>
      var d := c.(depth := c.depth + 1, nodes := c.nodes + 1);
      if Ready(d, m) {
        EntriesAreMeasured(entries, d, m);
      }
      Enclosed(c, isObject, PrintEntries(entries), EntriesDepth(entries), EntriesSize(entries), m);
  }

  lemma {:induction false} EntryIsMeasured(e: Entry, c: Scan, m: Limits)
    requires ShapedEntry(e) && Ready(c, m)
    ensures Steps(c, PrintEntry(e), m) == After(c, Depth(e.node), Size(e.node), m)
    decreases e, 0
  {
    NodeIsMeasured(e.node, c, m);
    match e
    case Element(before, node, after) =>
      PlainIsSkipped(c, before, m);
      Surrounded(c, before, Print(node), after, m);
    case Member(before, name, beforeColon, afterColon, node, after) =>
      var colon := beforeColon + [COLON] + afterColon;
      PlainIsSkipped(c, before, m);
      QuotedIsSkipped(c, name, m);
      PlainIsSkipped(c, colon, m);
      StepsAppend(c, before + Quoted(name), colon, m);
      StepsAppend(c, before, Quoted(name), m);
      Surrounded(c, before + Quoted(name) + colon, Print(node), after, m);
  }

  /** Skipped text before and plain text after change nothing. */
  lemma Surrounded(c: Scan, before: Bytes, inner: Bytes, after: Bytes, m: Limits)
    requires Steps(c, before, m) == Some(c) && Plain(after)
    requires Steps(c, inner, m).Some? ==> Ready(Steps(c, inner, m).value, m)
    ensures Steps(c, before + inner + after, m) == Steps(c, inner, m)
  {
    StepsAppend(c, before + inner, after, m);
    StepsAppend(c, before, inner, m);
    if Steps(c, inner, m).Some? {
      PlainIsSkipped(Steps(c, inner, m).value, after, m);
    }
  }

  lemma {:induction false} EntriesAreMeasured(es: Entries, c: Scan, m: Limits)
    requires ShapedEntries(es) && Ready(c, m)
    ensures Steps(c, PrintEntries(es), m) == After(c, EntriesDepth(es), EntriesSize(es), m)
    decreases es, 0
  {
    EntryIsMeasured(es.entry, c, m);
    match es
    case One(_) =>
    case And(e, rest) =>
      StepsAppend(c, PrintEntry(e) + [COMMA], PrintEntries(rest), m);
      StepsAppend(c, PrintEntry(e), [COMMA], m);
      var d := After(c, Depth(e.node), Size(e.node), m);
      if d.Some? {
        SingleStep(d.value, COMMA, m);
        var next := d.value.(nodes := d.value.nodes + 1);
        if Within(next, m) {
          EntriesAreMeasured(rest, next, m);
        }
      }
  }

  /**
   For every JSON text and every rendering of it, the scanner accepts exactly when its nesting and its
   containers plus commas are within the limits.
   */
  lemma ScannerIsExact(before: Bytes, t: Node, after: Bytes, m: Limits)
    requires Plain(before) && Shaped(t) && Plain(after)
    ensures Accepts(before + Print(t) + after, m) <==> Depth(t) <= m.depth && Size(t) <= m.nodes
  {
    if Ready(START, m) {
      PlainIsSkipped(START, before, m);
      NodeIsMeasured(t, START, m);
      Surrounded(START, before, Print(t), after, m);
    } else {
      var s := before + Print(t) + after;
      assert Print(t) != [];
      assert s[0] == if before != [] then before[0] else Print(t)[0];
    }
  }
}
