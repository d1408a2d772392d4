/**
 Removing terminal escape sequences and raw control characters from captured bytes, as
 internal/sanitise/sanitise.go does it.
 */
module Stripping {
  import opened Utf8

  const ESC: byte := 0x1B
  const BEL: byte := 0x07
  const DEL: byte := 0x7F
  const OPEN_BRACKET: byte := 0x5B
  const BACKSLASH: byte := 0x5C
  const CLOSE_BRACKET: byte := 0x5D

  // ----- Escape sequences

  /** The byte that ends a control sequence. */
  predicate Final(b: byte)
  {
    0x40 <= b <= 0x7E
  }

  function AfterCsi(s: Bytes): (rest: Bytes)
    ensures |rest| <= |s|
  {
    if s == [] then [] else if Final(s[0]) then s[1..] else AfterCsi(s[1..])
  }

  function AfterOsc(s: Bytes): (rest: Bytes)
    ensures |rest| <= |s|
  {
    if s == [] then []
    else if s[0] == BEL then s[1..]
    else if s[0] == ESC && |s| > 1 && s[1] == BACKSLASH then s[2..]
    else AfterOsc(s[1..])
  }

  /** What is left after the sequence that an escape introduces. */
  function AfterSequence(s: Bytes): (rest: Bytes)
    ensures |rest| <= |s|
  {
    if s == [] then []
    else if s[0] == OPEN_BRACKET then AfterCsi(s[1..])
    else if s[0] == CLOSE_BRACKET then AfterOsc(s[1..])
    else s[1..]
  }

  function StripTerminal(s: Bytes): (Bytes, nat)
    decreases |s|
  {
    if s == [] then ([], 0)
    else if s[0] != ESC then
      var (rest, count) := StripTerminal(s[1..]);
      ([s[0]] + rest, count)
    else
      var (rest, count) := StripTerminal(AfterSequence(s[1..]));
      (rest, count + 1)
  }

  method ConsumeCsi(input: Bytes, start: nat) returns (index: nat)
    requires start <= |input|
    ensures start <= index <= |input| && input[index..] == AfterCsi(input[start..])
  {
    index := start;
    while index < |input|
      invariant start <= index <= |input| && AfterCsi(input[index..]) == AfterCsi(input[start..])
    {
      var c := input[index];
      assert input[index..][1..] == input[index + 1..];
      index := index + 1;
      if c >= 0x40 && c <= 0x7E {
        return;
      }
    }
  }

  method ConsumeOsc(input: Bytes, start: nat) returns (index: nat)
    requires start <= |input|
    ensures start <= index <= |input| && input[index..] == AfterOsc(input[start..])
  {
    index := start;
    while index < |input|
      invariant start <= index <= |input| && AfterOsc(input[index..]) == AfterOsc(input[start..])
    {
      assert input[index..][1..] == input[index + 1..];
      if input[index] == BEL {
        return index + 1;
      }
      if input[index] == ESC && index + 1 < |input| && input[index + 1] == BACKSLASH {
        assert input[index..][2..] == input[index + 2..];
        return index + 2;
      }
      index := index + 1;
    }
  }

  method ConsumeSequence(input: Bytes, start: nat) returns (index: nat)
    requires start <= |input|
    ensures start <= index <= |input| && input[index..] == AfterSequence(input[start..])
  {
    if start >= |input| {
      return start;
    }
    assert input[start..][1..] == input[start + 1..];
    if input[start] == OPEN_BRACKET {
      index := ConsumeCsi(input, start + 1);
    } else if input[start] == CLOSE_BRACKET {
      index := ConsumeOsc(input, start + 1);
    } else {
      index := start + 1;
    }
  }

  method StripTerminalSequences(input: Bytes) returns (output: Bytes, stripped: nat)
    ensures (output, stripped) == StripTerminal(input)
  {
    output, stripped := [], 0;
    var index := 0;
    assert input[0..] == input && [] + StripTerminal(input).0 == StripTerminal(input).0;
    while index < |input|
      invariant 0 <= index <= |input|
      invariant var rest := StripTerminal(input[index..]);
                StripTerminal(input) == (output + rest.0, stripped + rest.1)
    {
      assert input[index..][1..] == input[index + 1..];
      if input[index] != ESC {
        ghost var rest := StripTerminal(input[index + 1..]);
        assert output + ([input[index]] + rest.0) == (output + [input[index]]) + rest.0;
        output := output + [input[index]];
        index := index + 1;
        continue;
      }
      stripped := stripped + 1;
      index := ConsumeSequence(input, index + 1);
    }
    assert output + [] == output;
  }

  /** No escape survives, and text without one is left alone. */
  lemma {:induction false} NoEscapeSurvives(s: Bytes)
    ensures ESC !in StripTerminal(s).0
    ensures ESC !in s ==> StripTerminal(s) == (s, 0)
    decreases |s|
  {
    if s != [] {
      NoEscapeSurvives(if s[0] != ESC then s[1..] else AfterSequence(s[1..]));
      assert s == [s[0]] + s[1..];
    }
  }

  /** Text up to the first escape is copied. */
  lemma {:induction false} PrefixIsCopied(before: Bytes, tail: Bytes)
    requires ESC !in before
    ensures StripTerminal(before + tail) == (before + StripTerminal(tail).0, StripTerminal(tail).1)
    decreases |before|
  {
    if before == [] {
      assert before + tail == tail && before + StripTerminal(tail).0 == StripTerminal(tail).0;
    } else {
      PrefixIsCopied(before[1..], tail);
      CopyStep(before + tail);
      SplitJoined(before, tail, 1);
      SplitJoined(before, StripTerminal(tail).0, 1);
    }
  }

  lemma CopyStep(s: Bytes)
    requires s != [] && s[0] != ESC
    ensures StripTerminal(s) == (s[..1] + StripTerminal(s[1..]).0, StripTerminal(s[1..]).1)
  {
    assert s[..1] == [s[0]];
  }

  /** No byte of the body, given what follows it, ends the sequence. */
  predicate Unended(introducer: byte, body: Bytes, end: Bytes)
  {
    if introducer == OPEN_BRACKET then forall k :: 0 <= k < |body| ==> !(0x40 <= body[k] <= 0x7E)
    else forall k :: 0 <= k < |body| ==>
                       body[k] != BEL && !(body[k] == ESC && k + 1 < |body + end| && (body + end)[k + 1] == BACKSLASH)
  }

  /**
   A control sequence ends at its first byte from `@` to `~`, an operating system command at the first BEL or
   ESC backslash.
   */
  predicate Body(introducer: byte, body: Bytes, end: Bytes)
  {
    && introducer in {OPEN_BRACKET, CLOSE_BRACKET} && Unended(introducer, body, end)
    && if introducer == OPEN_BRACKET then |end| == 1 && 0x40 <= end[0] <= 0x7E
       else end == [BEL] || end == [ESC, BACKSLASH]
  }

  lemma UnendedTail(introducer: byte, body: Bytes, end: Bytes)
    requires body != [] && Unended(introducer, body, end)
    ensures Unended(introducer, body[1..], end)
  {
    assert body[1..] + end == (body + end)[1..];
    forall k | 0 <= k < |body[1..]|
      ensures body[1..][k] == body[k + 1]
    {
    }
  }

  /** A byte of the body is skipped. */
  lemma UnendedStep(introducer: byte, body: Bytes, end: Bytes, rest: Bytes)
    requires introducer in {OPEN_BRACKET, CLOSE_BRACKET} && body != [] && Unended(introducer, body, end)
    requires rest != [] ==> end != []
    ensures AfterSequence([introducer] + (body + end + rest)) == AfterSequence([introducer] + (body[1..] + end + rest))
  {
    var s, t := [introducer] + (body + end + rest), [introducer] + (body[1..] + end + rest);
    assert s[1..] == body + end + rest && t[1..] == body[1..] + end + rest;
    assert (body + end + rest)[1..] == body[1..] + end + rest;
    assert body[0] == (body + end + rest)[0];
    if |body + end| > 1 {
      assert (body + end + rest)[1] == (body + end)[1];
    }
  }

  lemma {:induction false} BodyIsSkipped(introducer: byte, body: Bytes, end: Bytes, rest: Bytes)
    requires Body(introducer, body, end)
    ensures AfterSequence([introducer] + (body + end + rest)) == rest
    decreases |body|
  {
    if body == [] {
      var s := [introducer] + (body + end + rest);
      assert s[1..] == end + rest && (end + rest)[|end|..] == rest;
    } else {
      UnendedTail(introducer, body, end);
      BodyIsSkipped(introducer, body[1..], end, rest);
      UnendedStep(introducer, body, end, rest);
    }
  }

  lemma {:induction false} UnfinishedIsSkipped(introducer: byte, body: Bytes)
    requires introducer in {OPEN_BRACKET, CLOSE_BRACKET} && Unended(introducer, body, [])
    ensures AfterSequence([introducer] + (body + [] + [])) == []
    decreases |body|
  {
    if body != [] {
      UnendedTail(introducer, body, []);
      UnfinishedIsSkipped(introducer, body[1..]);
      UnendedStep(introducer, body, [], []);
    }
  }

  /** A complete sequence disappears and what surrounds it stays. */
  lemma SequenceIsRemoved(before: Bytes, introducer: byte, body: Bytes, end: Bytes, after: Bytes)
    requires ESC !in before && Body(introducer, body, end)
    ensures var (rest, count) := StripTerminal(after);
            StripTerminal(before + ([ESC] + ([introducer] + (body + end + after)))) == (before + rest, count + 1)
  {
    var tail := [ESC] + ([introducer] + (body + end + after));
    PrefixIsCopied(before, tail);
    assert tail[1..] == [introducer] + (body + end + after);
    BodyIsSkipped(introducer, body, end, after);
  }

  /** An escape before any other byte takes just that byte along. */
  lemma ShortSequenceIsRemoved(before: Bytes, x: byte, after: Bytes)
    requires ESC !in before && x !in {OPEN_BRACKET, CLOSE_BRACKET}
    ensures var (rest, count) := StripTerminal(after);
            StripTerminal(before + ([ESC, x] + after)) == (before + rest, count + 1)
  {
    var tail := [ESC, x] + after;
    PrefixIsCopied(before, tail);
    assert tail[1..] == [x] + after && tail[1..][1..] == after;
  }

  /** A sequence that never ends, or an escape at the very end, takes the rest of the text along. */
  lemma UnfinishedIsRemoved(before: Bytes, introducer: byte, body: Bytes)
    requires ESC !in before && introducer in {OPEN_BRACKET, CLOSE_BRACKET} && Unended(introducer, body, [])
    ensures StripTerminal(before + ([ESC] + ([introducer] + body))) == (before, 1)
    ensures StripTerminal(before + [ESC]) == (before, 1)
  {
    var tail := [ESC] + ([introducer] + body);
    PrefixIsCopied(before, tail);
    assert tail[1..] == [introducer] + body && body + [] + [] == body;
    UnfinishedIsSkipped(introducer, body);
    PrefixIsCopied(before, [ESC]);
    assert [ESC][1..] == [];
    assert before + [] == before;
  }

  // ----- Control characters

  predicate Keep(r: Rune)
  {
    r == 0x0A || r == 0x0D || r == 0x09 || (r >= 0x20 && r != 0x7F)
  }

  function Kept(rs: seq<Rune>): (kept: seq<Rune>)
    ensures |kept| <= |rs|
  {
    if rs == [] then []
    else if Keep(rs[0]) then [rs[0]] + Kept(rs[1..]) else Kept(rs[1..])
  }

  /** What the sanitiser promises of its output bytes. */
  predicate AllowedByte(b: byte)
  {
    b == 0x0A || b == 0x0D || b == 0x09 || (b >= 0x20 && b != DEL)
  }

  predicate Clean(s: Bytes)
  {
    Valid(s) && forall k :: 0 <= k < |s| ==> AllowedByte(s[k])
  }

  lemma EncodeAllAppend(rs: seq<Rune>, r: Rune)
    ensures EncodeAll(rs + [r]) == EncodeAll(rs) + Encode(r)
    decreases |rs|
  {
    if rs == [] {
      assert EncodeAll([r]) == Encode(r) + EncodeAll([]);
    } else {
      EncodeAllAppend(rs[1..], r);
      assert (rs + [r])[1..] == rs[1..] + [r];
      assert (rs + [r])[0] == rs[0];
      assert Encode(rs[0]) + (EncodeAll(rs[1..]) + Encode(r)) == Encode(rs[0]) + EncodeAll(rs[1..]) + Encode(r);
    }
  }

  /** The specification of `stripRawControls`: decode, drop the unwanted characters, encode. */
  function StripControls(s: Bytes): (Bytes, int)
  {
    var rs := DecodeAll(s);
    (EncodeAll(Kept(rs)), |rs| - |Kept(rs)|)
  }

  lemma KeptStep(done: seq<Rune>, rest: Bytes)
    requires rest != []
    ensures var (c, size) := DecodeRune(rest);
            var more := DecodeAll(rest[size..]);
            && |DecodeAll(rest)| == 1 + |more|
            && done + Kept(DecodeAll(rest)) == (if Keep(c) then done + [c] else done) + Kept(more)
  {
    var (c, size) := DecodeRune(rest);
    var more := DecodeAll(rest[size..]);
    assert ([c] + more)[1..] == more;
    assert done + ([c] + Kept(more)) == (done + [c]) + Kept(more);
  }

  method StripRawControls(input: Bytes) returns (clean: Bytes, stripped: int)
    ensures (clean, stripped) == StripControls(input)
  {
    clean, stripped := [], 0;
    var rest := input;
    ghost var done: seq<Rune> := [];
    ghost var all := DecodeAll(input);
    assert [] + Kept(all) == Kept(all);
    while rest != []
      invariant clean == EncodeAll(done)
      invariant done + Kept(DecodeAll(rest)) == Kept(all)
      invariant stripped == |all| - |DecodeAll(rest)| - |done|
      decreases |rest|
    {
      KeptStep(done, rest);
      var (c, size) := DecodeRune(rest);
      rest := rest[size..];
      if c == 0x0A || c == 0x0D || c == 0x09 || (c >= 0x20 && c != 0x7F) {
        EncodeAllAppend(done, c);
        clean := clean + Encode(c);
        done := done + [c];
      } else {
        stripped := stripped + 1;
      }
    }
    assert done + [] == done;
  }

  /** On every input the output is clean; a clean input is returned unchanged. */
  lemma StripControlsIsClean(s: Bytes)
    ensures Clean(StripControls(s).0)
    ensures Clean(s) ==> StripControls(s) == (s, 0)
  {
    KeptIsClean(DecodeAll(s));
    if Clean(s) {
      CleanIsKept(s);
    }
  }

  lemma {:induction false} DecodeAllAppend(a: Bytes, b: Bytes)
    requires Valid(a)
    ensures DecodeAll(a + b) == DecodeAll(a) + DecodeAll(b)
    decreases |a|
  {
    if a == [] {
      assert a + b == b;
    } else {
      var w := Width(a[0]);
      FirstStays(a, b);
      DecodeAllStep(a);
      DecodeAllStep(a + b);
      SplitJoined(a, b, w);
      DecodeAllAppend(a[w..], b);
    }
  }

  lemma FirstStays(a: Bytes, b: Bytes)
    requires Starts(a)
    ensures Starts(a + b) && DecodeRune(a + b) == DecodeRune(a) && DecodeRune(a).1 == Width(a[0])
  {
    StartsExtends(a, b);
  }

  lemma DecodeAllStep(s: Bytes)
    requires s != []
    ensures DecodeAll(s) == [DecodeRune(s).0] + DecodeAll(s[DecodeRune(s).1..])
  {
  }

  lemma {:induction false} KeptAppend(a: seq<Rune>, b: seq<Rune>)
    ensures Kept(a + b) == Kept(a) + Kept(b)
  {
    if a == [] {
      assert a + b == b && Kept(a) + Kept(b) == Kept(b);
    } else {
      KeptAppend(a[1..], b);
      assert (a + b)[1..] == a[1..] + b && (a + b)[0] == a[0];
      KeptFirst(a);
      KeptFirst(a + b);
      Regroup(if Keep(a[0]) then [a[0]] else [], Kept(a[1..]), Kept(b));
    }
  }

  lemma KeptFirst(rs: seq<Rune>)
    requires rs != []
    ensures Kept(rs) == (if Keep(rs[0]) then [rs[0]] else []) + Kept(rs[1..])
  {
  }

  lemma Regroup<T>(a: seq<T>, b: seq<T>, c: seq<T>)
    ensures a + (b + c) == (a + b) + c
  {
  }

  lemma {:induction false} EncodeAllJoin(a: seq<Rune>, b: seq<Rune>)
    ensures EncodeAll(a + b) == EncodeAll(a) + EncodeAll(b)
  {
    if a == [] {
      assert a + b == b && EncodeAll(a) + EncodeAll(b) == EncodeAll(b);
    } else {
      EncodeAllJoin(a[1..], b);
      assert a == [a[0]] + a[1..] && a + b == [a[0]] + (a[1..] + b);
      EncodeAllCons(a[0], a[1..]);
      EncodeAllCons(a[0], a[1..] + b);
      Regroup(Encode(a[0]), EncodeAll(a[1..]), EncodeAll(b));
    }
  }

  /** Characters are dropped or kept one by one, whatever stands around them. */
  lemma StrippingDistributes(a: Bytes, b: Bytes)
    requires Valid(a)
    ensures StripControls(a + b) == (StripControls(a).0 + StripControls(b).0, StripControls(a).1 + StripControls(b).1)
  {
    DecodeAllAppend(a, b);
    KeptAppend(DecodeAll(a), DecodeAll(b));
    EncodeAllJoin(Kept(DecodeAll(a)), Kept(DecodeAll(b)));
  }

  /** A single character is dropped exactly when it is a control other than tab, line feed and carriage return. */
  lemma OneCharacterIsDropped(r: Rune)
    requires Scalar(r)
    ensures StripControls(Encode(r)) ==
            if (r < 0x20 && r !in {0x09, 0x0A, 0x0D}) || r == 0x7F then ([], 1) else (Encode(r), 0)
  {
    EncodedIsValid([r]);
    assert EncodeAll([r]) == Encode(r) + EncodeAll([]) == Encode(r);
    assert DecodeAll(Encode(r)) == [r];
  }

  lemma EncodeIsClean(r: Rune)
    requires Keep(r)
    ensures forall k :: 0 <= k < |Encode(r)| ==> AllowedByte(Encode(r)[k])
  {
  }

  /** Whatever was decoded, the characters kept encode to clean bytes. */
  lemma {:induction false} KeptIsClean(rs: seq<Rune>)
    ensures Clean(EncodeAll(Kept(rs)))
  {
    EncodedIsValid(Kept(rs));
    AllowedBytes(Kept(rs));
    forall k | 0 <= k < |Kept(rs)| ensures Keep(Kept(rs)[k]) {
      KeptKeeps(rs);
    }
  }

  lemma {:induction false} KeptKeeps(rs: seq<Rune>)
    ensures forall k :: 0 <= k < |Kept(rs)| ==> Keep(Kept(rs)[k])
  {
    if rs != [] {
      KeptKeeps(rs[1..]);
    }
  }

  lemma {:induction false} AllowedBytes(rs: seq<Rune>)
    ensures (forall k :: 0 <= k < |rs| ==> Keep(rs[k])) ==>
              forall k :: 0 <= k < |EncodeAll(rs)| ==> AllowedByte(EncodeAll(rs)[k])
  {
    if rs != [] && (forall k :: 0 <= k < |rs| ==> Keep(rs[k])) {
      AllowedBytes(rs[1..]);
      EncodeIsClean(rs[0]);
    }
  }

  /** Clean text is kept whole. */
  lemma {:induction false} CleanIsKept(s: Bytes)
    requires Clean(s)
    ensures Kept(DecodeAll(s)) == DecodeAll(s) && EncodeAll(DecodeAll(s)) == s
    decreases |s|
  {
    ValidIsEncoded(s);
    if s != [] {
      var (c, size) := DecodeRune(s);
      assert Keep(c) by {
        FirstOfClean(s);
      }
      CleanIsKept(s[size..]);
      assert ([c] + DecodeAll(s[size..]))[1..] == DecodeAll(s[size..]);
    }
  }

  lemma FirstOfClean(s: Bytes)
    requires Starts(s) && AllowedByte(s[0])
    ensures Keep(First(s))
  {
  }
}
