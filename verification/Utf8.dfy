/**
 UTF-8 as section 3 of RFC 3629 defines it, and the decoder the sanitiser uses: an ill-formed byte
 reads as U+FFFD and has length one.
 */
module Utf8 {
  newtype byte = b: int | 0 <= b < 256

  type Bytes = seq<byte>

  type Rune = nat

  const REPLACEMENT: Rune := 0xFFFD

  /** Characters that have an encoding: not a surrogate and within range. */
  predicate Scalar(r: Rune)
  {
    r < 0xD800 || 0xE000 <= r <= 0x10FFFF
  }

  /** The table of section 3 of RFC 3629; what has no encoding is written as U+FFFD. */
  function Encode(r: Rune): (s: Bytes)
    ensures 1 <= |s| <= 4
  {
    if !Scalar(r) then [0xEF, 0xBF, 0xBD]
    else if r < 0x80 then [r as byte]
    else if r < 0x800 then [(0xC0 + r / 64) as byte, (0x80 + r % 64) as byte]
    else
      var high := r / 64;
      if r < 0x10000 then [(0xE0 + high / 64) as byte, (0x80 + high % 64) as byte, (0x80 + r % 64) as byte]
      else
        var top := high / 64;
        [(0xF0 + top / 64) as byte, (0x80 + top % 64) as byte, (0x80 + high % 64) as byte, (0x80 + r % 64) as byte]
  }

  predicate Tail(b: byte)
  {
    0x80 <= b <= 0xBF
  }

  /** The bytes that may follow a lead byte directly (section 4 of RFC 3629). */
  predicate Second(lead: byte, b: byte)
  {
    if lead == 0xE0 then 0xA0 <= b <= 0xBF
    else if lead == 0xED then 0x80 <= b <= 0x9F
    else if lead == 0xF0 then 0x90 <= b <= 0xBF
    else if lead == 0xF4 then 0x80 <= b <= 0x8F
    else Tail(b)
  }

  /** Length announced by a lead byte, or 0 for a byte that starts nothing. */
  function Width(lead: byte): (n: nat)
    ensures n <= 4
  {
    if lead < 0x80 then 1
    else if 0xC2 <= lead <= 0xDF then 2
    else if 0xE0 <= lead <= 0xEF then 3
    else if 0xF0 <= lead <= 0xF4 then 4
    else 0
  }

  /** `s` starts with a well-formed character. */
  predicate Starts(s: Bytes)
  {
    && s != [] && 0 < Width(s[0]) <= |s|
    && (Width(s[0]) > 1 ==> Second(s[0], s[1]))
    && (Width(s[0]) > 2 ==> Tail(s[2]))
    && (Width(s[0]) > 3 ==> Tail(s[3]))
  }

  /** The six bits a continuation byte carries. */
  function Low(b: byte): nat
    requires Tail(b)
  {
    b as int - 0x80
  }

  function First(s: Bytes): Rune
    requires Starts(s)
  {
    if Width(s[0]) == 1 then s[0] as int
    else if Width(s[0]) == 2 then (s[0] as int - 0xC0) * 64 + Low(s[1])
    else if Width(s[0]) == 3 then ((s[0] as int - 0xE0) * 64 + Low(s[1])) * 64 + Low(s[2])
    else (((s[0] as int - 0xF0) * 64 + Low(s[1])) * 64 + Low(s[2])) * 64 + Low(s[3])
  }

  /** `utf8.DecodeRune`. */
  function DecodeRune(s: Bytes): (result: (Rune, nat))
    requires s != []
    ensures 1 <= result.1 <= |s|
  {
    if Starts(s) then (First(s), Width(s[0])) else (REPLACEMENT, 1)
  }

  /** `utf8.Valid`. */
  predicate Valid(s: Bytes)
    decreases |s|
  {
    s == [] || (Starts(s) && Valid(s[Width(s[0])..]))
  }

  function EncodeAll(rs: seq<Rune>): Bytes
  {
    if rs == [] then [] else Encode(rs[0]) + EncodeAll(rs[1..])
  }

  function DecodeAll(s: Bytes): seq<Rune>
    decreases |s|
  {
    if s == [] then [] else [DecodeRune(s).0] + DecodeAll(s[DecodeRune(s).1..])
  }

  // ----- Decoding inverts encoding

  lemma EncodedStarts(r: Rune, rest: Bytes)
    requires Scalar(r)
    ensures Starts(Encode(r) + rest) && Width(Encode(r)[0]) == |Encode(r)|
  {
  }

  /** A decoder reads back what was encoded, whatever follows. */
  lemma DecodeEncoded(r: Rune, rest: Bytes)
    requires Scalar(r)
    ensures Starts(Encode(r) + rest) && DecodeRune(Encode(r) + rest) == (r, |Encode(r)|)
  {
    EncodedStarts(r, rest);
    var s := Encode(r) + rest;
    assert s[0] == Encode(r)[0];
    if |Encode(r)| > 1 {
      assert s[1] == Encode(r)[1];
    }
    if |Encode(r)| > 2 {
      assert s[2] == Encode(r)[2];
    }
    if |Encode(r)| > 3 {
      assert s[3] == Encode(r)[3];
    }
  }

  lemma Base64Digits(q: nat, d: nat)
    requires d < 64
    ensures (q * 64 + d) / 64 == q && (q * 64 + d) % 64 == d
  {
  }

  /** A well-formed character is the encoding of what it decodes to. */
  lemma EncodeDecoded(s: Bytes)
    requires Starts(s)
    ensures Scalar(First(s)) && Encode(First(s)) == s[..Width(s[0])]
  {
    match Width(s[0]) {
      case 1 =>
      case 2 => Base64Digits(s[0] as int - 0xC0, Low(s[1]));
      case 3 =>
        var high := (s[0] as int - 0xE0) * 64 + Low(s[1]);
        Base64Digits(s[0] as int - 0xE0, Low(s[1]));
        Base64Digits(high, Low(s[2]));
      case _ =>
        var top := (s[0] as int - 0xF0) * 64 + Low(s[1]);
        Base64Digits(s[0] as int - 0xF0, Low(s[1]));
        Base64Digits(top, Low(s[2]));
        Base64Digits(top * 64 + Low(s[2]), Low(s[3]));
    }
  }

  predicate AllScalar(rs: seq<Rune>)
  {
    forall k :: 0 <= k < |rs| ==> Scalar(rs[k])
  }

  lemma DecodedFirst(s: Bytes)
    requires Starts(s)
    ensures Scalar(DecodeRune(s).0) && Encode(DecodeRune(s).0) == s[..DecodeRune(s).1]
  {
    EncodeDecoded(s);
  }

  lemma EncodeAllCons(r: Rune, rs: seq<Rune>)
    ensures EncodeAll([r] + rs) == Encode(r) + EncodeAll(rs)
  {
    assert ([r] + rs)[1..] == rs;
  }

  lemma EncodeDecodedStep(s: Bytes)
    requires Starts(s)
    ensures EncodeAll(DecodeAll(s)) == s[..Width(s[0])] + EncodeAll(DecodeAll(s[Width(s[0])..]))
  {
    DecodedFirst(s);
    EncodeAllCons(DecodeRune(s).0, DecodeAll(s[Width(s[0])..]));
  }

  lemma TakeDrop(s: Bytes, n: nat)
    requires n <= |s|
    ensures s[..n] + s[n..] == s
  {
  }

  /** Valid bytes are exactly the encodings: decoding and encoding again gives them back. */
  lemma {:induction false} ValidIsEncoded(s: Bytes)
    requires Valid(s)
    ensures EncodeAll(DecodeAll(s)) == s
    decreases |s|
  {
    if s != [] {
      var w := Width(s[0]);
      ValidIsEncoded(s[w..]);
      EncodeDecodedStep(s);
      TakeDrop(s, w);
    }
  }

  lemma EncodeIsScalar(r: Rune)
    ensures exists q :: Scalar(q) && Encode(r) == Encode(q)
  {
    if !Scalar(r) {
      assert Scalar(REPLACEMENT) && Encode(r) == Encode(REPLACEMENT);
    }
  }

  lemma {:induction false} EncodedIsValid(rs: seq<Rune>)
    ensures Valid(EncodeAll(rs))
    ensures AllScalar(rs) ==> DecodeAll(EncodeAll(rs)) == rs
  {
    if rs != [] {
      var rest := EncodeAll(rs[1..]);
      EncodedIsValid(rs[1..]);
      EncodeIsScalar(rs[0]);
      var q :| Scalar(q) && Encode(rs[0]) == Encode(q);
      DecodeEncoded(q, rest);
      assert (Encode(q) + rest)[|Encode(q)|..] == rest;
      if AllScalar(rs) {
        DecodeEncoded(rs[0], rest);
        assert [rs[0]] + rs[1..] == rs;
      }
    }
  }

  // ----- Prefixes

  lemma StartsExtends(a: Bytes, b: Bytes)
    requires Starts(a)
    ensures Starts(a + b) && Width((a + b)[0]) == Width(a[0])
  {
  }

  lemma {:induction false} ValidAppend(a: Bytes, b: Bytes)
    requires Valid(a)
    ensures Valid(a + b) <==> Valid(b)
    decreases |a|
  {
    if a == [] {
      assert a + b == b;
    } else {
      var w := Width(a[0]);
      StartsExtends(a, b);
      ValidAppend(a[w..], b);
      assert (a + b)[w..] == a[w..] + b;
    }
  }

  lemma CharacterIsValid(s: Bytes)
    requires Starts(s)
    ensures Valid(s[..Width(s[0])])
  {
    var c := s[..Width(s[0])];
    assert Starts(c) && c[Width(c[0])..] == [];
  }

  /** Cutting valid text loses at most three bytes to reach a character boundary. */
  lemma {:induction false} BoundaryNear(s: Bytes, limit: nat) returns (k: nat)
    requires Valid(s) && limit <= |s|
    ensures limit - 3 <= k <= limit && Valid(s[..k])
    decreases |s|
  {
    if limit == 0 || Width(s[0]) > limit {
      k := 0;
    } else {
      var w := Width(s[0]);
      var more := BoundaryNear(s[w..], limit - w);
      k := w + more;
      CharacterIsValid(s);
      ValidAppend(s[..w], s[w..][..more]);
      assert s[..k] == s[..w] + s[w..][..more];
    }
  }

  /** `k` is the length of the longest valid prefix within `limit`. */
  predicate LongestValid(s: Bytes, limit: nat, k: nat)
    requires limit <= |s|
  {
    k <= limit && Valid(s[..k]) && forall j :: k < j <= limit ==> !Valid(s[..j])
  }

  function Truncated(s: Bytes, limit: nat): Bytes
    requires limit <= |s|
  {
    if limit == 0 || Valid(s[..limit]) then s[..limit] else Truncated(s, limit - 1)
  }

  /** `truncateUTF8`: the longest valid prefix. */
  method TruncateUtf8(payload: Bytes, limit: nat) returns (out: Bytes)
    requires limit <= |payload|
    ensures out == Truncated(payload, limit)
    ensures LongestValid(payload, limit, |out|) && out == payload[..|out|]
    ensures Valid(payload) ==> |out| >= limit - 3
  {
    var n := limit;
    while n > 0 && !Valid(payload[..n])
      invariant 0 <= n <= limit && forall j :: n < j <= limit ==> !Valid(payload[..j])
      invariant Truncated(payload, n) == Truncated(payload, limit)
    {
      n := n - 1;
    }
    if Valid(payload) {
      var k := BoundaryNear(payload, limit);
    }
    return payload[..n];
  }

  lemma {:induction false} TruncatedIsLongest(s: Bytes, limit: nat)
    requires limit <= |s|
    ensures Truncated(s, limit) <= s && LongestValid(s, limit, |Truncated(s, limit)|)
    ensures Valid(s) ==> |Truncated(s, limit)| >= limit - 3
  {
    if limit > 0 && !Valid(s[..limit]) {
      TruncatedIsLongest(s, limit - 1);
    }
    if Valid(s) {
      var k := BoundaryNear(s, limit);
    }
  }

  // ----- Replacing ill-formed bytes

  /** `bytes.ToValidUTF8` with U+FFFD: each run of ill-formed bytes becomes one replacement. */
  function ToValid(s: Bytes, inRun: bool): Bytes
    decreases |s|
  {
    if s == [] then []
    else if Starts(s) then s[..Width(s[0])] + ToValid(s[Width(s[0])..], false)
    else (if inRun then [] else Encode(REPLACEMENT)) + ToValid(s[1..], true)
  }

  lemma ReplacementIsValid(rest: Bytes)
    requires Valid(rest)
    ensures Valid(Encode(REPLACEMENT) + rest) && [] + rest == rest
  {
    assert EncodeAll([REPLACEMENT]) == Encode(REPLACEMENT) + EncodeAll([]) == Encode(REPLACEMENT);
    EncodedIsValid([REPLACEMENT]);
    ValidAppend(Encode(REPLACEMENT), rest);
  }

  lemma {:induction false} ToValidIsValid(s: Bytes, inRun: bool)
    ensures Valid(ToValid(s, inRun))
    ensures Valid(s) ==> ToValid(s, inRun) == s
    decreases |s|
  {
    if s != [] {
      if Starts(s) {
        var w := Width(s[0]);
        ToValidIsValid(s[w..], false);
        CharacterIsValid(s);
        ValidAppend(s[..w], ToValid(s[w..], false));
        TakeDrop(s, w);
      } else {
        ToValidIsValid(s[1..], true);
        ReplacementIsValid(ToValid(s[1..], true));
      }
    }
  }

  /** No character starts anywhere in `bad`, even with what follows it; it is a whole run if one starts after it. */
  predicate IllFormedRun(bad: Bytes, rest: Bytes)
  {
    && bad != [] && (forall k :: 0 <= k < |bad| ==> !Starts((bad + rest)[k..]))
    && (rest == [] || Starts(rest))
  }

  lemma {:induction false} RunIsSkipped(bad: Bytes, rest: Bytes, inRun: bool)
    requires forall k :: 0 <= k < |bad| ==> !Starts((bad + rest)[k..])
    requires rest == [] || Starts(rest)
    ensures bad != [] ==>
              ToValid(bad + rest, inRun) == (if inRun then [] else Encode(REPLACEMENT)) + ToValid(rest, false)
    decreases |bad|
  {
    if bad != [] {
      assert (bad + rest)[0..] == bad + rest;
      assert (bad + rest)[1..] == bad[1..] + rest;
      forall k | 0 <= k < |bad[1..]|
        ensures !Starts((bad[1..] + rest)[k..])
      {
        assert (bad[1..] + rest)[k..] == (bad + rest)[k + 1..];
      }
      RunIsSkipped(bad[1..], rest, true);
      assert ToValid(rest, true) == ToValid(rest, false);
      assert bad[1..] == [] ==> bad[1..] + rest == rest;
    }
  }

  lemma {:induction false} ToValidCopies(a: Bytes, rest: Bytes)
    requires Valid(a)
    ensures ToValid(a + rest, false) == a + ToValid(rest, false)
    decreases |a|
  {
    if a == [] {
      assert a + rest == rest;
    } else {
      var w := Width(a[0]);
      StartsExtends(a, rest);
      ToValidCopies(a[w..], rest);
      ToValidStep(a + rest);
      SplitJoined(a, rest, w);
      SplitJoined(a, ToValid(rest, false), w);
    }
  }

  lemma ToValidStep(s: Bytes)
    requires Starts(s)
    ensures ToValid(s, false) == s[..Width(s[0])] + ToValid(s[Width(s[0])..], false)
  {
  }

  lemma SplitJoined(a: Bytes, b: Bytes, w: nat)
    requires w <= |a|
    ensures (a + b)[w..] == a[w..] + b && (a + b)[..w] == a[..w] && a[..w] + (a[w..] + b) == a + b
  {
  }

  /** Repair is local: valid text stays, and each maximal run of ill-formed bytes becomes one U+FFFD. */
  lemma RunsAreReplaced(a: Bytes, bad: Bytes, rest: Bytes)
    requires Valid(a) && IllFormedRun(bad, rest)
    ensures ToValid(a + (bad + rest), false) == a + (Encode(REPLACEMENT) + ToValid(rest, false))
  {
    ToValidCopies(a, bad + rest);
    RunIsSkipped(bad, rest, false);
  }

  const MAXIMUM_ERROR: nat := 2048

  function Bounded(failure: Bytes): Bytes
  {
    var whole := ToValid(failure, false);
    if |whole| <= MAXIMUM_ERROR then whole else Truncated(whole, MAXIMUM_ERROR)
  }

  lemma BoundedIsValid(failure: Bytes)
    ensures Valid(Bounded(failure)) && |Bounded(failure)| <= MAXIMUM_ERROR
  {
    var whole := ToValid(failure, false);
    ToValidIsValid(failure, false);
    if |whole| > MAXIMUM_ERROR {
      TruncatedIsLongest(whole, MAXIMUM_ERROR);
      assert Truncated(whole, MAXIMUM_ERROR) == whole[..|Truncated(whole, MAXIMUM_ERROR)|];
    }
  }

  /** `boundedError` of the outbox: a valid text of at most 2048 bytes that keeps all but at most three of them. */
  method BoundedError(failure: Bytes) returns (out: Bytes)
    ensures out == Bounded(failure)
    ensures Valid(out) && |out| <= MAXIMUM_ERROR && out <= ToValid(failure, false)
    ensures |ToValid(failure, false)| <= MAXIMUM_ERROR ==> out == ToValid(failure, false)
    ensures |ToValid(failure, false)| > MAXIMUM_ERROR ==> LongestValid(ToValid(failure, false), MAXIMUM_ERROR, |out|)
                                                          && |out| >= MAXIMUM_ERROR - 3
  {
    ToValidIsValid(failure, false);
    out := ToValid(failure, false);
    if |out| <= MAXIMUM_ERROR {
      return;
    }
    ghost var whole := out;
    out := out[..MAXIMUM_ERROR];
    var k := BoundaryNear(whole, MAXIMUM_ERROR);
    while !Valid(out)
      invariant k <= |out| <= MAXIMUM_ERROR && out == whole[..|out|]
      invariant forall j :: |out| < j <= MAXIMUM_ERROR ==> !Valid(whole[..j])
      invariant Truncated(whole, |out|) == Truncated(whole, MAXIMUM_ERROR)
      decreases |out|
    {
      assert |out| > k;
      out := out[..|out| - 1];
    }
  }
}
