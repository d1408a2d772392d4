/** The text detectors of internal/sanitise/sanitise.go: encoded payloads, repetition and control characters. */
module TextInspection {
  import opened Utf8
  import Text

  const PERCENT: byte := 0x25

  predicate Hex(b: byte)
  {
    Text.IsHexCode(b as int)
  }

  predicate Base64(b: byte)
  {
    || 0x61 <= b <= 0x7A || 0x41 <= b <= 0x5A || 0x30 <= b <= 0x39
    || b == 0x2B || b == 0x2F || b == 0x5F || b == 0x2D || b == 0x3D
  }

  // ----- What an encoded token is

  /** A stretch of `n` base64 characters starts at `i`. */
  predicate Base64Stretch(s: Bytes, i: int, n: int)
  {
    0 <= i && 0 <= n && i + n <= |s| && forall k :: i <= k < i + n ==> Base64(s[k])
  }

  /** `%HH` at position `i`. */
  predicate Triple(s: Bytes, i: int)
  {
    0 <= i && i + 2 < |s| && s[i] == PERCENT && Hex(s[i + 1]) && Hex(s[i + 2])
  }

  /** `n` adjacent triples start at `i`. */
  predicate TripleStretch(s: Bytes, i: int, n: nat)
    decreases n
  {
    if n == 0 then 0 <= i <= |s| else Triple(s, i) && TripleStretch(s, i + 3, n - 1)
  }

  predicate HasToken(s: Bytes, minimum: nat)
  {
    || (exists i :: 0 <= i <= |s| && Base64Stretch(s, i, minimum))
    || (exists i, n :: 0 <= i <= |s| && 0 <= n <= |s| && 3 * n >= minimum && TripleStretch(s, i, n))
  }

  // ----- The running counts

  /** Base64 characters directly before `i`. */
  function Base64Run(s: Bytes, i: nat): (n: nat)
    requires i <= |s|
    ensures n <= i
  {
    if i > 0 && Base64(s[i - 1]) then 1 + Base64Run(s, i - 1) else 0
  }

  /** Characters in the adjacent triples that end exactly at `i`. */
  function Chain(s: Bytes, i: int): nat
    decreases i
  {
    if i >= 3 && Triple(s, i - 3) then 3 + Chain(s, i - 3) else 0
  }

  /** The same, counting from its start a triple that reaches over position `p`. */
  function Open(s: Bytes, p: int): nat
  {
    if Triple(s, p) then 3 + Chain(s, p)
    else if Triple(s, p - 1) then 3 + Chain(s, p - 1)
    else if Triple(s, p - 2) then 3 + Chain(s, p - 2)
    else 0
  }

  lemma {:induction false} RunIsStretch(s: Bytes, i: nat)
    requires i <= |s|
    ensures Base64Stretch(s, i - Base64Run(s, i), Base64Run(s, i))
  {
    if i > 0 {
      RunIsStretch(s, i - 1);
    }
  }

  lemma {:induction false} StretchIsRun(s: Bytes, i: nat, n: nat)
    requires n <= i <= |s| && Base64Stretch(s, i - n, n)
    ensures Base64Run(s, i) >= n
  {
    if n > 0 {
      StretchIsRun(s, i - 1, n - 1);
    }
  }

  lemma {:induction false} StretchExtends(s: Bytes, i: int, n: nat)
    requires TripleStretch(s, i, n) && Triple(s, i + 3 * n)
    ensures TripleStretch(s, i, n + 1)
    decreases n
  {
    if n > 0 {
      StretchExtends(s, i + 3, n - 1);
    }
  }

  lemma {:induction false} ChainIsStretch(s: Bytes, i: nat) returns (n: nat)
    requires i <= |s|
    ensures Chain(s, i) == 3 * n <= i && TripleStretch(s, i - 3 * n, n)
  {
    if i >= 3 && Triple(s, i - 3) {
      var m := ChainIsStretch(s, i - 3);
      StretchExtends(s, i - 3 - 3 * m, m);
      n := m + 1;
    } else {
      n := 0;
    }
  }

  /** A stretch of `n` triples ending at `i + 3 * n` is counted by the chain there. */
  lemma {:induction false} StretchIsChain(s: Bytes, i: int, n: nat)
    requires TripleStretch(s, i, n)
    ensures i + 3 * n <= |s| && Chain(s, i + 3 * n) >= 3 * n
    decreases n
  {
    if n > 0 {
      StretchInit(s, i, n - 1);
      StretchIsChain(s, i, n - 1);
    }
  }

  lemma {:induction false} StretchInit(s: Bytes, i: int, n: nat)
    requires TripleStretch(s, i, n + 1)
    ensures TripleStretch(s, i, n) && Triple(s, i + 3 * n)
    decreases n
  {
    if n > 0 {
      StretchInit(s, i + 3, n - 1);
    }
  }

  /** Both counts are below the minimum at position `p`. */
  predicate Quiet(s: Bytes, p: nat, minimum: nat)
    requires p < |s|
  {
    Base64Run(s, p + 1) < minimum && Open(s, p) < minimum
  }

  /** Nothing reached the minimum up to position `i`. */
  predicate Below(s: Bytes, i: nat, minimum: nat)
    requires i <= |s|
  {
    forall p :: 0 <= p < i ==> Quiet(s, p, minimum)
  }

  lemma RunReached(s: Bytes, p: nat, minimum: nat)
    requires 0 < minimum && p < |s| && Base64Run(s, p + 1) >= minimum
    ensures HasToken(s, minimum)
  {
    RunIsStretch(s, p + 1);
    assert Base64Stretch(s, p + 1 - minimum, minimum);
  }

  lemma OpenReached(s: Bytes, p: nat, minimum: nat)
    requires 0 < minimum && p < |s| && Open(s, p) >= minimum
    ensures HasToken(s, minimum)
  {
    var start := if Triple(s, p) then p else if Triple(s, p - 1) then p - 1 else p - 2;
    var n := ChainIsStretch(s, start + 3);
    assert TripleStretch(s, start + 3 - 3 * n, n) && 0 <= start + 3 - 3 * n && 3 * n >= minimum && n <= |s|;
  }

  /** Every token is noticed at its last character. */
  lemma TokenIsCounted(s: Bytes, minimum: nat) returns (p: nat)
    requires 0 < minimum && HasToken(s, minimum)
    ensures p < |s| && !Quiet(s, p, minimum)
  {
    if i :| 0 <= i <= |s| && Base64Stretch(s, i, minimum) {
      p := i + minimum - 1;
      StretchIsRun(s, p + 1, minimum);
    } else {
      var i, n :| 0 <= i <= |s| && 0 <= n <= |s| && 3 * n >= minimum && TripleStretch(s, i, n);
      StretchInit(s, i, n - 1);
      StretchIsChain(s, i, n);
      p := i + 3 * (n - 1);
    }
  }

  lemma BelowMeansNone(s: Bytes, minimum: nat)
    requires 0 < minimum && Below(s, |s|, minimum)
    ensures !HasToken(s, minimum)
  {
    if HasToken(s, minimum) {
      var p := TokenIsCounted(s, minimum);
      assert false;
    }
  }

  // ----- The loop

  lemma OpenStep(s: Bytes, p: nat)
    requires p < |s|
    ensures Triple(s, p) ==> Open(s, p) == Open(s, p - 1) + 3
    ensures !Triple(s, p) ==>
              Open(s, p) == if p == 0 || (s[p - 1] != PERCENT && (p < 2 || s[p - 2] != PERCENT)) then 0
                            else Open(s, p - 1)
  {
    assert Triple(s, p) ==> !Triple(s, p - 1) && !Triple(s, p - 2);
  }

  /** The bytes of a multi-byte character count for nothing. */
  lemma WideStep(s: Bytes, p: nat, q: nat, minimum: nat)
    requires 0 < minimum && p < q <= |s| && Below(s, p + 1, minimum) && s[p] >= 0x80
    requires forall k :: p <= k < q ==> s[k] >= 0x80
    ensures Below(s, q, minimum) && Base64Run(s, q) == 0 && Open(s, q - 1) == 0
  {
    forall k | p <= k < q
      ensures Base64Run(s, k + 1) == 0 && Open(s, k) == 0
    {
      assert !Base64(s[k]) && !Hex(s[k]) && s[k] != PERCENT;
      assert !Triple(s, k) && !Triple(s, k - 1);
    }
  }

  lemma RuneBytes(s: Bytes, i: nat)
    requires i < |s|
    ensures var (c, size) := DecodeRune(s[i..]);
            && (s[i] < 0x80 ==> c == s[i] as int && size == 1)
            && (s[i] >= 0x80 ==> c >= 0x80 && forall k :: i <= k < i + size ==> s[k] >= 0x80)
  {
    var t := s[i..];
    if s[i] >= 0x80 && Starts(t) {
      assert forall k :: 0 <= k < Width(t[0]) ==> t[k] >= 0x80;
      assert forall k :: i <= k < i + Width(t[0]) ==> s[k] == t[k - i];
      EncodeDecoded(t);
    }
  }

  predicate HexRune(r: Rune)
  {
    r < 0x80 && Hex(r as byte)
  }

  predicate Base64Rune(r: Rune)
  {
    r < 0x80 && Base64(r as byte)
  }

  /** `containsEncodedToken`; configuration only allows minimums of 32 and more. */
  method ContainsEncodedToken(value: Bytes, minimum: int) returns (found: bool)
    ensures minimum > 0 ==> found == HasToken(value, minimum)
    ensures minimum <= 0 ==> found == (value != [])
  {
    var base64Run, hexRun, urlRun, index := 0, 0, 0, 0;
    while index < |value|
      invariant 0 <= index <= |value| && (minimum <= 0 ==> index == 0)
      invariant base64Run == Base64Run(value, index) && 0 <= hexRun <= base64Run
      invariant urlRun == Open(value, index - 1)
      invariant minimum > 0 ==> Below(value, index, minimum)
    {
      RuneBytes(value, index);
      OpenStep(value, index);
      var (c, size) := DecodeRune(value[index..]);
      base64Run := if Base64Rune(c) then base64Run + 1 else 0;
      hexRun := if HexRune(c) then hexRun + 1 else 0;
      if base64Run >= minimum || hexRun >= minimum {
        if minimum > 0 {
          RunReached(value, index, minimum);
        }
        return true;
      }
      if c == 0x25 && index + 2 < |value| && Hex(value[index + 1]) && Hex(value[index + 2]) {
        urlRun := urlRun + 3;
      } else if index == 0 || (value[index - 1] != PERCENT && (index < 2 || value[index - 2] != PERCENT)) {
        urlRun := 0;
      }
      if urlRun >= minimum {
        OpenReached(value, index, minimum);
        return true;
      }
      if value[index] >= 0x80 {
        WideStep(value, index, index + size, minimum);
      }
      index := index + size;
    }
    if minimum > 0 {
      BelowMeansNone(value, minimum);
    }
    return false;
  }

  // ----- Repetition

  /** Characters equal to the last one, directly before `i`. */
  predicate EqualStretch(rs: seq<Rune>, i: int, j: int)
  {
    0 <= i < j <= |rs| && forall k :: i <= k < j ==> rs[k] == rs[j - 1]
  }

  predicate Repeats(rs: seq<Rune>, limit: int)
  {
    exists i, j :: 0 <= i < j <= |rs| && EqualStretch(rs, i, j) && j - i > limit
  }

  /** `hasAbnormalRepetition`: some character appears more than `limit` times in a row. */
  method HasAbnormalRepetition(value: Bytes, limit: int) returns (found: bool)
    ensures found == Repeats(DecodeAll(value), limit)
  {
    var previous: Rune, run := 0, 0;
    var rest := value;
    ghost var rs := DecodeAll(value);
    ghost var n := 0;
    while rest != []
      invariant 0 <= run <= n <= |rs| && DecodeAll(rest) == rs[n..]
      invariant n > 0 ==> run > 0 && previous == rs[n - 1]
      invariant n == 0 ==> previous == 0
      invariant forall k :: n - run <= k < n ==> rs[k] == previous
      invariant n - run > 0 ==> rs[n - run - 1] != previous
      invariant forall i, j :: 0 <= i < j <= n && EqualStretch(rs, i, j) ==> j - i <= limit
      decreases |rest|
    {
      var (c, size) := DecodeRune(rest);
      assert DecodeAll(rest)[0] == c && DecodeAll(rest)[1..] == DecodeAll(rest[size..]);
      assert rs[n..][1..] == rs[n + 1..] && rs[n] == c;
      rest := rest[size..];
      if c == previous {
        run := run + 1;
      } else {
        previous := c;
        run := 1;
      }
      n := n + 1;
      if run > limit {
        assert EqualStretch(rs, n - run, n);
        return true;
      }
      forall i, j | 0 <= i < j <= n && EqualStretch(rs, i, j)
        ensures j - i <= limit
      {
        assert j == n ==> i >= n - run;
      }
    }
    return false;
  }

  // ----- Control characters

  predicate Control(r: Rune)
  {
    r < 0x20 || 0x7F <= r < 0xA0
  }

  /** `containsTerminalOrControl`. */
  predicate ContainsControl(rs: seq<Rune>)
  {
    exists k :: 0 <= k < |rs| && Control(rs[k]) && rs[k] != 0x0A && rs[k] != 0x0D && rs[k] != 0x09
  }
}
