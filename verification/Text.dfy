/** Decimal numerals and separators in composed identifiers and keys. */
module Text {

  function Digit(d: nat): char
    requires d < 10
  {
    "0123456789"[d]
  }

  /** `%d` of a natural number. */
  function Decimal(n: nat): (s: string)
    ensures |s| > 0
  {
    if n < 10 then [Digit(n)] else Decimal(n / 10) + [Digit(n % 10)]
  }

  predicate IsDigit(c: char)
  {
    '0' <= c <= '9'
  }

  predicate AllDigits(s: string)
  {
    forall i :: 0 <= i < |s| ==> IsDigit(s[i])
  }

  /** A hexadecimal digit, by character code. */
  predicate IsHexCode(c: int)
  {
    0x30 <= c <= 0x39 || 0x61 <= c <= 0x66 || 0x41 <= c <= 0x46
  }

  function DigitValue(c: char): nat
    requires IsDigit(c)
  {
    c as int - '0' as int
  }

  function Value(s: string): nat
    requires AllDigits(s)
  {
    if s == [] then 0 else Value(s[..|s| - 1]) * 10 + DigitValue(s[|s| - 1])
  }

  /** A numeral is made of digits and is read back as the number it was made from. */
  lemma {:induction false} DecimalReadsBack(n: nat)
    ensures AllDigits(Decimal(n)) && Value(Decimal(n)) == n
  {
    if n >= 10 {
      DecimalReadsBack(n / 10);
      var s := Decimal(n);
      assert s[..|s| - 1] == Decimal(n / 10);
    }
  }

  lemma DecimalInjective(a: nat, b: nat)
    requires Decimal(a) == Decimal(b)
    ensures a == b
  {
    DecimalReadsBack(a);
    DecimalReadsBack(b);
  }

  lemma SplitFirst<T>(s: seq<T>)
    requires s != []
    ensures s == [s[0]] + s[1..]
  {
  }

  lemma SplitLast<T>(s: seq<T>)
    requires s != []
    ensures s == s[..|s| - 1] + [s[|s| - 1]]
  {
  }

  /** The first separator ends the first part. */
  lemma SplitAtFirst<T>(x1: seq<T>, y1: seq<T>, x2: seq<T>, y2: seq<T>, sep: T)
    requires sep !in x1 && sep !in x2
    requires x1 + [sep] + y1 == x2 + [sep] + y2
    ensures x1 == x2 && y1 == y2
  {
    var s := x1 + [sep] + y1;
    assert s[|x1|] == sep && s[|x2|] == sep;
    assert x1 == s[..|x1|] && x2 == s[..|x2|];
    assert y1 == s[|x1| + 1..] && y2 == s[|x2| + 1..];
  }

  /** The last separator starts the last part. */
  lemma SplitAtLast<T>(x1: seq<T>, y1: seq<T>, x2: seq<T>, y2: seq<T>, sep: T)
    requires sep !in y1 && sep !in y2
    requires x1 + [sep] + y1 == x2 + [sep] + y2
    ensures x1 == x2 && y1 == y2
  {
    var s := x1 + [sep] + y1;
    assert |s| == |x2| + 1 + |y2|;
    assert s[|x1|] == sep && s[|x2|] == sep;
    assert x1 == s[..|x1|] && x2 == s[..|x2|];
    assert y1 == s[|x1| + 1..] && y2 == s[|x2| + 1..];
  }

  // ----- The in-memory repositories' composite map keys

  const NUL: char := '\0'

  /** `tenant + "\x00" + actor + "\x00" + key`. */
  function ScopedKey(tenant: string, actor: string, key: string): string
  {
    tenant + [NUL] + (actor + [NUL] + key)
  }

  /** Every part of a scope is required to be non-empty by the services that compose keys. */
  predicate NonEmptyScope(tenant: string, actor: string, key: string)
  {
    tenant != "" && actor != "" && key != ""
  }

  /**
   The parts themselves show whether another split of the composed key is possible: a NUL after the
   tenant's first character, in an actor that is more than one NUL, or before the key's last character.
   */
  predicate Ambiguous(tenant: string, actor: string, key: string)
  {
    || (exists p :: 0 < p < |tenant| && tenant[p] == NUL)
    || (NUL in actor && actor != [NUL])
    || (exists p :: 0 <= p < |key| - 1 && key[p] == NUL)
  }

  /** Some other scope with non-empty parts has the same composed key. */
  ghost predicate Shared(tenant: string, actor: string, key: string)
  {
    exists t, a, k {:trigger ScopedKey(t, a, k)} ::
      && NonEmptyScope(t, a, k) && (t, a, k) != (tenant, actor, key)
      && ScopedKey(t, a, k) == ScopedKey(tenant, actor, key)
  }

  /** The parts of a composed key and its two separators, by position. */
  lemma KeyParts(t: string, a: string, k: string)
    ensures var s, i, j := ScopedKey(t, a, k), |t|, |t| + 1 + |a|;
            && j < |s| && s[i] == NUL && s[j] == NUL
            && s[..i] == t && s[i + 1..j] == a && s[j + 1..] == k && |s| == j + 1 + |k|
  {
  }

  /** Splitting a key at any two of its NULs gives a scope with that key. */
  lemma Resplit(s: string, i: nat, j: nat)
    requires i < j < |s| && s[i] == NUL && s[j] == NUL
    ensures ScopedKey(s[..i], s[i + 1..j], s[j + 1..]) == s
  {
  }

  /** Another pair of separators leaves all parts non-empty. */
  predicate Separators(s: string, i: nat, j: nat)
  {
    0 < i && i + 1 < j < |s| - 1 && s[i] == NUL && s[j] == NUL
  }

  lemma OtherSeparators(t: string, a: string, k: string) returns (i: nat, j: nat)
    requires NonEmptyScope(t, a, k) && Ambiguous(t, a, k)
    ensures Separators(ScopedKey(t, a, k), i, j) && (i != |t| || j != |t| + 1 + |a|)
  {
    var s, own, end := ScopedKey(t, a, k), |t|, |t| + 1 + |a|;
    KeyParts(t, a, k);
    i, j := own, end;
    if p :| 0 < p < |t| && t[p] == NUL {
      i := p;
      assert s[p] == s[..own][p];
    } else if NUL in a && a != [NUL] {
      var p :| 0 <= p < |a| && a[p] == NUL;
      assert s[own + 1 + p] == s[own + 1..end][p];
      if p > 0 {
        j := own + 1 + p;
      } else {
        i := own + 1;
      }
    } else {
      var p :| 0 <= p < |k| - 1 && k[p] == NUL;
      assert s[end + 1 + p] == s[end + 1..][p];
      j := end + 1 + p;
    }
  }

  lemma AmbiguousIsShared(t: string, a: string, k: string)
    requires NonEmptyScope(t, a, k) && Ambiguous(t, a, k)
    ensures Shared(t, a, k)
  {
    var s := ScopedKey(t, a, k);
    var i, j := OtherSeparators(t, a, k);
    Resplit(s, i, j);
    Differs(t, a, k, s[..i], s[i + 1..j], s[j + 1..]);
  }

  lemma Differs(t: string, a: string, k: string, t2: string, a2: string, k2: string)
    requires NonEmptyScope(t2, a2, k2) && ScopedKey(t2, a2, k2) == ScopedKey(t, a, k)
    requires |t2| != |t| || |t2| + |a2| != |t| + |a|
    ensures Shared(t, a, k)
  {
    assert (t2, a2, k2) != (t, a, k);
  }

  lemma SharedIsAmbiguous(t: string, a: string, k: string, t2: string, a2: string, k2: string)
    requires NonEmptyScope(t, a, k) && NonEmptyScope(t2, a2, k2) && (t2, a2, k2) != (t, a, k)
    requires ScopedKey(t2, a2, k2) == ScopedKey(t, a, k)
    ensures Ambiguous(t, a, k)
  {
    var s, own, end, i, j := ScopedKey(t, a, k), |t|, |t| + 1 + |a|, |t2|, |t2| + 1 + |a2|;
    KeyParts(t, a, k);
    KeyParts(t2, a2, k2);
    assert i != own || j != end;
    if j > end {
      assert s[end + 1..][j - end - 1] == NUL;
    } else if i < own {
      assert s[..own][i] == NUL;
    } else if i == own {
      assert s[own + 1..end][j - own - 1] == NUL;
    } else {
      assert s[own + 1..end][i - own - 1] == NUL;
    }
  }

  /** A non-empty scope shares its composed key with another one exactly when its parts are ambiguous. */
  lemma ScopedKeyShared(t: string, a: string, k: string)
    requires NonEmptyScope(t, a, k)
    ensures Shared(t, a, k) <==> Ambiguous(t, a, k)
  {
    if Ambiguous(t, a, k) {
      AmbiguousIsShared(t, a, k);
    }
    if Shared(t, a, k) {
      var t2, a2, k2 :| && NonEmptyScope(t2, a2, k2) && (t2, a2, k2) != (t, a, k)
                        && ScopedKey(t2, a2, k2) == ScopedKey(t, a, k);
      SharedIsAmbiguous(t, a, k, t2, a2, k2);
    }
  }

  /** A tenant and an actor without NUL do not help when the key holds one: this scope has the key of another. */
  lemma ScopedKeyCollision()
    ensures ScopedKey("t", "a", ['y', NUL, 'z']) == ScopedKey("t", ['a', NUL, 'y'], "z")
    ensures Ambiguous("t", "a", ['y', NUL, 'z']) && Ambiguous("t", ['a', NUL, 'y'], "z")
  {
    assert ScopedKey("t", "a", ['y', NUL, 'z']) == ['t', NUL, 'a', NUL, 'y', NUL, 'z'];
    assert ScopedKey("t", ['a', NUL, 'y'], "z") == ['t', NUL, 'a', NUL, 'y', NUL, 'z'];
    assert ['y', NUL, 'z'][1] == NUL && ['a', NUL, 'y'][1] == NUL;
  }

  /** Two scopes that both have no NUL in tenant and actor never share a key, whatever their keys hold. */
  lemma ScopedKeyInjective(t1: string, a1: string, k1: string, t2: string, a2: string, k2: string)
    requires NUL !in t1 && NUL !in t2 && NUL !in a1 && NUL !in a2
    requires ScopedKey(t1, a1, k1) == ScopedKey(t2, a2, k2)
    ensures t1 == t2 && a1 == a2 && k1 == k2
  {
    SplitAtFirst(t1, a1 + [NUL] + k1, t2, a2 + [NUL] + k2, NUL);
    SplitAtFirst(a1, k1, a2, k2, NUL);
  }
}
