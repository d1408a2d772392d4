/**
 Configured redactions (`transformBytes` in internal/sanitise/sanitise.go): literal strings are replaced
 one after the other, and each one that occurred is reported with its position and count.
 */
module Redaction {
  import opened Wrappers
  import opened Utf8
  import opened JsonTaint

  /** `bytes.ReplaceAll` for a non-empty pattern: leftmost occurrences, not overlapping. */
  function ReplaceAll(s: Bytes, what: Bytes, replacement: Bytes): Bytes
    requires what != []
    decreases |s|
  {
    if |s| < |what| then s
    else if s[..|what|] == what then replacement + ReplaceAll(s[|what|..], what, replacement)
    else [s[0]] + ReplaceAll(s[1..], what, replacement)
  }

  /** `bytes.Count`. */
  function Count(s: Bytes, what: Bytes): nat
    requires what != []
    decreases |s|
  {
    if |s| < |what| then 0
    else if s[..|what|] == what then 1 + Count(s[|what|..], what)
    else Count(s[1..], what)
  }

  predicate ValidRedactions(redactions: seq<(Bytes, Bytes)>)
  {
    forall k :: 0 <= k < |redactions| ==> redactions[k].0 != [] && redactions[k].1 != []
  }

  /** The rule at `position`, counted from 1, replaced `count` occurrences. */
  datatype Applied = Applied(position: nat, count: nat)

  function Redacted(s: Bytes, redactions: seq<(Bytes, Bytes)>): Bytes
    requires ValidRedactions(redactions)
  {
    if redactions == [] then s
    else
      var n := |redactions| - 1;
      ReplaceAll(Redacted(s, redactions[..n]), redactions[n].0, redactions[n].1)
  }

  function Reported(s: Bytes, redactions: seq<(Bytes, Bytes)>): seq<Applied>
    requires ValidRedactions(redactions)
  {
    if redactions == [] then []
    else
      var n := |redactions| - 1;
      var count := Count(Redacted(s, redactions[..n]), redactions[n].0);
      Reported(s, redactions[..n]) + if count == 0 then [] else [Applied(n + 1, count)]
  }

  method ApplyRedactions(s: Bytes, redactions: seq<(Bytes, Bytes)>) returns (res: Option<(Bytes, seq<Applied>)>)
    ensures res == if ValidRedactions(redactions) then Some((Redacted(s, redactions), Reported(s, redactions))) else None
  {
    var output, reported := s, [];
    for k := 0 to |redactions|
      invariant ValidRedactions(redactions[..k])
      invariant output == Redacted(s, redactions[..k]) && reported == Reported(s, redactions[..k])
    {
      var (sensitive, replacement) := redactions[k];
      if sensitive == [] || replacement == [] {
        return None;
      }
      assert redactions[..k + 1][..k] == redactions[..k];
      assert ValidRedactions(redactions[..k + 1]);
      var count := Count(output, sensitive);
      if count == 0 {
        NothingToReplace(output, sensitive, replacement);
        continue;
      }
      output := ReplaceAll(output, sensitive, replacement);
      reported := reported + [Applied(k + 1, count)];
    }
    assert redactions[..|redactions|] == redactions;
    return Some((output, reported));
  }

  // ----- What replacing does

  predicate FirstAt(s: Bytes, what: Bytes, i: nat)
  {
    OccursAt(s, what, i) && forall j :: 0 <= j < i ==> !OccursAt(s, what, j)
  }

  lemma OccursInRest(s: Bytes, what: Bytes, i: nat, j: nat)
    requires i <= |s|
    ensures OccursAt(s, what, i + j) <==> OccursAt(s[i..], what, j)
  {
    if i + j + |what| <= |s| {
      assert s[i..][j..j + |what|] == s[i + j..i + j + |what|];
    }
  }

  lemma Regroup<T>(s: seq<T>, i: nat, rest: seq<T>)
    requires i < |s|
    ensures s[..i] + ([s[i]] + rest) == s[..i + 1] + rest
    ensures s[i..][1..] == s[i + 1..] && s[i..][0] == s[i]
  {
  }

  /** Text before the first occurrence is copied. */
  lemma {:induction false} SkipPrefix(s: Bytes, what: Bytes, replacement: Bytes, i: nat)
    requires what != [] && i <= |s| - |what| && forall j :: 0 <= j < i ==> !OccursAt(s, what, j)
    ensures ReplaceAll(s, what, replacement) == s[..i] + ReplaceAll(s[i..], what, replacement)
    ensures Count(s, what) == Count(s[i..], what)
  {
    if i == 0 {
      assert s[..0] + ReplaceAll(s, what, replacement) == ReplaceAll(s, what, replacement) && s[0..] == s;
    } else {
      var k := i - 1;
      SkipPrefix(s, what, replacement, k);
      OccursInRest(s, what, k, 0);
      StepOver(s[k..], what, replacement);
      Regroup(s, k, ReplaceAll(s[i..], what, replacement));
    }
  }

  /** The first occurrence is replaced, what is before it stays, and the rest is treated the same way. */
  lemma FirstIsReplaced(s: Bytes, what: Bytes, replacement: Bytes, i: nat)
    requires what != [] && FirstAt(s, what, i)
    ensures i + |what| <= |s|
    ensures ReplaceAll(s, what, replacement) == s[..i] + (replacement + ReplaceAll(s[i + |what|..], what, replacement))
    ensures Count(s, what) == 1 + Count(s[i + |what|..], what)
  {
    SkipPrefix(s, what, replacement, i);
    OccursInRest(s, what, i, 0);
    StepOn(s[i..], what, replacement);
    assert s[i..][|what|..] == s[i + |what|..];
  }

  lemma StepOver(s: Bytes, what: Bytes, replacement: Bytes)
    requires 0 < |what| <= |s| && !OccursAt(s, what, 0)
    ensures ReplaceAll(s, what, replacement) == [s[0]] + ReplaceAll(s[1..], what, replacement)
    ensures Count(s, what) == Count(s[1..], what)
  {
  }

  lemma StepOn(s: Bytes, what: Bytes, replacement: Bytes)
    requires 0 < |what| && OccursAt(s, what, 0)
    ensures ReplaceAll(s, what, replacement) == replacement + ReplaceAll(s[|what|..], what, replacement)
    ensures Count(s, what) == 1 + Count(s[|what|..], what)
  {
  }

  lemma {:induction false} NothingToReplace(s: Bytes, what: Bytes, replacement: Bytes)
    requires what != [] && Count(s, what) == 0
    ensures ReplaceAll(s, what, replacement) == s
    decreases |s|
  {
    if |s| >= |what| {
      NothingToReplace(s[1..], what, replacement);
    }
  }

  /** Nothing is counted exactly when the string does not occur. */
  lemma {:induction false} CountIsZero(s: Bytes, what: Bytes)
    requires what != []
    ensures Count(s, what) == 0 <==> !Contains(s, what)
    decreases |s|
  {
    if |s| >= |what| {
      if s[..|what|] == what {
        assert OccursAt(s, what, 0);
      } else {
        CountIsZero(s[1..], what);
        forall j: nat
          ensures OccursAt(s, what, 1 + j) <==> OccursAt(s[1..], what, j)
        {
          OccursInRest(s, what, 1, j);
        }
        if j :| 0 <= j <= |s[1..]| && OccursAt(s[1..], what, j) {
          assert OccursAt(s, what, 1 + j);
        }
        if j :| 0 <= j <= |s| && OccursAt(s, what, j) {
          assert OccursAt(s[1..], what, j - 1);
        }
      }
    }
  }

  lemma {:induction false} LeastOccurrence(s: Bytes, what: Bytes, k: nat) returns (i: nat)
    requires OccursAt(s, what, k)
    ensures i <= k && FirstAt(s, what, i)
  {
    i := k;
    if j :| 0 <= j < k && OccursAt(s, what, j) {
      i := LeastOccurrence(s, what, j);
    }
  }

  function Joined(pieces: seq<Bytes>, glue: Bytes): Bytes
    requires pieces != []
  {
    if |pieces| == 1 then pieces[0] else pieces[0] + (glue + Joined(pieces[1..], glue))
  }

  /** Each piece ends where the first remaining occurrence of `what` starts, and the last one holds none. */
  ghost predicate Split(pieces: seq<Bytes>, what: Bytes)
    requires pieces != []
  {
    if |pieces| == 1 then !Contains(pieces[0], what)
    else FirstAt(Joined(pieces, what), what, |pieces[0]|) && Split(pieces[1..], what)
  }

  /**
   Replacing is exact: the text falls into the pieces between its leftmost occurrences of the string, the
   result is the same pieces joined by the replacement, and the count is the number of joints.
   */
  lemma {:induction false} ReplacingJoinsThePieces(s: Bytes, what: Bytes, replacement: Bytes) returns (pieces: seq<Bytes>)
    requires what != []
    ensures pieces != [] && Joined(pieces, what) == s && Split(pieces, what)
    ensures |pieces| == Count(s, what) + 1
    ensures ReplaceAll(s, what, replacement) == Joined(pieces, replacement)
    decreases |s|
  {
    CountIsZero(s, what);
    if Count(s, what) == 0 {
      NothingToReplace(s, what, replacement);
      pieces := [s];
    } else {
      var k :| 0 <= k <= |s| && OccursAt(s, what, k);
      var i := LeastOccurrence(s, what, k);
      FirstIsReplaced(s, what, replacement, i);
      var rest := ReplacingJoinsThePieces(s[i + |what|..], what, replacement);
      pieces := [s[..i]] + rest;
      assert pieces[1..] == rest;
      assert s == s[..i] + (what + s[i + |what|..]);
    }
  }

  // ----- What a list of redactions does

  /** The text that rule `k` sees. */
  function Before(s: Bytes, redactions: seq<(Bytes, Bytes)>, k: nat): Bytes
    requires ValidRedactions(redactions) && k <= |redactions|
  {
    Redacted(s, redactions[..k])
  }

  /**
   Every rule replaces what it finds in the text the rules before it left, and is reported with its
   number of replacements exactly when there is one.
   */
  lemma {:induction false} EveryRuleIsApplied(s: Bytes, redactions: seq<(Bytes, Bytes)>, k: nat, count: nat)
    requires ValidRedactions(redactions) && k < |redactions|
    ensures Before(s, redactions, 0) == s && Before(s, redactions, |redactions|) == Redacted(s, redactions)
    ensures Before(s, redactions, k + 1) == ReplaceAll(Before(s, redactions, k), redactions[k].0, redactions[k].1)
    ensures Applied(k + 1, count) in Reported(s, redactions) <==>
            count == Count(Before(s, redactions, k), redactions[k].0) > 0
    ensures forall r :: r in Reported(s, redactions) ==> 1 <= r.position <= |redactions|
  {
    var n := |redactions| - 1;
    assert redactions[..0] == [] && redactions[..|redactions|] == redactions;
    assert redactions[..k + 1][..k] == redactions[..k];
    ReportedPositions(s, redactions);
    if k < n {
      EveryRuleIsApplied(s, redactions[..n], k, count);
      assert redactions[..n][..k] == redactions[..k];
    } else {
      ReportedPositions(s, redactions[..n]);
    }
  }

  lemma {:induction false} ReportedPositions(s: Bytes, redactions: seq<(Bytes, Bytes)>)
    requires ValidRedactions(redactions)
    ensures forall r :: r in Reported(s, redactions) ==> 1 <= r.position <= |redactions|
  {
    if redactions != [] {
      ReportedPositions(s, redactions[..|redactions| - 1]);
    }
  }

  /** One configured string: its pieces joined by the replacement, and the number of joints reported. */
  lemma OneRedaction(s: Bytes, what: Bytes, replacement: Bytes) returns (pieces: seq<Bytes>)
    requires what != [] && replacement != []
    ensures pieces != [] && Joined(pieces, what) == s && Split(pieces, what)
    ensures Redacted(s, [(what, replacement)]) == Joined(pieces, replacement)
    ensures Reported(s, [(what, replacement)]) == if |pieces| == 1 then [] else [Applied(1, |pieces| - 1)]
  {
    pieces := ReplacingJoinsThePieces(s, what, replacement);
    var one := [(what, replacement)];
    assert one[..0] == [];
    assert Redacted(s, one[..0]) == s;
  }
}
