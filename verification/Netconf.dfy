/**
 End-of-message framing (section 4.3 of RFC 6242) as internal/transport/netconf.go reads it. A stream
 is the bytes that can be read before an error or a cancellation.
 */
module Netconf {
  import opened Wrappers
  import opened Utf8

  /** `]]>]]>` */
  const DELIMITER: Bytes := [0x5D, 0x5D, 0x3E, 0x5D, 0x5D, 0x3E]

  /** `]]>`, the only text that both starts and ends the delimiter. */
  const BORDER: Bytes := [0x5D, 0x5D, 0x3E]

  datatype ReadError = InvalidLimit | TooLong | ReadFailed

  /** A delimiter ends at position `e`. */
  predicate EndsAt(s: Bytes, e: int)
  {
    6 <= e <= |s| && s[e - 6..e] == DELIMITER
  }

  /** The first position from `k` on where a delimiter ends. */
  function FirstFrom(s: Bytes, k: nat): Option<nat>
    decreases |s| - k
  {
    if k > |s| then None else if EndsAt(s, k) then Some(k) else FirstFrom(s, k + 1)
  }

  /** One framed read: its result and what is left of the stream. */
  function Read(s: Bytes, maximum: int): (Result<Bytes, ReadError>, Bytes)
  {
    if maximum <= 0 then (Failure(InvalidLimit), s)
    else
      FirstIsFirst(s, 0);
      var end := FirstFrom(s, 0);
      if end.Some? && end.value <= maximum + 6 then (Success(s[..end.value - 6]), s[end.value..])
      else if |s| > maximum + 6 then (Failure(TooLong), s[maximum + 7..])
      else (Failure(ReadFailed), [])
  }

  lemma {:induction false} FirstIsFirst(s: Bytes, k: nat)
    ensures match FirstFrom(s, k)
            case None => forall e :: k <= e ==> !EndsAt(s, e)
            case Some(end) => k <= end && EndsAt(s, end) && forall e :: k <= e < end ==> !EndsAt(s, e)
    decreases |s| - k
  {
    if k <= |s| && !EndsAt(s, k) {
      FirstIsFirst(s, k + 1);
    }
  }

  class NetconfSession {
    var stdout: Bytes

    constructor (stream: Bytes)
      ensures stdout == stream
    {
      stdout := stream;
    }

    /** `readNETCONFMessage`, byte by byte. */
    method ReadMessage(maximum: int) returns (res: Result<Bytes, ReadError>)
      modifies this
      ensures (res, stdout) == Read(old(stdout), maximum)
    {
      if maximum <= 0 {
        return Failure(InvalidLimit);
      }
      ghost var s := stdout;
      FirstIsFirst(s, 0);
      var message: Bytes := [];
      while true
        invariant message + stdout == s && |message| <= maximum + 6
        invariant forall e :: 0 <= e <= |message| ==> !EndsAt(s, e)
        decreases |stdout|
      {
        if stdout == [] {
          assert message == s;
          return Failure(ReadFailed);
        }
        message, stdout := message + [stdout[0]], stdout[1..];
        assert message == s[..|message|] && stdout == s[|message|..];
        if |message| > maximum + 6 {
          return Failure(TooLong);
        }
        if |message| >= 6 && message[|message| - 6..] == DELIMITER {
          assert s[|message| - 6..|message|] == message[|message| - 6..];
          assert EndsAt(s, |message|);
          assert FirstFrom(s, 0) == Some(|message|);
          assert message[..|message| - 6] == s[..|message| - 6];
          return Success(message[..|message| - 6]);
        }
        assert |message| >= 6 ==> s[|message| - 6..|message|] == message[|message| - 6..];
      }
    }
  }

  /** On every stream a success is exactly the bytes before the first delimiter, within the limit. */
  lemma SuccessIsFirstMessage(s: Bytes, maximum: int)
    ensures var (res, rest) := Read(s, maximum);
            && (res.Success? <==> maximum > 0 && exists e :: 0 <= e <= |s| && EndsAt(s, e) && e - 6 <= maximum)
            && (res.Success? ==>
                  && |res.value| <= maximum && s == res.value + DELIMITER + rest
                  && forall e :: 0 <= e <= |res.value| + 5 ==> !EndsAt(s, e))
  {
    FirstIsFirst(s, 0);
    var end := FirstFrom(s, 0);
    if end.Some? {
      assert s == s[..end.value - 6] + s[end.value - 6..end.value] + s[end.value..];
    }
  }

  /**
   What a failure means: the limit is not positive and nothing was read; or the message is longer than the
   limit, and the stream goes on after the byte that showed it; or the stream ended first.
   */
  lemma FailureSaysWhy(s: Bytes, maximum: int)
    requires Read(s, maximum).0.Failure?
    ensures Read(s, maximum) ==
            if maximum <= 0 then (Failure(InvalidLimit), s)
            else if |s| >= maximum + 7 then (Failure(TooLong), s[maximum + 7..])
            else (Failure(ReadFailed), [])
    ensures maximum > 0 ==> forall e :: 0 <= e <= |s| && e <= maximum + 6 ==> !EndsAt(s, e)
  {
    FirstIsFirst(s, 0);
  }

  // ----- Frames

  function Frame(m: Bytes): Bytes
  {
    m + DELIMITER
  }

  /** What a message must satisfy: no delimiter inside, and no ending that completes one early. */
  predicate Frameable(m: Bytes)
  {
    (forall e :: 0 <= e <= |m| ==> !EndsAt(m, e)) && !(|m| >= 3 && m[|m| - 3..] == BORDER)
  }

  /** Where delimiters end in a framed message, up to its own one. */
  lemma EndsInFrame(m: Bytes, rest: Bytes, e: nat)
    requires e < |m| + 6
    ensures EndsAt(Frame(m) + rest, e) <==>
            EndsAt(m, e) || (e == |m| + 3 && |m| >= 3 && m[|m| - 3..] == BORDER)
  {
    var s := Frame(m) + rest;
    if e <= |m| {
      assert e >= 6 ==> s[e - 6..e] == m[e - 6..e];
    } else if e >= 6 {
      var d := e - |m|;
      assert s[e - 6..e] == m[|m| - (6 - d)..] + DELIMITER[..d];
      var window := s[e - 6..e];
      assert window[6 - d] == DELIMITER[0] && window[5] == DELIMITER[d - 1];
      if d == 3 {
        assert m[|m| - 3..] == window[..3] && DELIMITER[..3] == BORDER;
        assert DELIMITER == BORDER + BORDER;
      } else if d == 2 {
        assert DELIMITER[1] != DELIMITER[5];
      } else if d == 4 {
        assert DELIMITER[3] != DELIMITER[5];
      } else if d == 5 {
        assert DELIMITER[4] != DELIMITER[5];
      } else {
        assert d == 1 && DELIMITER[0] != DELIMITER[5];
      }
    }
  }

  lemma FrameEnds(m: Bytes, rest: Bytes)
    ensures EndsAt(Frame(m) + rest, |m| + 6)
  {
    assert (Frame(m) + rest)[|m|..|m| + 6] == DELIMITER;
  }

  /** A framed message is read back, leaving what follows it, exactly when it is frameable and fits. */
  lemma FrameRoundTrip(m: Bytes, rest: Bytes, maximum: int)
    ensures Read(Frame(m) + rest, maximum) == (Success(m), rest) <==>
            maximum > 0 && |m| <= maximum && Frameable(m)
  {
    var s := Frame(m) + rest;
    FirstIsFirst(s, 0);
    FrameEnds(m, rest);
    var end := FirstFrom(s, 0).value;
    assert end <= |m| + 6;
    if Frameable(m) {
      if end < |m| + 6 {
        EndsInFrame(m, rest, end);
      }
      assert s[..|m|] == m && s[|m| + 6..] == rest;
    } else {
      NotFrameable(m, rest);
    }
  }

  lemma NotFrameable(m: Bytes, rest: Bytes)
    requires !Frameable(m)
    ensures FirstFrom(Frame(m) + rest, 0).Some? && FirstFrom(Frame(m) + rest, 0).value < |m| + 6
  {
    FirstIsFirst(Frame(m) + rest, 0);
    FrameEnds(m, rest);
    if e :| 0 <= e <= |m| && EndsAt(m, e) {
      EndsInFrame(m, rest, e);
    } else {
      EndsInFrame(m, rest, |m| + 3);
    }
  }

  /** A message that ends in `]]>` loses its ending: the delimiter is found three bytes early. */
  lemma BorderEndsEarly(m: Bytes, rest: Bytes, maximum: int)
    requires Frameable(m) && |m| <= maximum && 0 < maximum
    ensures Read(Frame(m + BORDER) + rest, maximum) == (Success(m), BORDER + rest)
  {
    assert Frame(m + BORDER) + rest == Frame(m) + (BORDER + rest);
    FrameRoundTrip(m, BORDER + rest, maximum);
  }

  /** For instance `a]]>`, well within any limit, is read back as `a`. */
  lemma BorderExample(maximum: int)
    requires maximum >= 4
    ensures Read(Frame([0x61] + BORDER), maximum) == (Success([0x61]), BORDER) && !Frameable([0x61] + BORDER)
  {
    BorderEndsEarly([0x61], [], maximum);
    assert Frame([0x61] + BORDER) + [] == Frame([0x61] + BORDER) && BORDER + [] == BORDER;
    assert ([0x61] + BORDER)[1..] == BORDER;
  }

  function FrameAll(ms: seq<Bytes>): Bytes
  {
    if ms == [] then [] else Frame(ms[0]) + FrameAll(ms[1..])
  }

  /** `n` reads in a row; `None` when one fails. */
  function ReadAll(s: Bytes, n: nat, maximum: int): Option<(seq<Bytes>, Bytes)>
    decreases n
  {
    if n == 0 then Some(([], s))
    else
      var (first, rest) := Read(s, maximum);
      if first.Failure? then None
      else match ReadAll(rest, n - 1, maximum)
        case None => None
        case Some((more, left)) => Some(([first.value] + more, left))
  }

  /** Reading as many times as there are frames returns the messages in order and leaves what follows. */
  lemma {:induction false} FramesRoundTrip(ms: seq<Bytes>, rest: Bytes, maximum: int)
    requires maximum > 0 && forall k :: 0 <= k < |ms| ==> Frameable(ms[k]) && |ms[k]| <= maximum
    ensures ReadAll(FrameAll(ms) + rest, |ms|, maximum) == Some((ms, rest))
  {
    if ms == [] {
      assert FrameAll(ms) + rest == rest;
    } else {
      var more := FrameAll(ms[1..]) + rest;
      assert FrameAll(ms) + rest == Frame(ms[0]) + more;
      FrameRoundTrip(ms[0], more, maximum);
      FramesRoundTrip(ms[1..], rest, maximum);
      assert [ms[0]] + ms[1..] == ms;
    }
  }
}
