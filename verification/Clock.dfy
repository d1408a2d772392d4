/**
 Instants are nanoseconds after Go's zero time, which is instant 0 (`time.Time.IsZero`).
 PostgreSQL keeps microseconds, so the durable repositories truncate what they store.
 */
module Clock {

  type Time = nat

  /** A `time.Duration` in nanoseconds; Go durations are signed. */
  type Duration = int

  const ZERO: Time := 0
  const MICROSECOND: nat := 1000

  /** `Truncate(time.Microsecond)` on an instant. */
  function Truncate(t: Time): Time
  {
    t / MICROSECOND * MICROSECOND
  }

  /** `duration.Microseconds()`, back in nanoseconds: Go's division rounds towards zero. */
  function TruncateDuration(d: Duration): Duration
  {
    if d >= 0 then d / MICROSECOND * MICROSECOND else -((-d) / MICROSECOND * MICROSECOND)
  }

  predicate Aligned(t: Time)
  {
    t % MICROSECOND == 0
  }

  /** Adding a positive duration to an instant, as `time.Time.Add`. */
  function After(t: Time, d: Duration): Time
    requires d >= 0
  {
    t + d
  }

  lemma TruncateBounds(t: Time)
    ensures Aligned(Truncate(t))
    ensures Truncate(t) <= t < Truncate(t) + MICROSECOND
    ensures Aligned(t) ==> Truncate(t) == t
  {
  }

  /** An aligned deadline falls on the same side of an instant and of its truncation. */
  lemma AlignedDeadline(deadline: Time, t: Time)
    requires Aligned(deadline)
    ensures Truncate(t) < deadline <==> t < deadline
  {
    TruncateBounds(t);
  }
}
