/**
 Whole runs of one task: any sequence of operations, by any callers, with any clocks. A refused
 operation leaves the task as it was.
 */
module CollectorRuns {
  import opened Wrappers
  import opened Clock
  import opened CollectorTask

  function Next(t: Task, c: Command): Task
  {
    if Permitted(t, c) then Effect(t, c) else t
  }

  function Run(t: Task, cs: seq<Command>): Task
  {
    if cs == [] then t else Next(Run(t, cs[..|cs| - 1]), cs[|cs| - 1])
  }

  /** The number of times the task was leased. */
  function Acquisitions(t: Task, cs: seq<Command>): nat
  {
    if cs == [] then 0
    else
      var c := cs[|cs| - 1];
      Acquisitions(t, cs[..|cs| - 1]) + if c.Acquire? && Permitted(Run(t, cs[..|cs| - 1]), c) then 1 else 0
  }

  /** What every operation keeps. */
  predicate Consistent(t: Task)
  {
    && (t.state.Active() || t.state.Available() || t.state.Succeeded?)
    && t.attemptCount == t.fencingToken
    && (t.state.Active() ==> t.fencingToken > 0 && t.leaseOwner != "" && t.leaseExpiry > ZERO && t.lastError == "")
    && (t.state.Available() ==> t.leaseOwner == "" && t.leaseExpiry == ZERO)
    && (t.state.Queued? ==> t.fencingToken == 0)
    && (t.state.RetryWait? ==> t.fencingToken > 0)
    && (t.state.Succeeded? <==> t.acceptedAttemptId != "")
    && (t.acceptedAttemptId == "" <==> t.acceptedEvidenceId == "")
    && (t.executionDecisionId == "" <==> t.executionGrantId == "")
    && (t.state.Leased? ==> t.executionGrantId == "")
  }

  /** The current lease of epoch `token` can never be used again. */
  predicate Closed(t: Task, token: nat)
  {
    t.fencingToken > token || (t.fencingToken == token && t.state.RetryWait?)
  }

  lemma NextKeepsConsistent(t: Task, c: Command)
    requires Consistent(t)
    ensures Consistent(Next(t, c))
    ensures Next(t, c).authority == t.authority
    ensures t.fencingToken <= Next(t, c).fencingToken <= t.fencingToken + 1
  {
  }

  /** Every run keeps the task consistent, and its token counts the acquisitions. */
  lemma {:induction false} TokenCountsAcquisitions(t: Task, cs: seq<Command>)
    requires Fresh(t)
    ensures Consistent(Run(t, cs))
    ensures Run(t, cs).fencingToken == Run(t, cs).attemptCount == Acquisitions(t, cs)
  {
    if cs != [] {
      TokenCountsAcquisitions(t, cs[..|cs| - 1]);
      NextKeepsConsistent(Run(t, cs[..|cs| - 1]), cs[|cs| - 1]);
    }
  }

  /** The token handed out when operation `i` leases the task. */
  function TokenGranted(t: Task, cs: seq<Command>, i: nat): nat
    requires i < |cs|
  {
    Run(t, cs[..i + 1]).fencingToken
  }

  lemma {:induction false} RunTokenMonotone(t: Task, cs: seq<Command>, i: nat, j: nat)
    requires i <= j <= |cs|
    requires Consistent(t)
    ensures Consistent(Run(t, cs[..i])) && Consistent(Run(t, cs[..j]))
    ensures Run(t, cs[..i]).fencingToken <= Run(t, cs[..j]).fencingToken
    decreases j
  {
    if j > 0 {
      assert cs[..j][..j - 1] == cs[..j - 1];
      RunTokenMonotone(t, cs, if i == j then j - 1 else i, j - 1);
      NextKeepsConsistent(Run(t, cs[..j - 1]), cs[j - 1]);
    }
  }

  /** Two acquisitions of one task never hand out the same token. */
  lemma TokensNeverReused(t: Task, cs: seq<Command>, i: nat, j: nat)
    requires i < j < |cs| && Fresh(t)
    requires cs[j].Acquire? && Permitted(Run(t, cs[..j]), cs[j])
    ensures TokenGranted(t, cs, i) < TokenGranted(t, cs, j)
  {
    RunTokenMonotone(t, cs, i + 1, j);
    assert cs[..j + 1][..j] == cs[..j];
  }

  /** Liveness of the table: whatever stopped half-way, an unfinished task can be leased once its lease is over. */
  lemma UnfinishedCanBeLeased(t: Task, cs: seq<Command>, owner: string, now: Time, duration: Duration)
    requires Fresh(t)
    requires !Run(t, cs).state.Succeeded?
    requires owner != "" && now != ZERO && duration > 0 && Run(t, cs).leaseExpiry <= now
    ensures Permitted(Run(t, cs), Acquire(owner, now, duration))
  {
    TokenCountsAcquisitions(t, cs);
  }

  /** Once closed by a retry or a later lease, an epoch stays closed and none of its operations succeed. */
  lemma {:induction false} ClosedForever(t: Task, token: nat, cs: seq<Command>)
    requires Consistent(t) && Closed(t, token)
    ensures Consistent(Run(t, cs)) && Closed(Run(t, cs), token)
    ensures forall c: Command :: !c.Acquire? && c.token == token ==> !Permitted(Run(t, cs), c)
    ensures forall owner, at :: VerifyAttempt(Run(t, cs), owner, token, at).Fail?
  {
    if cs != [] {
      ClosedForever(t, token, cs[..|cs| - 1]);
      NextKeepsConsistent(Run(t, cs[..|cs| - 1]), cs[|cs| - 1]);
    }
  }

  /** A retry or a new lease closes the epoch that was current. */
  lemma RetryOrLeaseCloses(t: Task, c: Command)
    requires Permitted(t, c) && (c.Acquire? || c.Retry?)
    ensures Closed(Effect(t, c), t.fencingToken)
  {
  }

  /** An accepted result is final: no operation changes the task again. */
  lemma {:induction false} AcceptedForever(t: Task, cs: seq<Command>)
    requires Consistent(t) && t.state.Succeeded?
    ensures Run(t, cs) == t
    ensures forall c: Command :: !Permitted(t, c)
  {
    if cs != [] {
      AcceptedForever(t, cs[..|cs| - 1]);
    }
  }

  // ----- Leases as intervals of the callers' clocks

  /** One ownership epoch: in force from `start` until its expiry or its release. */
  datatype Epoch = Epoch(token: nat, owner: string, start: Time, until: Time)

  function Leases(t: Task, cs: seq<Command>): seq<Epoch>
  {
    if cs == [] then []
    else Extend(Leases(t, cs[..|cs| - 1]), Run(t, cs[..|cs| - 1]), cs[|cs| - 1])
  }

  /** The leases after one more operation on the task `before`. */
  function Extend(es: seq<Epoch>, before: Task, c: Command): seq<Epoch>
  {
    if !Permitted(before, c) then es
    else match c
      case Acquire(owner, now, duration) =>
        es + [Epoch(before.fencingToken + 1, owner, now, After(now, duration))]
      case Renew(_, _, now, duration) => Until(es, After(now, duration))
      case Retry(_, _, now, _) => Until(es, now)
      case _ => es
  }

  function Until(es: seq<Epoch>, end: Time): seq<Epoch>
  {
    if es == [] then [] else es[|es| - 1 := es[|es| - 1].(until := end)]
  }

  predicate ClocksAdvance(cs: seq<Command>)
  {
    forall i, j :: 0 <= i < j < |cs| ==> cs[i].now <= cs[j].now
  }

  /** The leases listed are the ones the task enforces. */
  predicate Matches(es: seq<Epoch>, t: Task)
  {
    && |es| == t.fencingToken
    && (forall k :: 0 <= k < |es| ==> es[k].token == k + 1)
    && (t.state.Active() ==>
          es != [] && es[|es| - 1].owner == t.leaseOwner && es[|es| - 1].until == t.leaseExpiry)
  }

  predicate Disjoint(es: seq<Epoch>)
  {
    forall i, j :: 0 <= i < j < |es| ==> es[i].until <= es[j].start
  }

  /** What keeps leases disjoint when the last operation came at `at`. */
  predicate Ordered(es: seq<Epoch>, t: Task, at: Time)
  {
    && Disjoint(es)
    && (forall k :: 0 <= k < |es| ==> es[k].start <= es[k].until && es[k].start <= at)
    && (es != [] && t.state.RetryWait? ==> es[|es| - 1].until <= at)
  }

  lemma ExtendMatches(es: seq<Epoch>, t: Task, c: Command)
    requires Consistent(t) && Matches(es, t)
    ensures Matches(Extend(es, t, c), Next(t, c))
  {
  }

  lemma ExtendOrdered(es: seq<Epoch>, t: Task, at: Time, c: Command)
    requires Consistent(t) && Matches(es, t) && Ordered(es, t, at) && at <= c.now
    ensures Ordered(Extend(es, t, c), Next(t, c), c.now)
  {
    if Permitted(t, c) && c.Acquire? {
      LastEnds(es, t, at, c);
    }
  }

  /** A new lease starts after every earlier one is over. */
  lemma LastEnds(es: seq<Epoch>, t: Task, at: Time, c: Command)
    requires Consistent(t) && Matches(es, t) && Ordered(es, t, at) && at <= c.now
    requires c.Acquire? && Permitted(t, c)
    ensures forall i :: 0 <= i < |es| ==> es[i].until <= c.now
  {
    forall i | 0 <= i < |es| ensures es[i].until <= c.now {
      if i < |es| - 1 {
        assert es[i].until <= es[|es| - 1].start;
      }
    }
  }

  lemma {:induction false} LeasesMatchTask(t: Task, cs: seq<Command>)
    requires Fresh(t)
    ensures Matches(Leases(t, cs), Run(t, cs))
  {
    if cs != [] {
      LeasesMatchTask(t, cs[..|cs| - 1]);
      TokenCountsAcquisitions(t, cs[..|cs| - 1]);
      ExtendMatches(Leases(t, cs[..|cs| - 1]), Run(t, cs[..|cs| - 1]), cs[|cs| - 1]);
    }
  }

  /** If no clock goes back, the intervals of different leases never overlap. */
  lemma {:induction false} LeasesAreDisjoint(t: Task, cs: seq<Command>)
    requires Fresh(t) && ClocksAdvance(cs)
    ensures Disjoint(Leases(t, cs))
    ensures Ordered(Leases(t, cs), Run(t, cs), if cs == [] then ZERO else cs[|cs| - 1].now)
  {
    if cs != [] {
      var n := |cs| - 1;
      LeasesAreDisjoint(t, cs[..n]);
      LeasesMatchTask(t, cs[..n]);
      TokenCountsAcquisitions(t, cs[..n]);
      ExtendOrdered(Leases(t, cs[..n]), Run(t, cs[..n]), if n == 0 then ZERO else cs[n - 1].now, cs[n]);
    }
  }
}
