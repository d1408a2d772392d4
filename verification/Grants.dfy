/**
 Execution grants: issuing, the credential exchange (internal/grants/grants.go) and the single-use
 consumption ledger (internal/grants/repository.go). A signature verifies exactly the grants the
 authority signed; digests are inputs of the exchange.
 */
module Grants {
  import opened Wrappers
  import opened Clock
  import opened CollectorTask
  import opened BrokerDatabase
  import Text

  datatype GrantError =
    | Incomplete | InvalidSignature | NotCurrent | BindingMismatch | FenceUnavailable | StaleGrantFence
    | AlreadyConsumed | Refused

  datatype Grant = Grant(
    grantId: string, nonce: string, tenantId: string, collectorId: string, taskId: string,
    targetId: string, recipeId: string, recipeVersion: string, fencingToken: int,
    executionDecisionId: string, notBefore: Time, expiresAt: Time, maximumDuration: Duration,
    maximumResponseBytes: int, singleUse: bool, issuer: string, audience: string,
    signatureAlgorithm: string, signingKeyRef: string)

  /** Filled in by the broker from the authenticated connection. */
  datatype ExchangeRequest = ExchangeRequest(
    presentingId: string, taskId: string, targetId: string, recipeId: string, recipeVersion: string,
    fencingToken: int, now: Time)

  datatype Credential = Credential(
    grantId: string, collectorId: string, targetId: string, recipeId: string, recipeVersion: string,
    fencingToken: int, expiresAt: Time)

  /** The readings of the database clock at the row lock and at the insert. */
  datatype DatabaseClock = DatabaseClock(checkedAt: Time, consumedAt: Time)

  datatype Digests = Digests(nonce: string, grant: string)

  predicate ValidGrant(g: Grant)
  {
    && g.grantId != "" && g.nonce != "" && g.tenantId != "" && g.collectorId != "" && g.taskId != ""
    && g.targetId != "" && g.recipeId != "" && g.recipeVersion != "" && g.issuer != "" && g.audience != ""
    && g.signatureAlgorithm != "" && g.signingKeyRef != ""
    && g.fencingToken > 0 && g.maximumDuration > 0 && g.maximumResponseBytes > 0
    && g.notBefore != ZERO && g.expiresAt > g.notBefore && g.singleUse
  }

  predicate IsLowerHex(c: char)
  {
    Text.IsHexCode(c as int) && !('A' <= c <= 'F')
  }

  const DIGEST_LENGTH: nat := 64

  predicate HexDigest(s: string)
  {
    |s| == DIGEST_LENGTH && forall i :: 0 <= i < |s| ==> Text.IsHexCode(s[i] as int)
  }

  predicate LowerHexDigest(s: string)
  {
    |s| == DIGEST_LENGTH && forall i :: 0 <= i < |s| ==> IsLowerHex(s[i])
  }

  predicate ValidConsumption(c: Consumption)
  {
    && Identity(c.grantId) && Identity(c.tenantId) && Identity(c.taskId) && Identity(c.collectorId)
    && Identity(c.targetId) && Identity(c.recipeId) && Identity(c.recipeVersion)
    && HexDigest(c.nonceDigest) && HexDigest(c.grantDigest)
    && c.fencingToken > 0 && c.grantExpiresAt != ZERO && c.requestedAt != ZERO
  }

  predicate NonceUsed(ledger: map<string, ConsumptionRow>, nonceDigest: string)
  {
    exists g :: g in ledger && ledger[g].consumption.nonceDigest == nonceDigest
  }

  /** The task row names this consumption's tenant, owner, target, recipe and grant. */
  predicate BoundTo(t: Task, c: Consumption)
  {
    && t.authority.tenantId == c.tenantId && t.leaseOwner == c.collectorId
    && t.authority.targetId == c.targetId && t.authority.recipeId == c.recipeId
    && t.authority.recipeVersion == c.recipeVersion && t.executionGrantId == c.grantId
  }

  /** The attempt that holds this grant is executing under an unexpired lease and grant. */
  predicate ExecutingUnder(t: Task, c: Consumption, at: Time)
  {
    && BoundTo(t, c) && t.fencingToken == c.fencingToken
    && t.state.Executing? && at < t.leaseExpiry && at < c.grantExpiresAt
  }

  /** `lockAndValidateTask`; a NULL lease expiry cannot be read. */
  function LockAndValidate(tables: Tables, c: Consumption, at: Time): Outcome<GrantError>
  {
    if c.taskId !in tables.tasks then Fail(BindingMismatch)
    else
      var t := tables.tasks[c.taskId].task;
      if t.leaseExpiry == ZERO then Fail(Refused)
      else if !BoundTo(t, c) then Fail(BindingMismatch)
      else if t.fencingToken != c.fencingToken then Fail(StaleGrantFence)
      else if !t.state.Executing? || t.leaseExpiry <= at || c.grantExpiresAt <= at then Fail(NotCurrent)
      else Pass
  }

  /** The constraints on a new ledger row. */
  predicate LedgerAllowed(tables: Tables, row: ConsumptionRow)
  {
    var c := row.consumption;
    && LowerHexDigest(c.nonceDigest) && LowerHexDigest(c.grantDigest)
    && c.requestedAt < c.grantExpiresAt && row.consumedAt < c.grantExpiresAt
    && c.taskId in tables.tasks && tables.tasks[c.taskId].task.authority.tenantId == c.tenantId
  }

  function Consume(tables: Tables, c: Consumption, clock: DatabaseClock): (Result<ConsumptionRow, GrantError>, Tables)
  {
    if !ValidConsumption(c) then (Failure(Incomplete), tables)
    else if c.grantId in tables.consumptions || NonceUsed(tables.consumptions, c.nonceDigest) then
      (Failure(AlreadyConsumed), tables)
    else match LockAndValidate(tables, c, clock.checkedAt)
      case Fail(e) => (Failure(e), tables)
      case Pass =>
        var row := ConsumptionRow(c, clock.consumedAt);
        if !LedgerAllowed(tables, row) then (Failure(Refused), tables)
        else (Success(row), tables.(consumptions := tables.consumptions[c.grantId := row]))
  }

  function ConsumptionOf(g: Grant, digests: Digests, requestedAt: Time): Consumption
  {
    Consumption(g.grantId, digests.nonce, digests.grant, g.tenantId, g.taskId, g.collectorId, g.targetId,
                g.recipeId, g.recipeVersion, g.fencingToken, g.expiresAt, requestedAt)
  }

  /** The bindings the broker compares between the grant and the authenticated request. */
  predicate RequestMatches(g: Grant, r: ExchangeRequest)
  {
    && r.presentingId == g.collectorId && r.taskId == g.taskId && r.targetId == g.targetId
    && r.recipeId == g.recipeId && r.recipeVersion == g.recipeVersion && r.fencingToken == g.fencingToken
  }

  /**
   `ExchangeContext` by the authority named `issuer` that signed exactly `issued`. The fence read
   before the transaction is taken in the same step: the transaction compares the fence again.
   */
  function Exchange(tables: Tables, issued: set<Grant>, issuer: string, audience: string, g: Grant,
                    r: ExchangeRequest, digests: Digests, clock: DatabaseClock)
    : (Result<Credential, GrantError>, Tables)
  {
    if r.now == ZERO then (Failure(Incomplete), tables)
    else if g !in issued then (Failure(InvalidSignature), tables)
    else if g.issuer != issuer || g.audience != audience || r.now < g.notBefore || g.expiresAt <= r.now then
      (Failure(NotCurrent), tables)
    else if !g.singleUse || !RequestMatches(g, r) then (Failure(BindingMismatch), tables)
    else if g.taskId !in tables.tasks then (Failure(FenceUnavailable), tables)
    else if tables.tasks[g.taskId].task.fencingToken != g.fencingToken then (Failure(StaleGrantFence), tables)
    else match Consume(tables, ConsumptionOf(g, digests, r.now), clock)
      case (Failure(e), after) => (Failure(e), after)
      case (Success(_), after) =>
        (Success(Credential(g.grantId, g.collectorId, g.targetId, g.recipeId, g.recipeVersion, g.fencingToken,
                            g.expiresAt)), after)
  }

  /** The credential broker and its signing key. */
  class Broker {
    const issuer: string
    const audience: string
    const database: Database
    var issued: set<Grant>

    constructor (issuer: string, audience: string, database: Database)
      ensures this.issuer == issuer && this.audience == audience && this.database == database && issued == {}
    {
      this.issuer := issuer;
      this.audience := audience;
      this.database := database;
      issued := {};
    }

    /** The issuer and audience are the authority's own, whatever the caller wrote. */
    method IssueContext(request: Grant, algorithm: string, keyRef: string) returns (r: Result<Grant, GrantError>)
      modifies this
      ensures var g := request.(issuer := issuer, audience := audience, signatureAlgorithm := algorithm,
                                signingKeyRef := keyRef);
              if ValidGrant(g) then r == Success(g) && issued == old(issued) + {g}
              else r == Failure(Incomplete) && issued == old(issued)
    {
      var g := request;
      g := g.(issuer := issuer);
      g := g.(audience := audience);
      g := g.(signatureAlgorithm := algorithm, signingKeyRef := keyRef);
      if !ValidGrant(g) {
        return Failure(Incomplete);
      }
      issued := issued + {g};
      return Success(g);
    }

    method ExchangeContext(g: Grant, r: ExchangeRequest, digests: Digests, clock: DatabaseClock)
      returns (c: Result<Credential, GrantError>)
      modifies database
      ensures var (outcome, after) :=
                Exchange(old(database.tables), issued, issuer, audience, g, r, digests, clock);
              c == outcome && database.tables == after
    {
      if r.now == ZERO {
        return Failure(Incomplete);
      }
      if g !in issued {
        return Failure(InvalidSignature);
      }
      if g.issuer != issuer || g.audience != audience || r.now < g.notBefore || r.now >= g.expiresAt {
        return Failure(NotCurrent);
      }
      if !g.singleUse {
        return Failure(BindingMismatch);
      }
      if r.presentingId != g.collectorId || r.taskId != g.taskId || r.targetId != g.targetId ||
         r.recipeId != g.recipeId || r.recipeVersion != g.recipeVersion || r.fencingToken != g.fencingToken {
        return Failure(BindingMismatch);
      }
      if g.taskId !in database.tables.tasks {
        return Failure(FenceUnavailable);
      }
      if database.tables.tasks[g.taskId].task.fencingToken != g.fencingToken {
        return Failure(StaleGrantFence);
      }
      var consumed := ConsumeContext(ConsumptionOf(g, digests, r.now), clock);
      if consumed.Failure? {
        return Failure(consumed.error);
      }
      return Success(Credential(g.grantId, g.collectorId, g.targetId, g.recipeId, g.recipeVersion, g.fencingToken,
                                g.expiresAt));
    }

    /** The row-locked transaction that appends to the ledger. */
    method ConsumeContext(c: Consumption, clock: DatabaseClock) returns (r: Result<ConsumptionRow, GrantError>)
      modifies database
      ensures var (outcome, after) := Consume(old(database.tables), c, clock);
              r == outcome && database.tables == after
    {
      if !ValidConsumption(c) {
        return Failure(Incomplete);
      }
      if c.grantId in database.tables.consumptions || NonceUsed(database.tables.consumptions, c.nonceDigest) {
        return Failure(AlreadyConsumed);
      }
      var locked := LockAndValidate(database.tables, c, clock.checkedAt);
      if locked.Fail? {
        return Failure(locked.error);
      }
      var row := ConsumptionRow(c, clock.consumedAt);
      if !LedgerAllowed(database.tables, row) {
        return Failure(Refused);
      }
      database.tables := database.tables.(consumptions := database.tables.consumptions[c.grantId := row]);
      return Success(row);
    }
  }

  /** The ledger never holds a grant or a nonce twice, and is keyed by grant. */
  predicate LedgerOk(ledger: map<string, ConsumptionRow>)
  {
    && (forall g :: g in ledger ==> ledger[g].consumption.grantId == g)
    && (forall x, y :: x in ledger && y in ledger && x != y ==>
                         ledger[x].consumption.nonceDigest != ledger[y].consumption.nonceDigest)
  }

  predicate LowerHex(s: string)
  {
    |s| == 64 && forall i :: 0 <= i < |s| ==> '0' <= s[i] <= '9' || 'a' <= s[i] <= 'f'
  }

  /** A ledger row names its attempt in full, with digests in lower-case hex, and is dated before its grant expired. */
  predicate RowComplete(row: ConsumptionRow)
  {
    var c := row.consumption;
    && 1 <= |c.grantId| <= 512 && 1 <= |c.tenantId| <= 512 && 1 <= |c.taskId| <= 512 && 1 <= |c.collectorId| <= 512
    && 1 <= |c.targetId| <= 512 && 1 <= |c.recipeId| <= 512 && 1 <= |c.recipeVersion| <= 512
    && LowerHex(c.nonceDigest) && LowerHex(c.grantDigest) && c.fencingToken > 0
    && ZERO < c.requestedAt < c.grantExpiresAt && row.consumedAt < c.grantExpiresAt
  }

  lemma LowerDigestIsLowerHex(s: string)
    ensures LowerHexDigest(s) <==> LowerHex(s)
    ensures LowerHex(s) ==> HexDigest(s)
  {
  }

  /** Rows that the ledger takes are complete, and only those. */
  lemma LedgerTakesCompleteRows(tables: Tables, c: Consumption, consumedAt: Time)
    requires c.taskId in tables.tasks && tables.tasks[c.taskId].task.authority.tenantId == c.tenantId
    ensures ValidConsumption(c) && LedgerAllowed(tables, ConsumptionRow(c, consumedAt)) <==>
            RowComplete(ConsumptionRow(c, consumedAt))
  {
    LowerDigestIsLowerHex(c.nonceDigest);
    LowerDigestIsLowerHex(c.grantDigest);
  }

  /** A consumption is recorded only for the executing attempt that holds the grant; nothing recorded is lost or changed. */
  lemma ConsumeNeedsTheExecutingAttempt(tables: Tables, c: Consumption, clock: DatabaseClock)
    requires LedgerOk(tables.consumptions)
    ensures var (r, after) := Consume(tables, c, clock);
            && LedgerOk(after.consumptions)
            && after.tasks == tables.tasks && after.envelopes == tables.envelopes
            && (r.Failure? ==> after == tables)
            && (r.Success? ==>
                  && after.consumptions == tables.consumptions[c.grantId := r.value]
                  && c.grantId !in tables.consumptions
                  && r.value == ConsumptionRow(c, clock.consumedAt) && RowComplete(r.value)
                  && c.taskId in tables.tasks
                  && ExecutingUnder(tables.tasks[c.taskId].task, c, clock.checkedAt)
                  && clock.consumedAt < c.grantExpiresAt)
  {
    if c.taskId in tables.tasks && tables.tasks[c.taskId].task.authority.tenantId == c.tenantId {
      LedgerTakesCompleteRows(tables, c, clock.consumedAt);
    }
  }

  /** The row shows the collector of this grant executing its attempt, unexpired at this instant. */
  predicate Executes(t: Task, g: Grant, at: Time)
  {
    && t.state.Executing? && t.leaseOwner == g.collectorId && t.executionGrantId == g.grantId
    && t.fencingToken == g.fencingToken && t.authority.tenantId == g.tenantId && t.authority.targetId == g.targetId
    && t.authority.recipeId == g.recipeId && t.authority.recipeVersion == g.recipeVersion
    && at < t.leaseExpiry && at < g.expiresAt
  }

  /**
   An exchange succeeds exactly when the authority signed the grant under its own name and audience, the
   grant is single-use and current, the request repeats its bindings, neither grant nor nonce was used
   before, the row can be recorded, and the attempt is executing on the database clock.
   */
  lemma ExchangesExactlyWhen(tables: Tables, issued: set<Grant>, issuer: string, audience: string, g: Grant,
                             r: ExchangeRequest, digests: Digests, clock: DatabaseClock)
    ensures Exchange(tables, issued, issuer, audience, g, r, digests, clock).0.Success? <==>
            && g in issued && g.issuer == issuer && g.audience == audience && g.singleUse
            && g.notBefore <= r.now < g.expiresAt
            && r == ExchangeRequest(g.collectorId, g.taskId, g.targetId, g.recipeId, g.recipeVersion, g.fencingToken, r.now)
            && g.grantId !in tables.consumptions
            && (forall used :: used in tables.consumptions ==>
                                 tables.consumptions[used].consumption.nonceDigest != digests.nonce)
            && g.taskId in tables.tasks && Executes(tables.tasks[g.taskId].task, g, clock.checkedAt)
            && RowComplete(ConsumptionRow(ConsumptionOf(g, digests, r.now), clock.consumedAt))
  {
    var c := ConsumptionOf(g, digests, r.now);
    if g.taskId in tables.tasks && tables.tasks[g.taskId].task.authority.tenantId == g.tenantId {
      LedgerTakesCompleteRows(tables, c, clock.consumedAt);
    }
    assert NonceUsed(tables.consumptions, digests.nonce) <==>
           !forall used :: used in tables.consumptions ==> tables.consumptions[used].consumption.nonceDigest != digests.nonce;
  }

  /** A grant is exchanged at most once, whoever presents it and whenever. */
  lemma ExchangedOnce(tables: Tables, issued: set<Grant>, issuer: string, audience: string, g: Grant,
                      r: ExchangeRequest, digests: Digests, clock: DatabaseClock)
    requires g.grantId in tables.consumptions
    ensures Exchange(tables, issued, issuer, audience, g, r, digests, clock).0.Failure?
    ensures Exchange(tables, issued, issuer, audience, g, r, digests, clock).1 == tables
  {
  }

  /**
   A credential names exactly what was granted and requested, so the worker's own comparison of the two
   never fails, and it was issued to the collector that the row shows executing.
   */
  lemma CredentialIsBound(tables: Tables, issued: set<Grant>, issuer: string, audience: string, g: Grant,
                          r: ExchangeRequest, digests: Digests, clock: DatabaseClock)
    requires Exchange(tables, issued, issuer, audience, g, r, digests, clock).0.Success?
    ensures var c := Exchange(tables, issued, issuer, audience, g, r, digests, clock).0.value;
            && g in issued && c.grantId == g.grantId && c.targetId == r.targetId && c.recipeId == r.recipeId
            && c.recipeVersion == r.recipeVersion && c.fencingToken == r.fencingToken && c.collectorId == r.presentingId
            && g.notBefore <= r.now < c.expiresAt
            && r.taskId in tables.tasks
            && var t := tables.tasks[r.taskId].task;
               && t.state.Executing? && t.leaseOwner == c.collectorId && t.executionGrantId == c.grantId
               && t.fencingToken == c.fencingToken && t.authority.targetId == c.targetId
               && t.authority.recipeId == c.recipeId && clock.checkedAt < t.leaseExpiry
  {
    var c := ConsumptionOf(g, digests, r.now);
    assert LockAndValidate(tables, c, clock.checkedAt).Pass?;
  }

  // ----- The in-memory ledger

  class MemoryLedger {
    var byGrant: map<string, ConsumptionRow>
    var byNonce: map<string, string>

    /** The two indexes describe one ledger. */
    ghost predicate Valid()
      reads this
    {
      && LedgerOk(byGrant)
      && (forall g :: g in byGrant ==>
                        byGrant[g].consumption.nonceDigest in byNonce && byNonce[byGrant[g].consumption.nonceDigest] == g)
      && (forall n :: n in byNonce ==> byNonce[n] in byGrant && byGrant[byNonce[n]].consumption.nonceDigest == n)
    }

    constructor ()
      ensures Valid() && byGrant == map[]
    {
      byGrant := map[];
      byNonce := map[];
    }

    method ConsumeContext(c: Consumption) returns (r: Result<ConsumptionRow, GrantError>)
      requires Valid()
      modifies this
      ensures Valid()
      ensures r.Success? <==>
              && ValidConsumption(c) && c.grantId !in old(byGrant) && !NonceUsed(old(byGrant), c.nonceDigest)
              && c.requestedAt < c.grantExpiresAt
      ensures r.Success? ==>
                && r.value == ConsumptionRow(c, c.requestedAt)
                && byGrant == old(byGrant)[c.grantId := r.value]
      ensures r.Failure? ==> byGrant == old(byGrant) && byNonce == old(byNonce)
    {
      if !ValidConsumption(c) {
        return Failure(Incomplete);
      }
      if c.grantId in byGrant {
        return Failure(AlreadyConsumed);
      }
      if c.nonceDigest in byNonce {
        return Failure(AlreadyConsumed);
      }
      if c.requestedAt >= c.grantExpiresAt {
        return Failure(NotCurrent);
      }
      var row := ConsumptionRow(c, c.requestedAt);
      byGrant := byGrant[c.grantId := row];
      byNonce := byNonce[c.nonceDigest := c.grantId];
      return Success(row);
    }
  }
}
