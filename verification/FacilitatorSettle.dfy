/**
 * The scheduler as the mutable object it is in the service, the ledger-skew retry loop around it, and
 * the facilitator's routing of a settlement to a signer.
 */
module FacilitatorSettle {
  import opened Options
  import S = SignerPool

  class SettleScheduler {
    var idle: seq<S.Address>
    var busy: set<S.Address>
    var quarantined: set<S.Address>
    var waiters: seq<S.Waiter>
    var leases: map<S.RequestId, S.Address>
    var totalQueued: nat
    var totalRejected: nat

    constructor (addresses: seq<S.Address>)
      ensures S.Distinct(addresses) && "" !in addresses ==> S.Valid(Abs())
      ensures Abs() == S.Pool(addresses, {}, {}, [], map[]) && totalQueued == 0 && totalRejected == 0
    {
      idle, busy, quarantined, waiters, leases := addresses, {}, {}, [], map[];
      totalQueued, totalRejected := 0, 0;
    }

    function Abs(): S.Pool
      reads this
    {
      S.Pool(idle, busy, quarantined, waiters, leases)
    }

    method TakeIdle(preferred: S.Address) returns (taken: Option<S.Address>)
      modifies this`idle
      ensures (taken, idle) == S.TakeIdle(old(idle), preferred)
    {
      var index := if preferred != "" then S.IndexOf(idle, preferred) else 0;
      if index < 0 || index >= |idle| { return None; }
      taken := Some(idle[index]);
      idle := idle[..index] + idle[index + 1..];
    }

    /** Serves waiters until none is left or none can use an idle signer. */
    method ProcessQueue()
      modifies this`idle, this`busy, this`waiters, this`leases
      ensures Abs() == S.Drain(old(Abs()))
    {
      while |idle| > 0 && |waiters| > 0
        invariant S.Drain(Abs()) == S.Drain(old(Abs()))
        invariant quarantined == old(quarantined)
        decreases |waiters|
      {
        var index := S.FirstEligible(waiters, idle);
        if index < 0 { return; }
        var waiter := waiters[index];
        waiters := waiters[..index] + waiters[index + 1..];
        var address := TakeIdle(waiter.preferred);
        if address.None? || address.value == "" { return; }
        busy := busy + {address.value};
        leases := leases[waiter.id := address.value];
      }
    }

    /** Leases a signer, queues the request, or refuses it. */
    method Acquire(id: S.RequestId, preferred: S.Address) returns (r: S.Acquired)
      modifies this
      ensures (Abs(), r) == S.Acquire(old(Abs()), id, preferred)
      ensures totalQueued == old(totalQueued) + (if r.Queued? then 1 else 0) && totalRejected == old(totalRejected)
    {
      if |idle| + |busy| + |quarantined| == 0 { return S.NoSigners; }
      if preferred != "" && preferred in quarantined { return S.SignerQuarantined; }
      if preferred != "" && preferred !in idle && preferred !in busy { return S.NotConfigured; }
      var selected := TakeIdle(preferred);
      if selected.Some? {
        busy := busy + {selected.value};
        leases := leases[id := selected.value];
        return S.Leased(selected.value);
      }
      totalQueued := totalQueued + 1;
      waiters := waiters + [S.Waiter(id, preferred)];
      return S.Queued;
    }

    /** The rest of withSigner once the operation has ended: quarantine if asked, then release. */
    method FinishOperation(id: S.RequestId, quarantine: bool)
      requires id in leases
      modifies this
      ensures Abs() == S.Finish(old(Abs()), id, quarantine)
      ensures totalQueued == old(totalQueued) && totalRejected == old(totalRejected)
    {
      var address := leases[id];
      if quarantine { quarantined := quarantined + {address}; }
      leases := leases - {id};
      busy := busy - {address};
      if !quarantine { idle := idle + [address]; }
      ProcessQueue();
    }

    /** The queue timer of a waiter fires. */
    method ExpireWaiter(id: S.RequestId)
      modifies this
      ensures Abs() == S.Timeout(old(Abs()), id)
      ensures totalQueued == old(totalQueued) && totalRejected == old(totalRejected) + 1
    {
      var index := S.WaiterIndex(waiters, id);
      if index != -1 { waiters := waiters[..index] + waiters[index + 1..]; }
      totalRejected := totalRejected + 1;
    }

    method RecoverSigner(address: S.Address) returns (recovered: bool)
      modifies this
      ensures Abs() == S.Recover(old(Abs()), address) && recovered == (address in old(quarantined))
      ensures totalQueued == old(totalQueued) && totalRejected == old(totalRejected)
    {
      if address !in quarantined { return false; }
      quarantined := quarantined - {address};
      if address !in idle && address !in busy { idle := idle + [address]; }
      ProcessQueue();
      return true;
    }

    /** False when it throws because settlements are in flight. */
    method SetSigners(addresses: seq<S.Address>) returns (changed: bool)
      modifies this
      ensures changed == S.SetSigners(old(Abs()), addresses).Some?
      ensures Abs() == if changed then S.SetSigners(old(Abs()), addresses).value else old(Abs())
      ensures totalQueued == old(totalQueued) && totalRejected == old(totalRejected)
    {
      if busy != {} { return false; }
      quarantined := set a | a in quarantined && a in addresses;
      idle := S.Without(addresses, quarantined);
      return true;
    }
  }

  // ---- Results of a settlement ----

  /** Absent transaction hashes and reasons are empty strings. */
  datatype SettleResponse = SettleResponse(success: bool, transaction: string, errorReason: string)

  const LEDGER_SKEW_REASON := "invalid_exact_stellar_signature_expiration_too_far"

  /** A failure that carries a hash may have reached the ledger: its signer is quarantined. */
  predicate Uncertain(r: SettleResponse) { !r.success && r.transaction != "" }

  function SettleRetryReason(r: SettleResponse): Option<string> {
    if r.success then None
    else if r.transaction != "" then None
    else Some(r.errorReason)
  }

  predicate Retryable(r: SettleResponse) { SettleRetryReason(r) == Some(LEDGER_SKEW_REASON) }

  /** A result is retried exactly if it is the skew rejection: failed, no transaction hash, that reason. */
  lemma RetriedExactly(r: SettleResponse)
    ensures Retryable(r) <==> SkewRejection(r)
    ensures SkewRejection(r) ==> !Uncertain(r)
  {
  }

  /** Which attempt a request stops at, when attempt i of the operation yields results(i). */
  ghost predicate StopsAt(results: nat -> SettleResponse, retries: int, last: nat) {
    && (forall i: nat :: i < last ==> Retryable(results(i)))
    && last <= (if retries < 0 then 0 else retries)
    && (last < retries ==> !Retryable(results(last)))
  }

  /** Runs the operation until its result must stand or the retries are used up. */
  method WithLedgerSkewRetry(operation: nat -> SettleResponse, retries: int) returns (result: SettleResponse, attempts: nat)
    ensures attempts > 0 && StopsAt(operation, retries, attempts - 1) && result == operation(attempts - 1)
    ensures attempts <= (if retries < 0 then 0 else retries) + 1
    ensures forall i: nat :: i < attempts - 1 ==> SkewRejection(operation(i)) && !Uncertain(operation(i))
    ensures attempts <= retries ==> !SkewRejection(result)
  {
    result := operation(0);
    attempts := 1;
    for attempt := 1 to (if retries < 0 then 0 else retries) + 1
      invariant attempts == attempt && result == operation(attempts - 1)
      invariant forall i: nat :: i < attempts - 1 ==> Retryable(operation(i))
    {
      if !Retryable(result) {
        OnlyLastAttemptCounts(operation, retries, attempts - 1, attempts - 1);
        RetriedExactly(result);
        return;
      }
      result := operation(attempts);
      attempts := attempts + 1;
    }
    OnlyLastAttemptCounts(operation, retries, attempts - 1, attempts - 1);
  }

  /** A failure with the skew reason that never got a transaction hash. */
  predicate SkewRejection(r: SettleResponse) { !r.success && r.transaction == "" && r.errorReason == LEDGER_SKEW_REASON }

  /**
   * Where a request stops is unique, and only its last attempt can have reached the network: every
   * earlier one failed with the skew reason and without a hash, so it neither settled nor quarantined.
   */
  lemma OnlyLastAttemptCounts(results: nat -> SettleResponse, retries: int, last: nat, other: nat)
    requires StopsAt(results, retries, last)
    ensures StopsAt(results, retries, other) ==> other == last
    ensures forall i: nat :: i < last ==> SkewRejection(results(i)) && !Uncertain(results(i))
  {
    forall i: nat | i < last ensures SkewRejection(results(i)) { assert Retryable(results(i)); }
  }

  /**
   * An attempt that fails with a hash parks its signer until it is recovered or dropped, whatever else
   * happens; any other attempt leaves its signer in service.
   */
  lemma AttemptParksSigner(p: S.Pool, id: S.RequestId, result: SettleResponse, ops: seq<S.Op>)
    requires S.Valid(p) && id in p.leases
    ensures var a := p.leases[id];
            var q := S.Finish(p, id, Uncertain(result));
            && S.Valid(q) && S.Configured(q) == S.Configured(p)
            && (a in q.quarantined <==> !result.success && result.transaction != "")
            && (Uncertain(result) && (forall op :: op in ops ==> S.KeepsParked(op, a)) ==>
                  forall r :: r in S.Run(q, ops).leases ==> S.Run(q, ops).leases[r] != a)
  {
    S.FinishKeeps(p, id, Uncertain(result));
    assert p.leases[id] in p.leases.Values;
    if Uncertain(result) && forall op :: op in ops ==> S.KeepsParked(op, p.leases[id]) {
      S.UncertainSignerUnused(p, id, ops);
    }
  }

  // ---- Routing ----

  datatype Route = RunOn(preferred: S.Address) | Refuse(reason: string)

  /** A missing scheme in the requirements falls back to the one the payload accepted. */
  function SettleRoute(required: string, accepted: string, uptoConfigured: bool, authorized: S.Address, signers: set<S.Address>): Route {
    var scheme := if required != "" then required else accepted;
    if scheme == "exact" then RunOn("")
    else if scheme == "upto" then
      if !uptoConfigured then Refuse("upto_scheme_not_configured")
      else RunOn(if authorized != "" && authorized in signers then authorized else "")
    else Refuse("unsupported_scheme")
  }

  /** The scheme that counts: the one of the requirements, or the accepted one if they name none. */
  function EffectiveScheme(required: string, accepted: string): string { if required != "" then required else accepted }

  /**
   * Where a settlement goes. It reaches the scheduler exactly if its scheme is `exact`, or `upto` with
   * that scheme configured; a preference is passed on exactly if an `upto` payload names one of the
   * signers; every refusal names its cause.
   */
  lemma RouteExactly(required: string, accepted: string, uptoConfigured: bool, authorized: S.Address, signers: set<S.Address>)
    ensures var scheme := EffectiveScheme(required, accepted);
            var route := SettleRoute(required, accepted, uptoConfigured, authorized, signers);
            && (route.RunOn? <==> scheme == "exact" || (scheme == "upto" && uptoConfigured))
            && (route.RunOn? && route.preferred != "" <==>
                  scheme == "upto" && uptoConfigured && authorized != "" && authorized in signers)
            && (route.RunOn? && route.preferred != "" ==> route.preferred == authorized)
            && (route == Refuse("upto_scheme_not_configured") <==> scheme == "upto" && !uptoConfigured)
            && (route == Refuse("unsupported_scheme") <==> scheme != "exact" && scheme != "upto")
            && (route.Refuse? ==> route.reason in {"upto_scheme_not_configured", "unsupported_scheme"})
            && (required != "" ==> forall other :: route == SettleRoute(required, other, uptoConfigured, authorized, signers))
            && (required == "" ==> route == SettleRoute(accepted, "", uptoConfigured, authorized, signers))
  {
    assert "exact"[0] != "upto"[0];
    assert |"unsupported_scheme"| != |"upto_scheme_not_configured"|;
  }

  /** An `exact` settlement is leased a signer at once whenever one is idle, the one that has been idle longest. */
  lemma ExactRunsOnAnySigner(required: string, accepted: string, uptoConfigured: bool, authorized: S.Address, signers: set<S.Address>,
                             p: S.Pool, id: S.RequestId)
    requires S.Valid(p) && S.Fresh(p, id) && EffectiveScheme(required, accepted) == "exact"
    ensures var route := SettleRoute(required, accepted, uptoConfigured, authorized, signers);
            && route.RunOn?
            && (p.idle != [] ==> S.Acquire(p, id, route.preferred).1 == S.Leased(p.idle[0]))
  {
    RouteExactly(required, accepted, uptoConfigured, authorized, signers);
    assert "exact"[0] != "upto"[0];
    S.AcquireOutcome(p, id, "");
    if p.idle != [] { S.TakesOldest(p, id, ""); }
  }

  /**
   * An `upto` settlement whose authorized facilitator is one of the signers is only ever leased that
   * signer, whether at once or from the queue.
   */
  lemma UptoRunsOnItsFacilitator(accepted: string, authorized: S.Address, signers: set<S.Address>, p: S.Pool, id: S.RequestId)
    requires S.Valid(p) && S.Fresh(p, id) && authorized != "" && authorized in signers
    ensures SettleRoute("upto", accepted, true, authorized, signers) == RunOn(authorized)
    ensures S.Acquire(p, id, authorized).1.Leased? ==> S.Acquire(p, id, authorized).1.address == authorized
    ensures forall q: S.Pool, g: nat ::
              S.Consistent(q) && g < |S.Grants(q.idle, q.waiters)| && S.Grants(q.idle, q.waiters)[g].0 == S.Waiter(id, authorized)
              ==> S.Grants(q.idle, q.waiters)[g].1 == authorized
  {
    S.AcquireKeeps(p, id, authorized);
    forall q: S.Pool, g: nat |
      S.Consistent(q) && g < |S.Grants(q.idle, q.waiters)| && S.Grants(q.idle, q.waiters)[g].0 == S.Waiter(id, authorized)
      ensures S.Grants(q.idle, q.waiters)[g].1 == authorized
    {
      S.GrantsRespectPreference(q.idle, q.waiters, g);
    }
  }
}
