/**
 * The gateway's payment path as interleaved steps of its requests. Each step is the code between two
 * awaits; the settlement promise of a payment is shared by everyone who asks for it while it is pending.
 */
module GatewaySettlement {
  import opened Options

  type RequestId = nat
  type PaymentId = string

  /** How a facilitator's settle call ends: settled, refused, or thrown. */
  datatype Outcome = Succeeded | Refused | Threw

  /** Where a request is; `Waiting` names the settle call whose promise it awaits. */
  datatype Phase = Looking | Verifying | Verified | Waiting(call: nat) | Recording | Paid | Ended

  datatype Request = Request(payment: PaymentId, phase: Phase)

  /** A settle call made to the facilitator, with its outcome once it has one. */
  datatype Call = Call(payment: PaymentId, outcome: Option<Outcome>)

  datatype Gateway = Gateway(
    requests: map<RequestId, Request>,
    active: int,
    inFlight: map<PaymentId, nat>,
    calls: seq<Call>,
    recorded: set<PaymentId>,
    forwarded: seq<PaymentId>)

  datatype Step =
    | Arrive(id: RequestId, payment: PaymentId)
    | Lookup(id: RequestId)                    // findSettlement returned
    | VerificationEnded(id: RequestId, valid: bool)
    | Settle(id: RequestId)                    // settleOnce
    | SettleEnded(call: nat, outcome: Outcome) // the call's promise is settled, `finally` clears the entry
    | Resume(id: RequestId)                    // the awaiting request continues
    | Record(id: RequestId)                    // the settled event is stored
    | Forward(id: RequestId)                   // the upstream request is made
    | Abort(id: RequestId)                     // an error or a refusal anywhere on the way
    | Leave(id: RequestId)                     // the middleware's `finally`

  predicate At(g: Gateway, id: RequestId, phase: Phase) { id in g.requests && g.requests[id].phase == phase }

  function Move(g: Gateway, id: RequestId, phase: Phase): Gateway
    requires id in g.requests
  {
    g.(requests := g.requests[id := g.requests[id].(phase := phase)])
  }

  /** settleOnce: join the pending call of this payment, or start one. */
  function SettleOnce(g: Gateway, id: RequestId): Gateway
    requires id in g.requests
  {
    var p := g.requests[id].payment;
    if p in g.inFlight then Move(g, id, Waiting(g.inFlight[p]))
    else Move(g, id, Waiting(|g.calls|)).(calls := g.calls + [Call(p, None)], inFlight := g.inFlight[p := |g.calls|])
  }

  /** A step that does not fit the state changes nothing. */
  function Next(limit: int, g: Gateway, s: Step): Gateway {
    match s
    case Arrive(id, payment) =>
      if id in g.requests || g.active >= limit then g
      else g.(active := g.active + 1, requests := g.requests[id := Request(payment, Looking)])
    case Lookup(id) =>
      if At(g, id, Looking) then Move(g, id, if g.requests[id].payment in g.recorded then Paid else Verifying) else g
    case VerificationEnded(id, valid) =>
      if At(g, id, Verifying) then Move(g, id, if valid then Verified else Ended) else g
    case Settle(id) => if At(g, id, Verified) then SettleOnce(g, id) else g
    case SettleEnded(call, outcome) =>
      if call < |g.calls| && g.calls[call].outcome.None? then
        g.(calls := g.calls[call := g.calls[call].(outcome := Some(outcome))], inFlight := g.inFlight - {g.calls[call].payment})
      else g
    case Resume(id) =>
      if id in g.requests && g.requests[id].phase.Waiting? && g.requests[id].phase.call < |g.calls|
         && g.calls[g.requests[id].phase.call].outcome.Some?
      then Move(g, id, if g.calls[g.requests[id].phase.call].outcome.value.Succeeded? then Recording else Ended)
      else g
    case Record(id) => if At(g, id, Recording) then Move(g, id, Paid).(recorded := g.recorded + {g.requests[id].payment}) else g
    case Forward(id) => if At(g, id, Paid) then Move(g, id, Ended).(forwarded := g.forwarded + [g.requests[id].payment]) else g
    case Abort(id) => if id in g.requests then Move(g, id, Ended) else g
    case Leave(id) => if At(g, id, Ended) then g.(requests := g.requests - {id}, active := g.active - 1) else g
  }

  function Run(limit: int, g: Gateway, steps: seq<Step>): Gateway
    decreases |steps|
  {
    if steps == [] then g else Run(limit, Next(limit, g, steps[0]), steps[1..])
  }

  function Start(recorded: set<PaymentId>): Gateway { Gateway(map[], 0, map[], [], recorded, []) }

  /** The process: the counter and the tables its handlers change between two awaits. */
  class Process {
    const maxConcurrentRequests: int
    var requests: map<RequestId, Request>
    var activeRequests: int
    var inFlightSettlements: map<PaymentId, nat>
    var calls: seq<Call>
    var recorded: set<PaymentId>
    var forwarded: seq<PaymentId>

    constructor (maxConcurrentRequests: int, recorded: set<PaymentId>)
      ensures this.maxConcurrentRequests == maxConcurrentRequests && Abs() == Start(recorded)
    {
      this.maxConcurrentRequests, this.recorded := maxConcurrentRequests, recorded;
      requests, activeRequests, inFlightSettlements, calls, forwarded := map[], 0, map[], [], [];
    }

    function Abs(): Gateway
      reads this
    {
      Gateway(requests, activeRequests, inFlightSettlements, calls, recorded, forwarded)
    }

    /** The middleware up to `next()`; false is the 429 answer. */
    method Enter(id: RequestId, payment: PaymentId) returns (admitted: bool)
      requires id !in requests
      modifies this
      ensures Abs() == Next(maxConcurrentRequests, old(Abs()), Arrive(id, payment))
      ensures admitted <==> old(activeRequests) < maxConcurrentRequests
    {
      if activeRequests >= maxConcurrentRequests { return false; }
      activeRequests := activeRequests + 1;
      requests := requests[id := Request(payment, Looking)];
      return true;
    }

    /** settleOnce: the index of the call whose promise the request awaits. */
    method SettleOnce(id: RequestId) returns (call: nat)
      requires At(Abs(), id, Verified)
      modifies this
      ensures Abs() == Next(maxConcurrentRequests, old(Abs()), Settle(id)) && At(Abs(), id, Waiting(call))
      ensures old(requests[id].payment in inFlightSettlements) ==> calls == old(calls)
    {
      var payment := requests[id].payment;
      if payment in inFlightSettlements {
        call := inFlightSettlements[payment];
      } else {
        call := |calls|;
        calls := calls + [Call(payment, None)];
        inFlightSettlements := inFlightSettlements[payment := call];
      }
      requests := requests[id := requests[id].(phase := Waiting(call))];
    }

    /** The facilitator's answer arrives; `finally` deletes the pending entry. */
    method SettlementEnded(call: nat, outcome: Outcome)
      requires call < |calls| && calls[call].outcome.None?
      modifies this
      ensures Abs() == Next(maxConcurrentRequests, old(Abs()), SettleEnded(call, outcome))
    {
      inFlightSettlements := inFlightSettlements - {calls[call].payment};
      calls := calls[call := calls[call].(outcome := Some(outcome))];
    }

    /** The middleware's `finally`. */
    method Exit(id: RequestId)
      requires At(Abs(), id, Ended)
      modifies this
      ensures Abs() == Next(maxConcurrentRequests, old(Abs()), Leave(id))
    {
      activeRequests := activeRequests - 1;
      requests := requests - {id};
    }
  }

  /** The payment was settled by a call of this run, or before it. */
  ghost predicate WasSettled(g: Gateway, before: set<PaymentId>, p: PaymentId) {
    p in before || exists c :: 0 <= c < |g.calls| && g.calls[c] == Call(p, Some(Succeeded))
  }

  /** The table of pending promises holds exactly the calls without an outcome. */
  ghost predicate SingleFlight(g: Gateway) {
    && (forall p :: p in g.inFlight ==> g.inFlight[p] < |g.calls| && g.calls[g.inFlight[p]] == Call(p, None))
    && (forall c :: 0 <= c < |g.calls| && g.calls[c].outcome.None? ==>
          g.calls[c].payment in g.inFlight && g.inFlight[g.calls[c].payment] == c)
  }

  /** A payment's calls follow one another. */
  ghost predicate Sequential(g: Gateway) {
    forall c, d :: 0 <= c < d < |g.calls| && g.calls[c].payment == g.calls[d].payment ==> g.calls[c].outcome.Some?
  }

  /** Requests wait for calls of their own payment, and are past settlement only if it succeeded. */
  ghost predicate PhasesBacked(g: Gateway, before: set<PaymentId>) {
    forall id :: id in g.requests ==>
      && (g.requests[id].phase.Waiting? ==>
            g.requests[id].phase.call < |g.calls| && g.calls[g.requests[id].phase.call].payment == g.requests[id].payment)
      && (g.requests[id].phase.Recording? || g.requests[id].phase.Paid? ==> WasSettled(g, before, g.requests[id].payment))
  }

  ghost predicate Inv(limit: int, g: Gateway, before: set<PaymentId>) {
    && SingleFlight(g) && Sequential(g) && PhasesBacked(g, before)
    && (forall p :: p in g.recorded ==> WasSettled(g, before, p))
    && (forall i :: 0 <= i < |g.forwarded| ==> WasSettled(g, before, g.forwarded[i]))
    && g.active == |g.requests| && (limit >= 0 ==> g.active <= limit)
  }

  /** Outcomes are written once. */
  ghost predicate CallsGrow(g: Gateway, h: Gateway) {
    |g.calls| <= |h.calls| && forall c :: 0 <= c < |g.calls| ==>
      h.calls[c].payment == g.calls[c].payment && (g.calls[c].outcome.Some? ==> h.calls[c] == g.calls[c])
  }

  lemma StillSettled(g: Gateway, h: Gateway, before: set<PaymentId>, p: PaymentId)
    requires CallsGrow(g, h) && WasSettled(g, before, p)
    ensures WasSettled(h, before, p)
  {
    if p !in before {
      var c :| 0 <= c < |g.calls| && g.calls[c] == Call(p, Some(Succeeded));
      assert h.calls[c] == g.calls[c];
    }
  }

  lemma NextGrows(limit: int, g: Gateway, s: Step)
    ensures CallsGrow(g, Next(limit, g, s))
  {
  }

  lemma NextSingleFlight(limit: int, g: Gateway, s: Step)
    requires SingleFlight(g)
    ensures SingleFlight(Next(limit, g, s))
  {
  }

  lemma NextSequential(limit: int, g: Gateway, s: Step)
    requires SingleFlight(g) && Sequential(g)
    ensures Sequential(Next(limit, g, s))
  {
    var h := Next(limit, g, s);
    NextGrows(limit, g, s);
    forall c, d | 0 <= c < d < |h.calls| && h.calls[c].payment == h.calls[d].payment ensures h.calls[c].outcome.Some? {
      assert g.calls[c].payment == h.calls[c].payment;
      if d < |g.calls| { assert g.calls[d].payment == h.calls[d].payment; }
    }
  }

  lemma NextPhases(limit: int, g: Gateway, before: set<PaymentId>, s: Step)
    requires Inv(limit, g, before)
    ensures PhasesBacked(Next(limit, g, s), before)
  {
    var h := Next(limit, g, s);
    NextGrows(limit, g, s);
    forall id | id in h.requests && (h.requests[id].phase.Recording? || h.requests[id].phase.Paid?)
      ensures WasSettled(h, before, h.requests[id].payment)
    {
      PassedSettlement(limit, g, before, s, id);
      StillSettled(g, h, before, h.requests[id].payment);
    }
  }

  /** Whoever is past settlement after a step had its payment settled before the step. */
  lemma PassedSettlement(limit: int, g: Gateway, before: set<PaymentId>, s: Step, id: RequestId)
    requires Inv(limit, g, before)
    requires var h := Next(limit, g, s); id in h.requests && (h.requests[id].phase.Recording? || h.requests[id].phase.Paid?)
    ensures id in g.requests && Next(limit, g, s).requests[id].payment == g.requests[id].payment
    ensures WasSettled(g, before, g.requests[id].payment)
  {
    var r := g.requests[id];
    if r.phase.Waiting? {
      assert g.calls[r.phase.call] == Call(r.payment, Some(Succeeded));
    }
  }

  lemma NextKeeps(limit: int, g: Gateway, before: set<PaymentId>, s: Step)
    requires Inv(limit, g, before)
    ensures Inv(limit, Next(limit, g, s), before)
  {
    var h := Next(limit, g, s);
    NextGrows(limit, g, s);
    NextSingleFlight(limit, g, s);
    NextSequential(limit, g, s);
    NextPhases(limit, g, before, s);
    forall p | WasSettled(g, before, p) ensures WasSettled(h, before, p) { StillSettled(g, h, before, p); }
    RequestCount(limit, g, s);
  }

  /** The counter moves with the set of requests that are inside the middleware. */
  lemma CounterMoves(limit: int, g: Gateway, s: Step)
    ensures var h := Next(limit, g, s);
            || (h.active == g.active && h.requests.Keys == g.requests.Keys)
            || (s.Arrive? && g.active < limit && s.id !in g.requests
                && h.active == g.active + 1 && h.requests.Keys == g.requests.Keys + {s.id})
            || (s.Leave? && s.id in g.requests && h.active == g.active - 1 && h.requests.Keys == g.requests.Keys - {s.id})
  {
    var h := Next(limit, g, s);
    if !s.Arrive? && !s.Leave? {
      assert forall id :: id in h.requests <==> id in g.requests;
    }
  }

  lemma RequestCount(limit: int, g: Gateway, s: Step)
    requires g.active == |g.requests| && (limit >= 0 ==> g.active <= limit)
    ensures var h := Next(limit, g, s); h.active == |h.requests| && (limit >= 0 ==> h.active <= limit)
  {
    var h := Next(limit, g, s);
    CounterMoves(limit, g, s);
    KeysCounted(g.requests);
    KeysCounted(h.requests);
  }

  lemma KeysCounted<K, V>(m: map<K, V>)
    ensures |m| == |m.Keys|
  {
  }

  lemma {:induction false} RunKeeps(limit: int, g: Gateway, before: set<PaymentId>, steps: seq<Step>)
    requires Inv(limit, g, before)
    ensures Inv(limit, Run(limit, g, steps), before) && CallsGrow(g, Run(limit, g, steps))
    decreases |steps|
  {
    if steps != [] {
      NextKeeps(limit, g, before, steps[0]);
      NextGrows(limit, g, steps[0]);
      RunKeeps(limit, Next(limit, g, steps[0]), before, steps[1..]);
    }
  }

  /**
   * Under any interleaving: a payment has at most one settle call without an outcome; nothing goes
   * upstream without a successful settlement of that payment; active requests are counted exactly and
   * stay within the limit.
   */
  lemma GatewaySafety(limit: int, before: set<PaymentId>, steps: seq<Step>)
    requires limit >= 0
    ensures var g := Run(limit, Start(before), steps);
            && (forall c, d :: 0 <= c < d < |g.calls| && g.calls[c].payment == g.calls[d].payment ==>
                  g.calls[c].outcome.Some? || g.calls[d].outcome.Some?)
            && (forall i :: 0 <= i < |g.forwarded| ==> WasSettled(g, before, g.forwarded[i]))
            && g.active == |g.requests| <= limit
  {
    RunKeeps(limit, Start(before), before, steps);
  }

  /**
   * Everyone who joined a call sees its one outcome: once a call has ended, a request that waits for it
   * goes on to record the payment if the call succeeded and ends otherwise, whatever happened in between.
   */
  lemma JoinersSeeOneOutcome(limit: int, g: Gateway, before: set<PaymentId>, steps: seq<Step>, id: RequestId)
    requires Inv(limit, g, before)
    requires id in g.requests && g.requests[id].phase.Waiting? && g.calls[g.requests[id].phase.call].outcome.Some?
    ensures var c, h := g.requests[id].phase.call, Run(limit, g, steps);
            && c < |h.calls| && h.calls[c] == g.calls[c] && h.calls[c].payment == g.requests[id].payment
            && (id in h.requests && h.requests[id].phase == Waiting(c) ==>
                  Next(limit, h, Resume(id)) == Move(h, id, if g.calls[c].outcome.value.Succeeded? then Recording else Ended))
  {
    RunKeeps(limit, g, before, steps);
  }

  /** While a payment's call is pending, whoever reaches settleOnce joins that call; otherwise a new call starts. */
  lemma PendingIsJoined(limit: int, g: Gateway, before: set<PaymentId>, id: RequestId)
    requires Inv(limit, g, before) && At(g, id, Verified)
    ensures var h := Next(limit, g, Settle(id));
            var pending := exists c :: 0 <= c < |g.calls| && g.calls[c] == Call(g.requests[id].payment, None);
            && h.requests[id].phase.Waiting? && h.requests[id].phase.call < |h.calls|
            && h.calls[h.requests[id].phase.call] == Call(g.requests[id].payment, None)
            && h.calls == if pending then g.calls else g.calls + [Call(g.requests[id].payment, None)]
  {
    var p := g.requests[id].payment;
    if p in g.inFlight { assert g.calls[g.inFlight[p]] == Call(p, None); }
  }

  // ---- When a settled payment is settled again ----

  ghost predicate Pending(g: Gateway, p: PaymentId) { exists c :: 0 <= c < |g.calls| && g.calls[c] == Call(p, None) }

  ghost predicate HasSucceeded(g: Gateway, p: PaymentId) {
    exists c :: 0 <= c < |g.calls| && g.calls[c] == Call(p, Some(Succeeded))
  }

  /** A settle call was made for the payment after one that succeeded. */
  ghost predicate SettledAgain(g: Gateway, p: PaymentId) {
    exists c, d :: 0 <= c < d < |g.calls| && g.calls[c] == Call(p, Some(Succeeded)) && g.calls[d].payment == p
  }

  /** A verified request gets to settleOnce when the payment has been settled and nothing is pending any more. */
  ghost predicate ComesLate(g: Gateway, s: Step, p: PaymentId) {
    s.Settle? && At(g, s.id, Verified) && g.requests[s.id].payment == p && !Pending(g, p) && HasSucceeded(g, p)
  }

  ghost predicate SomeoneComesLate(limit: int, g: Gateway, steps: seq<Step>, p: PaymentId) {
    exists k :: 0 <= k < |steps| && ComesLate(Run(limit, g, steps[..k]), steps[k], p)
  }

  lemma InFlightIsPending(g: Gateway, p: PaymentId)
    requires SingleFlight(g)
    ensures p in g.inFlight <==> Pending(g, p)
  {
    if p in g.inFlight { assert g.calls[g.inFlight[p]] == Call(p, None); }
  }

  lemma StaysSettledAgain(g: Gateway, h: Gateway, p: PaymentId)
    requires CallsGrow(g, h) && SettledAgain(g, p)
    ensures SettledAgain(h, p)
  {
    var c, d :| 0 <= c < d < |g.calls| && g.calls[c] == Call(p, Some(Succeeded)) && g.calls[d].payment == p;
    assert h.calls[c] == g.calls[c] && h.calls[d].payment == p;
  }

  /** The only step that settles a payment again is the late one. */
  lemma NextSettlesAgain(limit: int, g: Gateway, before: set<PaymentId>, s: Step, p: PaymentId)
    requires Inv(limit, g, before)
    ensures SettledAgain(Next(limit, g, s), p) <==> SettledAgain(g, p) || ComesLate(g, s, p)
  {
    var h := Next(limit, g, s);
    NextGrows(limit, g, s);
    InFlightIsPending(g, p);
    if SettledAgain(g, p) { StaysSettledAgain(g, h, p); }
    if ComesLate(g, s, p) {
      var c :| 0 <= c < |g.calls| && g.calls[c] == Call(p, Some(Succeeded));
      assert h.calls[c] == g.calls[c] && h.calls[|g.calls|].payment == p;
    }
    if SettledAgain(h, p) && !SettledAgain(g, p) {
      var c, d :| 0 <= c < d < |h.calls| && h.calls[c] == Call(p, Some(Succeeded)) && h.calls[d].payment == p;
      NewCallIsLate(limit, g, before, s, p, c, d);
    }
  }

  lemma NewCallIsLate(limit: int, g: Gateway, before: set<PaymentId>, s: Step, p: PaymentId, c: nat, d: nat)
    requires Inv(limit, g, before) && !SettledAgain(g, p)
    requires var h := Next(limit, g, s);
             c < d < |h.calls| && h.calls[c] == Call(p, Some(Succeeded)) && h.calls[d].payment == p
    ensures ComesLate(g, s, p)
  {
    NextGrows(limit, g, s);
    InFlightIsPending(g, p);
    assert c < |g.calls| && g.calls[c].payment == p;
    assert d == |g.calls|;
    assert g.calls[c] == Call(p, Some(Succeeded));
  }

  lemma {:induction false} RunSettlesAgain(limit: int, g: Gateway, before: set<PaymentId>, steps: seq<Step>, p: PaymentId)
    requires Inv(limit, g, before)
    ensures SettledAgain(Run(limit, g, steps), p) <==> SettledAgain(g, p) || SomeoneComesLate(limit, g, steps, p)
    decreases |steps|
  {
    if steps != [] {
      var h := Next(limit, g, steps[0]);
      NextKeeps(limit, g, before, steps[0]);
      NextSettlesAgain(limit, g, before, steps[0], p);
      RunSettlesAgain(limit, h, before, steps[1..], p);
      LateShift(limit, g, steps, p);
    }
  }

  lemma LateShift(limit: int, g: Gateway, steps: seq<Step>, p: PaymentId)
    requires steps != []
    ensures SomeoneComesLate(limit, g, steps, p)
            <==> ComesLate(g, steps[0], p) || SomeoneComesLate(limit, Next(limit, g, steps[0]), steps[1..], p)
  {
    var h, rest := Next(limit, g, steps[0]), steps[1..];
    forall k | 0 < k < |steps| ensures Run(limit, g, steps[..k]) == Run(limit, h, rest[..k - 1]) {
      assert steps[..k][1..] == rest[..k - 1];
    }
    assert Run(limit, g, steps[..0]) == g;
    if SomeoneComesLate(limit, h, rest, p) {
      var k :| 0 <= k < |rest| && ComesLate(Run(limit, h, rest[..k]), rest[k], p);
      assert steps[k + 1] == rest[k] && ComesLate(Run(limit, g, steps[..k + 1]), steps[k + 1], p);
    }
    if SomeoneComesLate(limit, g, steps, p) {
      var k :| 0 <= k < |steps| && ComesLate(Run(limit, g, steps[..k]), steps[k], p);
      if k > 0 { assert ComesLate(Run(limit, h, rest[..k - 1]), rest[k - 1], p); }
    }
  }

  /**
   * Over every run a payment is settled again exactly if some verified request reaches settleOnce after
   * a call of the payment succeeded and while none is pending.
   */
  lemma SettledTwiceExactly(limit: int, before: set<PaymentId>, steps: seq<Step>, p: PaymentId)
    ensures SettledAgain(Run(limit, Start(before), steps), p) <==> SomeoneComesLate(limit, Start(before), steps, p)
  {
    RunSettlesAgain(limit, Start(before), before, steps, p);
  }

  // ---- Lookups that rule it out ----

  /** The payment was looked up in vain and settleOnce has not been reached. */
  predicate Between(r: Request, p: PaymentId) { r.payment == p && (r.phase.Verifying? || r.phase.Verified?) }

  /**
   * The step breaks the discipline: a lookup of the payment comes back empty although a call has
   * succeeded, or a call succeeds while a request is between its lookup and settleOnce.
   */
  ghost predicate Overlaps(g: Gateway, s: Step, p: PaymentId) {
    || (s.Lookup? && At(g, s.id, Looking) && g.requests[s.id].payment == p && p !in g.recorded && HasSucceeded(g, p))
    || (s.SettleEnded? && s.call < |g.calls| && g.calls[s.call] == Call(p, None) && s.outcome.Succeeded?
        && exists id :: id in g.requests && Between(g.requests[id], p))
  }

  ghost predicate Disciplined(limit: int, g: Gateway, steps: seq<Step>, p: PaymentId) {
    forall k :: 0 <= k < |steps| ==> !Overlaps(Run(limit, g, steps[..k]), steps[k], p)
  }

  /** Once a call of the payment has succeeded, nobody is between lookup and settleOnce. */
  ghost predicate NobodyBetween(g: Gateway, p: PaymentId) {
    HasSucceeded(g, p) ==> forall id :: id in g.requests ==> !Between(g.requests[id], p)
  }

  lemma NextNobodyBetween(limit: int, g: Gateway, s: Step, p: PaymentId)
    requires NobodyBetween(g, p) && !Overlaps(g, s, p)
    ensures NobodyBetween(Next(limit, g, s), p) && !ComesLate(g, s, p)
  {
    var h := Next(limit, g, s);
    forall id | HasSucceeded(h, p) && id in h.requests ensures !Between(h.requests[id], p) {
      if !HasSucceeded(g, p) {
        var c :| 0 <= c < |h.calls| && h.calls[c] == Call(p, Some(Succeeded));
        assert s == SettleEnded(c, Succeeded) && g.calls[c] == Call(p, None);
      }
    }
  }

  lemma {:induction false} NobodyComesLate(limit: int, g: Gateway, steps: seq<Step>, p: PaymentId)
    requires NobodyBetween(g, p) && Disciplined(limit, g, steps, p)
    ensures !SomeoneComesLate(limit, g, steps, p)
    decreases |steps|
  {
    if steps != [] {
      var h, rest := Next(limit, g, steps[0]), steps[1..];
      assert Run(limit, g, steps[..0]) == g;
      NextNobodyBetween(limit, g, steps[0], p);
      forall k | 0 <= k < |rest| ensures !Overlaps(Run(limit, h, rest[..k]), rest[k], p) {
        assert steps[..k + 1][1..] == rest[..k] && rest[k] == steps[k + 1];
        assert Run(limit, g, steps[..k + 1]) == Run(limit, h, rest[..k]);
      }
      NobodyComesLate(limit, h, rest, p);
      LateShift(limit, g, steps, p);
    }
  }

  /**
   * A payment is settled at most once over a whole run if no request's empty lookup of it and settleOnce
   * have the success of a call between them, and no lookup comes back empty after that success.
   */
  lemma SettledOnceWhenDisciplined(limit: int, before: set<PaymentId>, steps: seq<Step>, p: PaymentId)
    requires Disciplined(limit, Start(before), steps, p)
    ensures !SettledAgain(Run(limit, Start(before), steps), p)
  {
    NobodyComesLate(limit, Start(before), steps, p);
    SettledTwiceExactly(limit, before, steps, p);
  }

  lemma RecordedIsNotSettledAgain(limit: int, g: Gateway, id: RequestId)
    requires At(g, id, Looking) && g.requests[id].payment in g.recorded
    ensures At(Next(limit, g, Lookup(id)), id, Paid)
    ensures Next(limit, Next(limit, g, Lookup(id)), Settle(id)).calls == g.calls
  {
  }

  lemma {:induction false} RunGrows(limit: int, g: Gateway, steps: seq<Step>)
    ensures CallsGrow(g, Run(limit, g, steps))
    decreases |steps|
  {
    if steps != [] {
      NextGrows(limit, g, steps[0]);
      RunGrows(limit, Next(limit, g, steps[0]), steps[1..]);
    }
  }

  /** No call of the payment was added. */
  ghost predicate SameCalls(g: Gateway, h: Gateway, p: PaymentId) {
    |g.calls| <= |h.calls| && forall c :: |g.calls| <= c < |h.calls| ==> h.calls[c].payment != p
  }

  /** Once a payment is recorded and nobody is past an empty lookup of it, it is never settled again, whatever follows. */
  lemma {:induction false} RecordedStaysSettled(limit: int, g: Gateway, steps: seq<Step>, p: PaymentId)
    requires p in g.recorded && forall id :: id in g.requests ==> !Between(g.requests[id], p)
    ensures SameCalls(g, Run(limit, g, steps), p)
    decreases |steps|
  {
    if steps != [] {
      var s, h := steps[0], Next(limit, g, steps[0]);
      if s.Lookup? && At(g, s.id, Looking) && g.requests[s.id].payment == p { RecordedIsNotSettledAgain(limit, g, s.id); }
      forall id | id in h.requests ensures !Between(h.requests[id], p) {
        if id in g.requests { assert !Between(g.requests[id], p); }
      }
      assert SameCalls(g, h, p);
      RecordedStaysSettled(limit, h, steps[1..], p);
      RunGrows(limit, h, steps[1..]);
    }
  }

  /**
   * A concrete run in which it happens: two requests that both looked it up before it was
   * recorded each make a call if the first call ends before the second request gets to settleOnce.
   */
  lemma SettledTwiceOverTime(p: PaymentId)
    ensures exists steps :: Run(2, Start({}), steps).calls == [Call(p, Some(Succeeded)), Call(p, None)]
  {
    var first := [Arrive(0, p), Arrive(1, p), Lookup(0), Lookup(1), VerificationEnded(0, true), VerificationEnded(1, true)];
    var second := [Settle(0), SettleEnded(0, Succeeded), Settle(1)];
    BothVerified(p);
    BothSettle(p);
    RunAppend(2, Start({}), first, second);
    assert Run(2, Start({}), first + second).calls == [Call(p, Some(Succeeded)), Call(p, None)];
  }

  function TwoRequests(p: PaymentId, phase0: Phase, phase1: Phase): Gateway {
    Gateway(map[0 := Request(p, phase0), 1 := Request(p, phase1)], 2, map[], [], {}, [])
  }

  lemma BothVerified(p: PaymentId)
    ensures Run(2, Start({}), [Arrive(0, p), Arrive(1, p), Lookup(0), Lookup(1), VerificationEnded(0, true), VerificationEnded(1, true)])
            == TwoRequests(p, Verified, Verified)
  {
    var g1 := Next(2, Start({}), Arrive(0, p));
    assert Next(2, g1, Arrive(1, p)) == TwoRequests(p, Looking, Looking);
    assert Next(2, TwoRequests(p, Looking, Looking), Lookup(0)) == TwoRequests(p, Verifying, Looking);
    assert Next(2, TwoRequests(p, Verifying, Looking), Lookup(1)) == TwoRequests(p, Verifying, Verifying);
    assert Next(2, TwoRequests(p, Verifying, Verifying), VerificationEnded(0, true)) == TwoRequests(p, Verified, Verifying);
    assert Next(2, TwoRequests(p, Verified, Verifying), VerificationEnded(1, true)) == TwoRequests(p, Verified, Verified);
    RunTwo(2, Start({}), Arrive(0, p), Arrive(1, p));
    RunTwo(2, TwoRequests(p, Looking, Looking), Lookup(0), Lookup(1));
    RunTwo(2, TwoRequests(p, Verifying, Verifying), VerificationEnded(0, true), VerificationEnded(1, true));
    RunAppend(2, Start({}), [Arrive(0, p), Arrive(1, p)], [Lookup(0), Lookup(1)]);
    RunAppend(2, Start({}), [Arrive(0, p), Arrive(1, p)] + [Lookup(0), Lookup(1)], [VerificationEnded(0, true), VerificationEnded(1, true)]);
    assert [Arrive(0, p), Arrive(1, p)] + [Lookup(0), Lookup(1)] + [VerificationEnded(0, true), VerificationEnded(1, true)]
           == [Arrive(0, p), Arrive(1, p), Lookup(0), Lookup(1), VerificationEnded(0, true), VerificationEnded(1, true)];
  }

  lemma BothSettle(p: PaymentId)
    ensures Run(2, TwoRequests(p, Verified, Verified), [Settle(0), SettleEnded(0, Succeeded), Settle(1)]).calls
            == [Call(p, Some(Succeeded)), Call(p, None)]
  {
    var g1 := Next(2, TwoRequests(p, Verified, Verified), Settle(0));
    assert g1.calls == [Call(p, None)] && g1.inFlight == map[p := 0];
    var g2 := Next(2, g1, SettleEnded(0, Succeeded));
    assert g2.calls == [Call(p, Some(Succeeded))] && p !in g2.inFlight && At(g2, 1, Verified);
    var g3 := Next(2, g2, Settle(1));
    assert g3.calls == [Call(p, Some(Succeeded)), Call(p, None)];
    RunTwo(2, TwoRequests(p, Verified, Verified), Settle(0), SettleEnded(0, Succeeded));
    RunAppend(2, TwoRequests(p, Verified, Verified), [Settle(0), SettleEnded(0, Succeeded)], [Settle(1)]);
    assert Run(2, g2, [Settle(1)]) == Run(2, g3, [Settle(1)][1..]);
    assert [Settle(0), SettleEnded(0, Succeeded)] + [Settle(1)] == [Settle(0), SettleEnded(0, Succeeded), Settle(1)];
  }

  lemma RunTwo(limit: int, g: Gateway, s: Step, t: Step)
    ensures Run(limit, g, [s, t]) == Next(limit, Next(limit, g, s), t)
  {
    assert [s, t][1..] == [t] && [t][1..] == [];
    assert Run(limit, Next(limit, g, s), [t]) == Run(limit, Next(limit, Next(limit, g, s), t), [t][1..]);
  }

  lemma {:induction false} RunAppend(limit: int, g: Gateway, a: seq<Step>, b: seq<Step>)
    ensures Run(limit, g, a + b) == Run(limit, Run(limit, g, a), b)
    decreases |a|
  {
    if a == [] {
      assert a + b == b;
    } else {
      assert (a + b)[1..] == a[1..] + b;
      RunAppend(limit, Next(limit, g, a[0]), a[1..], b);
    }
  }
}
