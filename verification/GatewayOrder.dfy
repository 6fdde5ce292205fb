/**
 * What must have happened before each thing the gateway does for a payment, and that a payment which
 * passes every check is settled, recorded and forwarded.
 */
module GatewayOrder {
  import opened Options
  import opened GatewaySettlement

  /** The state before step k of a run of the process. */
  function Before(limit: int, recorded: set<PaymentId>, steps: seq<Step>, k: nat): Gateway
    requires k <= |steps|
  {
    Run(limit, Start(recorded), steps[..k])
  }

  lemma BeforeNext(limit: int, recorded: set<PaymentId>, steps: seq<Step>, k: nat)
    requires k < |steps|
    ensures Before(limit, recorded, steps, k + 1) == Next(limit, Before(limit, recorded, steps, k), steps[k])
  {
    var one := [steps[k]];
    assert steps[..k + 1] == steps[..k] + one && one[0] == steps[k] && one[1..] == [];
    RunAppend(limit, Start(recorded), steps[..k], one);
    var g := Before(limit, recorded, steps, k);
    assert Run(limit, Next(limit, g, steps[k]), one[1..]) == Next(limit, g, steps[k]);
  }

  lemma BeforePrefix(limit: int, recorded: set<PaymentId>, steps: seq<Step>, n: nat, k: nat)
    requires k <= n <= |steps|
    ensures Before(limit, recorded, steps[..n], k) == Before(limit, recorded, steps, k)
  {
    assert steps[..n][..k] == steps[..k];
  }

  predicate AtWith(g: Gateway, id: RequestId, phase: Phase, p: PaymentId) { At(g, id, phase) && g.requests[id].payment == p }

  /**
   * The request of payment p looked it up in vain at step h, its verification succeeded at step i, and it
   * has been verified ever since, up to step j.
   */
  ghost predicate Checked(limit: int, recorded: set<PaymentId>, steps: seq<Step>, id: RequestId, p: PaymentId, h: nat, i: nat, j: nat) {
    && h < i < j <= |steps| && steps[h] == Lookup(id) && steps[i] == VerificationEnded(id, true)
    && AtWith(Before(limit, recorded, steps, h), id, Looking, p) && p !in Before(limit, recorded, steps, h).recorded
    && (forall k :: h < k <= i ==> AtWith(Before(limit, recorded, steps, k), id, Verifying, p))
    && (forall k :: i < k <= j ==> AtWith(Before(limit, recorded, steps, k), id, Verified, p))
  }

  /** A request in verification has looked its payment up in vain. */
  lemma {:induction false} VerifyingLookedUp(limit: int, recorded: set<PaymentId>, steps: seq<Step>, j: nat, id: RequestId, p: PaymentId)
    returns (h: nat)
    requires j <= |steps| && AtWith(Before(limit, recorded, steps, j), id, Verifying, p)
    ensures h < j && steps[h] == Lookup(id)
    ensures AtWith(Before(limit, recorded, steps, h), id, Looking, p) && p !in Before(limit, recorded, steps, h).recorded
    ensures forall k :: h < k <= j ==> AtWith(Before(limit, recorded, steps, k), id, Verifying, p)
  {
    assert j > 0;
    BeforeNext(limit, recorded, steps, j - 1);
    if AtWith(Before(limit, recorded, steps, j - 1), id, Verifying, p) {
      h := VerifyingLookedUp(limit, recorded, steps, j - 1, id, p);
    } else {
      h := j - 1;
    }
  }

  /** A verified request has had a lookup in vain and a successful verification. */
  lemma {:induction false} VerifiedWasChecked(limit: int, recorded: set<PaymentId>, steps: seq<Step>, j: nat, id: RequestId, p: PaymentId)
    returns (h: nat, i: nat)
    requires j <= |steps| && AtWith(Before(limit, recorded, steps, j), id, Verified, p)
    ensures Checked(limit, recorded, steps, id, p, h, i, j)
  {
    assert j > 0;
    BeforeNext(limit, recorded, steps, j - 1);
    if AtWith(Before(limit, recorded, steps, j - 1), id, Verified, p) {
      h, i := VerifiedWasChecked(limit, recorded, steps, j - 1, id, p);
    } else {
      i := j - 1;
      h := VerifyingLookedUp(limit, recorded, steps, i, id, p);
    }
  }

  /** Step j is the one that makes call c, by a request that was checked. */
  ghost predicate MadeBy(limit: int, recorded: set<PaymentId>, steps: seq<Step>, c: nat, p: PaymentId, j: nat) {
    && j < |steps| && steps[j].Settle? && |Before(limit, recorded, steps, j).calls| == c
    && exists h, i :: Checked(limit, recorded, steps, steps[j].id, p, h, i, j)
  }

  lemma NewCall(limit: int, g: Gateway, s: Step)
    requires |Next(limit, g, s).calls| > |g.calls|
    ensures s.Settle? && At(g, s.id, Verified)
    ensures Next(limit, g, s).calls == g.calls + [Call(g.requests[s.id].payment, None)]
  {
  }

  lemma {:induction false} CallWasMade(limit: int, recorded: set<PaymentId>, steps: seq<Step>, n: nat, c: nat) returns (j: nat)
    requires n <= |steps| && c < |Before(limit, recorded, steps, n).calls|
    ensures j < n && MadeBy(limit, recorded, steps, c, Before(limit, recorded, steps, n).calls[c].payment, j)
  {
    assert n > 0;
    BeforeNext(limit, recorded, steps, n - 1);
    var g, s := Before(limit, recorded, steps, n - 1), steps[n - 1];
    NextGrows(limit, g, s);
    if c < |g.calls| {
      j := CallWasMade(limit, recorded, steps, n - 1, c);
    } else {
      NewCall(limit, g, s);
      j := n - 1;
      var h, i := VerifiedWasChecked(limit, recorded, steps, j, s.id, g.requests[s.id].payment);
    }
  }

  ghost predicate WasMade(limit: int, recorded: set<PaymentId>, steps: seq<Step>, c: nat, p: PaymentId) {
    exists j :: 0 <= j < |steps| && MadeBy(limit, recorded, steps, c, p, j)
  }

  /**
   * No settlement without verification: over every run each settle call is made by the settleOnce step of
   * a request of that payment which looked it up in vain and whose verification succeeded before.
   */
  lemma CallsAreVerified(limit: int, recorded: set<PaymentId>, steps: seq<Step>)
    ensures var g := Run(limit, Start(recorded), steps);
            forall c :: 0 <= c < |g.calls| ==> WasMade(limit, recorded, steps, c, g.calls[c].payment)
  {
    assert steps[..|steps|] == steps;
    var g := Run(limit, Start(recorded), steps);
    forall c | 0 <= c < |g.calls| ensures WasMade(limit, recorded, steps, c, g.calls[c].payment) {
      var j := CallWasMade(limit, recorded, steps, |steps|, c);
    }
  }

  /** Step k is a successful verification of a request of this payment. */
  ghost predicate Verifies(limit: int, recorded: set<PaymentId>, steps: seq<Step>, k: nat, p: PaymentId) {
    && k < |steps| && steps[k].VerificationEnded? && steps[k].valid
    && AtWith(Before(limit, recorded, steps, k), steps[k].id, Verifying, p)
  }

  lemma MadeIsVerified(limit: int, recorded: set<PaymentId>, steps: seq<Step>, c: nat, p: PaymentId)
    requires WasMade(limit, recorded, steps, c, p)
    ensures exists k :: Verifies(limit, recorded, steps, k, p)
  {
    var j :| 0 <= j < |steps| && MadeBy(limit, recorded, steps, c, p, j);
    var h, i :| Checked(limit, recorded, steps, steps[j].id, p, h, i, j);
    assert Verifies(limit, recorded, steps, i, p);
  }

  /** Hence a payment that no request verified has no settle call. */
  lemma UnverifiedIsNotSettled(limit: int, recorded: set<PaymentId>, steps: seq<Step>, p: PaymentId)
    requires forall k :: !Verifies(limit, recorded, steps, k, p)
    ensures var g := Run(limit, Start(recorded), steps); forall c :: 0 <= c < |g.calls| ==> g.calls[c].payment != p
  {
    var g := Run(limit, Start(recorded), steps);
    forall c | 0 <= c < |g.calls| ensures g.calls[c].payment != p {
      CallsAreVerified(limit, recorded, steps);
      if g.calls[c].payment == p { MadeIsVerified(limit, recorded, steps, c, p); }
    }
  }

  // ---- What a request that is let through gets ----

  /** The steps of one request from its arrival to its end, when verification and settlement go well. */
  function Served(id: RequestId, p: PaymentId, call: nat): seq<Step> {
    [Arrive(id, p), Lookup(id), VerificationEnded(id, true), Settle(id),
     SettleEnded(call, Succeeded), Resume(id), Record(id), Forward(id), Leave(id)]
  }

  ghost predicate Quiet(g: Gateway, id: RequestId, p: PaymentId) {
    id !in g.requests && p !in g.inFlight && p !in g.recorded
  }

  lemma RunStep(limit: int, g: Gateway, steps: seq<Step>)
    requires steps != []
    ensures Run(limit, g, steps) == Run(limit, Next(limit, g, steps[0]), steps[1..])
  {
  }

  /** A request in phase f of payment p, everything else as in g. */
  function With(g: Gateway, id: RequestId, p: PaymentId, f: Phase): Gateway {
    g.(active := g.active + 1, requests := g.requests[id := Request(p, f)])
  }

  lemma MoveWith(g: Gateway, id: RequestId, p: PaymentId, f: Phase, f': Phase)
    ensures Move(With(g, id, p, f), id, f') == With(g, id, p, f')
  {
    assert g.requests[id := Request(p, f)][id := Request(p, f')] == g.requests[id := Request(p, f')];
  }

  /** Up to settleOnce: nothing has happened but that the request is there, and one new call. */
  lemma ServedToSettle(limit: int, g: Gateway, id: RequestId, p: PaymentId)
    requires Quiet(g, id, p) && g.active < limit
    ensures var c := |g.calls|;
            var g1 := Next(limit, g, Arrive(id, p));
            var g3 := Next(limit, Next(limit, g1, Lookup(id)), VerificationEnded(id, true));
            && g3 == With(g, id, p, Verified)
            && Next(limit, g3, Settle(id))
               == With(g, id, p, Waiting(c)).(calls := g.calls + [Call(p, None)], inFlight := g.inFlight[p := c])
  {
    MoveWith(g, id, p, Looking, Verifying);
    MoveWith(g, id, p, Verifying, Verified);
    MoveWith(g, id, p, Verified, Waiting(|g.calls|));
  }

  /** From there: the call ends, the payment is recorded and forwarded, the request leaves. */
  lemma ServedToEnd(limit: int, g: Gateway, id: RequestId, p: PaymentId)
    requires Quiet(g, id, p)
    ensures var c := |g.calls|;
            var g4 := With(g, id, p, Waiting(c)).(calls := g.calls + [Call(p, None)], inFlight := g.inFlight[p := c]);
            var g5 := Next(limit, g4, SettleEnded(c, Succeeded));
            var done := g.(calls := g.calls + [Call(p, Some(Succeeded))]);
            && g5 == With(done, id, p, Waiting(c))
            && Next(limit, g5, Resume(id)) == With(done, id, p, Recording)
            && Next(limit, With(done, id, p, Recording), Record(id)) == With(done.(recorded := done.recorded + {p}), id, p, Paid)
  {
    var c := |g.calls|;
    var done := g.(calls := g.calls + [Call(p, Some(Succeeded))]);
    assert (g.calls + [Call(p, None)])[c := Call(p, Some(Succeeded))] == done.calls;
    assert g.inFlight[p := c] - {p} == g.inFlight;
    MoveWith(done, id, p, Waiting(c), Recording);
    MoveWith(done, id, p, Recording, Paid);
  }

  lemma ForwardedAndGone(limit: int, g: Gateway, id: RequestId, p: PaymentId)
    requires id !in g.requests
    ensures var f := g.(forwarded := g.forwarded + [p]);
            && Next(limit, With(g, id, p, Paid), Forward(id)) == With(f, id, p, Ended)
            && Next(limit, With(f, id, p, Ended), Leave(id)) == f
  {
    MoveWith(g, id, p, Paid, Ended);
    var f := g.(forwarded := g.forwarded + [p]);
    assert g.requests[id := Request(p, Ended)] - {id} == g.requests;
  }

  /**
   * From any state with room and without a pending or recorded settlement of the payment, a request whose
   * verification and settlement succeed leaves exactly this behind: one successful call, the payment
   * recorded, and one request forwarded upstream.
   */
  lemma PaidRequestIsServed(limit: int, g: Gateway, id: RequestId, p: PaymentId)
    requires Quiet(g, id, p) && g.active < limit
    ensures Run(limit, g, Served(id, p, |g.calls|))
            == g.(calls := g.calls + [Call(p, Some(Succeeded))], recorded := g.recorded + {p}, forwarded := g.forwarded + [p])
  {
    var c := |g.calls|;
    var s := Served(id, p, c);
    ServedToSettle(limit, g, id, p);
    ServedToEnd(limit, g, id, p);
    var done := g.(calls := g.calls + [Call(p, Some(Succeeded))], recorded := g.recorded + {p});
    ForwardedAndGone(limit, done, id, p);
    RunNine(limit, g, s);
  }

  lemma RunNine(limit: int, g: Gateway, s: seq<Step>)
    requires |s| == 9
    ensures var g3 := Next(limit, Next(limit, Next(limit, g, s[0]), s[1]), s[2]);
            var g6 := Next(limit, Next(limit, Next(limit, g3, s[3]), s[4]), s[5]);
            Run(limit, g, s) == Next(limit, Next(limit, Next(limit, g6, s[6]), s[7]), s[8])
  {
    RunThree(limit, g, s);
    var g3 := Next(limit, Next(limit, Next(limit, g, s[0]), s[1]), s[2]);
    RunThree(limit, g3, s[3..]);
    var g6 := Next(limit, Next(limit, Next(limit, g3, s[3]), s[4]), s[5]);
    assert s[3..][3..] == s[6..];
    RunThree(limit, g6, s[6..]);
    assert s[6..][3..] == [];
  }

  lemma RunThree(limit: int, g: Gateway, s: seq<Step>)
    requires |s| >= 3
    ensures Run(limit, g, s) == Run(limit, Next(limit, Next(limit, Next(limit, g, s[0]), s[1]), s[2]), s[3..])
  {
    RunStep(limit, g, s);
    RunStep(limit, Next(limit, g, s[0]), s[1..]);
    RunStep(limit, Next(limit, Next(limit, g, s[0]), s[1]), s[1..][1..]);
    assert s[1..][1..] == s[2..] && s[2..][1..] == s[3..];
  }

  /**
   * A refused verification or settlement ends the request, however a call ends it is no longer pending,
   * and at the limit no request is let in.
   */
  lemma RefusedIsNotServed(limit: int, g: Gateway, id: RequestId, p: PaymentId)
    ensures g.active >= limit ==> Next(limit, g, Arrive(id, p)) == g
    ensures At(g, id, Verifying) ==> Next(limit, g, VerificationEnded(id, false)) == Move(g, id, Ended)
    ensures forall c: nat :: c < |g.calls| && At(g, id, Waiting(c)) && g.calls[c].outcome.Some? && !g.calls[c].outcome.value.Succeeded? ==>
              Next(limit, g, Resume(id)) == Move(g, id, Ended)
    ensures forall c: nat, o :: c < |g.calls| && g.calls[c].outcome.None? ==>
              var h := Next(limit, g, SettleEnded(c, o));
              h.calls[c] == g.calls[c].(outcome := Some(o)) && g.calls[c].payment !in h.inFlight
    ensures At(g, id, Ended) ==> forall s :: s in [Lookup(id), VerificationEnded(id, true), Settle(id), Resume(id), Record(id), Forward(id)] ==>
              Next(limit, g, s) == g
  {
  }

  /** A request for a payment that is already recorded is forwarded without a settle call. */
  lemma RecordedRequestIsServed(limit: int, g: Gateway, id: RequestId, p: PaymentId)
    requires id !in g.requests && p in g.recorded && g.active < limit
    ensures Run(limit, g, [Arrive(id, p), Lookup(id), Forward(id), Leave(id)]) == g.(forwarded := g.forwarded + [p])
  {
    var s := [Arrive(id, p), Lookup(id), Forward(id), Leave(id)];
    MoveWith(g, id, p, Looking, Paid);
    ForwardedAndGone(limit, g, id, p);
    RunThree(limit, g, s);
    var last := s[3..];
    assert last[0] == Leave(id) && last[1..] == [];
    RunStep(limit, With(g.(forwarded := g.forwarded + [p]), id, p, Ended), last);
  }
}
