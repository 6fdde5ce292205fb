/** What the settlement contract guarantees over whole runs, for any token and any storage eviction. */
module UptoSafety {
  import opened UptoSettlement

  // ---- Runs ----

  datatype Step<W> =
    | Call(payer: Address, terms: PayerTerms, attestation: Attestation)
    | Advance(ledgers: nat)         // ledgers close
    | Evict(keys: set<GuardKey>)    // storage drops guards that have expired
    | Elsewhere(world: W)           // any other activity on the token contracts

  function Evicted(guards: map<GuardKey, U32>, sequence: U32, keys: set<GuardKey>): map<GuardKey, U32> {
    map k | k in guards && (k !in keys || sequence <= guards[k]) :: guards[k]
  }

  function Next<W>(t: Tokens<W>, me: Address, minTtl: U32, signed: Signatures, st: State<W>, step: Step<W>): State<W> {
    match step
    case Call(payer, terms, a) =>
      (match Settle(t, me, minTtl, signed, st, payer, terms, a) case Returned(st') => st' case Panic(_) => st)
    case Advance(n) => st.(sequence := if st.sequence + n > U32_MAX then U32_MAX else st.sequence + n)
    case Evict(keys) => st.(guards := Evicted(st.guards, st.sequence, keys))
    case Elsewhere(w) => st.(world := w)
  }

  function Run<W>(t: Tokens<W>, me: Address, minTtl: U32, signed: Signatures, st: State<W>, steps: seq<Step<W>>): State<W>
    decreases |steps|
  {
    if steps == [] then st
    else Run(t, me, minTtl, signed, Next(t, me, minTtl, signed, st, steps[0]), steps[1..])
  }

  /** Signed by payer and facilitator, in window, within the ceiling; and an id only comes back after the earlier deadline. */
  ghost predicate Sound<W>(signed: Signatures, st: State<W>) {
    && (forall i :: 0 <= i < |st.events| ==>
          var e := st.events[i];
          && (e.payer, e.terms) in signed.payers && (e.terms.facilitator, e.attestation) in signed.facilitators
          && 0 <= e.attestation.actual <= e.terms.maxAmount && e.refunded == e.terms.maxAmount - e.attestation.actual
          && e.terms.validAfter <= e.at <= e.terms.deadline && e.at <= st.sequence)
    && (forall i, j :: 0 <= i < j < |st.events| && Key(st.events[i]) == Key(st.events[j]) ==>
          st.events[i].terms.deadline < st.events[j].at)
  }

  /** What a returning call writes: one event, and its guard, which was not there before and outlives the deadline. */
  lemma ReturnedCallWrites<W>(t: Tokens<W>, me: Address, minTtl: U32, signed: Signatures, st: State<W>,
                              payer: Address, terms: PayerTerms, a: Attestation)
    requires Settle(t, me, minTtl, signed, st, payer, terms, a).Returned?
    ensures var st' := Settle(t, me, minTtl, signed, st, payer, terms, a).value;
            && Key(Settled(payer, terms, a, terms.maxAmount - a.actual, st.sequence)) !in st.guards
            && st'.sequence == st.sequence
            && st'.events == st.events + [Settled(payer, terms, a, terms.maxAmount - a.actual, st.sequence)]
            && st'.guards == st.guards[(payer, terms.settlementId) := GuardLife(minTtl, st.sequence, terms.deadline)]
            && terms.deadline <= GuardLife(minTtl, st.sequence, terms.deadline)
  {
    ReturnedCallMovedActual(t, me, minTtl, signed, st, payer, terms, a);
  }

  lemma EventKeepsGuarded<W>(st: State<W>, st': State<W>, e: Settled, life: U32)
    requires Guarded(st) && st'.sequence == st.sequence && e.terms.deadline <= life && Key(e) !in st.guards
    requires st'.events == st.events + [e] && st'.guards == st.guards[Key(e) := life]
    ensures Guarded(st')
  {
    forall i | 0 <= i < |st'.events| && st'.sequence <= st'.events[i].terms.deadline
      ensures Key(st'.events[i]) in st'.guards && st'.events[i].terms.deadline <= st'.guards[Key(st'.events[i])]
    {
      if i < |st.events| { assert st'.events[i] == st.events[i]; }
    }
    forall k | k in st'.guards ensures exists i :: 0 <= i < |st'.events| && Key(st'.events[i]) == k {
      if k == Key(e) {
        assert Key(st'.events[|st.events|]) == k;
      } else {
        var i :| 0 <= i < |st.events| && Key(st.events[i]) == k;
        assert Key(st'.events[i]) == k;
      }
    }
  }

  lemma EventKeepsSound<W>(signed: Signatures, st: State<W>, st': State<W>, e: Settled)
    requires Guarded(st) && Sound(signed, st) && st'.sequence == st.sequence && Key(e) !in st.guards
    requires st'.events == st.events + [e] && e.at == st.sequence
    requires (e.payer, e.terms) in signed.payers && (e.terms.facilitator, e.attestation) in signed.facilitators
    requires 0 <= e.attestation.actual <= e.terms.maxAmount && e.refunded == e.terms.maxAmount - e.attestation.actual
    requires e.terms.validAfter <= e.at <= e.terms.deadline
    ensures Sound(signed, st')
  {
    assert forall i :: 0 <= i < |st.events| ==> st'.events[i] == st.events[i];
    assert forall i :: 0 <= i < |st.events| && Key(st.events[i]) == Key(e) ==> st.events[i].terms.deadline < st.sequence;
  }

  lemma CallPreserves<W>(t: Tokens<W>, me: Address, minTtl: U32, signed: Signatures, st: State<W>,
                         payer: Address, terms: PayerTerms, a: Attestation)
    requires Guarded(st) && Sound(signed, st) && Settle(t, me, minTtl, signed, st, payer, terms, a).Returned?
    ensures var st' := Settle(t, me, minTtl, signed, st, payer, terms, a).value;
            Guarded(st') && Sound(signed, st') && st.events <= st'.events
  {
    var st' := Settle(t, me, minTtl, signed, st, payer, terms, a).value;
    ReturnedCallMovedActual(t, me, minTtl, signed, st, payer, terms, a);
    ReturnedCallWrites(t, me, minTtl, signed, st, payer, terms, a);
    var e := Settled(payer, terms, a, terms.maxAmount - a.actual, st.sequence);
    EventKeepsGuarded(st, st', e, GuardLife(minTtl, st.sequence, terms.deadline));
    EventKeepsSound(signed, st, st', e);
  }

  lemma NextPreserves<W>(t: Tokens<W>, me: Address, minTtl: U32, signed: Signatures, st: State<W>, step: Step<W>)
    requires Guarded(st) && Sound(signed, st)
    ensures var st' := Next(t, me, minTtl, signed, st, step);
            Guarded(st') && Sound(signed, st') && st.events <= st'.events
  {
    match step
    case Call(payer, terms, a) =>
      if Settle(t, me, minTtl, signed, st, payer, terms, a).Returned? {
        CallPreserves(t, me, minTtl, signed, st, payer, terms, a);
      }
    case _ => QuietKeepsGuarded(st, Next(t, me, minTtl, signed, st, step));
  }

  /** Steps that write no event: time passes, and only guards that have expired go. */
  lemma QuietKeepsGuarded<W>(st: State<W>, st': State<W>)
    requires Guarded(st) && st'.events == st.events && st.sequence <= st'.sequence
    requires forall k :: k in st'.guards ==> k in st.guards && st'.guards[k] == st.guards[k]
    requires forall k :: k in st.guards && st'.sequence <= st.guards[k] ==> k in st'.guards
    ensures Guarded(st')
  {
  }

  lemma {:induction false} RunPreserves<W>(t: Tokens<W>, me: Address, minTtl: U32, signed: Signatures, st: State<W>, steps: seq<Step<W>>)
    requires Guarded(st) && Sound(signed, st)
    ensures var st' := Run(t, me, minTtl, signed, st, steps);
            Guarded(st') && Sound(signed, st') && st.events <= st'.events
    decreases |steps|
  {
    if steps != [] {
      NextPreserves(t, me, minTtl, signed, st, steps[0]);
      RunPreserves(t, me, minTtl, signed, Next(t, me, minTtl, signed, st, steps[0]), steps[1..]);
    }
  }

  /**
   * Over every run from deployment, whatever storage evicts, the same signed terms of a payer settle at
   * most once, and the contract remembers settlements until their deadline has passed, and nothing else.
   */
  lemma SettledAtMostOnce<W>(t: Tokens<W>, me: Address, minTtl: U32, signed: Signatures, sequence: U32, world: W, steps: seq<Step<W>>)
    ensures var st := Run(t, me, minTtl, signed, State(map[], sequence, world, []), steps);
            && (forall i, j :: 0 <= i < j < |st.events| ==>
                  (st.events[i].payer, st.events[i].terms) != (st.events[j].payer, st.events[j].terms))
            && (forall i :: 0 <= i < |st.events| && st.sequence <= st.events[i].terms.deadline ==> Key(st.events[i]) in st.guards)
            && (forall k :: k in st.guards ==> exists i :: 0 <= i < |st.events| && Key(st.events[i]) == k)
  {
    RunPreserves(t, me, minTtl, signed, State(map[], sequence, world, []), steps);
  }

  // ---- Outflow ----

  /** What a payer's balance of a token lost in its own settlements during a run. */
  function Outflow<W>(t: Tokens<W>, me: Address, minTtl: U32, signed: Signatures, st: State<W>, steps: seq<Step<W>>,
                      payer: Address, token: Address): int
    decreases |steps|
  {
    if steps == [] then 0
    else
      var st' := Next(t, me, minTtl, signed, st, steps[0]);
      (if steps[0].Call? && steps[0].payer == payer && steps[0].terms.token == token
       then t.balance(st.world, token, payer) - t.balance(st'.world, token, payer) else 0)
      + Outflow(t, me, minTtl, signed, st', steps[1..], payer, token)
  }

  /** The events that charge a payer in a token; paying oneself is no charge. */
  predicate Charges(e: Settled, payer: Address, token: Address) {
    e.payer == payer && e.terms.token == token && e.terms.payTo != payer
  }

  function SumActuals(events: seq<Settled>, payer: Address, token: Address): int {
    if events == [] then 0
    else
      (if Charges(events[|events| - 1], payer, token) then events[|events| - 1].attestation.actual else 0)
      + SumActuals(events[..|events| - 1], payer, token)
  }

  lemma {:induction false} OutflowIsActuals<W>(t: Tokens<W>, me: Address, minTtl: U32, signed: Signatures, st: State<W>,
                                               steps: seq<Step<W>>, payer: Address, token: Address)
    ensures Outflow(t, me, minTtl, signed, st, steps, payer, token)
            == SumActuals(Run(t, me, minTtl, signed, st, steps).events, payer, token) - SumActuals(st.events, payer, token)
    decreases |steps|
  {
    if steps != [] {
      var st' := Next(t, me, minTtl, signed, st, steps[0]);
      OutflowIsActuals(t, me, minTtl, signed, st', steps[1..], payer, token);
      if steps[0].Call? && Settle(t, me, minTtl, signed, st, steps[0].payer, steps[0].terms, steps[0].attestation).Returned? {
        ReturnedCallMovedActual(t, me, minTtl, signed, st, steps[0].payer, steps[0].terms, steps[0].attestation);
        assert st'.events[..|st'.events| - 1] == st.events;
      }
    }
  }

  /** The sum of the ceilings in a set of signed terms. */
  ghost function SumCeilings(terms: set<PayerTerms>): int {
    if terms == {} then 0
    else
      var x :| x in terms;
      (if x.maxAmount > 0 then x.maxAmount else 0) + SumCeilings(terms - {x})
  }

  lemma {:induction false} SumCeilingsSplit(terms: set<PayerTerms>, x: PayerTerms)
    requires x in terms
    ensures SumCeilings(terms) == (if x.maxAmount > 0 then x.maxAmount else 0) + SumCeilings(terms - {x})
    decreases |terms|
  {
    var y :| y in terms && SumCeilings(terms) == (if y.maxAmount > 0 then y.maxAmount else 0) + SumCeilings(terms - {y});
    if y != x {
      SumCeilingsSplit(terms - {y}, x);
      SumCeilingsSplit(terms - {x}, y);
      assert terms - {y} - {x} == terms - {x} - {y};
    }
  }

  lemma {:induction false} SumCeilingsNonNegative(terms: set<PayerTerms>)
    ensures SumCeilings(terms) >= 0
    decreases |terms|
  {
    if terms != {} {
      var x :| x in terms;
      SumCeilingsSplit(terms, x);
      SumCeilingsNonNegative(terms - {x});
    }
  }

  lemma {:induction false} ActualsWithinCeilings(events: seq<Settled>, payer: Address, token: Address, terms: set<PayerTerms>)
    requires forall i :: 0 <= i < |events| && Charges(events[i], payer, token) ==>
               events[i].terms in terms && events[i].attestation.actual <= events[i].terms.maxAmount
    requires forall i :: 0 <= i < |events| ==> events[i].attestation.actual >= 0
    requires forall i, j :: 0 <= i < j < |events| ==>
               (events[i].payer, events[i].terms) != (events[j].payer, events[j].terms)
    ensures SumActuals(events, payer, token) <= SumCeilings(terms)
  {
    if events == [] {
      SumCeilingsNonNegative(terms);
    } else {
      var last := events[|events| - 1];
      if Charges(last, payer, token) {
        SumCeilingsSplit(terms, last.terms);
        ActualsWithinCeilings(events[..|events| - 1], payer, token, terms - {last.terms});
      } else {
        ActualsWithinCeilings(events[..|events| - 1], payer, token, terms);
      }
    }
  }

  /** The terms a payer signed for a token. */
  ghost function SignedBy(signed: Signatures, payer: Address, token: Address): set<PayerTerms> {
    set p | p in signed.payers && p.0 == payer && p.1.token == token :: p.1
  }

  /**
   * Over every run from deployment a payer loses exactly the sum of the actual amounts charged to it,
   * and never more than the ceilings it signed, each counted once.
   */
  lemma OutflowBounded<W>(t: Tokens<W>, me: Address, minTtl: U32, signed: Signatures, sequence: U32, world: W,
                          steps: seq<Step<W>>, payer: Address, token: Address)
    ensures var st := State(map[], sequence, world, []);
            && Outflow(t, me, minTtl, signed, st, steps, payer, token)
               == SumActuals(Run(t, me, minTtl, signed, st, steps).events, payer, token)
            && 0 <= Outflow(t, me, minTtl, signed, st, steps, payer, token) <= SumCeilings(SignedBy(signed, payer, token))
  {
    var st := State(map[], sequence, world, []);
    OutflowIsActuals(t, me, minTtl, signed, st, steps, payer, token);
    RunPreserves(t, me, minTtl, signed, st, steps);
    SettledAtMostOnce(t, me, minTtl, signed, sequence, world, steps);
    var events := Run(t, me, minTtl, signed, st, steps).events;
    forall i | 0 <= i < |events| && Charges(events[i], payer, token)
      ensures events[i].terms in SignedBy(signed, payer, token)
    {
      assert (payer, events[i].terms) in signed.payers;
    }
    ActualsWithinCeilings(events, payer, token, SignedBy(signed, payer, token));
    SumActualsNonNegative(events, payer, token);
  }

  lemma {:induction false} SumActualsNonNegative(events: seq<Settled>, payer: Address, token: Address)
    requires forall i :: 0 <= i < |events| ==> events[i].attestation.actual >= 0
    ensures SumActuals(events, payer, token) >= 0
  {
    if events != [] { SumActualsNonNegative(events[..|events| - 1], payer, token); }
  }
}
