/** The settlement contract on a conforming SEP-41 token: exactly when it succeeds, and what it changes. */
module UptoSep41 {
  import opened Options
  import opened UptoSettlement

  /** Balances by (token, account) and allowances by (token, owner, spender) with their last live ledger. */
  datatype Ledger = Ledger(balances: map<(Address, Address), I128>, allowances: map<(Address, Address, Address), (I128, U32)>)

  function BalanceOf(w: Ledger, token: Address, who: Address): I128 {
    if (token, who) in w.balances then w.balances[(token, who)] else 0
  }

  function AllowanceOf(w: Ledger, token: Address, owner: Address, spender: Address, now: U32): I128 {
    var key := (token, owner, spender);
    if key in w.allowances && now <= w.allowances[key].1 then w.allowances[key].0 else 0
  }

  function Approve(w: Ledger, token: Address, owner: Address, spender: Address, amount: I128, expiration: U32, now: U32): Option<Ledger> {
    if amount < 0 || (amount > 0 && expiration < now) then None
    else Some(w.(allowances := w.allowances[(token, owner, spender) := (amount, expiration)]))
  }

  /** Spends from one account, then credits the other; panics on a negative amount, a shortfall or an overflow. */
  function Transfer(w: Ledger, token: Address, from: Address, to: Address, amount: I128, now: U32): Option<Ledger> {
    if amount < 0 || BalanceOf(w, token, from) < amount then None
    else
      var w1 := w.(balances := w.balances[(token, from) := BalanceOf(w, token, from) - amount]);
      if BalanceOf(w1, token, to) + amount > I128_MAX then None
      else Some(w1.(balances := w1.balances[(token, to) := BalanceOf(w1, token, to) + amount]))
  }

  function TransferFrom(w: Ledger, token: Address, spender: Address, from: Address, to: Address, amount: I128, now: U32): Option<Ledger> {
    var allowed := AllowanceOf(w, token, from, spender, now);
    if amount < 0 || allowed < amount then None
    else if amount == 0 then Transfer(w, token, from, to, amount, now)
    else
      var expiration := w.allowances[(token, from, spender)].1;
      Transfer(w.(allowances := w.allowances[(token, from, spender) := (allowed - amount, expiration)]), token, from, to, amount, now)
  }

  function Sep41(): Tokens<Ledger> {
    Tokens(BalanceOf, AllowanceOf, Approve, TransferFrom, Transfer)
  }

  ghost predicate ValidLedger(w: Ledger) { forall k :: k in w.balances ==> w.balances[k] >= 0 }

  /** What a successful transfer does to every balance, and that allowances stay. */
  lemma TransferEffect(w: Ledger, token: Address, from: Address, to: Address, amount: I128, now: U32)
    requires ValidLedger(w) && 0 <= amount <= BalanceOf(w, token, from)
    requires from != to
    ensures Transfer(w, token, from, to, amount, now).Some? <==> BalanceOf(w, token, to) + amount <= I128_MAX
    ensures Transfer(w, token, from, to, amount, now).Some? ==>
              var w' := Transfer(w, token, from, to, amount, now).value;
              && ValidLedger(w') && w'.allowances == w.allowances
              && forall k: Address, who: Address :: BalanceOf(w', k, who) ==
                   if (k, who) == (token, from) then BalanceOf(w, k, who) - amount
                   else if (k, who) == (token, to) then BalanceOf(w, k, who) + amount
                   else BalanceOf(w, k, who)
  {
  }

  /** Enough money at the payer, and room for the amounts at the contract and the recipient. */
  predicate Funded(w: Ledger, me: Address, payer: Address, terms: PayerTerms, actual: I128) {
    && BalanceOf(w, terms.token, payer) >= terms.maxAmount
    && BalanceOf(w, terms.token, me) + terms.maxAmount <= I128_MAX
    && (payer != terms.payTo ==> BalanceOf(w, terms.token, terms.payTo) + actual <= I128_MAX)
  }

  /** The net effect of a settlement on an account's balance of any token. */
  function NetEffect(payer: Address, terms: PayerTerms, actual: int, token: Address, who: Address): int {
    if token != terms.token then 0
    else (if who == terms.payTo then actual else 0) - (if who == payer then actual else 0)
  }

  /** Every balance of every token changed by the net effect of the settlement and nothing else. */
  ghost predicate Moved(w: Ledger, w': Ledger, payer: Address, terms: PayerTerms, actual: int) {
    && ValidLedger(w')
    && forall k: Address, who: Address ::
         BalanceOf(w', k, who) == BalanceOf(w, k, who) + NetEffect(payer, terms, actual, k, who)
  }

  /** The state after the pull, relative to the state before the call. */
  ghost predicate Pulled(w: Ledger, w2: Ledger, me: Address, payer: Address, terms: PayerTerms) {
    forall k: Address, who: Address :: BalanceOf(w2, k, who) == BalanceOf(w, k, who)
      + if k != terms.token then 0
        else (if who == me then terms.maxAmount else 0) - (if who == payer then terms.maxAmount else 0)
  }

  lemma PullEffect(w: Ledger, me: Address, now: U32, payer: Address, terms: PayerTerms)
    requires ValidLedger(w) && now <= terms.deadline && payer != me && terms.maxAmount > 0
    ensures var r := Pull(Sep41(), me, w, now, payer, terms);
            && (r.Returned? <==> BalanceOf(w, terms.token, payer) >= terms.maxAmount
                                 && BalanceOf(w, terms.token, me) + terms.maxAmount <= I128_MAX)
            && (r.Panic? ==> r.error == TokenPanic)
            && (r.Returned? ==>
                  && ValidLedger(r.value)
                  && AllowanceOf(r.value, terms.token, payer, me, now) == 0
                  && Pulled(w, r.value, me, payer, terms))
  {
    var w1 := Approve(w, terms.token, payer, me, terms.maxAmount, terms.deadline, now).value;
    var w1' := w1.(allowances := w1.allowances[(terms.token, payer, me) := (0, terms.deadline)]);
    assert TransferFrom(w1, terms.token, me, payer, me, terms.maxAmount, now)
           == Transfer(w1', terms.token, payer, me, terms.maxAmount, now);
    if BalanceOf(w, terms.token, payer) >= terms.maxAmount {
      TransferEffect(w1', terms.token, payer, me, terms.maxAmount, now);
    }
  }

  /** The state after paying the recipient, relative to the state after the pull. */
  ghost predicate Paid(w2: Ledger, w3: Ledger, me: Address, terms: PayerTerms, actual: I128) {
    && w3.allowances == w2.allowances
    && forall k: Address, who: Address :: BalanceOf(w3, k, who) == BalanceOf(w2, k, who)
         + if k != terms.token then 0
           else (if who == terms.payTo then actual else 0) - (if who == me then actual else 0)
  }

  lemma PayEffect(w: Ledger, w2: Ledger, me: Address, now: U32, payer: Address, terms: PayerTerms, actual: I128)
    requires ValidLedger(w) && ValidLedger(w2) && payer != me && terms.payTo != me && 0 <= actual <= terms.maxAmount
    requires Pulled(w, w2, me, payer, terms)
    ensures var w3 := PayOut(Sep41(), me, w2, now, terms.token, terms.payTo, actual);
            && (w3.Some? <==> (payer != terms.payTo ==> BalanceOf(w, terms.token, terms.payTo) + actual <= I128_MAX))
            && (w3.Some? ==> ValidLedger(w3.value) && Paid(w2, w3.value, me, terms, actual))
  {
    assert BalanceOf(w2, terms.token, me) == BalanceOf(w, terms.token, me) + terms.maxAmount;
    if actual > 0 { TransferEffect(w2, terms.token, me, terms.payTo, actual, now); }
  }

  lemma RefundEffect(w: Ledger, w2: Ledger, w3: Ledger, me: Address, now: U32, payer: Address, terms: PayerTerms, actual: I128)
    requires ValidLedger(w) && ValidLedger(w3) && payer != me && terms.payTo != me && 0 <= actual <= terms.maxAmount
    requires Pulled(w, w2, me, payer, terms) && Paid(w2, w3, me, terms, actual)
    ensures var w4 := PayOut(Sep41(), me, w3, now, terms.token, payer, terms.maxAmount - actual);
            w4.Some? && w4.value.allowances == w2.allowances && Moved(w, w4.value, payer, terms, actual)
  {
    var rest := terms.maxAmount - actual;
    assert BalanceOf(w3, terms.token, me) == BalanceOf(w, terms.token, me) + rest;
    assert BalanceOf(w3, terms.token, payer) + rest <= I128_MAX;
    if rest > 0 { TransferEffect(w3, terms.token, me, payer, rest, now); }
  }

  lemma DistributeOnSep41(w: Ledger, w2: Ledger, me: Address, now: U32, payer: Address, terms: PayerTerms, actual: I128)
    requires ValidLedger(w) && ValidLedger(w2) && payer != me && terms.payTo != me && 0 <= actual <= terms.maxAmount
    requires Pulled(w, w2, me, payer, terms) && AllowanceOf(w2, terms.token, payer, me, now) == 0
    ensures var r := Distribute(Sep41(), me, w2, now, payer, terms, actual);
            && (r.Returned? <==> (payer != terms.payTo ==> BalanceOf(w, terms.token, terms.payTo) + actual <= I128_MAX))
            && (r.Panic? ==> r.error == TokenPanic)
            && (r.Returned? ==> Moved(w, r.value, payer, terms, actual))
  {
    PayEffect(w, w2, me, now, payer, terms, actual);
    var w3 := PayOut(Sep41(), me, w2, now, terms.token, terms.payTo, actual);
    if w3.Some? { RefundEffect(w, w2, w3.value, me, now, payer, terms, actual); }
  }

  lemma MoveFundsOnSep41(w: Ledger, me: Address, now: U32, payer: Address, terms: PayerTerms, actual: I128)
    requires ValidLedger(w) && now <= terms.deadline
    requires payer != me && terms.payTo != me && 0 <= actual <= terms.maxAmount && terms.maxAmount > 0
    ensures var r := MoveFunds(Sep41(), me, w, now, payer, terms, actual);
            && (r.Returned? <==> Funded(w, me, payer, terms, actual))
            && (r.Panic? ==> r.error == TokenPanic)
            && (r.Returned? ==> Moved(w, r.value, payer, terms, actual))
  {
    PullEffect(w, me, now, payer, terms);
    var pull := Pull(Sep41(), me, w, now, payer, terms);
    if pull.Returned? { DistributeOnSep41(w, pull.value, me, now, payer, terms, actual); }
  }

  /**
   * With a conforming token a call settles exactly when it is valid, signed, not settled before, funded
   * and free of overflow; no post-check ever fails; and every balance of every token changes by the
   * settled amount alone.
   */
  lemma Sep41Settles(me: Address, minTtl: U32, signed: Signatures, st: State<Ledger>,
                     payer: Address, terms: PayerTerms, a: Attestation)
    requires ValidLedger(st.world)
    ensures var r := Settle(Sep41(), me, minTtl, signed, st, payer, terms, a);
            && (r.Returned? <==>
                  && ValidCall(me, st.sequence, payer, terms, a)
                  && Authorized(signed, payer, terms, a)
                  && (payer, terms.settlementId) !in st.guards
                  && Funded(st.world, me, payer, terms, a.actual))
            && (r.Panic? ==> !r.error.PostCheck())
            && (r.Returned? ==> Moved(st.world, r.value.world, payer, terms, a.actual))
  {
    if Validate(me, st.sequence, payer, terms, a).None? {
      MoveFundsOnSep41(st.world, me, st.sequence, payer, terms, a.actual);
    }
  }
}
