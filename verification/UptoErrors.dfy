/** What each panic of the settlement contract says, for any token. */
module UptoErrors {
  import opened Options
  import opened UptoSettlement

  /** The calls on the token alone, without looking at allowances in between. */
  function TokenCalls<W>(t: Tokens<W>, me: Address, w: W, now: U32, payer: Address, terms: PayerTerms, actual: I128): Option<W>
    requires 0 <= actual <= terms.maxAmount
  {
    match t.approve(w, terms.token, payer, me, terms.maxAmount, terms.deadline, now)
    case None => None
    case Some(w1) =>
      match t.transferFrom(w1, terms.token, me, payer, me, terms.maxAmount, now)
      case None => None
      case Some(w2) =>
        match (if actual > 0 then t.transfer(w2, terms.token, me, terms.payTo, actual, now) else Some(w2))
        case None => None
        case Some(w3) =>
          if terms.maxAmount - actual > 0 then t.transfer(w3, terms.token, me, payer, terms.maxAmount - actual, now) else Some(w3)
  }

  /** Valid, signed by both sides, and not settled before: the call reaches the token. */
  predicate Reaches<W>(me: Address, signed: Signatures, st: State<W>, payer: Address, terms: PayerTerms, a: Attestation) {
    && ValidCall(me, st.sequence, payer, terms, a)
    && (payer, terms) in signed.payers && (terms.facilitator, a) in signed.facilitators
    && (payer, terms.settlementId) !in st.guards
  }

  /** The token put another allowance in place than the one it was told to. */
  predicate WrongAllowance<W>(t: Tokens<W>, me: Address, st: State<W>, payer: Address, terms: PayerTerms) {
    var w1 := t.approve(st.world, terms.token, payer, me, terms.maxAmount, terms.deadline, st.sequence);
    w1.Some? && t.allowance(w1.value, terms.token, payer, me, st.sequence) != terms.maxAmount
  }

  /** The contract holds more or less than before, or payer and recipient did not change by the actual amount. */
  predicate WrongBalances<W>(t: Tokens<W>, me: Address, before: W, after: W, payer: Address, terms: PayerTerms, actual: int) {
    || t.balance(after, terms.token, me) != t.balance(before, terms.token, me)
    || (payer == terms.payTo && t.balance(after, terms.token, payer) != t.balance(before, terms.token, payer))
    || (payer != terms.payTo
        && (t.balance(after, terms.token, payer) != t.balance(before, terms.token, payer) - actual
            || t.balance(after, terms.token, terms.payTo) != t.balance(before, terms.token, terms.payTo) + actual))
  }

  /** The expected balances of two different accounts do not fit into 128 bits. */
  predicate OutOfRange<W>(t: Tokens<W>, before: W, payer: Address, terms: PayerTerms, actual: int) {
    && payer != terms.payTo
    && (t.balance(before, terms.token, payer) - actual < I128_MIN || t.balance(before, terms.token, terms.payTo) + actual > I128_MAX)
  }

  /**
   * Before any token is called: an invalid call gets the error of its validation, a valid one Unauthorized
   * exactly if a signature is missing, and one signed by both AlreadySettled exactly if its guard is there.
   */
  lemma RefusedBeforeMoving<W>(t: Tokens<W>, me: Address, minTtl: U32, signed: Signatures, st: State<W>,
                               payer: Address, terms: PayerTerms, a: Attestation)
    ensures var r := Settle(t, me, minTtl, signed, st, payer, terms, a);
            var valid := ValidCall(me, st.sequence, payer, terms, a);
            var unsigned := (payer, terms) !in signed.payers || (terms.facilitator, a) !in signed.facilitators;
            && (!valid ==> r.Panic? && Violated(r.error, me, st.sequence, payer, terms, a))
            && (valid && unsigned <==> r == Panic(Unauthorized))
            && (valid && !unsigned && (payer, terms.settlementId) in st.guards <==> valid && r == Panic(AlreadySettled))
  {
    ValidateReports(me, st.sequence, payer, terms, a);
    if Validate(me, st.sequence, payer, terms, a).None? { FundErrors(t, me, st, payer, terms, a.actual); }
  }

  /** Moving funds fails with an error of the token or of an allowance check, for the reason it gives. */
  lemma FundErrors<W>(t: Tokens<W>, me: Address, st: State<W>, payer: Address, terms: PayerTerms, actual: I128)
    requires 0 <= actual <= terms.maxAmount
    ensures var r := MoveFunds(t, me, st.world, st.sequence, payer, terms, actual);
            var moved := TokenCalls(t, me, st.world, st.sequence, payer, terms, actual);
            var left := moved.Some? && t.allowance(moved.value, terms.token, payer, me, st.sequence) != 0;
            && (r == Panic(UnexpectedAllowance) <==> WrongAllowance(t, me, st, payer, terms))
            && (r == Panic(TokenPanic) <==> !WrongAllowance(t, me, st, payer, terms) && moved.None?)
            && (r == Panic(AllowanceNotConsumed) <==> !WrongAllowance(t, me, st, payer, terms) && left)
            && (r.Panic? ==> r.error in {UnexpectedAllowance, TokenPanic, AllowanceNotConsumed})
            && (r.Returned? ==> moved == Some(r.value))
  {
  }

  /** Every later panic says what the token did: which check it failed, and on which observation. */
  lemma RefusedByToken<W>(t: Tokens<W>, me: Address, minTtl: U32, signed: Signatures, st: State<W>,
                          payer: Address, terms: PayerTerms, a: Attestation)
    requires Reaches(me, signed, st, payer, terms, a)
    ensures var r := Settle(t, me, minTtl, signed, st, payer, terms, a);
            var moved := TokenCalls(t, me, st.world, st.sequence, payer, terms, a.actual);
            && (r == Panic(UnexpectedAllowance) <==> WrongAllowance(t, me, st, payer, terms))
            && (r == Panic(TokenPanic) <==> !WrongAllowance(t, me, st, payer, terms) && moved.None?)
            && (r == Panic(AllowanceNotConsumed) ==>
                  moved.Some? && t.allowance(moved.value, terms.token, payer, me, st.sequence) != 0)
            && (r == Panic(ArithmeticOverflow) ==> moved.Some? && OutOfRange(t, st.world, payer, terms, a.actual))
            && (r == Panic(BalanceInvariantViolated) ==>
                  moved.Some? && WrongBalances(t, me, st.world, moved.value, payer, terms, a.actual))
            && (r.Panic? ==> r.error in {UnexpectedAllowance, TokenPanic, AllowanceNotConsumed, ArithmeticOverflow, BalanceInvariantViolated})
            && (r.Returned? <==>
                  && !WrongAllowance(t, me, st, payer, terms) && moved.Some?
                  && t.allowance(moved.value, terms.token, payer, me, st.sequence) == 0
                  && !WrongBalances(t, me, st.world, moved.value, payer, terms, a.actual))
  {
    ValidateReports(me, st.sequence, payer, terms, a);
    FundErrors(t, me, st, payer, terms, a.actual);
  }

  /** A guard lives to the ledger after the deadline or for the network's minimum, whichever is later, and no longer. */
  lemma GuardLifeIsBounded(minTtl: U32, sequence: U32, deadline: U32)
    requires sequence <= deadline
    ensures var latest := if deadline + 1 >= sequence + minTtl then deadline + 1 else sequence + minTtl;
            GuardLife(minTtl, sequence, deadline) == if latest > U32_MAX then U32_MAX else latest
  {
  }
}
