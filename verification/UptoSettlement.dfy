/**
 * The Soroban `upto` settlement contract: a payer authorizes a ceiling, a facilitator settles the
 * amount used. Tokens are an arbitrary transition system; a panic rolls everything back.
 */
module UptoSettlement {
  import opened Options

  const I128_MAX: int := 0x7FFF_FFFF_FFFF_FFFF_FFFF_FFFF_FFFF_FFFF
  const I128_MIN: int := -0x8000_0000_0000_0000_0000_0000_0000_0000
  const U32_MAX: int := 0xFFFF_FFFF

  type I128 = x: int | I128_MIN <= x <= I128_MAX
  type U32 = x: int | 0 <= x <= U32_MAX
  type Address = nat
  type Bytes32 = nat

  datatype Error =
    | InvalidMaximum | NegativeActual | ActualExceedsMaximum | InvalidTimeWindow | NotYetValid | Expired
    | InvalidPayer | InvalidRecipient | InvalidToken | AlreadySettled
    | UnexpectedAllowance | AllowanceNotConsumed | BalanceInvariantViolated | ArithmeticOverflow
    | Unauthorized  // require_auth_for_args found no matching signature
    | TokenPanic    // the token contract itself panicked
  {
    predicate PostCheck() {
      UnexpectedAllowance? || AllowanceNotConsumed? || BalanceInvariantViolated? || ArithmeticOverflow?
    }
  }

  datatype PayerTerms = PayerTerms(
    payTo: Address, token: Address, maxAmount: I128, validAfter: U32, deadline: U32,
    facilitator: Address, settlementId: Bytes32, requestDigest: Bytes32)

  datatype Attestation = Attestation(settlementId: Bytes32, actual: I128, resultDigest: Bytes32)

  /** The published event, with the ledger it was published in. */
  datatype Settled = Settled(payer: Address, terms: PayerTerms, attestation: Attestation, refunded: I128, at: U32)

  /** Everything ever signed. Signatures are not consumed: whether one is reused is the contract's business. */
  datatype Signatures = Signatures(payers: set<(Address, PayerTerms)>, facilitators: set<(Address, Attestation)>)

  /**
   * All token contracts together, as arbitrary functions over an arbitrary state: the first address of
   * each call is the token, `now` the ledger sequence, None a panic of the token.
   */
  datatype Tokens<!W> = Tokens(
    balance: (W, Address, Address) -> I128,
    allowance: (W, Address, Address, Address, U32) -> I128,
    approve: (W, Address, Address, Address, I128, U32, U32) -> Option<W>,
    transferFrom: (W, Address, Address, Address, Address, I128, U32) -> Option<W>,
    transfer: (W, Address, Address, Address, I128, U32) -> Option<W>)

  type GuardKey = (Address, Bytes32)

  /** Persistent replay guards with the last ledger they live in, the chain, and what was published. */
  datatype State<W> = State(guards: map<GuardKey, U32>, sequence: U32, world: W, events: seq<Settled>)

  datatype Outcome<+T> = Returned(value: T) | Panic(error: Error)

  function SaturatingSub(a: U32, b: U32): U32 { if a < b then 0 else a - b }
  function SaturatingAdd(a: U32, b: U32): U32 { if a + b > U32_MAX then U32_MAX else a + b }

  function Validate(me: Address, sequence: U32, payer: Address, terms: PayerTerms, a: Attestation): Option<Error> {
    if terms.maxAmount <= 0 then Some(InvalidMaximum)
    else if a.actual < 0 then Some(NegativeActual)
    else if a.actual > terms.maxAmount then Some(ActualExceedsMaximum)
    else if a.settlementId != terms.settlementId then Some(AlreadySettled)
    else if terms.validAfter > terms.deadline then Some(InvalidTimeWindow)
    else if sequence < terms.validAfter then Some(NotYetValid)
    else if sequence > terms.deadline then Some(Expired)
    else if payer == terms.facilitator || payer == me then Some(InvalidPayer)
    else if terms.payTo == me then Some(InvalidRecipient)
    else if terms.token == me then Some(InvalidToken)
    else None
  }

  /** What `validate` lets through: a ceiling, an amount within it, a matching id, an open window, no role played by the contract. */
  predicate ValidCall(me: Address, sequence: U32, payer: Address, terms: PayerTerms, a: Attestation) {
    && 0 < terms.maxAmount && 0 <= a.actual <= terms.maxAmount
    && a.settlementId == terms.settlementId
    && terms.validAfter <= sequence <= terms.deadline
    && payer != terms.facilitator && me !in {payer, terms.payTo, terms.token}
  }

  /** What each error of `validate` accuses the call of. */
  predicate Violated(e: Error, me: Address, sequence: U32, payer: Address, terms: PayerTerms, a: Attestation) {
    match e
    case InvalidMaximum => terms.maxAmount <= 0
    case NegativeActual => a.actual < 0
    case ActualExceedsMaximum => a.actual > terms.maxAmount
    case AlreadySettled => a.settlementId != terms.settlementId
    case InvalidTimeWindow => terms.validAfter > terms.deadline
    case NotYetValid => sequence < terms.validAfter
    case Expired => sequence > terms.deadline
    case InvalidPayer => payer in {terms.facilitator, me}
    case InvalidRecipient => terms.payTo == me
    case InvalidToken => terms.token == me
    case _ => false
  }

  /** The order in which the rules are looked at. */
  function Rank(e: Error): nat {
    match e
    case InvalidMaximum => 0
    case NegativeActual => 1
    case ActualExceedsMaximum => 2
    case AlreadySettled => 3
    case InvalidTimeWindow => 4
    case NotYetValid => 5
    case Expired => 6
    case InvalidPayer => 7
    case InvalidRecipient => 8
    case InvalidToken => 9
    case _ => 10
  }

  /** Validation lets exactly the valid calls through, and otherwise names the first rule that is broken. */
  lemma ValidateReports(me: Address, sequence: U32, payer: Address, terms: PayerTerms, a: Attestation)
    ensures Validate(me, sequence, payer, terms, a).None? <==> ValidCall(me, sequence, payer, terms, a)
    ensures match Validate(me, sequence, payer, terms, a)
            case None => forall e :: !Violated(e, me, sequence, payer, terms, a)
            case Some(e) =>
              && Violated(e, me, sequence, payer, terms, a)
              && forall other :: Violated(other, me, sequence, payer, terms, a) ==> Rank(e) <= Rank(other)
  {
  }

  predicate Authorized(signed: Signatures, payer: Address, terms: PayerTerms, a: Attestation) {
    (payer, terms) in signed.payers && (terms.facilitator, a) in signed.facilitators
  }

  /** TTL of a guard: `set` gives it a network minimum, `extend_ttl` raises it to reach past the deadline. */
  function GuardLife(minTtl: U32, sequence: U32, deadline: U32): U32 {
    var ttl := SaturatingAdd(SaturatingSub(deadline, sequence), 1);
    SaturatingAdd(sequence, if minTtl < ttl then ttl else minTtl)
  }

  function CheckBalances<W>(t: Tokens<W>, before: W, after: W, me: Address, payer: Address, terms: PayerTerms, actual: I128)
    : Option<Error>
  {
    var token := terms.token;
    if t.balance(after, token, me) != t.balance(before, token, me) then Some(BalanceInvariantViolated)
    else if payer == terms.payTo then
      if t.balance(after, token, payer) != t.balance(before, token, payer) then Some(BalanceInvariantViolated) else None
    else if t.balance(before, token, payer) - actual < I128_MIN then Some(ArithmeticOverflow)
    else if t.balance(before, token, terms.payTo) + actual > I128_MAX then Some(ArithmeticOverflow)
    else if t.balance(after, token, payer) != t.balance(before, token, payer) - actual
         || t.balance(after, token, terms.payTo) != t.balance(before, token, terms.payTo) + actual
      then Some(BalanceInvariantViolated)
    else None
  }

  /** Takes an allowance for the ceiling and pulls the ceiling. */
  function Pull<W>(t: Tokens<W>, me: Address, w: W, now: U32, payer: Address, terms: PayerTerms): Outcome<W> {
    match t.approve(w, terms.token, payer, me, terms.maxAmount, terms.deadline, now)
    case None => Panic(TokenPanic)
    case Some(w1) =>
      if t.allowance(w1, terms.token, payer, me, now) != terms.maxAmount then Panic(UnexpectedAllowance)
      else
        match t.transferFrom(w1, terms.token, me, payer, me, terms.maxAmount, now)
        case None => Panic(TokenPanic)
        case Some(w2) => Returned(w2)
  }

  /** A transfer out of the contract; nothing is called for an amount of zero. */
  function PayOut<W>(t: Tokens<W>, me: Address, w: W, now: U32, token: Address, to: Address, amount: I128): Option<W> {
    if amount > 0 then t.transfer(w, token, me, to, amount, now) else Some(w)
  }

  /** Pays the recipient, refunds the remainder, and insists that the allowance is used up. */
  function Distribute<W>(t: Tokens<W>, me: Address, w2: W, now: U32, payer: Address, terms: PayerTerms, actual: I128)
    : Outcome<W>
    requires 0 <= actual <= terms.maxAmount
  {
    match PayOut(t, me, w2, now, terms.token, terms.payTo, actual)
    case None => Panic(TokenPanic)
    case Some(w3) =>
      match PayOut(t, me, w3, now, terms.token, payer, terms.maxAmount - actual)
      case None => Panic(TokenPanic)
      case Some(w4) =>
        if t.allowance(w4, terms.token, payer, me, now) != 0 then Panic(AllowanceNotConsumed) else Returned(w4)
  }

  function MoveFunds<W>(t: Tokens<W>, me: Address, w: W, now: U32, payer: Address, terms: PayerTerms, actual: I128)
    : Outcome<W>
    requires 0 <= actual <= terms.maxAmount
  {
    match Pull(t, me, w, now, payer, terms)
    case Panic(e) => Panic(e)
    case Returned(w2) => Distribute(t, me, w2, now, payer, terms, actual)
  }

  /** One invocation of `settle` as a whole. */
  function Settle<W>(t: Tokens<W>, me: Address, minTtl: U32, signed: Signatures, st: State<W>,
                     payer: Address, terms: PayerTerms, a: Attestation): Outcome<State<W>>
  {
    match Validate(me, st.sequence, payer, terms, a)
    case Some(e) => Panic(e)
    case None =>
      if !Authorized(signed, payer, terms, a) then Panic(Unauthorized)
      else if (payer, terms.settlementId) in st.guards then Panic(AlreadySettled)
      else
        match MoveFunds(t, me, st.world, st.sequence, payer, terms, a.actual)
        case Panic(e) => Panic(e)
        case Returned(w) =>
          match CheckBalances(t, st.world, w, me, payer, terms, a.actual)
          case Some(e) => Panic(e)
          case None =>
            Returned(State(
              st.guards[(payer, terms.settlementId) := GuardLife(minTtl, st.sequence, terms.deadline)],
              st.sequence,
              w,
              st.events + [Settled(payer, terms, a, terms.maxAmount - a.actual, st.sequence)]))
  }

  /** Exactly the actual amount went from payer to recipient, nothing stayed with the contract, no allowance is left. */
  ghost predicate MovedActual<W>(t: Tokens<W>, me: Address, st: State<W>, st': State<W>, payer: Address, terms: PayerTerms, actual: int) {
    && t.balance(st'.world, terms.token, me) == t.balance(st.world, terms.token, me)
    && t.allowance(st'.world, terms.token, payer, me, st.sequence) == 0
    && (payer == terms.payTo ==>
          t.balance(st'.world, terms.token, payer) == t.balance(st.world, terms.token, payer))
    && (payer != terms.payTo ==>
          && t.balance(st'.world, terms.token, payer) == t.balance(st.world, terms.token, payer) - actual
          && t.balance(st'.world, terms.token, terms.payTo) == t.balance(st.world, terms.token, terms.payTo) + actual)
  }

  /** Whatever the token's functions do, a call that returns was valid and signed and moved exactly the actual amount. */
  lemma ReturnedCallMovedActual<W>(t: Tokens<W>, me: Address, minTtl: U32, signed: Signatures, st: State<W>,
                                   payer: Address, terms: PayerTerms, a: Attestation)
    requires Settle(t, me, minTtl, signed, st, payer, terms, a).Returned?
    ensures ValidCall(me, st.sequence, payer, terms, a) && Authorized(signed, payer, terms, a)
    ensures MovedActual(t, me, st, Settle(t, me, minTtl, signed, st, payer, terms, a).value, payer, terms, a.actual)
  {
  }

  function Key(e: Settled): GuardKey { (e.payer, e.terms.settlementId) }

  /**
   * What every run keeps: a settlement that could still be presented is remembered at least until its
   * deadline, and only settlements are remembered.
   */
  ghost predicate Guarded<W>(st: State<W>) {
    && (forall i :: 0 <= i < |st.events| && st.sequence <= st.events[i].terms.deadline ==>
          Key(st.events[i]) in st.guards && st.events[i].terms.deadline <= st.guards[Key(st.events[i])])
    && (forall k :: k in st.guards ==> exists i :: 0 <= i < |st.events| && Key(st.events[i]) == k)
  }

  /** The deployed contract. */
  class Contract<W> {
    const me: Address
    const minTtl: U32
    const tokens: Tokens<W>
    var guards: map<GuardKey, U32>
    var sequence: U32
    var world: W
    var events: seq<Settled>

    constructor (me: Address, minTtl: U32, tokens: Tokens<W>, sequence: U32, world: W)
      ensures this.me == me && this.minTtl == minTtl && this.tokens == tokens
      ensures Abs() == State(map[], sequence, world, [])
    {
      this.me, this.minTtl, this.tokens := me, minTtl, tokens;
      this.guards, this.sequence, this.world, this.events := map[], sequence, world, [];
    }

    function Abs(): State<W>
      reads this
    {
      State(guards, sequence, world, events)
    }

    /**
     * The contract's code, writing the guard before any value moves and undoing it on a panic. A call that
     * returns was valid, signed by both sides, and moved exactly the actual amount, whatever the token does.
     */
    method SettleCall(signed: Signatures, payer: Address, terms: PayerTerms, a: Attestation) returns (r: Outcome<I128>)
      modifies this
      ensures match Settle(tokens, me, minTtl, signed, old(Abs()), payer, terms, a)
              case Panic(e) => r == Panic(e) && Abs() == old(Abs())
              case Returned(st) => Abs() == st && r == Returned(terms.maxAmount - a.actual)
      ensures r.Returned? ==>
                && ValidCall(me, sequence, payer, terms, a) && Authorized(signed, payer, terms, a)
                && MovedActual(tokens, me, old(Abs()), Abs(), payer, terms, a.actual)
    {
      ghost var settled := Settle(tokens, me, minTtl, signed, Abs(), payer, terms, a);
      if settled.Returned? { ReturnedCallMovedActual(tokens, me, minTtl, signed, Abs(), payer, terms, a); }
      ValidateReports(me, sequence, payer, terms, a);
      var invalid := Validate(me, sequence, payer, terms, a);
      if invalid.Some? { return Panic(invalid.value); }
      if !Authorized(signed, payer, terms, a) { return Panic(Unauthorized); }
      if (payer, terms.settlementId) in guards { return Panic(AlreadySettled); }
      r := GuardAndMove(payer, terms, a);
    }

    /** The part that writes: the guard and its time to live, then the funds, then the event. */
    method GuardAndMove(payer: Address, terms: PayerTerms, a: Attestation) returns (r: Outcome<I128>)
      requires ValidCall(me, sequence, payer, terms, a)
      modifies this
      ensures match MoveFunds(tokens, me, old(world), sequence, payer, terms, a.actual)
              case Panic(e) => r == Panic(e) && Abs() == old(Abs())
              case Returned(w) =>
                match CheckBalances(tokens, old(world), w, me, payer, terms, a.actual)
                case Some(e) => r == Panic(e) && Abs() == old(Abs())
                case None =>
                  && r == Returned(terms.maxAmount - a.actual)
                  && guards == old(guards)[(payer, terms.settlementId) := GuardLife(minTtl, sequence, terms.deadline)]
                  && sequence == old(sequence) && world == w
                  && events == old(events) + [Settled(payer, terms, a, terms.maxAmount - a.actual, sequence)]
    {
      var key := (payer, terms.settlementId);
      var savedGuards, savedWorld := guards, world;
      guards := guards[key := SaturatingAdd(sequence, minTtl)];
      var ttl := SaturatingAdd(SaturatingSub(terms.deadline, sequence), 1);
      if minTtl < ttl {
        guards := guards[key := SaturatingAdd(sequence, ttl)];
      }
      var refunded := terms.maxAmount - a.actual;
      var failure := MoveAndCheck(payer, terms, a.actual);
      if failure.Some? {
        guards, world := savedGuards, savedWorld;
        return Panic(failure.value);
      }
      events := events + [Settled(payer, terms, a, refunded, sequence)];
      return Returned(refunded);
    }

    /** The token calls in the order the contract makes them, then the post-checks. */
    method MoveAndCheck(payer: Address, terms: PayerTerms, actual: I128) returns (failure: Option<Error>)
      requires 0 <= actual <= terms.maxAmount
      modifies this`world
      ensures match MoveFunds(tokens, me, old(world), sequence, payer, terms, actual)
              case Panic(e) => failure == Some(e)
              case Returned(w) => world == w && failure == CheckBalances(tokens, old(world), w, me, payer, terms, actual)
    {
      var token := terms.token;
      var payerBefore := tokens.balance(world, token, payer);
      var payeeBefore := tokens.balance(world, token, terms.payTo);
      var contractBefore := tokens.balance(world, token, me);

      var next := tokens.approve(world, token, payer, me, terms.maxAmount, terms.deadline, sequence);
      if next.None? { return Some(TokenPanic); }
      world := next.value;
      if tokens.allowance(world, token, payer, me, sequence) != terms.maxAmount { return Some(UnexpectedAllowance); }
      next := tokens.transferFrom(world, token, me, payer, me, terms.maxAmount, sequence);
      if next.None? { return Some(TokenPanic); }
      world := next.value;
      if actual > 0 {
        next := tokens.transfer(world, token, me, terms.payTo, actual, sequence);
        if next.None? { return Some(TokenPanic); }
        world := next.value;
      }
      if terms.maxAmount - actual > 0 {
        next := tokens.transfer(world, token, me, payer, terms.maxAmount - actual, sequence);
        if next.None? { return Some(TokenPanic); }
        world := next.value;
      }
      if tokens.allowance(world, token, payer, me, sequence) != 0 { return Some(AllowanceNotConsumed); }

      if tokens.balance(world, token, me) != contractBefore { return Some(BalanceInvariantViolated); }
      if payer == terms.payTo {
        if tokens.balance(world, token, payer) != payerBefore { return Some(BalanceInvariantViolated); }
        return None;
      }
      if payerBefore - actual < I128_MIN || payeeBefore + actual > I128_MAX { return Some(ArithmeticOverflow); }
      if tokens.balance(world, token, payer) != payerBefore - actual
         || tokens.balance(world, token, terms.payTo) != payeeBefore + actual {
        return Some(BalanceInvariantViolated);
      }
      return None;
    }

    /** True for every settlement of the payer under this id until its deadline has passed, and never without one. */
    method IsSettled(payer: Address, settlementId: Bytes32) returns (b: bool)
      ensures b <==> (payer, settlementId) in Abs().guards
      ensures Guarded(Abs()) ==>
                && (forall i :: 0 <= i < |events| && Key(events[i]) == (payer, settlementId) && sequence <= events[i].terms.deadline ==> b)
                && (b ==> exists i :: 0 <= i < |events| && Key(events[i]) == (payer, settlementId))
    {
      b := (payer, settlementId) in guards;
    }
  }
}
