/**
 * From observations of a provider to a seller's decision: the indexer's aggregate and the SDK's policy
 * engine. Times are whole seconds.
 */
module ProviderPolicy {
  import opened Options
  import opened WilsonBound

  datatype Attribution = Provider | Caller | Unknown

  datatype Observation = Observation(observedAt: int, providerAtFault: bool, attributable: Attribution)

  datatype AggregateState = InsufficientData | Provisional | Published

  datatype Aggregate = Aggregate(state: AggregateState, faultRateUpperBound: real, faultsObserved: nat, n: nat)

  /** What buildProviderAggregate is configured with; z is its confidence constant. */
  datatype Generation = Generation(now: int, windowSeconds: int, provisionalThreshold: int, publishedThreshold: int, z: real)

  predicate InWindow(o: Observation, g: Generation) { g.now - g.windowSeconds <= o.observedAt <= g.now }

  predicate IsFault(o: Observation) { o.providerAtFault && o.attributable.Provider? }

  function Count(obs: seq<Observation>, g: Generation): (n: nat) {
    if obs == [] then 0 else (if InWindow(obs[0], g) then 1 else 0) + Count(obs[1..], g)
  }

  function Faults(obs: seq<Observation>, g: Generation): (f: nat)
    ensures f <= Count(obs, g)
  {
    if obs == [] then 0 else (if InWindow(obs[0], g) && IsFault(obs[0]) then 1 else 0) + Faults(obs[1..], g)
  }

  /** buildProviderAggregate, with the square root it takes at hand. */
  function BuildAggregate(obs: seq<Observation>, g: Generation, root: real): Aggregate {
    var n := Count(obs, g);
    var state := if n >= g.publishedThreshold then Published
                 else if n >= g.provisionalThreshold then Provisional else InsufficientData;
    Aggregate(state, WilsonUpperBound(Faults(obs, g), n, g.z, root), Faults(obs, g), n)
  }

  // ---- The seller's policy ----

  datatype PolicyAction = DoSell | DoSellAndWarn | DoWarn | DoHold | DoStop
  datatype Decision = Sell | SellAndWarn | Hold

  datatype Fallback = Preserve | FallbackWarn | FallbackHold

  /**
   * A configured limit; NotANumber stands for NaN and for undefined, with which every comparison is false.
   * Infinite limits compare like limits outside the unit interval.
   */
  datatype Threshold = NotANumber | At(limit: real)

  predicate Less(a: Threshold, b: Threshold) { a.At? && b.At? && a.limit < b.limit }

  datatype Policy = Policy(
    insufficientData: PolicyAction, provisional: PolicyAction, warnMax: Threshold, holdMax: Threshold,
    staleAggregate: Fallback, invalidAggregate: Fallback, unavailableIndexer: Fallback)

  /** A key of the configuration object: absent, present with the value undefined, or given. */
  datatype Setting = Absent | Undefined | Given(threshold: Threshold)

  function Effective(default: Threshold, setting: Setting): Threshold {
    match setting
    case Absent => default
    case Undefined => NotANumber
    case Given(t) => t
  }

  /** The constructor: the deprecated maximum stands in for a missing holdMax; bad thresholds throw. */
  function NewPolicy(defaults: Policy, warnMax: Setting, holdMax: Setting, legacyMax: Option<Threshold>): Option<Policy> {
    var warn := Effective(defaults.warnMax, warnMax);
    var hold := if legacyMax.Some? && !holdMax.Given? then legacyMax.value else Effective(defaults.holdMax, holdMax);
    if Less(warn, At(0.0)) || Less(At(1.0), hold) || Less(hold, warn) then None
    else Some(defaults.(warnMax := warn, holdMax := hold))
  }

  datatype LookupStatus = Fresh | Cached | Unavailable | Invalid
  datatype Lookup = Lookup(status: LookupStatus, aggregate: Option<Aggregate>, insufficient: bool, stale: bool)

  function Normalize(a: PolicyAction): Decision {
    match a
    case DoWarn => SellAndWarn
    case DoSellAndWarn => SellAndWarn
    case DoStop => Hold
    case DoSell => Sell
    case DoHold => Hold
  }

  function FallbackDecision(f: Fallback): Decision {
    match f
    case Preserve => Sell
    case FallbackWarn => SellAndWarn
    case FallbackHold => Hold
  }

  function ByBound(p: Policy, bound: real): Decision {
    if Less(p.holdMax, At(bound)) then Hold
    else if p.warnMax.At? && bound >= p.warnMax.limit then SellAndWarn
    else Sell
  }

  function Evaluate(p: Policy, l: Lookup): Decision {
    if l.insufficient then Normalize(p.insufficientData)
    else if l.aggregate.None? then FallbackDecision(p.unavailableIndexer)
    else if l.status.Invalid? then FallbackDecision(p.invalidAggregate)
    else if l.stale then FallbackDecision(p.staleAggregate)
    else
      match l.aggregate.value.state
      case InsufficientData => Normalize(p.insufficientData)
      case Provisional => Normalize(p.provisional)
      case Published => ByBound(p, l.aggregate.value.faultRateUpperBound)
  }

  function Severity(d: Decision): nat {
    match d
    case Sell => 0
    case SellAndWarn => 1
    case Hold => 2
  }

  // ---- Adding an observation ----

  lemma {:induction false} CountInsert(a: seq<Observation>, o: Observation, b: seq<Observation>, g: Generation)
    ensures Count(a + [o] + b, g) == Count(a + b, g) + if InWindow(o, g) then 1 else 0
    ensures Faults(a + [o] + b, g) == Faults(a + b, g) + if InWindow(o, g) && IsFault(o) then 1 else 0
  {
    if a == [] {
      assert a + [o] + b == [o] + b && a + b == b && ([o] + b)[1..] == b;
    } else {
      CountInsert(a[1..], o, b, g);
      assert (a + [o] + b)[1..] == a[1..] + [o] + b && (a + b)[1..] == a[1..] + b;
    }
  }

  /** A lookup that found an aggregate and may use it. */
  predicate Usable(l: Lookup) { l.aggregate.Some? && !l.insufficient && !l.status.Invalid? && !l.stale }

  /** An aggregate that may not be used never influences the decision with its numbers. */
  lemma NumbersNeedFreshEvidence(p: Policy, l: Lookup, other: Aggregate)
    requires l.aggregate.Some? && other.state == l.aggregate.value.state
    ensures !Usable(l) || !other.state.Published? ==> Evaluate(p, l) == Evaluate(p, l.(aggregate := Some(other)))
    ensures Usable(l) && other.state.Published? ==> Evaluate(p, l) == ByBound(p, l.aggregate.value.faultRateUpperBound)
    ensures l.insufficient ==> Evaluate(p, l) == Evaluate(p, l.(aggregate := None))
  {
  }

  /**
   * Among published aggregates, one more observation moves the seller's decision one way only: a fault
   * of the provider never softens it, any other call in the window never hardens it, and a call outside
   * the window leaves it alone, as does any call while the lookup is stale, invalid or insufficient.
   */
  lemma ObservationMovesDecision(p: Policy, g: Generation, a: seq<Observation>, o: Observation, b: seq<Observation>,
                                 r: real, r': real, l: Lookup)
    requires g.z > 0.0
    requires IsRoot(Faults(a + b, g), Count(a + b, g), g.z, r)
    requires IsRoot(Faults(a + [o] + b, g), Count(a + [o] + b, g), g.z, r')
    requires BuildAggregate(a + b, g, r).state.Published?
    ensures BuildAggregate(a + [o] + b, g, r').state.Published?
    ensures var with := l.(aggregate := Some(BuildAggregate(a + b, g, r)));
            var before := Severity(Evaluate(p, with));
            var after := Severity(Evaluate(p, l.(aggregate := Some(BuildAggregate(a + [o] + b, g, r')))));
            && (InWindow(o, g) && IsFault(o) ==> before <= after)
            && (InWindow(o, g) && !IsFault(o) ==> after <= before)
            && (!InWindow(o, g) || !Usable(with) ==> before == after)
  {
    var f, n := Faults(a + b, g), Count(a + b, g);
    CountInsert(a, o, b, g);
    var aggregate, aggregate' := BuildAggregate(a + b, g, r), BuildAggregate(a + [o] + b, g, r');
    if InWindow(o, g) {
      if IsFault(o) { FaultNeverLowers(f, n, g.z, r, r'); } else { CleanNeverRaises(f, n, g.z, r, r'); }
    } else if n > 0 {
      BoundIsUpperRoot(f, n, g.z, r);
      BoundIsUpperRoot(f, n, g.z, r');
    }
    NumbersNeedFreshEvidence(p, l.(aggregate := Some(aggregate)), aggregate');
  }

  predicate Ordered(p: Policy) { p.warnMax.At? && p.holdMax.At? && 0.0 <= p.warnMax.limit <= p.holdMax.limit <= 1.0 }

  /**
   * What the constructor says it requires, ordered thresholds in the unit interval, holds of an accepted
   * policy exactly if both are numbers. Then it sells exactly below the warning limit and holds exactly
   * above the holding limit. A limit that is not a number is never applied, and with neither a number
   * every published aggregate is sold on. A larger bound never softens the decision in any case.
   */
  lemma AcceptedPolicy(defaults: Policy, warnMax: Setting, holdMax: Setting, legacyMax: Option<Threshold>)
    requires NewPolicy(defaults, warnMax, holdMax, legacyMax).Some?
    ensures var p := NewPolicy(defaults, warnMax, holdMax, legacyMax).value;
            && (Ordered(p) <==> p.warnMax.At? && p.holdMax.At?)
            && (!holdMax.Given? && legacyMax.Some? ==> p.holdMax == legacyMax.value)
            && (Ordered(p) ==> forall x: real ::
                  (ByBound(p, x).Sell? <==> x < p.warnMax.limit) && (ByBound(p, x).Hold? <==> x > p.holdMax.limit))
            && (p.holdMax.NotANumber? <==> forall x: real :: !ByBound(p, x).Hold?)
            && (p.warnMax.NotANumber? ==> forall x: real :: !ByBound(p, x).SellAndWarn?)
            && (p.warnMax.NotANumber? && p.holdMax.NotANumber? <==> forall x: real :: ByBound(p, x).Sell?)
            && forall x: real, y: real :: x <= y ==> Severity(ByBound(p, x)) <= Severity(ByBound(p, y))
  {
    var p := NewPolicy(defaults, warnMax, holdMax, legacyMax).value;
    if p.holdMax.At? { assert ByBound(p, p.holdMax.limit + 1.0).Hold?; }
    if p.warnMax.At? { assert !ByBound(p, p.warnMax.limit).Sell?; }
  }

  /** An instance: a warning limit of NaN is accepted, and nothing is warned about. */
  lemma NaNIsAccepted(defaults: Policy)
    ensures var p := NewPolicy(defaults, Given(NotANumber), Given(NotANumber), None);
            p.Some? && forall x: real :: ByBound(p.value, x).Sell?
  {
  }

  /** Ordered limits in the unit interval are accepted, and each limit is the one that was given. */
  lemma OrderedIsAccepted(defaults: Policy, warnMax: Setting, holdMax: Setting, legacyMax: Option<Threshold>)
    ensures var r := NewPolicy(defaults, warnMax, holdMax, legacyMax);
            var p := defaults.(warnMax := Effective(defaults.warnMax, warnMax),
                               holdMax := match holdMax
                                          case Given(t) => t
                                          case _ => if legacyMax.Some? then legacyMax.value else Effective(defaults.holdMax, holdMax));
            && (Ordered(p) ==> r == Some(p))
            && (r.Some? ==> r.value == p)
            && (r.None? ==> (p.warnMax.At? && p.warnMax.limit < 0.0) || (p.holdMax.At? && p.holdMax.limit > 1.0)
                            || (p.warnMax.At? && p.holdMax.At? && p.warnMax.limit > p.holdMax.limit))
  {
  }

  /** What a configured action comes to; to stop is to hold. */
  predicate Follows(d: Decision, a: PolicyAction) {
    && (d.Hold? <==> a == DoHold || a == DoStop)
    && (d.SellAndWarn? <==> a == DoWarn || a == DoSellAndWarn)
    && (d.Sell? <==> a == DoSell)
  }

  predicate FallsBack(d: Decision, f: Fallback) {
    (d.Hold? <==> f.FallbackHold?) && (d.SellAndWarn? <==> f.FallbackWarn?) && (d.Sell? <==> f.Preserve?)
  }

  /** Which setting decides: evidence that is missing, unusable or too thin is settled by its own, in this order. */
  lemma DecisionExactly(p: Policy, l: Lookup)
    ensures var d := Evaluate(p, l);
            if l.insufficient then Follows(d, p.insufficientData)
            else if l.aggregate.None? then FallsBack(d, p.unavailableIndexer)
            else if l.status.Invalid? then FallsBack(d, p.invalidAggregate)
            else if l.stale then FallsBack(d, p.staleAggregate)
            else
              var a := l.aggregate.value;
              && (a.state.InsufficientData? ==> Follows(d, p.insufficientData))
              && (a.state.Provisional? ==> Follows(d, p.provisional))
              && (a.state.Published? ==>
                    (d.Hold? <==> p.holdMax.At? && a.faultRateUpperBound > p.holdMax.limit)
                    && (d.Sell? <==> !d.Hold? && (p.warnMax.At? ==> a.faultRateUpperBound < p.warnMax.limit)))
  {
  }

  /** The positions of the observations of the window, and of the faults among them. */
  ghost function Recent(obs: seq<Observation>, now: int, windowSeconds: int): set<nat> {
    set i: nat | i < |obs| && now - windowSeconds <= obs[i].observedAt && obs[i].observedAt <= now
  }

  ghost function Blamed(obs: seq<Observation>, now: int, windowSeconds: int): set<nat> {
    set i: nat | i < |obs| && now - windowSeconds <= obs[i].observedAt && obs[i].observedAt <= now
                 && obs[i].providerAtFault && obs[i].attributable == Provider
  }

  lemma RecentGrows(obs: seq<Observation>, o: Observation, g: Generation)
    ensures |Recent(obs + [o], g.now, g.windowSeconds)| == |Recent(obs, g.now, g.windowSeconds)| + if InWindow(o, g) then 1 else 0
  {
    var k, recent := |obs|, Recent(obs, g.now, g.windowSeconds);
    assert forall i: nat :: i < k ==> (obs + [o])[i] == obs[i];
    if InWindow(o, g) {
      assert Recent(obs + [o], g.now, g.windowSeconds) == recent + {k};
    } else {
      assert Recent(obs + [o], g.now, g.windowSeconds) == recent;
    }
  }

  lemma BlamedGrows(obs: seq<Observation>, o: Observation, g: Generation)
    ensures |Blamed(obs + [o], g.now, g.windowSeconds)|
            == |Blamed(obs, g.now, g.windowSeconds)| + if InWindow(o, g) && IsFault(o) then 1 else 0
  {
    var k, blamed := |obs|, Blamed(obs, g.now, g.windowSeconds);
    assert forall i: nat :: i < k ==> (obs + [o])[i] == obs[i];
    if InWindow(o, g) && IsFault(o) {
      assert Blamed(obs + [o], g.now, g.windowSeconds) == blamed + {k};
    } else {
      assert Blamed(obs + [o], g.now, g.windowSeconds) == blamed;
    }
  }

  lemma {:induction false} CountsPositions(obs: seq<Observation>, g: Generation)
    ensures Count(obs, g) == |Recent(obs, g.now, g.windowSeconds)|
    ensures Faults(obs, g) == |Blamed(obs, g.now, g.windowSeconds)|
  {
    if obs == [] {
      assert Recent(obs, g.now, g.windowSeconds) == {} && Blamed(obs, g.now, g.windowSeconds) == {};
    } else {
      var k := |obs| - 1;
      CountsPositions(obs[..k], g);
      RecentGrows(obs[..k], obs[k], g);
      BlamedGrows(obs[..k], obs[k], g);
      CountInsert(obs[..k], obs[k], [], g);
      assert obs[..k] + [obs[k]] == obs && obs + [] == obs && obs[..k] + [] == obs[..k];
    }
  }

  /** What an aggregate says: how many observations the window holds, how many blame the provider, and how far to trust it. */
  lemma AggregateExactly(obs: seq<Observation>, g: Generation, root: real)
    ensures var a := BuildAggregate(obs, g, root);
            && a.n == |Recent(obs, g.now, g.windowSeconds)| && a.faultsObserved == |Blamed(obs, g.now, g.windowSeconds)|
            && a.faultRateUpperBound == WilsonUpperBound(a.faultsObserved, a.n, g.z, root)
            && (a.state.Published? <==> a.n >= g.publishedThreshold)
            && (a.state.Provisional? <==> g.provisionalThreshold <= a.n < g.publishedThreshold)
            && (a.state.InsufficientData? <==> a.n < g.provisionalThreshold && a.n < g.publishedThreshold)
  {
    CountsPositions(obs, g);
  }
}
