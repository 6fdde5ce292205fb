/**
 * The RPC failover coordinator: one provider is chosen for a submission, all are asked for a
 * transaction's status. The network is an oracle: what the i-th call of a request gets back.
 */
module RpcCoordinator {
  import opened Options

  datatype Method = SendTransaction | GetTransaction | GetHealth | Other

  /** The status field of a result; NoStatus when it is absent. */
  datatype TxStatus = Success | Failed | Pending | Duplicate | NotFound | OtherStatus | NoStatus

  /** A JSON-RPC response: an error, or a result with a status. */
  datatype Response = RpcResult(status: TxStatus) | RpcError(code: int)

  /** What fetch yields: nothing usable (refused, timed out, bad HTTP status), or a body. */
  datatype Reply = NoReply | Body(response: Response)

  datatype Provider = Provider(url: string, healthy: bool, consecutiveFailures: nat)

  /** A call the coordinator made: to which provider, what for. */
  datatype Sent = Sent(url: string, request: Method)

  /** The codes that count as a failing provider. */
  predicate Retryable(r: Response) { r.RpcError? && -32099 <= r.code <= -32000 }

  /** What `call` hands on: the body, or None when it throws. */
  function CallResult(reply: Reply): Option<Response> {
    match reply
    case NoReply => None
    case Body(r) => if Retryable(r) then None else Some(r)
  }

  predicate Final(s: TxStatus) { s.Success? || s.Failed? }

  /** The indices of the providers, healthy ones first, otherwise in configured order. */
  function Ordered(ps: seq<Provider>): seq<nat> {
    Filter(ps, true, 0) + Filter(ps, false, 0)
  }

  function Filter(ps: seq<Provider>, healthy: bool, from: nat): (r: seq<nat>)
    requires from <= |ps|
    ensures forall a :: 0 <= a < |r| ==> from <= r[a] < |ps| && ps[r[a]].healthy == healthy
    decreases |ps| - from
  {
    if from == |ps| then []
    else if ps[from].healthy == healthy then [from] + Filter(ps, healthy, from + 1)
    else Filter(ps, healthy, from + 1)
  }

  ghost predicate Increasing(r: seq<nat>) { forall a, b :: 0 <= a < b < |r| ==> r[a] < r[b] }

  lemma {:induction false} FilterIncreases(ps: seq<Provider>, healthy: bool, from: nat)
    requires from <= |ps|
    ensures Increasing(Filter(ps, healthy, from))
    decreases |ps| - from
  {
    if from < |ps| {
      FilterIncreases(ps, healthy, from + 1);
      var r, rest := Filter(ps, healthy, from), Filter(ps, healthy, from + 1);
      if ps[from].healthy == healthy {
        assert r == [from] + rest;
        forall a, b | 0 <= a < b < |r| ensures r[a] < r[b] {
          assert r[b] == rest[b - 1];
          if a > 0 { assert r[a] == rest[a - 1]; }
        }
      }
    }
  }

  lemma {:induction false} FilterFinds(ps: seq<Provider>, from: nat, i: nat)
    requires from <= i < |ps|
    ensures i in Filter(ps, ps[i].healthy, from)
    decreases |ps| - from
  {
    if from < i { FilterFinds(ps, from + 1, i); }
  }

  lemma OrderedInRange(ps: seq<Provider>)
    ensures var order := Ordered(ps); forall a :: 0 <= a < |order| ==> order[a] < |ps|
  {
    var up, down, order := Filter(ps, true, 0), Filter(ps, false, 0), Ordered(ps);
    assert forall a :: 0 <= a < |order| ==> order[a] == if a < |up| then up[a] else down[a - |up|];
  }

  /** The sort is stable: healthy providers come first, each group in configured order, nobody twice or left out. */
  lemma HealthyFirst(ps: seq<Provider>)
    ensures var order := Ordered(ps);
            && (forall a :: 0 <= a < |order| ==> order[a] < |ps|)
            && (forall a, b :: 0 <= a < b < |order| ==>
                  if ps[order[a]].healthy == ps[order[b]].healthy then order[a] < order[b] else ps[order[a]].healthy)
            && forall i: nat :: i < |ps| ==> i in order
  {
    var up, down, order := Filter(ps, true, 0), Filter(ps, false, 0), Ordered(ps);
    OrderedInRange(ps);
    FilterIncreases(ps, true, 0);
    FilterIncreases(ps, false, 0);
    forall a, b | 0 <= a < b < |order|
      ensures if ps[order[a]].healthy == ps[order[b]].healthy then order[a] < order[b] else ps[order[a]].healthy
    {
      assert order[a] == if a < |up| then up[a] else down[a - |up|];
      assert order[b] == if b < |up| then up[b] else down[b - |up|];
    }
    forall i: nat | i < |ps| ensures i in order { FilterFinds(ps, 0, i); }
  }

  // ---- What providers' answers amount to ----

  /** The verdict on a transaction: a final status, a contradiction, or nothing final. */
  datatype Verdict = Settled(status: TxStatus) | Disagreement | Open

  ghost predicate Reported(responses: seq<Response>, s: TxStatus) { RpcResult(s) in responses }

  function FirstFinal(responses: seq<Response>): Option<TxStatus> {
    if responses == [] then None
    else if responses[0].RpcResult? && Final(responses[0].status) then Some(responses[0].status)
    else FirstFinal(responses[1..])
  }

  function Finals(responses: seq<Response>): set<TxStatus> {
    set r | r in responses && r.RpcResult? && Final(r.status) :: r.status
  }

  function VerdictOf(responses: seq<Response>): Verdict {
    if |Finals(responses)| > 1 then Disagreement
    else match FirstFinal(responses) case Some(s) => Settled(s) case None => Open
  }

  lemma {:induction false} FirstFinalIsReported(responses: seq<Response>)
    ensures FirstFinal(responses).None? ==> Finals(responses) == {}
    ensures FirstFinal(responses).Some? ==> Final(FirstFinal(responses).value) && Reported(responses, FirstFinal(responses).value)
  {
    if responses != [] {
      FirstFinalIsReported(responses[1..]);
      assert responses == [responses[0]] + responses[1..];
    }
  }

  lemma FinalsSize(responses: seq<Response>)
    ensures |Finals(responses)| > 1 <==> Reported(responses, Success) && Reported(responses, Failed)
  {
    var fs := Finals(responses);
    assert forall s :: s in fs <==> Final(s) && RpcResult(s) in responses;
    if Success in fs && Failed in fs {
      assert {Success, Failed} <= fs;
      Subset({Success, Failed}, fs);
    } else if Success in fs {
      assert fs == {Success};
    } else if Failed in fs {
      assert fs == {Failed};
    } else {
      assert fs == {};
    }
  }

  lemma Subset<T>(a: set<T>, b: set<T>)
    requires a <= b
    ensures |a| <= |b|
  {
    assert b == a + (b - a);
  }

  /**
   * A final status is used exactly when some provider reported it and none reported the other; the
   * verdict depends on the set of answers only, not on the order providers were asked in.
   */
  lemma VerdictIsUnanimous(responses: seq<Response>)
    ensures forall s :: VerdictOf(responses) == Settled(s)
              <==> Final(s) && Reported(responses, s) && forall o :: Final(o) && Reported(responses, o) ==> o == s
    ensures VerdictOf(responses) == Disagreement <==> Reported(responses, Success) && Reported(responses, Failed)
    ensures VerdictOf(responses) == Open <==> !Reported(responses, Success) && !Reported(responses, Failed)
  {
    FinalsSize(responses);
    FirstFinalIsReported(responses);
    assert forall s :: Final(s) && Reported(responses, s) ==> s in Finals(responses);
  }

  lemma OrderIrrelevant(a: seq<Response>, b: seq<Response>)
    requires forall r :: r in a <==> r in b
    ensures VerdictOf(a) == VerdictOf(b)
  {
    VerdictIsUnanimous(a);
    VerdictIsUnanimous(b);
    assert forall s :: Reported(a, s) <==> Reported(b, s);
  }

  // ---- What a reconciliation and a submission answer ----

  const DISAGREE: int := -32003
  const UNAVAILABLE: int := -32001

  /** The results, errors left out, of asking the providers in the given order. */
  function Collect(order: seq<nat>, replies: nat -> Reply): seq<Response> {
    if order == [] then [] else Kept(replies(order[0])) + Collect(order[1..], replies)
  }

  function Kept(reply: Reply): seq<Response> {
    var r := CallResult(reply);
    if r.Some? && r.value.RpcResult? then [r.value] else []
  }

  lemma CollectThrough(done: seq<Response>, order: seq<nat>, k: nat, replies: nat -> Reply)
    requires k < |order|
    ensures var r := CallResult(replies(order[k]));
            done + Collect(order[k..], replies)
            == (if r.Some? && r.value.RpcResult? then done + [r.value] else done) + Collect(order[k + 1..], replies)
  {
    assert order[k..][0] == order[k] && order[k..][1..] == order[k + 1..];
    assert done + [] == done;
  }

  /** Without a final status: the first answer that knows the transaction, else the first answer. */
  function FirstKnown(responses: seq<Response>): Option<Response> {
    if responses == [] then None
    else if responses[0] != RpcResult(NotFound) then Some(responses[0])
    else
      var later := FirstKnown(responses[1..]);
      if later.Some? && later.value != RpcResult(NotFound) then later else Some(responses[0])
  }

  function Reconciled(responses: seq<Response>): Response {
    match VerdictOf(responses)
    case Settled(s) => RpcResult(s)
    case Disagreement => RpcError(DISAGREE)
    case Open => match FirstKnown(responses) case Some(r) => r case None => RpcError(UNAVAILABLE)
  }

  /** What a client of the coordinator gets; `uncertain` marks a submission nobody could confirm. */
  datatype Answer = Answer(response: Response, uncertain: bool)

  /** The answer to a submission whose own call failed, from the results of the status lookups. */
  function AfterLostSubmission(responses: seq<Response>): Answer {
    var r := Reconciled(responses);
    if r.RpcError? then Answer(r, false)
    else if r.status.Success? || r.status.Pending? || r.status.Duplicate? then Answer(RpcResult(Pending), false)
    else if r.status.Failed? then Answer(r, false)
    else Answer(RpcResult(Pending), true)
  }

  /** The answer picked when nothing is final is somebody's, and NOT_FOUND only if nobody says anything else. */
  lemma {:induction false} FirstKnownIsReported(responses: seq<Response>)
    ensures FirstKnown(responses).None? <==> responses == []
    ensures FirstKnown(responses).Some? ==> FirstKnown(responses).value in responses
    ensures FirstKnown(responses) == Some(RpcResult(NotFound)) <==>
              responses != [] && forall r :: r in responses ==> r == RpcResult(NotFound)
  {
    if responses != [] {
      FirstKnownIsReported(responses[1..]);
      assert responses == [responses[0]] + responses[1..];
    }
  }

  lemma {:induction false} CollectsResults(order: seq<nat>, replies: nat -> Reply)
    ensures forall r :: r in Collect(order, replies) <==>
              exists i :: i in order && CallResult(replies(i)) == Some(r) && r.RpcResult?
  {
    if order != [] {
      CollectsResults(order[1..], replies);
      assert order == [order[0]] + order[1..];
    }
  }

  lemma ReconciledCases(answers: seq<Response>)
    requires forall r :: r in answers ==> r.RpcResult?
    ensures var r := Reconciled(answers);
            && (r == RpcResult(Success) <==> Reported(answers, Success) && !Reported(answers, Failed))
            && (r == RpcResult(Failed) <==> Reported(answers, Failed) && !Reported(answers, Success))
            && (r == RpcError(DISAGREE) <==> Reported(answers, Failed) && Reported(answers, Success))
            && (r == RpcError(UNAVAILABLE) <==> answers == [])
            && (r == RpcResult(NotFound) <==> answers != [] && forall a :: a in answers ==> a == RpcResult(NotFound))
            && (r.RpcError? ==> r.code == DISAGREE || r.code == UNAVAILABLE)
            && (answers != [] && !Reported(answers, Success) && !Reported(answers, Failed) ==> FirstKnown(answers) == Some(r))
  {
    VerdictIsUnanimous(answers);
    FirstKnownIsReported(answers);
    if answers != [] { assert answers[0] in answers; }
  }

  /**
   * A submission with an unknown outcome is called failed exactly when some provider reported that and
   * none reported success; contradictory reports give an error; and it is never reported as a success.
   */
  lemma LostSubmissionVerdict(answers: seq<Response>)
    requires forall r :: r in answers ==> r.RpcResult?
    ensures var a := AfterLostSubmission(answers);
            && (a.response == RpcResult(Failed) <==> Reported(answers, Failed) && !Reported(answers, Success))
            && (a.response == RpcError(DISAGREE) <==> Reported(answers, Failed) && Reported(answers, Success))
            && (a.response == RpcError(UNAVAILABLE) <==> answers == [])
            && (Reported(answers, Success) && !Reported(answers, Failed) ==> a == Answer(RpcResult(Pending), false))
            && (a.uncertain <==> !Reported(answers, Success) && !Reported(answers, Failed) && answers != []
                                 && FirstKnown(answers) !in {Some(RpcResult(Pending)), Some(RpcResult(Duplicate))})
            && ((forall r :: r in answers ==> r == RpcResult(NotFound)) && answers != [] ==> a == Answer(RpcResult(Pending), true))
            && a.response in {RpcResult(Failed), RpcResult(Pending), RpcError(DISAGREE), RpcError(UNAVAILABLE)}
  {
    ReconciledCases(answers);
  }

  /** A reconciliation hears every provider. */
  lemma EveryProviderHeard(ps: seq<Provider>, replies: nat -> Reply)
    ensures forall r :: r in Collect(Ordered(ps), replies) <==>
              exists i :: 0 <= i < |ps| && CallResult(replies(i)) == Some(r) && r.RpcResult?
  {
    CollectsResults(Ordered(ps), replies);
    HealthyFirst(ps);
    assert forall i :: i in Ordered(ps) <==> 0 <= i < |ps|;
  }

  // ---- Provider health ----

  /** A provider's health after a call to it. */
  function Noted(ps: seq<Provider>, i: nat, reply: Reply): (r: seq<Provider>)
    ensures |r| == |ps|
  {
    if i >= |ps| then ps
    else ps[i := if CallResult(reply).Some? then ps[i].(healthy := true, consecutiveFailures := 0)
                 else ps[i].(healthy := false, consecutiveFailures := ps[i].consecutiveFailures + 1)]
  }

  /** The health of all providers after calling those in `order`. */
  function NotedAll(ps: seq<Provider>, order: seq<nat>, replies: nat -> Reply): seq<Provider>
    decreases |order|
  {
    if order == [] then ps
    else NotedAll(Noted(ps, order[0], replies(order[0])), order[1..], replies)
  }

  predicate Answers(reply: Reply) { CallResult(reply).Some? && CallResult(reply).value.RpcResult? }

  /** The providers that are probed: up to the first in the order that answers without an error. */
  function Probed(order: seq<nat>, probes: nat -> Reply): (r: seq<nat>)
    ensures forall i :: i in r ==> i in order
  {
    if order == [] then []
    else if Answers(probes(order[0])) then [order[0]]
    else [order[0]] + Probed(order[1..], probes)
  }

  /** The first provider in the given order whose probe answers without an error. */
  function FirstHealthy(order: seq<nat>, probes: nat -> Reply): (r: Option<nat>)
    ensures r.Some? ==> r.value in order
  {
    if order == [] then None
    else if Answers(probes(order[0])) then Some(order[0])
    else FirstHealthy(order[1..], probes)
  }

  lemma FirstHealthyInRange(ps: seq<Provider>, probes: nat -> Reply)
    ensures FirstHealthy(Ordered(ps), probes).Some? ==> FirstHealthy(Ordered(ps), probes).value < |ps|
  {
    OrderedInRange(ps);
  }

  lemma NotedThrough(ps: seq<Provider>, order: seq<nat>, k: nat, replies: nat -> Reply)
    requires k < |order|
    ensures NotedAll(ps, order[k..], replies) == NotedAll(Noted(ps, order[k], replies(order[k])), order[k + 1..], replies)
  {
    assert order[k..][0] == order[k] && order[k..][1..] == order[k + 1..];
  }

  lemma StepThrough(order: seq<nat>, k: nat, replies: nat -> Reply)
    requires k < |order|
    ensures FirstHealthy(order[k..], replies) == if Answers(replies(order[k])) then Some(order[k]) else FirstHealthy(order[k + 1..], replies)
    ensures Probed(order[k..], replies) == [order[k]] + if Answers(replies(order[k])) then [] else Probed(order[k + 1..], replies)
  {
    assert order[k..][0] == order[k] && order[k..][1..] == order[k + 1..];
  }

  /** Probing one provider more. */
  lemma ProbeThrough(ps: seq<Provider>, order: seq<nat>, k: nat, probes: nat -> Reply)
    requires k < |order|
    ensures var ps' := Noted(ps, order[k], probes(order[k]));
            NotedAll(ps, Probed(order[k..], probes), probes)
            == if Answers(probes(order[k])) then ps' else NotedAll(ps', Probed(order[k + 1..], probes), probes)
    ensures FirstHealthy(order[k..], probes) == if Answers(probes(order[k])) then Some(order[k]) else FirstHealthy(order[k + 1..], probes)
  {
    StepThrough(order, k, probes);
    var probed := Probed(order[k..], probes);
    assert probed[0] == order[k];
    assert probed[1..] == if Answers(probes(order[k])) then [] else Probed(order[k + 1..], probes);
  }

  lemma {:induction false} NotedAllSize(ps: seq<Provider>, order: seq<nat>, replies: nat -> Reply)
    ensures |NotedAll(ps, order, replies)| == |ps|
    ensures forall j :: 0 <= j < |ps| ==> NotedAll(ps, order, replies)[j].url == ps[j].url
    decreases |order|
  {
    if order != [] {
      NotedAllSize(Noted(ps, order[0], replies(order[0])), order[1..], replies);
    }
  }

  /** A reply that counts for the provider: a body that is no error, or an error outside the range reserved for servers. */
  predicate Usable(reply: Reply) {
    reply.Body? && (reply.response.RpcResult? || reply.response.code < -32099 || reply.response.code > -32000)
  }

  lemma {:induction false} NotedAt(ps: seq<Provider>, order: seq<nat>, replies: nat -> Reply, i: nat)
    requires i < |ps| && forall a, b :: 0 <= a < b < |order| ==> order[a] != order[b]
    ensures |NotedAll(ps, order, replies)| == |ps|
    ensures NotedAll(ps, order, replies)[i] ==
            if i !in order then ps[i]
            else ps[i].(healthy := Usable(replies(i)), consecutiveFailures := if Usable(replies(i)) then 0 else ps[i].consecutiveFailures + 1)
    decreases |order|
  {
    if order != [] {
      NotedAt(Noted(ps, order[0], replies(order[0])), order[1..], replies, i);
      assert order == [order[0]] + order[1..];
      if i == order[0] { assert i !in order[1..]; }
    }
  }

  /**
   * After a reconciliation a provider counts as healthy exactly if its reply was usable; its run of
   * failures is then over, and otherwise one longer.
   */
  lemma HealthAfterAsking(ps: seq<Provider>, replies: nat -> Reply, i: nat)
    requires i < |ps|
    ensures |NotedAll(ps, Ordered(ps), replies)| == |ps|
    ensures var p := NotedAll(ps, Ordered(ps), replies)[i];
            && p.url == ps[i].url && (p.healthy <==> Usable(replies(i)))
            && p.consecutiveFailures == if Usable(replies(i)) then 0 else ps[i].consecutiveFailures + 1
  {
    HealthyFirst(ps);
    NotedAt(ps, Ordered(ps), replies, i);
  }

  /** The chosen provider answers its probe and nobody before it does; without one, nobody does. */
  lemma {:induction false} ChosenIsFirst(order: seq<nat>, probes: nat -> Reply)
    ensures var r := FirstHealthy(order, probes);
            && (r.Some? ==> exists k :: 0 <= k < |order| && order[k] == r.value && Answers(probes(order[k]))
                                        && forall j :: 0 <= j < k ==> !Answers(probes(order[j])))
            && (r.None? ==> forall j :: 0 <= j < |order| ==> !Answers(probes(order[j])))
  {
    if order != [] && !Answers(probes(order[0])) {
      ChosenIsFirst(order[1..], probes);
      var r := FirstHealthy(order, probes);
      if r.Some? {
        var k :| 0 <= k < |order[1..]| && order[1..][k] == r.value && Answers(probes(order[1..][k]))
                 && forall j :: 0 <= j < k ==> !Answers(probes(order[1..][j]));
        assert order[k + 1] == r.value;
        forall j | 0 <= j < k + 1 ensures !Answers(probes(order[j])) {
          if j > 0 { assert order[j] == order[1..][j - 1]; }
        }
      } else {
        forall j | 0 <= j < |order| ensures !Answers(probes(order[j])) {
          if j > 0 { assert order[j] == order[1..][j - 1]; }
        }
      }
    }
  }

  /** Choosing a provider probes those up to the chosen one, in order, and nobody behind it. */
  lemma {:induction false} ProbesUpToChosen(order: seq<nat>, probes: nat -> Reply)
    ensures Probed(order, probes) <= order
    ensures FirstHealthy(order, probes).None? ==> Probed(order, probes) == order
    ensures FirstHealthy(order, probes).Some? ==>
              var probed := Probed(order, probes); probed != [] && probed[|probed| - 1] == FirstHealthy(order, probes).value
  {
    if order != [] && !Answers(probes(order[0])) { ProbesUpToChosen(order[1..], probes); }
  }

  // ---- The coordinator ----

  class Coordinator {
    var providers: seq<Provider>
    ghost var log: seq<Sent>

    constructor (urls: seq<string>)
      ensures |providers| == |urls| && log == []
      ensures forall i :: 0 <= i < |urls| ==> providers[i] == Provider(urls[i], true, 0)
    {
      providers := seq(|urls|, i requires 0 <= i < |urls| => Provider(urls[i], true, 0));
      log := [];
    }

    /** Sends one request and records the provider's health. */
    method Call(i: nat, request: Method, reply: Reply) returns (r: Option<Response>)
      requires i < |providers|
      modifies this
      ensures r == CallResult(reply) && log == old(log) + [Sent(old(providers[i].url), request)]
      ensures providers == Noted(old(providers), i, reply)
    {
      log := log + [Sent(providers[i].url, request)];
      r := CallResult(reply);
      if r.Some? {
        providers := providers[i := providers[i].(healthy := true, consecutiveFailures := 0)];
      } else {
        providers := providers[i := providers[i].(healthy := false, consecutiveFailures := providers[i].consecutiveFailures + 1)];
      }
    }

    /** Asks every provider for the status and weighs the answers; replies(i) is what provider i says. */
    method Reconcile(replies: nat -> Reply) returns (r: Response)
      modifies this
      ensures r == Reconciled(Collect(Ordered(old(providers)), replies))
      ensures providers == NotedAll(old(providers), Ordered(old(providers)), replies)
      ensures NoSubmission(old(log), log)
    {
      var responses := AskAll(replies);
      r := Weigh(responses);
    }

    /** The loop of a reconciliation over the providers. */
    method AskAll(replies: nat -> Reply) returns (responses: seq<Response>)
      modifies this
      ensures responses == Collect(Ordered(old(providers)), replies)
      ensures providers == NotedAll(old(providers), Ordered(old(providers)), replies)
      ensures NoSubmission(old(log), log)
    {
      var order := Ordered(providers);
      OrderedInRange(providers);
      responses := [];
      var k := 0;
      assert order[0..] == order;
      while k < |order|
        invariant 0 <= k <= |order| && |providers| == |old(providers)|
        invariant NoSubmission(old(log), log)
        invariant NotedAll(providers, order[k..], replies) == NotedAll(old(providers), order, replies)
        invariant responses + Collect(order[k..], replies) == Collect(order, replies)
      {
        NotedThrough(providers, order, k, replies);
        CollectThrough(responses, order, k, replies);
        var response := Call(order[k], GetTransaction, replies(order[k]));
        if response.Some? && response.value.RpcResult? {
          responses := responses + [response.value];
        }
        k := k + 1;
      }
      assert order[k..] == [] && responses + [] == responses;
    }

    /** The end of a reconciliation: final statuses first, then whatever is known. */
    static method Weigh(responses: seq<Response>) returns (r: Response)
      ensures r == Reconciled(responses)
    {
      if |Finals(responses)| > 1 { return RpcError(DISAGREE); }
      var final := FirstFinal(responses);
      if final.Some? { return RpcResult(final.value); }
      var n := 0;
      assert responses[0..] == responses;
      while n < |responses|
        invariant 0 <= n <= |responses|
        invariant forall j :: 0 <= j < n ==> responses[j] == RpcResult(NotFound)
      {
        if responses[n] != RpcResult(NotFound) {
          FirstKnownAt(responses, n);
          return responses[n];
        }
        n := n + 1;
      }
      FirstKnownIsReported(responses);
      if |responses| > 0 { return responses[0]; }
      return RpcError(UNAVAILABLE);
    }

    /** Probes providers in health order until one answers without an error. */
    method SelectProvider(probes: nat -> Reply) returns (provider: Option<nat>)
      modifies this
      ensures provider == FirstHealthy(Ordered(old(providers)), probes)
      ensures providers == NotedAll(old(providers), Probed(Ordered(old(providers)), probes), probes)
      ensures NoSubmission(old(log), log)
    {
      var order := Ordered(providers);
      OrderedInRange(providers);
      provider := None;
      var k := 0;
      assert order[0..] == order;
      while k < |order| && provider.None?
        invariant 0 <= k <= |order| && |providers| == |old(providers)|
        invariant NoSubmission(old(log), log)
        invariant provider.None? ==> FirstHealthy(order, probes) == FirstHealthy(order[k..], probes)
        invariant provider.None? ==>
                    NotedAll(providers, Probed(order[k..], probes), probes) == NotedAll(old(providers), Probed(order, probes), probes)
        invariant provider.Some? ==>
                    provider == FirstHealthy(order, probes) && providers == NotedAll(old(providers), Probed(order, probes), probes)
      {
        ProbeThrough(providers, order, k, probes);
        var response := Call(order[k], GetHealth, probes(order[k]));
        if response.Some? && response.value.RpcResult? {
          assert Answers(probes(order[k]));
          provider := Some(order[k]);
        }
        k := k + 1;
      }
    }

    /** Makes the one submission and, if its outcome is unknown, asks around. */
    method Submit(provider: nat, send: nat -> Reply, replies: nat -> Reply) returns (answer: Answer)
      requires provider < |providers|
      modifies this
      ensures NoSubmission(old(log) + [Sent(old(providers[provider].url), SendTransaction)], log)
      ensures (answer, providers) == SubmitOutcome(old(providers), provider, send, replies)
    {
      var response := Call(provider, SendTransaction, send(provider));
      if response.Some? { return Answer(response.value, false); }
      var reconciled := Reconcile(replies);
      if reconciled.RpcError? { return Answer(reconciled, false); }
      if reconciled.status.Success? || reconciled.status.Pending? || reconciled.status.Duplicate? {
        return Answer(RpcResult(Pending), false);
      }
      if reconciled.status.Failed? { return Answer(reconciled, false); }
      return Answer(RpcResult(Pending), true);
    }

    /**
     * Submits a transaction. probes(i), send(i) and replies(i) are what provider i answers to a health
     * probe, the submission and a status lookup. At most one provider is ever sent the transaction: the
     * first in health order that answers its probe.
     */
    method HandleSubmission(probes: nat -> Reply, send: nat -> Reply, replies: nat -> Reply) returns (answer: Answer)
      modifies this
      ensures old(log) <= log
      ensures var chosen := FirstHealthy(Ordered(old(providers)), probes);
              Submissions(log[|old(log)|..]) == if chosen.Some? then [old(providers)[chosen.value].url] else []
      ensures var chosen := FirstHealthy(Ordered(old(providers)), probes);
              var probed := NotedAll(old(providers), Probed(Ordered(old(providers)), probes), probes);
              && |probed| == |old(providers)|
              && (answer, providers) == if chosen.None? then (Answer(RpcError(UNAVAILABLE), false), probed)
                                        else SubmitOutcome(probed, chosen.value, send, replies)
    {
      NotedAllSize(providers, Probed(Ordered(providers), probes), probes);
      FirstHealthyInRange(providers, probes);
      var provider := SelectProvider(probes);
      ghost var probed := log;
      SubmissionsSince(old(log), old(log), probed);
      if provider.None? { return Answer(RpcError(UNAVAILABLE), false); }
      ghost var url := providers[provider.value].url;
      answer := Submit(provider.value, send, replies);
      LogExtended(probed, Sent(url, SendTransaction), |old(log)|);
      SubmissionsSince(old(log), probed + [Sent(url, SendTransaction)], log);
    }
  }

  /** The answer to a submission through one provider, and the health of all providers afterwards. */
  function SubmitOutcome(ps: seq<Provider>, provider: nat, send: nat -> Reply, replies: nat -> Reply): (Answer, seq<Provider>)
    requires provider < |ps|
  {
    var sent := Noted(ps, provider, send(provider));
    if CallResult(send(provider)).Some? then (Answer(CallResult(send(provider)).value, false), sent)
    else (AfterLostSubmission(Collect(Ordered(sent), replies)), NotedAll(sent, Ordered(sent), replies))
  }

  lemma {:induction false} FirstKnownAt(responses: seq<Response>, n: nat)
    requires n < |responses| && responses[n] != RpcResult(NotFound)
    requires forall j :: 0 <= j < n ==> responses[j] == RpcResult(NotFound)
    ensures FirstKnown(responses) == Some(responses[n])
  {
    if n > 0 { FirstKnownAt(responses[1..], n - 1); }
  }

  /** The log grew, but not by a submission. */
  ghost predicate NoSubmission(log: seq<Sent>, more: seq<Sent>) {
    log <= more && forall k :: |log| <= k < |more| ==> !more[k].request.SendTransaction?
  }

  /** The providers a transaction was sent to. */
  function Submissions(log: seq<Sent>): seq<string> {
    if log == [] then []
    else Submissions(log[..|log| - 1]) + if log[|log| - 1].request.SendTransaction? then [log[|log| - 1].url] else []
  }

  lemma LogExtended(log: seq<Sent>, e: Sent, from: nat)
    requires from <= |log|
    ensures Submissions((log + [e])[from..]) == Submissions(log[from..]) + if e.request.SendTransaction? then [e.url] else []
  {
    assert (log + [e])[from..] == log[from..] + [e];
    assert (log[from..] + [e])[..|log[from..]|] == log[from..];
  }

  lemma {:induction false} SubmissionsSince(start: seq<Sent>, log: seq<Sent>, more: seq<Sent>)
    requires |start| <= |log| && NoSubmission(log, more)
    ensures Submissions(more[|start|..]) == Submissions(log[|start|..])
    ensures log == start ==> Submissions(more[|start|..]) == []
    decreases |more| - |log|
  {
    if |log| < |more| {
      assert more[..|log| + 1] == log + [more[|log|]];
      LogExtended(log, more[|log|], |start|);
      SubmissionsSince(start, log + [more[|log|]], more);
    } else {
      assert log == more;
    }
  }
}
