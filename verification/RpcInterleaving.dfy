/**
 * Submissions and status lookups that overlap in the coordinator: the service switches between requests whenever one waits
 * for a provider, and all of them share the providers' health. A step is the end of one call.
 */
module RpcInterleaving {
  import opened Options
  import opened RpcCoordinator

  type RequestId = nat

  /** Where a submission is; the order of providers is fixed when a loop over them begins. */
  datatype Phase =
    | Probing(left: seq<nat>)
    | Sending(provider: nat)
    | Asking(left: seq<nat>, answers: seq<Response>)
    | Done(answer: Answer)

  /** A call that has ended, with what came back. */
  datatype Entry = Entry(id: RequestId, provider: nat, request: Method, reply: Reply)

  datatype Kind = Submission | StatusLookup

  datatype Request = Request(kind: Kind, phase: Phase)

  datatype Service = Service(providers: seq<Provider>, requests: map<RequestId, Request>, log: seq<Entry>)

  datatype Step =
    | Arrive(id: RequestId, kind: Kind)
    | CallEnded(id: RequestId, reply: Reply)
    | HealthChanged(providers: seq<Provider>)  // reads, anything else

  function StartProbing(order: seq<nat>): Phase {
    if order == [] then Done(Answer(RpcError(UNAVAILABLE), false)) else Probing(order)
  }

  /** What is made of the results once every provider was asked. */
  function Conclude(kind: Kind, answers: seq<Response>): Answer {
    match kind
    case Submission => AfterLostSubmission(answers)
    case StatusLookup => Answer(Reconciled(answers), false)
  }

  function StartAsking(kind: Kind, order: seq<nat>, answers: seq<Response>): Phase {
    if order == [] then Done(Conclude(kind, answers)) else Asking(order, answers)
  }

  function Start(kind: Kind, ps: seq<Provider>): Phase {
    match kind
    case Submission => StartProbing(Ordered(ps))
    case StatusLookup => StartAsking(kind, Ordered(ps), [])
  }

  predicate Waits(phase: Phase) {
    match phase
    case Probing(left) => left != []
    case Sending(_) => true
    case Asking(left, _) => left != []
    case Done(_) => false
  }

  /** The provider a request waits for, and what it asked of it. */
  function Target(phase: Phase): (nat, Method)
    requires Waits(phase)
  {
    match phase
    case Probing(left) => (left[0], GetHealth)
    case Sending(i) => (i, SendTransaction)
    case Asking(left, _) => (left[0], GetTransaction)
  }

  /** What a request does next; `ps` is the health after the call. */
  function Continue(ps: seq<Provider>, kind: Kind, phase: Phase, reply: Reply): Phase
    requires Waits(phase)
  {
    match phase
    case Probing(left) => if Answers(reply) then Sending(left[0]) else StartProbing(left[1..])
    case Sending(_) =>
      if CallResult(reply).Some? then Done(Answer(CallResult(reply).value, false)) else StartAsking(kind, Ordered(ps), [])
    case Asking(left, answers) => StartAsking(kind, left[1..], answers + Kept(reply))
  }

  function Next(g: Service, s: Step): Service {
    match s
    case Arrive(id, kind) =>
      if id in g.requests then g else g.(requests := g.requests[id := Request(kind, Start(kind, g.providers))])
    case CallEnded(id, reply) =>
      if id in g.requests && Waits(g.requests[id].phase) then
        var (kind, phase) := (g.requests[id].kind, g.requests[id].phase);
        var (i, request) := Target(phase);
        var ps := Noted(g.providers, i, reply);
        Service(ps, g.requests[id := Request(kind, Continue(ps, kind, phase, reply))], g.log + [Entry(id, i, request, reply)])
      else g
    case HealthChanged(ps) => if |ps| == |g.providers| then g.(providers := ps) else g
  }

  function Run(g: Service, steps: seq<Step>): Service
    decreases |steps|
  {
    if steps == [] then g else Run(Next(g, steps[0]), steps[1..])
  }

  // ---- What the log says about one request ----

  function Of(log: seq<Entry>, id: RequestId, request: Method): seq<Entry> {
    if log == [] then []
    else
      Of(log[..|log| - 1], id, request)
      + if log[|log| - 1].id == id && log[|log| - 1].request == request then [log[|log| - 1]] else []
  }

  /** The providers asked. */
  function Asked(entries: seq<Entry>): seq<nat> {
    if entries == [] then [] else Asked(entries[..|entries| - 1]) + [entries[|entries| - 1].provider]
  }

  /** The results heard. */
  function Heard(entries: seq<Entry>): seq<Response> {
    if entries == [] then [] else Heard(entries[..|entries| - 1]) + Kept(entries[|entries| - 1].reply)
  }

  lemma OfAppend(log: seq<Entry>, e: Entry, id: RequestId, request: Method)
    ensures Of(log + [e], id, request) == Of(log, id, request) + if e.id == id && e.request == request then [e] else []
  {
    assert (log + [e])[..|log|] == log;
  }

  lemma EntriesAppend(entries: seq<Entry>, e: Entry)
    ensures Asked(entries + [e]) == Asked(entries) + [e.provider] && Heard(entries + [e]) == Heard(entries) + Kept(e.reply)
  {
    assert (entries + [e])[..|entries|] == entries;
  }

  // ---- The invariant ----

  /** All n providers in health order, as some loop found it at its start. */
  ghost predicate AllInOrder(order: seq<nat>, n: nat) { exists ps: seq<Provider> :: |ps| == n && order == Ordered(ps) }

  /**
   * How a request ends, from its calls. A submission: nothing sent, one answered, or one lost and looked
   * into. A status lookup: nothing sent, everybody asked.
   */
  ghost predicate Outcome(n: nat, kind: Kind, sent: seq<Entry>, asked: seq<Entry>, a: Answer) {
    if kind.StatusLookup? then sent == [] && AllInOrder(Asked(asked), n) && a == Answer(Reconciled(Heard(asked)), false) else
    || (sent == [] && asked == [] && a == Answer(RpcError(UNAVAILABLE), false))
    || (|sent| == 1 && asked == [] && CallResult(sent[0].reply) == Some(a.response) && !a.uncertain)
    || (|sent| == 1 && CallResult(sent[0].reply).None? && AllInOrder(Asked(asked), n) && a == AfterLostSubmission(Heard(asked)))
  }

  ghost predicate Traced(n: nat, kind: Kind, sent: seq<Entry>, asked: seq<Entry>, phase: Phase) {
    match phase
    case Probing(left) => kind.Submission? && left != [] && sent == [] && asked == []
    case Sending(_) => kind.Submission? && sent == [] && asked == []
    case Asking(left, answers) =>
      && left != [] && MayAsk(kind, sent)
      && AllInOrder(Asked(asked) + left, n) && answers == Heard(asked)
    case Done(a) => Outcome(n, kind, sent, asked, a)
  }

  /** A submission asks around only after its one call was lost, a lookup without sending anything. */
  ghost predicate MayAsk(kind: Kind, sent: seq<Entry>) {
    if kind.StatusLookup? then sent == [] else |sent| == 1 && CallResult(sent[0].reply).None?
  }

  ghost predicate TracedIn(g: Service, id: RequestId) {
    var sent, asked := Of(g.log, id, SendTransaction), Of(g.log, id, GetTransaction);
    if id in g.requests then Traced(|g.providers|, g.requests[id].kind, sent, asked, g.requests[id].phase) else sent == [] && asked == []
  }

  lemma StartAskingTraced(n: nat, kind: Kind, sent: seq<Entry>, asked: seq<Entry>, left: seq<nat>)
    requires MayAsk(kind, sent) && AllInOrder(Asked(asked) + left, n)
    ensures Traced(n, kind, sent, asked, StartAsking(kind, left, Heard(asked)))
  {
    if left == [] { assert Asked(asked) + left == Asked(asked); }
  }

  lemma StartTraced(ps: seq<Provider>, kind: Kind)
    ensures Traced(|ps|, kind, [], [], Start(kind, ps))
  {
    if kind.StatusLookup? {
      assert Asked([]) + Ordered(ps) == Ordered(ps);
      StartAskingTraced(|ps|, kind, [], [], Ordered(ps));
    }
  }

  lemma ContinueTraced(ps: seq<Provider>, kind: Kind, sent: seq<Entry>, asked: seq<Entry>, phase: Phase, e: Entry)
    requires Waits(phase) && Traced(|ps|, kind, sent, asked, phase) && (e.provider, e.request) == Target(phase)
    ensures Traced(|ps|, kind, sent + if e.request.SendTransaction? then [e] else [],
                   asked + if e.request.GetTransaction? then [e] else [], Continue(ps, kind, phase, e.reply))
  {
    assert sent + [] == sent && asked + [] == asked;
    match phase
    case Probing(left) =>
    case Sending(i) =>
      assert sent + [e] == [e] && Asked(asked) + Ordered(ps) == Ordered(ps);
      if CallResult(e.reply).None? { StartAskingTraced(|ps|, kind, [e], asked, Ordered(ps)); }
    case Asking(left, answers) =>
      EntriesAppend(asked, e);
      assert Asked(asked) + left == Asked(asked + [e]) + left[1..];
      StartAskingTraced(|ps|, kind, sent, asked + [e], left[1..]);
  }

  lemma OwnCallTraced(g: Service, id: RequestId, reply: Reply)
    requires TracedIn(g, id) && id in g.requests && Waits(g.requests[id].phase)
    ensures TracedIn(Next(g, CallEnded(id, reply)), id)
  {
    var kind, phase := g.requests[id].kind, g.requests[id].phase;
    var (i, request) := Target(phase);
    var e := Entry(id, i, request, reply);
    OfAppend(g.log, e, id, SendTransaction);
    OfAppend(g.log, e, id, GetTransaction);
    ContinueTraced(Noted(g.providers, i, reply), kind, Of(g.log, id, SendTransaction), Of(g.log, id, GetTransaction), phase, e);
  }

  /** Steps of other requests leave this one's phase and log alone. */
  lemma OthersCallTraced(g: Service, other: RequestId, reply: Reply, id: RequestId)
    requires TracedIn(g, id) && other != id
    ensures TracedIn(Next(g, CallEnded(other, reply)), id)
  {
    if other in g.requests && Waits(g.requests[other].phase) {
      var (i, request) := Target(g.requests[other].phase);
      OfAppend(g.log, Entry(other, i, request, reply), id, SendTransaction);
      OfAppend(g.log, Entry(other, i, request, reply), id, GetTransaction);
      var h := Next(g, CallEnded(other, reply));
      var sent, asked := Of(g.log, id, SendTransaction), Of(g.log, id, GetTransaction);
      assert sent + [] == sent && asked + [] == asked;
      assert Of(h.log, id, SendTransaction) == sent && Of(h.log, id, GetTransaction) == asked;
    }
  }

  lemma NextTraced(g: Service, s: Step, id: RequestId)
    requires TracedIn(g, id)
    ensures TracedIn(Next(g, s), id) && |Next(g, s).providers| == |g.providers|
  {
    match s
    case CallEnded(other, reply) =>
      if other != id {
        OthersCallTraced(g, other, reply, id);
      } else if id in g.requests && Waits(g.requests[id].phase) {
        OwnCallTraced(g, id, reply);
      }
    case Arrive(_, kind) => StartTraced(g.providers, kind);
    case _ =>
  }

  lemma {:induction false} RunTraced(g: Service, steps: seq<Step>, id: RequestId)
    requires TracedIn(g, id)
    ensures TracedIn(Run(g, steps), id) && |Run(g, steps).providers| == |g.providers|
    decreases |steps|
  {
    if steps != [] {
      NextTraced(g, steps[0], id);
      RunTraced(Next(g, steps[0]), steps[1..], id);
    }
  }

  // ---- The promises ----

  /**
   * However requests overlap and health changes, each submission sends its transaction at most once and,
   * when it has ended, answers what that call brought, or what all providers told about it.
   */
  lemma OneSubmissionEach(ps: seq<Provider>, steps: seq<Step>, id: RequestId)
    ensures var g := Run(Service(ps, map[], []), steps);
            && |Of(g.log, id, SendTransaction)| <= 1
            && (id in g.requests && g.requests[id].phase.Done? ==>
                  Outcome(|ps|, g.requests[id].kind, Of(g.log, id, SendTransaction), Of(g.log, id, GetTransaction),
                          g.requests[id].phase.answer))
  {
    RunTraced(Service(ps, map[], []), steps, id);
  }

  /** All n providers, none twice. */
  ghost predicate EverybodyOnce(asked: seq<nat>, n: nat) {
    && (forall i: nat :: i < n ==> i in asked)
    && forall k, l :: 0 <= k < l < |asked| ==> asked[k] != asked[l]
  }

  lemma AllInOrderIsEverybody(order: seq<nat>, n: nat)
    requires AllInOrder(order, n)
    ensures EverybodyOnce(order, n)
  {
    var ps: seq<Provider> :| |ps| == n && order == Ordered(ps);
    HealthyFirst(ps);
  }

  lemma {:induction false} HeardAreResults(entries: seq<Entry>)
    ensures forall r :: r in Heard(entries) ==> r.RpcResult?
  {
    if entries != [] { HeardAreResults(entries[..|entries| - 1]); }
  }

  /**
   * The verdict on a submission whose answer was lost: every provider was asked exactly once, and failure
   * is answered exactly if somebody reported it and nobody reported success.
   */
  lemma OverlappingVerdict(ps: seq<Provider>, steps: seq<Step>, id: RequestId)
    ensures var g := Run(Service(ps, map[], []), steps);
            var sent, asked := Of(g.log, id, SendTransaction), Of(g.log, id, GetTransaction);
            id in g.requests && g.requests[id].phase.Done? && sent != [] && CallResult(sent[0].reply).None? ==>
              var a, answers := g.requests[id].phase.answer, Heard(asked);
              && EverybodyOnce(Asked(asked), |ps|)
              && (a.response == RpcResult(Failed) <==> Reported(answers, Failed) && !Reported(answers, Success))
              && (a.response == RpcError(DISAGREE) <==> Reported(answers, Failed) && Reported(answers, Success))
              && (a.response == RpcError(UNAVAILABLE) <==> answers == [])
              && (a.uncertain <==> !Reported(answers, Success) && !Reported(answers, Failed) && answers != []
                                   && FirstKnown(answers) !in {Some(RpcResult(Pending)), Some(RpcResult(Duplicate))})
  {
    OneSubmissionEach(ps, steps, id);
    var g := Run(Service(ps, map[], []), steps);
    var sent, asked := Of(g.log, id, SendTransaction), Of(g.log, id, GetTransaction);
    if id in g.requests && g.requests[id].phase.Done? && sent != [] && CallResult(sent[0].reply).None? {
      HeardAreResults(asked);
      LostSubmissionVerdict(Heard(asked));
      AllInOrderIsEverybody(Asked(asked), |ps|);
    }
  }

  /**
   * The verdict of a status lookup, however it overlaps with anything: every provider was asked exactly
   * once, and a final status is answered exactly if somebody reported it and nobody the other.
   */
  lemma LookupVerdict(ps: seq<Provider>, steps: seq<Step>, id: RequestId)
    ensures var g := Run(Service(ps, map[], []), steps);
            id in g.requests && g.requests[id].kind.StatusLookup? ==>
              && Of(g.log, id, SendTransaction) == []
              && (g.requests[id].phase.Done? ==>
                    var r, asked := g.requests[id].phase.answer.response, Of(g.log, id, GetTransaction);
                    var answers := Heard(asked);
                    && EverybodyOnce(Asked(asked), |ps|)
                    && (r == RpcResult(Success) <==> Reported(answers, Success) && !Reported(answers, Failed))
                    && (r == RpcResult(Failed) <==> Reported(answers, Failed) && !Reported(answers, Success))
                    && (r == RpcError(DISAGREE) <==> Reported(answers, Failed) && Reported(answers, Success))
                    && (r == RpcError(UNAVAILABLE) <==> answers == [])
                    && (r == RpcResult(NotFound) <==> answers != [] && forall a :: a in answers ==> a == RpcResult(NotFound)))
  {
    RunTraced(Service(ps, map[], []), steps, id);
    var g := Run(Service(ps, map[], []), steps);
    if id in g.requests && g.requests[id].kind.StatusLookup? && g.requests[id].phase.Done? {
      var asked := Of(g.log, id, GetTransaction);
      HeardAreResults(asked);
      ReconciledCases(Heard(asked));
      AllInOrderIsEverybody(Asked(asked), |ps|);
    }
  }

  // ---- A submission that nothing overlaps is the coordinator's method ----

  function Rank(phase: Phase): nat {
    match phase
    case Probing(_) => 3
    case Sending(_) => 2
    case Asking(_, _) => 1
    case Done(_) => 0
  }

  function Left(phase: Phase): nat {
    match phase
    case Probing(left) => |left|
    case Asking(left, _) => |left|
    case _ => 0
  }

  /** Running to the end with nobody in between: the answer, and the health left behind. */
  function Alone(ps: seq<Provider>, kind: Kind, phase: Phase, probes: nat -> Reply, send: nat -> Reply, replies: nat -> Reply)
    : (Answer, seq<Provider>)
    decreases Rank(phase), Left(phase)
  {
    if !Waits(phase) then (if phase.Done? then phase.answer else Answer(RpcError(UNAVAILABLE), false), ps)
    else
      var i := Target(phase).0;
      var reply := if phase.Probing? then probes(i) else if phase.Sending? then send(i) else replies(i);
      var ps' := Noted(ps, i, reply);
      Alone(ps', kind, Continue(ps', kind, phase, reply), probes, send, replies)
  }

  lemma {:induction false} AloneAsking(ps: seq<Provider>, kind: Kind, order: seq<nat>, answers: seq<Response>,
                                       probes: nat -> Reply, send: nat -> Reply, replies: nat -> Reply)
    ensures Alone(ps, kind, StartAsking(kind, order, answers), probes, send, replies)
            == (Conclude(kind, answers + Collect(order, replies)), NotedAll(ps, order, replies))
    decreases |order|
  {
    if order == [] {
      assert answers + [] == answers;
    } else {
      AloneAsking(Noted(ps, order[0], replies(order[0])), kind, order[1..], answers + Kept(replies(order[0])), probes, send, replies);
      assert answers + Kept(replies(order[0])) + Collect(order[1..], replies) == answers + Collect(order, replies);
    }
  }

  lemma AloneAsks(ps: seq<Provider>, kind: Kind, probes: nat -> Reply, send: nat -> Reply, replies: nat -> Reply)
    ensures Alone(ps, kind, StartAsking(kind, Ordered(ps), []), probes, send, replies)
            == (Conclude(kind, Collect(Ordered(ps), replies)), NotedAll(ps, Ordered(ps), replies))
  {
    AloneAsking(ps, kind, Ordered(ps), [], probes, send, replies);
    assert [] + Collect(Ordered(ps), replies) == Collect(Ordered(ps), replies);
  }

  lemma AloneSends(ps: seq<Provider>, i: nat, probes: nat -> Reply, send: nat -> Reply, replies: nat -> Reply)
    ensures var ps' := Noted(ps, i, send(i));
            Alone(ps, Submission, Sending(i), probes, send, replies)
            == if CallResult(send(i)).Some? then (Answer(CallResult(send(i)).value, false), ps')
               else Alone(ps', Submission, StartAsking(Submission, Ordered(ps'), []), probes, send, replies)
  {
  }

  lemma AloneSending(ps: seq<Provider>, i: nat, probes: nat -> Reply, send: nat -> Reply, replies: nat -> Reply)
    requires i < |ps|
    ensures Alone(ps, Submission, Sending(i), probes, send, replies) == SubmitOutcome(ps, i, send, replies)
  {
    var ps' := Noted(ps, i, send(i));
    AloneSends(ps, i, probes, send, replies);
    AloneAsks(ps', Submission, probes, send, replies);
  }

  lemma {:induction false} AloneProbing(ps: seq<Provider>, order: seq<nat>, probes: nat -> Reply, send: nat -> Reply, replies: nat -> Reply)
    requires forall k :: 0 <= k < |order| ==> order[k] < |ps|
    ensures var chosen, probed := FirstHealthy(order, probes), NotedAll(ps, Probed(order, probes), probes);
            && |probed| == |ps| && (chosen.Some? ==> chosen.value < |ps|)
            && Alone(ps, Submission, StartProbing(order), probes, send, replies)
               == if chosen.None? then (Answer(RpcError(UNAVAILABLE), false), probed) else SubmitOutcome(probed, chosen.value, send, replies)
    decreases |order|
  {
    if order != [] {
      var i, ps' := order[0], Noted(ps, order[0], probes(order[0]));
      ProbeThrough(ps, order, 0, probes);
      assert order[0..] == order;
      if Answers(probes(i)) {
        AloneSending(ps', i, probes, send, replies);
      } else {
        AloneProbing(ps', order[1..], probes, send, replies);
      }
    }
  }

  /** A submission nothing overlaps gives the answer and the health that the coordinator's method promises. */
  lemma AloneIsHandleSubmission(ps: seq<Provider>, probes: nat -> Reply, send: nat -> Reply, replies: nat -> Reply)
    ensures var chosen, probed := FirstHealthy(Ordered(ps), probes), NotedAll(ps, Probed(Ordered(ps), probes), probes);
            && |probed| == |ps| && (chosen.Some? ==> chosen.value < |ps|)
            && Alone(ps, Submission, Start(Submission, ps), probes, send, replies)
               == if chosen.None? then (Answer(RpcError(UNAVAILABLE), false), probed) else SubmitOutcome(probed, chosen.value, send, replies)
  {
    OrderedInRange(ps);
    AloneProbing(ps, Ordered(ps), probes, send, replies);
  }

  /** A status lookup nothing overlaps is the coordinator's reconciliation. */
  lemma AloneIsReconcile(ps: seq<Provider>, probes: nat -> Reply, send: nat -> Reply, replies: nat -> Reply)
    ensures Alone(ps, StatusLookup, Start(StatusLookup, ps), probes, send, replies)
            == (Answer(Reconciled(Collect(Ordered(ps), replies)), false), NotedAll(ps, Ordered(ps), replies))
  {
    AloneAsks(ps, StatusLookup, probes, send, replies);
  }
}
