/**
 * Replay protection of a gossip node: a cache of seen messages that forgets, and the highest sequence
 * per node that does not.
 */
module ReplayCache {
  import opened Utf16
  import opened EcmaNumber

  type NodeId = Text

  const COLON: Unit := 0x3A
  const MESSAGE_CACHE_TTL_MS: int := 300_000

  /** createMessageHash: `${nodeId}:${sequence}`. */
  function MessageHash(node: NodeId, sequence: nat): Text { node + [COLON] + NatText(sequence) }

  datatype Node = Node(seen: map<Text, int>, highest: map<NodeId, nat>)

  /** An announcement and the answers of the checks around the duplicate test. */
  datatype Message = Message(node: NodeId, sequence: nat, admissible: bool, signatureValid: bool)

  predicate IsDuplicate(n: Node, m: Message) {
    MessageHash(m.node, m.sequence) in n.seen || (m.node in n.highest && m.sequence <= n.highest[m.node])
  }

  function Handle(n: Node, m: Message, now: int): (Node, bool) {
    if !m.admissible || IsDuplicate(n, m) || !m.signatureValid then (n, false)
    else (Node(n.seen[MessageHash(m.node, m.sequence) := now], n.highest[m.node := m.sequence]), true)
  }

  function Expire(n: Node, now: int): Node {
    n.(seen := map h | h in n.seen && now - n.seen[h] <= MESSAGE_CACHE_TTL_MS :: n.seen[h])
  }

  /** The node's message handler and cleanup timer. */
  class P2PNode {
    var seenMessages: map<Text, int>
    var highestSequenceByNode: map<NodeId, nat>
    var messagesSuppressed: nat
    var replaysRejected: nat

    constructor ()
      ensures Abs() == Node(map[], map[]) && messagesSuppressed == 0 && replaysRejected == 0
    {
      seenMessages, highestSequenceByNode, messagesSuppressed, replaysRejected := map[], map[], 0, 0;
    }

    function Abs(): Node
      reads this
    {
      Node(seenMessages, highestSequenceByNode)
    }

    method HandleIncomingMessage(m: Message, now: int) returns (accepted: bool)
      modifies this
      ensures (Abs(), accepted) == Handle(old(Abs()), m, now)
      ensures messagesSuppressed == old(messagesSuppressed) + if accepted then 0 else 1
      ensures replaysRejected == old(replaysRejected) + if m.admissible && IsDuplicate(old(Abs()), m) then 1 else 0
    {
      if !m.admissible {
        messagesSuppressed := messagesSuppressed + 1;
        return false;
      }
      if IsDuplicate(Abs(), m) {
        messagesSuppressed := messagesSuppressed + 1;
        replaysRejected := replaysRejected + 1;
        return false;
      }
      if !m.signatureValid {
        messagesSuppressed := messagesSuppressed + 1;
        return false;
      }
      seenMessages := seenMessages[MessageHash(m.node, m.sequence) := now];
      highestSequenceByNode := highestSequenceByNode[m.node := m.sequence];
      return true;
    }

    /** Collects the expired entries, then deletes them. */
    method Cleanup(now: int)
      modifies this`seenMessages
      ensures Abs() == Expire(old(Abs()), now)
    {
      var expired := set h | h in seenMessages && now - seenMessages[h] > MESSAGE_CACHE_TTL_MS;
      while expired != {}
        invariant expired <= seenMessages.Keys
        invariant forall h :: h in expired ==> now - seenMessages[h] > MESSAGE_CACHE_TTL_MS
        invariant Expire(Abs(), now) == Expire(old(Abs()), now)
        invariant forall h :: h in seenMessages && now - seenMessages[h] > MESSAGE_CACHE_TTL_MS ==> h in expired
        decreases |expired|
      {
        var hash :| hash in expired;
        seenMessages := seenMessages - {hash};
        expired := expired - {hash};
        assert Expire(Abs(), now).seen == Expire(old(Abs()), now).seen;
      }
      assert Expire(Abs(), now).seen == Abs().seen;
    }
  }

  // ---- The message key determines node and sequence ----

  lemma DigitsHoldNoColon(t: Text)
    requires AllDigits(t)
    ensures COLON !in t
  {
    assert forall i :: 0 <= i < |t| ==> IsDigit(t[i]) && t[i] != COLON;
  }

  lemma {:induction false} LastColonSplits(a: Text, b: Text, s: Text, t: Text)
    requires COLON !in s && COLON !in t && a + [COLON] + s == b + [COLON] + t
    ensures a == b && s == t
  {
    var u, v := a + [COLON] + s, b + [COLON] + t;
    assert u[|u| - 1] == if s == [] then COLON else s[|s| - 1];
    assert v[|v| - 1] == if t == [] then COLON else t[|t| - 1];
    if s == [] {
      assert u[..|u| - 1] == a && v[..|v| - 1] == b;
    } else {
      assert u[..|u| - 1] == a + [COLON] + s[..|s| - 1] && v[..|v| - 1] == b + [COLON] + t[..|t| - 1];
      LastColonSplits(a, b, s[..|s| - 1], t[..|t| - 1]);
      assert s == s[..|s| - 1] + [s[|s| - 1]] && t == t[..|t| - 1] + [t[|t| - 1]];
    }
  }

  /** Different messages have different keys, whatever characters node ids contain. */
  lemma MessageHashInjective(a: NodeId, s: nat, b: NodeId, t: nat)
    ensures MessageHash(a, s) == MessageHash(b, t) <==> a == b && s == t
  {
    if MessageHash(a, s) == MessageHash(b, t) {
      DigitsHoldNoColon(NatText(s));
      DigitsHoldNoColon(NatText(t));
      LastColonSplits(a, b, NatText(s), NatText(t));
      NatTextRoundTrip(s);
      NatTextRoundTrip(t);
    }
  }

  // ---- The cache never matters ----

  /** Whatever is cached was accepted, so it is covered by the highest sequence. */
  ghost predicate Covered(n: Node) {
    forall h :: h in n.seen ==> exists a, s: nat :: h == MessageHash(a, s) && a in n.highest && s <= n.highest[a]
  }

  lemma DuplicateIsPlain(n: Node, m: Message)
    requires Covered(n)
    ensures IsDuplicate(n, m) <==> m.node in n.highest && m.sequence <= n.highest[m.node]
  {
    if MessageHash(m.node, m.sequence) in n.seen {
      var a, s: nat :| MessageHash(m.node, m.sequence) == MessageHash(a, s) && a in n.highest && s <= n.highest[a];
      MessageHashInjective(m.node, m.sequence, a, s);
    }
  }

  lemma HandleCovers(n: Node, m: Message, now: int)
    requires Covered(n)
    ensures Covered(Handle(n, m, now).0)
  {
    var n' := Handle(n, m, now).0;
    DuplicateIsPlain(n, m);
    forall h | h in n'.seen ensures exists a, s: nat :: h == MessageHash(a, s) && a in n'.highest && s <= n'.highest[a] {
      if h in n.seen {
        var a, s: nat :| h == MessageHash(a, s) && a in n.highest && s <= n.highest[a];
        assert h == MessageHash(a, s) && a in n'.highest && s <= n'.highest[a];
      } else {
        assert h == MessageHash(m.node, m.sequence) && m.node in n'.highest && m.sequence <= n'.highest[m.node];
      }
    }
  }

  lemma ExpireCovers(n: Node, now: int)
    requires Covered(n)
    ensures Covered(Expire(n, now))
  {
    forall h | h in Expire(n, now).seen
      ensures exists a, s: nat :: h == MessageHash(a, s) && a in n.highest && s <= n.highest[a]
    {
      assert h in n.seen;
    }
  }

  datatype Event = Incoming(message: Message, at: int) | CleanupAt(at: int)

  /** The accepted messages of a run, in order. */
  function Accepted(n: Node, es: seq<Event>): seq<Message>
    decreases |es|
  {
    if es == [] then []
    else if es[0].CleanupAt? then Accepted(Expire(n, es[0].at), es[1..])
    else
      var (n', ok) := Handle(n, es[0].message, es[0].at);
      (if ok then [es[0].message] else []) + Accepted(n', es[1..])
  }

  /** The plain filter: accept a checked message if its sequence exceeds the highest accepted of its node. */
  function PlainlyAccepted(highest: map<NodeId, nat>, es: seq<Event>): seq<Message>
    decreases |es|
  {
    if es == [] then []
    else if es[0].CleanupAt? then PlainlyAccepted(highest, es[1..])
    else
      var m := es[0].message;
      if m.admissible && m.signatureValid && !(m.node in highest && m.sequence <= highest[m.node])
      then [m] + PlainlyAccepted(highest[m.node := m.sequence], es[1..])
      else PlainlyAccepted(highest, es[1..])
  }

  /** The cache and its evictions, at any moments, never change what is accepted. */
  lemma {:induction false} CacheIsTransparent(n: Node, es: seq<Event>)
    requires Covered(n)
    ensures Accepted(n, es) == PlainlyAccepted(n.highest, es)
    decreases |es|
  {
    if es != [] {
      if es[0].CleanupAt? {
        ExpireCovers(n, es[0].at);
        CacheIsTransparent(Expire(n, es[0].at), es[1..]);
      } else {
        DuplicateIsPlain(n, es[0].message);
        HandleCovers(n, es[0].message, es[0].at);
        CacheIsTransparent(Handle(n, es[0].message, es[0].at).0, es[1..]);
      }
    }
  }

  lemma {:induction false} AcceptedAbove(highest: map<NodeId, nat>, es: seq<Event>, i: nat)
    requires i < |PlainlyAccepted(highest, es)|
    ensures var m := PlainlyAccepted(highest, es)[i];
            m.node in highest ==> m.sequence > highest[m.node]
    decreases |es|
  {
    var e := es[0];
    if e.CleanupAt? {
      AcceptedAbove(highest, es[1..], i);
    } else {
      var m := e.message;
      if m.admissible && m.signatureValid && !(m.node in highest && m.sequence <= highest[m.node]) {
        if i > 0 { AcceptedAbove(highest[m.node := m.sequence], es[1..], i - 1); }
      } else {
        AcceptedAbove(highest, es[1..], i);
      }
    }
  }

  lemma {:induction false} PlainlyIncreasing(highest: map<NodeId, nat>, es: seq<Event>, i: nat, j: nat)
    requires i < j < |PlainlyAccepted(highest, es)|
    ensures var a, b := PlainlyAccepted(highest, es)[i], PlainlyAccepted(highest, es)[j];
            a.node == b.node ==> a.sequence < b.sequence
    decreases |es|
  {
    var e := es[0];
    if e.CleanupAt? {
      PlainlyIncreasing(highest, es[1..], i, j);
    } else {
      var m := e.message;
      if m.admissible && m.signatureValid && !(m.node in highest && m.sequence <= highest[m.node]) {
        if i > 0 {
          PlainlyIncreasing(highest[m.node := m.sequence], es[1..], i - 1, j - 1);
        } else {
          AcceptedAbove(highest[m.node := m.sequence], es[1..], j - 1);
        }
      } else {
        PlainlyIncreasing(highest, es[1..], i, j);
      }
    }
  }

  /** Over every run, accepted sequences of a node strictly increase, so none is accepted twice. */
  lemma AcceptedIncrease(es: seq<Event>)
    ensures var accepted := Accepted(Node(map[], map[]), es);
            forall i, j :: 0 <= i < j < |accepted| && accepted[i].node == accepted[j].node ==>
              accepted[i].sequence < accepted[j].sequence
  {
    CacheIsTransparent(Node(map[], map[]), es);
    var accepted := Accepted(Node(map[], map[]), es);
    forall i, j | 0 <= i < j < |accepted| && accepted[i].node == accepted[j].node
      ensures accepted[i].sequence < accepted[j].sequence
    {
      PlainlyIncreasing(map[], es, i, j);
    }
  }

  /** The cleanup forgets exactly what is older than five minutes, and no sequence. */
  lemma ForgetsAfterFiveMinutes(n: Node, now: int)
    ensures Expire(n, now).highest == n.highest
    ensures forall h :: h in Expire(n, now).seen <==> h in n.seen && now - n.seen[h] <= 5 * 60 * 1000
    ensures forall h :: h in Expire(n, now).seen ==> Expire(n, now).seen[h] == n.seen[h]
  {
  }
}
