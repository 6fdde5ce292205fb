/** Which object graphs the serializer refuses: those that reach a cycle, a BigInt or a non-finite number. */
module GraphErrors {
  import opened Options
  import opened Utf16
  import opened Serializers
  import opened ObjectGraph

  /** The values an object holds: array elements or property values. */
  function Children(node: Node): seq<Value> {
    match node
    case ArrayNode(items) => items
    case ObjectNode(members) => seq(|members|, i requires 0 <= i < |members| => members[i].1)
  }

  /** A chain of objects, each held by the one before it, starting at v. */
  ghost predicate Path(h: Heap, v: Value, p: seq<Ref>)
    decreases |p|
  {
    && p != [] && v == Object(p[0]) && p[0] in h
    && (|p| > 1 ==> exists i :: 0 <= i < |Children(h[p[0]])| && Path(h, Children(h[p[0]])[i], p[1..]))
  }

  ghost predicate Repeats(p: seq<Ref>) { exists i, j :: 0 <= i < j < |p| && p[i] == p[j] }

  ghost predicate CycleReachable(h: Heap, v: Value) { exists p :: Path(h, v, p) && Repeats(p) }

  predicate Refused(v: Value) { v.Primitive? && (v.js.NonFinite? || v.js.BigInt?) }

  ghost predicate EndsAtRefused(h: Heap, p: seq<Ref>)
    requires p != []
  {
    var r := p[|p| - 1];
    r in h && exists i :: 0 <= i < |Children(h[r])| && Refused(Children(h[r])[i])
  }

  /** A BigInt or a non-finite number is the value itself or held by an object it reaches. */
  ghost predicate RefusedReachable(h: Heap, v: Value) {
    Refused(v) || exists p :: Path(h, v, p) && EndsAtRefused(h, p)
  }

  // ---- Unfolding fails exactly on cycles ----

  lemma {:induction false} ItemUnfolds(h: Heap, items: seq<Value>, stack: set<Ref>)
    requires ValidHeap(h) && forall i :: 0 <= i < |items| ==> ValidValue(h, items[i])
    ensures UnfoldItems(h, items, stack).Some? <==> forall i :: 0 <= i < |items| ==> Unfold(h, items[i], stack).Some?
    ensures UnfoldItems(h, items, stack).Some? ==>
              && |UnfoldItems(h, items, stack).value| == |items|
              && forall i :: 0 <= i < |items| ==> Some(UnfoldItems(h, items, stack).value[i]) == Unfold(h, items[i], stack)
  {
    if items != [] {
      ItemUnfolds(h, items[1..], stack);
      assert forall i :: 0 < i < |items| ==> items[i] == items[1..][i - 1];
      if forall i :: 0 <= i < |items| ==> Unfold(h, items[i], stack).Some? {
        assert forall i :: 0 <= i < |items[1..]| ==> items[1..][i] == items[i + 1];
      }
    }
  }

  lemma {:induction false} MemberUnfolds(h: Heap, members: seq<(Text, Value)>, stack: set<Ref>)
    requires ValidHeap(h) && ValidMembers(h, members)
    ensures UnfoldMembers(h, members, stack).Some? <==> forall i :: 0 <= i < |members| ==> Unfold(h, members[i].1, stack).Some?
    ensures UnfoldMembers(h, members, stack).Some? ==>
              forall i :: 0 <= i < |members| ==> Some(UnfoldMembers(h, members, stack).value[i].1) == Unfold(h, members[i].1, stack)
  {
    if members != [] {
      MemberUnfolds(h, members[1..], stack);
      assert forall i :: 0 < i < |members| ==> members[i] == members[1..][i - 1];
      if forall i :: 0 <= i < |members| ==> Unfold(h, members[i].1, stack).Some? {
        assert forall i :: 0 <= i < |members[1..]| ==> members[1..][i] == members[i + 1];
      }
    }
  }

  /** An object outside the stack unfolds exactly when everything it holds does, with it on the stack. */
  lemma ObjectUnfolds(h: Heap, r: Ref, stack: set<Ref>)
    requires ValidHeap(h) && r in h && r !in stack
    ensures forall i :: 0 <= i < |Children(h[r])| ==> ValidValue(h, Children(h[r])[i])
    ensures Unfold(h, Object(r), stack).Some?
            <==> forall i :: 0 <= i < |Children(h[r])| ==> Unfold(h, Children(h[r])[i], stack + {r}).Some?
  {
    match h[r]
    case ArrayNode(items) =>
      ItemUnfolds(h, items, stack + {r});
      assert Children(h[r]) == items;
    case ObjectNode(members) =>
      MemberUnfolds(h, members, stack + {r});
      assert forall i :: 0 <= i < |members| ==> Children(h[r])[i] == members[i].1;
  }

  lemma {:induction false} NoCycleBelow(h: Heap, v: Value, stack: set<Ref>, p: seq<Ref>)
    requires ValidHeap(h) && ValidValue(h, v) && Unfold(h, v, stack).Some? && Path(h, v, p)
    ensures forall i :: 0 <= i < |p| ==> p[i] !in stack
    ensures !Repeats(p)
    decreases |p|
  {
    var r := p[0];
    ObjectUnfolds(h, r, stack);
    if |p| > 1 {
      var c :| 0 <= c < |Children(h[r])| && Path(h, Children(h[r])[c], p[1..]);
      NoCycleBelow(h, Children(h[r])[c], stack + {r}, p[1..]);
      assert forall i :: 0 < i < |p| ==> p[i] == p[1..][i - 1];
    }
  }

  lemma {:induction false} FindCycle(h: Heap, v: Value, stack: set<Ref>) returns (p: seq<Ref>)
    requires ValidHeap(h) && ValidValue(h, v) && Unfold(h, v, stack).None?
    ensures Path(h, v, p) && (Repeats(p) || p[|p| - 1] in stack)
    decreases h.Keys - stack
  {
    var r := v.ref;
    p := [r];
    if r !in stack {
      ObjectUnfolds(h, r, stack);
      var c :| 0 <= c < |Children(h[r])| && Unfold(h, Children(h[r])[c], stack + {r}).None?;
      var q := FindCycle(h, Children(h[r])[c], stack + {r});
      p := [r] + q;
      assert p[1..] == q;
      if Repeats(q) {
        var i, j :| 0 <= i < j < |q| && q[i] == q[j];
        assert p[i + 1] == p[j + 1];
      } else if q[|q| - 1] == r {
        assert p[0] == p[|p| - 1];
      }
    }
  }

  lemma UnfoldsUnlessCyclic(h: Heap, v: Value)
    requires ValidHeap(h) && ValidValue(h, v)
    ensures Unfold(h, v, {}).None? <==> CycleReachable(h, v)
  {
    if Unfold(h, v, {}).None? {
      var p := FindCycle(h, v, {});
    } else {
      forall p | Path(h, v, p) ensures !Repeats(p) { NoCycleBelow(h, v, {}, p); }
    }
  }

  // ---- A tree has no JSON value exactly when something refused is inside ----

  lemma {:induction false} ItemsErase(ts: seq<Js>)
    ensures EraseItems(ts).None? <==> exists i :: 0 <= i < |ts| && Erase(ts[i]).None?
  {
    if ts != [] {
      ItemsErase(ts[1..]);
      if exists i :: 0 <= i < |ts| && Erase(ts[i]).None? {
        var i :| 0 <= i < |ts| && Erase(ts[i]).None?;
        if i > 0 { assert ts[1..][i - 1] == ts[i]; }
      }
      if EraseItems(ts[1..]).None? {
        var i :| 0 <= i < |ts[1..]| && Erase(ts[1..][i]).None?;
        assert ts[i + 1] == ts[1..][i];
      }
    }
  }

  lemma {:induction false} MembersErase(ts: seq<(Text, Js)>)
    ensures EraseMembers(ts).None? <==> exists i :: 0 <= i < |ts| && Erase(ts[i].1).None?
  {
    if ts != [] {
      assert ts[0].1 < ts[0];
      MembersErase(ts[1..]);
      if exists i :: 0 <= i < |ts| && Erase(ts[i].1).None? {
        var i :| 0 <= i < |ts| && Erase(ts[i].1).None?;
        if i > 0 { assert ts[1..][i - 1] == ts[i]; }
      }
      if EraseMembers(ts[1..]).None? {
        var i :| 0 <= i < |ts[1..]| && Erase(ts[1..][i].1).None?;
        assert ts[i + 1] == ts[1..][i];
      }
    }
  }

  ghost predicate Refuses(h: Heap, v: Value, stack: set<Ref>)
    requires ValidHeap(h) && ValidValue(h, v)
  {
    Unfold(h, v, stack).Some? && Erase(Unfold(h, v, stack).value).None?
  }

  lemma ArrayRefuses(h: Heap, r: Ref, stack: set<Ref>)
    requires ValidHeap(h) && r in h && h[r].ArrayNode? && Unfold(h, Object(r), stack).Some?
    ensures Refuses(h, Object(r), stack) <==>
            exists i :: 0 <= i < |h[r].items| && Refuses(h, h[r].items[i], stack + {r})
  {
    var items := h[r].items;
    ItemUnfolds(h, items, stack + {r});
    var ts := UnfoldItems(h, items, stack + {r}).value;
    ItemsErase(ts);
    assert Unfold(h, Object(r), stack).value == Arr(ts);
    forall i | 0 <= i < |items| ensures Erase(ts[i]).None? <==> Refuses(h, items[i], stack + {r}) {}
    assert Erase(Arr(ts)).None? <==> EraseItems(ts).None?;
  }

  lemma RecordRefuses(h: Heap, r: Ref, stack: set<Ref>)
    requires ValidHeap(h) && r in h && h[r].ObjectNode? && Unfold(h, Object(r), stack).Some?
    ensures Refuses(h, Object(r), stack) <==>
            exists i :: 0 <= i < |h[r].members| && Refuses(h, h[r].members[i].1, stack + {r})
  {
    var members := h[r].members;
    MemberUnfolds(h, members, stack + {r});
    var ts := UnfoldMembers(h, members, stack + {r}).value;
    MembersErase(ts);
    assert forall i :: 0 <= i < |ts| ==> (Erase(ts[i].1).None? <==> Refuses(h, members[i].1, stack + {r}));
    assert Unfold(h, Object(r), stack).value == Obj(ts);
  }

  lemma ObjectRefuses(h: Heap, r: Ref, stack: set<Ref>)
    requires ValidHeap(h) && r in h && Unfold(h, Object(r), stack).Some?
    ensures forall i :: 0 <= i < |Children(h[r])| ==> ValidValue(h, Children(h[r])[i])
    ensures Refuses(h, Object(r), stack) <==>
            exists i :: 0 <= i < |Children(h[r])| && Refuses(h, Children(h[r])[i], stack + {r})
  {
    ObjectUnfolds(h, r, stack);
    match h[r]
    case ArrayNode(items) =>
      ArrayRefuses(h, r, stack);
      assert Children(h[r]) == items;
    case ObjectNode(members) =>
      RecordRefuses(h, r, stack);
      var children := Children(h[r]);
      assert |children| == |members| && forall i :: 0 <= i < |members| ==> children[i] == members[i].1;
  }

  lemma {:induction false} FindRefused(h: Heap, v: Value, stack: set<Ref>) returns (p: seq<Ref>)
    requires ValidHeap(h) && ValidValue(h, v) && Refuses(h, v, stack)
    ensures Refused(v) || (Path(h, v, p) && EndsAtRefused(h, p))
    decreases h.Keys - stack
  {
    p := [];
    if v.Object? {
      var r := v.ref;
      ObjectRefuses(h, r, stack);
      var c :| 0 <= c < |Children(h[r])| && Refuses(h, Children(h[r])[c], stack + {r});
      var q := FindRefused(h, Children(h[r])[c], stack + {r});
      if Refused(Children(h[r])[c]) {
        p := [r];
      } else {
        p := [r] + q;
        assert p[1..] == q;
      }
    }
  }

  lemma {:induction false} RefusedBelow(h: Heap, v: Value, stack: set<Ref>, p: seq<Ref>)
    requires ValidHeap(h) && ValidValue(h, v) && Unfold(h, v, stack).Some?
    requires Path(h, v, p) && EndsAtRefused(h, p)
    ensures Refuses(h, v, stack)
    decreases |p|
  {
    var r := p[0];
    ObjectUnfolds(h, r, stack);
    ObjectRefuses(h, r, stack);
    if |p| > 1 {
      var c :| 0 <= c < |Children(h[r])| && Path(h, Children(h[r])[c], p[1..]);
      RefusedBelow(h, Children(h[r])[c], stack + {r}, p[1..]);
    } else {
      var i :| 0 <= i < |Children(h[r])| && Refused(Children(h[r])[i]);
      assert Refuses(h, Children(h[r])[i], stack + {r});
    }
  }

  // ---- The unfolding as a relation that knows no stack ----

  /** The tree t is what v looks like when every reference is followed. */
  ghost predicate Unfolds(h: Heap, v: Value, t: Js)
    decreases t
  {
    match v
    case Primitive(js) => t == js
    case Object(r) =>
      r in h &&
      match h[r]
      case ArrayNode(items) =>
        t.Arr? && |t.items| == |items| && forall i :: 0 <= i < |items| ==> Unfolds(h, items[i], t.items[i])
      case ObjectNode(members) =>
        && t.Obj? && |t.members| == |members|
        && forall i :: 0 <= i < |members| ==> t.members[i].0 == members[i].0 && Unfolds(h, members[i].1, t.members[i].1)
  }

  lemma {:induction false} UnfoldIsUnfolding(h: Heap, v: Value, stack: set<Ref>)
    requires ValidHeap(h) && ValidValue(h, v) && Unfold(h, v, stack).Some?
    ensures Unfolds(h, v, Unfold(h, v, stack).value)
    decreases h.Keys - stack
  {
    if v.Object? {
      var r := v.ref;
      match h[r]
      case ArrayNode(items) =>
        ItemUnfolds(h, items, stack + {r});
        forall i | 0 <= i < |items| ensures Unfolds(h, items[i], Unfold(h, v, stack).value.items[i]) {
          UnfoldIsUnfolding(h, items[i], stack + {r});
        }
      case ObjectNode(members) =>
        MemberUnfolds(h, members, stack + {r});
        forall i | 0 <= i < |members| ensures Unfolds(h, members[i].1, Unfold(h, v, stack).value.members[i].1) {
          UnfoldIsUnfolding(h, members[i].1, stack + {r});
        }
    }
  }

  lemma {:induction false} UnfoldingUnique(h: Heap, v: Value, t: Js, u: Js)
    requires Unfolds(h, v, t) && Unfolds(h, v, u)
    ensures t == u
    decreases t
  {
    if v.Object? {
      match h[v.ref]
      case ArrayNode(items) =>
        forall i | 0 <= i < |items| ensures t.items[i] == u.items[i] {
          UnfoldingUnique(h, items[i], t.items[i], u.items[i]);
        }
        assert t.items == u.items;
      case ObjectNode(members) =>
        forall i | 0 <= i < |members| ensures t.members[i] == u.members[i] {
          UnfoldingUnique(h, members[i].1, t.members[i].1, u.members[i].1);
        }
        assert t.members == u.members;
    }
  }

  /**
   * Serializing a heap value throws exactly when a cycle or a refused number is reachable from it;
   * otherwise it yields the text of the value's unfolding, so an object held twice is printed twice.
   */
  lemma SerializerRefusesExactly(h: Heap, v: Value)
    requires ValidHeap(h) && ValidValue(h, v)
    ensures TextOf(h, v, {}).TypeError? <==> CycleReachable(h, v) || RefusedReachable(h, v)
    ensures forall t :: Unfolds(h, v, t) && TextOf(h, v, {}).Ok? ==> Valid(t) && TextOf(h, v, {}) == Facilitator(t)
    ensures !CycleReachable(h, v) ==> exists t :: Unfolds(h, v, t)
  {
    UnfoldsUnlessCyclic(h, v);
    var u := Unfold(h, v, {});
    if u.Some? {
      UnfoldValid(h, v, {});
      UnfoldIsUnfolding(h, v, {});
      FacilitatorPrintsErased(u.value);
      forall t | Unfolds(h, v, t) ensures t == u.value { UnfoldingUnique(h, v, t, u.value); }
      if Refuses(h, v, {}) {
        var p := FindRefused(h, v, {});
      } else {
        forall p | Path(h, v, p) ensures !EndsAtRefused(h, p) {
          if EndsAtRefused(h, p) { RefusedBelow(h, v, {}, p); }
        }
      }
    }
  }
}
