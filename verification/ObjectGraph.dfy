/**
 * The facilitator's `serialize` on a heap of objects that may share and point back to each other,
 * with the set of objects on the serialization stack updated in place.
 */
module ObjectGraph {
  import opened Options
  import opened Utf16
  import opened Serializers
  import J = CanonicalJson

  type Ref = nat

  /** A primitive, or a reference to an object of the heap. */
  datatype Value = Primitive(js: Js) | Object(ref: Ref)

  datatype Node = ArrayNode(items: seq<Value>) | ObjectNode(members: seq<(Text, Value)>)

  type Heap = map<Ref, Node>

  ghost predicate ValidValue(h: Heap, v: Value) {
    match v
    case Primitive(js) => !js.Arr? && !js.Obj? && Valid(js)
    case Object(r) => r in h
  }

  ghost predicate ValidNode(h: Heap, node: Node) {
    match node
    case ArrayNode(items) => forall i :: 0 <= i < |items| ==> ValidValue(h, items[i])
    case ObjectNode(members) => DistinctKeys(members) && ValidMembers(h, members)
  }

  ghost predicate ValidMembers(h: Heap, members: seq<(Text, Value)>) {
    forall i :: 0 <= i < |members| ==> ValidValue(h, members[i].1)
  }

  ghost predicate ValidHeap(h: Heap) { forall r :: r in h ==> ValidNode(h, h[r]) }

  predicate Opaque(v: Value) { v.Primitive? && v.js.Opaque() }

  // ---- Unfolding the graph into a tree ----

  /** The tree a value unfolds to, or None when an object on the stack is met again. */
  ghost function Unfold(h: Heap, v: Value, stack: set<Ref>): (t: Option<Js>)
    requires ValidHeap(h) && ValidValue(h, v)
    ensures t.Some? ==> (Opaque(v) <==> t.value.Opaque())
    decreases h.Keys - stack, 0, 0
  {
    match v
    case Primitive(js) => Some(js)
    case Object(r) =>
      if r in stack then None
      else
        match h[r]
        case ArrayNode(items) =>
          (match UnfoldItems(h, items, stack + {r}) case Some(ts) => Some(Arr(ts)) case None => None)
        case ObjectNode(members) =>
          (match UnfoldMembers(h, members, stack + {r}) case Some(ms) => Some(Obj(ms)) case None => None)
  }

  ghost function UnfoldItems(h: Heap, items: seq<Value>, stack: set<Ref>): (r: Option<seq<Js>>)
    requires ValidHeap(h) && forall i :: 0 <= i < |items| ==> ValidValue(h, items[i])
    decreases h.Keys - stack, 1, |items|
  {
    if items == [] then Some([])
    else
      match (Unfold(h, items[0], stack), UnfoldItems(h, items[1..], stack))
      case (Some(t), Some(ts)) => Some([t] + ts)
      case _ => None
  }

  ghost function UnfoldMembers(h: Heap, members: seq<(Text, Value)>, stack: set<Ref>): (r: Option<seq<(Text, Js)>>)
    requires ValidHeap(h) && ValidMembers(h, members)
    ensures r.Some? ==> |r.value| == |members|
    ensures r.Some? ==> forall i :: 0 <= i < |members| ==> r.value[i].0 == members[i].0
    decreases h.Keys - stack, 1, |members|
  {
    if members == [] then Some([])
    else
      match (Unfold(h, members[0].1, stack), UnfoldMembers(h, members[1..], stack))
      case (Some(t), Some(ts)) => Some([(members[0].0, t)] + ts)
      case _ => None
  }

  lemma {:induction false} UnfoldValid(h: Heap, v: Value, stack: set<Ref>)
    requires ValidHeap(h) && ValidValue(h, v) && Unfold(h, v, stack).Some?
    ensures Valid(Unfold(h, v, stack).value)
    decreases h.Keys - stack, 0, 0
  {
    if v.Object? {
      match h[v.ref]
      case ArrayNode(items) => UnfoldItemsValid(h, items, stack + {v.ref});
      case ObjectNode(members) => UnfoldMembersValid(h, members, stack + {v.ref});
    }
  }

  lemma {:induction false} UnfoldItemsValid(h: Heap, items: seq<Value>, stack: set<Ref>)
    requires ValidHeap(h) && forall i :: 0 <= i < |items| ==> ValidValue(h, items[i])
    requires UnfoldItems(h, items, stack).Some?
    ensures forall i :: 0 <= i < |UnfoldItems(h, items, stack).value| ==> Valid(UnfoldItems(h, items, stack).value[i])
    decreases h.Keys - stack, 1, |items|
  {
    if items != [] {
      UnfoldValid(h, items[0], stack);
      UnfoldItemsValid(h, items[1..], stack);
    }
  }

  lemma {:induction false} UnfoldMembersValid(h: Heap, members: seq<(Text, Value)>, stack: set<Ref>)
    requires ValidHeap(h) && ValidMembers(h, members)
    requires UnfoldMembers(h, members, stack).Some?
    ensures forall i :: 0 <= i < |members| ==> Valid(UnfoldMembers(h, members, stack).value[i].1)
    decreases h.Keys - stack, 1, |members|
  {
    if members != [] {
      UnfoldValid(h, members[0].1, stack);
      UnfoldMembersValid(h, members[1..], stack);
    }
  }

  /** What serializing must return: the text of the unfolded tree, a TypeError if there is none. */
  ghost function TextOf(h: Heap, v: Value, stack: set<Ref>): Result<Text>
    requires ValidHeap(h) && ValidValue(h, v)
  {
    match Unfold(h, v, stack)
    case None => TypeError
    case Some(t) => UnfoldValid(h, v, stack); Facilitator(t)
  }

  /** The texts of array elements, gaps printed as null. */
  ghost function ItemTexts(h: Heap, items: seq<Value>, stack: set<Ref>): Result<seq<Text>>
    requires ValidHeap(h) && forall i :: 0 <= i < |items| ==> ValidValue(h, items[i])
  {
    if items == [] then Ok([])
    else Cons(if Opaque(items[0]) then Ok(J.NULL_TEXT) else TextOf(h, items[0], stack), ItemTexts(h, items[1..], stack))
  }

  /** The entries of an object in the order of the given member list, gaps left out. */
  ghost function MemberTexts(h: Heap, members: seq<(Text, Value)>, stack: set<Ref>): Result<seq<(Text, Text)>>
    requires ValidHeap(h) && ValidMembers(h, members)
  {
    if members == [] then Ok([])
    else if Opaque(members[0].1) then MemberTexts(h, members[1..], stack)
    else Cons(Entry(members[0].0, TextOf(h, members[0].1, stack)), MemberTexts(h, members[1..], stack))
  }

  lemma {:induction false} ItemTextsOfTree(h: Heap, items: seq<Value>, stack: set<Ref>)
    requires ValidHeap(h) && forall i :: 0 <= i < |items| ==> ValidValue(h, items[i])
    ensures match UnfoldItems(h, items, stack)
            case None => ItemTexts(h, items, stack) == TypeError
            case Some(ts) => (forall i :: 0 <= i < |ts| ==> Valid(ts[i])) && ItemTexts(h, items, stack) == FacilitatorItems(ts)
  {
    if items != [] {
      ItemTextsOfTree(h, items[1..], stack);
      if Unfold(h, items[0], stack).Some? { UnfoldValid(h, items[0], stack); }
      if UnfoldItems(h, items, stack).Some? {
        UnfoldItemsValid(h, items, stack);
        assert UnfoldItems(h, items, stack).value[1..] == UnfoldItems(h, items[1..], stack).value;
      }
    }
  }

  lemma {:induction false} MemberTextsOfTree(h: Heap, members: seq<(Text, Value)>, stack: set<Ref>)
    requires ValidHeap(h) && ValidMembers(h, members)
    ensures match UnfoldMembers(h, members, stack)
            case None => MemberTexts(h, members, stack) == TypeError
            case Some(ts) =>
              && (forall i :: 0 <= i < |ts| ==> Valid(ts[i].1))
              && MemberTexts(h, members, stack) == FacilitatorMembers(ts)
  {
    if members != [] {
      MemberTextsOfTree(h, members[1..], stack);
      if Unfold(h, members[0].1, stack).Some? { UnfoldValid(h, members[0].1, stack); }
      if UnfoldMembers(h, members, stack).Some? {
        UnfoldMembersValid(h, members, stack);
        assert UnfoldMembers(h, members, stack).value[1..] == UnfoldMembers(h, members[1..], stack).value;
      }
    }
  }

  // ---- Sorting the keys first gives the same entries, in key order ----

  function SortEntries(r: Result<seq<(Text, Text)>>): Result<seq<(Text, Text)>> {
    match r
    case Ok(es) => Ok(SortByKey(es))
    case TypeError => TypeError
  }

  function InsertEntry(e: Result<(Text, Text)>, r: Result<seq<(Text, Text)>>): Result<seq<(Text, Text)>> {
    match (e, r)
    case (Ok(x), Ok(es)) => Ok(InsertByKey(x, es))
    case _ => TypeError
  }

  lemma {:induction false} FirstEntryKey(h: Heap, members: seq<(Text, Value)>, stack: set<Ref>)
    requires ValidHeap(h) && ValidMembers(h, members)
    requires MemberTexts(h, members, stack).Ok? && MemberTexts(h, members, stack).value != []
    ensures exists i :: 0 <= i < |members| && members[i].0 == MemberTexts(h, members, stack).value[0].0
  {
    if Opaque(members[0].1) {
      FirstEntryKey(h, members[1..], stack);
      var i :| 0 <= i < |members[1..]| && members[1..][i].0 == MemberTexts(h, members, stack).value[0].0;
      assert members[i + 1].0 == MemberTexts(h, members, stack).value[0].0;
    }
  }

  lemma {:induction false} InsertMemberValid(h: Heap, e: (Text, Value), s: seq<(Text, Value)>)
    requires ValidValue(h, e.1) && ValidMembers(h, s)
    ensures ValidMembers(h, InsertByKey(e, s))
  {
    if s != [] && Before(s[0].0, e.0) { InsertMemberValid(h, e, s[1..]); }
  }

  lemma ConsNothing<T>(x: Result<T>)
    ensures Cons(x, Ok([])) == if x.Ok? then Ok([x.value]) else TypeError
  {
    if x.Ok? { assert [x.value] + [] == [x.value]; }
  }

  lemma {:induction false} InsertMemberTexts(h: Heap, e: (Text, Value), s: seq<(Text, Value)>, stack: set<Ref>)
    requires ValidHeap(h) && ValidValue(h, e.1) && ValidMembers(h, s) && ValidMembers(h, InsertByKey(e, s))
    requires SortedKeys(s) && forall i :: 0 <= i < |s| ==> s[i].0 != e.0
    ensures MemberTexts(h, InsertByKey(e, s), stack) ==
            if Opaque(e.1) then MemberTexts(h, s, stack)
            else InsertEntry(Entry(e.0, TextOf(h, e.1, stack)), MemberTexts(h, s, stack))
  {
    if s == [] {
      ConsNothing(Entry(e.0, TextOf(h, e.1, stack)));
    } else if Before(s[0].0, e.0) {
      InsertMemberValid(h, e, s[1..]);
      InsertMemberTexts(h, e, s[1..], stack);
    } else {
      assert ([e] + s)[1..] == s;
      var r := MemberTexts(h, s, stack);
      ConsNothing(Entry(e.0, TextOf(h, e.1, stack)));
      if r.Ok? && r.value != [] {
        FirstEntryKey(h, s, stack);
        var i :| 0 <= i < |s| && s[i].0 == r.value[0].0;
        BeforeTotal(s[0].0, e.0);
        if i > 0 { BeforeTransitive(e.0, s[0].0, s[i].0); }
        BeforeTotal(e.0, s[i].0);
      }
    }
  }

  /** The first key is not among the sorted others. */
  lemma FirstKeyApart<T>(members: seq<(Text, T)>)
    requires members != [] && DistinctKeys(members)
    ensures SortedKeys(SortByKey(members[1..]))
    ensures forall i :: 0 <= i < |SortByKey(members[1..])| ==> SortByKey(members[1..])[i].0 != members[0].0
  {
    var rest := SortByKey(members[1..]);
    SortByKeyCorrect(members[1..]);
    forall i | 0 <= i < |rest| ensures rest[i].0 != members[0].0 {
      assert rest[i] in multiset(rest);
      var j :| 0 <= j < |members[1..]| && members[1..][j] == rest[i];
      assert members[j + 1] == rest[i];
    }
  }

  lemma SortEntriesStep(e: Result<(Text, Text)>, r: Result<seq<(Text, Text)>>)
    ensures InsertEntry(e, SortEntries(r)) == SortEntries(Cons(e, r))
  {
    if e.Ok? && r.Ok? { assert ([e.value] + r.value)[1..] == r.value; }
  }

  lemma {:induction false} SortMemberTexts(h: Heap, members: seq<(Text, Value)>, stack: set<Ref>)
    requires ValidHeap(h) && DistinctKeys(members) && ValidMembers(h, members)
    ensures ValidMembers(h, SortByKey(members))
    ensures MemberTexts(h, SortByKey(members), stack) == SortEntries(MemberTexts(h, members, stack))
  {
    if members != [] {
      var e, rest := members[0], SortByKey(members[1..]);
      SortMemberTexts(h, members[1..], stack);
      FirstKeyApart(members);
      InsertMemberValid(h, e, rest);
      InsertMemberTexts(h, e, rest, stack);
      if !Opaque(e.1) { SortEntriesStep(Entry(e.0, TextOf(h, e.1, stack)), MemberTexts(h, members[1..], stack)); }
    }
  }

  // ---- The serializer ----

  /** The WeakSet of the objects currently on the serialization stack. */
  class SeenSet {
    var refs: set<Ref>

    constructor ()
      ensures refs == {}
    {
      refs := {};
    }
  }

  function Prepend<T>(done: seq<T>, r: Result<seq<T>>): Result<seq<T>> {
    match r
    case Ok(xs) => Ok(done + xs)
    case TypeError => TypeError
  }

  lemma PrependEmpty<T>(r: Result<seq<T>>)
    ensures Prepend([], r) == r
  {
    if r.Ok? { assert [] + r.value == r.value; }
  }

  lemma PrependCons<T>(done: seq<T>, x: T, r: Result<seq<T>>)
    ensures Prepend(done, Cons(Ok(x), r)) == Prepend(done + [x], r)
  {
    if r.Ok? { assert done + ([x] + r.value) == done + [x] + r.value; }
  }

  /** The array branch: `object.map` over the elements, left at the first exception. */
  method SerializeItems(h: Heap, items: seq<Value>, seen: SeenSet) returns (r: Result<seq<Text>>)
    requires ValidHeap(h) && forall i :: 0 <= i < |items| ==> ValidValue(h, items[i])
    modifies seen
    ensures seen.refs == old(seen.refs)
    ensures r == ItemTexts(h, items, old(seen.refs))
    decreases h.Keys - seen.refs, 1
  {
    ghost var stack := seen.refs;
    var parts := [];
    assert items[0..] == items;
    PrependEmpty(ItemTexts(h, items, stack));
    for i := 0 to |items|
      invariant seen.refs == stack
      invariant ItemTexts(h, items, stack) == Prepend(parts, ItemTexts(h, items[i..], stack))
    {
      assert items[i..][1..] == items[i + 1..];
      var text: Result<Text> := Ok(J.NULL_TEXT);
      if !Opaque(items[i]) {
        text := Serialize(h, items[i], seen);
      }
      if text.TypeError? { return TypeError; }
      PrependCons(parts, text.value, ItemTexts(h, items[i + 1..], stack));
      parts := parts + [text.value];
    }
    assert parts + [] == parts;
    return Ok(parts);
  }

  /** The object branch: the loop over the sorted keys. */
  method SerializeMembers(h: Heap, members: seq<(Text, Value)>, seen: SeenSet) returns (r: Result<seq<(Text, Text)>>)
    requires ValidHeap(h) && DistinctKeys(members) && ValidMembers(h, members)
    modifies seen
    ensures seen.refs == old(seen.refs)
    ensures r == SortEntries(MemberTexts(h, members, old(seen.refs)))
    decreases h.Keys - seen.refs, 1
  {
    ghost var stack := seen.refs;
    var sorted := SortByKey(members);
    var entries := [];
    SortMemberTexts(h, members, stack);
    assert sorted[0..] == sorted;
    PrependEmpty(MemberTexts(h, sorted, stack));
    for i := 0 to |sorted|
      invariant seen.refs == stack
      invariant MemberTexts(h, sorted, stack) == Prepend(entries, MemberTexts(h, sorted[i..], stack))
    {
      assert sorted[i..][1..] == sorted[i + 1..];
      if !Opaque(sorted[i].1) {
        var text := Serialize(h, sorted[i].1, seen);
        if text.TypeError? { return TypeError; }
        PrependCons(entries, (sorted[i].0, text.value), MemberTexts(h, sorted[i + 1..], stack));
        entries := entries + [(sorted[i].0, text.value)];
      }
    }
    assert entries + [] == entries;
    return Ok(entries);
  }

  /** Always returns, leaves the stack set as it found it, and prints the unfolded tree. */
  method Serialize(h: Heap, v: Value, seen: SeenSet) returns (r: Result<Text>)
    requires ValidHeap(h) && ValidValue(h, v)
    modifies seen
    ensures seen.refs == old(seen.refs)
    ensures r == TextOf(h, v, old(seen.refs))
    decreases h.Keys - seen.refs, 0
  {
    if v.Primitive? {
      return if v.js.NonFinite? || v.js.BigInt? then TypeError else Ok(Stringify(v.js));
    }
    if v.ref in seen.refs {
      return TypeError;
    }
    seen.refs := seen.refs + {v.ref};
    match h[v.ref] {
      case ArrayNode(items) =>
        ItemTextsOfTree(h, items, seen.refs);
        var parts := SerializeItems(h, items, seen);
        r := if parts.Ok? then Ok(J.ArrayText(parts.value)) else TypeError;
      case ObjectNode(members) =>
        MemberTextsOfTree(h, members, seen.refs);
        var entries := SerializeMembers(h, members, seen);
        r := if entries.Ok? then Ok(J.ObjectText(entries.value)) else TypeError;
    }
    seen.refs := seen.refs - {v.ref};
  }

  /** The entry point: an empty stack. */
  method Canonicalize(h: Heap, v: Value) returns (r: Result<Text>)
    requires ValidHeap(h) && ValidValue(h, v)
    ensures r == TextOf(h, v, {})
  {
    var seen := new SeenSet();
    r := Serialize(h, v, seen);
  }
}
