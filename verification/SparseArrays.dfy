/**
 * The facilitator's canonicalizer on arrays with holes. `map` skips a hole and `join` prints nothing for
 * it, where JSON.stringify would print null.
 */
module SparseArrays {
  import opened Utf16
  import opened Serializers
  import J = CanonicalJson
  import opened PlaygroundCopy

  datatype Slot = Hole | Element(tree: Tree)

  /** A value tree whose arrays may have holes. */
  datatype Tree = Leaf(js: Js) | List(slots: seq<Slot>) | Record(members: seq<(Text, Tree)>)

  ghost predicate ValidTree(t: Tree) {
    match t
    case Leaf(js) => !js.Arr? && !js.Obj? && Valid(js)
    case List(slots) => forall i :: 0 <= i < |slots| && slots[i].Element? ==> ValidTree(slots[i].tree)
    case Record(members) => DistinctKeys(members) && forall i :: 0 <= i < |members| ==> ValidTree(members[i].1)
  }

  ghost predicate ValidSlots(slots: seq<Slot>) {
    forall i :: 0 <= i < |slots| && slots[i].Element? ==> ValidTree(slots[i].tree)
  }

  ghost predicate ValidMembers(members: seq<(Text, Tree)>) {
    forall i :: 0 <= i < |members| ==> ValidTree(members[i].1)
  }

  predicate Gap(t: Tree) { t.Leaf? && t.js.Opaque() }

  // ---- What is printed, and what the comment in the source says is printed ----

  function Print(t: Tree): Result<Text>
    requires ValidTree(t)
  {
    match t
    case Leaf(js) => Facilitator(js)
    case List(slots) => Bracket(PrintSlots(slots))
    case Record(members) => Brace(PrintMembers(members))
  }

  function PrintSlots(slots: seq<Slot>): Result<seq<Text>>
    requires ValidSlots(slots)
  {
    if slots == [] then Ok([])
    else
      Cons(match slots[0]
           case Hole => Ok([])
           case Element(t) => assert t < slots[0]; if Gap(t) then Ok(J.NULL_TEXT) else Print(t),
           PrintSlots(slots[1..]))
  }

  function PrintMembers(members: seq<(Text, Tree)>): Result<seq<(Text, Text)>>
    requires ValidMembers(members)
  {
    if members == [] then Ok([])
    else
      assert members[0].1 < members[0];
      if Gap(members[0].1) then PrintMembers(members[1..])
      else Cons(Entry(members[0].0, Print(members[0].1)), PrintMembers(members[1..]))
  }

  /** The tree with undefined in its holes, which prints as null. */
  function Filled(t: Tree): Js {
    match t
    case Leaf(js) => js
    case List(slots) => Arr(FilledSlots(slots))
    case Record(members) => Obj(FilledMembers(members))
  }

  function FilledSlots(slots: seq<Slot>): (r: seq<Js>)
    ensures |r| == |slots|
  {
    if slots == [] then []
    else [match slots[0] case Hole => Undefined case Element(t) => assert t < slots[0]; Filled(t)] + FilledSlots(slots[1..])
  }

  function FilledMembers(members: seq<(Text, Tree)>): (r: seq<(Text, Js)>)
    ensures |r| == |members| && forall i :: 0 <= i < |r| ==> r[i].0 == members[i].0
  {
    if members == [] then []
    else assert members[0].1 < members[0]; [(members[0].0, Filled(members[0].1))] + FilledMembers(members[1..])
  }

  lemma {:induction false} FilledValid(t: Tree)
    requires ValidTree(t)
    ensures Valid(Filled(t)) && (Filled(t).Opaque() <==> Gap(t))
    decreases t, 0
  {
    match t
    case Leaf(_) =>
    case List(slots) => FilledSlotsValid(slots);
    case Record(members) => FilledMembersValid(members);
  }

  lemma {:induction false} FilledSlotsValid(slots: seq<Slot>)
    requires ValidSlots(slots)
    ensures forall i :: 0 <= i < |slots| ==> Valid(FilledSlots(slots)[i])
    decreases slots, 1
  {
    if slots != [] {
      if slots[0].Element? {
        assert slots[0].tree < slots[0];
        FilledValid(slots[0].tree);
      }
      FilledSlotsValid(slots[1..]);
    }
  }

  lemma {:induction false} FilledMembersValid(members: seq<(Text, Tree)>)
    requires ValidMembers(members)
    ensures forall i :: 0 <= i < |members| ==> Valid(FilledMembers(members)[i].1)
    decreases members, 1
  {
    if members != [] {
      assert members[0].1 < members[0];
      FilledValid(members[0].1);
      FilledMembersValid(members[1..]);
    }
  }

  ghost function Holes(t: Tree): nat {
    match t
    case Leaf(_) => 0
    case List(slots) => SlotHoles(slots)
    case Record(members) => MemberHoles(members)
  }

  ghost function SlotHoles(slots: seq<Slot>): nat {
    if slots == [] then 0
    else (match slots[0] case Hole => 1 case Element(t) => assert t < slots[0]; Holes(t)) + SlotHoles(slots[1..])
  }

  ghost function MemberHoles(members: seq<(Text, Tree)>): nat {
    if members == [] then 0
    else assert members[0].1 < members[0]; Holes(members[0].1) + MemberHoles(members[1..])
  }

  // ---- Without holes, and where something throws, both are the same ----

  lemma {:induction false} SameWithoutHoles(t: Tree)
    requires ValidTree(t) && Valid(Filled(t)) && Holes(t) == 0
    ensures Print(t) == Facilitator(Filled(t))
    decreases t, 0
  {
    match t
    case Leaf(_) =>
    case List(slots) => SameSlots(slots);
    case Record(members) => SameFields(members);
  }

  lemma {:induction false} SameSlots(slots: seq<Slot>)
    requires ValidSlots(slots) && SlotHoles(slots) == 0
    requires forall i :: 0 <= i < |slots| ==> Valid(FilledSlots(slots)[i])
    ensures PrintSlots(slots) == FacilitatorItems(FilledSlots(slots))
    decreases slots, 1
  {
    if slots != [] {
      var t := slots[0].tree;
      assert t < slots[0];
      FilledValid(t);
      FilledSlotsValid(slots[1..]);
      SameWithoutHoles(t);
      SameSlots(slots[1..]);
      assert FilledSlots(slots)[1..] == FilledSlots(slots[1..]);
    }
  }

  lemma {:induction false} SameFields(members: seq<(Text, Tree)>)
    requires ValidMembers(members) && MemberHoles(members) == 0
    requires forall i :: 0 <= i < |members| ==> Valid(FilledMembers(members)[i].1)
    ensures PrintMembers(members) == FacilitatorMembers(FilledMembers(members))
    decreases members, 1
  {
    if members != [] {
      assert members[0].1 < members[0];
      FilledValid(members[0].1);
      FilledMembersValid(members[1..]);
      SameWithoutHoles(members[0].1);
      SameFields(members[1..]);
      assert FilledMembers(members)[1..] == FilledMembers(members[1..]);
    }
  }

  lemma {:induction false} SameThrows(t: Tree)
    requires ValidTree(t) && Valid(Filled(t))
    ensures Print(t).Ok? <==> Facilitator(Filled(t)).Ok?
    decreases t, 0
  {
    match t
    case Leaf(_) =>
    case List(slots) => SlotsThrow(slots);
    case Record(members) => FieldsThrow(members);
  }

  lemma {:induction false} SlotsThrow(slots: seq<Slot>)
    requires ValidSlots(slots) && forall i :: 0 <= i < |slots| ==> Valid(FilledSlots(slots)[i])
    ensures PrintSlots(slots).Ok? <==> FacilitatorItems(FilledSlots(slots)).Ok?
    decreases slots, 1
  {
    if slots != [] {
      FilledSlotsValid(slots[1..]);
      if slots[0].Element? {
        assert slots[0].tree < slots[0];
        FilledValid(slots[0].tree);
        SameThrows(slots[0].tree);
      }
      SlotsThrow(slots[1..]);
      assert FilledSlots(slots)[1..] == FilledSlots(slots[1..]);
    }
  }

  lemma {:induction false} FieldsThrow(members: seq<(Text, Tree)>)
    requires ValidMembers(members) && forall i :: 0 <= i < |members| ==> Valid(FilledMembers(members)[i].1)
    ensures PrintMembers(members).Ok? <==> FacilitatorMembers(FilledMembers(members)).Ok?
    decreases members, 1
  {
    if members != [] {
      assert members[0].1 < members[0];
      FilledValid(members[0].1);
      FilledMembersValid(members[1..]);
      SameThrows(members[0].1);
      FieldsThrow(members[1..]);
      assert FilledMembers(members)[1..] == FilledMembers(members[1..]);
    }
  }

  // ---- Every hole takes the four letters of null away ----

  ghost function TreeLength(t: Tree): nat
    requires ValidTree(t)
  {
    match t
    case Leaf(js) => if js.Opaque() then 0 else Size(Stringify(js), Length)
    case List(slots) => SlotsLength(slots) + Frame(|slots|, Length)
    case Record(members) => FieldsLength(members) + Frame(Fields(members), Length)
  }

  ghost function SlotsLength(slots: seq<Slot>): nat
    requires ValidSlots(slots)
  {
    if slots == [] then 0
    else
      (match slots[0] case Hole => 0 case Element(t) => assert t < slots[0]; if Gap(t) then Size(J.NULL_TEXT, Length) else TreeLength(t))
      + SlotsLength(slots[1..])
  }

  ghost function FieldsLength(members: seq<(Text, Tree)>): nat
    requires ValidMembers(members)
  {
    if members == [] then 0
    else
      assert members[0].1 < members[0];
      (if Gap(members[0].1) then 0 else Size(JsonKey(members[0].0), Length) + TreeLength(members[0].1)) + FieldsLength(members[1..])
  }

  /** How many members are printed. */
  ghost function Fields(members: seq<(Text, Tree)>): nat {
    if members == [] then 0 else (if Gap(members[0].1) then 0 else 1) + Fields(members[1..])
  }

  lemma {:induction false} PrintLength(t: Tree)
    requires ValidTree(t) && !Gap(t) && Print(t).Ok?
    ensures Size(Print(t).value, Length) == TreeLength(t)
    decreases t, 0
  {
    match t
    case Leaf(_) =>
    case List(slots) =>
      PrintSlotsLength(slots);
      JoinSize(PrintSlots(slots).value, Length);
    case Record(members) =>
      PrintFieldsLength(members);
      ObjectSize(PrintMembers(members).value, Length);
  }

  lemma {:induction false} PrintSlotsLength(slots: seq<Slot>)
    requires ValidSlots(slots) && PrintSlots(slots).Ok?
    ensures |PrintSlots(slots).value| == |slots| && Total(PrintSlots(slots).value, Length) == SlotsLength(slots)
    decreases slots, 1
  {
    if slots != [] {
      PrintSlotsLength(slots[1..]);
      var rest := PrintSlots(slots[1..]).value;
      match slots[0]
      case Hole => TotalOfCons([], rest, Length);
      case Element(t) =>
        assert t < slots[0];
        if !Gap(t) { PrintLength(t); }
        TotalOfCons(if Gap(t) then J.NULL_TEXT else Print(t).value, rest, Length);
    }
  }

  lemma {:induction false} PrintFieldsLength(members: seq<(Text, Tree)>)
    requires ValidMembers(members) && PrintMembers(members).Ok?
    ensures |PrintMembers(members).value| == Fields(members)
    ensures EntryTotal(PrintMembers(members).value, Length) == FieldsLength(members)
    decreases members, 1
  {
    if members != [] {
      var t := members[0].1;
      assert t < members[0];
      PrintFieldsLength(members[1..]);
      if !Gap(t) {
        PrintLength(t);
        EntryTotalOfCons(members[0].0, Print(t).value, PrintMembers(members[1..]).value, Length);
      }
    }
  }

  lemma {:induction false} HolesShorten(t: Tree)
    requires ValidTree(t) && Valid(Filled(t))
    ensures TreeLength(t) + 4 * Holes(t) == TreeSize(OfFacilitator, Length, Filled(t))
    decreases t, 0
  {
    match t
    case Leaf(_) =>
    case List(slots) => SlotHolesShorten(slots);
    case Record(members) => FieldHolesShorten(members);
  }

  lemma {:induction false} SlotHolesShorten(slots: seq<Slot>)
    requires ValidSlots(slots) && forall i :: 0 <= i < |slots| ==> Valid(FilledSlots(slots)[i])
    ensures SlotsLength(slots) + 4 * SlotHoles(slots) == ItemsSize(OfFacilitator, Length, FilledSlots(slots))
    decreases slots, 1
  {
    if slots != [] {
      NullSize();
      FilledSlotsValid(slots[1..]);
      if slots[0].Element? {
        assert slots[0].tree < slots[0];
        FilledValid(slots[0].tree);
        HolesShorten(slots[0].tree);
      }
      SlotHolesShorten(slots[1..]);
      assert FilledSlots(slots)[1..] == FilledSlots(slots[1..]);
    }
  }

  lemma {:induction false} FieldHolesShorten(members: seq<(Text, Tree)>)
    requires ValidMembers(members) && forall i :: 0 <= i < |members| ==> Valid(FilledMembers(members)[i].1)
    ensures FieldsLength(members) + 4 * MemberHoles(members) == MembersSize(OfFacilitator, Length, FilledMembers(members))
    ensures Fields(members) == Printed(OfFacilitator, FilledMembers(members))
    decreases members, 1
  {
    if members != [] {
      assert members[0].1 < members[0];
      FilledValid(members[0].1);
      FilledMembersValid(members[1..]);
      HolesShorten(members[0].1);
      FieldHolesShorten(members[1..]);
      assert FilledMembers(members)[1..] == FilledMembers(members[1..]);
    }
  }

  /**
   * The text is that of the tree with null in its holes if and only if there is no hole, or a BigInt or
   * non-finite number makes both throw.
   */
  lemma HolesAreDropped(t: Tree)
    requires ValidTree(t)
    ensures Valid(Filled(t))
    ensures Print(t) == Facilitator(Filled(t))
            <==> Holes(t) == 0 || Count(ABigInt, Filled(t)) > 0 || Count(ANonFinite, Filled(t)) > 0
  {
    FilledValid(t);
    FacilitatorThrows(Filled(t));
    SameThrows(t);
    if Holes(t) == 0 {
      SameWithoutHoles(t);
    } else if Print(t).Ok? {
      PrintLength(t);
      FacilitatorSize(Filled(t), Length);
      HolesShorten(t);
    }
  }

  /** An instance: an array that is one hole is signed like the empty array, not like [null]. */
  lemma OneHole()
    ensures ValidTree(List([Hole])) && Holes(List([Hole])) == 1
    ensures Print(List([Hole])) == Ok([J.LBRACKET, J.RBRACKET]) == Print(List([]))
    ensures Facilitator(Filled(List([Hole]))) == Ok([J.LBRACKET] + J.NULL_TEXT + [J.RBRACKET])
  {
    var slots, items := [Hole], [Undefined];
    var gap: seq<Text> := [[]];
    assert slots[1..] == [] && items[1..] == [] && gap + [] == gap && [J.NULL_TEXT] + [] == [J.NULL_TEXT];
    assert PrintSlots(slots) == Cons(Ok([]), Ok([])) == Ok(gap);
    assert FilledSlots(slots) == items;
    assert FacilitatorItems(items) == Cons(Ok(J.NULL_TEXT), Ok([])) == Ok([J.NULL_TEXT]);
    assert J.Join(gap) == [] && J.ArrayText(gap) == [J.LBRACKET, J.RBRACKET];
  }
}
