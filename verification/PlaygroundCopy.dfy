/** Exactly where the playground's canonicalizer departs from the facilitator's. */
module PlaygroundCopy {
  import opened Options
  import opened Utf16
  import opened JsonString
  import opened Serializers
  import J = CanonicalJson
  import T = CanonicalText

  /** What a tree may hold that JSON does not: array elements without a text are gaps. */
  datatype Feature = ABigInt | ANonFinite | AnItemGap | AFunctionMember

  ghost function Count(f: Feature, v: Js): nat {
    match v
    case BigInt => if f.ABigInt? then 1 else 0
    case NonFinite => if f.ANonFinite? then 1 else 0
    case Arr(items) => CountItems(f, items)
    case Obj(members) => CountMembers(f, members)
    case _ => 0
  }

  ghost function CountItems(f: Feature, items: seq<Js>): nat {
    if items == [] then 0
    else (if f.AnItemGap? && items[0].Opaque() then 1 else 0) + Count(f, items[0]) + CountItems(f, items[1..])
  }

  ghost function CountMembers(f: Feature, members: seq<(Text, Js)>): nat {
    if members == [] then 0
    else
      assert members[0].1 < members[0];
      (if f.AFunctionMember? && members[0].1.Function? then 1 else 0) + Count(f, members[0].1) + CountMembers(f, members[1..])
  }

  // ---- Where they throw ----

  lemma {:induction false} FacilitatorThrows(v: Js)
    requires Valid(v)
    ensures Facilitator(v).Ok? <==> Count(ABigInt, v) == 0 && Count(ANonFinite, v) == 0
    decreases v, 0
  {
    match v
    case Arr(items) => FacilitatorItemsThrow(items);
    case Obj(members) => FacilitatorMembersThrow(members);
    case _ =>
  }

  lemma {:induction false} FacilitatorItemsThrow(items: seq<Js>)
    requires forall i :: 0 <= i < |items| ==> Valid(items[i])
    ensures FacilitatorItems(items).Ok? <==> CountItems(ABigInt, items) == 0 && CountItems(ANonFinite, items) == 0
    decreases items, 1
  {
    if items != [] {
      FacilitatorThrows(items[0]);
      FacilitatorItemsThrow(items[1..]);
    }
  }

  lemma {:induction false} FacilitatorMembersThrow(members: seq<(Text, Js)>)
    requires forall i :: 0 <= i < |members| ==> Valid(members[i].1)
    ensures FacilitatorMembers(members).Ok? <==> CountMembers(ABigInt, members) == 0 && CountMembers(ANonFinite, members) == 0
    decreases members, 1
  {
    if members != [] {
      assert members[0].1 < members[0];
      FacilitatorThrows(members[0].1);
      FacilitatorMembersThrow(members[1..]);
    }
  }

  lemma {:induction false} PlaygroundThrows(v: Js)
    requires Valid(v)
    ensures Playground(v).Ok? <==> Count(ABigInt, v) == 0
    ensures Playground(v).Ok? ==> (Playground(v).value.None? <==> v.Opaque())
    decreases v, 0
  {
    match v
    case Arr(items) => PlaygroundItemsThrow(items);
    case Obj(members) => PlaygroundMembersThrow(members);
    case _ =>
  }

  lemma {:induction false} PlaygroundItemsThrow(items: seq<Js>)
    requires forall i :: 0 <= i < |items| ==> Valid(items[i])
    ensures PlaygroundItems(items).Ok? <==> CountItems(ABigInt, items) == 0
    decreases items, 1
  {
    if items != [] {
      PlaygroundThrows(items[0]);
      PlaygroundItemsThrow(items[1..]);
    }
  }

  lemma {:induction false} PlaygroundMembersThrow(members: seq<(Text, Js)>)
    requires forall i :: 0 <= i < |members| ==> Valid(members[i].1)
    ensures PlaygroundMembers(members).Ok? <==> CountMembers(ABigInt, members) == 0
    decreases members, 1
  {
    if members != [] {
      assert members[0].1 < members[0];
      PlaygroundThrows(members[0].1);
      PlaygroundMembersThrow(members[1..]);
    }
  }

  // ---- Where they print the same ----

  lemma {:induction false} SameText(v: Js)
    requires Valid(v) && !v.Opaque()
    requires Count(ANonFinite, v) == 0 && Count(AnItemGap, v) == 0 && Count(AFunctionMember, v) == 0
    ensures Playground(v) == Wrap(Facilitator(v))
    decreases v, 0
  {
    match v
    case Arr(items) => SameItems(items);
    case Obj(members) => SameMembers(members);
    case _ =>
  }

  lemma {:induction false} SameItems(items: seq<Js>)
    requires forall i :: 0 <= i < |items| ==> Valid(items[i])
    requires CountItems(ANonFinite, items) == 0 && CountItems(AnItemGap, items) == 0 && CountItems(AFunctionMember, items) == 0
    ensures PlaygroundItems(items) == FacilitatorItems(items)
    decreases items, 1
  {
    if items != [] {
      SameText(items[0]);
      SameItems(items[1..]);
    }
  }

  lemma {:induction false} SameMembers(members: seq<(Text, Js)>)
    requires forall i :: 0 <= i < |members| ==> Valid(members[i].1)
    requires CountMembers(ANonFinite, members) == 0 && CountMembers(AnItemGap, members) == 0 && CountMembers(AFunctionMember, members) == 0
    ensures PlaygroundMembers(members) == FacilitatorMembers(members)
    decreases members, 1
  {
    if members != [] {
      assert members[0].1 < members[0];
      if !members[0].1.Opaque() { SameText(members[0].1); }
      SameMembers(members[1..]);
    }
  }

  // ---- Measuring texts: by their quotation marks, or by their length ----

  datatype Measure = Quotes | Length

  ghost function Size(t: Text, m: Measure): nat {
    if t == [] then 0 else (if m.Length? || t[0] == QUOTE then 1 else 0) + Size(t[1..], m)
  }

  lemma {:induction false} LengthIsSize(t: Text)
    ensures Size(t, Length) == |t|
  {
    if t != [] { LengthIsSize(t[1..]); }
  }

  ghost function Total(parts: seq<Text>, m: Measure): nat {
    if parts == [] then 0 else Size(parts[0], m) + Total(parts[1..], m)
  }

  ghost function EntryTotal(entries: seq<(Text, Text)>, m: Measure): nat {
    if entries == [] then 0 else EntrySize(entries[0], m) + EntryTotal(entries[1..], m)
  }

  function JsonKey(key: Text): Text { Quote(key) + [J.COLON] }

  ghost function EntrySize(e: (Text, Text), m: Measure): nat { Size(JsonKey(e.0) + e.1, m) }

  /** Brackets and commas around n parts; none of them is a quotation mark. */
  ghost function Frame(n: nat, m: Measure): nat { if m.Quotes? then 0 else if n == 0 then 2 else n + 1 }

  lemma {:induction false} SizeConcat(a: Text, b: Text, m: Measure)
    ensures Size(a + b, m) == Size(a, m) + Size(b, m)
  {
    if a == [] {
      assert a + b == b;
    } else {
      SizeConcat(a[1..], b, m);
      assert (a + b)[1..] == a[1..] + b;
    }
  }

  lemma SizeOfUnit(c: Unit, m: Measure)
    ensures Size([c], m) == if m.Length? || c == QUOTE then 1 else 0
  {
  }

  lemma {:induction false} JoinSize(parts: seq<Text>, m: Measure)
    ensures Size([J.LBRACKET] + J.Join(parts) + [J.RBRACKET], m) == Total(parts, m) + Frame(|parts|, m)
    ensures Size([J.LBRACE] + J.Join(parts) + [J.RBRACE], m) == Total(parts, m) + Frame(|parts|, m)
  {
    var t := J.Join(parts);
    forall c: Unit ensures Size([c], m) == if m.Length? || c == QUOTE then 1 else 0 { SizeOfUnit(c, m); }
    SizeConcat([J.LBRACKET], t, m);
    SizeConcat([J.LBRACKET] + t, [J.RBRACKET], m);
    SizeConcat([J.LBRACE], t, m);
    SizeConcat([J.LBRACE] + t, [J.RBRACE], m);
    if |parts| > 1 {
      JoinSize(parts[1..], m);
      var rest := J.Join(parts[1..]);
      SizeConcat([J.LBRACKET], rest, m);
      SizeConcat([J.LBRACKET] + rest, [J.RBRACKET], m);
      SizeConcat(parts[0], [J.COMMA], m);
      SizeConcat(parts[0] + [J.COMMA], rest, m);
    }
  }

  lemma {:induction false} EntryTextsTotal(entries: seq<(Text, Text)>, m: Measure)
    ensures Total(J.EntryTexts(entries), m) == EntryTotal(entries, m)
  {
    if entries != [] {
      EntryTextsTotal(entries[1..], m);
      assert J.EntryTexts(entries)[1..] == J.EntryTexts(entries[1..]);
    }
  }

  lemma {:induction false} InsertTotal(e: (Text, Text), s: seq<(Text, Text)>, m: Measure)
    ensures EntryTotal(InsertByKey(e, s), m) == EntrySize(e, m) + EntryTotal(s, m) && |InsertByKey(e, s)| == |s| + 1
  {
    if s == [] {
    } else if Before(s[0].0, e.0) {
      InsertTotal(e, s[1..], m);
    } else {
      assert ([e] + s)[1..] == s;
    }
  }

  lemma {:induction false} SortTotal(s: seq<(Text, Text)>, m: Measure)
    ensures EntryTotal(SortByKey(s), m) == EntryTotal(s, m) && |SortByKey(s)| == |s|
  {
    if s != [] {
      SortTotal(s[1..], m);
      InsertTotal(s[0], SortByKey(s[1..]), m);
    }
  }

  lemma ObjectSize(entries: seq<(Text, Text)>, m: Measure)
    ensures Size(J.ObjectText(SortByKey(entries)), m) == EntryTotal(entries, m) + Frame(|entries|, m)
  {
    SortTotal(entries, m);
    EntryTextsTotal(SortByKey(entries), m);
    JoinSize(J.EntryTexts(SortByKey(entries)), m);
  }

  lemma TotalOfCons(t: Text, ts: seq<Text>, m: Measure)
    ensures Total([t] + ts, m) == Size(t, m) + Total(ts, m)
  {
    assert ([t] + ts)[1..] == ts;
  }

  lemma EntryTotalOfCons(key: Text, t: Text, es: seq<(Text, Text)>, m: Measure)
    ensures EntryTotal([(key, t)] + es, m) == Size(JsonKey(key), m) + Size(t, m) + EntryTotal(es, m)
  {
    assert ([(key, t)] + es)[1..] == es;
    SizeConcat(JsonKey(key), t, m);
  }

  // ---- The size of a text, from its tree ----

  datatype Copy = OfFacilitator | OfPlayground

  ghost function TreeSize(c: Copy, m: Measure, v: Js): nat
    requires Valid(v)
  {
    match v
    case Arr(items) => ItemsSize(c, m, items) + Frame(|items|, m)
    case Obj(members) => MembersSize(c, m, members) + Frame(Printed(c, members), m)
    case _ => if v.Opaque() then 0 else Size(Stringify(v), m)
  }

  ghost function ItemsSize(c: Copy, m: Measure, items: seq<Js>): nat
    requires forall i :: 0 <= i < |items| ==> Valid(items[i])
  {
    if items == [] then 0
    else
      (if !items[0].Opaque() then TreeSize(c, m, items[0]) else if c.OfFacilitator? then Size(J.NULL_TEXT, m) else 0)
      + ItemsSize(c, m, items[1..])
  }

  ghost function MembersSize(c: Copy, m: Measure, members: seq<(Text, Js)>): nat
    requires forall i :: 0 <= i < |members| ==> Valid(members[i].1)
  {
    if members == [] then 0
    else
      assert members[0].1 < members[0];
      (if Prints(c, members[0].1) then
         Size(JsonKey(members[0].0), m)
         + if members[0].1.Opaque() then Size(UNDEFINED_TEXT, m) else TreeSize(c, m, members[0].1)
       else 0)
      + MembersSize(c, m, members[1..])
  }

  /** Whether a member is printed, and how many are. */
  predicate Prints(c: Copy, v: Js) { !v.Opaque() || (c.OfPlayground? && v.Function?) }

  ghost function Printed(c: Copy, members: seq<(Text, Js)>): nat {
    if members == [] then 0 else (if Prints(c, members[0].1) then 1 else 0) + Printed(c, members[1..])
  }

  lemma {:induction false} FacilitatorSize(v: Js, m: Measure)
    requires Valid(v) && !v.Opaque() && Facilitator(v).Ok?
    ensures Size(Facilitator(v).value, m) == TreeSize(OfFacilitator, m, v)
    decreases v, 0
  {
    match v
    case Arr(items) =>
      FacilitatorItemsSize(items, m);
      JoinSize(FacilitatorItems(items).value, m);
    case Obj(members) =>
      FacilitatorMembersSize(members, m);
      ObjectSize(FacilitatorMembers(members).value, m);
    case _ =>
  }

  lemma {:induction false} FacilitatorItemsSize(items: seq<Js>, m: Measure)
    requires forall i :: 0 <= i < |items| ==> Valid(items[i])
    requires FacilitatorItems(items).Ok?
    ensures |FacilitatorItems(items).value| == |items|
    ensures Total(FacilitatorItems(items).value, m) == ItemsSize(OfFacilitator, m, items)
    decreases items, 1
  {
    if items != [] {
      FacilitatorItemsSize(items[1..], m);
      if !items[0].Opaque() { FacilitatorSize(items[0], m); }
      TotalOfCons(if items[0].Opaque() then J.NULL_TEXT else Facilitator(items[0]).value, FacilitatorItems(items[1..]).value, m);
    }
  }

  lemma {:induction false} FacilitatorMembersSize(members: seq<(Text, Js)>, m: Measure)
    requires forall i :: 0 <= i < |members| ==> Valid(members[i].1)
    requires FacilitatorMembers(members).Ok?
    ensures |FacilitatorMembers(members).value| == Printed(OfFacilitator, members)
    ensures EntryTotal(FacilitatorMembers(members).value, m) == MembersSize(OfFacilitator, m, members)
    decreases members, 1
  {
    if members != [] {
      var v := members[0].1;
      assert v < members[0];
      FacilitatorMembersSize(members[1..], m);
      if !v.Opaque() {
        FacilitatorSize(v, m);
        EntryTotalOfCons(members[0].0, Facilitator(v).value, FacilitatorMembers(members[1..]).value, m);
      }
    }
  }

  lemma {:induction false} PlaygroundSize(v: Js, m: Measure)
    requires Valid(v) && !v.Opaque() && Playground(v).Ok? && Count(ANonFinite, v) == 0
    ensures Playground(v).value.Some? && Size(Playground(v).value.value, m) == TreeSize(OfPlayground, m, v)
    decreases v, 0
  {
    match v
    case Arr(items) =>
      PlaygroundItemsSize(items, m);
      JoinSize(PlaygroundItems(items).value, m);
    case Obj(members) =>
      PlaygroundMembersSize(members, m);
      ObjectSize(PlaygroundMembers(members).value, m);
    case _ =>
  }

  lemma {:induction false} PlaygroundItemsSize(items: seq<Js>, m: Measure)
    requires forall i :: 0 <= i < |items| ==> Valid(items[i])
    requires PlaygroundItems(items).Ok? && CountItems(ANonFinite, items) == 0
    ensures |PlaygroundItems(items).value| == |items|
    ensures Total(PlaygroundItems(items).value, m) == ItemsSize(OfPlayground, m, items)
    decreases items, 1
  {
    if items != [] {
      PlaygroundItemsSize(items[1..], m);
      if !items[0].Opaque() { PlaygroundSize(items[0], m); }
      TotalOfCons(if items[0].Opaque() then [] else Playground(items[0]).value.value, PlaygroundItems(items[1..]).value, m);
    }
  }

  lemma {:induction false} PlaygroundMembersSize(members: seq<(Text, Js)>, m: Measure)
    requires forall i :: 0 <= i < |members| ==> Valid(members[i].1)
    requires PlaygroundMembers(members).Ok? && CountMembers(ANonFinite, members) == 0
    ensures |PlaygroundMembers(members).value| == Printed(OfPlayground, members)
    ensures EntryTotal(PlaygroundMembers(members).value, m) == MembersSize(OfPlayground, m, members)
    decreases members, 1
  {
    if members != [] {
      var v := members[0].1;
      assert v < members[0];
      PlaygroundMembersSize(members[1..], m);
      if !v.Opaque() {
        PlaygroundSize(v, m);
        PrintedMember(members, Playground(v).value.value, m);
      } else if v.Function? {
        PrintedMember(members, UNDEFINED_TEXT, m);
      }
    }
  }

  /** A first member that the playground prints with the text t. */
  lemma PrintedMember(members: seq<(Text, Js)>, t: Text, m: Measure)
    requires members != [] && (forall i :: 0 <= i < |members| ==> Valid(members[i].1)) && PlaygroundMembers(members).Ok?
    requires var v := members[0].1;
             if v.Opaque() then v.Function? && t == UNDEFINED_TEXT else Playground(v) == Ok(Some(t))
    ensures PlaygroundMembers(members[1..]).Ok?
    ensures |PlaygroundMembers(members).value| == |PlaygroundMembers(members[1..]).value| + 1
    ensures EntryTotal(PlaygroundMembers(members).value, m)
            == Size(JsonKey(members[0].0), m) + Size(t, m) + EntryTotal(PlaygroundMembers(members[1..]).value, m)
  {
    assert members[0].1 < members[0];
    var rest := PlaygroundMembers(members[1..]).value;
    assert PlaygroundMembers(members) == Ok([(members[0].0, t)] + rest);
    EntryTotalOfCons(members[0].0, t, rest, m);
  }

  // ---- The copies differ in quotation marks, or else in length ----

  lemma NullSize()
    ensures Size(J.NULL_TEXT, Quotes) == 0 && Size(J.NULL_TEXT, Length) == 4
  {
    LengthIsSize(J.NULL_TEXT);
    assert J.NULL_TEXT == [0x6E] + ([0x75] + ([0x6C] + [0x6C]));
    SizeConcat([0x6E], [0x75] + ([0x6C] + [0x6C]), Quotes);
    SizeConcat([0x75], [0x6C] + [0x6C], Quotes);
    SizeConcat([0x6C], [0x6C], Quotes);
  }

  lemma KeyIsQuoted(key: Text)
    ensures Size(JsonKey(key), Quotes) > 0
  {
    assert JsonKey(key)[0] == QUOTE;
  }

  lemma {:induction false} QuotesDiffer(v: Js)
    requires Valid(v)
    ensures TreeSize(OfPlayground, Quotes, v) >= TreeSize(OfFacilitator, Quotes, v)
    ensures TreeSize(OfPlayground, Quotes, v) == TreeSize(OfFacilitator, Quotes, v) <==> Count(AFunctionMember, v) == 0
    decreases v, 0
  {
    match v
    case Arr(items) => ItemQuotesDiffer(items);
    case Obj(members) => MemberQuotesDiffer(members);
    case _ =>
  }

  lemma {:induction false} ItemQuotesDiffer(items: seq<Js>)
    requires forall i :: 0 <= i < |items| ==> Valid(items[i])
    ensures ItemsSize(OfPlayground, Quotes, items) >= ItemsSize(OfFacilitator, Quotes, items)
    ensures ItemsSize(OfPlayground, Quotes, items) == ItemsSize(OfFacilitator, Quotes, items) <==> CountItems(AFunctionMember, items) == 0
    decreases items, 1
  {
    if items != [] {
      QuotesDiffer(items[0]);
      ItemQuotesDiffer(items[1..]);
      NullSize();
    }
  }

  lemma {:induction false} MemberQuotesDiffer(members: seq<(Text, Js)>)
    requires forall i :: 0 <= i < |members| ==> Valid(members[i].1)
    ensures MembersSize(OfPlayground, Quotes, members) >= MembersSize(OfFacilitator, Quotes, members)
    ensures MembersSize(OfPlayground, Quotes, members) == MembersSize(OfFacilitator, Quotes, members)
            <==> CountMembers(AFunctionMember, members) == 0
    decreases members, 1
  {
    if members != [] {
      assert members[0].1 < members[0];
      QuotesDiffer(members[0].1);
      MemberQuotesDiffer(members[1..]);
      KeyIsQuoted(members[0].0);
    }
  }

  /** Without function members, every gap takes the four letters of null away. */
  lemma {:induction false} LengthsDiffer(v: Js)
    requires Valid(v) && Count(AFunctionMember, v) == 0
    ensures TreeSize(OfPlayground, Length, v) + 4 * Count(AnItemGap, v) == TreeSize(OfFacilitator, Length, v)
    decreases v, 0
  {
    match v
    case Arr(items) => ItemLengthsDiffer(items);
    case Obj(members) => MemberLengthsDiffer(members);
    case _ =>
  }

  lemma {:induction false} ItemLengthsDiffer(items: seq<Js>)
    requires forall i :: 0 <= i < |items| ==> Valid(items[i])
    requires CountItems(AFunctionMember, items) == 0
    ensures ItemsSize(OfPlayground, Length, items) + 4 * CountItems(AnItemGap, items) == ItemsSize(OfFacilitator, Length, items)
    decreases items, 1
  {
    if items != [] {
      LengthsDiffer(items[0]);
      ItemLengthsDiffer(items[1..]);
      NullSize();
    }
  }

  lemma {:induction false} MemberLengthsDiffer(members: seq<(Text, Js)>)
    requires forall i :: 0 <= i < |members| ==> Valid(members[i].1)
    requires CountMembers(AFunctionMember, members) == 0
    ensures MembersSize(OfPlayground, Length, members) + 4 * CountMembers(AnItemGap, members) == MembersSize(OfFacilitator, Length, members)
    ensures Printed(OfPlayground, members) == Printed(OfFacilitator, members)
    decreases members, 1
  {
    if members != [] {
      assert members[0].1 < members[0];
      LengthsDiffer(members[0].1);
      MemberLengthsDiffer(members[1..]);
    }
  }

  /** Where both print, function members and gaps make the texts different. */
  lemma TextsDiffer(v: Js)
    requires Valid(v) && !v.Opaque() && Facilitator(v).Ok? && Playground(v).Ok? && Count(ANonFinite, v) == 0
    requires Count(AFunctionMember, v) > 0 || Count(AnItemGap, v) > 0
    ensures Playground(v) != Wrap(Facilitator(v))
  {
    var m := if Count(AFunctionMember, v) > 0 then Quotes else Length;
    FacilitatorSize(v, m);
    PlaygroundSize(v, m);
    if m.Quotes? { QuotesDiffer(v); } else { LengthsDiffer(v); }
  }

  /**
   * The playground's copy gives the facilitator's text or exception on a tree if and only if the tree
   * holds a BigInt, or no non-finite number, array gap or function-valued member and has a text itself.
   */
  lemma PlaygroundAgrees(v: Js)
    requires Valid(v)
    ensures Playground(v) == Wrap(Facilitator(v)) <==>
              || Count(ABigInt, v) > 0
              || (Count(ANonFinite, v) == 0 && Count(AnItemGap, v) == 0 && Count(AFunctionMember, v) == 0 && !v.Opaque())
  {
    FacilitatorThrows(v);
    PlaygroundThrows(v);
    if Count(ABigInt, v) == 0 && Count(ANonFinite, v) == 0 && !v.Opaque() {
      if Count(AnItemGap, v) == 0 && Count(AFunctionMember, v) == 0 { SameText(v); } else { TextsDiffer(v); }
    }
  }

  // ---- JSON trees ----

  lemma {:induction false} PureJsonIsPlain(v: Js, f: Feature)
    requires PureJson(v)
    ensures Count(f, v) == 0
    decreases v, 0
  {
    match v
    case Arr(items) => PureItemsArePlain(items, f);
    case Obj(members) => PureMembersArePlain(members, f);
    case _ =>
  }

  lemma {:induction false} PureItemsArePlain(items: seq<Js>, f: Feature)
    requires forall i :: 0 <= i < |items| ==> PureJson(items[i])
    ensures CountItems(f, items) == 0
    decreases items, 1
  {
    if items != [] {
      PureJsonIsPlain(items[0], f);
      PureItemsArePlain(items[1..], f);
    }
  }

  lemma {:induction false} PureMembersArePlain(members: seq<(Text, Js)>, f: Feature)
    requires forall i :: 0 <= i < |members| ==> PureJson(members[i].1)
    ensures CountMembers(f, members) == 0
    decreases members, 1
  {
    if members != [] {
      assert members[0].1 < members[0];
      PureJsonIsPlain(members[0].1, f);
      PureMembersArePlain(members[1..], f);
    }
  }

  /** On every JSON tree all four copies emit the same text: the canonical text of its value. */
  lemma AllCopiesAgree(v: Js)
    requires Valid(v) && PureJson(v)
    ensures Erase(v).Some? && J.Valid(Erase(v).value)
    ensures var text := J.Print(Erase(v).value);
            && Facilitator(v) == Bazaar(v) == Sdk(v) == Ok(text)
            && Playground(v) == Ok(Some(text))
  {
    PureJsonErases(v);
    FacilitatorPrintsErased(v);
    BazaarAgrees(v);
    SdkAgrees(v);
    PureJsonIsPlain(v, ANonFinite);
    PureJsonIsPlain(v, AnItemGap);
    PureJsonIsPlain(v, AFunctionMember);
    PlaygroundAgrees(v);
  }

  /** A concrete tree: [undefined] is [] there and [null] elsewhere. */
  lemma PlaygroundDropsGaps()
    ensures Valid(Arr([Undefined])) && Count(AnItemGap, Arr([Undefined])) == 1
    ensures Playground(Arr([Undefined])) == Ok(Some([J.LBRACKET, J.RBRACKET]))
    ensures Facilitator(Arr([Undefined])) == Ok([J.LBRACKET] + J.NULL_TEXT + [J.RBRACKET])
  {
    var items := [Undefined];
    var gap: seq<Text> := [[]];
    assert items[0] == Undefined && items[1..] == [];
    assert gap + [] == gap && [J.NULL_TEXT] + [] == [J.NULL_TEXT];
    assert PlaygroundItems(items) == Cons(Ok([]), Ok([])) == Ok(gap);
    assert FacilitatorItems(items) == Cons(Ok(J.NULL_TEXT), Ok([])) == Ok([J.NULL_TEXT]);
    assert J.Join(gap) == [] && J.ArrayText(gap) == [J.LBRACKET, J.RBRACKET];
  }

  // ---- What the playground prints instead ----

  /** The tree with null for every non-finite number. */
  function Nulled(v: Js): Js {
    match v
    case NonFinite => Null
    case Arr(items) => Arr(NulledItems(items))
    case Obj(members) => Obj(NulledMembers(members))
    case _ => v
  }

  function NulledItems(items: seq<Js>): (r: seq<Js>)
    ensures |r| == |items|
  {
    if items == [] then [] else [Nulled(items[0])] + NulledItems(items[1..])
  }

  function NulledMembers(members: seq<(Text, Js)>): (r: seq<(Text, Js)>)
    ensures |r| == |members| && forall i :: 0 <= i < |r| ==> r[i].0 == members[i].0
  {
    if members == [] then []
    else assert members[0].1 < members[0]; [(members[0].0, Nulled(members[0].1))] + NulledMembers(members[1..])
  }

  lemma {:induction false} NonFiniteAsNull(v: Js)
    requires Valid(v) && !v.Opaque() && Count(AnItemGap, v) == 0 && Count(AFunctionMember, v) == 0
    ensures Valid(Nulled(v)) && !Nulled(v).Opaque() && Playground(v) == Wrap(Facilitator(Nulled(v)))
    decreases v, 0
  {
    match v
    case Arr(items) => NonFiniteItems(items);
    case Obj(members) => NonFiniteMembers(members);
    case _ =>
  }

  lemma {:induction false} NonFiniteItems(items: seq<Js>)
    requires forall i :: 0 <= i < |items| ==> Valid(items[i])
    requires CountItems(AnItemGap, items) == 0 && CountItems(AFunctionMember, items) == 0
    ensures forall i :: 0 <= i < |items| ==> Valid(NulledItems(items)[i])
    ensures PlaygroundItems(items) == FacilitatorItems(NulledItems(items))
    decreases items, 1
  {
    if items != [] {
      NonFiniteAsNull(items[0]);
      NonFiniteItems(items[1..]);
      assert NulledItems(items)[1..] == NulledItems(items[1..]);
    }
  }

  lemma {:induction false} NonFiniteMembers(members: seq<(Text, Js)>)
    requires forall i :: 0 <= i < |members| ==> Valid(members[i].1)
    requires CountMembers(AnItemGap, members) == 0 && CountMembers(AFunctionMember, members) == 0
    ensures forall i :: 0 <= i < |members| ==> Valid(NulledMembers(members)[i].1)
    ensures PlaygroundMembers(members) == FacilitatorMembers(NulledMembers(members))
    decreases members, 1
  {
    if members != [] {
      assert members[0].1 < members[0];
      if !members[0].1.Opaque() { NonFiniteAsNull(members[0].1); }
      NonFiniteMembers(members[1..]);
      assert NulledMembers(members)[1..] == NulledMembers(members[1..]);
    }
  }

  /** A function-valued member prints as the bare word undefined, which is no JSON. */
  lemma FunctionsPrintUndefined(key: Text)
    ensures Valid(Obj([(key, Function)])) && Count(AFunctionMember, Obj([(key, Function)])) == 1
    ensures Playground(Obj([(key, Function)])) == Ok(Some([J.LBRACE] + (Quote(key) + [J.COLON] + UNDEFINED_TEXT) + [J.RBRACE]))
    ensures Facilitator(Obj([(key, Function)])) == Ok([J.LBRACE, J.RBRACE])
  {
    var members := [(key, Function)];
    assert members[0] == (key, Function) && members[1..] == [];
    var entries := [(key, UNDEFINED_TEXT)];
    assert entries[1..] == [] && entries + [] == entries;
    assert PlaygroundMembers(members) == Cons(Entry(key, Ok(UNDEFINED_TEXT)), Ok([])) == Ok(entries);
    assert FacilitatorMembers(members) == Ok([]);
    assert CountMembers(AFunctionMember, members) == 1 + Count(AFunctionMember, Function) + CountMembers(AFunctionMember, members[1..]);
    var none: seq<(Text, Text)> := [];
    assert SortByKey(none) == none && SortByKey(none) == SortByKey(entries[1..]);
    assert SortByKey(entries) == InsertByKey(entries[0], none) == entries;
    assert Brace(Ok(entries)) == Ok(J.ObjectText(entries)) && Brace(Ok(none)) == Ok(J.ObjectText(none));
    assert J.Join(J.EntryTexts(none)) == [];
    assert J.ObjectText(none) == [J.LBRACE, J.RBRACE];
    var parts := [Quote(key) + [J.COLON] + UNDEFINED_TEXT];
    assert J.EntryTexts(entries) == parts + J.EntryTexts([]) == parts;
    assert J.Join(parts) == parts[0];
  }

  lemma UndefinedWord()
    ensures UNDEFINED_TEXT == T.Ascii("undefined")
  {
    assert |"undefined"| == 9;
  }

  /** Where a tree has no text itself, every copy has an answer of its own. */
  lemma WithoutText(v: Js)
    requires Valid(v) && v.Opaque()
    ensures Facilitator(v) == Ok(T.Ascii("null")) && Bazaar(v) == Ok([]) && Sdk(v) == TypeError && Playground(v) == Ok(None)
  {
    T.LeafWords();
  }
}
