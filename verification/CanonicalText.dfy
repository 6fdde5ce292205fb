/** The promises made for canonical JSON: its text can be read back, and determines the value. */
module CanonicalText {
  import opened Options
  import opened Utf16
  import opened EcmaNumber
  import opened JsonString
  import opened CanonicalJson

  // ---- The canonical value prints, unsorted, to the canonical text ----

  lemma {:induction false} InsertCommutes(e: (Text, Json), s: seq<(Text, Json)>)
    requires Normal(e.1) && forall i :: 0 <= i < |s| ==> Normal(s[i].1)
    ensures forall i :: 0 <= i < |InsertByKey(e, s)| ==> Normal(InsertByKey(e, s)[i].1)
    ensures RawMembers(InsertByKey(e, s)) == InsertByKey((e.0, Raw(e.1)), RawMembers(s))
  {
    if s != [] && Before(s[0].0, e.0) {
      InsertCommutes(e, s[1..]);
    }
  }

  lemma {:induction false} SortCommutes(s: seq<(Text, Json)>)
    requires forall i :: 0 <= i < |s| ==> Normal(s[i].1)
    ensures forall i :: 0 <= i < |SortByKey(s)| ==> Normal(SortByKey(s)[i].1)
    ensures RawMembers(SortByKey(s)) == SortByKey(RawMembers(s))
  {
    if s != [] {
      SortCommutes(s[1..]);
      InsertCommutes(s[0], SortByKey(s[1..]));
      assert RawMembers(s)[1..] == RawMembers(s[1..]);
    }
  }

  lemma {:induction false} PrintIsRawOfCanon(v: Json)
    requires Valid(v)
    ensures Normal(Canon(v)) && Print(v) == Raw(Canon(v))
    decreases v, 0
  {
    match v
    case Arr(items) => PrintItemsIsRaw(items);
    case Obj(members) =>
      PrintMembersIsRaw(members);
      SortCommutes(CanonMembers(members));
    case _ =>
  }

  lemma {:induction false} PrintItemsIsRaw(items: seq<Json>)
    requires forall i :: 0 <= i < |items| ==> Valid(items[i])
    ensures forall i :: 0 <= i < |CanonItems(items)| ==> Normal(CanonItems(items)[i])
    ensures PrintItems(items) == RawItems(CanonItems(items))
    decreases items, 1
  {
    if items != [] {
      PrintIsRawOfCanon(items[0]);
      PrintItemsIsRaw(items[1..]);
      assert CanonItems(items)[1..] == CanonItems(items[1..]);
    }
  }

  lemma {:induction false} PrintMembersIsRaw(members: seq<(Text, Json)>)
    requires forall i :: 0 <= i < |members| ==> Valid(members[i].1)
    ensures forall i :: 0 <= i < |CanonMembers(members)| ==> Normal(CanonMembers(members)[i].1)
    ensures PrintMembers(members) == RawMembers(CanonMembers(members))
    decreases members, 1
  {
    if members != [] {
      assert members[0].1 < members[0];
      PrintIsRawOfCanon(members[0].1);
      PrintMembersIsRaw(members[1..]);
      assert CanonMembers(members)[1..] == CanonMembers(members[1..]);
    }
  }

  /** Reading the canonical text of any value gives that value back, members in key order and -0 as 0. */
  lemma RoundTrip(v: Json)
    requires Valid(v)
    ensures ReadValue(Print(v)) == Some((Canon(v), []))
  {
    PrintIsRawOfCanon(v);
    ReadRaw(Canon(v), []);
    assert Raw(Canon(v)) + [] == Raw(Canon(v));
  }

  // ---- Equal text means the same value ----

  /** The same JSON value: equal leaves (0 and -0 alike), equal arrays, equal members under equal keys. */
  ghost predicate Same(v: Json, w: Json) {
    match (v, w)
    case (Null, Null) => true
    case (Bool(a), Bool(b)) => a == b
    case (Num(a), Num(b)) => a.Canonical() == b.Canonical()
    case (Str(a), Str(b)) => a == b
    case (Arr(a), Arr(b)) => |a| == |b| && forall i :: 0 <= i < |a| ==> Same(a[i], b[i])
    case (Obj(a), Obj(b)) =>
      && Keys(a) == Keys(b)
      && forall i, j :: 0 <= i < |a| && 0 <= j < |b| && a[i].0 == b[j].0 ==> Same(a[i].1, b[j].1)
    case _ => false
  }

  ghost function Keys<T>(members: seq<(Text, T)>): set<Text> {
    set i | 0 <= i < |members| :: members[i].0
  }

  lemma {:induction false} CanonItemsAt(items: seq<Json>, i: nat)
    requires i < |items|
    ensures CanonItems(items)[i] == Canon(items[i])
  {
  }

  lemma {:induction false} CanonMembersAt(members: seq<(Text, Json)>, i: nat)
    requires i < |members|
    ensures CanonMembers(members)[i] == (members[i].0, Canon(members[i].1))
  {
    if i > 0 { CanonMembersAt(members[1..], i - 1); }
  }

  lemma CanonMembersDistinct(members: seq<(Text, Json)>)
    requires DistinctKeys(members)
    ensures DistinctKeys(CanonMembers(members))
  {
    forall i, j | 0 <= i < j < |members| ensures CanonMembers(members)[i].0 != CanonMembers(members)[j].0 {
      CanonMembersAt(members, i);
      CanonMembersAt(members, j);
    }
  }

  /** A list with distinct keys holds every entry once. */
  lemma {:induction false} CountOfDistinct<T>(s: seq<(Text, T)>, x: (Text, T))
    requires DistinctKeys(s)
    ensures multiset(s)[x] == if x in s then 1 else 0
  {
    if s != [] {
      CountOfDistinct(s[1..], x);
      assert s == [s[0]] + s[1..];
      if x in s[1..] {
        var i :| 0 <= i < |s[1..]| && s[1..][i] == x;
        assert s[i + 1] == x;
      }
    }
  }

  lemma SameEntries<T>(a: seq<(Text, T)>, b: seq<(Text, T)>)
    requires DistinctKeys(a) && DistinctKeys(b)
    requires forall i :: 0 <= i < |a| ==> a[i] in b
    requires forall j :: 0 <= j < |b| ==> b[j] in a
    ensures multiset(a) == multiset(b)
  {
    forall x: (Text, T) ensures multiset(a)[x] == multiset(b)[x] {
      CountOfDistinct(a, x);
      CountOfDistinct(b, x);
    }
  }

  lemma {:induction false} SameMembersToCanon(a: seq<(Text, Json)>, b: seq<(Text, Json)>)
    requires Valid(Obj(a)) && Valid(Obj(b)) && Same(Obj(a), Obj(b))
    requires forall i, j :: 0 <= i < |a| && 0 <= j < |b| && a[i].0 == b[j].0 ==> Canon(a[i].1) == Canon(b[j].1)
    ensures forall i :: 0 <= i < |a| ==> CanonMembers(a)[i] in CanonMembers(b)
  {
    forall i | 0 <= i < |a| ensures CanonMembers(a)[i] in CanonMembers(b) {
      assert a[i].0 in Keys(a);
      var j :| 0 <= j < |b| && b[j].0 == a[i].0;
      CanonMembersAt(a, i);
      CanonMembersAt(b, j);
      assert CanonMembers(b)[j] == CanonMembers(a)[i];
    }
  }

  lemma {:induction false} SameImpliesCanon(v: Json, w: Json)
    requires Valid(v) && Valid(w) && Same(v, w)
    ensures Canon(v) == Canon(w)
    decreases v
  {
    match (v, w)
    case (Arr(a), Arr(b)) =>
      forall i | 0 <= i < |a| ensures CanonItems(a)[i] == CanonItems(b)[i] {
        SameImpliesCanon(a[i], b[i]);
      }
      assert CanonItems(a) == CanonItems(b);
    case (Obj(a), Obj(b)) =>
      forall i, j | 0 <= i < |a| && 0 <= j < |b| && a[i].0 == b[j].0 ensures Canon(a[i].1) == Canon(b[j].1) {
        SameImpliesCanon(a[i].1, b[j].1);
      }
      SameSymmetric(v, w);
      SameMembersToCanon(a, b);
      SameMembersToCanon(b, a);
      CanonMembersDistinct(a);
      CanonMembersDistinct(b);
      SameEntries(CanonMembers(a), CanonMembers(b));
      SortByKeyCorrect(CanonMembers(a));
      SortByKeyCorrect(CanonMembers(b));
      SortedUnique(SortByKey(CanonMembers(a)), SortByKey(CanonMembers(b)));
    case _ =>
  }

  lemma {:induction false} SameSymmetric(v: Json, w: Json)
    requires Same(v, w)
    ensures Same(w, v)
    decreases v
  {
    match (v, w)
    case (Arr(a), Arr(b)) =>
      forall i | 0 <= i < |a| ensures Same(b[i], a[i]) { SameSymmetric(a[i], b[i]); }
    case (Obj(a), Obj(b)) =>
      forall i, j | 0 <= i < |b| && 0 <= j < |a| && b[i].0 == a[j].0 ensures Same(b[i].1, a[j].1) {
        SameSymmetric(a[j].1, b[i].1);
      }
    case _ =>
  }

  lemma CanonEntry(a: seq<(Text, Json)>, b: seq<(Text, Json)>, i: nat)
    requires i < |a| && DistinctKeys(b)
    requires multiset(CanonMembers(a)) == multiset(CanonMembers(b))
    ensures a[i].0 in Keys(b)
    ensures forall j :: 0 <= j < |b| && b[j].0 == a[i].0 ==> Canon(b[j].1) == Canon(a[i].1)
  {
    CanonMembersAt(a, i);
    assert CanonMembers(a)[i] in multiset(CanonMembers(b));
    var k :| 0 <= k < |CanonMembers(b)| && CanonMembers(b)[k] == CanonMembers(a)[i];
    CanonMembersAt(b, k);
  }

  /** Equal sorted members come from the same entries. */
  lemma CanonMembersEqual(a: seq<(Text, Json)>, b: seq<(Text, Json)>)
    requires DistinctKeys(a) && DistinctKeys(b) && SortByKey(CanonMembers(a)) == SortByKey(CanonMembers(b))
    ensures multiset(CanonMembers(a)) == multiset(CanonMembers(b)) && Keys(a) == Keys(b)
  {
    CanonMembersDistinct(a);
    CanonMembersDistinct(b);
    SortByKeyCorrect(CanonMembers(a));
    SortByKeyCorrect(CanonMembers(b));
    forall k ensures k in Keys(a) <==> k in Keys(b) {
      if k in Keys(a) { var i :| 0 <= i < |a| && a[i].0 == k; CanonEntry(a, b, i); }
      if k in Keys(b) { var j :| 0 <= j < |b| && b[j].0 == k; CanonEntry(b, a, j); }
    }
  }

  lemma {:induction false} CanonImpliesSame(v: Json, w: Json)
    requires Valid(v) && Valid(w) && Canon(v) == Canon(w)
    ensures Same(v, w)
    decreases v
  {
    match (v, w)
    case (Arr(a), Arr(b)) =>
      forall i | 0 <= i < |a| ensures Same(a[i], b[i]) {
        CanonItemsAt(a, i);
        CanonItemsAt(b, i);
        CanonImpliesSame(a[i], b[i]);
      }
    case (Obj(a), Obj(b)) =>
      CanonMembersEqual(a, b);
      forall i, j | 0 <= i < |a| && 0 <= j < |b| && a[i].0 == b[j].0 ensures Same(a[i].1, b[j].1) {
        CanonEntry(a, b, i);
        CanonImpliesSame(a[i].1, b[j].1);
      }
    case _ =>
  }

  /** Two values share a canonical text exactly when they are the same JSON value. */
  lemma TextDeterminesValue(v: Json, w: Json)
    requires Valid(v) && Valid(w)
    ensures Print(v) == Print(w) <==> Same(v, w)
  {
    if Print(v) == Print(w) {
      RoundTrip(v);
      RoundTrip(w);
      CanonImpliesSame(v, w);
    }
    if Same(v, w) {
      SameImpliesCanon(v, w);
      PrintIsRawOfCanon(v);
      PrintIsRawOfCanon(w);
    }
  }

  /** The order in which an object's keys were inserted never changes its text. */
  lemma KeyOrderIrrelevant(a: seq<(Text, Json)>, b: seq<(Text, Json)>)
    requires Valid(Obj(a)) && Valid(Obj(b)) && multiset(a) == multiset(b)
    ensures Print(Obj(a)) == Print(Obj(b))
  {
    PermutedMembers(a, b);
    PermutedMembers(b, a);
    SameEntries(CanonMembers(a), CanonMembers(b)) by {
      CanonMembersDistinct(a);
      CanonMembersDistinct(b);
    }
    SortByKeyCorrect(CanonMembers(a)) by { CanonMembersDistinct(a); }
    SortByKeyCorrect(CanonMembers(b)) by { CanonMembersDistinct(b); }
    SortedUnique(SortByKey(CanonMembers(a)), SortByKey(CanonMembers(b)));
    PrintIsRawOfCanon(Obj(a));
    PrintIsRawOfCanon(Obj(b));
  }

  lemma PermutedMembers(a: seq<(Text, Json)>, b: seq<(Text, Json)>)
    requires multiset(a) == multiset(b)
    ensures forall i :: 0 <= i < |a| ==> CanonMembers(a)[i] in CanonMembers(b)
  {
    forall i | 0 <= i < |a| ensures CanonMembers(a)[i] in CanonMembers(b) {
      assert a[i] in multiset(b);
      var j :| 0 <= j < |b| && b[j] == a[i];
      CanonMembersAt(a, i);
      CanonMembersAt(b, j);
      assert CanonMembers(b)[j] == CanonMembers(a)[i];
    }
  }

  // ---- The words and signs of JSON ----

  /** The units of an ASCII string. */
  function Ascii(s: string): Text
    requires forall i :: 0 <= i < |s| ==> s[i] < '\U{80}'
  {
    seq(|s|, i requires 0 <= i < |s| => s[i] as int)
  }

  lemma LeafWords()
    ensures LeafText(Null) == Ascii("null") && LeafText(Bool(true)) == Ascii("true") && LeafText(Bool(false)) == Ascii("false")
    ensures LeafText(Str([])) == Ascii("\"\"") && LeafText(Num(Zero(true))) == LeafText(Num(Zero(false))) == Ascii("0")
    ensures ArrayText([]) == Ascii("[]") && ObjectText([]) == Ascii("{}")
  {
  }

  lemma JoinTwo(s: Text, t: Text)
    ensures Join([s, t]) == s + [COMMA] + t
  {
    assert [s, t][1..] == [t];
  }

  lemma TwoEntries(k: Text, s: Text, l: Text, t: Text)
    ensures EntryTexts([(k, s), (l, t)]) == [Quote(k) + [COLON] + s, Quote(l) + [COLON] + t]
  {
    var second := [(l, t)];
    assert [(k, s), (l, t)][1..] == second && second[1..] == [];
    assert EntryTexts(second) == [Quote(l) + [COLON] + t] + EntryTexts([]);
  }

  lemma Signs()
    ensures Ascii("[") == [LBRACKET] && Ascii("]") == [RBRACKET] && Ascii("{") == [LBRACE] && Ascii("}") == [RBRACE]
    ensures Ascii(",") == [COMMA] && Ascii(":") == [COLON]
  {
  }

  /** Elements and members are separated by commas, keys and values by colons, with nothing in between. */
  lemma Punctuation(s: Text, t: Text, k: Text, l: Text)
    ensures ArrayText([s, t]) == Ascii("[") + (s + Ascii(",") + t) + Ascii("]")
    ensures ObjectText([(k, s), (l, t)])
            == Ascii("{") + ((Quote(k) + Ascii(":") + s) + Ascii(",") + (Quote(l) + Ascii(":") + t)) + Ascii("}")
  {
    Signs();
    JoinTwo(s, t);
    TwoEntries(k, s, l, t);
    JoinTwo(Quote(k) + [COLON] + s, Quote(l) + [COLON] + t);
  }

  // ---- The text survives UTF-8 ----

  lemma {:induction false} JoinWellFormed(parts: seq<Text>)
    requires forall i :: 0 <= i < |parts| ==> WellFormedText(parts[i])
    ensures WellFormedText(Join(parts))
  {
    if |parts| > 1 {
      JoinWellFormed(parts[1..]);
      PlainWellFormed([COMMA]);
      ConcatWellFormed(parts[0], [COMMA]);
      ConcatWellFormed(parts[0] + [COMMA], Join(parts[1..]));
    }
  }

  lemma Enclosed(open: Unit, t: Text, close: Unit)
    requires WellFormedText(t) && open < 0xD800 && close < 0xD800
    ensures WellFormedText([open] + t + [close])
  {
    PlainWellFormed([open]);
    PlainWellFormed([close]);
    ConcatWellFormed([open], t);
    ConcatWellFormed([open] + t, [close]);
  }

  lemma QuoteWellFormed(u: Text)
    ensures WellFormedText(Quote(u))
  {
    EscapeWellFormed(u);
    Enclosed(QUOTE, Escape(u), QUOTE);
  }

  lemma {:induction false} EntryTextsWellFormed(entries: seq<(Text, Text)>)
    requires forall i :: 0 <= i < |entries| ==> WellFormedText(entries[i].1)
    ensures forall i :: 0 <= i < |entries| ==> WellFormedText(EntryTexts(entries)[i])
  {
    if entries != [] {
      EntryTextsWellFormed(entries[1..]);
      QuoteWellFormed(entries[0].0);
      PlainWellFormed([COLON]);
      ConcatWellFormed(Quote(entries[0].0), [COLON]);
      ConcatWellFormed(Quote(entries[0].0) + [COLON], entries[0].1);
    }
  }

  lemma LeafWellFormed(v: Json)
    requires v.Num? ==> v.n.Valid()
    ensures WellFormedText(LeafText(v))
  {
    match v
    case Num(n) =>
      NumberTextUnits(n);
      PlainWellFormed(NumberText(n));
    case Str(u) => QuoteWellFormed(u);
    case _ => PlainWellFormed(LeafText(v));
  }

  lemma {:induction false} RawWellFormed(v: Json)
    requires Normal(v)
    ensures WellFormedText(Raw(v))
    decreases v, 0
  {
    match v
    case Arr(items) =>
      RawItemsWellFormed(items);
      JoinWellFormed(RawItems(items));
      Enclosed(LBRACKET, Join(RawItems(items)), RBRACKET);
    case Obj(members) =>
      RawMembersWellFormed(members);
      EntryTextsWellFormed(RawMembers(members));
      JoinWellFormed(EntryTexts(RawMembers(members)));
      Enclosed(LBRACE, Join(EntryTexts(RawMembers(members))), RBRACE);
    case _ => LeafWellFormed(v);
  }

  lemma {:induction false} RawItemsWellFormed(items: seq<Json>)
    requires forall i :: 0 <= i < |items| ==> Normal(items[i])
    ensures forall i :: 0 <= i < |items| ==> WellFormedText(RawItems(items)[i])
    decreases items, 1
  {
    if items != [] {
      RawWellFormed(items[0]);
      RawItemsWellFormed(items[1..]);
    }
  }

  lemma {:induction false} RawMembersWellFormed(members: seq<(Text, Json)>)
    requires forall i :: 0 <= i < |members| ==> Normal(members[i].1)
    ensures forall i :: 0 <= i < |members| ==> WellFormedText(RawMembers(members)[i].1)
    decreases members, 1
  {
    if members != [] {
      assert members[0].1 < members[0];
      RawWellFormed(members[0].1);
      RawMembersWellFormed(members[1..]);
    }
  }

  /** Whatever units the strings of a value hold, its canonical text can be signed as UTF-8 without loss. */
  lemma TextIsWellFormed(v: Json)
    requires Valid(v)
    ensures WellFormedText(Print(v))
  {
    PrintIsRawOfCanon(v);
    RawWellFormed(Canon(v));
  }
}
