/**
 * RFC 8785 canonical JSON: the printer every signature of the system is made over, a reader for its
 * output, and the theorem that the text determines the value.
 */
module CanonicalJson {
  import opened Options
  import opened Utf16
  import opened EcmaNumber
  import opened JsonString

  const COMMA: Unit := 0x2C
  const COLON: Unit := 0x3A
  const LBRACKET: Unit := 0x5B
  const RBRACKET: Unit := 0x5D
  const LBRACE: Unit := 0x7B
  const RBRACE: Unit := 0x7D
  const NULL_TEXT: Text := [0x6E, 0x75, 0x6C, 0x6C]
  const TRUE_TEXT: Text := [0x74, 0x72, 0x75, 0x65]
  const FALSE_TEXT: Text := [0x66, 0x61, 0x6C, 0x73, 0x65]

  /** A JSON value; an object lists its members in insertion order. */
  datatype Json =
    | Null
    | Bool(b: bool)
    | Num(n: Number)
    | Str(s: Text)
    | Arr(items: seq<Json>)
    | Obj(members: seq<(Text, Json)>)

  /** Object keys are distinct and numbers are well formed, at every level. */
  ghost predicate Valid(v: Json) {
    match v
    case Num(n) => n.Valid()
    case Arr(items) => forall i :: 0 <= i < |items| ==> Valid(items[i])
    case Obj(members) => DistinctKeys(members) && forall i :: 0 <= i < |members| ==> Valid(members[i].1)
    case _ => true
  }

  // ---- Printing ----

  function Join(parts: seq<Text>): Text {
    if parts == [] then []
    else if |parts| == 1 then parts[0]
    else parts[0] + [COMMA] + Join(parts[1..])
  }

  function EntryTexts(entries: seq<(Text, Text)>): (r: seq<Text>)
    ensures |r| == |entries|
  {
    if entries == [] then [] else [Quote(entries[0].0) + [COLON] + entries[0].1] + EntryTexts(entries[1..])
  }

  function ArrayText(parts: seq<Text>): Text { [LBRACKET] + Join(parts) + [RBRACKET] }

  function ObjectText(entries: seq<(Text, Text)>): Text { [LBRACE] + Join(EntryTexts(entries)) + [RBRACE] }

  function LeafText(v: Json): Text
    requires v.Num? && v.n.Finite? ==> v.n.digits != []
  {
    match v
    case Bool(b) => if b then TRUE_TEXT else FALSE_TEXT
    case Num(n) => NumberText(n)
    case Str(s) => Quote(s)
    case _ => NULL_TEXT
  }

  /** The canonical text: members sorted by key, no whitespace. */
  function Print(v: Json): Text
    requires Valid(v)
  {
    match v
    case Arr(items) => ArrayText(PrintItems(items))
    case Obj(members) => ObjectText(SortByKey(PrintMembers(members)))
    case _ => LeafText(v)
  }

  function PrintItems(items: seq<Json>): (r: seq<Text>)
    requires forall i :: 0 <= i < |items| ==> Valid(items[i])
    ensures |r| == |items|
  {
    if items == [] then [] else [Print(items[0])] + PrintItems(items[1..])
  }

  function PrintMembers(members: seq<(Text, Json)>): (r: seq<(Text, Text)>)
    requires forall i :: 0 <= i < |members| ==> Valid(members[i].1)
    ensures |r| == |members|
    ensures forall i :: 0 <= i < |r| ==> r[i].0 == members[i].0
  {
    if members == [] then []
    else assert members[0].1 < members[0]; [(members[0].0, Print(members[0].1))] + PrintMembers(members[1..])
  }

  // ---- Reading ----

  function Literal(s: Text, word: Text, v: Json): (r: Option<(Json, Text)>)
    requires word != []
    ensures r.Some? ==> |r.value.1| < |s|
  {
    if word <= s then Some((v, s[|word|..])) else None
  }

  /** Length of the longest prefix made of number characters. */
  function NumberRun(s: Text): (k: nat)
    ensures k <= |s|
  {
    if s == [] || !IsNumberUnit(s[0]) then 0 else 1 + NumberRun(s[1..])
  }

  /** Reads the longest run of number characters. */
  function ReadNumberToken(s: Text): (r: Option<(Json, Text)>)
    ensures r.Some? ==> |r.value.1| < |s|
  {
    var k := NumberRun(s);
    match ReadNumber(s[..k])
    case None => None
    case Some(n) => if k == 0 then None else Some((Num(n), s[k..]))
  }

  function ReadQuotedValue(s: Text): (r: Option<(Json, Text)>)
    ensures r.Some? ==> |r.value.1| < |s|
  {
    match ReadString(s)
    case None => None
    case Some((u, rest)) => Some((Str(u), rest))
  }

  /** A word is recognised by its first letter, everything else is taken for a number. */
  function ReadLeaf(s: Text): (r: Option<(Json, Text)>)
    requires s != []
    ensures r.Some? ==> |r.value.1| < |s|
  {
    if s[0] == QUOTE then ReadQuotedValue(s[1..])
    else if s[0] == 0x6E then Literal(s, NULL_TEXT, Null)
    else if s[0] == 0x74 then Literal(s, TRUE_TEXT, Bool(true))
    else if s[0] == 0x66 then Literal(s, FALSE_TEXT, Bool(false))
    else ReadNumberToken(s)
  }

  function ReadValue(s: Text): (r: Option<(Json, Text)>)
    ensures r.Some? ==> |r.value.1| < |s|
    decreases |s|, 0
  {
    if s == [] then None
    else if s[0] == LBRACKET then
      if |s| >= 2 && s[1] == RBRACKET then Some((Arr([]), s[2..]))
      else
        match ReadItems(s[1..])
        case None => None
        case Some((items, rest)) => Some((Arr(items), rest))
    else if s[0] == LBRACE then
      if |s| >= 2 && s[1] == RBRACE then Some((Obj([]), s[2..]))
      else
        match ReadMembers(s[1..])
        case None => None
        case Some((members, rest)) => Some((Obj(members), rest))
    else ReadLeaf(s)
  }

  /** Reads `value (, value)* ]`. */
  function ReadItems(s: Text): (r: Option<(seq<Json>, Text)>)
    ensures r.Some? ==> |r.value.1| < |s|
    decreases |s|, 1
  {
    match ReadValue(s)
    case None => None
    case Some((v, rest)) =>
      if rest != [] && rest[0] == RBRACKET then Some(([v], rest[1..]))
      else if rest != [] && rest[0] == COMMA then
        match ReadItems(rest[1..])
        case None => None
        case Some((vs, rest')) => Some(([v] + vs, rest'))
      else None
  }

  /** Reads `"key":value (, "key":value)* }`. */
  function ReadMembers(s: Text): (r: Option<(seq<(Text, Json)>, Text)>)
    ensures r.Some? ==> |r.value.1| < |s|
    decreases |s|, 1
  {
    if s == [] || s[0] != QUOTE then None
    else
      match ReadString(s[1..])
      case None => None
      case Some((key, afterKey)) =>
        if afterKey == [] || afterKey[0] != COLON then None
        else
          match ReadValue(afterKey[1..])
          case None => None
          case Some((v, rest)) =>
            if rest != [] && rest[0] == RBRACE then Some(([(key, v)], rest[1..]))
            else if rest != [] && rest[0] == COMMA then
              match ReadMembers(rest[1..])
              case None => None
              case Some((ms, rest')) => Some(([(key, v)] + ms, rest'))
            else None
  }

  // ---- The canonical value: members sorted, -0 replaced by 0 ----

  ghost function Canon(v: Json): Json {
    match v
    case Num(n) => Num(n.Canonical())
    case Arr(items) => Arr(CanonItems(items))
    case Obj(members) => Obj(SortByKey(CanonMembers(members)))
    case _ => v
  }

  ghost function CanonItems(items: seq<Json>): (r: seq<Json>)
    ensures |r| == |items| && forall i :: 0 <= i < |r| ==> r[i] == Canon(items[i])
  {
    if items == [] then [] else [Canon(items[0])] + CanonItems(items[1..])
  }

  ghost function CanonMembers(members: seq<(Text, Json)>): (r: seq<(Text, Json)>)
    ensures |r| == |members|
  {
    if members == [] then []
    else assert members[0].1 < members[0]; [(members[0].0, Canon(members[0].1))] + CanonMembers(members[1..])
  }

  /** Printing in the order the members are listed in, without sorting. */
  ghost function Raw(v: Json): Text
    requires Normal(v)
  {
    match v
    case Arr(items) => ArrayText(RawItems(items))
    case Obj(members) => ObjectText(RawMembers(members))
    case _ => LeafText(v)
  }

  /** Well-formed numbers, -0 replaced by 0. */
  ghost predicate Normal(v: Json) {
    match v
    case Num(n) => n.Valid() && n == n.Canonical()
    case Arr(items) => forall i :: 0 <= i < |items| ==> Normal(items[i])
    case Obj(members) => forall i :: 0 <= i < |members| ==> Normal(members[i].1)
    case _ => true
  }

  ghost function RawItems(items: seq<Json>): (r: seq<Text>)
    requires forall i :: 0 <= i < |items| ==> Normal(items[i])
    ensures |r| == |items|
  {
    if items == [] then [] else [Raw(items[0])] + RawItems(items[1..])
  }

  ghost function RawMembers(members: seq<(Text, Json)>): (r: seq<(Text, Text)>)
    requires forall i :: 0 <= i < |members| ==> Normal(members[i].1)
    ensures |r| == |members|
  {
    if members == [] then []
    else assert members[0].1 < members[0]; [(members[0].0, Raw(members[0].1))] + RawMembers(members[1..])
  }

  // ---- Reading undoes unsorted printing ----

  ghost predicate Stops(rest: Text) { rest != [] ==> !IsNumberUnit(rest[0]) }

  lemma {:induction false} NumberRunSplit(t: Text, rest: Text)
    requires forall i :: 0 <= i < |t| ==> IsNumberUnit(t[i])
    requires Stops(rest)
    ensures NumberRun(t + rest) == |t|
  {
    if t == [] {
      assert t + rest == rest;
    } else {
      NumberRunSplit(t[1..], rest);
      assert (t + rest)[1..] == t[1..] + rest;
    }
  }

  lemma ReadNumberValue(n: Number, rest: Text)
    requires n.Valid() && n == n.Canonical() && Stops(rest)
    ensures ReadNumberToken(NumberText(n) + rest) == Some((Num(n), rest))
  {
    var t := NumberText(n);
    NumberTextUnits(n);
    NumberRunSplit(t, rest);
    NumberRoundTrip(n);
    assert (t + rest)[..|t|] == t && (t + rest)[|t|..] == rest;
  }

  lemma ReadQuoted(u: Text, rest: Text)
    ensures ReadString((Quote(u) + rest)[1..]) == Some((u, rest))
  {
    StringRoundTrip(u, rest);
    assert (Quote(u) + rest)[1..] == Escape(u) + ([QUOTE] + rest);
  }

  lemma ReadWord(word: Text, v: Json, rest: Text)
    requires (word, v) in [(NULL_TEXT, Null), (TRUE_TEXT, Bool(true)), (FALSE_TEXT, Bool(false))]
    ensures ReadValue(word + rest) == Some((v, rest))
  {
    assert (word + rest)[|word|..] == rest;
    assert word <= word + rest;
    assert (word + rest)[0] == word[0];
    assert ReadLeaf(word + rest) == Literal(word + rest, word, v);
  }

  lemma LeafDispatch(s: Text)
    requires s != [] && s[0] != LBRACKET && s[0] != LBRACE
    ensures ReadValue(s) == ReadLeaf(s)
  {
  }

  lemma NumberLeaf(s: Text)
    requires s != [] && s[0] < 0x3A && s[0] != QUOTE
    ensures ReadLeaf(s) == ReadNumberToken(s)
  {
  }

  lemma NumberDispatch(s: Text)
    requires s != [] && (s[0] == MINUS || IsDigit(s[0]))
    ensures ReadValue(s) == ReadNumberToken(s)
  {
    LeafDispatch(s);
    NumberLeaf(s);
  }

  lemma ReadNumText(n: Number, rest: Text)
    requires n.Valid() && n == n.Canonical() && Stops(rest)
    ensures ReadValue(NumberText(n) + rest) == Some((Num(n), rest))
  {
    var t := NumberText(n);
    ReadNumberValue(n, rest);
    NumberTextUnits(n);
    assert (t + rest)[0] == t[0];
    NumberDispatch(t + rest);
  }

  lemma ReadStrText(u: Text, rest: Text)
    ensures ReadValue(Quote(u) + rest) == Some((Str(u), rest))
  {
    ReadQuoted(u, rest);
    assert (Quote(u) + rest)[0] == QUOTE;
  }

  /** No value's text is empty or starts with a closing bracket. */
  lemma RawStart(v: Json)
    requires Normal(v)
    ensures Raw(v) != [] && Raw(v)[0] != RBRACKET
  {
    if v.Num? { NumberTextUnits(v.n); }
  }

  lemma JoinStep(parts: seq<Text>, close: Text)
    requires |parts| > 1
    ensures Join(parts) + close == parts[0] + ([COMMA] + (Join(parts[1..]) + close))
  {
  }

  lemma ReadLastItem(v: Json, t: Text, rest: Text)
    requires ReadValue(t + ([RBRACKET] + rest)) == Some((v, [RBRACKET] + rest))
    ensures ReadItems(t + ([RBRACKET] + rest)) == Some(([v], rest))
  {
    assert ([RBRACKET] + rest)[1..] == rest;
  }

  lemma ReadNextItem(v: Json, t: Text, more: Text, vs: seq<Json>, rest: Text)
    requires ReadValue(t + ([COMMA] + more)) == Some((v, [COMMA] + more))
    requires ReadItems(more) == Some((vs, rest))
    ensures ReadItems(t + ([COMMA] + more)) == Some(([v] + vs, rest))
  {
    assert ([COMMA] + more)[1..] == more;
  }

  lemma RawItemsStep(items: seq<Json>)
    requires items != [] && forall i :: 0 <= i < |items| ==> Normal(items[i])
    ensures RawItems(items)[0] == Raw(items[0])
    ensures RawItems(items)[1..] == RawItems(items[1..])
  {
  }

  lemma {:induction false} ReadRawItems(items: seq<Json>, rest: Text)
    requires items != [] && forall i :: 0 <= i < |items| ==> Normal(items[i])
    ensures ReadItems(Join(RawItems(items)) + ([RBRACKET] + rest)) == Some((items, rest))
    decreases items, 1
  {
    var close := [RBRACKET] + rest;
    var parts := RawItems(items);
    RawItemsStep(items);
    if |items| == 1 {
      ReadRaw(items[0], close);
      ReadLastItem(items[0], parts[0], rest);
      assert items == [items[0]];
    } else {
      JoinStep(parts, close);
      var more := Join(parts[1..]) + close;
      ReadRaw(items[0], [COMMA] + more);
      ReadRawItems(items[1..], rest);
      ReadNextItem(items[0], parts[0], more, items[1..], rest);
      assert items == [items[0]] + items[1..];
    }
  }

  lemma ReadLastMember(key: Text, v: Json, t: Text, rest: Text)
    requires ReadValue(t + ([RBRACE] + rest)) == Some((v, [RBRACE] + rest))
    ensures ReadMembers(Quote(key) + [COLON] + t + ([RBRACE] + rest)) == Some(([(key, v)], rest))
  {
    var s := t + ([RBRACE] + rest);
    EntrySplit(key, t, [RBRACE] + rest);
    ReadQuoted(key, [COLON] + s);
    assert ([COLON] + s)[1..] == s && ([RBRACE] + rest)[1..] == rest;
  }

  lemma ReadNextMember(key: Text, v: Json, t: Text, more: Text, ms: seq<(Text, Json)>, rest: Text)
    requires ReadValue(t + ([COMMA] + more)) == Some((v, [COMMA] + more))
    requires ReadMembers(more) == Some((ms, rest))
    ensures ReadMembers(Quote(key) + [COLON] + t + ([COMMA] + more)) == Some(([(key, v)] + ms, rest))
  {
    var s := t + ([COMMA] + more);
    EntrySplit(key, t, [COMMA] + more);
    ReadQuoted(key, [COLON] + s);
    assert ([COLON] + s)[1..] == s && ([COMMA] + more)[1..] == more;
  }

  lemma RawMembersStep(members: seq<(Text, Json)>)
    requires members != [] && forall i :: 0 <= i < |members| ==> Normal(members[i].1)
    ensures var parts := EntryTexts(RawMembers(members));
            && parts[0] == Quote(members[0].0) + [COLON] + Raw(members[0].1)
            && parts[1..] == EntryTexts(RawMembers(members[1..]))
  {
    var entries := RawMembers(members);
    assert members[0].1 < members[0];
    assert entries[0] == (members[0].0, Raw(members[0].1)) && entries[1..] == RawMembers(members[1..]);
    EntryTextsStep(entries);
  }

  lemma EntryTextsStep(entries: seq<(Text, Text)>)
    requires entries != []
    ensures EntryTexts(entries)[0] == Quote(entries[0].0) + [COLON] + entries[0].1
    ensures EntryTexts(entries)[1..] == EntryTexts(entries[1..])
  {
  }

  /** The text of members, up to and with the closing brace. */
  ghost function MembersTail(members: seq<(Text, Json)>, rest: Text): Text
    requires forall i :: 0 <= i < |members| ==> Normal(members[i].1)
  {
    Join(EntryTexts(RawMembers(members))) + ([RBRACE] + rest)
  }

  lemma OneMember(members: seq<(Text, Json)>, rest: Text)
    requires |members| == 1 && Normal(members[0].1)
    requires ReadValue(Raw(members[0].1) + ([RBRACE] + rest)) == Some((members[0].1, [RBRACE] + rest))
    ensures ReadMembers(MembersTail(members, rest)) == Some((members, rest))
  {
    var key, v := members[0].0, members[0].1;
    RawMembersStep(members);
    ReadLastMember(key, v, Raw(v), rest);
    assert members == [(key, v)];
  }

  lemma MoreMembers(members: seq<(Text, Json)>, rest: Text)
    requires |members| > 1 && forall i :: 0 <= i < |members| ==> Normal(members[i].1)
    requires var more := MembersTail(members[1..], rest);
             && ReadValue(Raw(members[0].1) + ([COMMA] + more)) == Some((members[0].1, [COMMA] + more))
             && ReadMembers(more) == Some((members[1..], rest))
    ensures ReadMembers(MembersTail(members, rest)) == Some((members, rest))
  {
    var key, v := members[0].0, members[0].1;
    RawMembersStep(members);
    JoinStep(EntryTexts(RawMembers(members)), [RBRACE] + rest);
    ReadNextMember(key, v, Raw(v), MembersTail(members[1..], rest), members[1..], rest);
    assert members == [(key, v)] + members[1..];
  }

  lemma {:induction false} ReadRawMembers(members: seq<(Text, Json)>, rest: Text)
    requires members != [] && forall i :: 0 <= i < |members| ==> Normal(members[i].1)
    ensures ReadMembers(MembersTail(members, rest)) == Some((members, rest))
    decreases members, 1
  {
    assert members[0].1 < members[0];
    if |members| == 1 {
      ReadRaw(members[0].1, [RBRACE] + rest);
      OneMember(members, rest);
    } else {
      ReadRaw(members[0].1, [COMMA] + MembersTail(members[1..], rest));
      ReadRawMembers(members[1..], rest);
      MoreMembers(members, rest);
    }
  }

  lemma EntrySplit(key: Text, t: Text, rest: Text)
    ensures Quote(key) + [COLON] + t + rest == Quote(key) + ([COLON] + (t + rest))
  {
  }

  lemma ReadArray(s: Text, items: seq<Json>, rest: Text)
    requires s != [] && s[0] != RBRACKET && ReadItems(s) == Some((items, rest))
    ensures ReadValue([LBRACKET] + s) == Some((Arr(items), rest))
  {
    assert ([LBRACKET] + s)[1..] == s;
  }

  lemma ReadObject(s: Text, members: seq<(Text, Json)>, rest: Text)
    requires s != [] && s[0] != RBRACE && ReadMembers(s) == Some((members, rest))
    ensures ReadValue([LBRACE] + s) == Some((Obj(members), rest))
  {
    assert ([LBRACE] + s)[1..] == s;
  }

  lemma JoinStart(parts: seq<Text>)
    requires parts != [] && parts[0] != []
    ensures Join(parts) != [] && Join(parts)[0] == parts[0][0]
  {
  }

  lemma ReadEmpty(rest: Text)
    ensures ReadValue(ArrayText([]) + rest) == Some((Arr([]), rest))
    ensures ReadValue(ObjectText([]) + rest) == Some((Obj([]), rest))
  {
    assert (ArrayText([]) + rest)[2..] == rest;
    assert (ObjectText([]) + rest)[2..] == rest;
  }

  lemma BracketsSplit(parts: seq<Text>, rest: Text)
    ensures ArrayText(parts) + rest == [LBRACKET] + (Join(parts) + ([RBRACKET] + rest))
  {
  }

  lemma {:induction false} ReadRawArray(items: seq<Json>, rest: Text)
    requires items != [] && forall i :: 0 <= i < |items| ==> Normal(items[i])
    ensures ReadValue(ArrayText(RawItems(items)) + rest) == Some((Arr(items), rest))
    decreases items, 2
  {
    var parts := RawItems(items);
    ReadRawItems(items, rest);
    RawStart(items[0]);
    RawItemsStep(items);
    JoinStart(parts);
    ReadArray(Join(parts) + ([RBRACKET] + rest), items, rest);
    BracketsSplit(parts, rest);
  }

  lemma BracesSplit(parts: seq<Text>, rest: Text)
    ensures [LBRACE] + Join(parts) + [RBRACE] + rest == [LBRACE] + (Join(parts) + ([RBRACE] + rest))
  {
  }

  lemma {:induction false} ReadRawObject(members: seq<(Text, Json)>, rest: Text)
    requires members != [] && forall i :: 0 <= i < |members| ==> Normal(members[i].1)
    ensures ReadValue(ObjectText(RawMembers(members)) + rest) == Some((Obj(members), rest))
    decreases members, 2
  {
    var parts := EntryTexts(RawMembers(members));
    var s := MembersTail(members, rest);
    ReadRawMembers(members, rest);
    assert parts[0][0] == QUOTE by { RawMembersStep(members); }
    JoinStart(parts);
    ReadObject(s, members, rest);
    BracesSplit(parts, rest);
  }

  /** The reader recovers a value from its text, whatever follows that text. */
  lemma {:induction false} ReadRaw(v: Json, rest: Text)
    requires Normal(v) && Stops(rest)
    ensures ReadValue(Raw(v) + rest) == Some((v, rest))
    decreases v, 0
  {
    match v
    case Arr(items) =>
      if items == [] { ReadEmpty(rest); } else { ReadRawArray(items, rest); }
    case Obj(members) =>
      if members == [] { ReadEmpty(rest); } else { ReadRawObject(members, rest); }
    case Num(n) => ReadNumText(n, rest);
    case Str(u) => ReadStrText(u, rest);
    case Null => ReadWord(NULL_TEXT, v, rest);
    case Bool(b) => ReadWord(if b then TRUE_TEXT else FALSE_TEXT, v, rest);
  }
}
