/**
 * The four canonicalizers of the repository on JavaScript value trees: facilitator, bazaar, SDK and
 * playground. Each is written as its own source writes it; a thrown TypeError is a result.
 */
module Serializers {
  import opened Options
  import opened Utf16
  import opened EcmaNumber
  import opened JsonString
  import J = CanonicalJson

  datatype Js =
    | Undefined
    | Function
    | Symbol
    | BigInt
    | NonFinite
    | Null
    | Bool(b: bool)
    | Num(n: Number)
    | Str(s: Text)
    | Arr(items: seq<Js>)
    | Obj(members: seq<(Text, Js)>)
  {
    /** Values JSON.stringify has no text for. */
    predicate Opaque() { Undefined? || Function? || Symbol? }
  }

  datatype Result<+T> = Ok(value: T) | TypeError

  ghost predicate Valid(v: Js) {
    match v
    case Num(n) => n.Valid()
    case Arr(items) => forall i :: 0 <= i < |items| ==> Valid(items[i])
    case Obj(members) => DistinctKeys(members) && forall i :: 0 <= i < |members| ==> Valid(members[i].1)
    case _ => true
  }

  /** JSON.stringify on a primitive that has a text. */
  function Stringify(v: Js): Text
    requires Valid(v)
  {
    match v
    case Bool(b) => if b then J.TRUE_TEXT else J.FALSE_TEXT
    case Num(n) => NumberText(n)
    case Str(s) => Quote(s)
    case _ => J.NULL_TEXT
  }

  function Cons<T>(head: Result<T>, tail: Result<seq<T>>): (r: Result<seq<T>>) {
    match (head, tail)
    case (Ok(x), Ok(xs)) => Ok([x] + xs)
    case _ => TypeError
  }

  function Entry(key: Text, text: Result<Text>): Result<(Text, Text)> {
    match text
    case Ok(t) => Ok((key, t))
    case TypeError => TypeError
  }

  function Bracket(parts: Result<seq<Text>>): Result<Text> {
    match parts
    case Ok(ts) => Ok(J.ArrayText(ts))
    case TypeError => TypeError
  }

  /** The text of an object from its entries, put in key order. */
  function Brace(entries: Result<seq<(Text, Text)>>): Result<Text> {
    match entries
    case Ok(es) => Ok(J.ObjectText(SortByKey(es)))
    case TypeError => TypeError
  }

  // ---- facilitator-service/src/canonical-json.ts ----

  function Facilitator(v: Js): Result<Text>
    requires Valid(v)
  {
    match v
    case NonFinite => TypeError
    case BigInt => TypeError
    case Arr(items) => Bracket(FacilitatorItems(items))
    case Obj(members) => Brace(FacilitatorMembers(members))
    case _ => Ok(Stringify(v))
  }

  function FacilitatorItems(items: seq<Js>): Result<seq<Text>>
    requires forall i :: 0 <= i < |items| ==> Valid(items[i])
  {
    if items == [] then Ok([])
    else Cons(if items[0].Opaque() then Ok(J.NULL_TEXT) else Facilitator(items[0]), FacilitatorItems(items[1..]))
  }

  function FacilitatorMembers(members: seq<(Text, Js)>): Result<seq<(Text, Text)>>
    requires forall i :: 0 <= i < |members| ==> Valid(members[i].1)
  {
    if members == [] then Ok([])
    else
      assert members[0].1 < members[0];
      if members[0].1.Opaque() then FacilitatorMembers(members[1..])
      else Cons(Entry(members[0].0, Facilitator(members[0].1)), FacilitatorMembers(members[1..]))
  }

  // ---- bazaar-service/src/p2p/canonical.ts ----

  function Bazaar(v: Js): Result<Text>
    requires Valid(v)
  {
    match v
    case NonFinite => TypeError
    case BigInt => TypeError
    case Arr(items) => Bracket(BazaarItems(items))
    case Obj(members) => Brace(BazaarMembers(members))
    case _ => Ok(if v.Opaque() then [] else Stringify(v))
  }

  function BazaarItems(items: seq<Js>): Result<seq<Text>>
    requires forall i :: 0 <= i < |items| ==> Valid(items[i])
  {
    if items == [] then Ok([])
    else
      var text := Bazaar(items[0]);
      Cons(if text == Ok([]) then Ok(J.NULL_TEXT) else text, BazaarItems(items[1..]))
  }

  function BazaarMembers(members: seq<(Text, Js)>): Result<seq<(Text, Text)>>
    requires forall i :: 0 <= i < |members| ==> Valid(members[i].1)
  {
    if members == [] then Ok([])
    else
      assert members[0].1 < members[0];
      if members[0].1.Opaque() then BazaarMembers(members[1..])
      else
        var text := Bazaar(members[0].1);
        if text == Ok([]) then BazaarMembers(members[1..])
        else Cons(Entry(members[0].0, text), BazaarMembers(members[1..]))
  }

  // ---- sdk-typescript/src/provider-outcome.ts ----

  function Sdk(v: Js): Result<Text>
    requires Valid(v)
  {
    match v
    case NonFinite => TypeError
    case Arr(items) => Bracket(SdkItems(items))
    case Obj(members) => Brace(SdkMembers(members))
    case _ => if v.Opaque() || v.BigInt? then TypeError else Ok(Stringify(v))
  }

  function SdkItems(items: seq<Js>): Result<seq<Text>>
    requires forall i :: 0 <= i < |items| ==> Valid(items[i])
  {
    if items == [] then Ok([])
    else Cons(if items[0].Opaque() then Ok(J.NULL_TEXT) else Sdk(items[0]), SdkItems(items[1..]))
  }

  function SdkMembers(members: seq<(Text, Js)>): Result<seq<(Text, Text)>>
    requires forall i :: 0 <= i < |members| ==> Valid(members[i].1)
  {
    if members == [] then Ok([])
    else
      assert members[0].1 < members[0];
      if members[0].1.Opaque() then SdkMembers(members[1..])
      else Cons(Entry(members[0].0, Sdk(members[0].1)), SdkMembers(members[1..]))
  }

  // ---- playground/src/lib/jcs.ts ----

  const UNDEFINED_TEXT: Text := [0x75, 0x6E, 0x64, 0x65, 0x66, 0x69, 0x6E, 0x65, 0x64]

  /** None is the value `undefined`, which JSON.stringify returns for what it has no text for. */
  function Playground(v: Js): Result<Option<Text>>
    requires Valid(v)
  {
    match v
    case BigInt => TypeError
    case Arr(items) => Wrap(Bracket(PlaygroundItems(items)))
    case Obj(members) => Wrap(Brace(PlaygroundMembers(members)))
    case _ => Ok(if v.Opaque() then None else Some(Stringify(v)))
  }

  function Wrap(r: Result<Text>): Result<Option<Text>> {
    match r
    case Ok(t) => Ok(Some(t))
    case TypeError => TypeError
  }

  /** `join` prints an undefined element as nothing, a template literal as the word undefined. */
  function Show(r: Result<Option<Text>>, missing: Text): Result<Text> {
    match r
    case Ok(Some(t)) => Ok(t)
    case Ok(None) => Ok(missing)
    case TypeError => TypeError
  }

  function PlaygroundItems(items: seq<Js>): Result<seq<Text>>
    requires forall i :: 0 <= i < |items| ==> Valid(items[i])
  {
    if items == [] then Ok([]) else Cons(Show(Playground(items[0]), []), PlaygroundItems(items[1..]))
  }

  function PlaygroundMembers(members: seq<(Text, Js)>): Result<seq<(Text, Text)>>
    requires forall i :: 0 <= i < |members| ==> Valid(members[i].1)
  {
    if members == [] then Ok([])
    else
      assert members[0].1 < members[0];
      if members[0].1.Undefined? || members[0].1.Symbol? then PlaygroundMembers(members[1..])
      else Cons(Entry(members[0].0, Show(Playground(members[0].1), UNDEFINED_TEXT)), PlaygroundMembers(members[1..]))
  }

  // ---- What the texts mean ----

  /** The JSON value a tree stands for: gaps in arrays become null, gaps in objects disappear. */
  ghost function Erase(v: Js): Option<J.Json> {
    match v
    case NonFinite => None
    case BigInt => None
    case Bool(b) => Some(J.Bool(b))
    case Num(n) => Some(J.Num(n))
    case Str(s) => Some(J.Str(s))
    case Arr(items) => (match EraseItems(items) case Some(js) => Some(J.Arr(js)) case None => None)
    case Obj(members) => (match EraseMembers(members) case Some(ms) => Some(J.Obj(ms)) case None => None)
    case _ => Some(J.Null)
  }

  ghost function EraseItems(items: seq<Js>): Option<seq<J.Json>> {
    if items == [] then Some([])
    else
      match (Erase(items[0]), EraseItems(items[1..]))
      case (Some(j), Some(js)) => Some([j] + js)
      case _ => None
  }

  ghost function EraseMembers(members: seq<(Text, Js)>): Option<seq<(Text, J.Json)>> {
    if members == [] then Some([])
    else
      assert members[0].1 < members[0];
      if members[0].1.Opaque() then EraseMembers(members[1..])
      else
        match (Erase(members[0].1), EraseMembers(members[1..]))
        case (Some(j), Some(ms)) => Some([(members[0].0, j)] + ms)
        case _ => None
  }

  /** Trees made of JSON values only. */
  ghost predicate PureJson(v: Js) {
    match v
    case Arr(items) => forall i :: 0 <= i < |items| ==> PureJson(items[i])
    case Obj(members) => forall i :: 0 <= i < |members| ==> PureJson(members[i].1)
    case _ => !v.Opaque() && !v.BigInt? && !v.NonFinite?
  }

  lemma {:induction false} EraseMembersKeys(members: seq<(Text, Js)>)
    requires DistinctKeys(members) && EraseMembers(members).Some?
    ensures var ms := EraseMembers(members).value;
            && DistinctKeys(ms)
            && forall i :: 0 <= i < |ms| ==> exists j :: 0 <= j < |members| && members[j].0 == ms[i].0
  {
    if members != [] {
      EraseMembersKeys(members[1..]);
      var rest := EraseMembers(members[1..]).value;
      forall i | 0 <= i < |rest|
        ensures exists j :: 0 < j < |members| && members[j].0 == rest[i].0
      {
        var j :| 0 <= j < |members[1..]| && members[1..][j].0 == rest[i].0;
        assert members[j + 1].0 == rest[i].0;
      }
    }
  }

  /** The facilitator prints exactly the JSON value the tree stands for, and throws exactly when there is none. */
  lemma {:induction false} FacilitatorPrintsErased(v: Js)
    requires Valid(v)
    ensures Erase(v).None? ==> Facilitator(v) == TypeError
    ensures Erase(v).Some? ==> J.Valid(Erase(v).value) && Facilitator(v) == Ok(J.Print(Erase(v).value))
    decreases v, 0
  {
    match v
    case Arr(items) => ItemsPrintErased(items);
    case Obj(members) =>
      MembersPrintErased(members);
      if EraseMembers(members).Some? { EraseMembersKeys(members); }
    case _ =>
  }

  lemma {:induction false} ItemsPrintErased(items: seq<Js>)
    requires forall i :: 0 <= i < |items| ==> Valid(items[i])
    ensures EraseItems(items).None? ==> FacilitatorItems(items) == TypeError
    ensures EraseItems(items).Some? ==>
              && (forall i :: 0 <= i < |EraseItems(items).value| ==> J.Valid(EraseItems(items).value[i]))
              && FacilitatorItems(items) == Ok(J.PrintItems(EraseItems(items).value))
    decreases items, 1
  {
    if items != [] {
      FacilitatorPrintsErased(items[0]);
      ItemsPrintErased(items[1..]);
    }
  }

  lemma {:induction false} MembersPrintErased(members: seq<(Text, Js)>)
    requires forall i :: 0 <= i < |members| ==> Valid(members[i].1)
    ensures EraseMembers(members).None? ==> FacilitatorMembers(members) == TypeError
    ensures EraseMembers(members).Some? ==>
              && (forall i :: 0 <= i < |EraseMembers(members).value| ==> J.Valid(EraseMembers(members).value[i].1))
              && FacilitatorMembers(members) == Ok(J.PrintMembers(EraseMembers(members).value))
    decreases members, 1
  {
    if members != [] {
      assert members[0].1 < members[0];
      FacilitatorPrintsErased(members[0].1);
      MembersPrintErased(members[1..]);
    }
  }

  // ---- The copies agree ----

  lemma StringifyNonempty(v: Js)
    requires Valid(v)
    ensures Stringify(v) != []
  {
    if v.Num? { NumberTextUnits(v.n); }
  }

  lemma {:induction false} BazaarAgrees(v: Js)
    requires Valid(v) && !v.Opaque()
    ensures Bazaar(v) == Facilitator(v) && Bazaar(v) != Ok([])
    decreases v, 0
  {
    match v
    case Arr(items) => BazaarItemsAgree(items);
    case Obj(members) => BazaarMembersAgree(members);
    case _ => StringifyNonempty(v);
  }

  lemma {:induction false} BazaarItemsAgree(items: seq<Js>)
    requires forall i :: 0 <= i < |items| ==> Valid(items[i])
    ensures BazaarItems(items) == FacilitatorItems(items)
    decreases items, 1
  {
    if items != [] {
      if !items[0].Opaque() { BazaarAgrees(items[0]); }
      BazaarItemsAgree(items[1..]);
    }
  }

  lemma {:induction false} BazaarMembersAgree(members: seq<(Text, Js)>)
    requires forall i :: 0 <= i < |members| ==> Valid(members[i].1)
    ensures BazaarMembers(members) == FacilitatorMembers(members)
    decreases members, 1
  {
    if members != [] {
      assert members[0].1 < members[0];
      if !members[0].1.Opaque() { BazaarAgrees(members[0].1); }
      BazaarMembersAgree(members[1..]);
    }
  }

  lemma {:induction false} SdkAgrees(v: Js)
    requires Valid(v) && !v.Opaque()
    ensures Sdk(v) == Facilitator(v)
    decreases v, 0
  {
    match v
    case Arr(items) => SdkItemsAgree(items);
    case Obj(members) => SdkMembersAgree(members);
    case _ =>
  }

  lemma {:induction false} SdkItemsAgree(items: seq<Js>)
    requires forall i :: 0 <= i < |items| ==> Valid(items[i])
    ensures SdkItems(items) == FacilitatorItems(items)
    decreases items, 1
  {
    if items != [] {
      if !items[0].Opaque() { SdkAgrees(items[0]); }
      SdkItemsAgree(items[1..]);
    }
  }

  lemma {:induction false} SdkMembersAgree(members: seq<(Text, Js)>)
    requires forall i :: 0 <= i < |members| ==> Valid(members[i].1)
    ensures SdkMembers(members) == FacilitatorMembers(members)
    decreases members, 1
  {
    if members != [] {
      assert members[0].1 < members[0];
      if !members[0].1.Opaque() { SdkAgrees(members[0].1); }
      SdkMembersAgree(members[1..]);
    }
  }

  lemma {:induction false} PureJsonErases(v: Js)
    requires PureJson(v)
    ensures Erase(v).Some?
    decreases v, 0
  {
    match v
    case Arr(items) => PureItemsErase(items);
    case Obj(members) => PureMembersErase(members);
    case _ =>
  }

  lemma {:induction false} PureItemsErase(items: seq<Js>)
    requires forall i :: 0 <= i < |items| ==> PureJson(items[i])
    ensures EraseItems(items).Some?
    decreases items, 1
  {
    if items != [] {
      PureJsonErases(items[0]);
      PureItemsErase(items[1..]);
    }
  }

  lemma {:induction false} PureMembersErase(members: seq<(Text, Js)>)
    requires forall i :: 0 <= i < |members| ==> PureJson(members[i].1)
    ensures EraseMembers(members).Some?
    decreases members, 1
  {
    if members != [] {
      assert members[0].1 < members[0];
      PureJsonErases(members[0].1);
      PureMembersErase(members[1..]);
    }
  }

  /**
   * With undefined, functions, symbols, BigInts or non-finite numbers anywhere inside, the three
   * service-side copies agree, text or exception, exactly when the top-level value has a text at all.
   */
  lemma ServiceCopiesAgree(v: Js)
    requires Valid(v)
    ensures Facilitator(v) == Bazaar(v) == Sdk(v) <==> !v.Opaque()
  {
    if !v.Opaque() {
      BazaarAgrees(v);
      SdkAgrees(v);
    }
  }
}
