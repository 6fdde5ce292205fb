/** String literals as JSON.stringify writes them (RFC 8785 section 3.2.2.2), and a reader for them. */
module JsonString {
  import opened Options
  import opened Utf16

  const QUOTE: Unit := 0x22
  const BACKSLASH: Unit := 0x5C
  const LETTER_U: Unit := 0x75

  predicate IsHighSurrogate(c: Unit) { 0xD800 <= c < 0xDC00 }
  predicate IsLowSurrogate(c: Unit) { 0xDC00 <= c < 0xE000 }

  function HexDigit(d: int): Unit
    requires 0 <= d < 16
  {
    if d < 10 then 0x30 + d else 0x57 + d
  }

  function HexValue(c: Unit): (r: Option<int>)
    ensures r.Some? ==> 0 <= r.value < 16
  {
    if 0x30 <= c <= 0x39 then Some(c - 0x30)
    else if 0x61 <= c <= 0x66 then Some(c - 0x57)
    else if 0x41 <= c <= 0x46 then Some(c - 0x37)
    else None
  }

  function HexDigits(c: Unit): (t: Text)
    ensures |t| == 4
  {
    [HexDigit(c / 0x1000), HexDigit(c / 0x100 % 16), HexDigit(c / 0x10 % 16), HexDigit(c % 16)]
  }

  function UnicodeEscape(c: Unit): Text { [BACKSLASH, LETTER_U] + HexDigits(c) }

  /** The units that have a two-character escape, with its second character. */
  function ShortEscape(c: Unit): Option<Unit> {
    match c
    case 0x22 => Some(0x22)
    case 0x5C => Some(0x5C)
    case 0x08 => Some(0x62)
    case 0x09 => Some(0x74)
    case 0x0A => Some(0x6E)
    case 0x0C => Some(0x66)
    case 0x0D => Some(0x72)
    case _ => None
  }

  function ReadShortEscape(e: Unit): Option<Unit> {
    match e
    case 0x22 => Some(0x22)
    case 0x5C => Some(0x5C)
    case 0x2F => Some(0x2F)
    case 0x62 => Some(0x08)
    case 0x74 => Some(0x09)
    case 0x6E => Some(0x0A)
    case 0x66 => Some(0x0C)
    case 0x72 => Some(0x0D)
    case _ => None
  }

  /** Whether the string starts with a surrogate pair. */
  predicate StartsWithPair(s: Text) { |s| >= 2 && IsHighSurrogate(s[0]) && IsLowSurrogate(s[1]) }

  /** One unit, outside a surrogate pair: lone surrogates and control characters become \uXXXX. */
  function EscapeUnit(c: Unit): Text {
    if ShortEscape(c).Some? then [BACKSLASH, ShortEscape(c).value]
    else if c < 0x20 || IsHighSurrogate(c) || IsLowSurrogate(c) then UnicodeEscape(c)
    else [c]
  }

  function Escape(s: Text): Text {
    if s == [] then []
    else if StartsWithPair(s) then [s[0]] + ([s[1]] + Escape(s[2..]))
    else EscapeUnit(s[0]) + Escape(s[1..])
  }

  function Quote(s: Text): Text { [QUOTE] + Escape(s) + [QUOTE] }

  function Push(c: Unit, r: Option<(Text, Text)>): Option<(Text, Text)> {
    match r
    case None => None
    case Some((units, rest)) => Some(([c] + units, rest))
  }

  /** The unit that four hexadecimal digits spell. */
  function ReadHex4(t: Text): (r: Option<Unit>)
    requires |t| == 4
  {
    match (HexValue(t[0]), HexValue(t[1]), HexValue(t[2]), HexValue(t[3]))
    case (Some(a), Some(b), Some(c), Some(d)) => Some(Hex4(a, b, c, d))
    case _ => None
  }

  function Hex4(a: int, b: int, c: int, d: int): Unit
    requires 0 <= a < 16 && 0 <= b < 16 && 0 <= c < 16 && 0 <= d < 16
  {
    a * 0x1000 + b * 0x100 + c * 0x10 + d
  }

  /** Reads up to the closing quote; returns the string and the text behind that quote. */
  function ReadString(s: Text): (r: Option<(Text, Text)>)
    ensures r.Some? ==> |r.value.1| < |s|
    decreases |s|
  {
    if s == [] then None
    else if s[0] == QUOTE then Some(([], s[1..]))
    else if s[0] < 0x20 then None
    else if s[0] != BACKSLASH then Push(s[0], ReadString(s[1..]))
    else if |s| >= 6 && s[1] == LETTER_U then
      match ReadHex4(s[2..6])
      case Some(c) => Push(c, ReadString(s[6..]))
      case None => None
    else if |s| >= 2 && ReadShortEscape(s[1]).Some? then Push(ReadShortEscape(s[1]).value, ReadString(s[2..]))
    else None
  }

  lemma HexDigitValue(d: int)
    requires 0 <= d < 16
    ensures HexValue(HexDigit(d)) == Some(d)
  {
  }

  lemma Hex4OfDigits(c: Unit)
    ensures Hex4(c / 0x1000, c / 0x100 % 16, c / 0x10 % 16, c % 16) == c
  {
    var q, q' := c / 0x10, c / 0x100;
    assert q / 16 == q' && q' / 16 == c / 0x1000;
    assert q == 16 * q' + q % 16 && q' == 16 * (c / 0x1000) + q' % 16;
  }

  lemma ReadHexDigits(c: Unit)
    ensures ReadHex4(HexDigits(c)) == Some(c)
  {
    HexDigitValue(c / 0x1000);
    HexDigitValue(c / 0x100 % 16);
    HexDigitValue(c / 0x10 % 16);
    HexDigitValue(c % 16);
    Hex4OfDigits(c);
  }

  lemma ReadUnicodeEscape(c: Unit, t: Text)
    ensures ReadString(UnicodeEscape(c) + t) == Push(c, ReadString(t))
  {
    var s := UnicodeEscape(c) + t;
    ReadHexDigits(c);
    assert s[6..] == t && s[2..6] == HexDigits(c);
    assert s[0] == BACKSLASH && s[1] == LETTER_U;
  }

  lemma ShortEscapeInverse(c: Unit)
    requires ShortEscape(c).Some?
    ensures ReadShortEscape(ShortEscape(c).value) == Some(c) && ShortEscape(c).value != LETTER_U
  {
  }

  lemma ReadShort(c: Unit, t: Text)
    requires ShortEscape(c).Some?
    ensures ReadString([BACKSLASH, ShortEscape(c).value] + t) == Push(c, ReadString(t))
  {
    var e := ShortEscape(c).value;
    var s := [BACKSLASH, e] + t;
    ShortEscapeInverse(c);
    assert s[2..] == t && s[0] == BACKSLASH && s[1] == e;
    assert ReadString(s) == Push(ReadShortEscape(e).value, ReadString(t));
  }

  lemma ReadPlain(c: Unit, t: Text)
    requires c >= 0x20 && c != QUOTE && c != BACKSLASH
    ensures ReadString([c] + t) == Push(c, ReadString(t))
  {
    assert ([c] + t)[1..] == t;
  }

  lemma ReadUnit(c: Unit, t: Text)
    ensures ReadString(EscapeUnit(c) + t) == Push(c, ReadString(t))
  {
    if ShortEscape(c).Some? {
      ReadShort(c, t);
    } else if c < 0x20 || IsHighSurrogate(c) || IsLowSurrogate(c) {
      ReadUnicodeEscape(c, t);
    } else {
      ReadPlain(c, t);
    }
  }

  lemma ReadPair(a: Unit, b: Unit, t: Text)
    requires IsHighSurrogate(a) && IsLowSurrogate(b)
    ensures ReadString([a] + ([b] + t)) == Push(a, Push(b, ReadString(t)))
  {
    ReadPlain(a, [b] + t);
    ReadPlain(b, t);
  }

  lemma Assoc(a: Text, b: Text, c: Text)
    ensures a + b + c == a + (b + c)
  {
  }

  lemma EscapeStep(u: Text, close: Text)
    requires u != []
    ensures if StartsWithPair(u) then Escape(u) + close == [u[0]] + ([u[1]] + (Escape(u[2..]) + close))
            else Escape(u) + close == EscapeUnit(u[0]) + (Escape(u[1..]) + close)
  {
    if StartsWithPair(u) {
      Assoc([u[0]], [u[1]] + Escape(u[2..]), close);
      Assoc([u[1]], Escape(u[2..]), close);
    } else {
      Assoc(EscapeUnit(u[0]), Escape(u[1..]), close);
    }
  }

  lemma ReadClose(rest: Text)
    ensures ReadString([QUOTE] + rest) == Some(([], rest))
  {
    assert ([QUOTE] + rest)[1..] == rest;
  }

  /** Every string, lone surrogates and control characters included, is read back from its literal. */
  lemma {:induction false} StringRoundTrip(u: Text, rest: Text)
    ensures ReadString(Escape(u) + ([QUOTE] + rest)) == Some((u, rest))
    decreases |u|
  {
    var close := [QUOTE] + rest;
    if u == [] {
      assert Escape(u) + close == close;
      ReadClose(rest);
    } else {
      EscapeStep(u, close);
      if StartsWithPair(u) {
        StringRoundTrip(u[2..], rest);
        ReadPair(u[0], u[1], Escape(u[2..]) + close);
        assert u == [u[0]] + ([u[1]] + u[2..]);
      } else {
        StringRoundTrip(u[1..], rest);
        ReadUnit(u[0], Escape(u[1..]) + close);
        assert u == [u[0]] + u[1..];
      }
    }
  }

  // ---- Nothing is escaped that need not be ----

  predicate MustEscape(c: Unit) { c < 0x20 || c == QUOTE || c == BACKSLASH }

  lemma EscapeUnitLength(c: Unit)
    ensures if MustEscape(c) || IsHighSurrogate(c) || IsLowSurrogate(c) then |EscapeUnit(c)| > 1 else EscapeUnit(c) == [c]
  {
  }

  lemma {:induction false} EscapeLength(s: Text)
    ensures |Escape(s)| >= |s|
    ensures |Escape(s)| == |s| <==> WellFormedText(s) && forall c :: c in s ==> !MustEscape(c)
    decreases |s|
  {
    if s != [] {
      if StartsWithPair(s) {
        EscapeLength(s[2..]);
        assert s == [s[0], s[1]] + s[2..];
      } else {
        EscapeLength(s[1..]);
        EscapeUnitLength(s[0]);
        assert s == [s[0]] + s[1..];
      }
    }
  }

  lemma {:induction false} EscapeKeeps(s: Text)
    requires WellFormedText(s) && forall c :: c in s ==> !MustEscape(c)
    ensures Escape(s) == s
    decreases |s|
  {
    if s != [] {
      if StartsWithPair(s) {
        EscapeKeeps(s[2..]);
        assert s == [s[0]] + ([s[1]] + s[2..]);
      } else {
        EscapeKeeps(s[1..]);
        EscapeUnitLength(s[0]);
        assert s == [s[0]] + s[1..];
      }
    }
  }

  /** A string is written as it is exactly when it is well formed and free of quotes, backslashes and controls. */
  lemma EscapeIsMinimal(s: Text)
    ensures Escape(s) == s <==> WellFormedText(s) && forall c :: c in s ==> !MustEscape(c)
  {
    EscapeLength(s);
    if WellFormedText(s) && forall c :: c in s ==> !MustEscape(c) { EscapeKeeps(s); }
  }

  // ---- Literals hold no lone surrogate ----

  /** Well-formed UTF-16, which UTF-8 encodes without loss. */
  predicate WellFormedText(t: Text) {
    if t == [] then true
    else if StartsWithPair(t) then WellFormedText(t[2..])
    else !IsHighSurrogate(t[0]) && !IsLowSurrogate(t[0]) && WellFormedText(t[1..])
  }

  lemma {:induction false} ConcatWellFormed(a: Text, b: Text)
    requires WellFormedText(a) && WellFormedText(b)
    ensures WellFormedText(a + b)
    decreases |a|
  {
    if a == [] {
      assert a + b == b;
    } else if StartsWithPair(a) {
      ConcatWellFormed(a[2..], b);
      assert (a + b)[2..] == a[2..] + b;
    } else {
      ConcatWellFormed(a[1..], b);
      assert (a + b)[1..] == a[1..] + b;
    }
  }

  lemma {:induction false} PlainWellFormed(t: Text)
    requires forall i :: 0 <= i < |t| ==> t[i] < 0xD800
    ensures WellFormedText(t)
  {
    if t != [] { PlainWellFormed(t[1..]); }
  }

  lemma {:induction false} EscapeWellFormed(s: Text)
    ensures WellFormedText(Escape(s))
    decreases |s|
  {
    if s != [] {
      if StartsWithPair(s) {
        EscapeWellFormed(s[2..]);
        var rest := Escape(s[2..]);
        assert ([s[0]] + ([s[1]] + rest))[2..] == rest;
      } else {
        EscapeWellFormed(s[1..]);
        EscapeUnitWellFormed(s[0]);
        ConcatWellFormed(EscapeUnit(s[0]), Escape(s[1..]));
      }
    }
  }

  lemma EscapeUnitWellFormed(c: Unit)
    ensures WellFormedText(EscapeUnit(c))
  {
    var t := EscapeUnit(c);
    if ShortEscape(c).None? && c >= 0x20 && !IsHighSurrogate(c) && !IsLowSurrogate(c) {
      assert t == [c] && t[1..] == [];
    } else {
      PlainWellFormed(t);
    }
  }
}
