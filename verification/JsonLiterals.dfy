/**
 * Which literal JSON.stringify chooses for a string: among the well-formed ones that denote it the
 * shortest, hexadecimal digits in lower case (RFC 8785 section 3.2.2.2).
 */
module JsonLiterals {
  import opened Options
  import opened Utf16
  import opened JsonString

  predicate UpperHex(c: Unit) { 0x41 <= c <= 0x46 }

  /** No escape in the literal uses an upper-case hexadecimal digit. */
  predicate LowerHex(t: Text) {
    if |t| >= 6 && t[0] == BACKSLASH && t[1] == LETTER_U then
      !UpperHex(t[2]) && !UpperHex(t[3]) && !UpperHex(t[4]) && !UpperHex(t[5]) && LowerHex(t[6..])
    else if |t| >= 2 && t[0] == BACKSLASH then LowerHex(t[2..])
    else t == [] || LowerHex(t[1..])
  }

  /** The well-formed literal t, its closing quote and the rest behind it read as the string s. */
  ghost predicate Denotes(t: Text, s: Text, rest: Text) {
    WellFormedText(t) && ReadString(t + ([QUOTE] + rest)) == Some((s, rest))
  }

  // ---- The first step of a literal ----

  /** How a literal goes on behind its first k units, which denote the unit c. */
  ghost predicate Begins(t: Text, k: nat, c: Unit, s: Text, rest: Text) {
    && k <= |t| && s != [] && s[0] == c && Denotes(t[k..], s[1..], rest)
  }

  lemma Behind(t: Text, k: nat, tail: Text)
    requires k <= |t|
    ensures (t + tail)[k..] == t[k..] + tail
  {
  }

  lemma PushedFirst(c: Unit, t: Text, s: Text, rest: Text)
    requires Push(c, ReadString(t + ([QUOTE] + rest))) == Some((s, rest)) && WellFormedText(t)
    ensures s != [] && s[0] == c && Denotes(t, s[1..], rest)
  {
    var r := ReadString(t + ([QUOTE] + rest)).value;
    assert ([c] + r.0)[1..] == r.0;
  }

  /** A literal cannot end at an earlier quotation mark, or in an escape. */
  lemma NoEarlyEnd(t: Text, s: Text, rest: Text)
    requires Denotes(t, s, rest) && t != []
    ensures t[0] != QUOTE && t[0] >= 0x20
    ensures t[0] == BACKSLASH ==> |t| >= 2
  {
    Behind(t, 1, [QUOTE] + rest);
    if t == [BACKSLASH] { LoneBackslash(rest); }
  }

  /** A backslash right before the closing quote escapes that quote, so reading goes past it. */
  lemma LoneBackslash(rest: Text)
    ensures ReadString([BACKSLASH] + ([QUOTE] + rest)) == Push(QUOTE, ReadString(rest))
  {
    var u := [BACKSLASH] + ([QUOTE] + rest);
    assert u[1] == QUOTE && u[2..] == rest;
  }

  lemma PlainStep(t: Text, s: Text, rest: Text)
    requires Denotes(t, s, rest) && t != [] && t[0] != BACKSLASH
    ensures s != [] && s[0] == t[0] && ReadString(t[1..] + ([QUOTE] + rest)) == Some((s[1..], rest))
  {
    NoEarlyEnd(t, s, rest);
    Behind(t, 1, [QUOTE] + rest);
    var r := ReadString(t[1..] + ([QUOTE] + rest)).value;
    assert ([t[0]] + r.0)[1..] == r.0;
  }

  lemma ShortStep(t: Text, s: Text, rest: Text)
    requires Denotes(t, s, rest) && t != [] && t[0] == BACKSLASH && t[1..] != [] && t[1] != LETTER_U
    ensures ReadShortEscape(t[1]).Some? && Begins(t, 2, ReadShortEscape(t[1]).value, s, rest)
  {
    NoEarlyEnd(t, s, rest);
    Behind(t, 2, [QUOTE] + rest);
    PlainTail(t, 2);
    PushedFirst(ReadShortEscape(t[1]).value, t[2..], s, rest);
  }

  /** Units below the surrogates can be cut off a well-formed text. */
  lemma {:induction false} PlainTail(t: Text, k: nat)
    requires WellFormedText(t) && k <= |t| && forall i :: 0 <= i < k ==> t[i] < 0xD800
    ensures WellFormedText(t[k..])
  {
    if k > 0 {
      PlainTail(t[1..], k - 1);
      assert t[1..][k - 1..] == t[k..];
    } else {
      assert t[0..] == t;
    }
  }

  lemma HexUnits(h: Text)
    requires |h| == 4 && ReadHex4(h).Some?
    ensures forall i :: 0 <= i < 4 ==> h[i] < 0xD800 && HexValue(h[i]).Some?
  {
  }

  lemma HexStep(t: Text, s: Text, rest: Text)
    requires Denotes(t, s, rest) && |t| >= 2 && t[0] == BACKSLASH && t[1] == LETTER_U
    ensures |t| >= 6 && ReadHex4(t[2..6]).Some? && Begins(t, 6, ReadHex4(t[2..6]).value, s, rest)
  {
    var u := t + ([QUOTE] + rest);
    assert u[0] == BACKSLASH && u[1] == LETTER_U;
    if |u| >= 6 {
      var h := u[2..6];
      assert ReadHex4(h).Some?;
      HexUnits(h);
      assert |t| >= 6;
      assert h == t[2..6];
      forall i | 0 <= i < 6 ensures t[i] < 0xD800 { if i >= 2 { assert t[i] == h[i - 2]; } }
      Behind(t, 6, [QUOTE] + rest);
      PlainTail(t, 6);
      PushedFirst(ReadHex4(h).value, t[6..], s, rest);
    }
  }

  // ---- What one unit costs ----

  lemma UnitCosts(c: Unit)
    ensures |EscapeUnit(c)| in {1, 2, 6}
    ensures |EscapeUnit(c)| == 1 ==> EscapeUnit(c) == [c]
    ensures |EscapeUnit(c)| == 2 ==> ShortEscape(c).Some? && EscapeUnit(c) == [BACKSLASH, ShortEscape(c).value]
    ensures |EscapeUnit(c)| == 6 ==> EscapeUnit(c) == UnicodeEscape(c)
  {
  }

  /** Whatever a two-unit escape denotes is written in at most two units, and in two only by that escape. */
  lemma ShortEscapesUsed(e: Unit)
    requires ReadShortEscape(e).Some?
    ensures var c := ReadShortEscape(e).value;
            |EscapeUnit(c)| <= 2 && (|EscapeUnit(c)| == 2 ==> EscapeUnit(c) == [BACKSLASH, e])
  {
  }

  /** In front of a string a unit costs what it costs alone, less if it completes a surrogate pair. */
  lemma EscapeCons(s: Text)
    requires s != []
    ensures StartsWithPair(s) ==> |Escape(s)| + 10 == |EscapeUnit(s[0])| + |Escape(s[1..])|
    ensures !StartsWithPair(s) ==> Escape(s) == EscapeUnit(s[0]) + Escape(s[1..])
  {
    if StartsWithPair(s) {
      PairCons(s[0], s[1], s[2..]);
      assert s == [s[0]] + ([s[1]] + s[2..]) && s[1..] == [s[1]] + s[2..];
    }
  }

  lemma SurrogateCosts(c: Unit)
    requires IsHighSurrogate(c) || IsLowSurrogate(c)
    ensures |EscapeUnit(c)| == 6
  {
  }

  lemma PairCons(a: Unit, b: Unit, s: Text)
    requires IsHighSurrogate(a) && IsLowSurrogate(b)
    ensures |Escape([a] + ([b] + s))| == 2 + |Escape(s)|
    ensures |Escape([b] + s)| == 6 + |Escape(s)|
    ensures |EscapeUnit(a)| == 6
  {
    SurrogateCosts(a);
    SurrogateCosts(b);
    assert ([b] + s)[1..] == s;
    assert ([a] + ([b] + s))[2..] == s;
  }

  /** Lower-case digits that read as c are the digits of c. */
  lemma LowerDigits(h: Text)
    requires |h| == 4 && ReadHex4(h).Some? && forall i :: 0 <= i < 4 ==> !UpperHex(h[i])
    ensures HexDigits(ReadHex4(h).value) == h
  {
    var a, b, c, d := HexValue(h[0]).value, HexValue(h[1]).value, HexValue(h[2]).value, HexValue(h[3]).value;
    Hex4Digits(a, b, c, d);
    assert HexDigit(a) == h[0] && HexDigit(b) == h[1] && HexDigit(c) == h[2] && HexDigit(d) == h[3];
  }

  lemma Hex4Digits(a: int, b: int, c: int, d: int)
    requires 0 <= a < 16 && 0 <= b < 16 && 0 <= c < 16 && 0 <= d < 16
    ensures var u := Hex4(a, b, c, d); u / 0x1000 == a && u / 0x100 % 16 == b && u / 0x10 % 16 == c && u % 16 == d
  {
    var u := Hex4(a, b, c, d);
    assert u == 16 * (256 * a + 16 * b + c) + d;
    assert u / 16 == 256 * a + 16 * b + c;
    assert u == 256 * (16 * a + b) + (16 * c + d);
    assert u / 256 == 16 * a + b;
  }

  // ---- The literal that is chosen ----

  /** The literal is at least as long as the escaped string, and if it is as long and in lower case, it is that. */
  ghost predicate NoShorter(t: Text, s: Text) {
    |Escape(s)| <= |t| && (|Escape(s)| == |t| && LowerHex(t) ==> t == Escape(s))
  }

  lemma {:induction false} NoLiteralIsShorter(t: Text, s: Text, rest: Text)
    requires Denotes(t, s, rest)
    ensures NoShorter(t, s)
    decreases |t|
  {
    if t == [] {
      ReadClose(rest);
      assert t + ([QUOTE] + rest) == [QUOTE] + rest;
    } else if t[0] != BACKSLASH {
      NoShorterPlain(t, s, rest);
    } else {
      NoEarlyEnd(t, s, rest);
      if t[1] == LETTER_U {
        HexStep(t, s, rest);
        NoLiteralIsShorter(t[6..], s[1..], rest);
        NoShorterHex(t, s);
      } else {
        ShortStep(t, s, rest);
        NoLiteralIsShorter(t[2..], s[1..], rest);
        NoShorterShort(t, s);
      }
    }
  }

  lemma NoShorterPlain(t: Text, s: Text, rest: Text)
    requires Denotes(t, s, rest) && t != [] && t[0] != BACKSLASH
    ensures NoShorter(t, s)
    decreases |t|, 0
  {
    NoEarlyEnd(t, s, rest);
    PlainStep(t, s, rest);
    if StartsWithPair(t) {
      var u := t[1..];
      assert u[0] == t[1] && u[1..] == t[2..];
      Behind(u, 1, [QUOTE] + rest);
      var r := ReadString(u[1..] + ([QUOTE] + rest)).value;
      assert ([u[0]] + r.0)[1..] == r.0;
      assert s[1..] == [u[0]] + s[2..];
      assert Denotes(t[2..], s[2..], rest);
      NoLiteralIsShorter(t[2..], s[2..], rest);
      assert t == [t[0]] + ([t[1]] + t[2..]);
      LowerHexPlain(t);
      LowerHexPlain(u);
    } else {
      NoLiteralIsShorter(t[1..], s[1..], rest);
      EscapeUnitLength(t[0]);
      EscapeCons(s);
      LowerHexPlain(t);
      assert t == [t[0]] + t[1..];
    }
  }

  lemma LowerHexPlain(t: Text)
    requires t != [] && t[0] != BACKSLASH
    ensures LowerHex(t) == LowerHex(t[1..])
  {
  }

  lemma NoShorterShort(t: Text, s: Text)
    requires |t| >= 2 && t[0] == BACKSLASH && t[1] != LETTER_U && s != [] && ReadShortEscape(t[1]) == Some(s[0])
    requires NoShorter(t[2..], s[1..])
    ensures NoShorter(t, s)
  {
    ShortEscapesUsed(t[1]);
    EscapeCons(s);
    assert t == [BACKSLASH, t[1]] + t[2..];
  }

  lemma NoShorterHex(t: Text, s: Text)
    requires |t| >= 6 && t[0] == BACKSLASH && t[1] == LETTER_U && s != [] && ReadHex4(t[2..6]) == Some(s[0])
    requires NoShorter(t[6..], s[1..])
    ensures NoShorter(t, s)
  {
    UnitCosts(s[0]);
    EscapeCons(s);
    if |Escape(s)| == |t| && LowerHex(t) {
      LowerDigits(t[2..6]);
      assert t == [BACKSLASH, LETTER_U] + t[2..6] + t[6..];
    }
  }

  lemma {:induction false} EscapeIsLower(s: Text)
    ensures LowerHex(Escape(s))
    decreases |s|
  {
    if s != [] {
      if StartsWithPair(s) {
        EscapeIsLower(s[2..]);
        var e := Escape(s[2..]);
        assert ([s[0]] + ([s[1]] + e))[1..] == [s[1]] + e && ([s[1]] + e)[1..] == e;
        LowerHexPlain([s[0]] + ([s[1]] + e));
        LowerHexPlain([s[1]] + e);
      } else {
        EscapeIsLower(s[1..]);
        LowerUnit(s[0], Escape(s[1..]));
      }
    }
  }

  lemma LowerUnit(c: Unit, e: Text)
    requires LowerHex(e)
    ensures LowerHex(EscapeUnit(c) + e)
  {
    UnitCosts(c);
    var t := EscapeUnit(c) + e;
    assert t[|EscapeUnit(c)|..] == e;
    if |EscapeUnit(c)| == 2 {
      ShortEscapeInverse(c);
    } else if |EscapeUnit(c)| == 6 {
      assert t[2..6] == HexDigits(c);
      assert t[2] == HexDigits(c)[0] && t[3] == HexDigits(c)[1] && t[4] == HexDigits(c)[2] && t[5] == HexDigits(c)[3];
    } else {
      EscapeUnitLength(c);
    }
  }

  lemma EscapeDenotes(s: Text, rest: Text)
    ensures Denotes(Escape(s), s, rest)
  {
    EscapeWellFormed(s);
    StringRoundTrip(s, rest);
  }

  /**
   * The escaped string is the one literal of its kind: it denotes the string, is in lower case, no
   * well-formed literal of the string is shorter, and no other in lower case is as short.
   */
  lemma EscapeIsTheShortest(s: Text, rest: Text)
    ensures Denotes(Escape(s), s, rest) && LowerHex(Escape(s))
    ensures forall t :: Denotes(t, s, rest) ==> |Escape(s)| <= |t|
    ensures forall t :: Denotes(t, s, rest) && LowerHex(t) && |t| == |Escape(s)| ==> t == Escape(s)
  {
    EscapeDenotes(s, rest);
    EscapeIsLower(s);
    forall t | Denotes(t, s, rest) ensures NoShorter(t, s) { NoLiteralIsShorter(t, s, rest); }
  }
}
