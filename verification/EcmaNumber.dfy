/**
 * Numbers as JSON.stringify prints them. A finite double is represented by the shortest decimal
 * that ECMAScript picks for it: a sign, significant digits d1..dk without outer zeros, and the
 * position n of the decimal point, for the value 0.d1..dk * 10^n.
 */
module EcmaNumber {
  import opened Options
  import opened Utf16

  const MINUS: Unit := 0x2D
  const PLUS: Unit := 0x2B
  const DOT: Unit := 0x2E
  const EXP: Unit := 0x65
  const DIGIT0: Unit := 0x30

  predicate IsDigit(c: Unit) { DIGIT0 <= c <= DIGIT0 + 9 }

  predicate AllDigits(s: Text) { forall i :: 0 <= i < |s| ==> IsDigit(s[i]) }

  /** Decimal text of a natural number, as template literals and exponents print it. */
  function NatText(n: nat): (t: Text)
    ensures t != [] && AllDigits(t)
  {
    if n < 10 then [DIGIT0 + n] else NatText(n / 10) + [DIGIT0 + n % 10]
  }

  function NatValue(t: Text): nat
    requires AllDigits(t)
  {
    if t == [] then 0 else 10 * NatValue(t[..|t| - 1]) + (t[|t| - 1] - DIGIT0)
  }

  lemma {:induction false} NatTextRoundTrip(n: nat)
    ensures NatValue(NatText(n)) == n
  {
    if n >= 10 {
      NatTextRoundTrip(n / 10);
      var t := NatText(n);
      assert t[..|t| - 1] == NatText(n / 10);
    }
  }

  datatype Number =
    | Zero(negative: bool)
    | Finite(negative: bool, digits: Text, point: int)
  {
    ghost predicate Valid() {
      Finite? ==> Significant(digits)
    }

    /** JSON.stringify prints -0 as 0. */
    function Canonical(): Number { if Zero? then Zero(false) else this }
  }

  function Zeros(n: nat): (t: Text)
    ensures |t| == n && AllDigits(t)
    ensures forall i :: 0 <= i < n ==> t[i] == DIGIT0
  {
    seq(n, _ => DIGIT0)
  }

  /** Number::toString, the four layouts of ECMA-262 for radix ten. */
  function MagnitudeText(d: Text, n: int): Text
    requires d != []
  {
    var k := |d|;
    if k <= n <= 21 then d + Zeros(n - k)
    else if 0 < n <= 21 then d[..n] + [DOT] + d[n..]
    else if -6 < n <= 0 then [DIGIT0, DOT] + Zeros(-n) + d
    else
      if k == 1 then d + ExponentText(n - 1) else d[..1] + [DOT] + d[1..] + ExponentText(n - 1)
  }

  function ExponentText(m: int): Text {
    [EXP, if m < 0 then MINUS else PLUS] + NatText(if m < 0 then -m else m)
  }

  function NumberText(x: Number): Text
    requires x.Finite? ==> x.digits != []
  {
    match x
    case Zero(_) => [DIGIT0]
    case Finite(negative, d, n) => (if negative then [MINUS] else []) + MagnitudeText(d, n)
  }

  // ---- Reading ----

  /** Length of the longest prefix made of digits. */
  function DigitRun(s: Text): (k: nat)
    ensures k <= |s| && AllDigits(s[..k])
    ensures k < |s| ==> !IsDigit(s[k])
  {
    if s == [] || !IsDigit(s[0]) then 0 else 1 + DigitRun(s[1..])
  }

  function LeadingZeros(s: Text): (k: nat)
    ensures k <= |s|
    ensures k < |s| ==> s[k] != DIGIT0
    ensures forall i :: 0 <= i < k ==> s[i] == DIGIT0
  {
    if s == [] || s[0] != DIGIT0 then 0 else 1 + LeadingZeros(s[1..])
  }

  function StripTrailing(s: Text): Text {
    if s == [] || s[|s| - 1] != DIGIT0 then s else StripTrailing(s[..|s| - 1])
  }

  function ReadExponent(s: Text): Option<int> {
    if s == [] then Some(0)
    else if |s| >= 3 && s[0] == EXP && s[1] in [PLUS, MINUS] && AllDigits(s[2..]) then
      var e: int := NatValue(s[2..]);
      Some(if s[1] == MINUS then -e else e)
    else None
  }

  /** Splits a text into leading digits, the digits after a dot if there is one, and the remainder. */
  function SplitMagnitude(t: Text): (p: (Text, Text, Text)) {
    var i := DigitRun(t);
    var rest := t[i..];
    if rest != [] && rest[0] == DOT then
      var j := DigitRun(rest[1..]);
      (t[..i], rest[1..][..j], rest[1..][j..])
    else
      (t[..i], [], rest)
  }

  /** Significant digits without outer zeros, and the position of the point among them. */
  function Normalize(whole: Text, fraction: Text, e: int): (Text, int) {
    var z := LeadingZeros(whole + fraction);
    (StripTrailing((whole + fraction)[z..]), |whole| + e - z)
  }

  /** Reads digits, an optional fraction and an optional exponent. */
  function ReadMagnitude(t: Text): Option<(Text, int)> {
    var (whole, fraction, tail) := SplitMagnitude(t);
    if whole == [] then None
    else
      match ReadExponent(tail)
      case None => None
      case Some(e) => Some(Normalize(whole, fraction, e))
  }

  function ReadNumber(t: Text): Option<Number> {
    var negative := t != [] && t[0] == MINUS;
    match ReadMagnitude(if negative then t[1..] else t)
    case None => None
    case Some((d, n)) => if d == [] then Some(Zero(negative)) else Some(Finite(negative, d, n))
  }

  // ---- Reading undoes printing ----

  lemma {:induction false} DigitRunSplit(d: Text, rest: Text)
    requires AllDigits(d)
    requires rest != [] ==> !IsDigit(rest[0])
    ensures DigitRun(d + rest) == |d|
  {
    if d == [] {
      assert d + rest == rest;
    } else {
      DigitRunSplit(d[1..], rest);
      assert (d + rest)[1..] == d[1..] + rest;
      assert IsDigit((d + rest)[0]);
    }
  }

  lemma {:induction false} LeadingZerosSplit(n: nat, d: Text)
    requires d != [] && d[0] != DIGIT0
    ensures LeadingZeros(Zeros(n) + d) == n
  {
    var s := Zeros(n) + d;
    assert s[n] == d[0];
    assert forall i :: 0 <= i < n ==> s[i] == Zeros(n)[i];
  }

  lemma {:induction false} StripTrailingSplit(d: Text, n: nat)
    requires d != [] && d[|d| - 1] != DIGIT0
    ensures StripTrailing(d + Zeros(n)) == d
  {
    if n == 0 {
      assert d + Zeros(0) == d;
    } else {
      StripTrailingSplit(d, n - 1);
      var s := d + Zeros(n);
      assert s[|s| - 1] == Zeros(n)[n - 1];
      assert s[..|s| - 1] == d + Zeros(n - 1);
    }
  }

  lemma SplitPlain(whole: Text, tail: Text)
    requires AllDigits(whole)
    requires tail != [] ==> tail[0] == EXP
    ensures SplitMagnitude(whole + tail) == (whole, [], tail)
  {
    DigitRunSplit(whole, tail);
    assert (whole + tail)[|whole|..] == tail;
  }

  lemma SplitDotted(whole: Text, fraction: Text, tail: Text)
    requires AllDigits(whole) && AllDigits(fraction)
    requires tail != [] ==> tail[0] == EXP
    ensures SplitMagnitude(whole + [DOT] + fraction + tail) == (whole, fraction, tail)
  {
    var rest := [DOT] + (fraction + tail);
    assert whole + [DOT] + fraction + tail == whole + rest;
    DigitRunSplit(whole, rest);
    assert (whole + rest)[|whole|..] == rest && rest[1..] == fraction + tail;
    DigitRunSplit(fraction, tail);
    assert (fraction + tail)[|fraction|..] == tail;
  }

  lemma ReadExponentText(m: int)
    ensures ReadExponent(ExponentText(m)) == Some(m) && ExponentText(m)[0] == EXP
  {
    var digits := NatText(if m < 0 then -m else m);
    assert ExponentText(m)[2..] == digits;
    NatTextRoundTrip(if m < 0 then -m else m);
  }

  ghost predicate Significant(d: Text) {
    d != [] && AllDigits(d) && d[0] != DIGIT0 && d[|d| - 1] != DIGIT0
  }

  /** Outer zeros around significant digits are removed again. */
  lemma StripZeros(d: Text, before: nat, after: nat)
    requires Significant(d)
    ensures var all := Zeros(before) + d + Zeros(after);
            LeadingZeros(all) == before && StripTrailing(all[before..]) == d
  {
    var all := Zeros(before) + d + Zeros(after);
    var tail := d + Zeros(after);
    assert all == Zeros(before) + tail && tail[0] == d[0];
    LeadingZerosSplit(before, tail);
    assert all[before..] == tail;
    StripTrailingSplit(d, after);
  }

  /** The digits around the point, padded with zeros on either side, denote the significant digits. */
  lemma NormalizePadded(whole: Text, fraction: Text, e: int, d: Text, before: nat, after: nat)
    requires Significant(d)
    requires whole + fraction == Zeros(before) + d + Zeros(after)
    ensures Normalize(whole, fraction, e) == (d, |whole| + e - before)
  {
    StripZeros(d, before, after);
  }

  lemma ReadSplit(t: Text)
    ensures var (whole, fraction, tail) := SplitMagnitude(t);
            whole != [] && ReadExponent(tail).Some? ==> ReadMagnitude(t) == Some(Normalize(whole, fraction, ReadExponent(tail).value))
  {
  }

  lemma IntegerLayout(d: Text, n: int)
    requires Significant(d) && |d| <= n
    ensures ReadMagnitude(d + Zeros(n - |d|)) == Some((d, n))
  {
    var w := d + Zeros(n - |d|);
    SplitPlain(w, []);
    assert w + [] == w && Zeros(0) + d + Zeros(n - |d|) == w;
    NormalizePadded(w, [], 0, d, 0, n - |d|);
    ReadSplit(w);
  }

  lemma FixedLayout(d: Text, n: int)
    requires Significant(d) && 0 < n < |d|
    ensures ReadMagnitude(d[..n] + [DOT] + d[n..]) == Some((d, n))
  {
    var t := d[..n] + [DOT] + d[n..];
    SplitDotted(d[..n], d[n..], []);
    assert t + [] == t;
    assert d[..n] + d[n..] == Zeros(0) + d + Zeros(0);
    NormalizePadded(d[..n], d[n..], 0, d, 0, 0);
    ReadSplit(t);
  }

  lemma SmallLayout(d: Text, n: int)
    requires Significant(d) && n <= 0
    ensures ReadMagnitude([DIGIT0, DOT] + Zeros(-n) + d) == Some((d, n))
  {
    var t, fraction := [DIGIT0, DOT] + Zeros(-n) + d, Zeros(-n) + d;
    SplitDotted([DIGIT0], fraction, []);
    assert [DIGIT0] + [DOT] + fraction + [] == t;
    assert [DIGIT0] + fraction == Zeros(1 - n) + d + Zeros(0);
    NormalizePadded([DIGIT0], fraction, 0, d, 1 - n, 0);
    ReadSplit(t);
  }

  lemma OneDigitLayout(d: Text, n: int)
    requires Significant(d) && |d| == 1
    ensures ReadMagnitude(d + ExponentText(n - 1)) == Some((d, n))
  {
    var exponent := ExponentText(n - 1);
    ReadExponentText(n - 1);
    SplitPlain(d, exponent);
    assert d + [] == Zeros(0) + d + Zeros(0);
    NormalizePadded(d, [], n - 1, d, 0, 0);
    ReadSplit(d + exponent);
  }

  lemma ExponentLayout(d: Text, n: int)
    requires Significant(d) && |d| > 1
    ensures ReadMagnitude(d[..1] + [DOT] + d[1..] + ExponentText(n - 1)) == Some((d, n))
  {
    var exponent := ExponentText(n - 1);
    ReadExponentText(n - 1);
    SplitDotted(d[..1], d[1..], exponent);
    assert d[..1] + d[1..] == Zeros(0) + d + Zeros(0);
    NormalizePadded(d[..1], d[1..], n - 1, d, 0, 0);
    ReadSplit(d[..1] + [DOT] + d[1..] + exponent);
  }

  lemma MagnitudeRoundTrip(d: Text, n: int)
    requires Significant(d)
    ensures ReadMagnitude(MagnitudeText(d, n)) == Some((d, n))
  {
    if |d| <= n <= 21 {
      IntegerLayout(d, n);
    } else if 0 < n <= 21 {
      FixedLayout(d, n);
    } else if -6 < n <= 0 {
      SmallLayout(d, n);
    } else {
      if |d| == 1 { OneDigitLayout(d, n); } else { ExponentLayout(d, n); }
    }
  }

  lemma MagnitudeStartsWithDigit(d: Text, n: int)
    requires d != [] && AllDigits(d)
    ensures MagnitudeText(d, n) != [] && IsDigit(MagnitudeText(d, n)[0])
  {
  }

  /** Every number is recovered from its text, -0 as 0. */
  lemma NumberRoundTrip(x: Number)
    requires x.Valid()
    ensures ReadNumber(NumberText(x)) == Some(x.Canonical())
  {
    match x
    case Zero(_) =>
      var t: Text := [DIGIT0];
      assert NumberText(x) == t;
      SplitPlain(t, []);
      assert t + [] == t;
      assert LeadingZeros(t) == 1 by { LeadingZerosAll(1); assert Zeros(1) == t; }
      assert StripTrailing(t[1..]) == [];
    case Finite(negative, d, n) =>
      MagnitudeRoundTrip(d, n);
      MagnitudeStartsWithDigit(d, n);
      var t := NumberText(x);
      assert negative ==> t[1..] == MagnitudeText(d, n);
      assert !negative ==> t == MagnitudeText(d, n);
  }

  lemma {:induction false} LeadingZerosAll(n: nat)
    ensures LeadingZeros(Zeros(n)) == n
  {
    assert forall i :: 0 <= i < n ==> Zeros(n)[i] == DIGIT0;
  }

  lemma DigitsHoldNoExponent(t: Text)
    requires AllDigits(t)
    ensures EXP !in t
  {
    assert forall i :: 0 <= i < |t| ==> IsDigit(t[i]) && t[i] != EXP;
  }

  /** Exponents are written exactly for magnitudes below 10^-6 and from 10^21 on. */
  lemma ExponentForm(x: Number)
    requires x.Valid()
    ensures EXP in NumberText(x) <==> x.Finite? && (x.point <= -6 || x.point > 21)
  {
    if x.Finite? {
      var d, n := x.digits, x.point;
      DigitsHoldNoExponent(d);
      if |d| <= n <= 21 {
        DigitsHoldNoExponent(Zeros(n - |d|));
      } else if -6 < n <= 0 {
        DigitsHoldNoExponent(Zeros(-n));
      }
    }
  }

  predicate IsNumberUnit(c: Unit) { IsDigit(c) || c in [MINUS, PLUS, DOT, EXP] }

  /** A number's text uses only number characters and starts with a sign or a digit. */
  lemma NumberTextUnits(x: Number)
    requires x.Valid()
    ensures NumberText(x) != []
    ensures forall i :: 0 <= i < |NumberText(x)| ==> IsNumberUnit(NumberText(x)[i])
    ensures NumberText(x)[0] == MINUS || IsDigit(NumberText(x)[0])
  {
    if x.Finite? {
      MagnitudeStartsWithDigit(x.digits, x.point);
      MagnitudeUnits(x.digits, x.point);
    }
  }

  lemma MagnitudeUnits(d: Text, n: int)
    requires d != [] && AllDigits(d)
    ensures forall c :: c in MagnitudeText(d, n) ==> IsNumberUnit(c)
  {
  }
}
