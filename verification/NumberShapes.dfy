/** How a number is laid out: with its reading, these facts leave one text for every number. */
module NumberShapes {
  import opened Utf16
  import opened EcmaNumber
  import opened NaturalNumbers

  predicate Scientific(n: int) { n <= -6 || n > 21 }

  /** The text is its leading digits, a dot and more digits if there are any, and the exponent if there is one. */
  ghost predicate Composed(t: Text, whole: Text, fraction: Text, tail: Text) {
    && SplitMagnitude(t) == (whole, fraction, tail)
    && t == whole + (if fraction == [] then [] else [DOT] + fraction) + tail
  }

  lemma ComposedPlain(whole: Text, tail: Text)
    requires AllDigits(whole) && (tail != [] ==> tail[0] == EXP)
    ensures Composed(whole + tail, whole, [], tail)
  {
    SplitPlain(whole, tail);
  }

  lemma ComposedDotted(whole: Text, fraction: Text, tail: Text)
    requires AllDigits(whole) && AllDigits(fraction) && fraction != [] && (tail != [] ==> tail[0] == EXP)
    ensures Composed(whole + [DOT] + fraction + tail, whole, fraction, tail)
  {
    SplitDotted(whole, fraction, tail);
  }

  lemma LeadOfExponent(m: int)
    requires m != 0
    ensures |ExponentText(m)| >= 3 && ExponentText(m)[0] == EXP && ExponentText(m)[2] != DIGIT0
    ensures ExponentText(m)[1] == if m < 0 then MINUS else PLUS
  {
    NatTextLeads(if m < 0 then -m else m);
  }

  ghost predicate Shaped(t: Text, d: Text, n: int) {
    var (whole, fraction, tail) := SplitMagnitude(t);
    && Composed(t, whole, fraction, tail)
    && |whole| == (if Scientific(n) || n <= 0 then 1 else n)
    && |fraction| == (if Scientific(n) then |d| - 1 else if n >= |d| then 0 else |d| - n)
    && (tail == [] <==> !Scientific(n))
    && (tail != [] ==> |tail| >= 3 && tail[0] == EXP && tail[1] in {MINUS, PLUS} && tail[2] != DIGIT0)
  }

  lemma IntegerShape(d: Text, n: int)
    requires Significant(d) && |d| <= n <= 21
    ensures Shaped(d + Zeros(n - |d|), d, n)
  {
    var w := d + Zeros(n - |d|);
    ComposedPlain(w, []);
    assert w + [] == w;
  }

  lemma FixedShape(d: Text, n: int)
    requires Significant(d) && 0 < n < |d| && n <= 21
    ensures Shaped(d[..n] + [DOT] + d[n..], d, n)
  {
    var t := d[..n] + [DOT] + d[n..];
    ComposedDotted(d[..n], d[n..], []);
    assert t + [] == t;
  }

  lemma SmallShape(d: Text, n: int)
    requires Significant(d) && -6 < n <= 0
    ensures Shaped([DIGIT0, DOT] + Zeros(-n) + d, d, n)
  {
    ComposedDotted([DIGIT0], Zeros(-n) + d, []);
    assert [DIGIT0] + [DOT] + (Zeros(-n) + d) + [] == [DIGIT0, DOT] + Zeros(-n) + d;
  }

  lemma ScientificShape(d: Text, n: int)
    requires Significant(d) && Scientific(n)
    ensures |d| == 1 ==> Shaped(d + ExponentText(n - 1), d, n)
    ensures |d| > 1 ==> Shaped(d[..1] + [DOT] + d[1..] + ExponentText(n - 1), d, n)
  {
    LeadOfExponent(n - 1);
    if |d| == 1 { ComposedPlain(d, ExponentText(n - 1)); } else { ComposedDotted(d[..1], d[1..], ExponentText(n - 1)); }
  }

  /**
   * In scientific notation one digit stands before the dot, elsewhere the point is where the value has it,
   * with one zero before it for small numbers; no zero is added behind the last digit but to reach the
   * point; exponents are signed and have no leading zero.
   */
  lemma NumberShape(d: Text, n: int)
    requires Significant(d)
    ensures Shaped(MagnitudeText(d, n), d, n)
  {
    if |d| <= n <= 21 {
      IntegerShape(d, n);
    } else if 0 < n <= 21 {
      FixedShape(d, n);
    } else if -6 < n <= 0 {
      SmallShape(d, n);
    } else {
      ScientificShape(d, n);
    }
  }

  /** A sign is written exactly for negative numbers other than zero. */
  lemma SignShape(x: Number)
    requires x.Valid()
    ensures NumberText(x)[0] == MINUS <==> x.Finite? && x.negative
    ensures x.Finite? ==> NumberText(x)[if x.negative then 1 else 0..] == MagnitudeText(x.digits, x.point)
  {
    if x.Finite? { MagnitudeStartsWithDigit(x.digits, x.point); }
  }
}
