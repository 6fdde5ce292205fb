/** Natural numbers among the numbers that JSON.stringify prints. */
module NaturalNumbers {
  import opened Options
  import opened Utf16
  import opened EcmaNumber

  /** The number a natural is: its digits without trailing zeros, and how many digits there were. */
  function NumberOf(n: nat): Number {
    if n == 0 then Zero(false) else Finite(false, StripTrailing(NatText(n)), |NatText(n)|)
  }

  /** Number.isInteger and not negative: the natural a number is, if it is one. */
  function NaturalOf(x: Number): Option<nat> {
    match x
    case Zero(_) => Some(0)
    case Finite(negative, d, point) =>
      if negative || point < |d| || !AllDigits(d) then None else Some(NatValue(d + Zeros(point - |d|)))
  }

  lemma {:induction false} StripThenPad(t: Text)
    requires AllDigits(t)
    ensures var d := StripTrailing(t);
            && |d| <= |t| && AllDigits(d) && d + Zeros(|t| - |d|) == t
            && (d != [] ==> d[0] == t[0] && d[|d| - 1] != DIGIT0)
  {
    if t != [] && t[|t| - 1] == DIGIT0 {
      var s := t[..|t| - 1];
      StripThenPad(s);
      var d := StripTrailing(s);
      assert d + Zeros(|t| - |d|) == d + Zeros(|s| - |d|) + [DIGIT0];
      assert t == s + [DIGIT0];
    } else {
      assert t + Zeros(0) == t;
    }
  }

  lemma {:induction false} NatTextLeads(n: nat)
    requires n > 0
    ensures NatText(n)[0] != DIGIT0
  {
    if n >= 10 { NatTextLeads(n / 10); }
  }

  lemma {:induction false} StripKeepsLead(t: Text)
    requires t != [] && t[0] != DIGIT0
    ensures StripTrailing(t) != []
  {
    if t[|t| - 1] == DIGIT0 { StripKeepsLead(t[..|t| - 1]); }
  }

  lemma NaturalRoundTrip(n: nat)
    ensures NumberOf(n).Valid() && NumberOf(n).Canonical() == NumberOf(n) && NaturalOf(NumberOf(n)) == Some(n)
  {
    if n > 0 {
      var t := NatText(n);
      StripThenPad(t);
      NatTextLeads(n);
      NatTextRoundTrip(n);
      StripKeepsLead(t);
    }
  }

  lemma PaddedText(d: Text, n: int)
    requires d != [] && |d| <= n
    ensures MagnitudeText(d, n) == d + Zeros(n - |d|) || n > 21
  {
  }

  /** A natural is printed digit by digit exactly when it has at most 21 digits. */
  lemma NaturalText(n: nat)
    ensures NumberOf(n).Valid()
    ensures NumberText(NumberOf(n)) == NatText(n) <==> |NatText(n)| <= 21
  {
    NaturalRoundTrip(n);
    if n > 0 {
      var t := NatText(n);
      StripThenPad(t);
      PaddedText(StripTrailing(t), |t|);
      ExponentForm(NumberOf(n));
      DigitsHoldNoExponent(t);
      assert NumberText(NumberOf(n)) == MagnitudeText(StripTrailing(t), |t|);
    }
  }
}
