/** Time-earned tokens in real-valued seconds, shared by both kinds of bucket. */
module TokenAccount {

  function Min(a: real, b: real): real { if a <= b then a else b }

  function Max(a: real, b: real): real { if a >= b then a else b }

  /** Tokens earned over a span of time. */
  function Credit(rate: nat, span: real): real { span * rate as real }

  lemma CreditIsNonNegative(rate: nat, span: real)
    requires span >= 0.0
    ensures Credit(rate, span) >= 0.0
  {
  }

  lemma NoTimeNoCredit(rate: nat)
    ensures Credit(rate, 0.0) == 0.0
  {
  }

  lemma CreditSplit(rate: nat, from: real, middle: real, to: real)
    ensures Credit(rate, middle - from) + Credit(rate, to - middle) == Credit(rate, to - from)
  {
  }

  /** The deficit divided by the rate is the time that earns it; a rate of zero earns nothing. */
  lemma EarnedBy(rate: nat, deficit: real, span: real)
    requires deficit > 0.0
    ensures rate >= 1 ==> (span >= deficit / rate as real <==> Credit(rate, span) >= deficit)
    ensures rate == 0 ==> Credit(rate, span) < deficit
  {
    if rate >= 1 {
      QuotientUndone(deficit, rate as real, span);
    }
  }

  /** The time that earns `x` tokens, and half of it. */
  lemma EarningTime(rate: nat, x: real)
    requires rate >= 1
    ensures Credit(rate, x / rate as real) == x && Credit(rate, x / rate as real / 2.0) == x / 2.0
  {
    var t := x / rate as real;
    assert t * rate as real == x;
    assert (t / 2.0) * rate as real == (t * rate as real) / 2.0;
  }

  lemma QuotientIsPositive(x: real, y: real)
    requires x > 0.0 && y > 0.0
    ensures x / y > 0.0
  {
  }

  lemma QuotientUndone(x: real, y: real, z: real)
    requires y > 0.0
    ensures z >= x / y <==> z * y >= x
  {
    var d := z - x / y;
    assert (x / y) * y == x;
    assert d * y == z * y - x;
    assert d >= 0.0 ==> d * y >= 0.0;
    assert d < 0.0 ==> d * y < 0.0;
  }
}
