/** Small facts about natural-number multiplication, division and remainder,
    stated once and used by the timer and wave proofs. */
module Arith {

  lemma MulSucc(k: nat, rate: nat)
    ensures (k + 1) * rate == k * rate + rate
  {
  }

  lemma MulAtLeast(a: nat, rate: nat)
    requires a >= 1
    ensures a * rate >= rate
  {
    assert a * rate == (a - 1) * rate + rate;
  }

  /** Quotient and remainder are the only such decomposition. */
  lemma DivModUnique(x: nat, q: nat, m: nat, rate: nat)
    requires rate > 0 && m < rate && x == q * rate + m
    ensures x / rate == q && x % rate == m
  {
    var q', m' := x / rate, x % rate;
    assert x == q' * rate + m';
    if q' < q {
      MulAtLeast(q - q', rate);
      assert false;
    } else if q < q' {
      MulAtLeast(q' - q, rate);
      assert false;
    }
  }

  lemma MultipleHasNoRemainder(q: nat, rate: nat)
    requires rate > 0
    ensures (q * rate) % rate == 0 && (q * rate) / rate == q
  {
    DivModUnique(q * rate, q, 0, rate);
  }

  lemma NoRemainderIsMultiple(x: nat, rate: nat)
    requires rate > 0 && x % rate == 0
    ensures x == (x / rate) * rate
  {
  }

  /** Adding the divisor keeps a multiple a multiple. */
  lemma MultiplePlusDivisor(x: nat, rate: nat)
    requires rate > 0 && x % rate == 0
    ensures (x + rate) % rate == 0
  {
    NoRemainderIsMultiple(x, rate);
    var q := x / rate;
    assert x + rate == (q + 1) * rate;
    MultipleHasNoRemainder(q + 1, rate);
  }

  /** Two different multiples of `rate` are at least `rate` apart. */
  lemma MultiplesApart(a: nat, b: nat, rate: nat)
    requires rate > 0 && a % rate == 0 && b % rate == 0 && b < a
    ensures a - b >= rate
  {
    NoRemainderIsMultiple(a, rate);
    NoRemainderIsMultiple(b, rate);
    var qa, qb := a / rate, b / rate;
    assert a - b == (qa - qb) * rate;
    MulAtLeast(qa - qb, rate);
  }

  /** A divisor of `a` divides every multiple of `a`. */
  lemma DivisorDividesMultiple(a: nat, n: nat, rate: nat)
    requires rate > 0 && a % rate == 0
    ensures (a * n) % rate == 0
  {
    NoRemainderIsMultiple(a, rate);
    var q := a / rate;
    assert a * n == (q * n) * rate;
    MultipleHasNoRemainder(q * n, rate);
  }
}
