/**
 Facts about integer division of naturals used by the sample-size proofs.
 Each lemma takes one non-linear step, so that the solver never has to
 search for one.
 */
module Division {

  /** `x * k` grows with `x`. */
  lemma MulMonotone(x: nat, y: nat, k: nat)
    requires x <= y
    ensures x * k <= y * k
  {
    assert y * k == x * k + (y - x) * k;
  }

  /** The quotient times the divisor stays within the dividend. */
  lemma QuotientTimesDivisor(a: nat, b: nat)
    requires 1 <= b
    ensures (a / b) * b <= a < (a / b + 1) * b
  {
    var q := a / b;
    assert a == q * b + a % b;
    assert (q + 1) * b == q * b + b;
  }

  /** A lower bound on the quotient bounds the dividend. */
  lemma QuotientAtLeast(a: nat, b: nat, k: nat)
    requires 1 <= b && k <= a / b
    ensures k * b <= a
  {
    QuotientTimesDivisor(a, b);
    MulMonotone(k, a / b, b);
  }

  /** `a / b` is the largest multiplier of `b` that stays within `a`. */
  lemma QuotientIsLargest(a: nat, b: nat, q: nat)
    requires 1 <= b && q * b <= a
    ensures q <= a / b
  {
    QuotientTimesDivisor(a, b);
    if q > a / b {
      MulMonotone(a / b + 1, q, b);
    }
  }

  /** Dividing by a larger number gives a smaller quotient. */
  lemma DivAntitone(a: nat, b: nat, c: nat)
    requires 1 <= b <= c
    ensures a / c <= a / b
  {
    var q := a / c;
    QuotientAtLeast(a, c, q);
    MulMonotone(b, c, q);
    assert q * b == b * q && q * c == c * q;
    QuotientIsLargest(a, b, q);
  }

  /** Dividing by a positive number never increases a natural. */
  lemma QuotientAtMost(a: nat, b: nat)
    requires 1 <= b
    ensures a / b <= a
  {
    DivAntitone(a, 1, b);
  }
}
