/**
 The few facts about products and quotients the other modules need.
 */
module Nonlinear {

  lemma MulAtLeast(k: int, b: nat)
    requires k > 0
    ensures k * b >= b
  {
    assert k * b == (k - 1) * b + b;
  }

  lemma MulMonotone(a: int, b: int, c: nat)
    requires a <= b
    ensures a * c <= b * c
  {
    assert b * c == a * c + (b - a) * c;
  }

  /** A quotient is determined by where its multiple lies. */
  lemma DivUnique(a: int, b: int, q: int)
    requires b > 0 && q * b <= a < q * b + b
    ensures a / b == q
  {
    var r := a / b;
    assert r * b <= a < r * b + b;
    assert r * b == q * b + (r - q) * b;
    assert q * b == r * b + (q - r) * b;
    if q < r {
      MulAtLeast(r - q, b);
    } else if r < q {
      MulAtLeast(q - r, b);
    }
  }

  lemma MulStrict(a: int, b: int, c: int, d: int)
    requires 0 <= a < b && 0 <= c < d
    ensures a * c < b * d
  {
    MulMonotone(a, b, c);
    assert b * d == b * c + b * (d - c);
    MulAtLeast(d - c, b);
    MulCommute(b, d - c);
  }

  lemma MulCommute(a: int, b: int)
    ensures a * b == b * a
  {
  }

  lemma MulAssoc(a: int, b: int, c: int)
    ensures a * b * c == a * (b * c)
  {
  }

  lemma MulSwap(a: int, b: int, c: int)
    ensures a * (b * c) == b * (a * c)
  {
  }

  lemma MulSum(a: int, b: int, c: int)
    ensures (a + b) * c == a * c + b * c
  {
  }

  /** Quotient and remainder are determined by what they give together. */
  lemma ModUnique(a: int, m: int, q: int, r: int)
    requires m > 0 && 0 <= r < m && a == r + q * m
    ensures a % m == r && a / m == q
  {
    DivUnique(a, m, q);
    assert a == a / m * m + a % m;
  }

  /** Division by counting how often the divisor can be taken away. */
  function Quotient(a: nat, b: nat): (q: nat)
    requires b > 0
    ensures q <= a
  {
    if a < b then 0 else 1 + Quotient(a - b, b)
  }

  lemma {:induction false} QuotientBounds(a: nat, b: nat)
    requires b > 0
    ensures Quotient(a, b) * b <= a < Quotient(a, b) * b + b
  {
    if a >= b {
      QuotientBounds(a - b, b);
      assert (1 + Quotient(a - b, b)) * b == b + Quotient(a - b, b) * b;
    }
  }

  lemma QuotientDivides(a: nat, b: nat)
    requires b > 0
    ensures Quotient(a, b) == a / b
  {
    QuotientBounds(a, b);
    DivUnique(a, b, Quotient(a, b));
  }
}
