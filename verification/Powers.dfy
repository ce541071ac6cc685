/**
 Powers of natural numbers, and comparing powers of different bases.
 */
module Powers {
  import opened Nonlinear

  function Pow(b: nat, e: nat): nat { if e == 0 then 1 else b * Pow(b, e - 1) }

  lemma {:induction false} PowPositive(b: nat, e: nat)
    requires b > 0
    ensures Pow(b, e) > 0
  {
    if e > 0 {
      PowPositive(b, e - 1);
      MulAtLeast(b, Pow(b, e - 1));
    }
  }

  lemma {:induction false} PowAdd(b: nat, m: nat, n: nat)
    ensures Pow(b, m + n) == Pow(b, m) * Pow(b, n)
  {
    if m > 0 {
      PowAdd(b, m - 1, n);
      MulAssoc(b, Pow(b, m - 1), Pow(b, n));
    }
  }

  lemma {:induction false} PowPow(b: nat, m: nat, n: nat)
    ensures Pow(Pow(b, m), n) == Pow(b, m * n)
  {
    if n > 0 {
      PowPow(b, m, n - 1);
      PowAdd(b, m, m * (n - 1));
      assert m + m * (n - 1) == m * n;
    }
  }

  lemma {:induction false} PowBase(a: nat, b: nat, e: nat)
    requires a <= b
    ensures Pow(a, e) <= Pow(b, e)
  {
    if e > 0 {
      PowBase(a, b, e - 1);
      MulMonotone(a, b, Pow(a, e - 1));
      MulMonotone(Pow(a, e - 1), Pow(b, e - 1), b);
    }
  }

  lemma {:induction false} PowBaseStrict(a: nat, b: nat, e: nat)
    requires a < b && e > 0
    ensures Pow(a, e) < Pow(b, e)
  {
    if e == 1 {
      assert Pow(a, 1) == a * Pow(a, 0) && Pow(b, 1) == b * Pow(b, 0);
    } else {
      PowBaseStrict(a, b, e - 1);
      MulStrict(a, b, Pow(a, e - 1), Pow(b, e - 1));
    }
  }

  lemma PowRoot(x: nat, y: nat, p: nat)
    requires p > 0 && Pow(x, p) <= Pow(y, p)
    ensures x <= y
  {
    if y < x {
      PowBaseStrict(y, x, p);
    }
  }

  lemma PowSwap(b: nat, m: nat, n: nat)
    ensures Pow(Pow(b, m), n) == Pow(Pow(b, n), m)
  {
    PowPow(b, m, n);
    PowPow(b, n, m);
    MulCommute(m, n);
  }

  lemma PowExponent(b: nat, m: nat, n: nat)
    requires b > 0 && m <= n
    ensures Pow(b, m) <= Pow(b, n)
  {
    PowAdd(b, n - m, m);
    PowPositive(b, n - m);
    MulAtLeast(Pow(b, n - m), Pow(b, m));
  }

  lemma PowUpper(a: nat, p: nat, b: nat, q: nat, n: nat, e: nat)
    requires Pow(a, p) <= Pow(b, q) && e == q * n
    ensures Pow(Pow(a, n), p) <= Pow(b, e)
  {
    PowSwap(a, n, p);
    PowBase(Pow(a, p), Pow(b, q), n);
    PowPow(b, q, n);
  }

  lemma PowLower(b: nat, k: nat, p: nat, e: nat, f: nat)
    requires b > 0 && e <= f && f == k * p
    ensures Pow(b, e) <= Pow(Pow(b, k), p)
  {
    PowExponent(b, e, f);
    PowPow(b, k, p);
  }

  /** One comparison of powers decides about all exponents in at most the same proportion. */
  lemma PowCompare(a: nat, p: nat, b: nat, q: nat, n: nat, k: nat, e: nat, f: nat)
    requires p > 0 && b > 0 && Pow(a, p) <= Pow(b, q) && e == q * n && f == k * p && e <= f
    ensures Pow(a, n) <= Pow(b, k)
  {
    PowUpper(a, p, b, q, n, e);
    PowLower(b, k, p, e, f);
    PowRoot(Pow(a, n), Pow(b, k), p);
  }
}
