/**
 Bitwise operations on natural numbers.  A shift left doubles, a shift right halves, and a number is what a shift
 right leaves and the bits shifted out; cutting to k bits is taking the number modulo 2^k.
 */
module Bits {

  function And(a: nat, b: nat): nat {
    if a == 0 || b == 0 then 0 else 2 * And(a / 2, b / 2) + (if a % 2 == 1 && b % 2 == 1 then 1 else 0)
  }

  lemma {:induction false} AndAtMost(a: nat, b: nat)
    ensures And(a, b) <= a && And(a, b) <= b
  {
    if a != 0 && b != 0 {
      AndAtMost(a / 2, b / 2);
    }
  }

  function Or(a: nat, b: nat): nat {
    if a == 0 then b else if b == 0 then a
    else 2 * Or(a / 2, b / 2) + (if a % 2 == 1 || b % 2 == 1 then 1 else 0)
  }

  function Pow2(k: nat): (r: nat)
    ensures r >= 1
  {
    if k == 0 then 1 else 2 * Pow2(k - 1)
  }

  lemma {:induction false} Pow2Monotone(a: nat, b: nat)
    requires a <= b
    ensures Pow2(a) <= Pow2(b)
  {
    if a < b {
      Pow2Monotone(a, b - 1);
    }
  }

  // ------------------------------------------------------------------ shifts

  function Shl(x: nat, k: nat): nat { if k == 0 then x else 2 * Shl(x, k - 1) }

  function Shr(x: nat, k: nat): nat { if k == 0 then x else Shr(x, k - 1) / 2 }

  /** The lowest k bits. */
  function LowBits(x: nat, k: nat): nat { if k == 0 then 0 else LowBits(x, k - 1) + Shl(Shr(x, k - 1) % 2, k - 1) }

  lemma {:induction false} ShlSum(x: nat, y: nat, k: nat)
    ensures Shl(x + y, k) == Shl(x, k) + Shl(y, k)
  {
    if k > 0 {
      ShlSum(x, y, k - 1);
    }
  }

  lemma {:induction false} ShlShl(x: nat, j: nat, k: nat)
    ensures Shl(Shl(x, j), k) == Shl(x, j + k)
  {
    if k > 0 {
      ShlShl(x, j, k - 1);
    }
  }

  lemma {:induction false} ShlMonotone(x: nat, y: nat, k: nat)
    requires x <= y
    ensures Shl(x, k) <= Shl(y, k)
    ensures x < y ==> Shl(x, k) < Shl(y, k)
  {
    if k > 0 {
      ShlMonotone(x, y, k - 1);
    }
  }

  lemma {:induction false} ShlZero(k: nat)
    ensures Shl(0, k) == 0
  {
    if k > 0 {
      ShlZero(k - 1);
    }
  }

  lemma {:induction false} ShlIsTimes(x: nat, k: nat)
    ensures Shl(x, k) == x * Pow2(k)
  {
    if k > 0 {
      ShlIsTimes(x, k - 1);
    }
  }

  lemma {:induction false} Pow2IsShl(k: nat)
    ensures Pow2(k) == Shl(1, k)
  {
    if k > 0 {
      Pow2IsShl(k - 1);
    }
  }

  lemma {:induction false} ShrSplit(x: nat, k: nat)
    ensures x == Shl(Shr(x, k), k) + LowBits(x, k) && LowBits(x, k) < Shl(1, k)
  {
    if k > 0 {
      ShrSplit(x, k - 1);
      var h := Shr(x, k - 1);
      assert h == h / 2 + h / 2 + h % 2;
      ShlSum(h / 2, h / 2, k - 1);
      ShlSum(h / 2 + h / 2, h % 2, k - 1);
      ShlMonotone(h % 2, 1, k - 1);
    }
  }

  /** A number is split in only one way. */
  lemma SplitUnique(x: nat, k: nat, q: nat, r: nat)
    requires x == Shl(q, k) + r && r < Shl(1, k)
    ensures Shr(x, k) == q && LowBits(x, k) == r
  {
    ShrSplit(x, k);
    var h := Shr(x, k);
    if h < q {
      ShlSum(h, 1, k);
      ShlMonotone(h + 1, q, k);
    } else if q < h {
      ShlSum(q, 1, k);
      ShlMonotone(q + 1, h, k);
    }
  }

  lemma LowBitsSmall(x: nat, k: nat)
    requires x < Shl(1, k)
    ensures LowBits(x, k) == x && Shr(x, k) == 0
  {
    ShlZero(k);
    SplitUnique(x, k, 0, x);
  }

  lemma {:induction false} ShrShr(x: nat, j: nat, k: nat)
    ensures Shr(Shr(x, j), k) == Shr(x, j + k)
  {
    if k > 0 {
      ShrShr(x, j, k - 1);
    }
  }

  lemma {:induction false} OrCommutes(a: nat, b: nat)
    ensures Or(a, b) == Or(b, a)
  {
    if a != 0 && b != 0 {
      OrCommutes(a / 2, b / 2);
    }
  }

  /** Whether bit k is set. */
  predicate BitAt(x: nat, k: nat) { Shr(x, k) % 2 == 1 }

  /** r is how many bits a number has. */
  ghost predicate BitLength(x: nat, r: nat) {
    if x == 0 then r == 0 else r > 0 && Shl(1, r - 1) <= x < Shl(1, r)
  }

  /** The highest bit a number can have decides between its two halves. */
  lemma TopBit(x: nat, k: nat)
    requires x < Shl(1, k + 1)
    ensures BitAt(x, k) <==> x >= Shl(1, k)
  {
    ShrSplit(x, k);
    var q := Shr(x, k);
    ShlZero(k);
    if q >= 2 {
      ShlMonotone(2, q, k);
      ShlSum(1, 1, k);
    }
  }

  /** Setting bits above all the bits of a number adds them. */
  lemma {:induction false} OrDisjoint(a: nat, x: nat, k: nat)
    requires a < Shl(1, k)
    ensures Or(a, Shl(x, k)) == a + Shl(x, k)
  {
    if k > 0 {
      OrDisjoint(a / 2, x, k - 1);
    }
  }

  /** The bits below a place are not touched by what is set above it. */
  lemma {:induction false} OrAbove(a: nat, x: nat, y: nat, k: nat)
    requires a < Shl(1, k)
    ensures Or(a + Shl(x, k), Shl(y, k)) == a + Shl(Or(x, y), k)
  {
    if k > 0 {
      OrAbove(a / 2, x, y, k - 1);
      assert (a + Shl(x, k)) / 2 == a / 2 + Shl(x, k - 1);
    }
  }

  // --------------------------------------------------------------------- size

  /** The position of the highest bit. */
  function Log2(n: nat): nat
    requires n >= 1
  {
    if n == 1 then 0 else 1 + Log2(n / 2)
  }

  lemma {:induction false} Log2AtLeast(n: nat, k: nat)
    requires n >= 1 && Pow2(k) <= n
    ensures k <= Log2(n)
  {
    if k > 0 {
      Log2AtLeast(n / 2, k - 1);
    }
  }
}
