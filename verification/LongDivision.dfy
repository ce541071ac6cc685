/**
 The arithmetic of shift-and-subtract division, on natural numbers.
 */
module LongDivision {
  import opened Bits
  import opened Folding
  import opened Limbs
  import opened Nonlinear

  /** Aligned with the number to divide, the divisor has as many bits, and twice the divisor is more. */
  lemma Align(n: nat, d: nat, nBits: nat, dBits: nat)
    requires BitLength(n, nBits) && BitLength(d, dBits) && 0 < dBits <= nBits
    ensures Shl(d, nBits - dBits) < Shl(1, nBits)
    ensures n < Shl(d, nBits - dBits + 1)
  {
    var shift := nBits - dBits;
    ShlMonotone(d, Shl(1, dBits), shift);
    ShlShl(1, dBits, shift);
    ShlMonotone(Shl(1, dBits - 1), d, shift + 1);
    ShlShl(1, dBits - 1, shift + 1);
  }

  /** Halfway through: num is what is left of n, quotient the bits found, all of them from place on. */
  ghost predicate Dividing(n: nat, d: nat, place: nat, num: nat, quotient: nat, found: nat) {
    forall u | Unfold(u) :: num + quotient * d == n && num < Shl(d, place) && quotient == Shl(found, place)
  }

  /** The quotient of n by d, rounded down. */
  ghost predicate IsQuotient(q: nat, n: nat, d: nat) { q * d <= n < q * d + d }

  lemma DivideStarts(n: nat, d: nat, place: nat)
    requires n < Shl(d, place)
    ensures Dividing(n, d, place, n, 0, 0)
  {
    ShlZero(place);
  }

  lemma DivideEnds(n: nat, d: nat, num: nat, quotient: nat, found: nat)
    requires Dividing(n, d, 0, num, quotient, found)
    ensures IsQuotient(quotient, n, d)
  {
    assert Unfold(0);
  }

  lemma ShlDouble(x: nat, k: nat)
    ensures Shl(2 * x, k) == Shl(x, k + 1)
  {
    ShlSum(x, x, k);
  }

  /** Where the divisor still fits, it is taken away and a bit is set. */
  lemma TakeAway(n: nat, d: nat, place: nat, num: nat, quotient: nat, found: nat)
    requires Dividing(n, d, place + 1, num, quotient, found) && num >= Shl(d, place)
    ensures Dividing(n, d, place, num - Shl(d, place), quotient + Shl(1, place), 2 * found + 1)
  {
    assert Unfold(0);
    ShlDouble(found, place);
    ShlSum(2 * found, 1, place);
    ShlTimes(d, 1, place);
    MulCommute(d, Shl(1, place));
    MulSum(quotient, Shl(1, place), d);
  }

  lemma PassBy(n: nat, d: nat, place: nat, num: nat, quotient: nat, found: nat)
    requires Dividing(n, d, place + 1, num, quotient, found) && num < Shl(d, place)
    ensures Dividing(n, d, place, num, quotient, 2 * found)
  {
    assert Unfold(0);
    ShlDouble(found, place);
  }

  lemma EndsInZeros(n: nat, d: nat, place: nat, num: nat, quotient: nat, found: nat)
    requires Dividing(n, d, place, num, quotient, found)
    ensures quotient == Shl(found, place)
  {
    assert Unfold(0);
  }

  // ---------------------------------------------------------- setting one bit

  lemma {:induction false} ShlOneGrows(k: nat)
    ensures 0 < Shl(1, k) < Shl(1, k + 1)
  {
    if k > 0 {
      ShlOneGrows(k - 1);
    }
  }

  /** A limb of a number that ends in zeros up to bit k of that limb ends in them too. */
  lemma LimbEndsInZeros(low: nat, x: nat, high: nat, found: nat, p: nat, k: nat)
    requires k < 32 && low < Shl(1, p) && x < BASE
    requires low + Shl(x, p) + Shl(high, p + 32) == Shl(found, p + k + 1)
    ensures x == Shl(LowBits(found, 31 - k), k + 1)
  {
    var h := x + Shl(high, 32);
    ShlSum(x, Shl(high, 32), p);
    ShlShl(high, 32, p);
    ShlShl(found, k + 1, p);
    ShlOneGrows(p);
    SplitUnique(Shl(found, p + k + 1), p, h, low);
    SplitUnique(Shl(found, p + k + 1), p, Shl(found, k + 1), 0);
    var q, y := Shr(found, 31 - k), LowBits(found, 31 - k);
    ShrSplit(found, 31 - k);
    ShlSum(Shl(q, 31 - k), y, k + 1);
    ShlShl(q, 31 - k, k + 1);
    BelowBase(y, k);
    ShlBase(1);
    SplitUnique(h, 32, high, x);
    SplitUnique(h, 32, q, Shl(y, k + 1));
  }

  lemma BelowBase(y: nat, k: nat)
    requires k < 32 && y < Shl(1, 31 - k)
    ensures Shl(y, k + 1) + Shl(1, k + 1) <= BASE && Shl(y, k + 1) < BASE
  {
    ShlBase(1);
    ShlSum(y, 1, k + 1);
    ShlMonotone(y + 1, Shl(1, 31 - k), k + 1);
    ShlShl(1, 31 - k, k + 1);
    ShlOneGrows(k + 1);
  }

  /** Setting bit k of such a limb adds its weight. */
  lemma SetsBit(x: nat, y: nat, k: nat)
    requires k < 32 && y < Shl(1, 31 - k) && x == Shl(y, k + 1)
    ensures Or(x, Shl(1, k)) == x + Shl(1, k) < BASE
  {
    ShlOneGrows(k);
    OrCommutes(x, Shl(1, k));
    OrDisjoint(Shl(1, k), y, k + 1);
    BelowBase(y, k);
  }

  /** Setting a bit of a number that ends in zeros up to that bit. */
  lemma SetBitValue(low: seq<Limb>, x: Limb, high: seq<Limb>, k: nat, found: nat)
    requires k < 32 && Value(low + [x] + high) == Shl(found, 32 * |low| + k + 1)
    ensures Or(x, Shl(1, k)) < BASE
    ensures Value(low + [Or(x, Shl(1, k))] + high) == Value(low + [x] + high) + Shl(1, 32 * |low| + k)
  {
    var p := 32 * |low|;
    ValueAt(low, x, high);
    ValueBound(low);
    LimbEndsInZeros(Value(low), x, Value(high), found, p, k);
    ShrSplit(found, 31 - k);
    SetsBit(x, LowBits(found, 31 - k), k);
    var y: Limb := Or(x, Shl(1, k));
    ValueAt(low, y, high);
    ShlSum(x, Shl(1, k), p);
    ShlShl(1, k, p);
  }
}
