/**
 Shifts of limb sequences, on values: the low and high parts of each shifted limb, and what they make together.
 */
module LimbShift {
  import opened Bits
  import opened Limbs

  /** The bits of a limb that stay in place after a left shift, cut to 32 bits, and those that leave it. */
  function Low(x: Limb, s: nat): (r: Limb) {
    ShlBase(1);
    ShrSplit(Shl(x, s), 32);
    LowBits(Shl(x, s), 32)
  }

  function High(x: Limb, s: nat): nat
    requires s <= 32
  {
    Shr(x, 32 - s)
  }

  /** The parts together are the shifted limb; the low part ends in zeros, the high part fits in the bits that come
      free. */
  lemma Parts(x: Limb, s: nat)
    requires s <= 32
    ensures Low(x, s) == Shl(LowBits(x, 32 - s), s)
    ensures Shl(x, s) == BASE * High(x, s) + Low(x, s)
    ensures High(x, s) < Shl(1, s) && Low(x, s) + Shl(1, s) <= BASE
  {
    var u := 32 - s;
    var q, r := Shr(x, u), LowBits(x, u);
    ShrSplit(x, u);
    ShlBase(1);
    ShlShl(1, u, s);
    ShlShl(1, s, u);
    assert Shl(x, s) == Shl(q, 32) + Shl(r, s) by {
      ShlSum(Shl(q, u), r, s);
      ShlShl(q, u, s);
    }
    assert Shl(r, s) + Shl(1, s) <= BASE by {
      ShlSum(r, 1, s);
      ShlMonotone(r + 1, Shl(1, u), s);
    }
    ShlOnePositive(s);
    SplitUnique(Shl(x, s), 32, q, Shl(r, s));
    ShlBase(q);
    if q >= Shl(1, s) {
      ShlMonotone(Shl(1, s), q, u);
    }
  }

  lemma ShlOnePositive(s: nat)
    ensures Shl(1, s) > 0
  {
    ShlZero(s);
    ShlMonotone(0, 1, s);
  }

  // --------------------------------------------------------------- left shift

  function LeftLimb(a: seq<Limb>, s: nat, j: nat): nat
    requires s < 32 && j < |a|
  {
    Low(a[j], s) + if j == 0 then 0 else High(a[j - 1], s)
  }

  /** The limbs of a left shift by less than a limb. */
  ghost predicate ShiftedLeft(a: seq<Limb>, r: seq<Limb>, s: nat)
    requires s < 32
  {
    |r| == |a| && forall j | 0 <= j < |r| :: r[j] == LeftLimb(a, s, j)
  }

  lemma {:induction false} LeftValue(a: seq<Limb>, r: seq<Limb>, s: nat)
    requires s < 32 && ShiftedLeft(a, r, s)
    ensures Value(r) + Shl(if a == [] then 0 else High(a[|a| - 1], s), 32 * |a|) == Shl(Value(a), s)
  {
    if a == [] {
      ShlZero(s);
    } else {
      var m := |a| - 1;
      var a', x, r', y := a[..m], a[m], r[..m], r[m];
      forall j | 0 <= j < m ensures r'[j] == LeftLimb(a', s, j) {
        assert r[j] == LeftLimb(a, s, j);
      }
      assert y == LeftLimb(a, s, m);
      LeftValue(a', r', s);
      var carry := if m == 0 then 0 else High(a[m - 1], s);
      LeftStep(Value(a'), Value(r'), x, y, carry, s, m);
    }
  }

  lemma LeftStep(a: nat, r: nat, x: Limb, y: nat, carry: nat, s: nat, m: nat)
    requires s < 32 && r + Shl(carry, 32 * m) == Shl(a, s) && y == Low(x, s) + carry
    ensures r + Shl(y, 32 * m) + Shl(High(x, s), 32 * (m + 1)) == Shl(a + Shl(x, 32 * m), s)
  {
    var low, high := Low(x, s), High(x, s);
    assert Shl(x, s) == BASE * high + low by {
      Parts(x, s);
    }
    assert Shl(high, 32 * (m + 1)) == Shl(BASE * high, 32 * m) by {
      ShlLimb(high, m);
      ShlScale(high, 32 * m);
    }
    ShlSum(low, carry, 32 * m);
    ShlSum(BASE * high, low, 32 * m);
    ShlShl(x, s, 32 * m);
    ShlShl(x, 32 * m, s);
    ShlSum(a, Shl(x, 32 * m), s);
  }

  /** Shifting left by whole limbs and bits, keeping the length, modulo 2^(32 n). */
  lemma LeftAllValue(a: seq<Limb>, r: seq<Limb>, k: nat, s: nat)
    requires s < 32 && k <= |a| && ShiftedLeft(a[..|a| - k], r, s)
    ensures Value(Zeros(k) + r) == LowBits(Shl(Value(a), 32 * k + s), 32 * |a|)
  {
    var n := |a| - k;
    var low, high := Value(a[..n]), Value(a[n..]);
    var out := if n == 0 then 0 else High(a[n - 1], s);
    assert Value(r) + Shl(out, 32 * n) == Shl(low, s) by {
      LeftValue(a[..n], r, s);
    }
    ShiftApart(low, high, Value(r), out, 32 * n, 32 * k, s);
    ZerosBelow(r, k);
    SplitAt(a, n);
    Wrapped(Zeros(k) + r, out + Shl(high, s), Shl(Value(a), 32 * k + s));
  }

  lemma ZerosBelow(r: seq<Limb>, k: nat)
    ensures Value(Zeros(k) + r) == Shl(Value(r), 32 * k)
  {
    ValueZeros(k);
    ValueConcat(Zeros(k), r);
  }

  lemma ZerosAbove(r: seq<Limb>, k: nat)
    ensures Value(r + Zeros(k)) == Value(r)
  {
    ValueConcat(r, Zeros(k));
    ValueZeros(k);
    ShlZero(32 * |r|);
  }

  lemma SplitAt(a: seq<Limb>, n: nat)
    requires n <= |a|
    ensures Value(a) == Value(a[..n]) + Shl(Value(a[n..]), 32 * n)
  {
    assert a == a[..n] + a[n..];
    ValueConcat(a[..n], a[n..]);
  }

  lemma ShiftApart(low: nat, high: nat, r: nat, out: nat, n: nat, k: nat, s: nat)
    requires r + Shl(out, n) == Shl(low, s)
    ensures Shl(low + Shl(high, n), k + s) == Shl(out + Shl(high, s), n + k) + Shl(r, k)
  {
    ShlSum(low, Shl(high, n), k + s);
    ShlShl(low, s, k);
    ShlSum(r, Shl(out, n), k);
    ShlShl(out, n, k);
    ShlShl(high, n, k + s);
    ShlShl(high, s, n + k);
    ShlSum(out, Shl(high, s), n + k);
  }

  /** Shifting by the whole width leaves nothing. */
  lemma LeftOut(v: nat, n: nat, k: nat)
    requires k >= n
    ensures LowBits(Shl(v, k), n) == 0
  {
    ShlShl(v, k - n, n);
    ShlOnePositive(n);
    SplitUnique(Shl(v, k), n, Shl(v, k - n), 0);
  }

  // -------------------------------------------------------------- right shift

  lemma RightLimbFits(x: Limb, next: Limb, s: nat)
    requires s < 32
    ensures Shr(x, s) < Shl(1, 32 - s)
    ensures Low(next, 32 - s) == Shl(LowBits(next, s), 32 - s) && Low(next, 32 - s) + Shl(1, 32 - s) <= BASE
  {
    var u := 32 - s;
    assert 32 - u == s;
    Parts(next, u);
    Parts(x, u);
  }

  function RightLimb(a: seq<Limb>, next: Limb, s: nat, j: nat): nat
    requires s < 32 && j < |a|
  {
    Shr(a[j], s) + Low(if j + 1 < |a| then a[j + 1] else next, 32 - s)
  }

  /** The limbs of a right shift by less than a limb, with a further limb above them. */
  ghost predicate ShiftedRight(a: seq<Limb>, next: Limb, r: seq<Limb>, s: nat)
    requires s < 32
  {
    |r| == |a| && forall j | 0 <= j < |r| :: r[j] == RightLimb(a, next, s, j)
  }

  /** What is shifted out is the rest of the lowest limb. */
  lemma {:induction false} RightValue(a: seq<Limb>, next: Limb, r: seq<Limb>, s: nat)
    requires s < 32 && ShiftedRight(a, next, r, s)
    ensures Value(a) + Shl(LowBits(next, s), 32 * |a|) == Shl(Value(r), s) + LowBits(if a == [] then next else a[0], s)
  {
    if a == [] {
      ShlZero(s);
    } else {
      var m := |a| - 1;
      var a', x, r', y := a[..m], a[m], r[..m], r[m];
      forall j | 0 <= j < m ensures r'[j] == RightLimb(a', x, s, j) {
        assert r[j] == RightLimb(a, next, s, j);
      }
      assert y == RightLimb(a, next, s, m);
      RightValue(a', x, r', s);
      RightStep(Value(a'), Value(r'), x, next, y, LowBits(a[0], s), s, m);
    }
  }

  lemma RightStep(a: nat, r: nat, x: Limb, next: Limb, y: nat, first: nat, s: nat, m: nat)
    requires s < 32 && a + Shl(LowBits(x, s), 32 * m) == Shl(r, s) + first && y == Shr(x, s) + Low(next, 32 - s)
    ensures a + Shl(x, 32 * m) + Shl(LowBits(next, s), 32 * (m + 1)) == Shl(r + Shl(y, 32 * m), s) + first
  {
    var q, e, l, z := Shr(x, s), LowBits(x, s), LowBits(next, s), Low(next, 32 - s);
    assert Shl(x, 32 * m) == Shl(Shl(q, s), 32 * m) + Shl(e, 32 * m) by {
      ShrSplit(x, s);
      ShlSum(Shl(q, s), e, 32 * m);
    }
    assert Shl(z, s) == BASE * l by {
      RightLimbFits(x, next, s);
      ShlShl(l, 32 - s, s);
      ShlBase(l);
    }
    assert Shl(l, 32 * (m + 1)) == Shl(BASE * l, 32 * m) by {
      ShlLimb(l, m);
      ShlScale(l, 32 * m);
    }
    assert Shl(Shl(y, 32 * m), s) == Shl(Shl(q, s), 32 * m) + Shl(Shl(z, s), 32 * m) by {
      ShlShl(y, 32 * m, s);
      ShlShl(y, s, 32 * m);
      ShlSum(q, z, s);
      ShlSum(Shl(q, s), Shl(z, s), 32 * m);
    }
    ShlSum(r, Shl(y, 32 * m), s);
  }

  /** Shifting right by whole limbs and bits, keeping the length. */
  lemma RightAllValue(a: seq<Limb>, r: seq<Limb>, k: nat, s: nat)
    requires s < 32 && k < |a| && ShiftedRight(a[k..], 0, r, s)
    ensures Value(r + Zeros(k)) == Shr(Value(a), 32 * k + s)
  {
    var low, high := Value(a[..k]), Value(a[k..]);
    SplitAt(a, k);
    ZerosAbove(r, k);
    assert low < Shl(1, 32 * k) by {
      ValueBound(a[..k]);
    }
    var rest := LowBits(a[k], s);
    assert high == Shl(Value(r), s) + rest by {
      RightValue(a[k..], 0, r, s);
      ShlOnePositive(s);
      LowBitsSmall(0, s);
      ShlZero(32 * (|a| - k));
    }
    ShrSplit(a[k], s);
    Dropped(low, 32 * k, rest, s, Value(r), high);
  }

  lemma Dropped(low: nat, k: nat, rest: nat, s: nat, r: nat, high: nat)
    requires low < Shl(1, k) && rest < Shl(1, s) && high == Shl(r, s) + rest
    ensures Shr(low + Shl(high, k), k + s) == r
  {
    ShlSum(Shl(r, s), rest, k);
    ShlShl(r, s, k);
    ShlSum(rest, 1, k);
    ShlMonotone(rest + 1, Shl(1, s), k);
    ShlShl(1, s, k);
    SplitUnique(low + Shl(high, k), k + s, r, low + Shl(rest, k));
  }

  lemma {:induction false} ShlAtLeast(x: nat, k: nat)
    ensures Shl(x, k) >= x
  {
    if k > 0 {
      ShlAtLeast(x, k - 1);
    }
  }

  /** Shifting right by the whole width leaves nothing. */
  lemma RightOut(v: nat, n: nat, k: nat)
    requires v < Shl(1, n) && k >= n
    ensures Shr(v, k) == 0
  {
    ShlShl(1, n, k - n);
    ShlAtLeast(Shl(1, n), k - n);
    LowBitsSmall(v, k);
  }

  // -------------------------------------------------------------------- loops

  /** Limb m of the target after i limbs have been shifted into place. */
  function LeftSoFar(a: seq<Limb>, k: nat, s: nat, i: nat, m: nat): nat
    requires s < 32 && i <= |a|
  {
    if m < k || m > k + i then 0
    else if m == k + i then if i == 0 then 0 else High(a[i - 1], s)
    else LeftLimb(a, s, m - k)
  }

  /** Shifting in one more limb changes two. */
  lemma LeftOn(a: seq<Limb>, k: nat, s: nat, i: nat)
    requires s < 32 && i < |a|
    ensures LeftSoFar(a, k, s, i, k + i) == if i == 0 then 0 else High(a[i - 1], s)
    ensures LeftSoFar(a, k, s, i + 1, k + i) == LeftLimb(a, s, i)
    ensures LeftSoFar(a, k, s, i, k + i + 1) == 0 && LeftSoFar(a, k, s, i + 1, k + i + 1) == High(a[i], s)
    ensures forall m: nat | m != k + i && m != k + i + 1 :: LeftSoFar(a, k, s, i + 1, m) == LeftSoFar(a, k, s, i, m)
  {
  }

  /** The two parts that meet in a limb have no bit in common. */
  lemma LeftMeets(a: seq<Limb>, s: nat, i: nat)
    requires s < 32 && i < |a|
    ensures var part := if i == 0 then 0 else High(a[i - 1], s); Or(part, Low(a[i], s)) == LeftLimb(a, s, i) < BASE
  {
    Parts(a[i], s);
    ShlOnePositive(s);
    if i > 0 {
      Parts(a[i - 1], s);
    }
    OrDisjoint(if i == 0 then 0 else High(a[i - 1], s), LowBits(a[i], 32 - s), s);
  }

  lemma HighFits(x: Limb, s: nat)
    requires s < 32
    ensures High(x, s) < BASE && (s == 0 ==> High(x, s) == 0)
  {
    Parts(x, s);
    ShlBase(1);
    ShlShl(1, s, 32 - s);
    ShlAtLeast(Shl(1, s), 32 - s);
  }

  lemma LeftDone(a: seq<Limb>, now: seq<Limb>, k: nat, s: nat)
    requires s < 32 && |now| == |a| && forall m | 0 <= m < |a| :: now[m] == LeftSoFar(a, k, s, |a|, m)
    ensures Value(now) == LowBits(Shl(Value(a), 32 * k + s), 32 * |a|)
  {
    if k >= |a| {
      assert now == Zeros(|a|);
      ValueZeros(|a|);
      LeftOut(Value(a), 32 * |a|, 32 * k + s);
    } else {
      var n := |a| - k;
      var r := now[k..];
      forall j | 0 <= j < n ensures r[j] == LeftLimb(a[..n], s, j) {
        assert now[k + j] == LeftSoFar(a, k, s, |a|, k + j);
      }
      assert now == Zeros(k) + r;
      LeftAllValue(a, r, k, s);
    }
  }

  function RightSoFar(a: seq<Limb>, k: nat, s: nat, i: nat, m: nat): nat
    requires s < 32 && i <= |a|
  {
    if m + k >= i then 0
    else if m + k + 1 == i then Shr(a[m + k], s)
    else RightLimb(a, 0, s, m + k)
  }

  lemma RightOn(a: seq<Limb>, k: nat, s: nat, i: nat)
    requires s < 32 && i < |a|
    ensures i >= k ==> RightSoFar(a, k, s, i, i - k) == 0 && RightSoFar(a, k, s, i + 1, i - k) == Shr(a[i], s)
    ensures i >= k + 1 ==> RightSoFar(a, k, s, i, i - k - 1) == Shr(a[i - 1], s) &&
                           RightSoFar(a, k, s, i + 1, i - k - 1) == RightLimb(a, 0, s, i - 1)
    ensures forall m: nat | m + k != i && m + k + 1 != i :: RightSoFar(a, k, s, i + 1, m) == RightSoFar(a, k, s, i, m)
  {
  }

  lemma RightMeets(a: seq<Limb>, s: nat, i: nat)
    requires s < 32 && 0 < i < |a|
    ensures Or(Shr(a[i - 1], s), Low(a[i], 32 - s)) == RightLimb(a, 0, s, i - 1) < BASE
  {
    RightLimbFits(a[i - 1], a[i], s);
    OrDisjoint(Shr(a[i - 1], s), LowBits(a[i], s), 32 - s);
  }

  lemma ShrFits(x: nat, s: nat)
    ensures Shr(x, s) <= x
  {
    if s > 0 {
      ShrFits(x, s - 1);
    }
  }

  /** A limb shifted out whole leaves nothing below it. */
  lemma LowOfWhole(x: Limb)
    ensures Low(x, 32) == 0
  {
    Parts(x, 32);
    ShlZero(32);
  }

  lemma RightDone(a: seq<Limb>, now: seq<Limb>, k: nat, s: nat)
    requires s < 32 && |now| == |a| && forall m | 0 <= m < |a| :: now[m] == RightSoFar(a, k, s, |a|, m)
    ensures Value(now) == Shr(Value(a), 32 * k + s)
  {
    if k >= |a| {
      assert now == Zeros(|a|);
      ValueZeros(|a|);
      ValueBound(a);
      RightOut(Value(a), 32 * |a|, 32 * k + s);
    } else {
      var n := |a| - k;
      var r := now[..n];
      LowZero(32 - s);
      forall j | 0 <= j < n ensures r[j] == RightLimb(a[k..], 0, s, j) {
        assert now[j] == RightSoFar(a, k, s, |a|, j);
      }
      assert now == r + Zeros(k);
      RightAllValue(a, r, k, s);
    }
  }

  lemma LowZero(s: nat)
    ensures Low(0, s) == 0
  {
    ShlZero(s);
    ShlOnePositive(32);
    LowBitsSmall(0, 32);
  }
}
