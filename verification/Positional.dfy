/**
 Numbers in positional notation, most significant digit first, and changing one in place by multiplying and adding.
 */
module Positional {
  import opened Folding
  import opened Nonlinear
  import opened Powers

  function Val(base: nat, s: seq<nat>): nat {
    if s == [] then 0 else Val(base, s[..|s| - 1]) * base + s[|s| - 1]
  }

  ghost predicate Digits(base: nat, s: seq<nat>) { forall i | 0 <= i < |s| :: s[i] < base }

  /** Written without leading zeros. */
  ghost predicate Trimmed(s: seq<nat>) { s == [] || s[0] != 0 }

  lemma ValAppend(base: nat, s: seq<nat>, d: nat)
    ensures Val(base, s + [d]) == Val(base, s) * base + d
  {
    assert (s + [d])[..|s|] == s;
  }

  lemma {:induction false} ValFront(base: nat, x: nat, s: seq<nat>)
    ensures Val(base, [x] + s) == x * Pow(base, |s|) + Val(base, s)
  {
    if s == [] {
      assert [x] + s == [] + [x];
      ValAppend(base, [], x);
    } else {
      var n := |s| - 1;
      var s', d := s[..n], s[n];
      ValFront(base, x, s');
      assert Val(base, [x] + s) == Val(base, [x] + s') * base + d by {
        assert [x] + s == [x] + s' + [d];
        ValAppend(base, [x] + s', d);
      }
      FrontStep(base, x, Pow(base, n), Val(base, s'), Val(base, [x] + s'));
    }
  }

  lemma FrontStep(base: int, x: int, p: int, v: int, w: int)
    requires w == x * p + v
    ensures w * base == x * (base * p) + v * base
  {
    MulSum(x * p, v, base);
    MulAssoc(x, p, base);
    MulCommute(p, base);
  }

  /** A number of n digits is below the n-th power of the base. */
  lemma {:induction false} ValBound(base: nat, s: seq<nat>)
    requires Digits(base, s)
    ensures Val(base, s) < Pow(base, |s|)
  {
    if s != [] {
      var n := |s| - 1;
      ValBound(base, s[..n]);
      MulMonotone(Val(base, s[..n]) + 1, Pow(base, n), base);
      MulSum(Val(base, s[..n]), 1, base);
      MulCommute(Pow(base, n), base);
    }
  }

  lemma {:induction false} ValZeros(base: nat, s: seq<nat>)
    requires forall i | 0 <= i < |s| :: s[i] == 0
    ensures Val(base, s) == 0
  {
    if s != [] {
      ValZeros(base, s[..|s| - 1]);
    }
  }

  /** Leading zeros do not count. */
  lemma {:induction false} ValSkipZeros(base: nat, s: seq<nat>, k: nat)
    requires k <= |s| && forall i | 0 <= i < k :: s[i] == 0
    ensures Val(base, s) == Val(base, s[k..])
    decreases |s|
  {
    if k == |s| {
      ValZeros(base, s);
    } else {
      var n := |s| - 1;
      ValSkipZeros(base, s[..n], k);
      assert s[k..][..n - k] == s[..n][k..];
    }
  }

  lemma {:induction false} ValPositive(base: nat, s: seq<nat>)
    requires base > 0 && s != [] && s[0] != 0
    ensures Val(base, s) > 0
  {
    if |s| > 1 {
      ValPositive(base, s[..|s| - 1]);
      MulAtLeast(Val(base, s[..|s| - 1]), base);
    }
  }

  /** A number has only one notation without leading zeros. */
  lemma {:induction false} NotationUnique(base: nat, s: seq<nat>, t: seq<nat>)
    requires base > 1 && Digits(base, s) && Digits(base, t) && Trimmed(s) && Trimmed(t) && Val(base, s) == Val(base, t)
    ensures s == t
  {
    if s == [] || t == [] {
      if s != [] {
        ValPositive(base, s);
      }
      if t != [] {
        ValPositive(base, t);
      }
    } else {
      var m, n := |s| - 1, |t| - 1;
      LastDigit(base, Val(base, s[..m]), s[m], Val(base, t[..n]), t[n]);
      NotationUnique(base, s[..m], t[..n]);
      assert s == s[..m] + [s[m]] && t == t[..n] + [t[n]];
    }
  }

  lemma LastDigit(base: int, v: int, d: int, w: int, e: int)
    requires 0 <= d < base && 0 <= e < base && v * base + d == w * base + e
    ensures v == w && d == e
  {
    ModUnique(v * base + d, base, v, d);
    ModUnique(w * base + e, base, w, e);
  }

  // ------------------------------------------------------------ multiply and add

  /** Quotient and remainder by one of the two bases in use. */
  function DivMod(base: nat, x: nat): (r: (nat, nat))
    requires base == 58 || base == 256
    ensures x == r.0 * base + r.1 && r.1 < base
  {
    if base == 58 then (x / 58, x % 58) else (x / 256, x % 256)
  }

  /** Multiplying was has reached its last i digits. */
  ghost predicate Reached(base: nat, mul: nat, add: nat, was: seq<nat>, i: nat, now: seq<nat>, carry: nat) {
    forall u | Unfold(u) ::
      && i <= |was| == |now| && now[..|now| - i] == was[..|was| - i] && Digits(base, now)
      && Val(base, now[|now| - i..]) + carry * Pow(base, i) == mul * Val(base, was[|was| - i..]) + add
  }

  lemma ReachedNone(base: nat, mul: nat, add: nat, was: seq<nat>)
    requires Digits(base, was)
    ensures Reached(base, mul, add, was, 0, was, add)
  {
    assert was[|was|..] == [];
  }

  lemma ReachedOn(base: nat, mul: nat, add: nat, was: seq<nat>, i: nat, now: seq<nat>, carry: nat, x: nat, carry': nat, low: nat)
    requires Reached(base, mul, add, was, i, now, carry) && i < |was| == |now| && low < base
    requires x == now[|now| - 1 - i] && carry + mul * x == carry' * base + low
    ensures Reached(base, mul, add, was, i + 1, now[|now| - 1 - i := low], carry')
  {
    assert Unfold(0);
    var k := |now| - 1 - i;
    var now' := now[k := low];
    var right, wright := now[k + 1..], was[k + 1..];
    assert now[..k + 1][k] == was[..k + 1][k];
    assert now'[..k] == was[..k] by {
      assert now'[..k] == now[..k + 1][..k] && was[..k] == was[..k + 1][..k];
    }
    assert now'[k..] == [low] + right && was[k..] == [x] + wright;
    ValFront(base, low, right);
    ValFront(base, x, wright);
    assert |right| == i && |wright| == i;
    StepArithmetic(base, mul, add, x, carry, carry', low, Pow(base, i), Val(base, right), Val(base, wright));
  }

  lemma StepArithmetic(base: int, mul: int, add: int, x: int, carry: int, carry': int, low: int, p: int, v: int, w: int)
    requires carry + mul * x == carry' * base + low && v + carry * p == mul * w + add
    ensures low * p + v + carry' * (base * p) == mul * (x * p + w) + add
  {
    calc {
      low * p + v + carry' * (base * p);
      { MulAssoc(carry', base, p); }
      low * p + v + carry' * base * p;
      { MulSum(carry' * base, low, p); }
      (carry' * base + low) * p + v;
      (carry + mul * x) * p + v;
      { MulSum(carry, mul * x, p); MulAssoc(mul, x, p); }
      carry * p + mul * (x * p) + v;
      mul * (x * p) + mul * w + add;
      { MulCommute(mul, x * p + w); MulSum(x * p, w, mul); MulCommute(x * p, mul); MulCommute(w, mul); }
      mul * (x * p + w) + add;
    }
  }

  /** Stopping: nothing is left to carry, and only zeros lie further left, or there is no room for more. */
  lemma ReachedEnd(base: nat, mul: nat, add: nat, was: seq<nat>, i: nat, now: seq<nat>, carry: nat)
    requires Reached(base, mul, add, was, i, now, carry) && i <= |was| == |now|
    requires i == |was| || (carry == 0 && forall j | 0 <= j < |was| - i :: was[j] == 0)
    requires mul * Val(base, was) + add < Pow(base, |was|)
    ensures carry == 0 && Val(base, now) == mul * Val(base, was) + add && Digits(base, now)
    ensures forall j | 0 <= j < |now| - i :: now[j] == was[j]
  {
    assert Unfold(0);
    var k := |now| - i;
    SamePrefix(was, now, k);
    if i == |was| {
      assert now[0..] == now && was[0..] == was;
      NoCarry(Val(base, now), carry, Pow(base, i));
    } else {
      ValSkipZeros(base, was, k);
      ValSkipZeros(base, now, k);
    }
  }

  lemma SamePrefix(a: seq<nat>, b: seq<nat>, k: nat)
    requires k <= |a| && k <= |b| && a[..k] == b[..k]
    ensures forall j | 0 <= j < k :: a[j] == b[j]
  {
    forall j | 0 <= j < k ensures a[j] == b[j] {
      assert a[..k][j] == b[..k][j];
    }
  }

  lemma NoCarry(v: nat, carry: nat, p: nat)
    requires v + carry * p < p
    ensures carry == 0
  {
    if carry > 0 {
      MulAtLeast(carry, p);
    }
  }

  /** The inner loop of both conversions: b = b * mul + add, in place; length digits are in use before, and the result
      says how many are after. */
  method MultiplyAdd(b: array<nat>, base: nat, mul: nat, add: nat, length: nat) returns (used: nat)
    requires base == 58 || base == 256
    requires Digits(base, b[..]) && length <= b.Length && forall j | 0 <= j < b.Length - length :: b[j] == 0
    requires mul * Val(base, b[..]) + add < Pow(base, b.Length)
    modifies b
    ensures Digits(base, b[..]) && Val(base, b[..]) == mul * old(Val(base, b[..])) + add
    ensures used <= b.Length && forall j | 0 <= j < b.Length - used :: b[j] == 0
  {
    ghost var was := b[..];
    var carry;
    used, carry := MultiplyLoop(b, base, mul, add, length);
    ReachedEnd(base, mul, add, was, used, b[..], carry);
    assert carry == 0;
  }

  method MultiplyLoop(b: array<nat>, base: nat, mul: nat, add: nat, length: nat) returns (used: nat, carry: nat)
    requires base == 58 || base == 256
    requires Digits(base, b[..]) && length <= b.Length
    modifies b
    ensures used <= b.Length && Reached(base, mul, add, old(b[..]), used, b[..], carry)
    ensures used == b.Length || (carry == 0 && used >= length)
  {
    ghost var was := b[..];
    carry := add;
    used := 0;
    ReachedNone(base, mul, add, was);
    while (carry != 0 || used < length) && used < b.Length
      invariant 0 <= used <= b.Length && Reached(base, mul, add, was, used, b[..], carry)
      decreases b.Length - used
    {
      ghost var now := b[..];
      var x := b[b.Length - 1 - used];
      var qr := DivMod(base, carry + mul * x);
      ReachedOn(base, mul, add, was, used, now, carry, x, qr.0, qr.1);
      b[b.Length - 1 - used] := qr.1;
      carry := qr.0;
      assert b[..] == now[b.Length - 1 - used := qr.1];
      used := used + 1;
    }
  }
}
