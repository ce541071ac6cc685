/**
 Natural numbers as little-endian sequences of 32-bit limbs: what the carry loops of base_uint compute, on values.
 */
module Limbs {
  import opened Bits
  import opened Folding
  import opened Nonlinear

  const BASE := 0x1_0000_0000

  type Limb = x: nat | x < BASE

  /** The last limb counts most. */
  function Value(s: seq<Limb>): nat {
    if s == [] then 0 else Value(s[..|s| - 1]) + Shl(s[|s| - 1], 32 * (|s| - 1))
  }

  function Zeros(n: nat): (r: seq<Limb>)
    ensures |r| == n && forall i | 0 <= i < n :: r[i] == 0
  {
    seq(n, _ => 0)
  }

  lemma ShlBase(x: nat)
    ensures Shl(x, 32) == BASE * x
  {
    ShlByte(x);
    ShlByte(Shl(x, 8));
    ShlByte(Shl(x, 16));
    ShlByte(Shl(x, 24));
    ShlShl(x, 8, 8);
    ShlShl(x, 16, 8);
    ShlShl(x, 24, 8);
  }

  lemma ShlByte(x: nat)
    ensures Shl(x, 8) == 0x100 * x
  {
    assert Shl(x, 1) == 2 * x;
    assert Shl(x, 2) == 4 * x;
    assert Shl(x, 3) == 8 * x;
    assert Shl(x, 4) == 16 * x;
    assert Shl(x, 5) == 32 * x;
    assert Shl(x, 6) == 64 * x;
    assert Shl(x, 7) == 128 * x;
  }

  /** Shifting by one more limb. */
  lemma ShlLimb(x: nat, n: nat)
    ensures Shl(x, 32 * (n + 1)) == BASE * Shl(x, 32 * n)
  {
    ShlShl(x, 32 * n, 32);
    ShlBase(Shl(x, 32 * n));
  }

  lemma {:induction false} ShlScale(x: nat, k: nat)
    ensures Shl(BASE * x, k) == BASE * Shl(x, k)
  {
    if k > 0 {
      ShlScale(x, k - 1);
    }
  }

  lemma AppendLimb(s: seq<Limb>, x: Limb)
    ensures Value(s + [x]) == Value(s) + Shl(x, 32 * |s|)
  {
    assert (s + [x])[..|s|] == s;
  }

  /** n limbs hold the numbers below 2^(32 n). */
  lemma {:induction false} ValueBound(s: seq<Limb>)
    ensures Value(s) < Shl(1, 32 * |s|)
  {
    if s != [] {
      var n := |s| - 1;
      ValueBound(s[..n]);
      FullLimb(n, s[n], BASE - 1 - s[n]);
    }
  }

  lemma {:induction false} ValueZeros(n: nat)
    ensures Value(Zeros(n)) == 0
  {
    if n > 0 {
      assert Zeros(n)[..n - 1] == Zeros(n - 1);
      ValueZeros(n - 1);
      ShlZero(32 * (n - 1));
    }
  }

  lemma {:induction false} ValueConcat(s: seq<Limb>, t: seq<Limb>)
    ensures Value(s + t) == Value(s) + Shl(Value(t), 32 * |s|)
  {
    if t == [] {
      assert s + t == s;
      ShlZero(32 * |s|);
    } else {
      var t', x := t[..|t| - 1], t[|t| - 1];
      assert s + t == s + t' + [x];
      ValueConcat(s, t');
      AppendLimb(s + t', x);
      ShlSum(Value(t'), Shl(x, 32 * |t'|), 32 * |s|);
      ShlShl(x, 32 * |t'|, 32 * |s|);
    }
  }

  /** A limb and a carry into the next one make up what was added at their place. */
  lemma CarryOut(n: nat, i: nat)
    ensures Shl(n % BASE, 32 * i) + Shl(n / BASE, 32 * (i + 1)) == Shl(n, 32 * i)
  {
    ShlLimb(n / BASE, i);
    ShlScale(n / BASE, 32 * i);
    ShlSum(n % BASE, BASE * (n / BASE), 32 * i);
  }

  lemma {:induction false} ShlTimes(x: nat, y: nat, k: nat)
    ensures Shl(x * y, k) == x * Shl(y, k)
  {
    if k > 0 {
      ShlTimes(x, y, k - 1);
      MulSwap(2, x, Shl(y, k - 1));
    }
  }

  /** A wrapped value and its whole turns determine the value cut to the width. */
  lemma Wrapped(s: seq<Limb>, turns: nat, v: nat)
    requires Value(s) + Shl(turns, 32 * |s|) == v
    ensures Value(s) == LowBits(v, 32 * |s|)
  {
    ValueBound(s);
    SplitUnique(v, 32 * |s|, turns, Value(s));
  }

  // -------------------------------------------------- one limb of each operation

  /** Appending the low limb of what was added at a place, and carrying the rest. */
  lemma PutLimb(done: seq<Limb>, n: nat, low: Limb, carry: nat)
    requires low == n % BASE && carry == n / BASE
    ensures Value(done + [low]) + Shl(carry, 32 * (|done| + 1)) == Value(done) + Shl(n, 32 * |done|)
  {
    AppendLimb(done, low);
    CarryOut(n, |done|);
  }

  lemma AddStep(done: seq<Limb>, a: seq<Limb>, b: seq<Limb>, x: Limb, y: Limb, carry: nat, n: nat, low: Limb, carry': nat)
    requires |done| == |a| == |b| && Value(done) + Shl(carry, 32 * |done|) == Value(a) + Value(b)
    requires n == carry + x + y && low == n % BASE && carry' == n / BASE
    ensures Value(done + [low]) + Shl(carry', 32 * (|done| + 1)) == Value(a + [x]) + Value(b + [y])
  {
    AppendLimb(a, x);
    AppendLimb(b, y);
    var k := 32 * |done|;
    ShlSum(carry, x, k);
    ShlSum(carry + x, y, k);
    PutLimb(done, n, low, carry');
  }

  /** Complementing limb by limb. */
  lemma ComplementStep(done: seq<Limb>, a: seq<Limb>, x: Limb, y: Limb)
    requires |done| == |a| && Value(done) + Value(a) + 1 == Shl(1, 32 * |a|) && x + y == BASE - 1
    ensures Value(done + [y]) + Value(a + [x]) + 1 == Shl(1, 32 * (|a| + 1))
  {
    AppendLimb(done, y);
    AppendLimb(a, x);
    FullLimb(|a|, x, y);
  }

  lemma FullLimb(n: nat, x: nat, y: nat)
    requires x + y == BASE - 1
    ensures Shl(1, 32 * n) + Shl(x, 32 * n) + Shl(y, 32 * n) == Shl(1, 32 * (n + 1))
  {
    ShlSum(y, x, 32 * n);
    ShlSum(BASE - 1, 1, 32 * n);
    ShlLimb(1, n);
    ShlScale(1, 32 * n);
  }

  /** A number is its limbs below a place, the limb there, and those above. */
  lemma ValueAt(low: seq<Limb>, x: Limb, high: seq<Limb>)
    ensures Value(low + [x] + high) == Value(low) + Shl(x, 32 * |low|) + Shl(Value(high), 32 * (|low| + 1))
  {
    AppendLimb(low, x);
    ValueConcat(low + [x], high);
  }

  /** Incrementing a limb that does not wrap around, below which all limbs did. */
  lemma IncrementStop(a: seq<Limb>, done: seq<Limb>, x: Limb, y: Limb, high: seq<Limb>)
    requires |a| == |done| && Value(done) == 0 && Value(a) == Shl(1, 32 * |a|) - 1 && y as int == x as int + 1
    ensures Value(done + [y] + high) == Value(a + [x] + high) + 1
  {
    ValueAt(a, x, high);
    ValueAt(done, y, high);
    ShlSum(x, 1, 32 * |a|);
  }

  lemma IncrementPass(a: seq<Limb>, done: seq<Limb>, x: Limb, y: Limb)
    requires |a| == |done| && Value(done) == 0 && Value(a) == Shl(1, 32 * |a|) - 1 && x == BASE - 1 && y == 0
    ensures Value(done + [y]) == 0 && Value(a + [x]) == Shl(1, 32 * (|a| + 1)) - 1
  {
    AppendLimb(done, y);
    ShlZero(32 * |a|);
    AppendLimb(a, x);
    FullLimb(|a|, x, y);
  }

  lemma Whole<T>(s: seq<T>)
    ensures s[..|s|] == s
  {
  }

  lemma Around<T>(s: seq<T>, i: nat)
    requires i < |s|
    ensures s == s[..i] + [s[i]] + s[i + 1..] && s[..i + 1] == s[..i] + [s[i]]
  {
  }

  lemma AroundUpdate<T>(s: seq<T>, i: nat, x: T)
    requires i < |s|
    ensures s[i := x] == s[..i] + [x] + s[i + 1..] && s[i := x][..i + 1] == s[..i] + [x] && s[i := x][i + 1..] == s[i + 1..]
  {
  }

  lemma DropOne<T>(s: seq<T>, t: seq<T>, i: nat)
    requires i < |s| == |t| && s[i..] == t[i..]
    ensures s[i] == t[i] && s[i + 1..] == t[i + 1..]
  {
    assert s[i..][0] == t[i..][0] && s[i..][1..] == t[i..][1..];
  }

  /** Incrementing has passed the first i limbs of a, all of which wrapped around. */
  ghost predicate Passed(a: seq<Limb>, now: seq<Limb>, i: nat) {
    i <= |a| == |now| && Value(now[..i]) == 0 && Value(a[..i]) == Shl(1, 32 * i) - 1 && now[i..] == a[i..]
  }

  lemma PassOn(a: seq<Limb>, now: seq<Limb>, i: nat, y: Limb)
    requires Passed(a, now, i) && i < |a| && a[i] == BASE - 1 && y == 0
    ensures Passed(a, now[i := y], i + 1)
  {
    IncrementPass(a[..i], now[..i], a[i], y);
    Around(a, i);
    AroundUpdate(now, i, y);
    DropOne(a, now, i);
  }

  lemma StopHere(a: seq<Limb>, now: seq<Limb>, i: nat, y: Limb)
    requires Passed(a, now, i) && i < |a| && y as int == a[i] as int + 1
    ensures Value(now[i := y]) == Value(a) + 1
  {
    IncrementStop(a[..i], now[..i], a[i], y, a[i + 1..]);
    Around(a, i);
    AroundUpdate(now, i, y);
    DropOne(a, now, i);
  }

  lemma PassedAll(a: seq<Limb>, now: seq<Limb>)
    requires Passed(a, now, |a|)
    ensures Value(now) == 0 && Value(a) == Shl(1, 32 * |a|) - 1
  {
    assert now[..|a|] == now && a[..|a|] == a;
  }

  /** Multiplying by one limb. */
  lemma ScaleAppend(a: seq<Limb>, x: Limb, f: Limb)
    ensures f * Value(a + [x]) == f * Value(a) + Shl(f * x, 32 * |a|)
  {
    AppendLimb(a, x);
    ShlTimes(f, x, 32 * |a|);
    MulSum(Value(a), Shl(x, 32 * |a|), f);
  }

  lemma RowStep(done: seq<Limb>, p: seq<Limb>, b: seq<Limb>, x: Limb, y: Limb, f: Limb, carry: nat, n: nat, low: Limb, carry': nat)
    requires |done| == |p| == |b| && Value(done) + Shl(carry, 32 * |done|) == Value(p) + f * Value(b)
    requires n == carry + x + f * y && low == n % BASE && carry' == n / BASE
    ensures Value(done + [low]) + Shl(carry', 32 * (|done| + 1)) == Value(p + [x]) + f * Value(b + [y])
  {
    var k := 32 * |done|;
    ShlSum(carry, x, k);
    ShlSum(carry + x, f * y, k);
    AppendLimb(p, x);
    ScaleAppend(b, y, f);
    PutLimb(done, n, low, carry');
  }

  /** The first i limbs of a sum are done. */
  ghost predicate Added(a: seq<Limb>, b: seq<Limb>, i: nat, now: seq<Limb>, carry: nat) {
    forall u | Unfold(u) ::
      i <= |a| == |b| == |now| && Value(now[..i]) + Shl(carry, 32 * i) == Value(a[..i]) + Value(b[..i])
  }

  lemma AddedNone(a: seq<Limb>, b: seq<Limb>, now: seq<Limb>)
    requires |a| == |b| == |now|
    ensures Added(a, b, 0, now, 0)
  {
  }

  lemma AddOn(a: seq<Limb>, b: seq<Limb>, i: nat, now: seq<Limb>, carry: nat, n: nat, low: Limb, carry': nat)
    requires Added(a, b, i, now, carry) && i < |a| == |b| == |now|
    requires n == carry + a[i] + b[i] && low == n % BASE && carry' == n / BASE
    ensures Added(a, b, i + 1, now[i := low], carry')
  {
    assert Unfold(0);
    AddStep(now[..i], a[..i], b[..i], a[i], b[i], carry, n, low, carry');
    Around(a, i);
    Around(b, i);
    AroundUpdate(now, i, low);
  }

  lemma AddedAll(a: seq<Limb>, b: seq<Limb>, now: seq<Limb>, carry: nat, v: nat, k: nat)
    requires Added(a, b, |now|, now, carry) && |a| == |b| == |now| && v == Value(a) + Value(b) && k == 32 * |now|
    ensures Value(now) == LowBits(v, k)
  {
    AddedSum(a, b, |now|, now, carry);
    Wrapped(now, carry, v);
  }

  lemma AddedSum(a: seq<Limb>, b: seq<Limb>, n: nat, now: seq<Limb>, carry: nat)
    requires Added(a, b, n, now, carry) && |a| == |b| == |now| == n
    ensures Value(now) + Shl(carry, 32 * n) == Value(a) + Value(b)
  {
    assert Unfold(0);
    Whole(now);
    Whole(a);
    Whole(b);
  }

  /** A row f * b is being added to p from limb j on, and has reached limb j + i. */
  ghost predicate RowReached(p: seq<Limb>, b: seq<Limb>, f: Limb, j: nat, i: nat, now: seq<Limb>, carry: nat) {
    forall u | Unfold(u) ::
      && i + j <= |p| == |now| == |b|
      && now[..j] == p[..j]
      && Value(now[j..j + i]) + Shl(carry, 32 * i) == Value(p[j..j + i]) + f * Value(b[..i])
  }

  lemma RowStarts(p: seq<Limb>, b: seq<Limb>, f: Limb, j: nat)
    requires j <= |p| == |b|
    ensures RowReached(p, b, f, j, 0, p, 0)
  {
  }

  lemma AroundIn<T>(s: seq<T>, j: nat, i: nat)
    requires j + i < |s|
    ensures s[j..j + i + 1] == s[j..j + i] + [s[j + i]]
  {
  }

  lemma AroundUpdateIn<T>(s: seq<T>, j: nat, i: nat, x: T)
    requires j + i < |s|
    ensures s[j + i := x][j..j + i + 1] == s[j..j + i] + [x] && s[j + i := x][..j] == s[..j]
  {
  }

  lemma RowOn(p: seq<Limb>, b: seq<Limb>, f: Limb, j: nat, i: nat, now: seq<Limb>, carry: nat, n: nat, low: Limb, carry': nat)
    requires RowReached(p, b, f, j, i, now, carry) && i + j < |p| == |now| == |b|
    requires n == carry + p[j + i] + f * b[i] && low == n % BASE && carry' == n / BASE
    ensures RowReached(p, b, f, j, i + 1, now[j + i := low], carry')
  {
    assert Unfold(0);
    RowStep(now[j..j + i], p[j..j + i], b[..i], p[j + i], b[i], f, carry, n, low, carry');
    AroundUpdateIn(now, j, i, low);
    AroundIn(p, j, i);
    Around(b, i);
  }

  lemma RowEnds(p: seq<Limb>, b: seq<Limb>, f: Limb, j: nat, now: seq<Limb>, carry: nat) returns (turns: nat)
    requires j <= |p| == |now| == |b| && RowReached(p, b, f, j, |p| - j, now, carry)
    ensures Value(now) + Shl(turns, 32 * |p|) == Value(p) + f * Shl(Value(b), 32 * j)
  {
    assert Unfold(0);
    var i := |p| - j;
    turns := RowPlaced(p[..j], p[j..j + i], now[j..j + i], b[..i], b[i..], f, carry);
    assert p == p[..j] + p[j..j + i] && now == p[..j] + now[j..j + i] && b == b[..i] + b[i..];
  }

  /** Adding a row of the product at its place: up to whole turns, the value grows by f * b shifted there. */
  lemma RowPlaced(low: seq<Limb>, p: seq<Limb>, r: seq<Limb>, bLow: seq<Limb>, bHigh: seq<Limb>, f: Limb, carry: nat) returns (turns: nat)
    requires |p| == |r| == |bLow| && |bHigh| == |low|
    requires Value(r) + Shl(carry, 32 * |p|) == Value(p) + f * Value(bLow)
    ensures Value(low + r) + Shl(turns, 32 * (|low| + |p|)) == Value(low + p) + f * Shl(Value(bLow + bHigh), 32 * |low|)
  {
    var high, all := Value(bHigh), Value(bLow + bHigh);
    var n, j := |p|, |low|;
    assert all == Value(bLow) + Shl(high, 32 * n) by {
      ValueConcat(bLow, bHigh);
    }
    assert Value(low + p) == Value(low) + Shl(Value(p), 32 * j) by {
      ValueConcat(low, p);
    }
    assert Value(low + r) == Value(low) + Shl(Value(r), 32 * j) by {
      ValueConcat(low, r);
    }
    turns := carry + f * high;
    RowTurns(Value(r), Value(p), f, Value(bLow), high, carry, n, j);
  }

  lemma RowTurns(r: nat, p: nat, f: nat, low: nat, high: nat, carry: nat, n: nat, j: nat)
    requires r + Shl(carry, 32 * n) == p + f * low
    ensures Shl(r, 32 * j) + Shl(carry + f * high, 32 * (n + j)) == Shl(p, 32 * j) + f * Shl(low + Shl(high, 32 * n), 32 * j)
  {
    ShlSum(r, Shl(carry, 32 * n), 32 * j);
    ShlSum(p, f * low, 32 * j);
    ShlTimes(f, low, 32 * j);
    ShlShl(carry, 32 * n, 32 * j);
    ShlSum(carry, f * high, 32 * (n + j));
    ShlTimes(f, high, 32 * (n + j));
    ShlSum(low, Shl(high, 32 * n), 32 * j);
    ShlShl(high, 32 * n, 32 * j);
    var x, y := Shl(low, 32 * j), Shl(high, 32 * (n + j));
    MulSum(x, y, f);
    MulCommute(x + y, f);
    MulCommute(x, f);
    MulCommute(y, f);
  }

  /** One more row of a product: b, and its shifted sum so far. */
  lemma ProductStep(a: seq<Limb>, x: Limb, b: nat)
    ensures Value(a + [x]) * b == Value(a) * b + x * Shl(b, 32 * |a|)
  {
    AppendLimb(a, x);
    var y := Shl(x, 32 * |a|);
    MulSum(Value(a), y, b);
    ShlTimes(x, b, 32 * |a|);
    ShlTimes(b, x, 32 * |a|);
    MulCommute(x, b);
    MulCommute(y, b);
  }

  /** The first j rows of a product are added up; the value has gone whole turns beyond its width. */
  ghost predicate Multiplied(a: seq<Limb>, b: seq<Limb>, j: nat, now: seq<Limb>, turns: nat) {
    forall u | Unfold(u) :: j <= |a| == |b| == |now| && Value(now) + Shl(turns, 32 * |now|) == Value(a[..j]) * Value(b)
  }

  lemma ProductNone(a: seq<Limb>, b: seq<Limb>)
    requires |a| == |b|
    ensures Multiplied(a, b, 0, Zeros(|a|), 0)
  {
    ValueZeros(|a|);
    ShlZero(32 * |a|);
  }

  lemma ProductOn(a: seq<Limb>, b: seq<Limb>, j: nat, was: seq<Limb>, turns: nat, now: seq<Limb>, carry: nat) returns (turns': nat)
    requires j < |a| == |b| == |was| == |now| && Multiplied(a, b, j, was, turns) && RowReached(was, b, a[j], j, |was| - j, now, carry)
    ensures Multiplied(a, b, j + 1, now, turns')
  {
    assert Unfold(0);
    var more := RowEnds(was, b, a[j], j, now, carry);
    turns' := turns + more;
    ShlSum(turns, more, 32 * |now|);
    ProductStep(a[..j], a[j], Value(b));
    Around(a, j);
  }

  lemma ProductAll(a: seq<Limb>, b: seq<Limb>, now: seq<Limb>, turns: nat)
    requires |a| == |b| == |now| && Multiplied(a, b, |a|, now, turns)
    ensures Value(now) + Shl(turns, 32 * |now|) == Value(a) * Value(b)
  {
    assert Unfold(0);
    assert a[..|a|] == a;
  }

  // ------------------------------------------------------------ order and size

  /** The highest limb that differs decides. */
  lemma CompareAt(a: seq<Limb>, b: seq<Limb>, x: Limb, y: Limb, high: seq<Limb>)
    requires |a| == |b| && x < y
    ensures Value(a + [x] + high) < Value(b + [y] + high)
  {
    ValueAt(a, x, high);
    ValueAt(b, y, high);
    ValueBound(a);
    ShlSum(x, 1, 32 * |a|);
    ShlMonotone(x + 1, y, 32 * |a|);
  }

  /** The bits of the highest non-zero limb count on top of the limbs below. */
  lemma LengthAt(low: seq<Limb>, x: Limb, n: nat, r: nat, v: nat, k: nat)
    requires x != 0 && BitLength(x, r) && v == Value(low + [x] + Zeros(n)) && k == 32 * |low| + r
    ensures BitLength(v, k)
  {
    TopLimb(low, x, n);
    ValueBound(low);
    LengthAbove(Value(low), x, 32 * |low|, r);
  }

  lemma TopLimb(low: seq<Limb>, x: Limb, n: nat)
    ensures Value(low + [x] + Zeros(n)) == Value(low) + Shl(x, 32 * |low|)
  {
    ValueAt(low, x, Zeros(n));
    ValueZeros(n);
    ShlZero(32 * (|low| + 1));
  }

  lemma LengthAbove(low: nat, x: nat, k: nat, r: nat)
    requires low < Shl(1, k) && x > 0 && BitLength(x, r)
    ensures BitLength(low + Shl(x, k), k + r)
  {
    ShlMonotone(Shl(1, r - 1), x, k);
    ShlShl(1, r - 1, k);
    ShlSum(x, 1, k);
    ShlMonotone(x + 1, Shl(1, r), k);
    ShlShl(1, r, k);
    ShlZero(k);
    ShlMonotone(0, x, k);
  }
}
