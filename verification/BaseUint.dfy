/**
 base_uint: a fixed number of 32-bit limbs, changed in place.  Every operator is proved to compute on the value of
 the limbs what its name says on natural numbers, cut to the width of the number.
 */
module BaseUint {
  import opened Bits
  import opened Limbs
  import opened LimbShift
  import opened LongDivision
  import opened Nonlinear

  lemma SmallValue(low: Limb, high: Limb, n: nat)
    ensures Value([low, high] + Zeros(n)) == low + BASE * high
  {
    assert [] + [low] == [low] && [low] + [high] == [low, high];
    AppendLimb([], low);
    AppendLimb([low], high);
    ShlBase(high);
    ValueConcat([low, high], Zeros(n));
    ValueZeros(n);
    ShlZero(64);
  }

  class Number {
    const pn: array<Limb>

    ghost function V(): nat
      reads pn
    {
      Value(pn[..])
    }

    /** How many bits there are. */
    ghost function Width(): nat { 32 * pn.Length }

    /** Another number of the same width; it may be this one, but different numbers share no limbs. */
    ghost predicate Mate(b: Number) { b.pn.Length == pn.Length && (b == this || b.pn != pn) }

    constructor Zero(width: nat)
      ensures fresh(pn) && pn.Length == width && pn[..] == Zeros(width)
    {
      pn := new Limb[width](_ => 0);
      new;
      assert pn[..] == Zeros(width);
    }

    constructor Copy(b: Number)
      ensures fresh(pn) && pn.Length == b.pn.Length && pn[..] == b.pn[..]
    {
      var p := new Limb[b.pn.Length](_ => 0);
      for i := 0 to b.pn.Length
        invariant p[..i] == b.pn[..i]
      {
        p[i] := b.pn[i];
      }
      pn := p;
    }

    /** Assignment of a 64-bit number. */
    method Assign(b: nat)
      requires pn.Length >= 2 && b < BASE * BASE
      modifies pn
      ensures V() == b
    {
      pn[0] := b % BASE;
      pn[1] := b / BASE;
      for i := 2 to pn.Length
        invariant pn[0] == b % BASE && pn[1] == b / BASE && forall j | 2 <= j < i :: pn[j] == 0
      {
        pn[i] := 0;
      }
      assert pn[..] == [b % BASE, b / BASE] + Zeros(pn.Length - 2);
      SmallValue(b % BASE, b / BASE, pn.Length - 2);
    }

    method SetZero()
      modifies pn
      ensures pn[..] == Zeros(pn.Length)
    {
      for i := 0 to pn.Length
        invariant forall j | 0 <= j < i :: pn[j] == 0
      {
        pn[i] := 0;
      }
      assert pn[..] == Zeros(pn.Length);
    }

    // ----------------------------------------------------------- add, subtract

    method AddAssign(b: Number)
      requires Mate(b)
      modifies pn
      ensures V() == LowBits(old(V()) + old(b.V()), Width())
    {
      ghost var carry := AddLimbs(b);
      AddedAll(old(pn[..]), old(b.pn[..]), pn[..], carry, old(V()) + old(b.V()), Width());
    }

    /** The loop of the addition. */
    method AddLimbs(b: Number) returns (carry: nat)
      requires Mate(b)
      modifies pn
      ensures Added(old(pn[..]), old(b.pn[..]), pn.Length, pn[..], carry)
    {
      ghost var a, bs := pn[..], b.pn[..];
      carry := 0;
      AddedNone(a, bs, a);
      for i := 0 to pn.Length
        invariant carry <= 1 && Added(a, bs, i, pn[..], carry)
        invariant forall j | i <= j < pn.Length :: pn[j] == a[j] && b.pn[j] == bs[j]
      {
        var n := carry + pn[i] + b.pn[i];
        assert n < BASE * BASE;
        var low: Limb, next := n % BASE, n / BASE;
        ghost var was := pn[..];
        AddOn(a, bs, i, was, carry, n, low, next);
        pn[i] := low;
        carry := next;
        assert pn[..] == was[i := low];
      }
    }

    /** operator++ */
    method Increment()
      modifies pn
      ensures V() == if old(V()) == Shl(1, Width()) - 1 then 0 else old(V()) + 1
    {
      ghost var a := pn[..];
      var i := 0;
      while i < pn.Length
        invariant Passed(a, pn[..], i)
      {
        ghost var was := pn[..];
        DropOne(was, a, i);
        var y: Limb := (pn[i] + 1) % BASE;
        pn[i] := y;
        assert pn[..] == was[i := y];
        if y != 0 {
          StopHere(a, was, i, y);
          ValueBound(pn[..]);
          return;
        }
        PassOn(a, was, i, y);
        i := i + 1;
      }
      PassedAll(a, pn[..]);
    }

    /** operator-- */
    method Decrement()
      modifies pn
      ensures V() == if old(V()) == 0 then Shl(1, Width()) - 1 else old(V()) - 1
    {
      ghost var a := pn[..];
      var i := 0;
      while i < pn.Length
        invariant Passed(pn[..], a, i)
      {
        ghost var was := pn[..];
        DropOne(was, a, i);
        var y: Limb := (pn[i] + BASE - 1) % BASE;
        pn[i] := y;
        assert pn[..] == was[i := y];
        if y != BASE - 1 {
          BorrowStops(was, a, i, y);
          return;
        }
        BorrowPasses(was, a, i, y);
        i := i + 1;
      }
      PassedAll(pn[..], a);
    }

    /** operator~ */
    method Inverted() returns (r: Number)
      ensures fresh(r) && fresh(r.pn) && r.pn.Length == pn.Length
      ensures r.V() == Shl(1, Width()) - 1 - V()
    {
      r := new Number.Zero(pn.Length);
      ghost var a := pn[..];
      for i := 0 to pn.Length
        invariant Value(r.pn[..i]) + Value(a[..i]) + 1 == Shl(1, 32 * i)
      {
        ghost var done := r.pn[..i];
        ComplementStep(done, a[..i], pn[i], BASE - 1 - pn[i]);
        r.pn[i] := BASE - 1 - pn[i];
        assert r.pn[..i + 1] == done + [BASE - 1 - a[i]] && a[..i + 1] == a[..i] + [a[i]];
      }
      assert r.pn[..] == r.pn[..pn.Length] && a == a[..pn.Length];
    }

    /** operator- */
    method Negated() returns (r: Number)
      ensures fresh(r) && fresh(r.pn) && r.pn.Length == pn.Length
      ensures r.V() == if V() == 0 then 0 else Shl(1, Width()) - V()
    {
      r := Inverted();
      r.Increment();
    }

    /** operator-=, by adding the negated number. */
    method SubtractAssign(b: Number)
      requires Mate(b)
      modifies pn
      ensures V() == if old(V()) >= old(b.V()) then old(V()) - old(b.V()) else Shl(1, Width()) - (old(b.V()) - old(V()))
    {
      ghost var v, w, k := V(), b.V(), Width();
      assert v < Shl(1, k) && w < Shl(1, k) by {
        ValueBound(pn[..]);
        ValueBound(b.pn[..]);
      }
      Difference(v, w, k);
      var minus := b.Negated();
      AddAssign(minus);
    }

    // --------------------------------------------------------------- multiply

    /** operator*= by a 32-bit number. */
    method MultiplySmall(b32: Limb)
      modifies pn
      ensures V() == LowBits(b32 * old(V()), Width())
    {
      ghost var a, zeros := pn[..], Zeros(pn.Length);
      var carry: nat := 0;
      ghost var now: seq<Limb> := zeros;
      RowStarts(zeros, a, b32, 0);
      for i := 0 to pn.Length
        invariant carry < BASE && |now| == pn.Length && RowReached(zeros, a, b32, 0, i, now, carry)
        invariant forall j | 0 <= j < pn.Length :: pn[j] == if j < i then now[j] else a[j]
      {
        NoOverflow(carry, 0, b32, pn[i]);
        var n := carry + b32 * pn[i];
        var low: Limb, next := n % BASE, n / BASE;
        RowOn(zeros, a, b32, 0, i, now, carry, n, low, next);
        now := now[i := low];
        pn[i] := low;
        carry := next;
      }
      ghost var turns := RowEnds(zeros, a, b32, 0, now, carry);
      assert pn[..] == now;
      ValueZeros(pn.Length);
      Wrapped(pn[..], turns, b32 * Value(a));
    }

    /** One row of the product, added in from limb j on. */
    method AddRow(f: Limb, b: Number, j: nat) returns (carry: nat)
      requires Mate(b) && j < pn.Length
      requires b == this ==> pn[..] == Zeros(pn.Length)
      modifies pn
      ensures RowReached(old(pn[..]), old(b.pn[..]), f, j, pn.Length - j, pn[..], carry)
      ensures b == this ==> pn[..] == Zeros(pn.Length)
    {
      ghost var p, bs := pn[..], b.pn[..];
      carry := 0;
      var i := 0;
      RowStarts(p, bs, f, j);
      while i + j < pn.Length
        invariant 0 <= i <= pn.Length - j && carry < BASE && RowReached(p, bs, f, j, i, pn[..], carry)
        invariant forall k | i + j <= k < pn.Length :: pn[k] == p[k]
        invariant b.pn[..] == bs && (b == this ==> carry == 0)
      {
        ghost var was := pn[..];
        NoOverflow(carry, pn[i + j], f, b.pn[i]);
        var n := carry + pn[i + j] + f * b.pn[i];
        var low: Limb, next := n % BASE, n / BASE;
        RowOn(p, bs, f, j, i, was, carry, n, low, next);
        assert b == this ==> low == 0 && next == 0;
        pn[i + j] := low;
        carry := next;
        assert pn[..] == was[j + i := low];
        i := i + 1;
      }
    }

    /** All the rows. */
    method AddRows(a: Number, b: Number) returns (ghost turns: nat)
      requires Mate(b) && a.pn.Length == pn.Length && a.pn != pn && pn[..] == Zeros(pn.Length)
      modifies pn
      ensures V() + Shl(turns, Width()) == old(a.V()) * old(b.V())
      ensures b == this ==> pn[..] == Zeros(pn.Length)
    {
      ghost var rows, bs := a.pn[..], b.pn[..];
      turns := 0;
      ProductNone(rows, bs);
      for j := 0 to pn.Length
        invariant a.pn[..] == rows && b.pn[..] == bs && (b == this ==> pn[..] == Zeros(pn.Length))
        invariant Multiplied(rows, bs, j, pn[..], turns)
      {
        ghost var was := pn[..];
        ghost var carry := AddRow(a.pn[j], b, j);
        turns := ProductOn(rows, bs, j, was, turns, pn[..], carry);
      }
      ProductAll(rows, bs, pn[..], turns);
    }

    /** operator*=.  The number is cleared before the other one is read, so multiplying a number by itself in place
        gives zero; by any other number it gives the product. */
    method MultiplyAssign(b: Number)
      requires Mate(b)
      modifies pn
      ensures V() == if b == this then 0 else LowBits(old(V()) * old(b.V()), Width())
    {
      var a := new Number.Copy(this);
      SetZero();
      ghost var turns := AddRows(a, b);
      ValueZeros(pn.Length);
      if b != this {
        Wrapped(pn[..], turns, a.V() * b.V());
      }
    }

    // ----------------------------------------------------------------- shifts

    /** operator<<= */
    method ShiftLeft(shift: nat)
      modifies pn
      ensures V() == LowBits(Shl(old(V()), shift), Width())
    {
      var a := pn[..];
      var k, s := shift / 32, shift % 32;
      ShiftLimbsLeft(a, k, s);
      LeftDone(a, pn[..], k, s);
    }

    method ShiftLimbsLeft(a: seq<Limb>, k: nat, s: nat)
      requires |a| == pn.Length && s < 32
      modifies pn
      ensures forall m | 0 <= m < pn.Length :: pn[m] == LeftSoFar(a, k, s, |a|, m)
    {
      SetZero();
      for i := 0 to pn.Length
        invariant forall m | 0 <= m < pn.Length :: pn[m] == LeftSoFar(a, k, s, i, m)
      {
        HighFits(a[i], s);
        LeftMeets(a, s, i);
        LeftOn(a, k, s, i);
        if i + k + 1 < pn.Length && s != 0 {
          pn[i + k + 1] := Or(pn[i + k + 1], Shr(a[i], 32 - s));
        }
        if i + k < pn.Length {
          pn[i + k] := Or(pn[i + k], Low(a[i], s));
        }
      }
    }

    /** operator>>= */
    method ShiftRight(shift: nat)
      modifies pn
      ensures V() == Shr(old(V()), shift)
    {
      var a := pn[..];
      var k, s := shift / 32, shift % 32;
      ShiftLimbsRight(a, k, s);
      RightDone(a, pn[..], k, s);
    }

    method ShiftLimbsRight(a: seq<Limb>, k: nat, s: nat)
      requires |a| == pn.Length && s < 32
      modifies pn
      ensures forall m | 0 <= m < pn.Length :: pn[m] == RightSoFar(a, k, s, |a|, m)
    {
      SetZero();
      for i := 0 to pn.Length
        invariant forall m | 0 <= m < pn.Length :: pn[m] == RightSoFar(a, k, s, i, m)
      {
        ShrFits(a[i], s);
        RightOn(a, k, s, i);
        if i - k - 1 >= 0 {
          RightMeets(a, s, i);
          LowOfWhole(a[i]);
          if s != 0 {
            pn[i - k - 1] := Or(pn[i - k - 1], Low(a[i], 32 - s));
          }
        }
        if i - k >= 0 {
          pn[i - k] := Or(pn[i - k], Shr(a[i], s));
        }
      }
    }

    // -------------------------------------------------------------- order, size

    method CompareTo(b: Number) returns (r: int)
      requires Mate(b)
      ensures r == if V() < b.V() then -1 else if V() > b.V() then 1 else 0
    {
      ghost var a, bs := pn[..], b.pn[..];
      var i := pn.Length;
      while i > 0
        invariant 0 <= i <= pn.Length && a[i..] == bs[i..]
      {
        i := i - 1;
        assert a == a[..i] + [a[i]] + a[i + 1..] && bs == bs[..i] + [bs[i]] + a[i + 1..];
        if pn[i] < b.pn[i] {
          CompareAt(a[..i], bs[..i], a[i], bs[i], a[i + 1..]);
          return -1;
        }
        if pn[i] > b.pn[i] {
          CompareAt(bs[..i], a[..i], bs[i], a[i], a[i + 1..]);
          return 1;
        }
      }
      return 0;
    }

    /** bits(): the position of the highest bit set plus one, or zero. */
    method BitCount() returns (r: nat)
      ensures BitLength(V(), r) && r <= Width()
    {
      ghost var a := pn[..];
      var pos := pn.Length;
      while pos > 0
        invariant 0 <= pos <= pn.Length && a[pos..] == Zeros(pn.Length - pos)
      {
        pos := pos - 1;
        assert a == a[..pos] + [a[pos]] + a[pos + 1..];
        if pn[pos] != 0 {
          r := LimbBits(pn[pos]);
          LengthAt(a[..pos], a[pos], pn.Length - pos - 1, r, V(), 32 * pos + r);
          r := 32 * pos + r;
          return;
        }
      }
      assert a == Zeros(pn.Length);
      ValueZeros(pn.Length);
      return 0;
    }

    /** Setting a bit of the quotient, whose bits so far all lie above it. */
    method SetBit(shift: nat, ghost found: nat)
      requires shift < Width() && V() == Shl(found, shift + 1)
      modifies pn
      ensures V() == old(V()) + Shl(1, shift)
    {
      ghost var a := pn[..];
      var p, k := shift / 32, shift % 32;
      Around(a, p);
      SetBitValue(a[..p], a[p], a[p + 1..], k, found);
      var y: Limb := Or(pn[p], Shl(1, k));
      pn[p] := y;
      AroundUpdate(a, p, y);
      assert pn[..] == a[p := y];
    }

    /** Comparison with a 64-bit number. */
    method EqualTo(b: nat) returns (r: bool)
      requires pn.Length >= 2 && b < BASE * BASE
      ensures r <==> V() == b
    {
      ghost var a := pn[..];
      assert a == [a[0], a[1]] + a[2..];
      LowTwo(a[0], a[1], a[2..]);
      var i := pn.Length;
      while i > 2
        invariant 2 <= i <= pn.Length && forall j | i <= j < pn.Length :: pn[j] == 0
      {
        i := i - 1;
        if pn[i] != 0 {
          HighNotZero(a[2..], i - 2);
          return false;
        }
      }
      assert a[2..] == Zeros(pn.Length - 2);
      ValueZeros(pn.Length - 2);
      ShlZero(64);
      r := pn[1] == b / BASE && pn[0] == b % BASE;
    }

    method GetLow64() returns (r: nat)
      requires pn.Length >= 2
      ensures r == LowBits(V(), 64)
    {
      r := pn[0] + BASE * pn[1];
      ghost var a := pn[..];
      assert a == [a[0], a[1]] + a[2..];
      LowTwo(a[0], a[1], a[2..]);
    }
  }

  /** Decrementing undoes incrementing: the number before plays the part of the number after. */
  lemma BorrowStops(was: seq<Limb>, a: seq<Limb>, i: nat, y: Limb)
    requires Passed(was, a, i) && i < |was| && a[i] as int == y as int + 1
    ensures Value(a) == Value(was[i := y]) + 1
  {
    IncrementStop(was[..i], a[..i], y, a[i], a[i + 1..]);
    Around(a, i);
    AroundUpdate(was, i, y);
    DropOne(was, a, i);
  }

  lemma BorrowPasses(was: seq<Limb>, a: seq<Limb>, i: nat, y: Limb)
    requires Passed(was, a, i) && i < |was| && y == BASE - 1 && a[i] == 0
    ensures Passed(was[i := y], a, i + 1)
  {
    IncrementPass(was[..i], a[..i], y, a[i]);
    Around(a, i);
    AroundUpdate(was, i, y);
    DropOne(was, a, i);
  }

  /** operator/=; the flag says that the source throws. */
  method DivideAssign(a: Number, b: Number) returns (thrown: bool)
    requires a.Mate(b)
    modifies a.pn
    ensures thrown <==> old(b.V()) == 0
    ensures thrown ==> a.V() == 0
    ensures !thrown ==> IsQuotient(a.V(), old(a.V()), old(b.V()))
  {
    var div := new Number.Copy(b);
    var num := new Number.Copy(a);
    a.SetZero();
    ValueZeros(a.pn.Length);
    var numBits := num.BitCount();
    var divBits := div.BitCount();
    thrown := divBits == 0;
    if thrown {
      return;
    }
    if divBits > numBits {
      FewerBits(num.V(), div.V(), numBits, divBits);
    } else {
      DivideLoop(a, num, div, numBits - divBits, numBits, divBits);
    }
  }

  /** Three numbers of one width with limbs of their own. */
  ghost predicate Apart(a: Number, b: Number, c: Number) {
    a.pn.Length == b.pn.Length == c.pn.Length && a.pn != b.pn && a.pn != c.pn && b.pn != c.pn
  }

  /** The loop of the division. */
  method DivideLoop(a: Number, num: Number, div: Number, shift0: nat, ghost numBits: nat, ghost divBits: nat)
    requires Apart(a, num, div)
    requires a.V() == 0 && BitLength(num.V(), numBits) && BitLength(div.V(), divBits) && 0 < divBits <= numBits <= a.Width()
    requires shift0 == numBits - divBits
    modifies a.pn, num.pn, div.pn
    ensures IsQuotient(a.V(), old(num.V()), old(div.V()))
  {
    ghost var n, d, found := num.V(), div.V(), 0;
    Align(n, d, numBits, divBits);
    Aligned(d, shift0, numBits, a.Width());
    DivideStarts(n, d, shift0 + 1);
    div.ShiftLeft(shift0);
    var shift: int := shift0;
    while shift >= 0
      invariant -1 <= shift <= shift0 < a.Width()
      invariant shift >= 0 ==> div.V() == Shl(d, shift)
      invariant Dividing(n, d, shift + 1, num.V(), a.V(), found)
    {
      found := DivideStep(a, num, div, shift, n, d, found);
      div.ShiftRight(1);
      shift := shift - 1;
    }
    DivideEnds(n, d, num.V(), a.V(), found);
  }

  /** One bit of the quotient. */
  method DivideStep(a: Number, num: Number, div: Number, shift: nat, ghost n: nat, ghost d: nat, ghost found: nat)
    returns (ghost found': nat)
    requires Apart(a, num, div) && shift < a.Width()
    requires div.V() == Shl(d, shift) && Dividing(n, d, shift + 1, num.V(), a.V(), found)
    modifies a.pn, num.pn
    ensures div.V() == Shl(d, shift) && Dividing(n, d, shift, num.V(), a.V(), found')
    ensures shift > 0 ==> Shr(div.V(), 1) == Shl(d, shift - 1)
  {
    var c := num.CompareTo(div);
    if c >= 0 {
      TakeAway(n, d, shift, num.V(), a.V(), found);
      EndsInZeros(n, d, shift + 1, num.V(), a.V(), found);
      num.SubtractAssign(div);
      a.SetBit(shift, found);
      found' := 2 * found + 1;
    } else {
      PassBy(n, d, shift, num.V(), a.V(), found);
      found' := 2 * found;
    }
    if shift > 0 {
      Halved(d, shift);
    }
  }

  lemma Halved(d: nat, shift: nat)
    requires shift > 0
    ensures Shr(Shl(d, shift), 1) == Shl(d, shift - 1)
  {
  }

  lemma Aligned(d: nat, shift: nat, numBits: nat, width: nat)
    requires Shl(d, shift) < Shl(1, numBits) && numBits <= width
    ensures LowBits(Shl(d, shift), width) == Shl(d, shift)
  {
    ShlShl(1, numBits, width - numBits);
    ShlAtLeast(Shl(1, numBits), width - numBits);
    LowBitsSmall(Shl(d, shift), width);
  }

  lemma FewerBits(n: nat, d: nat, nBits: nat, dBits: nat)
    requires BitLength(n, nBits) && BitLength(d, dBits) && nBits < dBits
    ensures n < d
  {
    ShlShl(1, nBits, dBits - 1 - nBits);
    ShlAtLeast(Shl(1, nBits), dBits - 1 - nBits);
  }

  lemma Difference(v: nat, w: nat, k: nat)
    requires v < Shl(1, k) && w < Shl(1, k)
    ensures var m := Shl(1, k);
      LowBits(v + if w == 0 then 0 else m - w, k) == if v >= w then v - w else m - (w - v)
  {
    var m := Shl(1, k);
    if w == 0 {
      LowBitsSmall(v, k);
    } else if v >= w {
      SplitUnique(v + (m - w), k, 1, v - w);
    } else {
      LowBitsSmall(v + (m - w), k);
    }
  }

  /** The 64-bit intermediate of the product loops never overflows. */
  lemma NoOverflow(carry: nat, p: Limb, x: Limb, y: Limb)
    requires carry < BASE
    ensures carry + p + x * y < BASE * BASE && (carry + p + x * y) / BASE < BASE
  {
    MulMonotone(x, BASE - 1, y);
    assert x * y <= (BASE - 1) * (BASE - 1);
  }

  /** A limb that is not zero lifts a number above all that fits below it. */
  lemma HighNotZero(high: seq<Limb>, i: nat)
    requires i < |high| && high[i] != 0
    ensures Value(high) > 0 && Shl(Value(high), 64) >= BASE * BASE
  {
    Around(high, i);
    ValueAt(high[..i], high[i], high[i + 1..]);
    ShlAtLeast(high[i], 32 * i);
    ShlMonotone(1, Value(high), 64);
    ShlShl(1, 32, 32);
    ShlBase(1);
    ShlBase(BASE);
  }

  lemma LowTwo(x: Limb, y: Limb, high: seq<Limb>)
    ensures LowBits(Value([x, y] + high), 64) == x + BASE * y
    ensures Value([x, y] + high) == x + BASE * y + Shl(Value(high), 64)
  {
    SmallValue(x, y, 0);
    assert [x, y] + Zeros(0) == [x, y];
    ValueConcat([x, y], high);
    ValueBound([x, y]);
    SplitUnique(Value([x, y] + high), 64, Value(high), x + BASE * y);
  }

  /** The bits of one limb, found from the top. */
  method LimbBits(x: Limb) returns (r: nat)
    requires x != 0
    ensures BitLength(x, r) && 0 < r <= 32
  {
    ShlBase(1);
    var nbits := 31;
    while nbits > 0
      invariant 0 <= nbits <= 31 && x < Shl(1, nbits + 1)
    {
      TopBit(x, nbits);
      if BitAt(x, nbits) {
        return nbits + 1;
      }
      nbits := nbits - 1;
    }
    return 1;
  }
}
