/**
 The compact format of difficulty targets: a base-256 exponent and a 23-bit mantissa in 32 bits, and the amount of
 work a target stands for.
 */
module Compact {
  import opened Bits
  import opened Limbs
  import opened LimbShift
  import opened LongDivision
  import opened BaseUint
  import Nonlinear

  /** A 32-bit word. */
  type Word = x: nat | x < 0x1_0000_0000

  function SizeOf(c: Word): nat { c / 0x100_0000 }

  function Mantissa(c: Word): nat { c % 0x80_0000 }

  predicate SignBit(c: Word) { c / 0x80_0000 % 2 == 1 }

  /** mantissa * 256^(size - 3), rounded down, however large. */
  function Exact(c: Word): nat {
    if SizeOf(c) <= 3 then Shr(Mantissa(c), 8 * (3 - SizeOf(c))) else Shl(Mantissa(c), 8 * (SizeOf(c) - 3))
  }

  /** The layout of a word: a byte of size, a sign bit and 23 bits of mantissa. */
  lemma Layout(s: nat, negative: bool, m: nat, c: Word)
    requires s < 0x100 && m < 0x80_0000 && c == 0x100_0000 * s + (if negative then 0x80_0000 else 0) + m
    ensures SizeOf(c) == s && Mantissa(c) == m && (SignBit(c) <==> negative)
  {
  }

  /** The number each size makes of the mantissa. */
  lemma BySize(c: Word, s: nat, m: nat)
    requires s == SizeOf(c) && m == Mantissa(c)
    ensures s == 0 ==> Exact(c) == 0
    ensures s == 1 ==> Exact(c) == m / 0x1_0000
    ensures s == 2 ==> Exact(c) == m / 0x100
    ensures s == 3 ==> Exact(c) == m
    ensures s > 3 ==> Exact(c) == Shl(m, 8 * (s - 3))
  {
    if s < 3 {
      DropBytes(m);
    }
  }

  lemma DropBytes(m: nat)
    requires m < 0x80_0000
    ensures Shr(m, 8) == m / 0x100 && Shr(m, 16) == m / 0x1_0000 && Shr(m, 24) == 0
  {
    ShrByte(m);
    ShrByte(m / 0x100);
    ShrShr(m, 8, 8);
    ShlPow();
    LowBitsSmall(m, 24);
  }

  /** The overflow condition of SetCompact, on the size and the word left after shifting. */
  predicate Overflows(size: nat, word: nat) {
    word != 0 && (size > 34 || (word > 0xff && size > 33) || (word > 0xffff && size > 32))
  }

  lemma ShlPow()
    ensures Shl(1, 8) == 0x100 && Shl(1, 16) == 0x1_0000 && Shl(1, 23) == 0x80_0000 && Shl(1, 24) == 0x100_0000 && Shl(1, 15) == 0x8000
  {
    ShlByte(1);
    ShlByte(0x100);
    ShlByte(0x1_0000);
    ShlShl(1, 8, 8);
    ShlShl(1, 16, 8);
    assert Shl(1, 24) == 2 * Shl(1, 23) && Shl(1, 16) == 2 * Shl(1, 15);
  }

  /** A shifted number reaches a power of two exactly when the number reaches what is left of the power. */
  lemma ReachesPower(m: nat, e: nat, w: nat)
    requires e <= w
    ensures Shl(m, e) >= Shl(1, w) <==> m >= Shl(1, w - e)
  {
    ShlShl(1, w - e, e);
    if m >= Shl(1, w - e) {
      ShlMonotone(Shl(1, w - e), m, e);
    } else {
      ShlMonotone(m, Shl(1, w - e), e);
    }
  }

  lemma ReachesBeyond(m: nat, e: nat, w: nat)
    requires e >= w && m > 0
    ensures Shl(m, e) >= Shl(1, w)
  {
    ShlShl(m, e - w, w);
    ShlAtLeast(m, e - w);
    ShlMonotone(1, Shl(m, e - w), w);
  }

  /** The flag is set exactly when the number does not fit in 256 bits. */
  lemma OverflowExactly(c: Word)
    ensures Overflows(SizeOf(c), if SizeOf(c) <= 3 then Exact(c) else Mantissa(c)) <==> Exact(c) >= Shl(1, 256)
  {
    if SizeOf(c) <= 3 {
      SmallFits(Mantissa(c), 8 * (3 - SizeOf(c)));
    } else if SizeOf(c) <= 32 {
      MiddleFits(Mantissa(c), 8 * (SizeOf(c) - 3));
    } else {
      LargeFits(SizeOf(c), Mantissa(c));
    }
  }

  lemma SmallFits(m: nat, e: nat)
    requires m < 0x80_0000
    ensures Shr(m, e) < Shl(1, 256)
  {
    ShlPow();
    ShrFits(m, e);
    ShlShl(1, 24, 232);
    ShlAtLeast(Shl(1, 24), 232);
  }

  lemma MiddleFits(m: nat, e: nat)
    requires m < 0x80_0000 && e <= 232
    ensures Shl(m, e) < Shl(1, 256)
  {
    ShlPow();
    ReachesPower(m, e, 256);
    ShlShl(1, 24, 232 - e);
    ShlAtLeast(Shl(1, 24), 232 - e);
  }

  lemma LargeFits(size: nat, m: nat)
    requires size >= 33
    ensures Overflows(size, m) <==> Shl(m, 8 * (size - 3)) >= Shl(1, 256)
  {
    ShlPow();
    if size == 33 {
      ReachesPower(m, 240, 256);
    } else if size == 34 {
      ReachesPower(m, 248, 256);
    } else if m > 0 {
      ReachesBeyond(m, 8 * (size - 3), 256);
    } else {
      ShlZero(8 * (size - 3));
      ShlOneGrows(256);
    }
  }

  // ---------------------------------------------------------------- encoding

  /** The number of bytes. */
  ghost predicate ByteLength(v: nat, s: nat) {
    v < Shl(1, 8 * s) && (s > 0 ==> v >= Shl(1, 8 * (s - 1)))
  }

  lemma BytesFromBits(v: nat, b: nat)
    requires BitLength(v, b)
    ensures ByteLength(v, (b + 7) / 8)
  {
    var s := (b + 7) / 8;
    if v == 0 {
      ShlOneGrows(0);
    } else {
      Pow2Up(b, 8 * s);
      Pow2Up(8 * (s - 1), b - 1);
    }
  }

  lemma Pow2Up(j: nat, k: nat)
    requires j <= k
    ensures Shl(1, j) <= Shl(1, k)
  {
    ShlShl(1, j, k - j);
    ShlAtLeast(Shl(1, j), k - j);
  }

  /** The top three bytes of a number of s bytes. */
  function TopBytes(v: nat, s: nat): nat {
    if s <= 3 then Shl(v, 8 * (3 - s)) else Shr(v, 8 * (s - 3))
  }

  /** They fill three bytes, with a first byte that is not zero. */
  lemma TopBytesRange(v: nat, s: nat)
    requires ByteLength(v, s)
    ensures TopBytes(v, s) < 0x100_0000
    ensures s > 0 ==> TopBytes(v, s) >= 0x1_0000
  {
    ShlPow();
    if s <= 3 {
      var e := 8 * (3 - s);
      ShlMonotone(v, Shl(1, 8 * s), e);
      ShlShl(1, 8 * s, e);
      if s > 0 {
        ShlMonotone(Shl(1, 8 * (s - 1)), v, e);
        ShlShl(1, 8 * (s - 1), e);
      }
    } else {
      var e := 8 * (s - 3);
      FloorBelow(v, e, 24);
      FloorAtLeast(v, e, 16);
    }
  }

  lemma FloorBelow(v: nat, e: nat, k: nat)
    requires v < Shl(1, e + k)
    ensures Shr(v, e) < Shl(1, k)
  {
    ShrSplit(v, e);
    if Shr(v, e) >= Shl(1, k) {
      ShlMonotone(Shl(1, k), Shr(v, e), e);
      ShlShl(1, k, e);
    }
  }

  lemma FloorAtLeast(v: nat, e: nat, k: nat)
    requires v >= Shl(1, e + k)
    ensures Shr(v, e) >= Shl(1, k)
  {
    ShlShl(1, k, e);
    FloorGreatest(v, e, Shl(1, k));
  }

  /** Shifting right and back is the greatest multiple of the power that is not more. */
  lemma FloorGreatest(v: nat, e: nat, x: nat)
    ensures Shl(x, e) <= v ==> x <= Shr(v, e) && Shl(x, e) <= Shl(Shr(v, e), e)
    ensures Shl(Shr(v, e), e) <= v
  {
    ShrSplit(v, e);
    if Shl(x, e) <= v {
      if x > Shr(v, e) {
        ShlSum(Shr(v, e), 1, e);
        ShlMonotone(Shr(v, e) + 1, x, e);
      }
      ShlMonotone(x, Shr(v, e), e);
    }
  }

  /** GetCompact of a non-negative number of s bytes. */
  function Encode(v: nat, s: nat): (c: nat) {
    var top := TopBytes(v, s);
    if top >= 0x80_0000 then top / 0x100 + 0x100_0000 * (s + 1) else top + 0x100_0000 * s
  }

  /** The fields of a word put together from a mantissa and a size. */
  lemma Fields(m: nat, size: nat, c: nat)
    requires m < 0x80_0000 && size < 0x80 && c == m + 0x100_0000 * size
    ensures c < 0x1_0000_0000 && SizeOf(c) == size && Mantissa(c) == m && !SignBit(c)
  {
  }

  /** The mantissa has at most 23 bits, and the size fits in a byte. */
  lemma EncodeFits(v: nat, s: nat)
    requires ByteLength(v, s) && s <= 32
    ensures Encode(v, s) < 0x1_0000_0000 && !SignBit(Encode(v, s))
    ensures var top := TopBytes(v, s);
      && SizeOf(Encode(v, s)) == (if top >= 0x80_0000 then s + 1 else s)
      && Mantissa(Encode(v, s)) == if top >= 0x80_0000 then top / 0x100 else top
  {
    TopBytesRange(v, s);
    var top := TopBytes(v, s);
    if top >= 0x80_0000 {
      Fields(top / 0x100, s + 1, Encode(v, s));
    } else {
      Fields(top, s, Encode(v, s));
    }
  }

  /** How many low bits the format drops. */
  function Dropped(v: nat, s: nat): nat {
    if TopBytes(v, s) >= 0x80_0000 then if s < 3 then 0 else 8 * (s - 2) else if s <= 3 then 0 else 8 * (s - 3)
  }

  lemma ShrOfShl(v: nat, e: nat)
    ensures Shr(Shl(v, e), e) == v
  {
    ShlOneGrows(e);
    SplitUnique(Shl(v, e), e, v, 0);
  }

  lemma {:induction false} ShrByte(x: nat)
    ensures Shr(x, 8) == x / 0x100
  {
    assert Shr(x, 1) == x / 2;
    assert Shr(x, 2) == x / 4;
    assert Shr(x, 3) == x / 8;
    assert Shr(x, 4) == x / 16;
    assert Shr(x, 5) == x / 32;
    assert Shr(x, 6) == x / 64;
    assert Shr(x, 7) == x / 128;
  }

  /** What the format keeps of a number is the number with its dropped bits cleared. */
  lemma EncodeKeeps(v: nat, s: nat)
    requires ByteLength(v, s) && s <= 32
    ensures Encode(v, s) < 0x1_0000_0000
    ensures Exact(Encode(v, s)) == Shl(Shr(v, Dropped(v, s)), Dropped(v, s))
  {
    EncodeFits(v, s);
    var top := TopBytes(v, s);
    ShrByte(top);
    if top < 0x80_0000 {
      if s <= 3 {
        ShrOfShl(v, 8 * (3 - s));
      }
    } else if s < 3 {
      var e := 8 * (3 - s);
      ShlShl(v, e - 8, 8);
      ShrOfShl(Shl(v, e - 8), 8);
      ShrOfShl(v, e - 8);
    } else if s == 3 {
      assert top == v;
    } else {
      ShrShr(v, 8 * (s - 3), 8);
    }
  }

  /** Where bits are dropped, at least 16 bits of mantissa are left. */
  lemma DroppedLeaves(v: nat, s: nat)
    requires ByteLength(v, s) && Dropped(v, s) > 0
    ensures Dropped(v, s) >= 8 && Dropped(v, s) % 8 == 0 && Shr(v, Dropped(v, s)) >= 0x8000
  {
    TopBytesRange(v, s);
    var top := TopBytes(v, s);
    if top >= 0x80_0000 {
      ShrByte(top);
      if s == 3 {
        assert Shl(v, 0) == v;
      } else {
        ShrShr(v, 8 * (s - 3), 8);
      }
    }
  }

  /** GetCompact rounds down to the format: no other compact value lies between its result and the number. */
  lemma GreatestCompact(v: nat, s: nat, c: Word)
    requires ByteLength(v, s) && s <= 32
    ensures Encode(v, s) < 0x1_0000_0000
    ensures Exact(Encode(v, s)) <= v
    ensures Exact(c) <= v ==> Exact(c) <= Exact(Encode(v, s))
  {
    EncodeKeeps(v, s);
    var e := Dropped(v, s);
    FloorGreatest(v, e, 0);
    if Exact(c) <= v && e > 0 {
      DroppedLeaves(v, s);
      if SizeOf(c) <= 3 {
        ShrFits(Mantissa(c), 8 * (3 - SizeOf(c)));
        SmallBelow(Exact(c), v, e);
      } else {
        LargeBelow(Mantissa(c), 8 * (SizeOf(c) - 3), v, e);
      }
    }
  }

  lemma SmallBelow(x: nat, v: nat, e: nat)
    requires x < 0x80_0000 && e >= 8 && Shr(v, e) >= 0x8000
    ensures x <= Shl(Shr(v, e), e)
  {
    ShlPow();
    ShlMonotone(0x8000, Shr(v, e), e);
    ShlShl(0x8000, 8, e - 8);
    ShlByte(0x8000);
    ShlAtLeast(0x80_0000, e - 8);
  }

  lemma LargeBelow(m: nat, d: nat, v: nat, e: nat)
    requires m < 0x80_0000 && d % 8 == 0 && e % 8 == 0 && e >= 8 && Shr(v, e) >= 0x8000 && Shl(m, d) <= v
    ensures Shl(m, d) <= Shl(Shr(v, e), e)
  {
    if d >= e {
      ShlShl(m, d - e, e);
      FloorGreatest(v, e, Shl(m, d - e));
    } else {
      ShlMonotone(m, 0x80_0000, d);
      ShlByte(0x8000);
      ShlShl(0x8000, 8, d);
      ShlShl(0x8000, d + 8, e - d - 8);
      ShlAtLeast(Shl(0x8000, d + 8), e - d - 8);
      ShlMonotone(0x8000, Shr(v, e), e);
    }
  }

  // ---------------------------------------------------------------- rounding

  function Bytes(v: nat): nat { if v == 0 then 0 else 1 + Bytes(v / 0x100) }

  lemma {:induction false} BytesIs(v: nat, s: nat)
    requires ByteLength(v, s)
    ensures s == Bytes(v)
    decreases s
  {
    if s == 0 {
      assert Shl(1, 0) == 1;
    } else {
      ShlOneGrows(8 * (s - 1));
      ShrByte(v);
      FloorBelow(v, 8, 8 * (s - 1));
      if s > 1 {
        FloorAtLeast(v, 8, 8 * (s - 2));
      }
      BytesIs(v / 0x100, s - 1);
    }
  }

  lemma {:induction false} BytesOf(v: nat)
    ensures ByteLength(v, Bytes(v))
    decreases v
  {
    if v == 0 {
      assert Shl(1, 0) == 1;
    } else {
      var w, s := v / 0x100, Bytes(v / 0x100);
      BytesOf(w);
      ShlByteUp(s);
      if s > 0 {
        ShlByteUp(s - 1);
      }
    }
  }

  lemma ShlByteUp(s: nat)
    ensures Shl(1, 8 * (s + 1)) == 0x100 * Shl(1, 8 * s)
  {
    ShlShl(1, 8 * s, 8);
    ShlByte(Shl(1, 8 * s));
  }

  lemma BytesBound(v: nat)
    requires v < Shl(1, 256)
    ensures Bytes(v) <= 32
  {
    BytesOf(v);
    if Bytes(v) > 32 {
      Pow2Up(256, 8 * (Bytes(v) - 1));
    }
  }

  /** What GetCompact returns for a non-negative 256-bit number. */
  function CompactOf(v: nat): Word
    requires v < Shl(1, 256)
  {
    BytesOf(v);
    BytesBound(v);
    EncodeFits(v, Bytes(v));
    Encode(v, Bytes(v))
  }

  /** SetCompact after GetCompact. */
  function Rounded(v: nat): nat
    requires v < Shl(1, 256)
  {
    Exact(CompactOf(v))
  }

  /** Rounded is the greatest number of the format that is not more. */
  lemma RoundedIs(v: nat, c: Word)
    requires v < Shl(1, 256)
    ensures Rounded(v) <= v && (Exact(c) <= v ==> Exact(c) <= Rounded(v))
  {
    BytesOf(v);
    BytesBound(v);
    GreatestCompact(v, Bytes(v), c);
  }

  lemma RoundedMonotone(v: nat, w: nat)
    requires v <= w < Shl(1, 256)
    ensures Rounded(v) <= Rounded(w)
  {
    RoundedIs(v, 0);
    RoundedIs(w, CompactOf(v));
  }

  lemma RoundedIdempotent(v: nat)
    requires v < Shl(1, 256)
    ensures Rounded(v) < Shl(1, 256) && Rounded(Rounded(v)) == Rounded(v)
  {
    RoundedIs(v, 0);
    RoundedIs(Rounded(v), CompactOf(v));
  }

  // ---------------------------------------------------------------- one encoding

  /** A word in normal form: no sign, a first byte of the mantissa that is needed, and nothing that would be dropped. */
  predicate Normal(c: Word) {
    && !SignBit(c) && Mantissa(c) >= 0x8000
    && SizeOf(c) > 0 && (SizeOf(c) == 1 ==> Mantissa(c) % 0x1_0000 == 0) && (SizeOf(c) == 2 ==> Mantissa(c) % 0x100 == 0)
  }

  /** GetCompact gives the word in normal form; zero is zero. */
  lemma CompactNormal(v: nat)
    requires v < Shl(1, 256)
    ensures if v == 0 then CompactOf(v) == 0 else Normal(CompactOf(v))
  {
    BytesOf(v);
    BytesBound(v);
    EncodeFits(v, Bytes(v));
    TopBytesRange(v, Bytes(v));
    if v == 0 {
      ShlZero(24);
    } else {
      TopBytesPadded(v, Bytes(v), TopBytes(v, Bytes(v)));
    }
  }

  /** A number of one or two bytes is followed by zeros. */
  lemma TopBytesPadded(v: nat, s: nat, top: nat)
    requires top == TopBytes(v, s)
    ensures (s == 1 ==> top % 0x1_0000 == 0) && (s == 2 ==> top % 0x100 == 0)
    ensures s == 1 ==> top / 0x100 % 0x100 == 0
  {
    if s == 1 {
      TwoBytes(v);
      PaddedBy(v, top);
    } else if s == 2 {
      ShlByte(v);
    }
  }

  lemma PaddedBy(v: nat, top: nat)
    requires top == 0x1_0000 * v
    ensures top % 0x1_0000 == 0 && top / 0x100 % 0x100 == 0
  {
    assert top / 0x100 == 0x100 * v;
  }

  /** In normal form size and mantissa can be told from the number. */
  lemma NormalExact(m: nat, s: nat)
    requires s > 0 && (s == 1 ==> m % 0x1_0000 == 0) && (s == 2 ==> m % 0x100 == 0)
    ensures Shl(if s <= 3 then Shr(m, 8 * (3 - s)) else Shl(m, 8 * (s - 3)), 24) == Shl(m, 8 * s)
  {
    if s >= 3 {
      ShlShl(m, 8 * (s - 3), 24);
    } else {
      NothingDropped(m, 8 * (3 - s));
      ShlShl(Shr(m, 8 * (3 - s)), 8 * (3 - s), 8 * s);
    }
  }

  lemma NothingDropped(m: nat, k: nat)
    requires (k == 8 && m % 0x100 == 0) || (k == 16 && m % 0x1_0000 == 0)
    ensures Shl(Shr(m, k), k) == m
  {
    if k == 8 {
      ShrByte(m);
      ShlByte(m / 0x100);
    } else {
      TwoBytes(m / 0x1_0000);
      ShlPow();
      SplitUnique(m, 16, m / 0x1_0000, 0);
    }
  }

  lemma TwoBytes(x: nat)
    ensures Shl(x, 16) == 0x1_0000 * x
  {
    ShlByte(x);
    ShlByte(0x100 * x);
    ShlShl(x, 8, 8);
  }

  lemma NormalRange(m: nat, e: nat)
    requires 0x8000 <= m < 0x80_0000
    ensures Shl(1, e + 15) <= Shl(m, e) < Shl(1, e + 23)
  {
    ShlPow();
    ShlMonotone(0x8000, m, e);
    ShlMonotone(m, 0x80_0000, e);
    ShlShl(1, 15, e);
    ShlShl(1, 23, e);
  }

  lemma SameSize(m: nat, s: nat, n: nat, t: nat)
    requires 0x8000 <= m < 0x80_0000 && 0x8000 <= n < 0x80_0000 && Shl(m, 8 * s) == Shl(n, 8 * t)
    ensures t <= s
  {
    if s < t {
      NormalRange(m, 8 * s);
      NormalRange(n, 8 * t);
      Pow2Up(8 * s + 23, 8 * t + 15);
    }
  }

  lemma SameMantissa(m: nat, n: nat, e: nat)
    requires Shl(m, e) == Shl(n, e)
    ensures m <= n
  {
    if n < m {
      ShlMonotone(n, m, e);
    }
  }

  /** So a number has one word in normal form, and that is what GetCompact gives. */
  lemma OneNormal(c: Word, d: Word)
    requires Normal(c) && Normal(d) && Exact(c) == Exact(d)
    ensures c == d
  {
    NormalExact(Mantissa(c), SizeOf(c));
    NormalExact(Mantissa(d), SizeOf(d));
    SameFields(Mantissa(c), SizeOf(c), Mantissa(d), SizeOf(d));
    Assembled(c);
    Assembled(d);
  }

  lemma Assembled(c: Word)
    requires !SignBit(c)
    ensures c == 0x100_0000 * SizeOf(c) + Mantissa(c)
  {
  }

  lemma SameFields(m: nat, s: nat, n: nat, t: nat)
    requires 0x8000 <= m < 0x80_0000 && 0x8000 <= n < 0x80_0000 && Shl(m, 8 * s) == Shl(n, 8 * t)
    ensures m == n && s == t
  {
    SameSize(m, s, n, t);
    SameSize(n, t, m, s);
    SameMantissa(m, n, 8 * s);
    SameMantissa(n, m, 8 * s);
  }

  // ----------------------------------------------------------------- methods

  method SetCompact(a: Number, c: Word) returns (negative: bool, overflow: bool)
    requires a.pn.Length == 8
    modifies a.pn
    ensures a.V() == LowBits(Exact(c), 256)
    ensures negative <==> SignBit(c) && Exact(c) != 0
    ensures overflow <==> Exact(c) >= Shl(1, 256)
  {
    var nSize, nWord := SizeOf(c), Mantissa(c);
    OverflowExactly(c);
    if nSize <= 3 {
      ShrFits(nWord, 8 * (3 - nSize));
      nWord := Shr(nWord, 8 * (3 - nSize));
      a.Assign(nWord);
      FitsAlready(Exact(c));
    } else {
      SetShifted(a, nWord, 8 * (nSize - 3));
    }
    negative := nWord != 0 && SignBit(c);
    overflow := Overflows(nSize, nWord);
  }

  lemma FitsAlready(v: nat)
    requires v < 0x80_0000
    ensures LowBits(v, 256) == v
  {
    ShlPow();
    Pow2Up(23, 256);
    LowBitsSmall(v, 256);
  }

  method SetShifted(a: Number, word: nat, e: nat)
    requires a.pn.Length == 8 && word < 0x80_0000
    modifies a.pn
    ensures a.V() == LowBits(Shl(word, e), 256) && (word == 0 <==> Shl(word, e) == 0)
  {
    a.Assign(word);
    a.ShiftLeft(e);
    ShlZero(e);
    ShlAtLeast(word, e);
  }

  /** The word put together from mantissa, size and sign. */
  lemma PutTogether(m: nat, size: nat)
    requires m < 0x80_0000
    ensures Or(m, Shl(size, 24)) == m + 0x100_0000 * size
    ensures Or(m + 0x100_0000 * size, 0x80_0000) == m + 0x100_0000 * size + 0x80_0000
  {
    ShlPow();
    ShlIsTimes(size, 24);
    Pow2IsShl(24);
    OrDisjoint(m, size, 24);
    ShlShl(size, 1, 23);
    OrAbove(m, 2 * size, 1, 23);
    OrEven(size);
    ShlSum(2 * size, 1, 23);
  }

  lemma OrEven(x: nat)
    ensures Or(2 * x, 1) == 2 * x + 1
  {
  }

  method GetCompact(a: Number, negative: bool) returns (c: Word)
    requires a.pn.Length == 8
    ensures a.V() < Shl(1, 256)
    ensures c == CompactOf(a.V()) + if negative && Mantissa(CompactOf(a.V())) != 0 then 0x80_0000 else 0
  {
    var bits := a.BitCount();
    var nSize := (bits + 7) / 8;
    BytesFromBits(a.V(), bits);
    ValueBound(a.pn[..]);
    var nCompact := LeadingBytes(a, nSize);
    c := Assemble(nCompact, nSize, negative, a.V());
  }

  method Assemble(top: nat, size: nat, negative: bool, ghost v: nat) returns (c: Word)
    requires v < Shl(1, 256) && ByteLength(v, size) && top == TopBytes(v, size) && size <= 32
    ensures c == CompactOf(v) + if negative && Mantissa(CompactOf(v)) != 0 then 0x80_0000 else 0
  {
    BytesIs(v, size);
    EncodeFits(v, size);
    TopBytesRange(v, size);
    var nCompact, nSize := top, size;
    if nCompact >= 0x80_0000 {
      nCompact := nCompact / 0x100;
      nSize := nSize + 1;
    }
    assert nCompact < 0x80_0000 && nSize < 0x100;
    assert CompactOf(v) == nCompact + 0x100_0000 * nSize && Mantissa(CompactOf(v)) == nCompact;
    c := PutFields(nCompact, nSize, negative);
  }

  method PutFields(m: nat, size: nat, negative: bool) returns (c: Word)
    requires m < 0x80_0000 && size < 0x80
    ensures c == m + 0x100_0000 * size + if negative && m != 0 then 0x80_0000 else 0
  {
    PutTogether(m, size);
    var nCompact := Or(m, Shl(size, 24));
    if negative && m != 0 {
      nCompact := Or(nCompact, 0x80_0000);
    }
    c := nCompact;
  }

  method LeadingBytes(a: Number, nSize: nat) returns (top: nat)
    requires a.pn.Length == 8 && ByteLength(a.V(), nSize)
    ensures top == TopBytes(a.V(), nSize)
  {
    TopBytesRange(a.V(), nSize);
    ShlPow();
    Pow2Up(24, 64);
    if nSize <= 3 {
      var low := a.GetLow64();
      Pow2Up(8 * nSize, 24);
      LowBitsSmall(a.V(), 64);
      top := Shl(low, 8 * (3 - nSize));
    } else {
      var bn := new Number.Copy(a);
      bn.ShiftRight(8 * (nSize - 3));
      top := bn.GetLow64();
      LowBitsSmall(bn.V(), 64);
    }
  }

  /** No target is all ones, so adding one to it never wraps around. */
  lemma NotAllOnes(c: Word)
    requires Exact(c) < Shl(1, 256)
    ensures Exact(c) + 1 < Shl(1, 256)
  {
    if SizeOf(c) <= 3 {
      ShrFits(Mantissa(c), 8 * (3 - SizeOf(c)));
      ShlPow();
      Pow2Up(24, 256);
    } else {
      var e := 8 * (SizeOf(c) - 3);
      assert Shl(Mantissa(c), e) == 2 * Shl(Mantissa(c), e - 1);
      assert Shl(1, 256) == 2 * Shl(1, 255);
    }
  }

  lemma OneMore(q: nat, t: nat)
    requires t < Shl(1, 256) && IsQuotient(q, Shl(1, 256) - 1 - t, t + 1)
    ensures IsQuotient(q + 1, Shl(1, 256), t + 1)
  {
    assert (q + 1) * (t + 1) == q * (t + 1) + (t + 1);
  }

  lemma ProofFits(q: nat, t: nat)
    requires 0 < t && IsQuotient(q + 1, Shl(1, 256), t + 1)
    ensures q + 1 < Shl(1, 256)
  {
    Nonlinear.MulMonotone(2, t + 1, q + 1);
  }

  /** GetBlockProof: none for a target that is negative, too large or zero; otherwise 2^256 / (target + 1), rounded
      down.  The division is never by zero. */
  method GetBlockProof(nBits: Word) returns (r: Number)
    ensures fresh(r) && r.pn.Length == 8
    ensures if (SignBit(nBits) && Exact(nBits) != 0) || Exact(nBits) >= Shl(1, 256) || Exact(nBits) == 0 then r.V() == 0
            else IsQuotient(r.V(), Shl(1, 256), Exact(nBits) + 1)
  {
    var target := new Number.Zero(8);
    var negative, overflow := SetCompact(target, nBits);
    var zero := target.EqualTo(0);
    if negative || overflow || zero {
      r := new Number.Zero(8);
      ValueZeros(8);
      TargetZero(nBits);
      return;
    }
    LowBitsSmall(Exact(nBits), 256);
    NotAllOnes(nBits);
    r := BlockWork(target, Exact(nBits));
  }

  lemma TargetZero(c: Word)
    ensures Exact(c) < Shl(1, 256) ==> LowBits(Exact(c), 256) == Exact(c)
  {
    if Exact(c) < Shl(1, 256) {
      LowBitsSmall(Exact(c), 256);
    }
  }

  method AddOne(a: Number, ghost v: nat)
    requires a.pn.Length == 8 && a.V() == v && v + 1 < Shl(1, 256)
    modifies a.pn
    ensures a.V() == v + 1
  {
    var one := new Number.Zero(8);
    one.Assign(1);
    a.AddAssign(one);
    LowBitsSmall(v + 1, 256);
  }

  method BlockWork(target: Number, ghost t: nat) returns (r: Number)
    requires target.pn.Length == 8 && target.V() == t && 0 < t && t + 1 < Shl(1, 256)
    ensures fresh(r) && r.pn.Length == 8 && IsQuotient(r.V(), Shl(1, 256), t + 1)
  {
    var divisor := new Number.Copy(target);
    AddOne(divisor, t);
    r := target.Inverted();
    var thrown := DivideAssign(r, divisor);
    ghost var q := r.V();
    OneMore(q, t);
    ProofFits(q, t);
    AddOne(r, q);
  }
}
