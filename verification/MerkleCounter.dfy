/**
 The binary counter behind the constant-space Merkle computation: its bits, the subtrees they stand for, and the width of
 the tree's levels.
 */
module MerkleCounter {
  import opened Bits
  import opened MerkleTree

  /** No bit below a level is set. */
  ghost predicate ClearBelow(c: nat, level: nat) { forall l | 0 <= l < level :: !BitAt(c, l) }

  lemma {:induction false} ShrSmall(c: nat, level: nat)
    requires c < Pow2(level)
    ensures Shr(c, level) == 0
  {
    if level > 0 {
      ShrBelow(c, level, 1);
    }
  }

  lemma {:induction false} ShrBelow(c: nat, level: nat, k: nat)
    requires c < k * Pow2(level)
    ensures Shr(c, level) < k
  {
    if level > 0 {
      assert k * (2 * Pow2(level - 1)) == 2 * k * Pow2(level - 1);
      ShrBelow(c, level - 1, 2 * k);
    }
  }

  lemma {:induction false} Pow2Is32()
    ensures Pow2(32) == 0x1_0000_0000
  {
    assert Pow2(8) == 0x100;
    assert Pow2(16) == 0x1_0000;
    assert Pow2(24) == 0x100_0000;
  }

  /** A counter below 2^32 with no bit below a level still has one below 32. */
  lemma {:induction false} BitBelow32(c: nat, level: nat)
    requires c < 0x1_0000_0000 && Shr(c, level) > 0
    ensures level < 32
  {
    if level >= 32 {
      Pow2Is32();
      ShrSmall(c, 32);
      ShrStays(c, 32, level);
    }
  }

  lemma {:induction false} ShrStays(c: nat, k: nat, level: nat)
    requires Shr(c, k) == 0 && k <= level
    ensures Shr(c, level) == 0
  {
    if k < level {
      ShrStays(c, k, level - 1);
    }
  }

  /** Every complete subtree lies inside the first c leaves. */
  lemma {:induction false} CompleteInside(c: nat, level: nat, pos: nat)
    requires pos < Shr(c, level)
    ensures First(level, pos + 1) <= c
  {
    if level > 0 {
      CompleteInside(c, level - 1, 2 * pos + 1);
    }
  }

  lemma CompleteFirst(c: nat, level: nat, pos: nat)
    requires pos < Shr(c, level)
    ensures First(level, pos) < c
  {
    CompleteInside(c, level, pos);
    FirstMonotone(level, pos, pos + 1);
  }

  /** Counting one up changes the bits up to the lowest one set, and none above. */
  lemma {:induction false} ShrSuccLow(c: nat, level: nat)
    requires ClearBelow(c + 1, level)
    ensures Shr(c, level) == Shr(c + 1, level) - 1
  {
    if level > 0 {
      ShrSuccLow(c, level - 1);
      assert !BitAt(c + 1, level - 1);
    }
  }

  lemma {:induction false} ShrSuccHigh(c: nat, level: nat, l: nat)
    requires ClearBelow(c + 1, level)
    requires BitAt(c + 1, level) && level < l
    ensures Shr(c, l) == Shr(c + 1, l)
  {
    if l == level + 1 {
      ShrSuccLow(c, level);
    } else {
      ShrSuccHigh(c, level, l - 1);
    }
  }

  lemma {:induction false} FirstShr(level: nat, pos: nat)
    ensures Shr(First(level, pos), level) == pos && ClearBelow(First(level, pos), level)
  {
    if level > 0 {
      FirstShr(level - 1, 2 * pos);
    }
  }

  lemma {:induction false} ShrFirst(c: nat, level: nat)
    requires ClearBelow(c, level)
    ensures First(level, Shr(c, level)) == c
  {
    if level > 0 {
      ShrFirst(c, level - 1);
      assert !BitAt(c, level - 1);
    }
  }

  /** How the shifted count and the level width differ: by one where something odd was left below. */
  lemma {:induction false} WidthAbove(n: nat, low: nat, level: nat)
    requires BitAt(n, low) && low <= level && ClearBelow(n, low)
    ensures Width(n, level) == Shr(n, level) + if level == low then 0 else 1
  {
    if low < level {
      WidthAbove(n, low, level - 1);
    } else {
      WidthBelow(n, level);
    }
  }

  lemma {:induction false} WidthBelow(n: nat, level: nat)
    requires ClearBelow(n, level)
    ensures Width(n, level) == Shr(n, level)
  {
    if level > 0 {
      WidthBelow(n, level - 1);
      assert !BitAt(n, level - 1);
    }
  }

  lemma ShrZero()
    ensures forall l: nat :: !BitAt(0, l)
  {
    forall l: nat ensures !BitAt(0, l) {
      ShrStays(0, 0, l);
    }
  }

  // ------------------------------------------------------------- padded count

  /** The count filled up to a whole number of nodes of a level. */
  function Padded(n: nat, level: nat): nat { First(level, Width(n, level)) }

  /** A counter of 32 bits. */
  function Low32(x: nat): nat { x % 0x1_0000_0000 }

  lemma FirstOne(level: nat)
    ensures First(level, 1) == Pow2(level) && First(32, 1) == 0x1_0000_0000 && First(31, 1) == 0x8000_0000 && First(31, 2) == 0x1_0000_0000
  {
    FirstIsShift(level, 1);
    FirstTop(32);
  }

  lemma FirstTop(top: nat)
    requires top == 32
    ensures First(top, 1) == First(top - 1, 2) == 0x1_0000_0000 && First(top - 1, 1) == 0x8000_0000
  {
    FirstIsShift(top, 1);
    Pow2Is32();
    FirstAdds(top - 1, 1, 1);
  }

  /** One level up: an odd last node takes one more of its size, an even number of nodes none. */
  lemma PaddedUp(n: nat, level: nat)
    ensures Padded(n, level + 1) == Padded(n, level) + if Width(n, level) % 2 == 1 then Pow2(level) else 0
  {
    var w := Width(n, level);
    FirstOne(level);
    FirstAdds(level, w, 1);
    assert First(level + 1, Width(n, level + 1)) == First(level, 2 * Width(n, level + 1));
  }

  lemma {:induction false} PaddedGrows(n: nat, level: nat, above: nat)
    requires level <= above
    ensures Padded(n, level) <= Padded(n, above)
  {
    if level < above {
      PaddedGrows(n, level, above - 1);
      PaddedUp(n, above - 1);
    }
  }

  lemma PaddedAtMost(n: nat, level: nat)
    requires n < 0x1_0000_0000 && level <= 32
    ensures Padded(n, level) <= 0x1_0000_0000
  {
    PaddedGrows(n, level, 32);
    FirstOne(32);
    InTree(n, 32, 1);
    FirstZero(32);
  }

  /** The test of the bit at the current level, although the counter may have wrapped around. */
  lemma PaddedBit(n: nat, level: nat)
    requires n < 0x1_0000_0000 && level < 32
    ensures BitAt(Low32(Padded(n, level)), level) <==> Width(n, level) % 2 == 1
    ensures Width(n, level) % 2 == 1 ==> Low32(Padded(n, level)) == Padded(n, level)
  {
    var w := Width(n, level);
    PaddedAtMost(n, level);
    FirstShr(level, w);
    if Padded(n, level) == 0x1_0000_0000 {
      FirstOne(32);
      FirstShr(32, 1);
      assert !BitAt(0x1_0000_0000, level);
      ShrZero();
    }
  }

  /** More than half the counter's range: one level below the top two nodes are left, which fill up to 2^32. */
  lemma PaddedWraps(n: nat)
    requires 0x8000_0000 < n < 0x1_0000_0000
    ensures Width(n, 31) == 2 && Padded(n, 31) == 0x1_0000_0000 && Low32(Padded(n, 31)) == 0
  {
    FirstOne(31);
    InTree(n, 31, 1);
    InTree(n, 31, 2);
  }

  /** One leaf more than half the range: the first additions leave the top bit, and the last one makes the counter zero with
      two nodes still to combine. */
  lemma WrapsAtOneMore()
    ensures var n := 0x8000_0001; Low32(Padded(n, 30)) == 0xC000_0000 && Low32(Padded(n, 31)) == 0 && Width(n, 31) == 2
  {
    var n := 0x8000_0001;
    PaddedWraps(n);
    FirstOne(31);
    FirstOne(30);
    FirstAdds(30, 1, 1);
    FirstAdds(30, 2, 1);
    FirstAdds(30, 3, 1);
    assert First(31, 1) == First(30, 2);
    InTree(n, 30, 2);
    InTree(n, 30, 3);
    assert Width(n, 30) == 3;
  }
}
