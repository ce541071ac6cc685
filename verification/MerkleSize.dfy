/**
 The size of a serialized partial Merkle tree, against the bound its documentation calls a hard guarantee.
 */
module MerkleSize {
  import opened Bits
  import opened MerkleTree
  import opened MerkleBlock
  import opened PartialMerkleTree

  /** The bytes a count takes. */
  function CompactSize(n: nat): nat { if n < 253 then 1 else if n <= 0xFFFF then 3 else if n <= 0xFFFF_FFFF then 5 else 9 }

  /** The bytes of a tree: the number of transactions, the counted hashes, and the counted bytes of flag bits. */
  function Size(hashes: nat, bytes: nat): nat { 4 + CompactSize(hashes) + 32 * hashes + CompactSize(bytes) + bytes }

  /** 10 + ceil(32.25 * N) */
  function Guaranteed(hashes: nat): nat { 10 + 32 * hashes + (hashes + 3) / 4 }

  /** A block has at most 18 levels above its transactions, and the root is never a lone parent. */
  lemma FewLoneNodes(mask: seq<bool>)
    requires 0 < |mask| <= MAX_TRANSACTIONS
    ensures LoneNodes(mask, Height(|mask|), 0) <= 17
  {
    var n, h := |mask|, Height(|mask|);
    HeightIs(n, h);
    FirstZero(h);
    if h > 0 {
      assert Width(n, h - 1) > 1;
      FirstZero(h - 1);
      InTree(n, h - 1, 1);
      FirstIsShift(h - 1, 1);
      LoneNodesAtMost(mask, h - 1, 0);
      LoneNodesAtMost(mask, h - 1, 1);
      LargePowers(h - 1);
    }
  }

  lemma LargePowers(h: nat)
    ensures h > 17 ==> Pow2(h) >= 0x4_0000
  {
    assert Pow2(8) == 0x100;
    assert Pow2(18) == 0x4_0000;
    if h > 17 {
      Pow2Monotone(18, h);
    }
  }

  /** The hashes a tree takes: N is the number of leaves of the part of the tree that is visited. */
  function Leaves(mask: seq<bool>, height: nat, pos: nat): nat {
    if height == 0 || !ParentOfMatch(mask, height, pos) then 1
    else Leaves(mask, height - 1, 2 * pos) + if HasRight(|mask|, height, pos) then Leaves(mask, height - 1, 2 * pos + 1) else 0
  }

  lemma {:induction false} HashesExactly(hash: Combine, txids: seq<Hash>, mask: seq<bool>, height: nat, pos: nat)
    requires |txids| == |mask| && First(height, pos) < |txids|
    ensures |Build(hash, txids, mask, height, pos).1| == Leaves(mask, height, pos)
    decreases height
  {
    if height > 0 && ParentOfMatch(mask, height, pos) {
      Children(|txids|, height, pos);
      HashesExactly(hash, txids, mask, height - 1, 2 * pos);
      if HasRight(|txids|, height, pos) {
        HashesExactly(hash, txids, mask, height - 1, 2 * pos + 1);
      }
    }
  }

  /** What the choice of transactions says: at most 65535 leaves, and few enough lone children that the flag bits either
      fit in 252 bytes or in the bytes that 2N - 1 bits take. */
  predicate SmallEnough(mask: seq<bool>) {
    var n, lone := Leaves(mask, Height(|mask|), 0), LoneNodes(mask, Height(|mask|), 0);
    n <= 0xFFFF && (2 * n - 1 + lone <= 8 * 252 || lone <= 1 + 2 * ((4 - n % 4) % 4))
  }

  /** The guarantee holds exactly for such a choice. */
  lemma SizeBound(hash: Combine, txids: seq<Hash>, mask: seq<bool>)
    requires 0 < |txids| == |mask| <= MAX_TRANSACTIONS
    ensures var (bits, hashes) := Encoded(hash, txids, mask);
            Size(|hashes|, (|bits| + 7) / 8) <= Guaranteed(|hashes|) <==> SmallEnough(mask)
  {
    FirstZero(Height(|txids|));
    HashBound(hash, txids, mask);
    BitsExactly(hash, txids, mask, Height(|txids|), 0);
    HashesExactly(hash, txids, mask, Height(|txids|), 0);
    FewLoneNodes(mask);
    SizeArithmetic(Leaves(mask, Height(|mask|), 0), LoneNodes(mask, Height(|mask|), 0));
  }

  lemma SizeArithmetic(n: nat, lone: nat)
    requires 1 <= n <= MAX_TRANSACTIONS && lone <= 17
    ensures Size(n, (2 * n - 1 + lone + 7) / 8) <= Guaranteed(n) <==>
            n <= 0xFFFF && (2 * n - 1 + lone <= 8 * 252 || lone <= 1 + 2 * ((4 - n % 4) % 4))
  {
    var bytes, quarter, spare := (2 * n - 1 + lone + 7) / 8, (n + 3) / 4, (4 - n % 4) % 4;
    assert 4 * quarter == n + spare;
    assert bytes <= quarter <==> lone <= 1 + 2 * spare;
    assert quarter <= bytes <= quarter + 2;
  }

  /** With every transaction matched there is a hash for each. */
  lemma {:induction false} AllMatched(hash: Combine, txids: seq<Hash>, mask: seq<bool>, height: nat, pos: nat)
    requires |txids| == |mask| && First(height, pos) < |txids| && forall i | 0 <= i < |mask| :: mask[i]
    ensures |Build(hash, txids, mask, height, pos).1| == Last(|txids|, height, pos) - First(height, pos)
    decreases height
  {
    FirstMonotone(height, pos, pos + 1);
    assert mask[First(height, pos)];
    assert ParentOfMatch(mask, height, pos);
    if height > 0 {
      Children(|txids|, height, pos);
      AllMatched(hash, txids, mask, height - 1, 2 * pos);
      if HasRight(|txids|, height, pos) {
        AllMatched(hash, txids, mask, height - 1, 2 * pos + 1);
      }
    }
  }

  /** So any block of more than 65535 transactions, all matched, is larger than guaranteed. */
  lemma LargeBlock(hash: Combine, txids: seq<Hash>, mask: seq<bool>)
    requires 0xFFFF < |txids| == |mask| <= MAX_TRANSACTIONS && forall i | 0 <= i < |mask| :: mask[i]
    ensures var (bits, hashes) := Encoded(hash, txids, mask); Size(|hashes|, (|bits| + 7) / 8) > Guaranteed(|hashes|)
  {
    RootCovers(|txids|);
    AllMatched(hash, txids, mask, Height(|txids|), 0);
    HashesExactly(hash, txids, mask, Height(|txids|), 0);
    SizeBound(hash, txids, mask);
  }

  /** The last leaf alone in its subtree: a lone child on every level. */
  lemma {:induction false} LoneChain(mask: seq<bool>, height: nat, pos: nat)
    requires First(height, pos) == |mask| - 1 && mask[|mask| - 1]
    ensures LoneNodes(mask, height, pos) == height
  {
    if height > 0 {
      FirstMonotone(height, pos, pos + 1);
      assert ParentOfMatch(mask, height, pos);
      InTree(|mask|, height - 1, 2 * pos + 1);
      FirstMonotone(height - 1, 2 * pos, 2 * pos + 1);
      LoneChain(mask, height - 1, 2 * pos);
    }
  }

  /** 1025 transactions, all matched: the last one costs ten bits more, and the tree takes one byte more than guaranteed. */
  lemma ManyLoneNodes(hash: Combine, txids: seq<Hash>, mask: seq<bool>)
    requires |txids| == |mask| == 1025 && forall i | 0 <= i < |mask| :: mask[i]
    ensures var (bits, hashes) := Encoded(hash, txids, mask);
            |bits| == 2059 && |hashes| == 1025 && Size(|hashes|, (|bits| + 7) / 8) == 33068 && Guaranteed(|hashes|) == 33067
  {
    Widths1025();
    RootCovers(1025);
    AllMatched(hash, txids, mask, 11, 0);
    BitsExactly(hash, txids, mask, 11, 0);
    Lone1025(mask);
    SizeOf1025();
  }

  lemma SizeOf1025()
    ensures Size(1025, (2059 + 7) / 8) == 33068 && Guaranteed(1025) == 33067
  {
  }

  lemma Lone1025(mask: seq<bool>)
    requires |mask| == 1025 && forall i | 0 <= i < |mask| :: mask[i]
    ensures LoneNodes(mask, 11, 0) == 10
  {
    Widths1025();
    RootCovers(1025);
    assert mask[0] && ParentOfMatch(mask, 11, 0);
    LoneNodesAtMost(mask, 10, 0);
    LoneChain(mask, 10, 1);
  }

  lemma Widths1025()
    ensures Height(1025) == 11 && Width(1025, 10) == 2 && First(10, 0) == 0 && First(10, 1) == 1024
  {
    assert Width(1025, 4) == 65 && Width(1025, 8) == 5 && Width(1025, 10) == 2 && Width(1025, 11) == 1;
    forall k | 0 <= k < 11 ensures Width(1025, k) > 1 {
      WidthFalls(1025, k, 10);
    }
    HeightIs(1025, 11);
    FirstZero(10);
    FirstIsShift(10, 1);
    assert Pow2(5) == 32 && Pow2(10) == 1024;
  }
}
