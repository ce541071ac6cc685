/**
 The Merkle tree over a block's transaction ids: the shape of its levels, and the recursive hash of a node.  The hash of
 two hashes is a parameter; zero stands for the null hash.
 */
module MerkleTree {
  import Nonlinear
  import opened Bits

  type Hash = nat
  type Combine = (Hash, Hash) -> Hash

  ghost predicate Injective(hash: Combine) {
    forall a, b, c, d :: hash(a, b) == hash(c, d) ==> a == c && b == d
  }

  ghost predicate Distinct(txids: seq<Hash>) {
    forall i, j | 0 <= i < j < |txids| :: txids[i] != txids[j]
  }

  // ------------------------------------------------------------------- shape

  /** How many nodes lie at a height. */
  function Width(n: nat, height: nat): nat {
    if height == 0 then n else (Width(n, height - 1) + 1) / 2
  }

  /** The first leaf under a node. */
  function First(height: nat, pos: nat): nat {
    if height == 0 then pos else First(height - 1, 2 * pos)
  }

  /** One past the last leaf under a node of a tree of n leaves. */
  function Last(n: nat, height: nat, pos: nat): nat {
    if First(height, pos + 1) < n then First(height, pos + 1) else n
  }

  lemma {:induction false} FirstIsShift(height: nat, pos: nat)
    ensures First(height, pos) == pos * Pow2(height)
  {
    if height > 0 {
      FirstIsShift(height - 1, 2 * pos);
      assert 2 * pos * Pow2(height - 1) == pos * (2 * Pow2(height - 1));
    }
  }

  lemma {:induction false} FirstMonotone(height: nat, p: nat, q: nat)
    requires p < q
    ensures First(height, p) < First(height, q)
  {
    if height > 0 {
      FirstMonotone(height - 1, 2 * p, 2 * q);
    }
  }

  lemma {:induction false} FirstAdds(level: nat, p: nat, q: nat)
    ensures First(level, p) + First(level, q) == First(level, p + q)
  {
    if level > 0 {
      FirstAdds(level - 1, 2 * p, 2 * q);
    }
  }

  /** A node is in the tree exactly when its first leaf is. */
  lemma {:induction false} InTree(n: nat, height: nat, pos: nat)
    ensures pos < Width(n, height) <==> First(height, pos) < n
  {
    if height > 0 {
      InTree(n, height - 1, 2 * pos);
    }
  }

  /** The level width as the source computes it, by adding and shifting. */
  lemma {:induction false} WidthIsShift(n: nat, height: nat)
    ensures Width(n, height) == (n + Pow2(height) - 1) / Pow2(height)
  {
    var w, p := Width(n, height), Pow2(height);
    if n > 0 {
      InTree(n, height, w);
      FirstIsShift(height, w);
      WidthPositive(n, height);
      InTree(n, height, w - 1);
      FirstIsShift(height, w - 1);
      assert (w - 1) * p == w * p - p;
      Nonlinear.DivUnique(n + p - 1, p, w);
    } else {
      WidthZero(height);
      Nonlinear.DivUnique(p - 1, p, 0);
    }
  }

  lemma {:induction false} WidthZero(height: nat)
    ensures Width(0, height) == 0
  {
    if height > 0 {
      WidthZero(height - 1);
    }
  }

  lemma {:induction false} WidthPositive(n: nat, height: nat)
    requires n > 0
    ensures Width(n, height) > 0
  {
    if height > 0 {
      WidthPositive(n, height - 1);
    }
  }

  lemma {:induction false} WidthFalls(n: nat, k: nat, level: nat)
    requires k <= level
    ensures Width(n, level) <= Width(n, k)
  {
    if k < level {
      WidthFalls(n, k, level - 1);
    }
  }

  /** The height of the tree is the first level of at most one node. */
  ghost predicate IsHeight(n: nat, height: nat) {
    Width(n, height) <= 1 && forall k | 0 <= k < height :: Width(n, k) > 1
  }

  function HeightFrom(n: nat, height: nat): nat
    decreases Width(n, height)
  {
    if Width(n, height) <= 1 then height else HeightFrom(n, height + 1)
  }

  function Height(n: nat): nat { HeightFrom(n, 0) }

  lemma {:induction false} HeightFromIs(n: nat, height: nat)
    requires forall k | 0 <= k < height :: Width(n, k) > 1
    ensures IsHeight(n, HeightFrom(n, height))
    decreases Width(n, height)
  {
    if Width(n, height) > 1 {
      HeightFromIs(n, height + 1);
    }
  }

  lemma HeightIs(n: nat, height: nat)
    ensures IsHeight(n, height) <==> height == Height(n)
  {
    HeightFromIs(n, 0);
    if IsHeight(n, height) {
      assert !(height < Height(n)) && !(Height(n) < height);
    }
  }

  lemma {:induction false} FirstZero(height: nat)
    ensures First(height, 0) == 0
  {
    if height > 0 {
      FirstZero(height - 1);
    }
  }

  /** The root covers all leaves. */
  lemma RootCovers(n: nat)
    requires n > 0
    ensures First(Height(n), 0) == 0 && Last(n, Height(n), 0) == n
  {
    FirstZero(Height(n));
    HeightIs(n, Height(n));
    InTree(n, Height(n), 1);
  }

  /** The shift in CalcTreeWidth stays inside 32 bits up to the tree's height. */
  lemma WidthFits(n: nat, height: nat, h: nat)
    requires IsHeight(n, height) && h <= height && n <= 0x4000_0000
    ensures n + Pow2(h) - 1 < 0x1_0000_0000
  {
    if h > 0 {
      assert Width(n, h - 1) > 1;
      InTree(n, h - 1, 1);
      FirstIsShift(h - 1, 1);
    }
  }

  predicate HasRight(n: nat, height: nat, pos: nat)
    requires height > 0
  {
    2 * pos + 1 < Width(n, height - 1)
  }

  /** The leaves of a node are those of its children, in order. */
  lemma Children(n: nat, height: nat, pos: nat)
    requires height > 0 && First(height, pos) < n
    ensures First(height - 1, 2 * pos) == First(height, pos) < Last(n, height - 1, 2 * pos) <= n
    ensures if HasRight(n, height, pos) then
              && First(height - 1, 2 * pos + 1) == Last(n, height - 1, 2 * pos) < n
              && Last(n, height - 1, 2 * pos + 1) == Last(n, height, pos)
            else Last(n, height - 1, 2 * pos) == Last(n, height, pos) == n
  {
    InTree(n, height - 1, 2 * pos + 1);
    FirstMonotone(height - 1, 2 * pos, 2 * pos + 1);
    FirstMonotone(height - 1, 2 * pos + 1, 2 * pos + 2);
    assert First(height, pos + 1) == First(height - 1, 2 * pos + 2);
  }

  // ------------------------------------------------------------------ hashes

  /** CalcHash: the hash of a node; a missing right child is replaced by the left one. */
  function CalcHash(hash: Combine, txids: seq<Hash>, height: nat, pos: nat): Hash
    requires First(height, pos) < |txids|
  {
    if height == 0 then txids[pos]
    else
      var left := CalcHash(hash, txids, height - 1, 2 * pos);
      InTree(|txids|, height - 1, 2 * pos + 1);
      hash(left, if 2 * pos + 1 < Width(|txids|, height - 1) then CalcHash(hash, txids, height - 1, 2 * pos + 1) else left)
  }

  /** Two neighbouring nodes, the right one in the tree, make their parent. */
  lemma Join(hash: Combine, txids: seq<Hash>, level: nat, pos: nat)
    requires First(level, 2 * pos + 1) < |txids|
    ensures First(level, 2 * pos) < |txids| && First(level + 1, pos) < |txids|
    ensures CalcHash(hash, txids, level + 1, pos) ==
            hash(CalcHash(hash, txids, level, 2 * pos), CalcHash(hash, txids, level, 2 * pos + 1))
  {
    FirstMonotone(level, 2 * pos, 2 * pos + 1);
    InTree(|txids|, level, 2 * pos + 1);
  }

  /** A last left child makes its parent with itself. */
  lemma JoinSelf(hash: Combine, txids: seq<Hash>, level: nat, pos: nat)
    requires First(level, 2 * pos) < |txids| && Width(|txids|, level) == 2 * pos + 1
    ensures First(level + 1, pos) < |txids|
    ensures CalcHash(hash, txids, level + 1, pos) ==
            hash(CalcHash(hash, txids, level, 2 * pos), CalcHash(hash, txids, level, 2 * pos))
  {
  }

  /** The Merkle root of a non-empty list of transaction ids. */
  function Root(hash: Combine, txids: seq<Hash>): Hash
    requires txids != []
  {
    FirstZero(Height(|txids|));
    CalcHash(hash, txids, Height(|txids|), 0)
  }

  /** One level up: neighbours are combined, an odd last one with itself. */
  function Up(hash: Combine, level: seq<Hash>): (r: seq<Hash>)
    ensures |r| == (|level| + 1) / 2
  {
    if |level| == 0 then []
    else if |level| == 1 then [hash(level[0], level[0])]
    else [hash(level[0], level[1])] + Up(hash, level[2..])
  }

  function Level(hash: Combine, txids: seq<Hash>, height: nat): (r: seq<Hash>)
    ensures |r| == Width(|txids|, height)
  {
    if height == 0 then txids else Up(hash, Level(hash, txids, height - 1))
  }

  lemma {:induction false} UpAt(hash: Combine, level: seq<Hash>, pos: nat)
    requires 2 * pos < |level|
    ensures pos < |Up(hash, level)|
    ensures Up(hash, level)[pos] == hash(level[2 * pos], if 2 * pos + 1 < |level| then level[2 * pos + 1] else level[2 * pos])
  {
    if pos > 0 {
      UpAt(hash, level[2..], pos - 1);
    }
  }

  /** The recursive hash of a node is the entry of its level in the tree built level by level. */
  lemma {:induction false} CalcHashIsLevel(hash: Combine, txids: seq<Hash>, height: nat, pos: nat)
    requires First(height, pos) < |txids|
    ensures pos < Width(|txids|, height)
    ensures CalcHash(hash, txids, height, pos) == Level(hash, txids, height)[pos]
  {
    InTree(|txids|, height, pos);
    if height > 0 {
      var below, left, right := Level(hash, txids, height - 1), 2 * pos, 2 * pos + 1;
      CalcHashIsLevel(hash, txids, height - 1, left);
      if right < |below| {
        assert First(height - 1, right) < |txids| by {
          InTree(|txids|, height - 1, right);
        }
        CalcHashIsLevel(hash, txids, height - 1, right);
      }
      UpAt(hash, below, pos);
    }
  }

  /** With distinct ids and no collisions, no two nodes of a level have the same hash. */
  lemma {:induction false} SameHashSameFirst(hash: Combine, txids: seq<Hash>, height: nat, p: nat, q: nat)
    requires Injective(hash) && First(height, p) < |txids| && First(height, q) < |txids|
    requires CalcHash(hash, txids, height, p) == CalcHash(hash, txids, height, q)
    ensures txids[First(height, p)] == txids[First(height, q)]
  {
    if height > 0 {
      SameHashSameFirst(hash, txids, height - 1, 2 * p, 2 * q);
    }
  }

  lemma NoTwinsWhenDistinct(hash: Combine, txids: seq<Hash>, height: nat, p: nat, q: nat)
    requires Injective(hash) && Distinct(txids) && p < q && First(height, q) < |txids|
    ensures First(height, p) < |txids|
    ensures CalcHash(hash, txids, height, p) != CalcHash(hash, txids, height, q)
  {
    FirstMonotone(height, p, q);
    if CalcHash(hash, txids, height, p) == CalcHash(hash, txids, height, q) {
      SameHashSameFirst(hash, txids, height, p, q);
    }
  }
}
