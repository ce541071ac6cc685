/**
 Merkle branches: the siblings on the way from a leaf to the root.  Hashing up a branch gives the root exactly when the
 leaf and every hash of the branch are the true ones.
 */
module MerkleBranch {
  import opened Bits
  import opened MerkleTree
  import opened MerkleCounter

  /** The hash a node is combined with: its sibling's, or its own where there is none. */
  function Sibling(hash: Combine, leaves: seq<Hash>, level: nat, p: nat): Hash
    requires First(level, p) < |leaves|
  {
    if p % 2 == 1 then
      FirstMonotone(level, p - 1, p);
      CalcHash(hash, leaves, level, p - 1)
    else if p + 1 < Width(|leaves|, level) then
      InTree(|leaves|, level, p + 1);
      CalcHash(hash, leaves, level, p + 1)
    else CalcHash(hash, leaves, level, p)
  }

  /** One step up, as the verifier makes it. */
  function Combined(hash: Combine, h: Hash, sibling: Hash, p: nat): Hash {
    if p % 2 == 1 then hash(sibling, h) else hash(h, sibling)
  }

  lemma ParentOf(hash: Combine, leaves: seq<Hash>, level: nat, p: nat)
    requires First(level, p) < |leaves|
    ensures First(level + 1, p / 2) < |leaves|
    ensures CalcHash(hash, leaves, level + 1, p / 2) ==
            Combined(hash, CalcHash(hash, leaves, level, p), Sibling(hash, leaves, level, p), p)
  {
    var q := p / 2;
    if p == 2 * q + 1 {
      Join(hash, leaves, level, q);
    } else if p + 1 < Width(|leaves|, level) {
      InTree(|leaves|, level, p + 1);
      Join(hash, leaves, level, q);
    } else {
      InTree(|leaves|, level, p);
      JoinSelf(hash, leaves, level, q);
    }
  }

  /** The ancestors of a leaf are in the tree. */
  lemma {:induction false} Above(n: nat, pos: nat, level: nat)
    requires pos < n
    ensures First(level, Shr(pos, level)) < n
  {
    if level > 0 {
      Above(n, pos, level - 1);
      InTree(n, level - 1, Shr(pos, level - 1));
      InTree(n, level, Shr(pos, level));
    }
  }

  /** The hashes are the siblings on the way up from a leaf. */
  ghost predicate Path(hash: Combine, leaves: seq<Hash>, pos: nat, branch: seq<Hash>) {
    PathTo(hash, leaves, pos, branch, |branch|)
  }

  ghost predicate PathTo(hash: Combine, leaves: seq<Hash>, pos: nat, branch: seq<Hash>, n: nat) {
    pos < |leaves| && n <= |branch| && forall k | 0 <= k < n :: SiblingAt(hash, leaves, pos, k, branch[k])
  }

  ghost predicate SiblingAt(hash: Combine, leaves: seq<Hash>, pos: nat, level: nat, h: Hash)
    requires pos < |leaves|
  {
    Above(|leaves|, pos, level);
    h == Sibling(hash, leaves, level, Shr(pos, level))
  }

  /** Hashing up a branch, one hash after the other. */
  function Climb(hash: Combine, h: Hash, branch: seq<Hash>, index: nat, n: nat): Hash
    requires n <= |branch|
  {
    if n == 0 then h else Combined(hash, Climb(hash, h, branch, index, n - 1), branch[n - 1], Shr(index, n - 1))
  }

  /** A true branch leads from a true leaf to the true hashes above it. */
  lemma {:induction false} ClimbReaches(hash: Combine, leaves: seq<Hash>, pos: nat, branch: seq<Hash>, n: nat)
    requires Path(hash, leaves, pos, branch) && n <= |branch|
    ensures First(n, Shr(pos, n)) < |leaves| && Climb(hash, leaves[pos], branch, pos, n) == CalcHash(hash, leaves, n, Shr(pos, n))
  {
    Above(|leaves|, pos, n);
    if n > 0 {
      ClimbReaches(hash, leaves, pos, branch, n - 1);
      assert SiblingAt(hash, leaves, pos, n - 1, branch[n - 1]);
      ParentOf(hash, leaves, n - 1, Shr(pos, n - 1));
    }
  }

  lemma TopSound(hash: Combine, leaves: seq<Hash>, pos: nat, h: Hash, sibling: Hash, level: nat)
    requires Injective(hash) && pos < |leaves|
    requires First(level, Shr(pos, level)) < |leaves| && First(level + 1, Shr(pos, level + 1)) < |leaves|
    requires Combined(hash, h, sibling, Shr(pos, level)) == CalcHash(hash, leaves, level + 1, Shr(pos, level + 1))
    ensures h == CalcHash(hash, leaves, level, Shr(pos, level)) && SiblingAt(hash, leaves, pos, level, sibling)
  {
    ParentOf(hash, leaves, level, Shr(pos, level));
  }

  /** And only a true branch from the true leaf does. */
  lemma {:induction false} ClimbSound(hash: Combine, leaves: seq<Hash>, pos: nat, h: Hash, branch: seq<Hash>, n: nat)
    requires Injective(hash) && pos < |leaves| && n <= |branch| && First(n, Shr(pos, n)) < |leaves|
    requires Climb(hash, h, branch, pos, n) == CalcHash(hash, leaves, n, Shr(pos, n))
    ensures h == leaves[pos] && PathTo(hash, leaves, pos, branch, n)
  {
    if n > 0 {
      Above(|leaves|, pos, n - 1);
      TopSound(hash, leaves, pos, Climb(hash, h, branch, pos, n - 1), branch[n - 1], n - 1);
      ClimbSound(hash, leaves, pos, h, branch, n - 1);
    }
  }

  lemma PathOn(hash: Combine, leaves: seq<Hash>, pos: nat, branch: seq<Hash>, h: Hash)
    requires Path(hash, leaves, pos, branch) && First(|branch|, Shr(pos, |branch|)) < |leaves|
    requires h == Sibling(hash, leaves, |branch|, Shr(pos, |branch|))
    ensures Path(hash, leaves, pos, branch + [h])
  {
  }

  lemma TopIsRoot(n: nat, pos: nat, height: nat)
    requires pos < n && IsHeight(n, height)
    ensures height == Height(n) && Shr(pos, height) == 0 && First(height, 0) < n
  {
    HeightIs(n, height);
    Above(n, pos, height);
    InTree(n, height, Shr(pos, height));
  }

  method ComputeMerkleRootFromBranch(hash: Combine, leaf: Hash, branch: seq<Hash>, index: nat) returns (root: Hash)
    ensures root == Climb(hash, leaf, branch, index, |branch|)
  {
    root := leaf;
    var nIndex := index;
    for i := 0 to |branch|
      invariant root == Climb(hash, leaf, branch, index, i) && nIndex == Shr(index, i)
    {
      root := if nIndex % 2 == 1 then hash(branch[i], root) else hash(root, branch[i]);
      nIndex := nIndex / 2;
    }
  }

  /** A branch of the tree's height verifies exactly for the true leaf with its true siblings. */
  lemma BranchExactly(hash: Combine, leaves: seq<Hash>, pos: nat, leaf: Hash, branch: seq<Hash>)
    requires Injective(hash) && pos < |leaves| && |branch| == Height(|leaves|)
    ensures Climb(hash, leaf, branch, pos, |branch|) == Root(hash, leaves) <==>
            leaf == leaves[pos] && Path(hash, leaves, pos, branch)
  {
    HeightIs(|leaves|, |branch|);
    TopIsRoot(|leaves|, pos, |branch|);
    if leaf == leaves[pos] && Path(hash, leaves, pos, branch) {
      ClimbReaches(hash, leaves, pos, branch, |branch|);
    }
    if Climb(hash, leaf, branch, pos, |branch|) == Root(hash, leaves) {
      ClimbSound(hash, leaves, pos, leaf, branch, |branch|);
    }
  }
}
