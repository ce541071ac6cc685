/**
 The constant-space computation of a Merkle root: leaves are folded into an array of subtree hashes indexed by
 level, like carries in a binary counter, and a final sweep closes the odd levels.  It is proved to give the root
 of the recursively hashed tree, the flag for repeated subtrees, and the branch of any leaf.
 */
module MerkleRoot {
  import opened Bits
  import opened MerkleTree
  import opened Folding
  import opened MerkleCounter
  import opened MerkleMutation
  import opened MerkleBranch
  import opened MerkleMatch

  /** What the array of subtree hashes holds after c leaves: at every level whose bit is set, the hash of the last
      complete subtree. */
  ghost predicate Carries(hash: Combine, leaves: seq<Hash>, c: nat, inner: seq<Hash>)
    requires |inner| == 32 && c <= |leaves|
  {
    forall l | 0 <= l < 32 && BitAt(c, l) :: CarryOk(hash, leaves, c, l, inner[l])
  }

  ghost predicate CarryOk(hash: Combine, leaves: seq<Hash>, c: nat, level: nat, h: Hash)
    requires c <= |leaves| && BitAt(c, level)
  {
    CompleteFirst(c, level, Shr(c, level) - 1);
    h == CalcHash(hash, leaves, level, Shr(c, level) - 1)
  }

  /** h is the hash of the last complete subtree of a level, with c leaves folded in. */
  ghost predicate Folded(hash: Combine, leaves: seq<Hash>, c: nat, level: nat, h: Hash) {
    var last := Shr(c, level) - 1;
    last >= 0 && First(level, last) < |leaves| && h == CalcHash(hash, leaves, level, last)
  }

  lemma FoldUp(hash: Combine, leaves: seq<Hash>, c: nat, level: nat, left: Hash, h: Hash)
    requires c < |leaves| && ClearBelow(c + 1, level) && !BitAt(c + 1, level)
    requires Folded(hash, leaves, c + 1, level, h)
    requires BitAt(c, level) ==> CarryOk(hash, leaves, c, level, left)
    ensures ClearBelow(c + 1, level + 1) && Folded(hash, leaves, c + 1, level + 1, hash(left, h))
  {
    ShrSuccLow(c, level);
    var q := Shr(c + 1, level + 1) - 1;
    assert Shr(c + 1, level) == 2 * q + 2;
    Join(hash, leaves, level, q);
  }

  lemma FoldDone(hash: Combine, leaves: seq<Hash>, c: nat, level: nat, h: Hash, inner: seq<Hash>)
    requires c < |leaves| && ClearBelow(c + 1, level) && BitAt(c + 1, level) && level < 32 == |inner|
    requires Folded(hash, leaves, c + 1, level, h) && Carries(hash, leaves, c, inner)
    ensures Carries(hash, leaves, c + 1, inner[level := h])
  {
    var d := c + 1;
    forall l | 0 <= l < 32 && BitAt(d, l) ensures CarryOk(hash, leaves, d, l, inner[level := h][l]) {
      if l > level {
        ShrSuccHigh(c, level, l);
        assert CarryOk(hash, leaves, c, l, inner[l]);
      } else if l < level {
        assert false;
      }
    }
  }

  // ------------------------------------------------------- repeated subtrees

  /** Two equal halves below a level that are completed by the last of d leaves. */
  ghost predicate RepeatAt(hash: Combine, leaves: seq<Hash>, d: nat, level: nat) {
    exists l: nat, q: nat :: l < level && First(l, 2 * q + 2) == d && Repeats(hash, leaves, l, q)
  }

  /** The halves compared at a level are the only ones completed there. */
  lemma RepeatHere(hash: Combine, leaves: seq<Hash>, c: nat, level: nat, left: Hash, h: Hash)
    requires c < |leaves| && ClearBelow(c + 1, level) && !BitAt(c + 1, level)
    requires Folded(hash, leaves, c + 1, level, h)
    requires BitAt(c, level) ==> CarryOk(hash, leaves, c, level, left)
    ensures RepeatAt(hash, leaves, c + 1, level + 1) <==> RepeatAt(hash, leaves, c + 1, level) || left == h
  {
    var q := Shr(c + 1, level + 1) - 1;
    Halves(hash, leaves, c, level, q, left, h);
    OneMoreLevel(hash, leaves, c + 1, level, q);
  }

  lemma OneMoreLevel(hash: Combine, leaves: seq<Hash>, d: nat, level: nat, q: nat)
    requires First(level, 2 * q + 2) == d
    ensures RepeatAt(hash, leaves, d, level + 1) <==> RepeatAt(hash, leaves, d, level) || Repeats(hash, leaves, level, q)
  {
    forall r: nat | First(level, 2 * r + 2) == d && Repeats(hash, leaves, level, r) ensures r == q {
      FirstShr(level, 2 * r + 2);
      FirstShr(level, 2 * q + 2);
    }
  }

  lemma Halves(hash: Combine, leaves: seq<Hash>, c: nat, level: nat, q: int, left: Hash, h: Hash)
    requires c < |leaves| && ClearBelow(c + 1, level) && !BitAt(c + 1, level) && q == Shr(c + 1, level + 1) - 1
    requires Folded(hash, leaves, c + 1, level, h)
    requires BitAt(c, level) ==> CarryOk(hash, leaves, c, level, left)
    ensures q >= 0 && Shr(c + 1, level) == 2 * q + 2 && First(level, 2 * q + 2) == c + 1
    ensures Repeats(hash, leaves, level, q) <==> left == h
  {
    ShrSuccLow(c, level);
    assert Shr(c + 1, level) == 2 * q + 2;
    ShrFirst(c + 1, level);
    FirstMonotone(level, 2 * q, 2 * q + 1);
    assert BitAt(c, level) && Shr(c, level) - 1 == 2 * q;
  }

  /** No halves are completed above the lowest bit set. */
  lemma RepeatBelow(hash: Combine, leaves: seq<Hash>, d: nat, level: nat)
    requires BitAt(d, level)
    ensures RepeatAt(hash, leaves, d, level) <==> exists l: nat, q: nat :: First(l, 2 * q + 2) == d && Repeats(hash, leaves, l, q)
  {
    forall l: nat, q: nat | First(l, 2 * q + 2) == d && Repeats(hash, leaves, l, q) ensures l < level {
      FirstShr(l, 2 * q + 2);
      FirstShr(l + 1, q + 1);
    }
  }

  /** Leaf c on its way up: its hash so far, the repeats met, and the leaf followed. */
  ghost predicate Rising(hash: Combine, leaves: seq<Hash>, c: nat, level: nat, h: Hash, repeats: bool, pos: nat, m: int, matchH: bool,
                         branch: seq<Hash>) {
    forall u | Unfold(u) ::
      && ClearBelow(c + 1, level) && Folded(hash, leaves, c + 1, level, h)
      && (repeats <==> RepeatAt(hash, leaves, c + 1, level))
      && Climbing(hash, leaves, pos, c, level, m, matchH, branch)
  }

  lemma RiseStart(hash: Combine, leaves: seq<Hash>, c: nat, pos: nat, m: int, branch: seq<Hash>)
    requires c < |leaves| && Tracks(hash, leaves, pos, c, m, branch)
    ensures Rising(hash, leaves, c, 0, leaves[c], false, pos, m, c == pos, branch)
  {
    ClimbStart(hash, leaves, pos, c, m, branch);
  }

  lemma RiseStep(hash: Combine, leaves: seq<Hash>, c: nat, level: nat, left: Hash, h: Hash, repeats: bool, pos: nat, m: int, matchH: bool,
                 branch: seq<Hash>)
    requires c < |leaves| && !BitAt(c + 1, level) && Rising(hash, leaves, c, level, h, repeats, pos, m, matchH, branch)
    requires BitAt(c, level) ==> CarryOk(hash, leaves, c, level, left)
    ensures Rising(hash, leaves, c, level + 1, hash(left, h), repeats || left == h, pos, m, matchH || m == level,
                   if matchH then branch + [left] else if m == level then branch + [h] else branch)
  {
    assert Unfold(0);
    FoldUp(hash, leaves, c, level, left, h);
    RepeatHere(hash, leaves, c, level, left, h);
    LeftNode(hash, leaves, c, level, left);
    ClimbStep(hash, leaves, pos, c, level, m, matchH, branch, left, h);
  }

  lemma LeftNode(hash: Combine, leaves: seq<Hash>, c: nat, level: nat, left: Hash)
    requires c < |leaves| && ClearBelow(c + 1, level) && !BitAt(c + 1, level)
    requires BitAt(c, level) ==> CarryOk(hash, leaves, c, level, left)
    ensures NodeIs(hash, leaves, level, Shr(c + 1, level) - 2, left)
  {
    ShrSuccLow(c, level);
    assert BitAt(c, level);
    CompleteFirst(c, level, Shr(c, level) - 1);
  }

  lemma RiseEnd(hash: Combine, leaves: seq<Hash>, c: nat, level: nat, h: Hash, repeats: bool, pos: nat, m: int, matchH: bool,
                branch: seq<Hash>, inner: seq<Hash>)
    requires c < |leaves| && BitAt(c + 1, level) && level < 32 == |inner| && Carries(hash, leaves, c, inner)
    requires Rising(hash, leaves, c, level, h, repeats, pos, m, matchH, branch)
    ensures Carries(hash, leaves, c + 1, inner[level := h])
    ensures Tracks(hash, leaves, pos, c + 1, if matchH then level else m, branch)
    ensures repeats <==> exists l: nat, q: nat :: First(l, 2 * q + 2) == c + 1 && Repeats(hash, leaves, l, q)
  {
    assert Unfold(0);
    RepeatBelow(hash, leaves, c + 1, level);
    FoldDone(hash, leaves, c, level, h, inner);
    ClimbDone(hash, leaves, pos, c, level, m, matchH, branch);
  }

  /** Folding in one leaf: the carries, the flag, and the leaf followed. */
  method AddLeaf(hash: Combine, leaves: seq<Hash>, c: nat, inner: array<Hash>, pos: nat, matchLevel: int, before: seq<Hash>)
    returns (repeats: bool, m: int, branch: seq<Hash>)
    requires c < |leaves| < 0x1_0000_0000 && inner.Length == 32 && Carries(hash, leaves, c, inner[..])
    requires Tracks(hash, leaves, pos, c, matchLevel, before)
    modifies inner
    ensures Carries(hash, leaves, c + 1, inner[..]) && Tracks(hash, leaves, pos, c + 1, m, branch)
    ensures repeats <==> exists l: nat, q: nat :: First(l, 2 * q + 2) == c + 1 && Repeats(hash, leaves, l, q)
  {
    var h, level, matchH := leaves[c], 0, c == pos;
    repeats, branch := false, before;
    ghost var was := inner[..];
    RiseStart(hash, leaves, c, pos, matchLevel, before);
    while !BitAt(c + 1, level)
      invariant Rising(hash, leaves, c, level, h, repeats, pos, matchLevel, matchH, branch)
      invariant inner[..] == was && Shr(c + 1, level) > 0
      decreases Shr(c + 1, level)
    {
      BitBelow32(c + 1, level);
      RiseStep(hash, leaves, c, level, inner[level], h, repeats, pos, matchLevel, matchH, branch);
      if matchH {
        branch := branch + [inner[level]];
      } else if matchLevel == level {
        branch := branch + [h];
        matchH := true;
      }
      repeats := repeats || inner[level] == h;
      h := hash(inner[level], h);
      level := level + 1;
    }
    BitBelow32(c + 1, level);
    RiseEnd(hash, leaves, c, level, h, repeats, pos, matchLevel, matchH, branch, was);
    inner[level] := h;
    m := if matchH then level else matchLevel;
    assert inner[..] == was[level := h];
  }

  /** MerkleComputation: the root, the flag for repeated subtrees, and the branch of one leaf, if there is such a leaf.  The
      count is kept in 32 bits; with more than 2^31 leaves the sweep shifts by 32, and what it does is not defined. */
  method MerkleComputation(hash: Combine, leaves: seq<Hash>, branchPos: nat)
    returns (defined: bool, root: Hash, mutated: bool, branch: seq<Hash>)
    requires |leaves| < 0x1_0000_0000
    ensures defined <==> |leaves| <= 0x8000_0000
    ensures defined ==> root == (if leaves == [] then 0 else Root(hash, leaves)) && (mutated <==> Mutated(hash, leaves))
    ensures defined ==>
              if branchPos < |leaves| then Path(hash, leaves, branchPos, branch) && |branch| == Height(|leaves|) else branch == []
  {
    NoneWithin(hash, leaves);
    if leaves == [] {
      return true, 0, false, [];
    }
    var inner := new Hash[32];
    ShrZero();
    var matchLevel;
    mutated, matchLevel, branch := FoldLeaves(hash, leaves, inner, branchPos);
    var low := LowestBit(|leaves|);
    BitBelow32(|leaves|, low);
    assert CarryOk(hash, leaves, |leaves|, low, inner[low]);
    var level;
    defined, root, level, branch := Sweep(hash, leaves, inner[..], low, inner[low], branchPos, matchLevel, branch);
    if defined {
      HeightIs(|leaves|, level);
    }
  }

  method FoldLeaves(hash: Combine, leaves: seq<Hash>, inner: array<Hash>, pos: nat) returns (mutated: bool, m: int, branch: seq<Hash>)
    requires |leaves| < 0x1_0000_0000 && inner.Length == 32
    modifies inner
    ensures Carries(hash, leaves, |leaves|, inner[..]) && Tracks(hash, leaves, pos, |leaves|, m, branch)
    ensures mutated <==> Mutated(hash, leaves)
  {
    mutated, m, branch := false, -1, [];
    ShrZero();
    NoneWithin(hash, leaves);
    var count := 0;
    while count < |leaves|
      invariant count <= |leaves| && Carries(hash, leaves, count, inner[..]) && Tracks(hash, leaves, pos, count, m, branch)
      invariant mutated <==> RepeatWithin(hash, leaves, count)
    {
      var repeats;
      repeats, m, branch := AddLeaf(hash, leaves, count, inner, pos, m, branch);
      mutated := mutated || repeats;
      count := count + 1;
    }
  }

  method LowestBit(count: nat) returns (level: nat)
    requires count > 0
    ensures BitAt(count, level) && ClearBelow(count, level)
  {
    level := 0;
    while !BitAt(count, level)
      invariant Shr(count, level) > 0 && ClearBelow(count, level)
      decreases Shr(count, level)
    {
      level := level + 1;
    }
  }

  method ComputeMerkleRoot(hash: Combine, leaves: seq<Hash>) returns (defined: bool, root: Hash, mutated: bool)
    requires |leaves| < 0x1_0000_0000
    ensures defined <==> |leaves| <= 0x8000_0000
    ensures defined ==> root == (if leaves == [] then 0 else Root(hash, leaves)) && (mutated <==> Mutated(hash, leaves))
  {
    var branch;
    defined, root, mutated, branch := MerkleComputation(hash, leaves, 0xFFFF_FFFF);
  }

  method ComputeMerkleBranch(hash: Combine, leaves: seq<Hash>, position: nat) returns (defined: bool, branch: seq<Hash>)
    requires |leaves| < 0x1_0000_0000
    ensures defined <==> |leaves| <= 0x8000_0000
    ensures defined ==>
              if position < |leaves| then Path(hash, leaves, position, branch) && |branch| == Height(|leaves|) else branch == []
  {
    var root, mutated;
    defined, root, mutated, branch := MerkleComputation(hash, leaves, position);
  }

  /** The branch of any leaf leads back to the root. */
  method ProveAndVerify(hash: Combine, leaves: seq<Hash>, position: nat) returns (defined: bool, root: Hash)
    requires position < |leaves| < 0x1_0000_0000
    ensures defined <==> |leaves| <= 0x8000_0000
    ensures defined ==> root == Root(hash, leaves)
  {
    var branch;
    defined, branch := ComputeMerkleBranch(hash, leaves, position);
    root := ComputeMerkleRootFromBranch(hash, leaves[position], branch, position);
    if defined {
      HeightIs(|leaves|, |branch|);
      TopIsRoot(|leaves|, position, |branch|);
      ClimbReaches(hash, leaves, position, branch, |branch|);
    }
  }

  lemma NoneWithin(hash: Combine, leaves: seq<Hash>)
    ensures !RepeatWithin(hash, leaves, 0)
  {
    forall level: nat, q: nat | Repeats(hash, leaves, level, q) ensures First(level, 2 * q + 2) > 0 {
      FirstMonotone(level, 2 * q + 1, 2 * q + 2);
    }
  }

  /** h is the hash of the last node of a level of the tree, and no lower level is the top. */
  ghost predicate Edge(hash: Combine, leaves: seq<Hash>, level: nat, h: Hash)
    requires leaves != []
  {
    && (forall k | 0 <= k < level :: Width(|leaves|, k) > 1)
    && LastNode(hash, leaves, level, h)
  }

  ghost predicate LastNode(hash: Combine, leaves: seq<Hash>, level: nat, h: Hash)
    requires leaves != []
  {
    var last := Width(|leaves|, level) - 1;
    last >= 0 && First(level, last) < |leaves| && h == CalcHash(hash, leaves, level, last)
  }

  lemma EdgeStart(hash: Combine, leaves: seq<Hash>, low: nat, h: Hash)
    requires leaves != [] && BitAt(|leaves|, low) && ClearBelow(|leaves|, low) && CarryOk(hash, leaves, |leaves|, low, h)
    ensures Edge(hash, leaves, low, h) && Width(|leaves|, low) == Shr(|leaves|, low)
  {
    var n := |leaves|;
    WidthAbove(n, low, low);
    CompleteFirst(n, low, Shr(n, low) - 1);
    forall k | 0 <= k < low ensures Width(n, k) > 1 {
      WidthFalls(n, k, low);
      WidthBelow(n, k);
      assert !BitAt(n, k);
    }
  }

  /** Up one level from a left child, combined with itself. */
  lemma EdgeSelf(hash: Combine, leaves: seq<Hash>, level: nat, h: Hash)
    requires leaves != [] && Edge(hash, leaves, level, h)
    requires Width(|leaves|, level) % 2 == 1 && Width(|leaves|, level) != 1
    ensures Edge(hash, leaves, level + 1, hash(h, h))
  {
    var w := Width(|leaves|, level);
    JoinSelf(hash, leaves, level, (w - 1) / 2);
    assert LastNode(hash, leaves, level + 1, hash(h, h));
  }

  /** Up one level from a right child, combined with the complete subtree to its left. */
  lemma EdgeJoin(hash: Combine, leaves: seq<Hash>, level: nat, q: nat, left: Hash, h: Hash)
    requires leaves != [] && Edge(hash, leaves, level, h)
    requires Width(|leaves|, level) == 2 * q + 2 && Shr(|leaves|, level) == 2 * q + 1
    requires CarryOk(hash, leaves, |leaves|, level, left)
    ensures Edge(hash, leaves, level + 1, hash(left, h))
  {
    LastJoin(hash, leaves, level, q, left, h);
  }

  lemma LastJoin(hash: Combine, leaves: seq<Hash>, level: nat, q: nat, left: Hash, h: Hash)
    requires leaves != [] && Width(|leaves|, level) == 2 * q + 2 && Shr(|leaves|, level) == 2 * q + 1
    requires LastNode(hash, leaves, level, h) && CarryOk(hash, leaves, |leaves|, level, left)
    ensures LastNode(hash, leaves, level + 1, hash(left, h))
  {
    Join(hash, leaves, level, q);
  }

  lemma EdgeUp(hash: Combine, leaves: seq<Hash>, inner: seq<Hash>, low: nat, level: nat, h: Hash)
    requires 0 < |leaves| < 0x1_0000_0000 && |inner| == 32 && Carries(hash, leaves, |leaves|, inner)
    requires BitAt(|leaves|, low) && ClearBelow(|leaves|, low) && low < level
    requires Edge(hash, leaves, level, h) && Width(|leaves|, level) % 2 == 0
    ensures level < 32 && Edge(hash, leaves, level + 1, hash(inner[level], h))
  {
    WidthAbove(|leaves|, low, level);
    BitBelow32(|leaves|, level);
    EdgeJoin(hash, leaves, level, Width(|leaves|, level) / 2 - 1, inner[level], h);
  }

  lemma EdgeLeft(hash: Combine, leaves: seq<Hash>, inner: seq<Hash>, low: nat, level: nat)
    requires 0 < |leaves| < 0x1_0000_0000 && |inner| == 32 && Carries(hash, leaves, |leaves|, inner) && level < 32
    requires BitAt(|leaves|, low) && ClearBelow(|leaves|, low) && low < level
    requires Width(|leaves|, level) % 2 == 0
    ensures NodeIs(hash, leaves, level, Width(|leaves|, level) - 2, inner[level])
  {
    WidthAbove(|leaves|, low, level);
    CompleteFirst(|leaves|, level, Shr(|leaves|, level) - 1);
    assert CarryOk(hash, leaves, |leaves|, level, inner[level]);
  }

  /** Where the count at the top of the sweep's loops stands: the node reached, and the leaf followed. */
  ghost predicate AtEdge(hash: Combine, leaves: seq<Hash>, level: nat, count: nat, h: Hash, pos: nat, m: int, matchH: bool, branch: seq<Hash>,
                         bound: nat)
    requires leaves != []
  {
    && count == Low32(Padded(|leaves|, level)) && Edge(hash, leaves, level, h)
    && Sweeping(hash, leaves, pos, level, m, matchH, branch, bound)
  }

  /** The final sweep up the right edge, with the count padded to a whole number of nodes at the current level. */
  method Sweep(hash: Combine, leaves: seq<Hash>, inner: seq<Hash>, low: nat, h0: Hash, pos: nat, m: int, before: seq<Hash>)
    returns (defined: bool, h: Hash, level: nat, branch: seq<Hash>)
    requires 0 < |leaves| < 0x1_0000_0000 && |inner| == 32 && Carries(hash, leaves, |leaves|, inner)
    requires low < 32 && BitAt(|leaves|, low) && ClearBelow(|leaves|, low)
    requires CarryOk(hash, leaves, |leaves|, low, h0) && Tracks(hash, leaves, pos, |leaves|, m, before)
    ensures defined <==> |leaves| <= 0x8000_0000
    ensures defined ==> IsHeight(|leaves|, level) && First(level, 0) < |leaves| && h == CalcHash(hash, leaves, level, 0)
    ensures defined ==> if pos < |leaves| then |branch| == level && Path(hash, leaves, pos, branch) else branch == []
  {
    h, level, branch := h0, low, before;
    var matchH := m == low;
    var count: nat := |leaves|;
    SweepBegins(hash, leaves, low, h, pos, m, before);
    while count != Pow2(level)
      invariant low <= level < 32 && Width(|leaves|, level) % 2 == 1
      invariant AtEdge(hash, leaves, level, count, h, pos, m, matchH, branch, level + 1)
      decreases 32 - level
    {
      NotYetTop(|leaves|, level, count);
      EdgeSelf(hash, leaves, level, h);
      SweepSelf(hash, leaves, pos, level, m, matchH, branch, h);
      PaddedUp(|leaves|, level);
      if matchH {
        branch := branch + [h];
      }
      h := hash(h, h);
      count := Low32(count + Pow2(level));
      level := level + 1;
      h, level, branch, count, matchH := Propagate(hash, leaves, inner, low, h, level, pos, m, branch, count, matchH);
      if level == 32 {
        PastHalf(|leaves|);
        return false, h, level, branch;
      }
    }
    TopReached(|leaves|, level, count);
    SweepEnd(hash, leaves, pos, low, level, m, matchH, branch);
    defined := true;
  }

  lemma SweepBegins(hash: Combine, leaves: seq<Hash>, low: nat, h: Hash, pos: nat, m: int, branch: seq<Hash>)
    requires 0 < |leaves| < 0x1_0000_0000 && low < 32 && BitAt(|leaves|, low) && ClearBelow(|leaves|, low)
    requires CarryOk(hash, leaves, |leaves|, low, h) && Tracks(hash, leaves, pos, |leaves|, m, branch)
    ensures Width(|leaves|, low) % 2 == 1 && AtEdge(hash, leaves, low, |leaves|, h, pos, m, m == low, branch, low + 1)
  {
    EdgeStart(hash, leaves, low, h);
    SweepStart(hash, leaves, pos, low, m, branch);
    ShrFirst(|leaves|, low);
  }

  /** Below the top there is room for another level. */
  lemma NotYetTop(n: nat, level: nat, count: nat)
    requires 0 < n < 0x1_0000_0000 && level < 32 && Width(n, level) % 2 == 1 && count == Low32(Padded(n, level)) && count != Pow2(level)
    ensures Width(n, level) > 1 && level + 1 < 32 && count == Padded(n, level)
  {
    PaddedBit(n, level);
    FirstOne(level);
    InTree(n, 31, 2);
  }

  lemma TopReached(n: nat, level: nat, count: nat)
    requires 0 < n < 0x1_0000_0000 && level < 32 && Width(n, level) % 2 == 1 && count == Low32(Padded(n, level)) && count == Pow2(level)
    ensures Width(n, level) == 1 && n <= 0x8000_0000
  {
    var w := Width(n, level);
    PaddedBit(n, level);
    FirstOne(level);
    if w > 1 {
      FirstMonotone(level, 1, w);
    }
    InTree(n, level, 1);
    Pow2Monotone(level, 31);
    FirstIsShift(31, 1);
  }

  lemma PastHalf(n: nat)
    requires 0 < n < 0x1_0000_0000 && Width(n, 31) % 2 == 0
    ensures n > 0x8000_0000
  {
    WidthPositive(n, 31);
    FirstOne(31);
    InTree(n, 31, 1);
  }

  /** Up while there is a complete subtree to the left; at level 32 the test is no longer defined. */
  method Propagate(hash: Combine, leaves: seq<Hash>, inner: seq<Hash>, low: nat, h0: Hash, level0: nat, pos: nat, m: int, before: seq<Hash>,
                   count: nat, matched: bool)
    returns (h: Hash, level: nat, branch: seq<Hash>, count': nat, matchH: bool)
    requires 0 < |leaves| < 0x1_0000_0000 && |inner| == 32 && Carries(hash, leaves, |leaves|, inner)
    requires low < level0 < 32 && BitAt(|leaves|, low) && ClearBelow(|leaves|, low)
    requires AtEdge(hash, leaves, level0, count, h0, pos, m, matched, before, level0)
    ensures level0 <= level <= 32 && count' == count && (level == 32 ==> Width(|leaves|, 31) % 2 == 0)
    ensures level < 32 ==> Width(|leaves|, level) % 2 == 1 && AtEdge(hash, leaves, level, count, h, pos, m, matchH, branch, level + 1)
  {
    h, level, branch, count', matchH := h0, level0, before, count, matched;
    while level < 32 && !BitAt(count, level)
      invariant level0 <= level <= 32 && (level == 32 ==> Width(|leaves|, 31) % 2 == 0)
      invariant AtEdge(hash, leaves, level, count, h, pos, m, matchH, branch, level)
      decreases 32 - level
    {
      UpOne(hash, leaves, inner, low, level, count, h, pos, m, matchH, branch);
      if matchH {
        branch := branch + [inner[level]];
      } else if m == level {
        branch := branch + [h];
        matchH := true;
      }
      h := hash(inner[level], h);
      level := level + 1;
    }
    if level < 32 {
      OddAgain(hash, leaves, low, level, count, h, pos, m, matchH, branch);
    }
  }

  lemma OddAgain(hash: Combine, leaves: seq<Hash>, low: nat, level: nat, count: nat, h: Hash, pos: nat, m: int, matchH: bool, branch: seq<Hash>)
    requires 0 < |leaves| < 0x1_0000_0000 && low < level < 32 && BitAt(|leaves|, low) && ClearBelow(|leaves|, low) && BitAt(count, level)
    requires AtEdge(hash, leaves, level, count, h, pos, m, matchH, branch, level)
    ensures Width(|leaves|, level) % 2 == 1 && AtEdge(hash, leaves, level, count, h, pos, m, matchH, branch, level + 1)
  {
    PaddedBit(|leaves|, level);
    SweepPast(hash, leaves, pos, low, level, m, matchH, branch);
  }

  lemma UpOne(hash: Combine, leaves: seq<Hash>, inner: seq<Hash>, low: nat, level: nat, count: nat, h: Hash, pos: nat, m: int, matchH: bool,
              branch: seq<Hash>)
    requires 0 < |leaves| < 0x1_0000_0000 && |inner| == 32 && Carries(hash, leaves, |leaves|, inner)
    requires low < level < 32 && BitAt(|leaves|, low) && ClearBelow(|leaves|, low) && !BitAt(count, level)
    requires AtEdge(hash, leaves, level, count, h, pos, m, matchH, branch, level)
    ensures Width(|leaves|, level) % 2 == 0
    ensures AtEdge(hash, leaves, level + 1, count, hash(inner[level], h), pos, m, matchH || m == level,
                   if matchH then branch + [inner[level]] else if m == level then branch + [h] else branch, level + 1)
  {
    PaddedBit(|leaves|, level);
    PaddedUp(|leaves|, level);
    EdgeUp(hash, leaves, inner, low, level, h);
    EdgeLeft(hash, leaves, inner, low, level);
    SweepUp(hash, leaves, pos, low, level, m, matchH, branch, inner[level], h);
  }
}
