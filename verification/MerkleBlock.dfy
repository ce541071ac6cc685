/**
 The partial Merkle tree of BIP 37: a depth-first encoding of the part of a block's Merkle tree that leads to the
 matched transactions, as flag bits and hashes, and its decoding.
 */
module MerkleBlock {
  import opened MerkleTree

  /** Whether any of the leaves from lo up to hi is matched. */
  predicate AnyMatch(mask: seq<bool>, lo: nat, hi: nat)
    requires hi <= |mask|
  {
    exists p | lo <= p < hi :: mask[p]
  }

  /** Whether a node is the parent of a matched leaf. */
  predicate ParentOfMatch(mask: seq<bool>, height: nat, pos: nat) {
    AnyMatch(mask, First(height, pos), Last(|mask|, height, pos))
  }

  // ---------------------------------------------------------------- encoding

  /** What TraverseAndBuild appends for a node: flag bits and hashes. */
  function Build(hash: Combine, txids: seq<Hash>, mask: seq<bool>, height: nat, pos: nat): (seq<bool>, seq<Hash>)
    requires |txids| == |mask| && First(height, pos) < |txids|
    decreases height
  {
    var f := ParentOfMatch(mask, height, pos);
    if height == 0 || !f then ([f], [CalcHash(hash, txids, height, pos)])
    else
      Children(|txids|, height, pos);
      var l := Build(hash, txids, mask, height - 1, 2 * pos);
      if HasRight(|txids|, height, pos) then
        var r := Build(hash, txids, mask, height - 1, 2 * pos + 1);
        ([f] + l.0 + r.0, l.1 + r.1)
      else ([f] + l.0, l.1)
  }

  // ---------------------------------------------------------------- decoding

  /** What TraverseAndExtract makes of a node: whether it set the bad flag, the node's hash, the counters after
      it, and the matches it appended. */
  datatype Walked = Walked(bad: bool, hash: Hash, bits: nat, hashes: nat, matches: seq<(Hash, nat)>)

  function Walk(hash: Combine, n: nat, vBits: seq<bool>, vHash: seq<Hash>, height: nat, pos: nat, bits: nat, hashes: nat): Walked
    decreases height
  {
    if bits >= |vBits| then Walked(true, 0, bits, hashes, [])
    else if height == 0 || !vBits[bits] then
      if hashes >= |vHash| then Walked(true, 0, bits + 1, hashes, [])
      else Walked(false, vHash[hashes], bits + 1, hashes + 1, if height == 0 && vBits[bits] then [(vHash[hashes], pos)] else [])
    else
      var l := Walk(hash, n, vBits, vHash, height - 1, 2 * pos, bits + 1, hashes);
      if HasRight(n, height, pos) then
        var r := Walk(hash, n, vBits, vHash, height - 1, 2 * pos + 1, l.bits, l.hashes);
        JoinWalks(hash, l, r)
      else LoneWalk(hash, l)
  }

  function JoinWalks(hash: Combine, l: Walked, r: Walked): Walked {
    Walked(l.bad || r.bad || l.hash == r.hash, hash(l.hash, r.hash), r.bits, r.hashes, l.matches + r.matches)
  }

  function LoneWalk(hash: Combine, l: Walked): Walked {
    Walked(l.bad, hash(l.hash, l.hash), l.bits, l.hashes, l.matches)
  }

  /** Every pair names the id at its index, and the indexes strictly increase from lo up to hi. */
  ghost predicate AllTrue(txids: seq<Hash>, matches: seq<(Hash, nat)>, lo: nat, hi: nat) {
    && (forall k | 0 <= k < |matches| :: lo <= matches[k].1 < hi <= |txids| && matches[k].0 == txids[matches[k].1])
    && (forall j, k | 0 <= j < k < |matches| :: matches[j].1 < matches[k].1)
  }

  lemma AllTrueConcat(txids: seq<Hash>, a: seq<(Hash, nat)>, b: seq<(Hash, nat)>, lo: nat, mid: nat, hi: nat)
    requires AllTrue(txids, a, lo, mid) && AllTrue(txids, b, mid, hi) && lo <= mid <= hi <= |txids|
    ensures AllTrue(txids, a + b, lo, hi)
  {
  }

  /** The walk of a node found to be the true one. */
  ghost predicate TrueWalk(hash: Combine, txids: seq<Hash>, height: nat, pos: nat, w: Walked) {
    !w.bad && First(height, pos) < |txids| && w.hash == CalcHash(hash, txids, height, pos)
  }

  ghost predicate Sound(txids: seq<Hash>, height: nat, pos: nat, w: Walked) {
    AllTrue(txids, w.matches, First(height, pos), Last(|txids|, height, pos))
  }

  /** A true parent has true children. */
  lemma TrueJoin(hash: Combine, txids: seq<Hash>, height: nat, pos: nat, l: Walked, r: Walked)
    requires Injective(hash) && height > 0 && HasRight(|txids|, height, pos)
    requires TrueWalk(hash, txids, height, pos, JoinWalks(hash, l, r))
    ensures TrueWalk(hash, txids, height - 1, 2 * pos, l) && TrueWalk(hash, txids, height - 1, 2 * pos + 1, r)
  {
    Children(|txids|, height, pos);
  }

  lemma TrueLone(hash: Combine, txids: seq<Hash>, height: nat, pos: nat, l: Walked)
    requires Injective(hash) && height > 0 && !HasRight(|txids|, height, pos)
    requires TrueWalk(hash, txids, height, pos, LoneWalk(hash, l))
    ensures TrueWalk(hash, txids, height - 1, 2 * pos, l)
  {
  }

  lemma SoundJoin(hash: Combine, txids: seq<Hash>, height: nat, pos: nat, l: Walked, r: Walked)
    requires height > 0 && First(height, pos) < |txids| && HasRight(|txids|, height, pos)
    requires Sound(txids, height - 1, 2 * pos, l) && Sound(txids, height - 1, 2 * pos + 1, r)
    ensures Sound(txids, height, pos, JoinWalks(hash, l, r))
  {
    Children(|txids|, height, pos);
    FirstMonotone(height - 1, 2 * pos + 1, 2 * pos + 2);
    AllTrueConcat(txids, l.matches, r.matches, First(height, pos), First(height - 1, 2 * pos + 1), Last(|txids|, height, pos));
  }

  lemma SoundLone(hash: Combine, txids: seq<Hash>, height: nat, pos: nat, l: Walked)
    requires height > 0 && First(height, pos) < |txids| && !HasRight(|txids|, height, pos)
    requires Sound(txids, height - 1, 2 * pos, l)
    ensures Sound(txids, height, pos, LoneWalk(hash, l))
  {
    Children(|txids|, height, pos);
  }

  /** Soundness of the decoder, node by node: whatever the bits and hashes are, if the hash computed for a node is
      the node's true hash, every extracted pair is true. */
  lemma {:induction false} WalkSound(hash: Combine, txids: seq<Hash>, vBits: seq<bool>, vHash: seq<Hash>, height: nat, pos: nat, bits: nat, hashes: nat)
    requires Injective(hash)
    requires TrueWalk(hash, txids, height, pos, Walk(hash, |txids|, vBits, vHash, height, pos, bits, hashes))
    ensures Sound(txids, height, pos, Walk(hash, |txids|, vBits, vHash, height, pos, bits, hashes))
    decreases height, 1
  {
    if height > 0 && vBits[bits] {
      if HasRight(|txids|, height, pos) {
        WalkSoundJoin(hash, txids, vBits, vHash, height, pos, bits, hashes);
      } else {
        var l := Walk(hash, |txids|, vBits, vHash, height - 1, 2 * pos, bits + 1, hashes);
        TrueLone(hash, txids, height, pos, l);
        WalkSound(hash, txids, vBits, vHash, height - 1, 2 * pos, bits + 1, hashes);
        SoundLone(hash, txids, height, pos, l);
      }
    } else if height == 0 {
      assert Last(|txids|, 0, pos) == pos + 1;
    }
  }

  lemma {:induction false} WalkSoundJoin(hash: Combine, txids: seq<Hash>, vBits: seq<bool>, vHash: seq<Hash>, height: nat, pos: nat, bits: nat, hashes: nat)
    requires Injective(hash) && height > 0 && HasRight(|txids|, height, pos) && bits < |vBits| && vBits[bits]
    requires TrueWalk(hash, txids, height, pos, Walk(hash, |txids|, vBits, vHash, height, pos, bits, hashes))
    ensures Sound(txids, height, pos, Walk(hash, |txids|, vBits, vHash, height, pos, bits, hashes))
    decreases height, 0
  {
    var l := Walk(hash, |txids|, vBits, vHash, height - 1, 2 * pos, bits + 1, hashes);
    var r := Walk(hash, |txids|, vBits, vHash, height - 1, 2 * pos + 1, l.bits, l.hashes);
    TrueJoin(hash, txids, height, pos, l, r);
    assert Sound(txids, height - 1, 2 * pos, l) by {
      WalkSound(hash, txids, vBits, vHash, height - 1, 2 * pos, bits + 1, hashes);
    }
    assert Sound(txids, height - 1, 2 * pos + 1, r) by {
      WalkSound(hash, txids, vBits, vHash, height - 1, 2 * pos + 1, l.bits, l.hashes);
    }
    SoundJoin(hash, txids, height, pos, l, r);
  }

  // -------------------------------------------------------------- round trip

  /** The matched ids and their indexes, in order. */
  function Matched(txids: seq<Hash>, mask: seq<bool>, lo: nat, hi: nat): seq<(Hash, nat)>
    requires lo <= hi <= |txids| == |mask|
    decreases hi - lo
  {
    if lo == hi then [] else (if mask[lo] then [(txids[lo], lo)] else []) + Matched(txids, mask, lo + 1, hi)
  }

  lemma {:induction false} MatchedConcat(txids: seq<Hash>, mask: seq<bool>, lo: nat, mid: nat, hi: nat)
    requires lo <= mid <= hi <= |txids| == |mask|
    ensures Matched(txids, mask, lo, hi) == Matched(txids, mask, lo, mid) + Matched(txids, mask, mid, hi)
    decreases mid - lo
  {
    if lo < mid {
      MatchedConcat(txids, mask, lo + 1, mid, hi);
    }
  }

  lemma {:induction false} MatchedNone(txids: seq<Hash>, mask: seq<bool>, lo: nat, hi: nat)
    requires lo <= hi <= |txids| == |mask|
    ensures Matched(txids, mask, lo, hi) == [] <==> !AnyMatch(mask, lo, hi)
    decreases hi - lo
  {
    if lo < hi {
      MatchedNone(txids, mask, lo + 1, hi);
    }
  }

  /** Some node that the encoder descends into has two children of the same hash. */
  predicate Twins(hash: Combine, txids: seq<Hash>, mask: seq<bool>, height: nat, pos: nat)
    requires |txids| == |mask| && First(height, pos) < |txids|
    decreases height
  {
    if height == 0 || !ParentOfMatch(mask, height, pos) then false
    else
      Children(|txids|, height, pos);
      if HasRight(|txids|, height, pos) then
        || Twins(hash, txids, mask, height - 1, 2 * pos)
        || Twins(hash, txids, mask, height - 1, 2 * pos + 1)
        || CalcHash(hash, txids, height - 1, 2 * pos) == CalcHash(hash, txids, height - 1, 2 * pos + 1)
      else Twins(hash, txids, mask, height - 1, 2 * pos)
  }

  lemma {:induction false} DistinctNoTwins(hash: Combine, txids: seq<Hash>, mask: seq<bool>, height: nat, pos: nat)
    requires |txids| == |mask| && First(height, pos) < |txids|
    requires Injective(hash) && Distinct(txids)
    ensures !Twins(hash, txids, mask, height, pos)
    decreases height
  {
    if height > 0 {
      Children(|txids|, height, pos);
      DistinctNoTwins(hash, txids, mask, height - 1, 2 * pos);
      if HasRight(|txids|, height, pos) {
        DistinctNoTwins(hash, txids, mask, height - 1, 2 * pos + 1);
        NoTwinsWhenDistinct(hash, txids, height - 1, 2 * pos, 2 * pos + 1);
      }
    }
  }

  /** The encoding of a node stands in the bits and hashes at the given places. */
  ghost predicate Holds(vBits: seq<bool>, vHash: seq<Hash>, bits: nat, hashes: nat, b: (seq<bool>, seq<Hash>)) {
    && bits + |b.0| <= |vBits| && vBits[bits..bits + |b.0|] == b.0
    && hashes + |b.1| <= |vHash| && vHash[hashes..hashes + |b.1|] == b.1
  }

  lemma HoldsSplit(vBits: seq<bool>, vHash: seq<Hash>, bits: nat, hashes: nat, f: bool, l: (seq<bool>, seq<Hash>), r: (seq<bool>, seq<Hash>))
    requires Holds(vBits, vHash, bits, hashes, ([f] + l.0 + r.0, l.1 + r.1))
    ensures bits < |vBits| && vBits[bits] == f
    ensures Holds(vBits, vHash, bits + 1, hashes, l)
    ensures Holds(vBits, vHash, bits + 1 + |l.0|, hashes + |l.1|, r)
  {
    var b := [f] + l.0 + r.0;
    var slice, hs := vBits[bits..bits + |b|], vHash[hashes..hashes + |l.1 + r.1|];
    assert vBits[bits] == slice[0] == b[0];
    assert vBits[bits + 1..bits + 1 + |l.0|] == slice[1..1 + |l.0|] == l.0;
    assert vBits[bits + 1 + |l.0|..bits + 1 + |l.0| + |r.0|] == slice[1 + |l.0|..] == r.0;
    assert vHash[hashes..hashes + |l.1|] == hs[..|l.1|] == l.1;
    assert vHash[hashes + |l.1|..hashes + |l.1| + |r.1|] == hs[|l.1|..] == r.1;
  }

  /** What decoding an encoded node gives. */
  ghost function Decoded(hash: Combine, txids: seq<Hash>, mask: seq<bool>, height: nat, pos: nat, bits: nat, hashes: nat): Walked
    requires |txids| == |mask| && First(height, pos) < |txids|
  {
    FirstMonotone(height, pos, pos + 1);
    var b := Build(hash, txids, mask, height, pos);
    Walked(Twins(hash, txids, mask, height, pos), CalcHash(hash, txids, height, pos), bits + |b.0|, hashes + |b.1|,
           Matched(txids, mask, First(height, pos), Last(|txids|, height, pos)))
  }

  lemma DecodedJoin(hash: Combine, txids: seq<Hash>, mask: seq<bool>, height: nat, pos: nat, bits: nat, hashes: nat)
    requires |txids| == |mask| && height > 0 && First(height, pos) < |txids|
    requires HasRight(|txids|, height, pos) && ParentOfMatch(mask, height, pos)
    ensures First(height - 1, 2 * pos) < |txids| && First(height - 1, 2 * pos + 1) < |txids|
    ensures var l := Decoded(hash, txids, mask, height - 1, 2 * pos, bits + 1, hashes);
      Decoded(hash, txids, mask, height, pos, bits, hashes) ==
      JoinWalks(hash, l, Decoded(hash, txids, mask, height - 1, 2 * pos + 1, l.bits, l.hashes))
  {
    Children(|txids|, height, pos);
    FirstMonotone(height - 1, 2 * pos + 1, 2 * pos + 2);
    MatchedConcat(txids, mask, First(height, pos), Last(|txids|, height - 1, 2 * pos), Last(|txids|, height, pos));
  }

  lemma DecodedLone(hash: Combine, txids: seq<Hash>, mask: seq<bool>, height: nat, pos: nat, bits: nat, hashes: nat)
    requires |txids| == |mask| && height > 0 && First(height, pos) < |txids|
    requires !HasRight(|txids|, height, pos) && ParentOfMatch(mask, height, pos)
    ensures Decoded(hash, txids, mask, height, pos, bits, hashes) ==
            LoneWalk(hash, Decoded(hash, txids, mask, height - 1, 2 * pos, bits + 1, hashes))
  {
    Children(|txids|, height, pos);
  }

  lemma DecodedLeaf(hash: Combine, txids: seq<Hash>, mask: seq<bool>, height: nat, pos: nat,
                    vBits: seq<bool>, vHash: seq<Hash>, bits: nat, hashes: nat)
    requires |txids| == |mask| && First(height, pos) < |txids|
    requires height == 0 || !ParentOfMatch(mask, height, pos)
    requires Holds(vBits, vHash, bits, hashes, Build(hash, txids, mask, height, pos))
    ensures Walk(hash, |txids|, vBits, vHash, height, pos, bits, hashes) == Decoded(hash, txids, mask, height, pos, bits, hashes)
  {
    var b := Build(hash, txids, mask, height, pos);
    FirstMonotone(height, pos, pos + 1);
    MatchedNone(txids, mask, First(height, pos), Last(|txids|, height, pos));
    assert vBits[bits] == vBits[bits..bits + 1][0] == b.0[0];
    assert vHash[hashes] == vHash[hashes..hashes + 1][0] == b.1[0];
    if height == 0 {
      assert Last(|txids|, 0, pos) == pos + 1;
      assert Matched(txids, mask, pos + 1, pos + 1) == [];
    }
  }

  /** The encoding of a node with two children holds theirs, one after the other. */
  lemma HoldsJoin(hash: Combine, txids: seq<Hash>, mask: seq<bool>, height: nat, pos: nat,
                  vBits: seq<bool>, vHash: seq<Hash>, bits: nat, hashes: nat)
    requires |txids| == |mask| && height > 0 && First(height, pos) < |txids|
    requires HasRight(|txids|, height, pos) && ParentOfMatch(mask, height, pos)
    requires Holds(vBits, vHash, bits, hashes, Build(hash, txids, mask, height, pos))
    ensures First(height - 1, 2 * pos) < |txids| && First(height - 1, 2 * pos + 1) < |txids|
    ensures bits < |vBits| && vBits[bits]
    ensures Holds(vBits, vHash, bits + 1, hashes, Build(hash, txids, mask, height - 1, 2 * pos))
    ensures var l := Decoded(hash, txids, mask, height - 1, 2 * pos, bits + 1, hashes);
      Holds(vBits, vHash, l.bits, l.hashes, Build(hash, txids, mask, height - 1, 2 * pos + 1))
  {
    Children(|txids|, height, pos);
    HoldsSplit(vBits, vHash, bits, hashes, true, Build(hash, txids, mask, height - 1, 2 * pos),
               Build(hash, txids, mask, height - 1, 2 * pos + 1));
  }

  lemma HoldsLone(hash: Combine, txids: seq<Hash>, mask: seq<bool>, height: nat, pos: nat,
                  vBits: seq<bool>, vHash: seq<Hash>, bits: nat, hashes: nat)
    requires |txids| == |mask| && height > 0 && First(height, pos) < |txids|
    requires !HasRight(|txids|, height, pos) && ParentOfMatch(mask, height, pos)
    requires Holds(vBits, vHash, bits, hashes, Build(hash, txids, mask, height, pos))
    ensures bits < |vBits| && vBits[bits]
    ensures Holds(vBits, vHash, bits + 1, hashes, Build(hash, txids, mask, height - 1, 2 * pos))
  {
    var l := Build(hash, txids, mask, height - 1, 2 * pos);
    assert [true] + l.0 + [] == [true] + l.0 && l.1 + [] == l.1;
    HoldsSplit(vBits, vHash, bits, hashes, true, l, ([], []));
  }

  /** Decoding an encoded node: the true hash, all of its bits and hashes, exactly the matches below it; the bad
      flag is set exactly when twins are met. */
  lemma {:induction false} WalkBuild(hash: Combine, txids: seq<Hash>, mask: seq<bool>, height: nat, pos: nat,
                                     vBits: seq<bool>, vHash: seq<Hash>, bits: nat, hashes: nat)
    requires |txids| == |mask| && First(height, pos) < |txids|
    requires Holds(vBits, vHash, bits, hashes, Build(hash, txids, mask, height, pos))
    ensures Walk(hash, |txids|, vBits, vHash, height, pos, bits, hashes) == Decoded(hash, txids, mask, height, pos, bits, hashes)
    decreases height, 1
  {
    if height == 0 || !ParentOfMatch(mask, height, pos) {
      DecodedLeaf(hash, txids, mask, height, pos, vBits, vHash, bits, hashes);
    } else if HasRight(|txids|, height, pos) {
      WalkBuildJoin(hash, txids, mask, height, pos, vBits, vHash, bits, hashes);
    } else {
      WalkBuildLone(hash, txids, mask, height, pos, vBits, vHash, bits, hashes);
    }
  }

  lemma {:induction false} WalkBuildJoin(hash: Combine, txids: seq<Hash>, mask: seq<bool>, height: nat, pos: nat,
                                         vBits: seq<bool>, vHash: seq<Hash>, bits: nat, hashes: nat)
    requires |txids| == |mask| && height > 0 && First(height, pos) < |txids|
    requires HasRight(|txids|, height, pos) && ParentOfMatch(mask, height, pos)
    requires Holds(vBits, vHash, bits, hashes, Build(hash, txids, mask, height, pos))
    ensures Walk(hash, |txids|, vBits, vHash, height, pos, bits, hashes) == Decoded(hash, txids, mask, height, pos, bits, hashes)
    decreases height, 0
  {
    DecodedJoin(hash, txids, mask, height, pos, bits, hashes);
    HoldsJoin(hash, txids, mask, height, pos, vBits, vHash, bits, hashes);
    WalkBuild(hash, txids, mask, height - 1, 2 * pos, vBits, vHash, bits + 1, hashes);
    var l := Decoded(hash, txids, mask, height - 1, 2 * pos, bits + 1, hashes);
    WalkBuild(hash, txids, mask, height - 1, 2 * pos + 1, vBits, vHash, l.bits, l.hashes);
  }

  lemma {:induction false} WalkBuildLone(hash: Combine, txids: seq<Hash>, mask: seq<bool>, height: nat, pos: nat,
                                         vBits: seq<bool>, vHash: seq<Hash>, bits: nat, hashes: nat)
    requires |txids| == |mask| && height > 0 && First(height, pos) < |txids|
    requires !HasRight(|txids|, height, pos) && ParentOfMatch(mask, height, pos)
    requires Holds(vBits, vHash, bits, hashes, Build(hash, txids, mask, height, pos))
    ensures Walk(hash, |txids|, vBits, vHash, height, pos, bits, hashes) == Decoded(hash, txids, mask, height, pos, bits, hashes)
    decreases height, 0
  {
    DecodedLone(hash, txids, mask, height, pos, bits, hashes);
    HoldsLone(hash, txids, mask, height, pos, vBits, vHash, bits, hashes);
    WalkBuild(hash, txids, mask, height - 1, 2 * pos, vBits, vHash, bits + 1, hashes);
  }

  // ------------------------------------------------------------------- sizes

  /** A node costs at least one hash and at most one for each leaf below it. */
  lemma {:induction false} HashesAtMostLeaves(hash: Combine, txids: seq<Hash>, mask: seq<bool>, height: nat, pos: nat)
    requires |txids| == |mask| && First(height, pos) < |txids|
    ensures 1 <= |Build(hash, txids, mask, height, pos).1| <= Last(|txids|, height, pos) - First(height, pos)
    decreases height
  {
    FirstMonotone(height, pos, pos + 1);
    if height > 0 && ParentOfMatch(mask, height, pos) {
      Children(|txids|, height, pos);
      HashesAtMostLeaves(hash, txids, mask, height - 1, 2 * pos);
      if HasRight(|txids|, height, pos) {
        HashesAtMostLeaves(hash, txids, mask, height - 1, 2 * pos + 1);
      }
    }
  }

  /** How many matched leaves lie under a node. */
  function MatchCount(mask: seq<bool>, lo: nat, hi: nat): nat
    requires lo <= hi <= |mask|
    decreases hi - lo
  {
    if lo == hi then 0 else (if mask[lo] then 1 else 0) + MatchCount(mask, lo + 1, hi)
  }

  lemma {:induction false} MatchCountConcat(mask: seq<bool>, lo: nat, mid: nat, hi: nat)
    requires lo <= mid <= hi <= |mask|
    ensures MatchCount(mask, lo, hi) == MatchCount(mask, lo, mid) + MatchCount(mask, mid, hi)
    decreases mid - lo
  {
    if lo < mid {
      MatchCountConcat(mask, lo + 1, mid, hi);
    }
  }

  lemma {:induction false} MatchCountPositive(mask: seq<bool>, lo: nat, hi: nat)
    requires lo <= hi <= |mask|
    ensures MatchCount(mask, lo, hi) > 0 <==> AnyMatch(mask, lo, hi)
    decreases hi - lo
  {
    if lo < hi {
      MatchCountPositive(mask, lo + 1, hi);
    }
  }

  lemma SumOfPaths(kl: nat, kr: nat, k: nat, height: nat)
    requires k == kl + kr > 0 && height > 0
    ensures 1 + kl * (height - 1) + (1 + kr * (height - 1)) <= 1 + k * height
  {
    assert kl * (height - 1) + kr * (height - 1) == k * (height - 1) == k * height - k;
  }

  /** A node costs at most one hash, and one more for each level below each matched leaf. */
  lemma {:induction false} HashesByMatches(hash: Combine, txids: seq<Hash>, mask: seq<bool>, height: nat, pos: nat)
    requires |txids| == |mask| && First(height, pos) < |txids|
    ensures First(height, pos) <= Last(|txids|, height, pos) <= |txids|
    ensures |Build(hash, txids, mask, height, pos).1| <= 1 + MatchCount(mask, First(height, pos), Last(|txids|, height, pos)) * height
    decreases height
  {
    var n, lo, hi := |txids|, First(height, pos), Last(|txids|, height, pos);
    FirstMonotone(height, pos, pos + 1);
    MatchCountPositive(mask, lo, hi);
    var k := MatchCount(mask, lo, hi);
    if height > 0 && ParentOfMatch(mask, height, pos) {
      Children(n, height, pos);
      HashesByMatches(hash, txids, mask, height - 1, 2 * pos);
      if HasRight(n, height, pos) {
        HashesByMatches(hash, txids, mask, height - 1, 2 * pos + 1);
        var mid := First(height - 1, 2 * pos + 1);
        MatchCountConcat(mask, lo, mid, hi);
        SumOfPaths(MatchCount(mask, lo, mid), MatchCount(mask, mid, hi), k, height);
      } else {
        SumOfPaths(k, 0, k, height);
      }
    } else {
      assert k * height >= 0;
    }
  }

  /** The visited nodes that have only one child. */
  function LoneNodes(mask: seq<bool>, height: nat, pos: nat): nat {
    if height == 0 || !ParentOfMatch(mask, height, pos) then 0
    else if HasRight(|mask|, height, pos) then LoneNodes(mask, height - 1, 2 * pos) + LoneNodes(mask, height - 1, 2 * pos + 1)
    else 1 + LoneNodes(mask, height - 1, 2 * pos)
  }

  /** The number of flag bits, exactly: a binary tree's nodes, and one more for each lone child. */
  lemma {:induction false} BitsExactly(hash: Combine, txids: seq<Hash>, mask: seq<bool>, height: nat, pos: nat)
    requires |txids| == |mask| && First(height, pos) < |txids|
    ensures var b := Build(hash, txids, mask, height, pos); |b.0| == 2 * |b.1| - 1 + LoneNodes(mask, height, pos)
    decreases height
  {
    if height > 0 && ParentOfMatch(mask, height, pos) {
      Children(|txids|, height, pos);
      BitsExactly(hash, txids, mask, height - 1, 2 * pos);
      if HasRight(|txids|, height, pos) {
        BitsExactly(hash, txids, mask, height - 1, 2 * pos + 1);
      }
    }
  }

  /** Only nodes on the right edge can have a single child: at most one a level. */
  lemma {:induction false} LoneNodesAtMost(mask: seq<bool>, height: nat, pos: nat)
    requires First(height, pos) < |mask|
    ensures LoneNodes(mask, height, pos) <= if First(height, pos + 1) <= |mask| then 0 else height
    decreases height
  {
    if height > 0 && ParentOfMatch(mask, height, pos) {
      Children(|mask|, height, pos);
      assert First(height, pos + 1) == First(height - 1, 2 * pos + 2);
      InTree(|mask|, height - 1, 2 * pos + 1);
      LoneNodesAtMost(mask, height - 1, 2 * pos);
      if HasRight(|mask|, height, pos) {
        LoneNodesAtMost(mask, height - 1, 2 * pos + 1);
      } else {
        FirstMonotone(height - 1, 2 * pos + 1, 2 * pos + 2);
      }
    }
  }

  /** The last node of a level has a single child, and leads to a match. */
  predicate LoneLevel(mask: seq<bool>, level: nat)
    requires mask != [] && level > 0
  {
    WidthPositive(|mask|, level);
    var last := Width(|mask|, level) - 1;
    !HasRight(|mask|, level, last) && ParentOfMatch(mask, level, last)
  }

  /** The last nodes of lower levels cover fewer leaves. */
  lemma {:induction false} LastNodesNest(mask: seq<bool>, level: nat, height: nat)
    requires mask != [] && level <= height && Width(|mask|, level) > 0 && Width(|mask|, height) > 0
    requires ParentOfMatch(mask, level, Width(|mask|, level) - 1)
    ensures ParentOfMatch(mask, height, Width(|mask|, height) - 1)
    decreases height
  {
    if level < height {
      WidthPositive(|mask|, height - 1);
      LastNodesNest(mask, level, height - 1);
      LastNodeStep(mask, height);
    }
  }

  lemma LastNodeStep(mask: seq<bool>, height: nat)
    requires mask != [] && height > 0 && Width(|mask|, height) > 0 && Width(|mask|, height - 1) > 0
    requires ParentOfMatch(mask, height - 1, Width(|mask|, height - 1) - 1)
    ensures ParentOfMatch(mask, height, Width(|mask|, height) - 1)
  {
    var n, last := |mask|, Width(|mask|, height) - 1;
    InTree(n, height, last);
    Children(n, height, last);
  }

  lemma LoneNodesStep(mask: seq<bool>, height: nat, last: nat)
    requires height > 0 && last == Width(|mask|, height) - 1 && ParentOfMatch(mask, height, last)
    ensures Width(|mask|, height - 1) > 0
    ensures LoneNodes(mask, height, last) ==
            LoneNodes(mask, height - 1, Width(|mask|, height - 1) - 1) + if HasRight(|mask|, height, last) then 0 else 1
  {
    if HasRight(|mask|, height, last) {
      InTree(|mask|, height - 1, 2 * last + 1);
      FirstMonotone(height - 1, 2 * last, 2 * last + 1);
      LoneNodesAtMost(mask, height - 1, 2 * last);
      assert Width(|mask|, height - 1) - 1 == 2 * last + 1;
    } else {
      assert Width(|mask|, height - 1) - 1 == 2 * last;
    }
  }

  /** Exactly when the documented bound of 2N - 1 bits is kept: no level ends in a lone child leading to a match. */
  lemma {:induction false} LoneNodesIff(mask: seq<bool>, height: nat)
    requires mask != []
    ensures Width(|mask|, height) > 0
    ensures LoneNodes(mask, height, Width(|mask|, height) - 1) > 0 <==> exists k | 1 <= k <= height :: LoneLevel(mask, k)
    decreases height
  {
    var n := |mask|;
    WidthPositive(n, height);
    if height > 0 {
      var last := Width(n, height) - 1;
      LoneNodesIff(mask, height - 1);
      if ParentOfMatch(mask, height, last) {
        LoneNodesStep(mask, height, last);
        assert LoneLevel(mask, height) <==> !HasRight(n, height, last);
      } else {
        forall k | 1 <= k <= height ensures !LoneLevel(mask, k) {
          WidthPositive(n, k);
          if LoneLevel(mask, k) {
            LastNodesNest(mask, k, height);
          }
        }
      }
    }
  }

  /** What the encoder stores for a whole block. */
  function Encoded(hash: Combine, txids: seq<Hash>, mask: seq<bool>): (seq<bool>, seq<Hash>)
    requires 0 < |txids| == |mask|
  {
    FirstZero(Height(|txids|));
    Build(hash, txids, mask, Height(|txids|), 0)
  }

  /** At most one hash for each transaction, and at most one and one more for each level above each match. */
  lemma HashBound(hash: Combine, txids: seq<Hash>, mask: seq<bool>)
    requires 0 < |txids| == |mask|
    ensures 1 <= |Encoded(hash, txids, mask).1| <= |txids|
    ensures |Encoded(hash, txids, mask).1| <= 1 + MatchCount(mask, 0, |txids|) * Height(|txids|)
  {
    RootCovers(|txids|);
    HashesAtMostLeaves(hash, txids, mask, Height(|txids|), 0);
    HashesByMatches(hash, txids, mask, Height(|txids|), 0);
  }

  /** The documented bound of 2N - 1 on the bits holds exactly when no level ends in a lone child on the way to a
      match; adding the height makes it hold always. */
  lemma BitBound(hash: Combine, txids: seq<Hash>, mask: seq<bool>)
    requires 0 < |txids| == |mask|
    ensures var (bits, hashes) := Encoded(hash, txids, mask);
      && |hashes| <= |bits| <= 2 * |hashes| - 1 + Height(|txids|)
      && (|bits| <= 2 * |hashes| - 1 <==> forall k | 1 <= k <= Height(|txids|) :: !LoneLevel(mask, k))
  {
    var n, h := |txids|, Height(|txids|);
    FirstZero(h);
    HashesAtMostLeaves(hash, txids, mask, h, 0);
    BitsExactly(hash, txids, mask, h, 0);
    LoneNodesAtMost(mask, h, 0);
    HeightIs(n, h);
    assert Width(n, h) == 1 by {
      WidthPositive(n, h);
    }
    LoneNodesIff(mask, h);
  }

  /** Five transactions, the last one matched: five bits for two hashes, more than 2N - 1. */
  lemma FiveTransactions(hash: Combine, txids: seq<Hash>)
    requires |txids| == 5
    ensures var (bits, hashes) := Encoded(hash, txids, [false, false, false, false, true]); |bits| == 5 && |hashes| == 2
  {
    var m := [false, false, false, false, true];
    assert Width(5, 1) == 3 && Width(5, 2) == 2 && Width(5, 3) == 1;
    HeightIs(5, 3);
    FirstZero(3);
    assert First(3, 1) == 8 && First(2, 1) == 4 && First(2, 2) == 8 && First(1, 2) == 4 && First(1, 3) == 6;
    assert m[4];
    assert ParentOfMatch(m, 3, 0) && ParentOfMatch(m, 2, 1) && ParentOfMatch(m, 1, 2) && ParentOfMatch(m, 0, 4);
    assert !ParentOfMatch(m, 2, 0);
    assert |Build(hash, txids, m, 0, 4).0| == 1 && |Build(hash, txids, m, 0, 4).1| == 1;
    assert |Build(hash, txids, m, 1, 2).0| == 2 && |Build(hash, txids, m, 1, 2).1| == 1;
    assert |Build(hash, txids, m, 2, 1).0| == 3 && |Build(hash, txids, m, 2, 1).1| == 1;
    assert |Build(hash, txids, m, 2, 0).0| == 1 && |Build(hash, txids, m, 2, 0).1| == 1;
  }
}
