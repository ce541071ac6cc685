/**
 Which partial Merkle trees are accepted.  A proof is a tree cut off where nothing is matched; the decoder accepts exactly
 the bits and hashes that some proof is written as, padded to whole bytes, and gives what the proof says.
 */
module MerkleProof {
  import opened Folding
  import opened MerkleTree
  import opened MerkleBlock
  import opened PartialMerkleTree

  /** A node that is not looked into, a transaction, a node with two children, and one with a lone child. */
  datatype Proof =
    | Stub(stub: Hash)
    | Leaf(matched: bool, txid: Hash)
    | Pair(left: Proof, right: Proof)
    | Lone(only: Proof)

  /** The proof has the shape of the tree of n transactions, from a node down. */
  ghost predicate Fits(t: Proof, n: nat, height: nat, pos: nat)
    decreases t
  {
    match t
    case Stub(_) => height > 0
    case Leaf(_, _) => height == 0
    case Pair(l, r) => height > 0 && HasRight(n, height, pos) && Fits(l, n, height - 1, 2 * pos) && Fits(r, n, height - 1, 2 * pos + 1)
    case Lone(o) => height > 0 && !HasRight(n, height, pos) && Fits(o, n, height - 1, 2 * pos)
  }

  /** How it is written, depth first: a bit for every node, and a hash where it ends. */
  function Bits(t: Proof): (r: seq<bool>)
    ensures |r| > 0
  {
    match t
    case Stub(_) => [false]
    case Leaf(m, _) => [m]
    case Pair(l, r) => [true] + Bits(l) + Bits(r)
    case Lone(o) => [true] + Bits(o)
  }

  function Hashes(t: Proof): (r: seq<Hash>)
    ensures 0 < |r| <= |Bits(t)|
  {
    match t
    case Stub(h) => [h]
    case Leaf(_, h) => [h]
    case Pair(l, r) => Hashes(l) + Hashes(r)
    case Lone(o) => Hashes(o)
  }

  /** The hash of its root, whether it joins two equal ones, and the transactions it matches. */
  function Value(hash: Combine, t: Proof): Hash {
    match t
    case Stub(h) => h
    case Leaf(_, h) => h
    case Pair(l, r) => hash(Value(hash, l), Value(hash, r))
    case Lone(o) => hash(Value(hash, o), Value(hash, o))
  }

  predicate Clash(hash: Combine, t: Proof) {
    match t
    case Stub(_) => false
    case Leaf(_, _) => false
    case Pair(l, r) => Clash(hash, l) || Clash(hash, r) || Value(hash, l) == Value(hash, r)
    case Lone(o) => Clash(hash, o)
  }

  function Found(t: Proof, pos: nat): seq<(Hash, nat)> {
    match t
    case Stub(_) => []
    case Leaf(m, h) => if m then [(h, pos)] else []
    case Pair(l, r) => Found(l, 2 * pos) + Found(r, 2 * pos + 1)
    case Lone(o) => Found(o, 2 * pos)
  }

  // -------------------------------------------------------------------- reading

  /** A list stands at some place of another. */
  ghost predicate Stands<T(!new)>(x: seq<T>, v: seq<T>, i: nat) { forall u | Unfold(u) :: i + |x| <= |v| && v[i..i + |x|] == x }

  lemma {:induction false} StandsTwo<T(!new)>(x: seq<T>, y: seq<T>, v: seq<T>, i: nat)
    ensures Stands(x + y, v, i) <==> Stands(x, v, i) && Stands(y, v, i + |x|)
  {
    assert Unfold(0);
    var a, b := |x|, |y|;
    if i + a + b <= |v| {
      var z := v[i..i + a + b];
      assert z[..a] == v[i..i + a] && z[a..] == v[i + a..i + a + b] && z == z[..a] + z[a..];
      assert (x + y)[..a] == x && (x + y)[a..] == y;
    }
  }

  lemma StandsOne<T(!new)>(x: T, v: seq<T>, i: nat)
    ensures Stands([x], v, i) <==> i < |v| && v[i] == x
  {
    assert Unfold(0);
    if i < |v| {
      assert v[i..i + 1] == [v[i]];
    }
  }

  /** A proof is written at some place of the bits and hashes. */
  ghost predicate At(t: Proof, vBits: seq<bool>, vHash: seq<Hash>, bits: nat, hashes: nat) {
    Stands(Bits(t), vBits, bits) && Stands(Hashes(t), vHash, hashes)
  }

  lemma AtPair(l: Proof, r: Proof, vBits: seq<bool>, vHash: seq<Hash>, bits: nat, hashes: nat)
    ensures At(Pair(l, r), vBits, vHash, bits, hashes) <==>
      && bits < |vBits| && vBits[bits] && At(l, vBits, vHash, bits + 1, hashes)
      && At(r, vBits, vHash, bits + 1 + |Bits(l)|, hashes + |Hashes(l)|)
  {
    StandsTwo([true] + Bits(l), Bits(r), vBits, bits);
    StandsTwo([true], Bits(l), vBits, bits);
    StandsOne(true, vBits, bits);
    StandsTwo(Hashes(l), Hashes(r), vHash, hashes);
  }

  lemma AtLone(o: Proof, vBits: seq<bool>, vHash: seq<Hash>, bits: nat, hashes: nat)
    ensures At(Lone(o), vBits, vHash, bits, hashes) <==> bits < |vBits| && vBits[bits] && At(o, vBits, vHash, bits + 1, hashes)
  {
    StandsTwo([true], Bits(o), vBits, bits);
    StandsOne(true, vBits, bits);
  }

  /** What the decoder makes of a proof. */
  function Read(hash: Combine, t: Proof, pos: nat, bits: nat, hashes: nat): Walked {
    Walked(Clash(hash, t), Value(hash, t), bits + |Bits(t)|, hashes + |Hashes(t)|, Found(t, pos))
  }

  lemma EndReads(hash: Combine, n: nat, t: Proof, vBits: seq<bool>, vHash: seq<Hash>, height: nat, pos: nat, bits: nat, hashes: nat)
    requires (t.Stub? && height > 0) || (t.Leaf? && height == 0)
    requires At(t, vBits, vHash, bits, hashes)
    ensures Walk(hash, n, vBits, vHash, height, pos, bits, hashes) == Read(hash, t, pos, bits, hashes)
  {
    StandsOne(Bits(t)[0], vBits, bits);
    StandsOne(Hashes(t)[0], vHash, hashes);
    assert Bits(t) == [Bits(t)[0]] && Hashes(t) == [Hashes(t)[0]];
  }

  lemma PairReads(hash: Combine, n: nat, l: Proof, r: Proof, vBits: seq<bool>, vHash: seq<Hash>, height: nat, pos: nat, bits: nat, hashes: nat)
    requires height > 0 && HasRight(n, height, pos) && bits < |vBits| && vBits[bits]
    requires Walk(hash, n, vBits, vHash, height - 1, 2 * pos, bits + 1, hashes) == Read(hash, l, 2 * pos, bits + 1, hashes)
    requires Walk(hash, n, vBits, vHash, height - 1, 2 * pos + 1, bits + 1 + |Bits(l)|, hashes + |Hashes(l)|) ==
             Read(hash, r, 2 * pos + 1, bits + 1 + |Bits(l)|, hashes + |Hashes(l)|)
    ensures Walk(hash, n, vBits, vHash, height, pos, bits, hashes) == Read(hash, Pair(l, r), pos, bits, hashes)
  {
  }

  lemma LoneReads(hash: Combine, n: nat, o: Proof, vBits: seq<bool>, vHash: seq<Hash>, height: nat, pos: nat, bits: nat, hashes: nat)
    requires height > 0 && !HasRight(n, height, pos) && bits < |vBits| && vBits[bits]
    requires Walk(hash, n, vBits, vHash, height - 1, 2 * pos, bits + 1, hashes) == Read(hash, o, 2 * pos, bits + 1, hashes)
    ensures Walk(hash, n, vBits, vHash, height, pos, bits, hashes) == Read(hash, Lone(o), pos, bits, hashes)
  {
  }

  /** A proof is read as what it says. */
  lemma {:induction false} WalkReads(hash: Combine, n: nat, t: Proof, vBits: seq<bool>, vHash: seq<Hash>, height: nat, pos: nat, bits: nat, hashes: nat)
    requires Fits(t, n, height, pos) && At(t, vBits, vHash, bits, hashes)
    ensures Walk(hash, n, vBits, vHash, height, pos, bits, hashes) == Read(hash, t, pos, bits, hashes)
    decreases t
  {
    if t.Pair? {
      var l, r := t.left, t.right;
      AtPair(l, r, vBits, vHash, bits, hashes);
      WalkReads(hash, n, l, vBits, vHash, height - 1, 2 * pos, bits + 1, hashes);
      WalkReads(hash, n, r, vBits, vHash, height - 1, 2 * pos + 1, bits + 1 + |Bits(l)|, hashes + |Hashes(l)|);
      PairReads(hash, n, l, r, vBits, vHash, height, pos, bits, hashes);
    } else if t.Lone? {
      AtLone(t.only, vBits, vHash, bits, hashes);
      WalkReads(hash, n, t.only, vBits, vHash, height - 1, 2 * pos, bits + 1, hashes);
      LoneReads(hash, n, t.only, vBits, vHash, height, pos, bits, hashes);
    } else {
      EndReads(hash, n, t, vBits, vHash, height, pos, bits, hashes);
    }
  }

  /** Where the decoder goes on without complaint, the children went without complaint. */
  lemma GoodChildren(hash: Combine, n: nat, vBits: seq<bool>, vHash: seq<Hash>, height: nat, pos: nat, bits: nat, hashes: nat)
    requires !Walk(hash, n, vBits, vHash, height, pos, bits, hashes).bad
    ensures bits < |vBits|
    ensures height == 0 || !vBits[bits] ==> hashes < |vHash|
    ensures height > 0 && vBits[bits] ==>
      var l := Walk(hash, n, vBits, vHash, height - 1, 2 * pos, bits + 1, hashes);
      !l.bad && (HasRight(n, height, pos) ==> !Walk(hash, n, vBits, vHash, height - 1, 2 * pos + 1, l.bits, l.hashes).bad)
  {
  }

  /** Whatever the decoder goes through without complaint is a proof. */
  lemma {:induction false} WalkIsProof(hash: Combine, n: nat, vBits: seq<bool>, vHash: seq<Hash>, height: nat, pos: nat, bits: nat, hashes: nat)
      returns (t: Proof)
    requires !Walk(hash, n, vBits, vHash, height, pos, bits, hashes).bad
    ensures Fits(t, n, height, pos) && At(t, vBits, vHash, bits, hashes)
    decreases height
  {
    GoodChildren(hash, n, vBits, vHash, height, pos, bits, hashes);
    if height == 0 || !vBits[bits] {
      t := EndIsProof(vBits, vHash, height, bits, hashes);
    } else {
      var l := WalkIsProof(hash, n, vBits, vHash, height - 1, 2 * pos, bits + 1, hashes);
      WalkReads(hash, n, l, vBits, vHash, height - 1, 2 * pos, bits + 1, hashes);
      if HasRight(n, height, pos) {
        var r := WalkIsProof(hash, n, vBits, vHash, height - 1, 2 * pos + 1, bits + 1 + |Bits(l)|, hashes + |Hashes(l)|);
        t := PairIsProof(n, l, r, vBits, vHash, height, pos, bits, hashes);
      } else {
        t := LoneIsProof(n, l, vBits, vHash, height, pos, bits, hashes);
      }
    }
  }

  lemma PairIsProof(n: nat, l: Proof, r: Proof, vBits: seq<bool>, vHash: seq<Hash>, height: nat, pos: nat, bits: nat, hashes: nat)
      returns (t: Proof)
    requires height > 0 && HasRight(n, height, pos) && Fits(l, n, height - 1, 2 * pos) && Fits(r, n, height - 1, 2 * pos + 1)
    requires bits < |vBits| && vBits[bits] && At(l, vBits, vHash, bits + 1, hashes)
    requires At(r, vBits, vHash, bits + 1 + |Bits(l)|, hashes + |Hashes(l)|)
    ensures Fits(t, n, height, pos) && At(t, vBits, vHash, bits, hashes)
  {
    AtPair(l, r, vBits, vHash, bits, hashes);
    t := Pair(l, r);
  }

  lemma LoneIsProof(n: nat, o: Proof, vBits: seq<bool>, vHash: seq<Hash>, height: nat, pos: nat, bits: nat, hashes: nat) returns (t: Proof)
    requires height > 0 && !HasRight(n, height, pos) && Fits(o, n, height - 1, 2 * pos)
    requires bits < |vBits| && vBits[bits] && At(o, vBits, vHash, bits + 1, hashes)
    ensures Fits(t, n, height, pos) && At(t, vBits, vHash, bits, hashes)
  {
    AtLone(o, vBits, vHash, bits, hashes);
    t := Lone(o);
  }

  lemma EndIsProof(vBits: seq<bool>, vHash: seq<Hash>, height: nat, bits: nat, hashes: nat) returns (t: Proof)
    requires bits < |vBits| && hashes < |vHash| && (height == 0 || !vBits[bits])
    ensures At(t, vBits, vHash, bits, hashes) && if height == 0 then t.Leaf? else t.Stub?
  {
    t := if height == 0 then Leaf(vBits[bits], vHash[hashes]) else Stub(vHash[hashes]);
    StandsOne(vBits[bits], vBits, bits);
    StandsOne(vHash[hashes], vHash, hashes);
  }

  // ------------------------------------------------------------------ acceptance

  lemma {:induction false} HashesFit(t: Proof, n: nat, height: nat, pos: nat)
    requires Fits(t, n, height, pos) && First(height, pos) < n
    ensures |Hashes(t)| <= Last(n, height, pos) - First(height, pos)
    decreases t
  {
    FirstMonotone(height, pos, pos + 1);
    if t.Pair? {
      Children(n, height, pos);
      HashesFit(t.left, n, height - 1, 2 * pos);
      HashesFit(t.right, n, height - 1, 2 * pos + 1);
    } else if t.Lone? {
      Children(n, height, pos);
      HashesFit(t.only, n, height - 1, 2 * pos);
    }
  }

  /** What arrives is how a proof for n transactions is written: its hashes, and its bits filled up to whole bytes. */
  ghost predicate Arrives(hash: Combine, n: nat, vBits: seq<bool>, vHash: seq<Hash>, t: Proof) {
    && Fits(t, n, Height(n), 0) && !Clash(hash, t) && Value(hash, t) != 0
    && vHash == Hashes(t) && |Bits(t)| <= |vBits| && vBits[..|Bits(t)|] == Bits(t) && (|Bits(t)| + 7) / 8 == (|vBits| + 7) / 8
  }

  lemma AtStart(t: Proof, vBits: seq<bool>, vHash: seq<Hash>)
    requires |vHash| == |Hashes(t)|
    ensures At(t, vBits, vHash, 0, 0) <==> vHash == Hashes(t) && |Bits(t)| <= |vBits| && vBits[..|Bits(t)|] == Bits(t)
  {
    assert Unfold(0);
    assert vHash[0..|Hashes(t)|] == vHash;
  }

  lemma ArrivedIsRead(hash: Combine, n: nat, vBits: seq<bool>, vHash: seq<Hash>, t: Proof)
    requires 0 < n <= MAX_TRANSACTIONS && Arrives(hash, n, vBits, vHash, t)
    ensures Extracted(hash, n, vBits, vHash, false) == (Value(hash, t), Found(t, 0))
  {
    RootCovers(n);
    HashesFit(t, n, Height(n), 0);
    AtStart(t, vBits, vHash);
    WalkReads(hash, n, t, vBits, vHash, Height(n), 0, 0, 0);
  }

  /** A root comes out exactly when a proof arrived on a good object; then it is the proof's, and so are the matches. */
  lemma AcceptedExactly(hash: Combine, n: nat, vBits: seq<bool>, vHash: seq<Hash>, bad: bool)
    ensures Extracted(hash, n, vBits, vHash, bad).0 != 0 <==>
            !bad && 0 < n <= MAX_TRANSACTIONS && exists t :: Arrives(hash, n, vBits, vHash, t)
  {
    if !bad && 0 < n <= MAX_TRANSACTIONS {
      if t :| Arrives(hash, n, vBits, vHash, t) {
        ArrivedIsRead(hash, n, vBits, vHash, t);
      }
      if Extracted(hash, n, vBits, vHash, bad).0 != 0 {
        var t := AcceptedProof(hash, n, vBits, vHash);
      }
    }
  }

  lemma AcceptedProof(hash: Combine, n: nat, vBits: seq<bool>, vHash: seq<Hash>) returns (t: Proof)
    requires Extracted(hash, n, vBits, vHash, false).0 != 0
    ensures Arrives(hash, n, vBits, vHash, t)
  {
    t := WalkIsProof(hash, n, vBits, vHash, Height(n), 0, 0, 0);
    WalkReads(hash, n, t, vBits, vHash, Height(n), 0, 0, 0);
    AtStart(t, vBits, vHash);
  }

  // ------------------------------------------------------------------- no padding

  lemma FirstBit(t: Proof, x: seq<bool>, u: Proof, y: seq<bool>, n: nat, height: nat, pos: nat)
    requires Fits(t, n, height, pos) && Fits(u, n, height, pos) && Bits(t) + x == Bits(u) + y
    ensures Bits(t)[0] == Bits(u)[0] && Bits(t)[1..] + x == Bits(u)[1..] + y
    ensures t.Stub? == u.Stub? && t.Leaf? == u.Leaf? && t.Pair? == u.Pair? && t.Lone? == u.Lone?
  {
    var a, b := Bits(t) + x, Bits(u) + y;
    assert a[0] == Bits(t)[0] && b[0] == Bits(u)[0];
    assert a[1..] == Bits(t)[1..] + x && b[1..] == Bits(u)[1..] + y;
  }

  lemma RestOfPair(t: Proof, x: seq<bool>)
    requires t.Pair?
    ensures Bits(t)[1..] + x == Bits(t.left) + (Bits(t.right) + x)
  {
    assert Bits(t)[1..] == Bits(t.left) + Bits(t.right);
  }

  lemma RestOfLone(t: Proof, x: seq<bool>)
    requires t.Lone?
    ensures Bits(t)[1..] + x == Bits(t.only) + x
  {
    assert Bits(t)[1..] == Bits(t.only);
  }

  lemma RestOfEnd(t: Proof, x: seq<bool>)
    requires t.Stub? || t.Leaf?
    ensures Bits(t)[1..] + x == x
  {
    assert Bits(t)[1..] == [];
  }

  /** The bits decide on the shape and on where it ends; without collisions the root decides on the rest. */
  lemma {:induction false} SameBits(hash: Combine, n: nat, t: Proof, u: Proof, height: nat, pos: nat, x: seq<bool>, y: seq<bool>)
    requires Fits(t, n, height, pos) && Fits(u, n, height, pos) && Bits(t) + x == Bits(u) + y
    ensures x == y && |Bits(t)| == |Bits(u)| && |Hashes(t)| == |Hashes(u)|
    ensures Injective(hash) && Value(hash, t) == Value(hash, u) ==> t == u
    decreases t
  {
    FirstBit(t, x, u, y, n, height, pos);
    if t.Pair? {
      RestOfPair(t, x);
      RestOfPair(u, y);
      SameBits(hash, n, t.left, u.left, height - 1, 2 * pos, Bits(t.right) + x, Bits(u.right) + y);
      SameBits(hash, n, t.right, u.right, height - 1, 2 * pos + 1, x, y);
    } else if t.Lone? {
      RestOfLone(t, x);
      RestOfLone(u, y);
      SameBits(hash, n, t.only, u.only, height - 1, 2 * pos, x, y);
    } else {
      RestOfEnd(t, x);
      RestOfEnd(u, y);
    }
  }

  lemma SameArrival(hash: Combine, n: nat, vBits: seq<bool>, more: seq<bool>, vHash: seq<Hash>, vHash': seq<Hash>, t: Proof, u: Proof)
    requires Arrives(hash, n, vBits, vHash, t) && Arrives(hash, n, vBits + more, vHash', u)
    ensures |Bits(t)| == |Bits(u)| && |vHash| == |vHash'|
    ensures Injective(hash) && Value(hash, t) == Value(hash, u) ==> vHash == vHash'
  {
    var all := vBits + more;
    assert all == Bits(t) + (vBits[|Bits(t)|..] + more) && all == Bits(u) + all[|Bits(u)|..];
    SameBits(hash, n, t, u, Height(n), 0, vBits[|Bits(t)|..] + more, all[|Bits(u)|..]);
  }

  /** Hashes cannot be exchanged: with the same bits, one root comes from one list of hashes only. */
  lemma OneList(hash: Combine, n: nat, vBits: seq<bool>, vHash: seq<Hash>, vHash': seq<Hash>)
    requires Injective(hash) && Extracted(hash, n, vBits, vHash, false).0 == Extracted(hash, n, vBits, vHash', false).0 != 0
    ensures vHash == vHash'
  {
    var t := AcceptedProof(hash, n, vBits, vHash);
    var u := AcceptedProof(hash, n, vBits, vHash');
    ArrivedIsRead(hash, n, vBits, vHash, t);
    ArrivedIsRead(hash, n, vBits, vHash', u);
    assert vBits + [] == vBits;
    SameArrival(hash, n, vBits, [], vHash, vHash', t, u);
  }

  /** Nor can anything be added: with more or fewer hashes, or a byte of bits or more, no root comes out. */
  lemma NoPadding(hash: Combine, n: nat, vBits: seq<bool>, more: seq<bool>, vHash: seq<Hash>, vHash': seq<Hash>)
    requires Extracted(hash, n, vBits, vHash, false).0 != 0
    ensures |vHash'| != |vHash| || |more| >= 8 ==> Extracted(hash, n, vBits + more, vHash', false).0 == 0
  {
    if Extracted(hash, n, vBits + more, vHash', false).0 != 0 {
      var t := AcceptedProof(hash, n, vBits, vHash);
      var u := AcceptedProof(hash, n, vBits + more, vHash');
      SameArrival(hash, n, vBits, more, vHash, vHash', t, u);
    }
  }
}
