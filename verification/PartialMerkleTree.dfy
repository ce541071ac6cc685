/**
 CPartialMerkleTree as the object that is built, sent as bytes, read back and asked for its matches, with its two
 promises: what is extracted from a built tree is what went in, and what is extracted from any tree that shows the
 true root is true.
 */
module PartialMerkleTree {
  import opened MerkleTree
  import opened MerkleBlock

  // ------------------------------------------------------------ bits in bytes

  predicate BitOf(b: bv8, k: nat) { k < 8 && b & ((1 as bv8) << k) != 0 }

  lemma SetBit(b: bv8, k: nat, j: nat)
    requires k < 8 && j < 8
    ensures BitOf(b | ((1 as bv8) << k), j) == (BitOf(b, j) || j == k)
  {
    assert (1 as bv8) << 0 == 1 && (1 as bv8) << 1 == 2 && (1 as bv8) << 2 == 4 && (1 as bv8) << 3 == 8;
    assert (1 as bv8) << 4 == 16 && (1 as bv8) << 5 == 32 && (1 as bv8) << 6 == 64 && (1 as bv8) << 7 == 128;
  }

  /** The bits are packed eight to a byte, least significant first, with zeros at the end. */
  ghost predicate PackedAs(bits: seq<bool>, bytes: seq<bv8>) {
    && |bytes| == (|bits| + 7) / 8
    && forall p | 0 <= p < 8 * |bytes| :: BitOf(bytes[p / 8], p % 8) == (p < |bits| && bits[p])
  }

  function Unpacked(bytes: seq<bv8>): seq<bool> {
    seq(8 * |bytes|, p requires 0 <= p < 8 * |bytes| => BitOf(bytes[p / 8], p % 8))
  }

  /** Unpacking gives the bits back, padded to whole bytes. */
  lemma UnpackedPrefix(bits: seq<bool>, bytes: seq<bv8>)
    requires PackedAs(bits, bytes)
    ensures |bits| <= |Unpacked(bytes)| && Unpacked(bytes)[..|bits|] == bits
    ensures (|Unpacked(bytes)| + 7) / 8 == (|bits| + 7) / 8
  {
    forall p | 0 <= p < |bits| ensures Unpacked(bytes)[p] == bits[p] {
      assert BitOf(bytes[p / 8], p % 8) == bits[p];
    }
  }

  /** The first p bits are in place, the rest are zeros; bit reads one bit of a byte. */
  ghost predicate Placed(bit: (bv8, nat) -> bool, bytes: seq<bv8>, bits: seq<bool>, p: nat)
    requires p <= |bits|
  {
    && |bytes| == (|bits| + 7) / 8
    && forall q | 0 <= q < 8 * |bytes| :: bit(bytes[q / 8], q % 8) == (q < p && bits[q])
  }

  lemma PlaceOne(bit: (bv8, nat) -> bool, bytes: seq<bv8>, bits: seq<bool>, p: nat, b: bv8)
    requires p < |bits| && bits[p] && Placed(bit, bytes, bits, p)
    requires forall k: nat | k < 8 :: bit(b, k) == (bit(bytes[p / 8], k) || k == p % 8)
    ensures Placed(bit, bytes[p / 8 := b], bits, p + 1)
  {
    var bytes' := bytes[p / 8 := b];
    forall q | 0 <= q < 8 * |bytes| ensures bit(bytes'[q / 8], q % 8) == (q < p + 1 && bits[q]) {
      assert bit(bytes[q / 8], q % 8) == (q < p && bits[q]);
    }
  }

  lemma PlaceNone(bit: (bv8, nat) -> bool, bytes: seq<bv8>, bits: seq<bool>, p: nat)
    requires p < |bits| && !bits[p] && Placed(bit, bytes, bits, p)
    ensures Placed(bit, bytes, bits, p + 1)
  {
  }

  method Pack(vBits: seq<bool>) returns (vBytes: seq<bv8>)
    ensures PackedAs(vBits, vBytes)
  {
    vBytes := seq((|vBits| + 7) / 8, _ => 0);
    for p := 0 to |vBits|
      invariant Placed(BitOf, vBytes, vBits, p)
    {
      if vBits[p] {
        var b := vBytes[p / 8] | ((1 as bv8) << (p % 8));
        forall k: nat | k < 8 ensures BitOf(b, k) == (BitOf(vBytes[p / 8], k) || k == p % 8) {
          SetBit(vBytes[p / 8], p % 8, k);
        }
        PlaceOne(BitOf, vBytes, vBits, p, b);
        vBytes := vBytes[p / 8 := b];
      } else {
        PlaceNone(BitOf, vBytes, vBits, p);
      }
    }
  }

  method Unpack(vBytes: seq<bv8>) returns (vBits: seq<bool>)
    ensures vBits == Unpacked(vBytes)
  {
    vBits := [];
    for p := 0 to 8 * |vBytes|
      invariant |vBits| == p && forall q | 0 <= q < p :: vBits[q] == BitOf(vBytes[q / 8], q % 8)
    {
      vBits := vBits + [vBytes[p / 8] & ((1 as bv8) << (p % 8)) != 0];
    }
  }

  // -------------------------------------------------------------- extraction

  /** The most transactions a block of 32 million weight units can hold, at 240 units each. */
  const MAX_TRANSACTIONS := 32_000_000 / 240

  /** What ExtractMatches returns, zero in case of failure, and the matches it collects. */
  function Extracted(hash: Combine, n: nat, vBits: seq<bool>, vHash: seq<Hash>, bad: bool): (Hash, seq<(Hash, nat)>) {
    if n == 0 || n > MAX_TRANSACTIONS || |vHash| > n || |vBits| < |vHash| then (0, [])
    else
      var w := Walk(hash, n, vBits, vHash, Height(n), 0, 0, 0);
      var failed := bad || w.bad || (w.bits + 7) / 8 != (|vBits| + 7) / 8 || w.hashes != |vHash|;
      (if failed then 0 else w.hash, w.matches)
  }

  /** Soundness: whatever bits and hashes arrived, if they give the non-null root of a list of as many transactions,
      every extracted id stands in the list at its extracted index, each index once and in order. */
  lemma ExtractedSound(hash: Combine, txids: seq<Hash>, vBits: seq<bool>, vHash: seq<Hash>, bad: bool)
    requires Injective(hash) && txids != []
    requires var root := Extracted(hash, |txids|, vBits, vHash, bad).0; root != 0 && root == Root(hash, txids)
    ensures AllTrue(txids, Extracted(hash, |txids|, vBits, vHash, bad).1, 0, |txids|)
  {
    RootCovers(|txids|);
    WalkSound(hash, txids, vBits, vHash, Height(|txids|), 0, 0, 0);
  }

  /** Round trip, for every block and every choice of matches: after packing and unpacking, exactly the matched ids
      and indexes come out, in order, with the true root, unless the encoder walked over two equal siblings. */
  lemma RoundTrip(hash: Combine, txids: seq<Hash>, mask: seq<bool>, bytes: seq<bv8>)
    requires 0 < |txids| == |mask| <= MAX_TRANSACTIONS
    requires PackedAs(Encoded(hash, txids, mask).0, bytes)
    ensures First(Height(|txids|), 0) == 0
    ensures Extracted(hash, |txids|, Unpacked(bytes), Encoded(hash, txids, mask).1, false) ==
            (if Twins(hash, txids, mask, Height(|txids|), 0) then 0 else Root(hash, txids), Matched(txids, mask, 0, |txids|))
  {
    var (bits, hashes) := Encoded(hash, txids, mask);
    var n, vBits := |txids|, Unpacked(bytes);
    UnpackedPrefix(bits, bytes);
    RootCovers(n);
    HashBound(hash, txids, mask);
    BitBound(hash, txids, mask);
    assert Holds(vBits, hashes, 0, 0, (bits, hashes));
    WalkBuild(hash, txids, mask, Height(n), 0, vBits, hashes, 0, 0);
  }

  /** With distinct ids and no hash collisions it always succeeds. */
  lemma RoundTripDistinct(hash: Combine, txids: seq<Hash>, mask: seq<bool>, bytes: seq<bv8>)
    requires 0 < |txids| == |mask| <= MAX_TRANSACTIONS
    requires PackedAs(Encoded(hash, txids, mask).0, bytes)
    requires Injective(hash) && Distinct(txids)
    ensures Extracted(hash, |txids|, Unpacked(bytes), Encoded(hash, txids, mask).1, false) ==
            (Root(hash, txids), Matched(txids, mask, 0, |txids|))
  {
    RoundTrip(hash, txids, mask, bytes);
    DistinctNoTwins(hash, txids, mask, Height(|txids|), 0);
  }

  function Ids(matches: seq<(Hash, nat)>): seq<Hash> {
    if matches == [] then [] else [matches[0].0] + Ids(matches[1..])
  }

  function Indexes(matches: seq<(Hash, nat)>): seq<nat> {
    if matches == [] then [] else [matches[0].1] + Indexes(matches[1..])
  }

  lemma {:induction false} ColumnsConcat(a: seq<(Hash, nat)>, b: seq<(Hash, nat)>)
    ensures Ids(a + b) == Ids(a) + Ids(b) && Indexes(a + b) == Indexes(a) + Indexes(b)
  {
    if a == [] {
      assert a + b == b;
    } else {
      assert (a + b)[1..] == a[1..] + b;
      ColumnsConcat(a[1..], b);
    }
  }

  lemma ColumnsAppend(ids: seq<Hash>, indexes: seq<nat>, a: seq<(Hash, nat)>, b: seq<(Hash, nat)>)
    ensures ids + Ids(a) + Ids(b) == ids + Ids(a + b) && indexes + Indexes(a) + Indexes(b) == indexes + Indexes(a + b)
  {
    ColumnsConcat(a, b);
    assert ids + Ids(a) + Ids(b) == ids + (Ids(a) + Ids(b));
    assert indexes + Indexes(a) + Indexes(b) == indexes + (Indexes(a) + Indexes(b));
  }

  lemma AppendNode(bits: seq<bool>, hashes: seq<Hash>, f: bool, l: (seq<bool>, seq<Hash>), r: (seq<bool>, seq<Hash>))
    ensures bits + [f] + l.0 + r.0 == bits + ([f] + l.0 + r.0) && hashes + l.1 + r.1 == hashes + (l.1 + r.1)
    ensures bits + [f] + l.0 == bits + ([f] + l.0)
  {
  }

  method ComputeHeight(n: nat) returns (height: nat)
    ensures height == Height(n)
  {
    height := 0;
    while Width(n, height) > 1
      invariant HeightFrom(n, height) == Height(n)
      decreases Width(n, height)
    {
      height := height + 1;
    }
  }

  /** The scan for a matched leaf below a node. */
  method FindMatch(mask: seq<bool>, lo: nat, hi: nat) returns (found: bool)
    requires lo <= |mask|
    ensures found == AnyMatch(mask, lo, if hi < |mask| then hi else |mask|)
  {
    found := false;
    var p := lo;
    while p < hi && p < |mask|
      invariant lo <= p <= |mask| && (p <= hi || p == lo)
      invariant found == AnyMatch(mask, lo, p)
    {
      found := found || mask[p];
      p := p + 1;
    }
  }

  // ------------------------------------------------------------------- class

  class PartialTree {
    var nTransactions: nat
    var vBits: seq<bool>
    var vHash: seq<Hash>
    var fBad: bool

    constructor Empty()
      ensures nTransactions == 0 && vBits == [] && vHash == [] && fBad
    {
      nTransactions, vBits, vHash, fBad := 0, [], [], true;
    }

    constructor (hash: Combine, txids: seq<Hash>, mask: seq<bool>)
      requires 0 < |txids| == |mask|
      ensures nTransactions == |txids| && !fBad
      ensures (vBits, vHash) == Encoded(hash, txids, mask)
    {
      nTransactions, vBits, vHash, fBad := |txids|, [], [], false;
      new;
      var nHeight := ComputeHeight(nTransactions);
      FirstZero(nHeight);
      TraverseAndBuild(hash, txids, mask, nHeight, 0);
      var b := Encoded(hash, txids, mask);
      assert [] + b.0 == b.0 && [] + b.1 == b.1;
    }

    method TraverseAndBuild(hash: Combine, txids: seq<Hash>, mask: seq<bool>, height: nat, pos: nat)
      requires nTransactions == |txids| == |mask| && First(height, pos) < |txids|
      modifies `vBits, `vHash
      ensures vBits == old(vBits) + Build(hash, txids, mask, height, pos).0
      ensures vHash == old(vHash) + Build(hash, txids, mask, height, pos).1
      decreases height
    {
      var fParentOfMatch := FindMatch(mask, First(height, pos), First(height, pos + 1));
      FirstMonotone(height, pos, pos + 1);
      vBits := vBits + [fParentOfMatch];
      if height == 0 || !fParentOfMatch {
        vHash := vHash + [CalcHash(hash, txids, height, pos)];
      } else {
        Children(|txids|, height, pos);
        ghost var l := Build(hash, txids, mask, height - 1, 2 * pos);
        TraverseAndBuild(hash, txids, mask, height - 1, 2 * pos);
        if 2 * pos + 1 < Width(nTransactions, height - 1) {
          ghost var r := Build(hash, txids, mask, height - 1, 2 * pos + 1);
          TraverseAndBuild(hash, txids, mask, height - 1, 2 * pos + 1);
          AppendNode(old(vBits), old(vHash), true, l, r);
        } else {
          AppendNode(old(vBits), old(vHash), true, l, ([], []));
        }
      }
    }

    method TraverseAndExtract(hash: Combine, height: nat, pos: nat, bitsUsed: nat, hashUsed: nat, ids: seq<Hash>, indexes: seq<nat>)
      returns (h: Hash, nBitsUsed: nat, nHashUsed: nat, vMatch: seq<Hash>, vnIndex: seq<nat>)
      modifies `fBad
      ensures var w := Walk(hash, nTransactions, vBits, vHash, height, pos, bitsUsed, hashUsed);
        && fBad == (old(fBad) || w.bad) && h == w.hash && nBitsUsed == w.bits && nHashUsed == w.hashes
        && vMatch == ids + Ids(w.matches) && vnIndex == indexes + Indexes(w.matches)
      decreases height
    {
      nBitsUsed, nHashUsed, vMatch, vnIndex := bitsUsed, hashUsed, ids, indexes;
      if nBitsUsed >= |vBits| {
        fBad := true;
        return 0, nBitsUsed, nHashUsed, vMatch, vnIndex;
      }
      var fParentOfMatch := vBits[nBitsUsed];
      nBitsUsed := nBitsUsed + 1;
      if height == 0 || !fParentOfMatch {
        if nHashUsed >= |vHash| {
          fBad := true;
          return 0, nBitsUsed, nHashUsed, vMatch, vnIndex;
        }
        h := vHash[nHashUsed];
        nHashUsed := nHashUsed + 1;
        if height == 0 && fParentOfMatch {
          vMatch := vMatch + [h];
          vnIndex := vnIndex + [pos];
          assert Ids([(h, pos)]) == [h] && Indexes([(h, pos)]) == [pos];
        }
      } else {
        ghost var l := Walk(hash, nTransactions, vBits, vHash, height - 1, 2 * pos, bitsUsed + 1, hashUsed);
        var left, right: Hash;
        left, nBitsUsed, nHashUsed, vMatch, vnIndex := TraverseAndExtract(hash, height - 1, 2 * pos, nBitsUsed, nHashUsed, vMatch, vnIndex);
        if 2 * pos + 1 < Width(nTransactions, height - 1) {
          ghost var r := Walk(hash, nTransactions, vBits, vHash, height - 1, 2 * pos + 1, l.bits, l.hashes);
          right, nBitsUsed, nHashUsed, vMatch, vnIndex := TraverseAndExtract(hash, height - 1, 2 * pos + 1, nBitsUsed, nHashUsed, vMatch, vnIndex);
          ColumnsAppend(ids, indexes, l.matches, r.matches);
          if right == left {
            fBad := true;
          }
        } else {
          right := left;
        }
        h := hash(left, right);
      }
    }

    /** ExtractMatches empties the list of ids it is given, but adds to the list of indexes. */
    method ExtractMatches(hash: Combine, indexes: seq<nat>) returns (root: Hash, vMatch: seq<Hash>, vnIndex: seq<nat>)
      modifies `fBad
      ensures var e := Extracted(hash, nTransactions, vBits, vHash, old(fBad));
        root == e.0 && vMatch == Ids(e.1) && vnIndex == indexes + Indexes(e.1)
    {
      vMatch, vnIndex := [], indexes;
      if nTransactions == 0 || nTransactions > MAX_TRANSACTIONS || |vHash| > nTransactions || |vBits| < |vHash| {
        return 0, vMatch, vnIndex;
      }
      var nHeight := ComputeHeight(nTransactions);
      var nBitsUsed, nHashUsed;
      root, nBitsUsed, nHashUsed, vMatch, vnIndex := TraverseAndExtract(hash, nHeight, 0, 0, 0, [], indexes);
      if fBad || (nBitsUsed + 7) / 8 != (|vBits| + 7) / 8 || nHashUsed != |vHash| {
        root := 0;
      }
    }

    method Serialize() returns (n: nat, hashes: seq<Hash>, bytes: seq<bv8>)
      ensures n == nTransactions && hashes == vHash && PackedAs(vBits, bytes)
    {
      n, hashes := nTransactions, vHash;
      bytes := Pack(vBits);
    }

    method Unserialize(n: nat, hashes: seq<Hash>, bytes: seq<bv8>)
      modifies this
      ensures nTransactions == n && vHash == hashes && vBits == Unpacked(bytes) && !fBad
    {
      nTransactions, vHash := n, hashes;
      vBits := Unpack(bytes);
      fBad := false;
    }
  }

  /** The whole way from one node to another: the receiver ends up with the true root and exactly the matches. */
  method SendAndExtract(hash: Combine, txids: seq<Hash>, mask: seq<bool>) returns (root: Hash, vMatch: seq<Hash>, vnIndex: seq<nat>)
    requires 0 < |txids| == |mask| <= MAX_TRANSACTIONS && Injective(hash) && Distinct(txids)
    ensures root == Root(hash, txids)
    ensures vMatch == Ids(Matched(txids, mask, 0, |txids|)) && vnIndex == Indexes(Matched(txids, mask, 0, |txids|))
  {
    var sender := new PartialTree(hash, txids, mask);
    var n, hashes, bytes := sender.Serialize();
    var receiver := new PartialTree.Empty();
    receiver.Unserialize(n, hashes, bytes);
    RoundTripDistinct(hash, txids, mask, bytes);
    root, vMatch, vnIndex := receiver.ExtractMatches(hash, []);
  }
}
