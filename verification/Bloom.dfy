/**
 CBloomFilter: a set of keys that may report keys it does not hold, but must never miss one it does.
 */
module Bloom {

  type Key = seq<nat>

  /** A byte, as its bits. */
  type Byte = w: seq<bool> | |w| == 8 witness seq(8, _ => false)

  const ZEROS: Byte := [false, false, false, false, false, false, false, false]
  const ONES: Byte := [true, true, true, true, true, true, true, true]

  class Filter {
    const vData: array<Byte>
    const nHashFuncs: nat
    const hash: (nat, Key) -> nat
    var isFull: bool
    var isEmpty: bool
    /** All keys inserted. */
    ghost var keys: set<Key>
    /** Those inserted while the filter was flagged full over bytes that are not all ones. */
    ghost var skipped: set<Key>

    /** The position of a key under one hash function. */
    function Index(n: nat, key: Key): (i: nat)
      requires vData.Length > 0
      ensures i / 8 < vData.Length
    {
      hash(n, key) % (vData.Length * 8)
    }

    predicate BitAt(i: nat)
      reads vData
      requires i / 8 < vData.Length
    {
      vData[i / 8][i % 8]
    }

    /** The bits set are those set before and the first n positions of a key. */
    ghost predicate HitsAdded(key: Key, n: nat, before: seq<Byte>, now: seq<Byte>)
      requires |before| == |now| == vData.Length && (vData.Length > 0 || n == 0)
    {
      forall j: nat | j / 8 < vData.Length :: now[j / 8][j % 8] <==> before[j / 8][j % 8] || exists m | 0 <= m < n :: Index(m, key) == j
    }

    lemma OneMoreHit(key: Key, n: nat, start: seq<Byte>, before: seq<Byte>, now: seq<Byte>)
      requires 0 < vData.Length == |start| == |before| == |now| && HitsAdded(key, n, start, before)
      requires forall j: nat | j / 8 < vData.Length :: now[j / 8][j % 8] <==> before[j / 8][j % 8] || j == Index(n, key)
      ensures HitsAdded(key, n + 1, start, now)
    {
    }

    ghost predicate AllOnes()
      reads vData
    {
      forall i | 0 <= i < vData.Length :: vData[i] == ONES
    }

    ghost predicate AllZeros()
      reads vData
    {
      forall i | 0 <= i < vData.Length :: vData[i] == ZEROS
    }

    /** All of a key's bits are set. */
    ghost predicate Marked(key: Key)
      reads vData
    {
      forall n | 0 <= n < nHashFuncs :: vData.Length > 0 && BitAt(Index(n, key))
    }

    /** Without bytes a filter with hash functions counts as full, so that no position is asked for. */
    ghost predicate Usable()
      reads this
    {
      vData.Length > 0 || nHashFuncs == 0 || isFull
    }

    /** The bytes hold every key that was not skipped. */
    ghost predicate Valid()
      reads this, vData
    {
      && Usable() && skipped <= keys && (vData.Length == 0 ==> skipped == {})
      && (vData.Length > 0 ==> forall key | key in keys - skipped :: Marked(key))
    }

    ghost predicate Reported(key: Key)
      reads this, vData
    {
      isFull || (!isEmpty && Marked(key))
    }

    /** No key is missed. */
    ghost predicate MissesNone()
      reads this, vData
    {
      forall key | key in keys :: Reported(key)
    }

    /** A filter sized to no bytes has no hash functions either. */
    constructor (size: nat, hashFuncs: nat, h: (nat, Key) -> nat)
      requires size > 0 || hashFuncs == 0
      ensures Valid() && MissesNone() && keys == {} == skipped && nHashFuncs == hashFuncs && hash == h
      ensures fresh(vData) && vData.Length == size && AllZeros() && !isFull && isEmpty
    {
      vData := new Byte[size](_ => ZEROS);
      nHashFuncs, hash, isFull, isEmpty, keys, skipped := hashFuncs, h, false, true, {}, {};
    }

    /** A filter as it is created before one is read into it, and the one read. */
    constructor Received(bytes: seq<Byte>, hashFuncs: nat, h: (nat, Key) -> nat)
      ensures Valid() && vData[..] == bytes && nHashFuncs == hashFuncs && hash == h && keys == {} == skipped
      ensures isFull && !isEmpty && fresh(vData)
    {
      vData := new Byte[|bytes|](i requires 0 <= i < |bytes| => bytes[i]);
      nHashFuncs, hash, isFull, isEmpty, keys, skipped := hashFuncs, h, true, false, {}, {};
    }

    method Contains(key: Key) returns (r: bool)
      requires Usable()
      ensures r <==> Reported(key)
    {
      if isFull {
        return true;
      }
      if isEmpty {
        return false;
      }
      for i := 0 to nHashFuncs
        invariant forall n | 0 <= n < i :: BitAt(Index(n, key))
      {
        if !BitAt(Index(i, key)) {
          return false;
        }
      }
      return true;
    }

    method SetBit(i: nat)
      requires i / 8 < vData.Length
      modifies vData
      ensures forall j: nat | j / 8 < vData.Length :: vData[..][j / 8][j % 8] <==> old(vData[..])[j / 8][j % 8] || j == i
    {
      vData[i / 8] := vData[i / 8][i % 8 := true];
    }

    /** No key reported before goes unreported, and the new one is reported; but under the full flag no bit is set. */
    method Insert(key: Key)
      requires Valid()
      modifies this, vData
      ensures Valid() && keys == old(keys) + {key} && isFull == old(isFull)
      ensures skipped == old(skipped) + if isFull && !AllOnes() then {key} else {}
      ensures old(MissesNone()) ==> MissesNone()
      ensures nHashFuncs == 0 ==> vData[..] == old(vData[..])
      ensures if isFull then vData[..] == old(vData[..]) && isEmpty == old(isEmpty)
              else !isEmpty && HitsAdded(key, nHashFuncs, old(vData[..]), vData[..])
    {
      if isFull {
        if !AllOnes() {
          skipped := skipped + {key};
        } else if vData.Length > 0 {
          OnesMarked(key);
        }
        keys := keys + {key};
        return;
      }
      assert forall k | Marked(k) :: MarkedIn(vData[..], k);
      SetBits(key);
      HitsMark(key, old(vData[..]));
      isEmpty := false;
      keys := keys + {key};
    }

    /** The loop of insert. */
    method SetBits(key: Key)
      requires vData.Length > 0 || nHashFuncs == 0
      modifies vData
      ensures HitsAdded(key, nHashFuncs, old(vData[..]), vData[..]) && (nHashFuncs == 0 ==> vData[..] == old(vData[..]))
    {
      for i := 0 to nHashFuncs
        invariant i == 0 ==> vData[..] == old(vData[..])
        invariant HitsAdded(key, i, old(vData[..]), vData[..])
      {
        ghost var before := vData[..];
        SetBit(Index(i, key));
        OneMoreHit(key, i, old(vData[..]), before, vData[..]);
      }
    }

    lemma OnesMarked(key: Key)
      requires AllOnes() && vData.Length > 0
      ensures Marked(key)
    {
      forall n | 0 <= n < nHashFuncs ensures BitAt(Index(n, key)) {
        assert vData[Index(n, key) / 8] == ONES;
      }
    }

    /** Setting a key's bits marks it, and unmarks no other. */
    lemma HitsMark(key: Key, before: seq<Byte>)
      requires |before| == vData.Length && (vData.Length > 0 || nHashFuncs == 0) && HitsAdded(key, nHashFuncs, before, vData[..])
      ensures Marked(key)
      ensures forall k | MarkedIn(before, k) :: Marked(k)
    {
      forall n | 0 <= n < nHashFuncs ensures BitAt(Index(n, key)) {
        var j := Index(n, key);
        assert vData[..][j / 8][j % 8];
      }
      forall k, n | MarkedIn(before, k) && 0 <= n < nHashFuncs ensures BitAt(Index(n, k)) {
        var j := Index(n, k);
        assert vData[..][j / 8][j % 8];
      }
    }

    /** All of a key's bits are set in these bytes. */
    ghost predicate MarkedIn(bytes: seq<Byte>, key: Key)
      requires |bytes| == vData.Length
    {
      forall n | 0 <= n < nHashFuncs :: vData.Length > 0 && bytes[Index(n, key) / 8][Index(n, key) % 8]
    }

    /** After looking at the bytes no key is missed exactly when the skipped ones happen to be marked, and there are hash
        functions, or nothing was inserted, or there are no bytes, or they are not all zero. */
    method UpdateEmptyFull()
      requires Valid()
      modifies `isFull, `isEmpty
      ensures Valid() && (isFull <==> AllOnes()) && (isEmpty <==> AllZeros())
      ensures MissesNone() <==>
              && (forall key | key in skipped :: Marked(key))
              && (nHashFuncs > 0 || keys == {} || vData.Length == 0 || !AllZeros())
    {
      var full, empty := true, true;
      for i := 0 to vData.Length
        invariant full <==> forall j | 0 <= j < i :: vData[j] == ONES
        invariant empty <==> forall j | 0 <= j < i :: vData[j] == ZEROS
      {
        full := full && vData[i] == ONES;
        empty := empty && vData[i] == ZEROS;
      }
      isFull, isEmpty := full, empty;
      MissesNoneIff();
    }

    lemma MissesNoneIff()
      requires Valid() && (isFull <==> AllOnes()) && (isEmpty <==> AllZeros())
      ensures MissesNone() <==>
              && (forall key | key in skipped :: Marked(key))
              && (nHashFuncs > 0 || keys == {} || vData.Length == 0 || !AllZeros())
    {
      if vData.Length == 0 {
        assert isFull;
      } else if AllOnes() {
        assert vData[0] == ONES && ONES[0] && !ZEROS[0];
        forall key | key in skipped ensures Marked(key) {
          OnesMarked(key);
        }
      } else {
        forall key | key in keys ensures Reported(key) <==> !AllZeros() && Marked(key) {
        }
        if key :| key in keys {
          assert MissesNone() ==> Reported(key);
          if nHashFuncs > 0 && Marked(key) {
            MarkedNotZero(key);
          }
        }
      }
    }

    lemma MarkedNotZero(key: Key)
      requires Marked(key) && nHashFuncs > 0 && vData.Length > 0
      ensures !AllZeros()
    {
      var i := Index(0, key);
      assert BitAt(i) && !ZEROS[i % 8];
      assert vData[i / 8] != ZEROS;
    }
  }

  /** What the condition shuts out: a filter without hash functions forgets what was inserted. */
  method NoHashFunctions(key: Key, h: (nat, Key) -> nat) returns (r: bool)
    ensures !r
  {
    var filter := new Filter(1, 0, h);
    filter.Insert(key);
    assert filter.vData[0] == filter.vData[..][0] == ZEROS;
    filter.UpdateEmptyFull();
    r := filter.Contains(key);
  }

  /** The bit of some bytes that a hash function selects for a key. */
  predicate HashBit(bytes: seq<Byte>, n: nat, key: Key, h: (nat, Key) -> nat)
    requires |bytes| > 0
  {
    var j := h(n, key) % (|bytes| * 8);
    bytes[j / 8][j % 8]
  }

  /** All bits of a key are set in some bytes. */
  ghost predicate InBytes(bytes: seq<Byte>, hashFuncs: nat, key: Key, h: (nat, Key) -> nat) {
    |bytes| > 0 && forall n | 0 <= n < hashFuncs :: HashBit(bytes, n, key, h)
  }

  /** And a received filter, before its bytes are looked at, takes in nothing: the key is found afterwards exactly when
      the bytes already reported it. */
  method InsertTooEarly(bytes: seq<Byte>, hashFuncs: nat, key: Key, h: (nat, Key) -> nat) returns (r: bool)
    requires hashFuncs > 0
    ensures r <==> (forall i | 0 <= i < |bytes| :: bytes[i] == ONES) || InBytes(bytes, hashFuncs, key, h)
  {
    var filter := new Filter.Received(bytes, hashFuncs, h);
    filter.Insert(key);
    filter.UpdateEmptyFull();
    r := filter.Contains(key);
    assert filter.vData[..] == bytes;
    assert filter.AllOnes() <==> forall i | 0 <= i < |bytes| :: bytes[i] == ONES;
    if |bytes| > 0 {
      assert filter.Marked(key) <==> InBytes(bytes, hashFuncs, key, h) by {
        forall n | 0 <= n < hashFuncs ensures filter.BitAt(filter.Index(n, key)) <==> HashBit(bytes, n, key, h) {
          var j := filter.Index(n, key);
          assert filter.vData[j / 8] == bytes[j / 8];
        }
      }
      if filter.Marked(key) {
        filter.MarkedNotZero(key);
      }
    }
  }

  /** One at a time after the flags were computed, any number of keys go into a received filter without any being missed. */
  method ReceiveAndInsert(bytes: seq<Byte>, hashFuncs: nat, ks: seq<Key>, h: (nat, Key) -> nat) returns (filter: Filter)
    requires hashFuncs > 0
    ensures fresh(filter) && fresh(filter.vData) && filter.Valid() && filter.MissesNone()
    ensures filter.keys == set k | k in ks
  {
    filter := new Filter.Received(bytes, hashFuncs, h);
    filter.UpdateEmptyFull();
    for i := 0 to |ks|
      invariant fresh(filter) && fresh(filter.vData) && filter.Valid() && filter.skipped == {} && filter.nHashFuncs == hashFuncs
      invariant filter.isFull ==> filter.AllOnes()
      invariant filter.keys == set k | k in ks[..i]
    {
      filter.Insert(ks[i]);
      assert ks[..i + 1] == ks[..i] + [ks[i]];
    }
    filter.UpdateEmptyFull();
    assert ks[..|ks|] == ks;
  }
}
