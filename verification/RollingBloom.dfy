/**
 CRollingBloomFilter: remembers the most recent keys.  Every position holds a two-bit tag, zero or the number of the
 generation that set it last; the two bits are kept in two separate 64-bit words.
 */
module RollingBloom {
  import opened Nonlinear

  type Key = seq<nat>

  /** A 64-bit word, as its bits. */
  type Word = w: seq<bool> | |w| == 64 witness seq(64, _ => false)

  const ZERO: Word := seq(64, _ => false)

  function Bitwise(f: (bool, bool) -> bool, x: Word, y: Word): Word { seq(64, i requires 0 <= i < 64 => f(x[i], y[i])) }

  function And(x: Word, y: Word): Word { Bitwise((a: bool, b: bool) => a && b, x, y) }

  function Or(x: Word, y: Word): Word { Bitwise((a: bool, b: bool) => a || b, x, y) }

  function Xor(x: Word, y: Word): Word { Bitwise((a: bool, b: bool) => a != b, x, y) }

  /** All bits equal: 0 - bit in 64-bit arithmetic. */
  function Filled(bit: bool): Word { seq(64, _ => bit) }

  /** The tag at a position of a filter: bit b of the pair of words from 2 * w on. */
  function Tag(data: seq<Word>, w: nat, b: nat): nat
    requires 2 * w + 1 < |data| && b < 64
  {
    (if data[2 * w][b] then 1 else 0) + (if data[2 * w + 1][b] then 2 else 0)
  }

  /** After a wipe a tag is what it was, or zero if it was the wiped one. */
  function WipedTag(t: nat, g: nat): nat { if t == g then 0 else t }

  /** The masked wipe of a pair of words clears exactly the wiped tag, in all 64 positions at once. */
  lemma WipePair(p1: Word, p2: Word, g: nat, b: nat)
    requires b < 64 && 1 <= g <= 3
    ensures var mask := Or(Xor(p1, Filled(g % 2 == 1)), Xor(p2, Filled(g / 2 == 1)));
      Tag([And(p1, mask), And(p2, mask)], 0, b) == WipedTag(Tag([p1, p2], 0, b), g)
  {
  }

  /** A position: which pair of words, and which bit. */
  datatype Slot = Slot(word: nat, bit: nat)

  /** Where a hash value leads in a filter of so many words; the lowest bit of the word number is ignored. */
  function SlotOf(h: nat, size: nat): (s: Slot)
    requires size >= 2 && size % 2 == 0
    ensures 2 * s.word + 1 < size && s.bit < 64
  {
    Slot(h / 64 % size / 2, h % 64)
  }

  /** Two hash values lead to one position: they agree in their six lowest bits, and the numbers above these, taken modulo
      the words, name the same pair. */
  predicate SamePosition(h: nat, h': nat, size: nat)
    requires size > 0
  {
    h % 64 == h' % 64 && h / 64 % size / 2 == h' / 64 % size / 2
  }

  lemma PositionsAgree(h: nat, h': nat, size: nat)
    requires size >= 2 && size % 2 == 0
    ensures SlotOf(h, size) == SlotOf(h', size) <==> SamePosition(h, h', size)
  {
  }

  /** Every position of a filter is that of some hash value. */
  lemma PositionReached(s: Slot, size: nat) returns (h: nat)
    requires size >= 2 && size % 2 == 0 && 2 * s.word + 1 < size && s.bit < 64
    ensures SlotOf(h, size) == s
  {
    h := 64 * (2 * s.word) + s.bit;
    ModUnique(h, 64, 2 * s.word, s.bit);
    ModUnique(2 * s.word, size, 0, 2 * s.word);
    ModUnique(2 * s.word, 2, s.word, 0);
  }

  class Filter {
    const nEntriesPerGeneration: nat
    const nHashFuncs: nat
    const data: array<Word>
    const hash: (nat, nat, Key) -> nat
    var nEntriesThisGeneration: nat
    var nGeneration: nat
    var nTweak: nat
    /** All keys since the last reset, in order, and the generation each was inserted in, counted from zero. */
    ghost var keys: seq<Key>
    ghost var born: seq<nat>
    /** How many generations were begun before the current one. */
    ghost var age: nat

    function At(key: Key, n: nat): (s: Slot)
      reads this
      requires data.Length >= 2 && data.Length % 2 == 0
      ensures 2 * s.word + 1 < data.Length && s.bit < 64
    {
      SlotOf(hash(n, nTweak, key), data.Length)
    }

    ghost function TagAt(s: Slot): nat
      reads data
      requires 2 * s.word + 1 < data.Length && s.bit < 64
    {
      Tag(data[..], s.word, s.bit)
    }

    ghost predicate Shape()
      reads this
    {
      && data.Length >= 2 && data.Length % 2 == 0 && nEntriesPerGeneration >= 1
      && nGeneration == age % 3 + 1 && |born| == |keys|
      && nEntriesThisGeneration <= nEntriesPerGeneration
    }

    /** The generation a tag stands for: one of the last three. */
    ghost function GenerationOf(tag: nat): int
      reads this
      requires 1 <= tag <= 3
    {
      // the latest generation not after the current one whose number is tag
      age - (nGeneration - tag) % 3
    }

    /** A key's positions all carry tags of its own generation or a later one. */
    ghost predicate Remembered(i: nat)
      reads this, data
      requires Shape() && i < |keys|
    {
      forall n | 0 <= n < nHashFuncs :: TagAt(At(keys[i], n)) != 0 && GenerationOf(TagAt(At(keys[i], n))) >= born[i]
    }

    /** Generations are filled one after the other. */
    ghost predicate Counted()
      reads this
      requires Shape()
    {
      && |keys| == age * nEntriesPerGeneration + nEntriesThisGeneration && (keys != [] ==> nEntriesThisGeneration > 0)
      && forall i | 0 <= i < |keys| ::
           born[i] <= age && born[i] * nEntriesPerGeneration <= i < born[i] * nEntriesPerGeneration + nEntriesPerGeneration
    }

    ghost predicate InRange(t: Slot) { 2 * t.word + 1 < data.Length && t.bit < 64 }

    /** One of a key's positions under some tweak. */
    ghost predicate HitBy(tweak: nat, key: Key, t: Slot)
      requires data.Length >= 2 && data.Length % 2 == 0
    {
      exists n | 0 <= n < nHashFuncs :: SlotOf(hash(n, tweak, key), data.Length) == t
    }

    /** Some key of a generation has this position. */
    ghost predicate OwnedBy(tweak: nat, ks: seq<Key>, bs: seq<nat>, generation: int, t: Slot)
      requires data.Length >= 2 && data.Length % 2 == 0 && |ks| == |bs|
    {
      exists i | 0 <= i < |ks| :: HitBy(tweak, ks[i], t) && bs[i] == generation
    }

    /** Every tag comes from one key or is owned by others. */
    ghost predicate Sourced(words: seq<Word>, tweak: nat, key: Key, ks: seq<Key>, bs: seq<nat>, now: int, gen: int)
      requires data.Length >= 2 && data.Length % 2 == 0 && |ks| == |bs| && |words| == data.Length
    {
      forall t: Slot | InRange(t) && Tag(words, t.word, t.bit) != 0 ::
        HitBy(tweak, key, t) || OwnedBy(tweak, ks, bs, now - (gen - Tag(words, t.word, t.bit)) % 3, t)
    }

    /** Only a key's own positions have changed. */
    ghost predicate Elsewhere(before: seq<Word>, words: seq<Word>, tweak: nat, key: Key)
      requires data.Length >= 2 && data.Length % 2 == 0 && |words| == data.Length == |before|
    {
      forall t: Slot | InRange(t) && !HitBy(tweak, key, t) :: Tag(words, t.word, t.bit) == Tag(before, t.word, t.bit)
    }

    lemma SourcedStill(before: seq<Word>, words: seq<Word>, tweak: nat, key: Key, ks: seq<Key>, bs: seq<nat>, now: int, gen: int)
      requires data.Length >= 2 && data.Length % 2 == 0 && |ks| == |bs| && |words| == data.Length == |before|
      requires Sourced(before, tweak, key, ks, bs, now, gen) && Elsewhere(before, words, tweak, key)
      ensures Sourced(words, tweak, key, ks, bs, now, gen)
    {
    }

    /** The first n positions of a key bear a tag. */
    ghost predicate MarkedTo(words: seq<Word>, tweak: nat, key: Key, gen: int, n: nat)
      requires data.Length >= 2 && data.Length % 2 == 0 && |words| == data.Length
    {
      forall m | 0 <= m < n :: var s := SlotOf(hash(m, tweak, key), data.Length); Tag(words, s.word, s.bit) == gen
    }

    ghost predicate Marked(words: seq<Word>, tweak: nat, key: Key, gen: int)
      requires data.Length >= 2 && data.Length % 2 == 0 && |words| == data.Length
    {
      MarkedTo(words, tweak, key, gen, nHashFuncs)
    }

    /** One more position, which may be one of the earlier ones. */
    lemma MarkedOn(before: seq<Word>, words: seq<Word>, tweak: nat, key: Key, gen: int, n: nat)
      requires data.Length >= 2 && data.Length % 2 == 0 && |words| == data.Length == |before| && n < nHashFuncs
      requires MarkedTo(before, tweak, key, gen, n)
      requires var s := SlotOf(hash(n, tweak, key), data.Length);
        && Tag(words, s.word, s.bit) == gen
        && forall t: Slot | t != s && InRange(t) :: Tag(words, t.word, t.bit) == Tag(before, t.word, t.bit)
      ensures MarkedTo(words, tweak, key, gen, n + 1)
      ensures forall start | |start| == data.Length && Elsewhere(start, before, tweak, key) :: Elsewhere(start, words, tweak, key)
    {
      var s := SlotOf(hash(n, tweak, key), data.Length);
      assert HitBy(tweak, key, s);
      forall m | 0 <= m < n + 1 ensures var t := SlotOf(hash(m, tweak, key), data.Length); Tag(words, t.word, t.bit) == gen {
        var t := SlotOf(hash(m, tweak, key), data.Length);
        assert t != s ==> Tag(before, t.word, t.bit) == gen;
      }
    }

    ghost predicate Hits(key: Key, t: Slot)
      reads this
      requires Shape()
    {
      HitBy(nTweak, key, t)
    }

    /** Some key of the generation a tag stands for put it there. */
    ghost predicate Owned(t: Slot, tag: nat)
      reads this
      requires Shape() && 1 <= tag <= 3
    {
      OwnedBy(nTweak, keys, born, GenerationOf(tag), t)
    }

    /** No tag is there without a key. */
    ghost predicate Grounded()
      reads this, data
      requires Shape()
    {
      forall t: Slot | InRange(t) && TagAt(t) != 0 :: Owned(t, TagAt(t))
    }

    ghost predicate Valid()
      reads this, data
    {
      Shape() && Counted() && Kept() && Grounded()
    }

    /** One of the keys of the last three generations: of p keys each, counted from the first. */
    ghost predicate Remaining(i: nat)
      reads this
      requires nEntriesPerGeneration >= 1 && i < |keys|
    {
      i / nEntriesPerGeneration + 2 >= (|keys| - 1) / nEntriesPerGeneration
    }

    /** Some hash of a key leads where a hash value leads. */
    ghost predicate Meets(h: nat, key: Key)
      reads this
      requires data.Length > 0
    {
      exists m | 0 <= m < nHashFuncs :: SamePosition(h, hash(m, nTweak, key), data.Length)
    }

    ghost predicate Met(h: nat)
      reads this
      requires nEntriesPerGeneration >= 1 && data.Length > 0
    {
      exists i | 0 <= i < |keys| :: Remaining(i) && Meets(h, keys[i])
    }

    /** What is reported, by the keys put in and their hashes alone. */
    ghost predicate Reported(key: Key)
      reads this
      requires nEntriesPerGeneration >= 1 && data.Length > 0
    {
      forall n | 0 <= n < nHashFuncs :: Met(hash(n, nTweak, key))
    }

    lemma RemainingIs(i: nat)
      requires Shape() && Counted() && i < |keys|
      ensures Remaining(i) <==> born[i] + 2 >= age
    {
      var p := nEntriesPerGeneration;
      ModUnique(i, p, born[i], i - born[i] * p);
      ModUnique(|keys| - 1, p, age, nEntriesThisGeneration - 1);
    }

    lemma MeetsIs(h: nat, key: Key)
      requires Shape()
      ensures Meets(h, key) <==> Hits(key, SlotOf(h, data.Length))
    {
      if m :| 0 <= m < nHashFuncs && SamePosition(h, hash(m, nTweak, key), data.Length) {
        PositionsAgree(h, hash(m, nTweak, key), data.Length);
      }
      if m :| 0 <= m < nHashFuncs && SlotOf(hash(m, nTweak, key), data.Length) == SlotOf(h, data.Length) {
        PositionsAgree(h, hash(m, nTweak, key), data.Length);
      }
    }

    /** A position bears a tag exactly when a key of the last three generations leads there. */
    lemma TaggedExactly(h: nat)
      requires Valid()
      ensures TagAt(SlotOf(h, data.Length)) != 0 <==> Met(h)
    {
      var t := SlotOf(h, data.Length);
      if TagAt(t) != 0 {
        assert InRange(t) && Owned(t, TagAt(t));
        var i :| 0 <= i < |keys| && HitBy(nTweak, keys[i], t) && born[i] == GenerationOf(TagAt(t));
        RemainingIs(i);
        MeetsIs(h, keys[i]);
      }
      if i :| 0 <= i < |keys| && Remaining(i) && Meets(h, keys[i]) {
        RemainingIs(i);
        MeetsIs(h, keys[i]);
        var m :| 0 <= m < nHashFuncs && SlotOf(hash(m, nTweak, keys[i]), data.Length) == t;
        assert Remembered(i) && TagAt(At(keys[i], m)) != 0;
      }
    }

    lemma RecentIsReported(key: Key, i: nat)
      requires Valid() && i < |keys| && keys[i] == key && |keys| - 1 - i <= 2 * nEntriesPerGeneration
      ensures Reported(key)
    {
      Recent(i);
      RemainingIs(i);
      forall n | 0 <= n < nHashFuncs ensures Met(hash(n, nTweak, key)) {
        assert SamePosition(hash(n, nTweak, key), hash(n, nTweak, keys[i]), data.Length);
        assert Meets(hash(n, nTweak, key), keys[i]);
      }
    }

    /** A key is reported exactly when each of its hashes leads where one of a key of the last three generations leads; so it
        is still reported after up to two generations' worth of further keys. */
    method Contains(key: Key) returns (r: bool)
      requires Valid()
      ensures r <==> Reported(key)
      ensures forall i | 0 <= i < |keys| && keys[i] == key && |keys| - 1 - i <= 2 * nEntriesPerGeneration :: r
    {
      if i :| 0 <= i < |keys| && keys[i] == key && |keys| - 1 - i <= 2 * nEntriesPerGeneration {
        RecentIsReported(key, i);
      }
      var n := 0;
      while n < nHashFuncs
        invariant 0 <= n <= nHashFuncs && forall m | 0 <= m < n :: Met(hash(m, nTweak, key))
      {
        var found := IsSet(hash(n, nTweak, key));
        if !found {
          return false;
        }
        n := n + 1;
      }
      return true;
    }

    method IsSet(h: nat) returns (r: bool)
      requires Valid()
      ensures r <==> Met(h)
    {
      var s := SlotOf(h, data.Length);
      TaggedExactly(h);
      r := Or(data[2 * s.word], data[2 * s.word + 1])[s.bit];
    }

    lemma Recent(i: nat)
      requires Shape() && Counted() && i < |keys| && |keys| - 1 - i <= 2 * nEntriesPerGeneration
      ensures born[i] + 2 >= age
    {
      TwoGenerations(i, born[i], age, nEntriesPerGeneration, nEntriesThisGeneration, |keys|);
    }

    /** Keys of the last three generations are remembered. */
    ghost predicate Kept()
      reads this, data
      requires Shape()
    {
      forall i | 0 <= i < |keys| && born[i] + 2 >= age :: Remembered(i)
    }

    /** Inserting a key, after which the guarantee covers it too. */
    method Insert(key: Key)
      requires Valid()
      modifies this, data
      ensures Valid() && keys == old(keys) + [key] && nTweak == old(nTweak)
    {
      if nEntriesThisGeneration == nEntriesPerGeneration {
        MulSum(age, 1, nEntriesPerGeneration);
        NextGeneration();
      }
      assert |keys| == age * nEntriesPerGeneration + nEntriesThisGeneration;
      Store(key);
    }

    /** Generations were filled one after the other, and the current one has room. */
    ghost predicate Room()
      reads this
      requires Shape()
    {
      && nEntriesThisGeneration < nEntriesPerGeneration && |keys| == age * nEntriesPerGeneration + nEntriesThisGeneration
      && forall i | 0 <= i < |keys| ::
           born[i] <= age && born[i] * nEntriesPerGeneration <= i < born[i] * nEntriesPerGeneration + nEntriesPerGeneration
    }

    method Store(key: Key)
      requires Shape() && Kept() && Grounded() && Room()
      modifies `nEntriesThisGeneration, `keys, `born, data
      ensures Valid() && keys == old(keys) + [key]
    {
      ghost var ks, bs, words := keys, born, data[..];
      GroundedSourced(key);
      Mark(key);
      SourcedStill(words, data[..], nTweak, key, ks, bs, age, nGeneration);
      Enter(key);
      OwnersStay(key, ks, bs);
    }

    lemma GroundedSourced(key: Key)
      requires Shape() && Grounded()
      ensures Sourced(data[..], nTweak, key, keys, born, age, nGeneration)
    {
      forall t: Slot | InRange(t) && Tag(data[..], t.word, t.bit) != 0 ensures Owned(t, Tag(data[..], t.word, t.bit)) {
        assert TagAt(t) == Tag(data[..], t.word, t.bit);
      }
    }

    /** The bookkeeping of an insertion. */
    method Enter(key: Key)
      requires Shape() && Kept() && Room() && Marked(data[..], nTweak, key, nGeneration)
      modifies `nEntriesThisGeneration, `keys, `born
      ensures Shape() && Counted() && Kept() && keys == old(keys) + [key] && born == old(born) + [age]
    {
      nEntriesThisGeneration := nEntriesThisGeneration + 1;
      keys, born := keys + [key], born + [age];
      forall i | 0 <= i < |keys| && born[i] + 2 >= age ensures Remembered(i) {
        if i < |keys| - 1 {
          assert old(Remembered(i));
          forall n | 0 <= n < nHashFuncs ensures TagAt(At(keys[i], n)) != 0 && GenerationOf(TagAt(At(keys[i], n))) >= born[i] {
            assert old(TagAt(At(keys[i], n))) != 0;
          }
        } else {
          forall n | 0 <= n < nHashFuncs ensures TagAt(At(keys[i], n)) == nGeneration {
            assert old(TagAt(At(key, n))) == nGeneration;
          }
        }
      }
    }

    /** A new key owns its positions, and the other owners stay. */
    lemma OwnersStay(key: Key, ks: seq<Key>, bs: seq<nat>)
      requires Shape() && |ks| == |bs| && keys == ks + [key] && born == bs + [age]
      requires Marked(data[..], nTweak, key, nGeneration) && Sourced(data[..], nTweak, key, ks, bs, age, nGeneration)
      ensures Grounded()
    {
      forall t: Slot | InRange(t) && TagAt(t) != 0 ensures Owned(t, TagAt(t)) {
        if HitBy(nTweak, key, t) {
          NewOwner(key, ks, bs, t);
        } else {
          OldOwner(nTweak, key, ks, bs, age, GenerationOf(TagAt(t)), t);
        }
      }
    }

    lemma NewOwner(key: Key, ks: seq<Key>, bs: seq<nat>, t: Slot)
      requires Shape() && |ks| == |bs| && keys == ks + [key] && born == bs + [age] && InRange(t)
      requires Marked(data[..], nTweak, key, nGeneration) && HitBy(nTweak, key, t)
      ensures TagAt(t) == nGeneration && Owned(t, nGeneration)
    {
      assert HitBy(nTweak, keys[|keys| - 1], t) && born[|keys| - 1] == age;
    }

    lemma OldOwner(tweak: nat, key: Key, ks: seq<Key>, bs: seq<nat>, now: nat, generation: int, t: Slot)
      requires data.Length >= 2 && data.Length % 2 == 0 && |ks| == |bs| && OwnedBy(tweak, ks, bs, generation, t)
      ensures OwnedBy(tweak, ks + [key], bs + [now], generation, t)
    {
      var i :| 0 <= i < |ks| && HitBy(tweak, ks[i], t) && bs[i] == generation;
      assert HitBy(tweak, (ks + [key])[i], t) && (bs + [now])[i] == generation;
    }

    /** Two generations hold at least as many keys as the filter was made for. */
    constructor (elements: nat, hashFuncs: nat, pairs: nat, h: (nat, nat, Key) -> nat, tweak: nat)
      requires elements >= 1 && pairs >= 1
      ensures Valid() && keys == [] && fresh(data)
      ensures nHashFuncs == hashFuncs && hash == h && nTweak == tweak && data.Length == 2 * pairs
      ensures elements <= 2 * nEntriesPerGeneration <= elements + 1
    {
      nEntriesPerGeneration, nHashFuncs, hash := (elements + 1) / 2, hashFuncs, h;
      data := new Word[2 * pairs](_ => ZERO);
      nTweak, nEntriesThisGeneration, nGeneration := tweak, 0, 1;
      keys, born, age := [], [], 0;
    }

    /** Forget everything; the new tweak is random in the source. */
    method Reset(tweak: nat)
      requires Valid()
      modifies this, data
      ensures Valid() && keys == [] && nTweak == tweak && forall i | 0 <= i < data.Length :: data[i] == ZERO
    {
      nTweak, nEntriesThisGeneration, nGeneration := tweak, 0, 1;
      keys, born, age := [], [], 0;
      for i := 0 to data.Length
        modifies data
        invariant forall j | 0 <= j < i :: data[j] == ZERO
      {
        data[i] := ZERO;
      }
    }

    /** The next generation begins: the tags that bore its number, three generations old, are wiped. */
    method NextGeneration()
      requires Shape() && Kept() && Grounded() && nEntriesThisGeneration == nEntriesPerGeneration
      modifies this, data
      ensures Shape() && Kept() && Grounded() && nEntriesThisGeneration == 0 && age == old(age) + 1
      ensures keys == old(keys) && born == old(born) && nTweak == old(nTweak)
    {
      SameGeneration(age, nGeneration, if nGeneration == 3 then 1 else nGeneration + 1, 1);
      nEntriesThisGeneration := 0;
      nGeneration := nGeneration + 1;
      if nGeneration == 4 {
        nGeneration := 1;
      }
      age := age + 1;
      Wipe(nGeneration);
      forall i | 0 <= i < |keys| && born[i] + 2 >= age ensures Remembered(i) {
        KeptByWipe(i);
      }
      forall t: Slot | InRange(t) && TagAt(t) != 0 ensures Owned(t, TagAt(t)) {
        OwnedAfterWipe(t);
      }
    }

    /** A tag that was not wiped still has its owner. */
    twostate lemma OwnedAfterWipe(t: Slot)
      requires old(Shape()) && Shape() && keys == old(keys) && born == old(born) && nTweak == old(nTweak) && age == old(age) + 1
      requires InRange(t) && TagAt(t) == WipedTag(old(TagAt(t)), nGeneration) && TagAt(t) != 0 && old(Grounded())
      ensures Owned(t, TagAt(t))
    {
      var tag := old(TagAt(t));
      SameGeneration(old(age), old(nGeneration), nGeneration, tag);
      assert old(Owned(t, tag));
    }

    /** A key of the last two generations survives the wipe. */
    twostate lemma KeptByWipe(i: nat)
      requires old(Shape()) && Shape() && i < |keys| && keys == old(keys) && born == old(born) && nTweak == old(nTweak)
      requires age == old(age) + 1 && old(Remembered(i)) && born[i] + 2 >= age
      requires forall w: nat, b: nat | 2 * w + 1 < data.Length && b < 64 ::
        Tag(data[..], w, b) == WipedTag(Tag(old(data[..]), w, b), nGeneration)
      ensures Remembered(i)
    {
      forall n | 0 <= n < nHashFuncs ensures TagAt(At(keys[i], n)) != 0 && GenerationOf(TagAt(At(keys[i], n))) >= born[i] {
        var s := At(keys[i], n);
        var t := Tag(old(data[..]), s.word, s.bit);
        assert old(TagAt(At(keys[i], n))) == t;
        assert TagAt(s) == WipedTag(t, nGeneration);
        SameGeneration(old(age), old(nGeneration), nGeneration, t);
      }
    }

    method Wipe(g: nat)
      requires data.Length % 2 == 0 && 1 <= g <= 3
      modifies data
      ensures forall w: nat, b: nat | 2 * w + 1 < data.Length && b < 64 :: Tag(data[..], w, b) == WipedTag(Tag(old(data[..]), w, b), g)
    {
      ghost var was := data[..];
      var mask1, mask2 := Filled(g % 2 == 1), Filled(g / 2 == 1);
      var p := 0;
      while p < data.Length
        invariant 0 <= p <= data.Length && p % 2 == 0
        invariant forall w: nat, b: nat | 2 * w + 1 < data.Length && b < 64 ::
          Tag(data[..], w, b) == if 2 * w < p then WipedTag(Tag(was, w, b), g) else Tag(was, w, b)
        invariant forall q | p <= q < data.Length :: data[q] == was[q]
      {
        ghost var before := data[..];
        var p1, p2 := data[p], data[p + 1];
        var mask := Or(Xor(p1, mask1), Xor(p2, mask2));
        data[p] := And(p1, mask);
        data[p + 1] := And(p2, mask);
        forall w: nat, b: nat | 2 * w + 1 < data.Length && b < 64
          ensures Tag(data[..], w, b) == if 2 * w < p + 2 then WipedTag(Tag(was, w, b), g) else Tag(was, w, b) {
          if 2 * w == p {
            WipePair(p1, p2, g, b);
          } else {
            assert Tag(data[..], w, b) == Tag(before, w, b);
          }
        }
        p := p + 2;
      }
    }

    /** A key's positions are tagged with the current generation. */
    method Mark(key: Key)
      requires Shape() && Kept()
      modifies data
      ensures Kept() && Marked(data[..], nTweak, key, nGeneration)
      ensures Elsewhere(old(data[..]), data[..], nTweak, key)
    {
      ghost var start := data[..];
      var n := 0;
      while n < nHashFuncs
        invariant 0 <= n <= nHashFuncs && Kept() && MarkedTo(data[..], nTweak, key, nGeneration, n)
        invariant Elsewhere(start, data[..], nTweak, key)
      {
        ghost var before := data[..];
        MarkOne(At(key, n));
        MarkedOn(before, data[..], nTweak, key, nGeneration, n);
        n := n + 1;
      }
    }

    method MarkOne(s: Slot)
      requires Shape() && Kept() && 2 * s.word + 1 < data.Length && s.bit < 64
      modifies data
      ensures Kept() && Tag(data[..], s.word, s.bit) == nGeneration
      ensures forall t: Slot | t != s && InRange(t) :: Tag(data[..], t.word, t.bit) == Tag(old(data[..]), t.word, t.bit)
    {
      SetTag(s, nGeneration);
      forall i | 0 <= i < |keys| && born[i] + 2 >= age ensures Remembered(i) {
        assert old(Remembered(i));
        forall n | 0 <= n < nHashFuncs ensures TagAt(At(keys[i], n)) != 0 && GenerationOf(TagAt(At(keys[i], n))) >= born[i] {
          assert old(TagAt(At(keys[i], n))) != 0;
        }
      }
    }

    /** Both bits of one position. */
    method SetTag(s: Slot, g: nat)
      requires 2 * s.word + 1 < data.Length && s.bit < 64 && 1 <= g <= 3
      modifies data
      ensures TagAt(s) == g
      ensures forall t: Slot | t != s && 2 * t.word + 1 < data.Length && t.bit < 64 :: TagAt(t) == old(TagAt(t))
    {
      ghost var was := data[..];
      data[2 * s.word] := data[2 * s.word][s.bit := g % 2 == 1];
      data[2 * s.word + 1] := data[2 * s.word + 1][s.bit := g / 2 == 1];
      forall t: Slot | t != s && 2 * t.word + 1 < data.Length && t.bit < 64 ensures TagAt(t) == Tag(was, t.word, t.bit) {
      }
    }
  }

  lemma TwoGenerations(i: nat, g: nat, age: nat, p: nat, entries: nat, total: nat)
    requires i < g * p + p && total == age * p + entries && entries > 0
    ensures g + 2 >= age || total - 1 - i > 2 * p
  {
    if g + 3 <= age {
      MulMonotone(g + 3, age, p);
      MulSum(g, 3, p);
    }
  }

  /** A tag that survives a wipe goes on standing for the same generation; a wiped one stood for the oldest. */
  lemma SameGeneration(age: nat, gen: nat, gen': nat, tag: nat)
    requires gen == age % 3 + 1 && gen' == (if gen == 3 then 1 else gen + 1) && 1 <= tag <= 3
    ensures gen' == (age + 1) % 3 + 1
    ensures tag != gen' ==> age + 1 - (gen' - tag) % 3 == age - (gen - tag) % 3
    ensures tag == gen' ==> age - (gen - tag) % 3 == age - 2
  {
  }
}
