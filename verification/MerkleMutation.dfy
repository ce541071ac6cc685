/**
 Repeated subtrees.  Because an odd last node is hashed with itself, lists that repeat the leaves of a subtree can
 have the root of a shorter list.  The flag raised for two equal complete siblings is proved to detect every such pair
 of lists.
 */
module MerkleMutation {
  import opened MerkleTree

  /** Two siblings with the same hash. */
  ghost predicate Repeats(hash: Combine, leaves: seq<Hash>, level: nat, q: nat) {
    && First(level, 2 * q + 1) < |leaves|
    && (FirstMonotone(level, 2 * q, 2 * q + 1);
        CalcHash(hash, leaves, level, 2 * q) == CalcHash(hash, leaves, level, 2 * q + 1))
  }

  /** Such siblings that cover only some of the first c leaves. */
  ghost predicate RepeatWithin(hash: Combine, leaves: seq<Hash>, c: nat) {
    exists level: nat, q: nat :: First(level, 2 * q + 2) <= c && Repeats(hash, leaves, level, q)
  }

  /** What the flag reports: two equal siblings, both complete. */
  ghost predicate Mutated(hash: Combine, leaves: seq<Hash>) { RepeatWithin(hash, leaves, |leaves|) }

  /** All leaves of a node are there, or only some of them. */
  ghost predicate Complete(n: nat, level: nat, pos: nat) { First(level, pos) < First(level, pos + 1) <= n }

  ghost predicate Partial(n: nat, level: nat, pos: nat) { First(level, pos) < n < First(level, pos + 1) }

  lemma CompleteChildren(hash: Combine, leaves: seq<Hash>, level: nat, pos: nat)
    requires level > 0 && Complete(|leaves|, level, pos)
    ensures Complete(|leaves|, level - 1, 2 * pos + 1) && First(level - 1, 2 * pos) < |leaves|
    ensures CalcHash(hash, leaves, level, pos) ==
            hash(CalcHash(hash, leaves, level - 1, 2 * pos), CalcHash(hash, leaves, level - 1, 2 * pos + 1))
  {
    assert First(level, pos + 1) == First(level - 1, 2 * pos + 2);
    FirstMonotone(level - 1, 2 * pos + 1, 2 * pos + 2);
    Join(hash, leaves, level - 1, pos);
  }

  lemma PartialChildren(hash: Combine, leaves: seq<Hash>, level: nat, pos: nat)
    requires Partial(|leaves|, level, pos)
    ensures level > 0 && First(level - 1, 2 * pos) < |leaves|
    ensures HasRight(|leaves|, level, pos) ==>
              && First(level - 1, 2 * pos + 1) < |leaves|
              && CalcHash(hash, leaves, level, pos) ==
                 hash(CalcHash(hash, leaves, level - 1, 2 * pos), CalcHash(hash, leaves, level - 1, 2 * pos + 1))
    ensures HasRight(|leaves|, level, pos) ==> Partial(|leaves|, level - 1, 2 * pos + 1)
    ensures !HasRight(|leaves|, level, pos) ==>
              CalcHash(hash, leaves, level, pos) ==
              hash(CalcHash(hash, leaves, level - 1, 2 * pos), CalcHash(hash, leaves, level - 1, 2 * pos))
  {
    assert level > 0 ==> First(level, pos + 1) == First(level - 1, 2 * pos + 2);
    if level > 0 {
      InTree(|leaves|, level - 1, 2 * pos + 1);
    }
  }

  /** An incomplete node that equals a complete one repeats leaves inside the complete one. */
  lemma {:induction false} Incomplete(hash: Combine, leaves: seq<Hash>, level: nat, p: nat, r: nat)
    requires Injective(hash) && Complete(|leaves|, level, p) && Partial(|leaves|, level, r)
    requires CalcHash(hash, leaves, level, p) == CalcHash(hash, leaves, level, r)
    ensures Mutated(hash, leaves)
  {
    PartialChildren(hash, leaves, level, r);
    CompleteChildren(hash, leaves, level, p);
    if HasRight(|leaves|, level, r) {
      Incomplete(hash, leaves, level - 1, 2 * p + 1, 2 * r + 1);
    } else {
      CompleteTwins(hash, leaves, level - 1, p);
    }
  }

  lemma CompleteTwins(hash: Combine, leaves: seq<Hash>, level: nat, q: nat)
    requires Complete(|leaves|, level, 2 * q + 1) && First(level, 2 * q) < |leaves|
    requires CalcHash(hash, leaves, level, 2 * q) == CalcHash(hash, leaves, level, 2 * q + 1)
    ensures Mutated(hash, leaves)
  {
    assert First(level, 2 * q + 2) <= |leaves| && Repeats(hash, leaves, level, q);
  }

  /** The flag is raised exactly when some siblings are equal, complete or not. */
  lemma MutatedExactly(hash: Combine, leaves: seq<Hash>)
    requires Injective(hash)
    ensures Mutated(hash, leaves) <==> exists level: nat, q: nat :: Repeats(hash, leaves, level, q)
  {
    forall level: nat, q: nat | Repeats(hash, leaves, level, q) ensures Mutated(hash, leaves) {
      if First(level, 2 * q + 2) > |leaves| {
        FirstMonotone(level, 2 * q, 2 * q + 1);
        Incomplete(hash, leaves, level, 2 * q, 2 * q + 1);
      }
    }
  }

  ghost predicate NoRepeats(hash: Combine, leaves: seq<Hash>) {
    forall level: nat, q: nat :: !Repeats(hash, leaves, level, q)
  }

  /** The same leaves below a node. */
  ghost predicate SameBelow(a: seq<Hash>, b: seq<Hash>, level: nat, pos: nat) {
    && Last(|a|, level, pos) == Last(|b|, level, pos)
    && forall i | First(level, pos) <= i < Last(|a|, level, pos) :: i < |a| && i < |b| && a[i] == b[i]
  }

  /** Without repeats, nodes at the same place with the same hash cover the same leaves. */
  lemma {:induction false} SameNode(hash: Combine, a: seq<Hash>, b: seq<Hash>, level: nat, pos: nat)
    requires Injective(hash) && NoRepeats(hash, a) && NoRepeats(hash, b)
    requires First(level, pos) < |a| && First(level, pos) < |b|
    requires CalcHash(hash, a, level, pos) == CalcHash(hash, b, level, pos)
    ensures SameBelow(a, b, level, pos)
  {
    if level > 0 {
      SameChildren(hash, a, b, level, pos);
      Children(|a|, level, pos);
      Children(|b|, level, pos);
      SameNode(hash, a, b, level - 1, 2 * pos);
      if HasRight(|a|, level, pos) {
        SameNode(hash, a, b, level - 1, 2 * pos + 1);
      }
    }
  }

  /** Their children have the same hashes, and are as many. */
  lemma SameChildren(hash: Combine, a: seq<Hash>, b: seq<Hash>, level: nat, pos: nat)
    requires Injective(hash) && NoRepeats(hash, a) && NoRepeats(hash, b) && level > 0
    requires First(level, pos) < |a| && First(level, pos) < |b|
    requires CalcHash(hash, a, level, pos) == CalcHash(hash, b, level, pos)
    ensures First(level - 1, 2 * pos) < |a| && First(level - 1, 2 * pos) < |b|
    ensures CalcHash(hash, a, level - 1, 2 * pos) == CalcHash(hash, b, level - 1, 2 * pos)
    ensures HasRight(|a|, level, pos) <==> HasRight(|b|, level, pos)
    ensures HasRight(|a|, level, pos) ==> First(level - 1, 2 * pos + 1) < |a| && First(level - 1, 2 * pos + 1) < |b|
    ensures HasRight(|a|, level, pos) ==> CalcHash(hash, a, level - 1, 2 * pos + 1) == CalcHash(hash, b, level - 1, 2 * pos + 1)
  {
    Children(|a|, level, pos);
    Children(|b|, level, pos);
    assert !Repeats(hash, a, level - 1, pos) && !Repeats(hash, b, level - 1, pos);
  }

  /** Two different lists whose trees have the same height and the same root: the flag is raised for one of them. */
  lemma SameRootSameList(hash: Combine, a: seq<Hash>, b: seq<Hash>)
    requires Injective(hash) && a != [] && b != [] && Height(|a|) == Height(|b|) && Root(hash, a) == Root(hash, b)
    ensures a == b || Mutated(hash, a) || Mutated(hash, b)
  {
    MutatedExactly(hash, a);
    MutatedExactly(hash, b);
    if NoRepeats(hash, a) && NoRepeats(hash, b) {
      RootCovers(|a|);
      RootCovers(|b|);
      SameNode(hash, a, b, Height(|a|), 0);
    }
  }

  // ------------------------------------------------------ trees of different heights

  /** The level of a level. */
  lemma {:induction false} LevelOfLevel(hash: Combine, a: seq<Hash>, d: nat, k: nat)
    ensures Level(hash, Level(hash, a, d), k) == Level(hash, a, d + k)
  {
    if k > 0 {
      LevelOfLevel(hash, a, d, k - 1);
    }
  }

  lemma {:induction false} WidthOfWidth(n: nat, d: nat, k: nat)
    ensures Width(Width(n, d), k) == Width(n, d + k)
  {
    if k > 0 {
      WidthOfWidth(n, d, k - 1);
    }
  }

  /** A level of a tree is a list whose own tree is the part above it. */
  lemma UpperHeight(n: nat, d: nat)
    requires n > 0 && d <= Height(n)
    ensures Width(n, d) > 0 && Height(Width(n, d)) == Height(n) - d
  {
    var h := Height(n);
    HeightIs(n, h);
    WidthPositive(n, d);
    WidthOfWidth(n, d, h - d);
    forall k | 0 <= k < h - d ensures Width(Width(n, d), k) > 1 {
      WidthOfWidth(n, d, k);
    }
    HeightIs(Width(n, d), h - d);
  }

  lemma UpperNode(hash: Combine, a: seq<Hash>, d: nat, level: nat, pos: nat)
    requires First(level, pos) < Width(|a|, d)
    ensures First(d + level, pos) < |a| && CalcHash(hash, Level(hash, a, d), level, pos) == CalcHash(hash, a, d + level, pos)
  {
    InTree(Width(|a|, d), level, pos);
    WidthOfWidth(|a|, d, level);
    InTree(|a|, d + level, pos);
    LevelOfLevel(hash, a, d, level);
    CalcHashIsLevel(hash, Level(hash, a, d), level, pos);
    CalcHashIsLevel(hash, a, d + level, pos);
  }

  lemma UpperRoot(hash: Combine, a: seq<Hash>, d: nat)
    requires a != [] && d <= Height(|a|)
    ensures Level(hash, a, d) != [] && Root(hash, Level(hash, a, d)) == Root(hash, a)
  {
    UpperHeight(|a|, d);
    FirstZero(Height(|a|) - d);
    UpperNode(hash, a, d, Height(|a|) - d, 0);
  }

  lemma UpperNoRepeats(hash: Combine, a: seq<Hash>, d: nat)
    requires NoRepeats(hash, a)
    ensures NoRepeats(hash, Level(hash, a, d))
  {
    forall level: nat, q: nat | Repeats(hash, Level(hash, a, d), level, q) ensures Repeats(hash, a, d + level, q) {
      FirstMonotone(level, 2 * q, 2 * q + 1);
      UpperNode(hash, a, d, level, 2 * q);
      UpperNode(hash, a, d, level, 2 * q + 1);
    }
  }

  lemma UpperNotMutated(hash: Combine, a: seq<Hash>, d: nat)
    requires Injective(hash)
    ensures !Mutated(hash, a) ==> !Mutated(hash, Level(hash, a, d))
  {
    if !Mutated(hash, a) {
      MutatedExactly(hash, a);
      UpperNoRepeats(hash, a, d);
      MutatedExactly(hash, Level(hash, a, d));
    }
  }

  /** All lists that share a root without the flag: the one with the lower tree is a level of the other's tree. */
  lemma SameRootExactly(hash: Combine, a: seq<Hash>, b: seq<Hash>, h: nat, k: nat)
    requires Injective(hash) && a != [] && b != [] && h == Height(|a|) && k == Height(|b|) && k <= h
    ensures !Mutated(hash, a) && !Mutated(hash, b) ==> (Root(hash, a) == Root(hash, b) <==> b == Level(hash, a, h - k))
  {
    UpperRoot(hash, a, h - k);
    UpperHeight(|a|, h - k);
    UpperNotMutated(hash, a, h - k);
    OneHeight(hash, Level(hash, a, h - k), b);
  }

  lemma OneHeight(hash: Combine, a: seq<Hash>, b: seq<Hash>)
    requires Injective(hash) && a != [] && b != [] && Height(|a|) == Height(|b|)
    ensures !Mutated(hash, a) && !Mutated(hash, b) ==> (Root(hash, a) == Root(hash, b) <==> a == b)
  {
    if Root(hash, a) == Root(hash, b) {
      SameRootSameList(hash, a, b);
    }
  }

  /** The flag is never raised for different transaction ids. */
  lemma DistinctNotMutated(hash: Combine, leaves: seq<Hash>)
    requires Injective(hash) && Distinct(leaves)
    ensures !Mutated(hash, leaves)
  {
    forall level: nat, q: nat ensures !Repeats(hash, leaves, level, q) {
      if First(level, 2 * q + 1) < |leaves| {
        NoTwinsWhenDistinct(hash, leaves, level, 2 * q, 2 * q + 1);
      }
    }
  }

  // ----------------------------------------------------- how lists come to share a root

  lemma {:induction false} UpConcat(hash: Combine, x: seq<Hash>, y: seq<Hash>)
    requires |x| % 2 == 0
    ensures Up(hash, x + y) == Up(hash, x) + Up(hash, y)
  {
    if x != [] {
      UpConcat(hash, x[2..], y);
      assert (x + y)[2..] == x[2..] + y;
    } else {
      assert x + y == y;
    }
  }

  /** Below the height of its complete subtrees, a list is hashed on its own. */
  lemma {:induction false} LevelConcat(hash: Combine, x: seq<Hash>, y: seq<Hash>, level: nat, c: nat)
    requires |x| == First(level, c)
    ensures Level(hash, x + y, level) == Level(hash, x, level) + Level(hash, y, level) && |Level(hash, x, level)| == c
  {
    if level > 0 {
      LevelConcat(hash, x, y, level - 1, 2 * c);
      UpConcat(hash, Level(hash, x, level - 1), Level(hash, y, level - 1));
    }
  }

  lemma {:induction false} SameAbove(hash: Combine, a: seq<Hash>, b: seq<Hash>, level: nat, above: nat)
    requires Level(hash, a, level) == Level(hash, b, level) && level <= above
    ensures Level(hash, a, above) == Level(hash, b, above)
  {
    if level < above {
      SameAbove(hash, a, b, level, above - 1);
    }
  }

  lemma SameWidth(hash: Combine, a: seq<Hash>, b: seq<Hash>, level: nat, above: nat)
    requires Level(hash, a, level) == Level(hash, b, level) && level <= above
    ensures Width(|a|, above) == Width(|b|, above)
  {
    SameAbove(hash, a, b, level, above);
  }

  /** Trees that agree in width from a level on, below which both are wide, have the same height. */
  lemma SameHeight(a: nat, b: nat, level: nat, h: nat)
    requires level > 0 && Width(a, level - 1) > 1 && Width(b, level - 1) > 1 && IsHeight(a, h)
    requires forall k | level <= k :: Width(a, k) == Width(b, k)
    ensures level <= h && IsHeight(b, h)
  {
    if h < level {
      WidthFalls(a, h, level - 1);
    }
    forall k | 0 <= k < h ensures Width(b, k) > 1 {
      if k < level {
        WidthFalls(b, k, level - 1);
      }
    }
  }

  lemma RootIsLevel(hash: Combine, a: seq<Hash>, h: nat)
    requires a != [] && IsHeight(|a|, h)
    ensures |Level(hash, a, h)| == 1 && Root(hash, a) == Level(hash, a, h)[0]
  {
    HeightIs(|a|, h);
    FirstZero(h);
    WidthPositive(|a|, h);
    CalcHashIsLevel(hash, a, h, 0);
  }

  lemma SameTop(hash: Combine, a: seq<Hash>, b: seq<Hash>, level: nat)
    requires a != [] && b != [] && level > 0 && Width(|a|, level - 1) > 1 && Width(|b|, level - 1) > 1
    requires Level(hash, a, level) == Level(hash, b, level)
    ensures Height(|a|) == Height(|b|) && Root(hash, a) == Root(hash, b)
  {
    var h := Height(|a|);
    HeightIs(|a|, h);
    forall k | level <= k ensures Width(|a|, k) == Width(|b|, k) {
      SameWidth(hash, a, b, level, k);
    }
    SameHeight(|a|, |b|, level, h);
    HeightIs(|b|, h);
    RootIsLevel(hash, a, h);
    RootIsLevel(hash, b, h);
    SameAbove(hash, a, b, level, h);
  }

  /** A list that ends in a lone complete subtree has the root of the list that repeats it, and the flag is raised for the
      longer one. */
  lemma RepeatedTail(hash: Combine, x: seq<Hash>, t: seq<Hash>, level: nat, c: nat)
    requires c > 0 && |x| == First(level, 2 * c) && |t| == First(level, 1)
    ensures x + t != [] && x + t + t != [] && Height(|x + t|) == Height(|x + t + t|)
    ensures Root(hash, x + t) == Root(hash, x + t + t) && Mutated(hash, x + t + t)
  {
    var a, b := x + t, x + (t + t);
    assert b == x + t + t;
    FirstMonotone(level, 0, 1);
    FirstAdds(level, 1, 1);
    FirstAdds(level, 2 * c, 2);
    var l, h := TailLevel(hash, x, t, level, c);
    UpSelf(hash, l, h);
    assert Level(hash, a, level + 1) == Level(hash, b, level + 1);
    SameTop(hash, a, b, level + 1);
    RepeatsAt(hash, b, level, c);
  }

  lemma TailLevel(hash: Combine, x: seq<Hash>, t: seq<Hash>, level: nat, c: nat) returns (l: seq<Hash>, h: Hash)
    requires |x| == First(level, 2 * c) && |t| == First(level, 1)
    ensures |l| == 2 * c && Level(hash, x + t, level) == l + [h] && Level(hash, x + (t + t), level) == l + [h, h]
  {
    l := Level(hash, x, level);
    LevelConcat(hash, t, t, level, 1);
    LevelConcat(hash, x, t, level, 2 * c);
    LevelConcat(hash, x, t + t, level, 2 * c);
    var m := Level(hash, t, level);
    h := m[0];
    assert m == [h] && m + m == [h, h];
  }

  lemma UpOnePair(hash: Combine, h: Hash)
    ensures Up(hash, [h]) == Up(hash, [h, h])
  {
    assert [h, h][2..] == [];
  }

  lemma UpSelf(hash: Combine, l: seq<Hash>, h: Hash)
    requires |l| % 2 == 0
    ensures Up(hash, l + [h]) == Up(hash, l + [h, h])
  {
    UpConcat(hash, l, [h]);
    UpConcat(hash, l, [h, h]);
    UpOnePair(hash, h);
  }

  lemma RepeatsAt(hash: Combine, b: seq<Hash>, level: nat, c: nat)
    requires |b| == First(level, 2 * c + 2) && |Level(hash, b, level)| == 2 * c + 2
    requires Level(hash, b, level)[2 * c] == Level(hash, b, level)[2 * c + 1]
    ensures Mutated(hash, b)
  {
    FirstMonotone(level, 2 * c, 2 * c + 1);
    FirstMonotone(level, 2 * c + 1, 2 * c + 2);
    CalcHashIsLevel(hash, b, level, 2 * c);
    CalcHashIsLevel(hash, b, level, 2 * c + 1);
    assert Repeats(hash, b, level, c);
  }

  /** Trees of different heights can share a root without repeats, when a leaf is the hash of two others. */
  lemma LeafOrPair(hash: Combine, a: Hash, b: Hash)
    requires a != b
    ensures Root(hash, [hash(a, b)]) == Root(hash, [a, b]) && Height(1) != Height(2)
    ensures !Mutated(hash, [hash(a, b)]) && !Mutated(hash, [a, b])
  {
    assert IsHeight(1, 0) && Width(2, 0) == 2 && IsHeight(2, 1);
    HeightIs(1, 0);
    HeightIs(2, 1);
    var one, two := [hash(a, b)], [a, b];
    assert Root(hash, one) == CalcHash(hash, one, 0, 0) == one[0];
    Join(hash, two, 0, 0);
    assert Root(hash, two) == CalcHash(hash, two, 1, 0);
    forall level: nat, q: nat ensures !(First(level, 2 * q + 2) <= 2 && Repeats(hash, two, level, q)) {
      if level > 0 || q > 0 {
        Beyond(level, q);
      } else {
        assert CalcHash(hash, two, 0, 0) == a && CalcHash(hash, two, 0, 1) == b;
      }
    }
    forall level: nat, q: nat ensures !(First(level, 2 * q + 2) <= 1 && Repeats(hash, one, level, q)) {
      FirstMonotone(level, 2 * q, 2 * q + 1);
      FirstMonotone(level, 2 * q + 1, 2 * q + 2);
    }
  }

  /** Only one pair lies within the first two leaves. */
  lemma {:induction false} Beyond(level: nat, q: nat)
    requires level > 0 || q > 0
    ensures First(level, 2 * q + 2) > 2
  {
    if level > 0 {
      Beyond(level - 1, 2 * q + 1);
    }
  }
}
