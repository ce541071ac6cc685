/**
 The tree of block headers and the active chain (CBlockIndex, CChain): a skip list over the predecessor links, and
 an array from height to block, both of which must agree with walking the predecessors one by one.
 */
module Chain {
  import opened Bits
  import opened SkipList

  /** A block header in the tree.  Its predecessor and height never change; before lists its proper ancestors, from
      genesis on. */
  class BlockIndex {
    const pprev: BlockIndex?
    const nHeight: nat
    const hash: nat
    var pskip: BlockIndex?
    ghost const before: seq<BlockIndex>

    /** The path from genesis to this block. */
    ghost function Line(): (r: seq<BlockIndex>)
      ensures |r| == |before| + 1 && r[|before|] == this
    {
      before + [this]
    }

    /** The ancestor at a height, the block itself included. */
    ghost function At(height: int): BlockIndex? { if 0 <= height <= |before| then Line()[height] else null }

    /** Place i of a path: height, ancestors and predecessor are as the path says. */
    static ghost predicate Place(line: seq<BlockIndex>, i: nat)
      requires i < |line|
    {
      line[i].nHeight == i && line[i].before == line[..i] && line[i].pprev == if i == 0 then null else line[i - 1]
    }

    ghost predicate Linked() {
      forall i | 0 <= i < |Line()| :: Place(Line(), i)
    }

    /** The skip pointer is not yet built, or leads where it should. */
    ghost predicate SkipOk()
      reads this
    {
      pskip == null || (GetSkipHeight(nHeight) < |before| && pskip == before[GetSkipHeight(nHeight)])
    }

    /** The block and all its ancestors have right skip pointers. */
    ghost predicate Valid()
      reads this, before
    {
      Linked() && SkipOk() && forall i | 0 <= i < |before| :: before[i].SkipOk()
    }

    constructor (prev: BlockIndex?, blockHash: nat)
      requires prev != null ==> prev.Valid()
      ensures Valid() && pprev == prev && hash == blockHash && pskip == null
      ensures before == if prev == null then [] else prev.Line()
    {
      pprev, hash, pskip := prev, blockHash, null;
      nHeight := if prev == null then 0 else prev.nHeight + 1;
      before := if prev == null then [] else prev.Line();
      new;
      if prev != null {
        assert BlockIndex.Place(prev.Line(), |prev.before|);
        forall i | 0 <= i < |Line()| ensures Place(Line(), i) {
          if i < |before| {
            assert Place(prev.Line(), i);
          }
        }
      }
    }

    /** Any block of the path has the path up to it as its own. */
    lemma LineOf(i: nat)
      requires Linked() && i <= |before|
      ensures Line()[i].Linked() && Line()[i].Line() == Line()[..i + 1] && Line()[i].nHeight == i
    {
      var a := Line()[i];
      assert Place(Line(), i);
      assert a.Line() == Line()[..i + 1];
      forall j | 0 <= j < |a.Line()| ensures Place(a.Line(), j) {
        assert Place(Line(), j);
      }
    }

    /** All skip pointers of the path are built; genesis has none. */
    ghost predicate Built()
      reads this, before
    {
      forall i | 1 <= i <= |before| :: Line()[i].pskip != null
    }

    /** The skip list finds the block of the path at the asked height, with all pointers built in the steps of the search. */
    method GetAncestor(height: int) returns (r: BlockIndex?, ghost steps: nat)
      requires Valid()
      ensures r == At(height)
      ensures Built() && 0 <= height <= nHeight ==> steps == Steps(nHeight, height) && (nHeight <= 0x4_0000 ==> steps <= 110)
    {
      assert Place(Line(), |before|);
      steps := 0;
      if height > nHeight || height < 0 {
        return null, steps;
      }
      var pindexWalk, heightWalk := this, nHeight;
      while heightWalk > height
        invariant height <= heightWalk <= nHeight && pindexWalk == Line()[heightWalk]
        invariant Built() ==> steps + Steps(heightWalk, height) == Steps(nHeight, height)
      {
        var heightSkip, heightSkipPrev := GetSkipHeight(heightWalk), GetSkipHeight(heightWalk - 1);
        OneStep(heightWalk, height);
        steps := steps + 1;
        assert Place(Line(), heightWalk) && pindexWalk.SkipOk();
        if pindexWalk.pskip != null &&
           (heightSkip == height || (heightSkip > height && !(heightSkipPrev < heightSkip - 2 && heightSkipPrev >= height))) {
          pindexWalk := pindexWalk.pskip;
          heightWalk := heightSkip;
        } else {
          pindexWalk := pindexWalk.pprev;
          heightWalk := heightWalk - 1;
        }
      }
      r := pindexWalk;
      if nHeight <= 0x4_0000 {
        EighteenBits(nHeight, height);
      }
    }

    method BuildSkip()
      requires Valid()
      modifies `pskip
      ensures Valid()
      ensures pprev != null ==> GetSkipHeight(nHeight) < |before| && pskip == before[GetSkipHeight(nHeight)]
      ensures pprev == null ==> pskip == old(pskip)
    {
      assert Place(Line(), |before|);
      if pprev != null {
        PrevValid();
        var a, _ := pprev.GetAncestor(GetSkipHeight(nHeight));
        assert a == before[GetSkipHeight(nHeight)] by {
          assert pprev.Line() == before && nHeight == |before|;
        }
        NotOwnAncestor();
        pskip := a;
      }
    }

    lemma PrevValid()
      requires Valid() && pprev != null
      ensures before != [] && pprev == before[|before| - 1] && pprev.Valid() && pprev.Line() == before
    {
      assert Place(Line(), |before|);
      var n := |before| - 1;
      LineOf(n);
      assert before == Line()[..n + 1];
      assert pprev.before == before[..n] && pprev.SkipOk();
      forall i | 0 <= i < n ensures pprev.before[i].SkipOk() {
        assert before[i].SkipOk();
      }
    }

    lemma NotOwnAncestor()
      requires Linked()
      ensures this !in before
    {
      forall i | 0 <= i < |before| ensures before[i] != this {
        assert Place(Line(), i) && Place(Line(), |before|);
      }
    }
  }

  /** k steps back along the predecessors. */
  function StepsBack(b: BlockIndex, k: nat): BlockIndex? {
    if k == 0 || b.pprev == null then if k == 0 then b else null else StepsBack(b.pprev, k - 1)
  }

  /** The path of a block is what walking its predecessors gives. */
  lemma {:induction false} WalkIsLine(b: BlockIndex, k: nat)
    requires b.Linked()
    ensures StepsBack(b, k) == b.At(b.nHeight - k)
  {
    assert BlockIndex.Place(b.Line(), |b.before|);
    if k > 0 && b.pprev != null {
      b.LineOf(|b.before| - 1);
      assert b.pprev.Line() == b.before;
      WalkIsLine(b.pprev, k - 1);
    }
  }

  // ---------------------------------------------------------- common ancestors

  /** a is the highest common ancestor of two blocks, or null when they have none. */
  ghost predicate HighestCommon(p: BlockIndex, q: BlockIndex, a: BlockIndex?) {
    if a == null then forall h: int :: p.At(h) == null || p.At(h) != q.At(h)
    else p.At(a.nHeight) == q.At(a.nHeight) == a && forall h: int | h > a.nHeight :: p.At(h) == null || p.At(h) != q.At(h)
  }

  /** Below a common ancestor two paths agree; so above their first difference they never agree again. */
  lemma AgreeBelow(p: BlockIndex, q: BlockIndex, h: nat, k: nat)
    requires p.Linked() && q.Linked() && k <= h && p.At(h) != null && p.At(h) == q.At(h)
    ensures p.At(k) == q.At(k) != null
  {
    p.LineOf(h);
    q.LineOf(h);
    assert p.Line()[..h + 1][k] == q.Line()[..h + 1][k];
  }

  method LastCommonAncestor(p: BlockIndex, q: BlockIndex) returns (r: BlockIndex?)
    requires p.Valid() && q.Valid()
    ensures HighestCommon(p, q, r)
  {
    assert BlockIndex.Place(p.Line(), |p.before|) && BlockIndex.Place(q.Line(), |q.before|);
    var pa: BlockIndex?, pb: BlockIndex? := p, q;
    ghost var h: int := if p.nHeight < q.nHeight then p.nHeight else q.nHeight;
    ghost var steps: nat := 0;
    if p.nHeight > q.nHeight {
      pa, steps := p.GetAncestor(q.nHeight);
    } else if q.nHeight > p.nHeight {
      pb, steps := q.GetAncestor(p.nHeight);
    }
    while pa != pb && pa != null && pb != null
      invariant -1 <= h <= |p.before| && h <= |q.before| && pa == p.At(h) && pb == q.At(h)
      invariant forall k: int | k > h :: p.At(k) == null || p.At(k) != q.At(k)
      decreases h
    {
      assert BlockIndex.Place(p.Line(), h) && BlockIndex.Place(q.Line(), h);
      pa := pa.pprev;
      pb := pb.pprev;
      h := h - 1;
    }
    if pa != null {
      assert BlockIndex.Place(p.Line(), h);
    }
    r := pa;
  }

  // ----------------------------------------------------------------- locators

  /** The heights a locator lists, from a height on, with a step back and some entries already listed. */
  function LocatorFrom(height: nat, step: nat, have: nat): seq<nat>
    requires step >= 1
  {
    if height == 0 then [0]
    else [height] + LocatorFrom(if height > step then height - step else 0, if have + 1 > 10 then 2 * step else step, have + 1)
  }

  /** They fall strictly, down to genesis. */
  lemma {:induction false} LocatorFalls(height: nat, step: nat, have: nat)
    requires step >= 1
    ensures var s := LocatorFrom(height, step, have);
      && |s| > 0 && s[0] == height && s[|s| - 1] == 0
      && forall i, j | 0 <= i < j < |s| :: s[i] > s[j]
  {
    if height > 0 {
      LocatorFalls(if height > step then height - step else 0, if have + 1 > 10 then 2 * step else step, have + 1);
    }
  }

  /** The step after k entries, and how far they lead back. */
  function Step(k: nat): nat { if k <= 10 then 1 else Pow2(k - 10) }

  function Descent(k: nat): nat { if k <= 11 then k else 9 + Pow2(k - 10) }

  lemma {:induction false} LocatorLength(start: nat, height: nat, have: nat)
    requires start >= 1
    requires height == start - Descent(have) || (height == 0 && have > 0 && Descent(have - 1) < start)
    requires Step(have) >= 1
    ensures have + |LocatorFrom(height, Step(have), have)| <= 12 + Log2(start)
    decreases height
  {
    if height == 0 {
      if have == 0 || Descent(have - 1) >= start {
        assert Descent(have) == start;
        if have > 11 {
          Log2AtLeast(start, have - 10);
        }
      } else if have > 11 {
        Log2AtLeast(start, have - 11);
      }
    } else {
      var next := if height > Step(have) then height - Step(have) else 0;
      assert Descent(have + 1) == Descent(have) + Step(have);
      assert Step(have + 1) == if have + 1 > 10 then 2 * Step(have) else Step(have);
      LocatorLength(start, next, have + 1);
    }
  }

  /** A locator from height h has at most 12 + log2(h) entries, and one from genesis a single entry. */
  lemma LocatorBound(height: nat)
    ensures |LocatorFrom(height, 1, 0)| <= if height == 0 then 1 else 12 + Log2(height)
  {
    if height > 0 {
      LocatorLength(height, height, 0);
    }
  }

  lemma {:induction false} LocatorSteps(start: nat, height: nat, have: nat, k: nat)
    requires height == (if Descent(have) <= start then start - Descent(have) else 0) && k < |LocatorFrom(height, Step(have), have)|
    ensures LocatorFrom(height, Step(have), have)[k] == if Descent(have + k) <= start then start - Descent(have + k) else 0
    decreases height
  {
    if k > 0 {
      assert Descent(have + 1) == Descent(have) + Step(have);
      assert Step(have + 1) == if have + 1 > 10 then 2 * Step(have) else Step(have);
      LocatorSteps(start, if height > Step(have) then height - Step(have) else 0, have + 1, k - 1);
    }
  }

  /** The first twelve entries go back one by one, and from then on each step is twice the one before: entry k is k blocks
      back, or 9 + 2^(k - 10), as far as there are blocks. */
  lemma LocatorExactly(height: nat, k: nat)
    requires k < |LocatorFrom(height, 1, 0)|
    ensures var back := if k <= 11 then k else 9 + Pow2(k - 10);
            LocatorFrom(height, 1, 0)[k] == if back <= height then height - back else 0
  {
    LocatorSteps(height, height, 0, k);
  }

  lemma {:induction false} LocatorReaches(height: nat, step: nat, have: nat, x: nat) returns (k: nat)
    requires step >= 1 && x <= height
    ensures var s := LocatorFrom(height, step, have);
      k < |s| && s[k] <= x && (k > 0 ==> x < s[k - 1])
    decreases height
  {
    if x == height || height == 0 {
      k := 0;
    } else {
      var next := if height > step then height - step else 0;
      if x > next {
        k := 1;
        LocatorFalls(next, if have + 1 > 10 then 2 * step else step, have + 1);
      } else {
        var j := LocatorReaches(next, if have + 1 > 10 then 2 * step else step, have + 1, x);
        k := j + 1;
      }
    }
  }

  /** What a locator is for: the last block in common with a peer, d blocks back, is reached with fewer than d blocks too many. */
  lemma LocatorNear(height: nat, d: nat) returns (k: nat)
    requires d <= height
    ensures var s := LocatorFrom(height, 1, 0);
      k < |s| && s[k] <= height - d && (d == 0 ==> s[k] == height) && (d > 0 ==> height - d - s[k] < d)
  {
    k := LocatorReaches(height, 1, 0, height - d);
    LocatorExactly(height, k);
    if k > 0 {
      LocatorExactly(height, k - 1);
      if k > 11 {
        assert Pow2(k - 10) == 2 * Pow2(k - 11);
      }
    }
  }

  /** The hashes of a block's ancestors at some heights. */
  ghost function HashesAt(b: BlockIndex, heights: seq<nat>): seq<nat>
    requires forall i | 0 <= i < |heights| :: heights[i] <= |b.before|
  {
    if heights == [] then [] else [b.Line()[heights[0]].hash] + HashesAt(b, heights[1..])
  }

  lemma HashesAtCons(b: BlockIndex, h: nat, heights: seq<nat>)
    requires h <= |b.before| && forall i | 0 <= i < |heights| :: heights[i] <= |b.before|
    ensures HashesAt(b, [h] + heights) == [b.Line()[h].hash] + HashesAt(b, heights)
  {
    assert ([h] + heights)[1..] == heights;
  }

  /** The hashes listed are those of the ancestors at the locator's heights. */
  ghost predicate Located(b: BlockIndex, height: nat, step: nat, have: nat, hashes: seq<nat>)
    requires step >= 1
  {
    var s := LocatorFrom(height, step, have);
    (forall i | 0 <= i < |s| :: s[i] <= |b.before|) && hashes == HashesAt(b, s)
  }

  lemma LocatedCons(b: BlockIndex, height: nat, step: nat, have: nat, rest: seq<nat>)
    requires step >= 1 && 0 < height <= |b.before|
    requires Located(b, if height > step then height - step else 0, if have + 1 > 10 then 2 * step else step, have + 1, rest)
    ensures Located(b, height, step, have, [b.Line()[height].hash] + rest)
  {
    HashesAtCons(b, height, LocatorFrom(if height > step then height - step else 0, if have + 1 > 10 then 2 * step else step, have + 1));
  }

  /** What is listed so far, followed by the locator from a height on, is the locator from the block. */
  ghost predicate Completes(b: BlockIndex, height: nat, step: nat, have: seq<nat>)
    requires step >= 1
  {
    forall rest | Located(b, height, step, |have|, rest) :: Located(b, b.nHeight, 1, 0, have + rest)
  }

  lemma OneMore(have: seq<nat>, hash: nat, rest: seq<nat>)
    ensures have + [hash] + rest == have + ([hash] + rest)
  {
  }

  lemma CompletesStep(b: BlockIndex, height: nat, step: nat, have: seq<nat>)
    requires step >= 1 && height <= |b.before| && Completes(b, height, step, have)
    ensures var have' := have + [b.Line()[height].hash];
      if height == 0 then Located(b, b.nHeight, 1, 0, have')
      else Completes(b, if height > step then height - step else 0, if |have'| > 10 then 2 * step else step, have')
  {
    var hash := b.Line()[height].hash;
    if height == 0 {
      assert Located(b, 0, step, |have|, [hash]);
    } else {
      var next, step', have' := if height > step then height - step else 0, if |have| + 1 > 10 then 2 * step else step, have + [hash];
      forall rest | Located(b, next, step', |have'|, rest) ensures Located(b, b.nHeight, 1, 0, have' + rest) {
        LocatedCons(b, height, step, |have|, rest);
        OneMore(have, hash, rest);
      }
    }
  }

  /** Ancestors of a valid block are valid. */
  lemma AncestorValid(b: BlockIndex, h: nat)
    requires b.Valid() && h <= |b.before|
    ensures b.Line()[h].Valid()
  {
    b.LineOf(h);
    var a := b.Line()[h];
    assert BlockIndex.Place(b.Line(), h);
    forall i | 0 <= i < |a.before| ensures a.before[i].SkipOk() {
      assert a.before[i] == b.before[i];
    }
  }

  // ------------------------------------------------------------- active chain

  /** An in-memory indexed chain of blocks. */
  class ActiveChain {
    var vChain: seq<BlockIndex?>

    /** The chain is empty, or the whole path to its last block. */
    ghost predicate Valid()
      reads this
    {
      vChain == [] || (vChain[|vChain| - 1] != null && vChain[|vChain| - 1].Linked() && vChain == vChain[|vChain| - 1].Line())
    }

    constructor ()
      ensures Valid() && vChain == []
    {
      vChain := [];
    }

    function Tip(): BlockIndex?
      reads this
    {
      if |vChain| > 0 then vChain[|vChain| - 1] else null
    }

    function Get(height: int): BlockIndex?
      reads this
    {
      if height < 0 || height >= |vChain| then null else vChain[height]
    }

    predicate Contains(b: BlockIndex)
      reads this
    {
      Get(b.nHeight) == b
    }

    function Next(b: BlockIndex): BlockIndex?
      reads this
    {
      if Contains(b) then Get(b.nHeight + 1) else null
    }

    function Height(): int
      reads this
    {
      |vChain| - 1
    }

    /** A block is found by its height exactly when it lies on the path to the tip; its whole path then does. */
    lemma ContainsIs(b: BlockIndex)
      requires Valid() && b.Linked()
      ensures Contains(b) <==> b in vChain
      ensures Contains(b) ==> forall h: int | h <= b.nHeight :: Get(h) == b.At(h)
    {
      if b in vChain {
        var tip := vChain[|vChain| - 1];
        var i :| 0 <= i < |vChain| && vChain[i] == b;
        assert tip.Line()[i] == b;
        tip.LineOf(i);
      }
      if Contains(b) {
        var tip := vChain[|vChain| - 1];
        assert tip.Line()[b.nHeight] == b;
        tip.LineOf(b.nHeight);
        forall h: int | h <= b.nHeight ensures Get(h) == b.At(h) {
          if h >= 0 {
            assert tip.Line()[..b.nHeight + 1][h] == b.Line()[h];
          }
        }
      }
    }

    /** SetTip: the early stop still leaves the exact path from genesis to the new tip. */
    method SetTip(tip: BlockIndex?)
      requires Valid() && (tip != null ==> tip.Linked())
      modifies this
      ensures Valid()
      ensures vChain == if tip == null then [] else tip.Line()
    {
      if tip == null {
        vChain := [];
        return;
      }
      assert BlockIndex.Place(tip.Line(), |tip.before|);
      ghost var was := vChain;
      vChain := Resized(vChain, tip.nHeight + 1);
      var pindex: BlockIndex? := tip;
      ghost var h: int := tip.nHeight;
      while pindex != null && vChain[pindex.nHeight] != pindex
        invariant |vChain| == tip.nHeight + 1 && -1 <= h <= tip.nHeight && pindex == tip.At(h)
        invariant pindex != null ==> pindex.nHeight == h
        invariant forall k | h < k <= tip.nHeight :: vChain[k] == tip.At(k)
        invariant forall k | 0 <= k <= h && k < |was| :: vChain[k] == was[k]
        invariant forall k | 0 <= k <= h && k >= |was| :: vChain[k] == null
        decreases h
      {
        assert BlockIndex.Place(tip.Line(), h);
        vChain := vChain[pindex.nHeight := pindex];
        pindex := pindex.pprev;
        h := h - 1;
        if h >= 0 {
          assert BlockIndex.Place(tip.Line(), h);
        }
      }
      if pindex != null {
        StoppedEarly(was, vChain, tip, h);
      } else {
        assert vChain == tip.Line();
      }
    }

    /** Where the old chain already holds an ancestor of the new tip, it holds all the earlier ones too. */
    static lemma StoppedEarly(was: seq<BlockIndex?>, now: seq<BlockIndex?>, tip: BlockIndex, h: nat)
      requires was != [] && was[|was| - 1] != null && was[|was| - 1].Linked() && was == was[|was| - 1].Line()
      requires tip.Linked() && |now| == |tip.before| + 1 && h < |now| && h < |was| && now[h] == tip.At(h)
      requires forall k | h < k < |now| :: now[k] == tip.At(k)
      requires forall k | 0 <= k <= h :: now[k] == was[k]
      ensures now == tip.Line()
    {
      var oldTip := was[|was| - 1];
      forall k | 0 <= k < |now| ensures now[k] == tip.Line()[k] {
        if k <= h {
          AgreeBelow(oldTip, tip, h, k);
        }
      }
    }

    /** The last block of the chain on the way back from a block; null when there is none. */
    method FindFork(b: BlockIndex?) returns (r: BlockIndex?)
      requires Valid() && (b != null ==> b.Valid())
      ensures b == null ==> r == null
      ensures b != null && r == null ==> forall h: int :: b.At(h) == null || b.At(h) !in vChain
      ensures b != null && r != null ==> r in vChain && b.At(r.nHeight) == r &&
                                         forall h: int | h > r.nHeight :: b.At(h) == null || b.At(h) !in vChain
    {
      if b == null {
        return null;
      }
      assert BlockIndex.Place(b.Line(), |b.before|);
      var pindex: BlockIndex? := b;
      ghost var h: int := b.nHeight;
      if b.nHeight > Height() {
        var a, _ := b.GetAncestor(Height());
        pindex := a;
        h := Height();
        forall k: int | k > h ensures b.At(k) == null || b.At(k) !in vChain {
          OutOfReach(b, k);
        }
      }
      while pindex != null && !Contains(pindex)
        invariant -1 <= h <= |b.before| && pindex == b.At(h)
        invariant forall k: int | k > h :: b.At(k) == null || b.At(k) !in vChain
        decreases h
      {
        b.LineOf(h);
        ContainsIs(pindex);
        assert BlockIndex.Place(b.Line(), h);
        pindex := pindex.pprev;
        h := h - 1;
      }
      if pindex != null {
        b.LineOf(h);
        ContainsIs(pindex);
      }
      r := pindex;
    }

    /** GetLocator: from a block, or from the tip, back to genesis. */
    method GetLocator(b: BlockIndex?) returns (vHave: seq<nat>)
      requires Valid() && (b != null ==> b.Valid()) && (Tip() != null ==> Tip().Valid())
      ensures b == null && Tip() == null ==> vHave == []
      ensures var from := if b == null then Tip() else b;
        from != null ==> Located(from, from.nHeight, 1, 0, vHave)
    {
      vHave := [];
      var nStep := 1;
      var pindex := if b == null then Tip() else b;
      ghost var from := pindex;
      if pindex == null {
        return;
      }
      assert BlockIndex.Place(from.Line(), |from.before|);
      // The source also stops at a null block, which does not happen: the walk ends at genesis.
      while true
        invariant pindex != null && pindex.nHeight <= |from.before| && pindex == from.At(pindex.nHeight)
        invariant nStep >= 1 && Completes(from, pindex.nHeight, nStep, vHave)
        decreases pindex.nHeight
      {
        CompletesStep(from, pindex.nHeight, nStep, vHave);
        vHave := vHave + [pindex.hash];
        if pindex.nHeight == 0 {
          break;
        }
        var nHeight := if pindex.nHeight > nStep then pindex.nHeight - nStep else 0;
        pindex := Back(from, pindex, nHeight);
        if |vHave| > 10 {
          nStep := 2 * nStep;
        }
      }
    }

    /** One jump back, by the array where the block is in the chain, by the skip list where not. */
    method Back(ghost from: BlockIndex, pindex: BlockIndex, nHeight: nat) returns (r: BlockIndex)
      requires Valid() && from.Valid() && nHeight <= pindex.nHeight <= |from.before| && pindex == from.At(pindex.nHeight)
      ensures r == from.At(nHeight) && r.nHeight == nHeight
    {
      from.LineOf(pindex.nHeight);
      from.LineOf(nHeight);
      if Contains(pindex) {
        ContainsIs(pindex);
        r := Get(nHeight);
      } else {
        AncestorValid(from, pindex.nHeight);
        var a, _ := pindex.GetAncestor(nHeight);
        r := a;
      }
    }

    /** A block higher than the chain is not in it. */
    lemma OutOfReach(b: BlockIndex, k: int)
      requires Valid() && b.Linked() && k >= |vChain|
      ensures b.At(k) == null || b.At(k) !in vChain
    {
      if b.At(k) != null {
        b.LineOf(k);
        ContainsIs(b.At(k));
      }
    }
  }

  /** A vector after resize: cut off, or filled up with null pointers. */
  function Resized(v: seq<BlockIndex?>, n: nat): (r: seq<BlockIndex?>)
    ensures |r| == n && forall i | 0 <= i < n :: r[i] == if i < |v| then v[i] else null
  {
    if n <= |v| then v[..n] else v + seq(n - |v|, _ => null)
  }
}
