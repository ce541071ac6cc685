/**
 Following one leaf through the Merkle computation: which subtree hash it has gone into, and the branch collected for it
 so far.
 */
module MerkleMatch {
  import opened Bits
  import opened MerkleTree
  import opened MerkleCounter
  import opened MerkleBranch

  ghost predicate NodeIs(hash: Combine, leaves: seq<Hash>, level: nat, p: int, h: Hash) {
    p >= 0 && First(level, p) < |leaves| && h == CalcHash(hash, leaves, level, p)
  }

  /** After c leaves: nothing before the leaf has been passed, and then the level of the subtree it lies in, with the
      branch up to there. */
  ghost predicate Tracks(hash: Combine, leaves: seq<Hash>, pos: nat, c: nat, m: int, branch: seq<Hash>) {
    if c <= pos then m == -1 && branch == []
    else 0 <= m < 32 && BitAt(c, m) && Shr(pos, m) == Shr(c, m) - 1 && |branch| == m && Path(hash, leaves, pos, branch)
  }

  /** While leaf c is folded in, at some level; matched says that the hash being made contains the leaf followed. */
  ghost predicate Climbing(hash: Combine, leaves: seq<Hash>, pos: nat, c: nat, level: nat, m: int, matched: bool, branch: seq<Hash>) {
    if matched then c >= pos && Shr(pos, level) == Shr(c + 1, level) - 1 && |branch| == level && Path(hash, leaves, pos, branch)
    else c != pos && Tracks(hash, leaves, pos, c, m, branch) && (c > pos ==> m >= level)
  }

  /** The leaf lies in the right one of two siblings, or in the left one. */
  lemma RightOne(hash: Combine, leaves: seq<Hash>, pos: nat, branch: seq<Hash>, q: nat, left: Hash)
    requires Path(hash, leaves, pos, branch) && Shr(pos, |branch|) == 2 * q + 1
    requires NodeIs(hash, leaves, |branch|, 2 * q, left)
    ensures Path(hash, leaves, pos, branch + [left]) && Shr(pos, |branch| + 1) == q
  {
    Above(|leaves|, pos, |branch|);
    PathOn(hash, leaves, pos, branch, left);
  }

  lemma LeftOne(hash: Combine, leaves: seq<Hash>, pos: nat, branch: seq<Hash>, q: nat, right: Hash)
    requires Path(hash, leaves, pos, branch) && Shr(pos, |branch|) == 2 * q
    requires NodeIs(hash, leaves, |branch|, 2 * q + 1, right)
    ensures Path(hash, leaves, pos, branch + [right]) && Shr(pos, |branch| + 1) == q
  {
    Above(|leaves|, pos, |branch|);
    InTree(|leaves|, |branch|, 2 * q + 1);
    PathOn(hash, leaves, pos, branch, right);
  }

  lemma LoneOne(hash: Combine, leaves: seq<Hash>, pos: nat, branch: seq<Hash>, q: nat, h: Hash)
    requires Path(hash, leaves, pos, branch) && Shr(pos, |branch|) == 2 * q && Width(|leaves|, |branch|) == 2 * q + 1
    requires NodeIs(hash, leaves, |branch|, 2 * q, h)
    ensures Path(hash, leaves, pos, branch + [h]) && Shr(pos, |branch| + 1) == q
  {
    PathOn(hash, leaves, pos, branch, h);
  }

  lemma ClimbStart(hash: Combine, leaves: seq<Hash>, pos: nat, c: nat, m: int, branch: seq<Hash>)
    requires c < |leaves| && Tracks(hash, leaves, pos, c, m, branch)
    ensures Climbing(hash, leaves, pos, c, 0, m, c == pos, branch)
  {
  }

  /** One level up, where the subtree to the left is folded in. */
  lemma ClimbStep(hash: Combine, leaves: seq<Hash>, pos: nat, c: nat, level: nat, m: int, matched: bool, branch: seq<Hash>, left: Hash, h: Hash)
    requires ClearBelow(c + 1, level) && !BitAt(c + 1, level) && Shr(c + 1, level) > 0
    requires NodeIs(hash, leaves, level, Shr(c + 1, level) - 2, left) && NodeIs(hash, leaves, level, Shr(c + 1, level) - 1, h)
    requires Climbing(hash, leaves, pos, c, level, m, matched, branch)
    ensures Climbing(hash, leaves, pos, c, level + 1, m, matched || m == level,
                     if matched then branch + [left] else if m == level then branch + [h] else branch)
  {
    ShrSuccLow(c, level);
    var q := Shr(c + 1, level + 1) - 1;
    assert Shr(c + 1, level) == 2 * q + 2;
    if matched {
      RightOne(hash, leaves, pos, branch, q, left);
    } else if m == level {
      LeftOne(hash, leaves, pos, branch, q, h);
    }
  }

  lemma ClimbDone(hash: Combine, leaves: seq<Hash>, pos: nat, c: nat, level: nat, m: int, matched: bool, branch: seq<Hash>)
    requires ClearBelow(c + 1, level) && BitAt(c + 1, level) && level < 32
    requires Climbing(hash, leaves, pos, c, level, m, matched, branch)
    ensures Tracks(hash, leaves, pos, c + 1, if matched then level else m, branch)
  {
    ShrSuccLow(c, level);
    if !matched && c > pos {
      assert m != level;
      ShrSuccHigh(c, level, m);
    }
  }

  // ------------------------------------------------------------------ sweep

  /** On the way up the right edge; bound is the lowest level the leaf's subtree can still be waiting at. */
  ghost predicate Sweeping(hash: Combine, leaves: seq<Hash>, pos: nat, level: nat, m: int, matched: bool, branch: seq<Hash>, bound: nat) {
    if matched then Shr(pos, level) == Width(|leaves|, level) - 1 && |branch| == level && Path(hash, leaves, pos, branch)
    else Tracks(hash, leaves, pos, |leaves|, m, branch) && (pos < |leaves| ==> m >= bound)
  }

  lemma SweepStart(hash: Combine, leaves: seq<Hash>, pos: nat, low: nat, m: int, branch: seq<Hash>)
    requires Tracks(hash, leaves, pos, |leaves|, m, branch) && ClearBelow(|leaves|, low) && BitAt(|leaves|, low)
    ensures Sweeping(hash, leaves, pos, low, m, m == low, branch, low + 1)
  {
    WidthAbove(|leaves|, low, low);
    if pos < |leaves| {
      assert m >= low by {
        assert BitAt(|leaves|, m);
      }
    }
  }

  lemma SweepSelf(hash: Combine, leaves: seq<Hash>, pos: nat, level: nat, m: int, matched: bool, branch: seq<Hash>, h: Hash)
    requires Sweeping(hash, leaves, pos, level, m, matched, branch, level + 1) && Width(|leaves|, level) % 2 == 1
    requires NodeIs(hash, leaves, level, Width(|leaves|, level) - 1, h)
    ensures Sweeping(hash, leaves, pos, level + 1, m, matched, if matched then branch + [h] else branch, level + 1)
  {
    if matched {
      LoneOne(hash, leaves, pos, branch, Width(|leaves|, level) / 2, h);
    }
  }

  lemma SweepUp(hash: Combine, leaves: seq<Hash>, pos: nat, low: nat, level: nat, m: int, matched: bool, branch: seq<Hash>, left: Hash, h: Hash)
    requires BitAt(|leaves|, low) && ClearBelow(|leaves|, low) && low < level
    requires Width(|leaves|, level) % 2 == 0 && Width(|leaves|, level) > 0
    requires Sweeping(hash, leaves, pos, level, m, matched, branch, level)
    requires NodeIs(hash, leaves, level, Width(|leaves|, level) - 2, left) && NodeIs(hash, leaves, level, Width(|leaves|, level) - 1, h)
    ensures Sweeping(hash, leaves, pos, level + 1, m, matched || m == level,
                     if matched then branch + [left] else if m == level then branch + [h] else branch, level + 1)
  {
    var q := Width(|leaves|, level) / 2 - 1;
    WidthAbove(|leaves|, low, level);
    if matched {
      RightOne(hash, leaves, pos, branch, q, left);
    } else if m == level {
      LeftOne(hash, leaves, pos, branch, q, h);
    }
  }

  /** Where the count has no bit at a level, no subtree waits there. */
  lemma SweepPast(hash: Combine, leaves: seq<Hash>, pos: nat, low: nat, level: nat, m: int, matched: bool, branch: seq<Hash>)
    requires BitAt(|leaves|, low) && ClearBelow(|leaves|, low) && low < level && Width(|leaves|, level) % 2 == 1
    requires Sweeping(hash, leaves, pos, level, m, matched, branch, level)
    ensures Sweeping(hash, leaves, pos, level, m, matched, branch, level + 1)
  {
    WidthAbove(|leaves|, low, level);
  }

  /** At the top the leaf has been met. */
  lemma SweepEnd(hash: Combine, leaves: seq<Hash>, pos: nat, low: nat, level: nat, m: int, matched: bool, branch: seq<Hash>)
    requires BitAt(|leaves|, low) && ClearBelow(|leaves|, low) && low <= level && Width(|leaves|, level) == 1
    requires Sweeping(hash, leaves, pos, level, m, matched, branch, level + 1)
    ensures if pos < |leaves| then |branch| == level && Path(hash, leaves, pos, branch) else branch == []
  {
    WidthAbove(|leaves|, low, level);
    if !matched && pos < |leaves| {
      ShrStays(|leaves|, level + 1, m);
    }
  }
}
