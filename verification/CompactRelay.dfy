/**
 Compact blocks at both ends: the announcement, and the partly downloaded block put together from it.
 */
module CompactRelay {
  import opened Counting
  import opened Wrappers
  import opened CompactBlocks
  import opened CompactGather

  // ------------------------------------------------------------------ rebuilding

  /** The block made of the slots and the missing transactions, taken in order. */
  function Completed(slots: seq<Option<Tx>>, missing: seq<Tx>, from: nat): seq<Tx>
    requires from <= |slots| && |missing| == |Free(slots, from)|
    decreases |slots| - from
  {
    if from == |slots| then []
    else if slots[from].Some? then [slots[from].value] + Completed(slots, missing, from + 1)
    else [missing[0]] + Completed(slots, missing[1..], from + 1)
  }

  /** The transactions of a block at some positions. */
  function Pick(block: seq<Tx>, positions: seq<nat>): (r: seq<Tx>)
    requires forall i | 0 <= i < |positions| :: positions[i] < |block|
    ensures |r| == |positions| && forall i | 0 <= i < |positions| :: r[i] == block[positions[i]]
  {
    if positions == [] then [] else [block[positions[0]]] + Pick(block, positions[1..])
  }

  /** Genuine slots and the transactions of the free ones, in order, make the block again. */
  lemma {:induction false} Rebuilt(slots: seq<Option<Tx>>, block: seq<Tx>, from: nat)
    requires Genuine(slots, block) && from <= |slots|
    ensures forall k | 0 <= k < |Free(slots, from)| :: Free(slots, from)[k] < |block|
    ensures Completed(slots, Pick(block, Free(slots, from)), from) == block[from..]
    decreases |slots| - from
  {
    FreeIs(slots, from);
    if from < |slots| {
      Rebuilt(slots, block, from + 1);
      if slots[from].None? {
        assert Free(slots, from)[1..] == Free(slots, from + 1);
      }
    }
  }

  // -------------------------------------------------------------------- messages

  /** The positions from one on that no prefilled transaction takes, in order. */
  function Others(pos: seq<nat>, from: nat, n: nat): seq<nat>
    requires from <= n
    decreases n - from
  {
    if from == n then [] else if from in pos then Others(pos, from + 1, n) else [from] + Others(pos, from + 1, n)
  }

  lemma {:induction false} OthersAreFree(m: Message, pos: seq<nat>, slots: seq<Option<Tx>>, from: nat)
    requires |pos| == |m.prefilled| && Placeable(m, pos, |pos|) && Placed(m, pos, |pos|, slots) && from <= |slots|
    ensures Others(pos, from, |slots|) == Free(slots, from)
    decreases |slots| - from
  {
    if from < |slots| {
      OthersAreFree(m, pos, slots, from + 1);
      assert pos[..|pos|] == pos;
    }
  }

  /** The message describes the block: its whole transactions and its short ids are those of their positions. */
  ghost predicate Describes(m: Message, sid: nat -> nat, hash: Tx -> nat, block: seq<Tx>) {
    var pos := Positions(m.prefilled);
    && |block| == m.Count() && Placeable(m, pos, |m.prefilled|)
    && (forall i | 0 <= i < |m.prefilled| :: pos[i] < |block| && m.prefilled[i].tx == Some(block[pos[i]]))
    && var rest := Others(pos, 0, |block|);
      |rest| == |m.shortIds| && forall k | 0 <= k < |rest| :: rest[k] < |block| && m.shortIds[k] == sid(hash(block[rest[k]]))
  }

  /** The message a node sends for a block: the coinbase whole, short ids for the rest. */
  ghost predicate Announces(m: Message, sid: nat -> nat, hash: Tx -> nat, block: seq<Tx>) {
    && block != [] && !m.headerNull && m.prefilled == [Prefilled(0, Some(block[0]))]
    && |m.shortIds| == |block| - 1 && forall k | 0 <= k < |m.shortIds| :: m.shortIds[k] == sid(hash(block[k + 1]))
  }

  method Announce(block: seq<Tx>, sid: nat -> nat, hash: Tx -> nat) returns (m: Message)
    requires block != []
    ensures Announces(m, sid, hash, block)
  {
    var shortIds := [];
    for i := 1 to |block|
      invariant |shortIds| == i - 1 && forall j | 0 <= j < i - 1 :: shortIds[j] == sid(hash(block[j + 1]))
    {
      shortIds := shortIds + [sid(hash(block[i]))];
    }
    m := Message(false, shortIds, [Prefilled(0, Some(block[0]))]);
  }

  lemma AnnouncedPositions(m: Message, sid: nat -> nat, hash: Tx -> nat, block: seq<Tx>)
    requires Announces(m, sid, hash, block)
    ensures Positions(m.prefilled) == [0] && Placeable(m, [0], 1)
    ensures |Others([0], 0, |block|)| == |m.shortIds| && forall k | 0 <= k < |m.shortIds| :: Others([0], 0, |block|)[k] == k + 1
  {
    assert m.prefilled[..0] == [];
    OthersThanFirst(1, |block|);
  }

  lemma AnnouncementDescribes(m: Message, sid: nat -> nat, hash: Tx -> nat, block: seq<Tx>)
    requires Announces(m, sid, hash, block)
    ensures Describes(m, sid, hash, block)
  {
    AnnouncedPositions(m, sid, hash, block);
  }

  lemma {:induction false} OthersThanFirst(from: nat, n: nat)
    requires 1 <= from <= n
    ensures |Others([0], from, n)| == n - from && forall k | 0 <= k < n - from :: Others([0], from, n)[k] == from + k
    decreases n - from
  {
    if from < n {
      OthersThanFirst(from + 1, n);
    }
  }

  // ---------------------------------------------------------------------- class

  /** What InitData reports; Stuck stands for a call that never returns. */
  datatype Status = OK | Invalid | Failed | Stuck

  /** What happens on the way: the prefilled slots, where the short ids lead, the slots after the pool, and how much of the
      pool and of the extra transactions was looked at. */
  datatype Trace = Trace(placed: seq<Option<Tx>>, ids: map<nat, nat>, pooled: seq<Option<Tx>>, taken: seq<bool>, count: nat, poolSeen: nat,
                         extraSeen: nat, takenAll: seq<bool>)

  ghost predicate LedBy(m: Message, placed: seq<Option<Tx>>, ids: map<nat, nat>) {
    && Placed(m, Positions(m.prefilled), |m.prefilled|, placed)
    && |Free(placed, 0)| == |m.shortIds| && ids.Keys == Elems(m.shortIds)
    && forall k | 0 <= k < |m.shortIds| :: ids[m.shortIds[k]] == Targets(placed)[k]
  }

  /** The slots a message leads to with the receiver's own transactions, and their count. */
  ghost predicate Received(m: Message, sid: nat -> nat, wtxid: Tx -> nat, pool: seq<Known>, extra: seq<Known>, t: Trace, slots: seq<Option<Tx>>,
                           count: nat) {
    && LedBy(m, t.placed, t.ids)
    && Gathering(t.ids, t.placed, t.pooled, t.taken, t.count) && Pooled(sid, t.ids, t.placed, pool, t.poolSeen, t.pooled, t.taken)
    && (t.poolSeen == |pool| || t.count == |t.ids|) && (pool != [] ==> t.poolSeen > 0)
    && Gathering(t.ids, t.placed, slots, t.takenAll, count)
    && Topped(sid, wtxid, t.ids, t.pooled, t.taken, extra, t.extraSeen, slots, t.takenAll)
    && (t.extraSeen == |extra| || count == |t.ids|)
  }

  class PartiallyDownloadedBlock {
    var headerNull: bool
    var txnAvailable: seq<Option<Tx>>
    var prefilledCount: nat
    var mempoolCount: nat

    constructor ()
      ensures headerNull && txnAvailable == [] && prefilledCount == 0 && mempoolCount == 0
    {
      headerNull, txnAvailable, prefilledCount, mempoolCount := true, [], 0, 0;
    }

    /** InitData on a fresh object.  A hash table with an overfull bucket fails too, wherever the table happens to put
        its keys; crowded says so.  With all of the first 65536 positions prefilled and a short id besides it does not
        return. */
    method InitData(m: Message, sid: nat -> nat, wtxid: Tx -> nat, pool: seq<Known>, extra: seq<Known>, crowded: bool)
      returns (status: Status, ghost trace: Trace)
      requires headerNull && txnAvailable == [] && prefilledCount == 0 && mempoolCount == 0
      modifies this
      ensures status.Invalid? <==>
              m.headerNull || m.Count() == 0 || m.Count() > MAX_COUNT || !Placeable(m, Positions(m.prefilled), |m.prefilled|)
      ensures !status.Invalid? ==> (status.Stuck? <==> m.shortIds != [] && |m.prefilled| > MAX_INDEX)
      ensures !status.Invalid? && !status.Stuck? ==> (status.Failed? <==> crowded || !Distinct(m.shortIds))
      ensures status.OK? ==> !headerNull && prefilledCount == |m.prefilled|
      ensures status.OK? ==> Received(m, sid, wtxid, pool, extra, trace, txnAvailable, mempoolCount)
    {
      trace := Trace([], map[], [], [], 0, 0, 0, []);
      if m.headerNull || m.Count() == 0 || m.Count() > MAX_COUNT {
        status := Invalid;
        return;
      }
      headerNull := false;
      var r := PlacePrefilled(m);
      if r.None? {
        status := Invalid;
        return;
      }
      txnAvailable, prefilledCount := r.value, |m.prefilled|;
      PlacedCount(m, r.value);
      PlacedLow(m, r.value);
      var t := MapShortIds(m.shortIds, r.value);
      if t.NeverDone? {
        status := Stuck;
        return;
      }
      if crowded || t.Collision? {
        status := Failed;
        return;
      }
      LeadInside(m.shortIds, r.value, t.ids);
      status, trace := Gather(m, sid, wtxid, pool, extra, t.ids);
    }

    /** The two scans over the receiver's own transactions. */
    method Gather(m: Message, sid: nat -> nat, wtxid: Tx -> nat, pool: seq<Known>, extra: seq<Known>, ids: map<nat, nat>)
      returns (status: Status, ghost trace: Trace)
      requires !headerNull && LedBy(m, txnAvailable, ids) && forall id | id in ids :: ids[id] < |txnAvailable|
      modifies `txnAvailable, `mempoolCount
      ensures status == OK && Received(m, sid, wtxid, pool, extra, trace, txnAvailable, mempoolCount)
    {
      ghost var placed := txnAvailable;
      var slots, taken, count;
      ghost var poolSeen, takenAll, extraSeen;
      slots, taken, count, poolSeen := GatherPool(sid, pool, ids, txnAvailable);
      txnAvailable, mempoolCount, takenAll, extraSeen := GatherExtra(sid, wtxid, extra, ids, placed, slots, taken, count);
      trace := Trace(placed, ids, slots, taken, count, poolSeen, extraSeen, takenAll);
      status := OK;
    }

    predicate IsTxAvailable(index: nat)
      reads this
      requires !headerNull && index < |txnAvailable|
    {
      txnAvailable[index].Some?
    }

    /** The positions to ask for, kept in 16 bits. */
    method MissingIndexes() returns (indexes: seq<nat>)
      requires !headerNull
      ensures indexes == Cut(Free(txnAvailable, 0))
    {
      indexes := [];
      for i := 0 to |txnAvailable|
        invariant indexes + Cut(Free(txnAvailable, i)) == Cut(Free(txnAvailable, 0))
      {
        if !IsTxAvailable(i) {
          indexes := indexes + [Low16(i)];
        }
      }
    }

    /** FillBlock, up to checking the block: it succeeds exactly when as many transactions are supplied as are missing,
        and then the block is the slots completed with them in order. */
    method FillBlock(missing: seq<Tx>) returns (status: Status, vtx: seq<Tx>)
      requires !headerNull
      modifies this
      ensures status.OK? || status.Invalid?
      ensures status.OK? <==> |missing| == old(|Free(txnAvailable, 0)|)
      ensures status.OK? ==> vtx == old(Completed(txnAvailable, missing, 0)) && headerNull && txnAvailable == []
      ensures |missing| < old(|Free(txnAvailable, 0)|) ==> !headerNull
      ensures |missing| >= old(|Free(txnAvailable, 0)|) ==> headerNull && txnAvailable == []
    {
      ghost var slots := txnAvailable;
      var offset := 0;
      vtx := [];
      var i := 0;
      while i < |txnAvailable|
        invariant 0 <= i <= |slots| == |txnAvailable| && !headerNull && 0 <= offset <= |missing|
        invariant forall k | i <= k < |slots| :: txnAvailable[k] == slots[k]
        invariant offset + |Free(slots, i)| == |Free(slots, 0)|
        invariant |missing| == |Free(slots, 0)| ==> vtx + Completed(slots, missing[offset..], i) == Completed(slots, missing, 0)
        decreases |slots| - i
      {
        if txnAvailable[i].None? {
          if |missing| <= offset {
            status := Invalid;
            return;
          }
          vtx := vtx + [missing[offset]];
          assert missing[offset..][1..] == missing[offset + 1..];
          offset := offset + 1;
        } else {
          vtx := vtx + [txnAvailable[i].value];
          txnAvailable := txnAvailable[i := None];
        }
        i := i + 1;
      }
      headerNull, txnAvailable := true, [];
      status := if |missing| != offset then Invalid else OK;
    }
  }

  /** Numbers cut to 16 bits. */
  function Cut(s: seq<nat>): (r: seq<nat>)
    ensures |r| == |s| && forall i | 0 <= i < |s| :: r[i] == Low16(s[i])
  {
    if s == [] then [] else [Low16(s[0])] + Cut(s[1..])
  }

  lemma LeadInside(shortIds: seq<nat>, slots: seq<Option<Tx>>, ids: map<nat, nat>)
    requires |Free(slots, 0)| == |shortIds| && ids.Keys == Elems(shortIds)
    requires forall k | 0 <= k < |shortIds| :: ids[shortIds[k]] == Targets(slots)[k]
    ensures forall id | id in ids :: ids[id] < |slots|
  {
    FreeIs(slots, 0);
    forall id | id in ids ensures ids[id] < |slots| {
      var k :| 0 <= k < |shortIds| && shortIds[k] == id;
      assert Targets(slots)[k] <= Free(slots, 0)[k] < |slots|;
    }
  }

  /** In a block of at most 65536 transactions every position has its 16 bits. */
  lemma TargetsShort(slots: seq<Option<Tx>>)
    requires |slots| <= MAX_INDEX + 1
    ensures Targets(slots) == Free(slots, 0)
  {
    var free := Free(slots, 0);
    FreeIs(slots, 0);
    assert forall k | 0 <= k < |free| :: free[k] < |slots|;
  }

  lemma LeadToFree(shortIds: seq<nat>, slots: seq<Option<Tx>>, ids: map<nat, nat>)
    requires |Free(slots, 0)| == |shortIds| && ids.Keys == Elems(shortIds) && |slots| <= MAX_INDEX + 1
    requires forall k | 0 <= k < |shortIds| :: ids[shortIds[k]] == Targets(slots)[k]
    ensures forall id | id in ids :: ids[id] < |slots| && slots[ids[id]].None?
  {
    FreeIs(slots, 0);
    TargetsShort(slots);
    forall id | id in ids ensures ids[id] < |slots| && slots[ids[id]].None? {
      var k :| 0 <= k < |shortIds| && shortIds[k] == id;
      assert Free(slots, 0)[k] < |slots|;
    }
  }

  lemma DescribedGenuine(m: Message, sid: nat -> nat, hash: Tx -> nat, block: seq<Tx>, slots: seq<Option<Tx>>)
    requires Describes(m, sid, hash, block) && Placed(m, Positions(m.prefilled), |m.prefilled|, slots)
    ensures Genuine(slots, block)
  {
    var pos := Positions(m.prefilled);
    forall p | 0 <= p < |slots| && slots[p].Some? ensures slots[p].value == block[p] {
      assert p in pos[..|m.prefilled|];
      var i :| 0 <= i < |pos| && pos[i] == p;
      assert slots[pos[i]] == m.prefilled[i].tx;
    }
  }

  /** In a block of at most 65536 transactions the prefilled ones stay, and the count is of the slots filled since. */
  lemma ReceivedCount(m: Message, sid: nat -> nat, wtxid: Tx -> nat, pool: seq<Known>, extra: seq<Known>, t: Trace, slots: seq<Option<Tx>>, count: nat)
    requires Received(m, sid, wtxid, pool, extra, t, slots, count) && m.Count() <= MAX_INDEX + 1
    ensures |slots| == |t.placed| && count == Filled(slots, 0) - Filled(t.placed, 0)
    ensures forall p | 0 <= p < |t.placed| && t.placed[p].Some? :: slots[p] == t.placed[p]
  {
    LeadToFree(m.shortIds, t.placed, t.ids);
    GatheredCount(t.ids, t.placed, slots, t.takenAll, count);
  }

  /** With a true message and no false match only genuine transactions are in the slots. */
  lemma ReceivedGenuine(m: Message, sid: nat -> nat, hash: Tx -> nat, wtxid: Tx -> nat, pool: seq<Known>, extra: seq<Known>, t: Trace,
                        slots: seq<Option<Tx>>, count: nat, block: seq<Tx>)
    requires Received(m, sid, wtxid, pool, extra, t, slots, count) && Describes(m, sid, hash, block)
    requires NoFalseMatch(sid, pool, t.ids, block) && NoFalseMatch(sid, extra, t.ids, block)
    ensures Genuine(slots, block)
  {
    DescribedGenuine(m, sid, hash, block, t.placed);
    GatheredGenuine(sid, wtxid, t.ids, t.placed, pool, t.poolSeen, t.pooled, t.taken, extra, t.extraSeen, slots, t.takenAll, block);
  }

  lemma NoFalse(m: Message, sid: nat -> nat, hash: Tx -> nat, block: seq<Tx>, known: seq<Known>, placed: seq<Option<Tx>>, ids: map<nat, nat>)
    requires Announces(m, sid, hash, block) && LedBy(m, placed, ids)
    requires |block| <= MAX_INDEX + 1
    requires forall i, j | 0 <= i < |known| && 1 <= j < |block| && sid(known[i].0) == sid(hash(block[j])) :: known[i].1 == block[j]
    ensures NoFalseMatch(sid, known, ids, block)
  {
    AnnouncedPositions(m, sid, hash, block);
    OthersAreFree(m, [0], placed, 0);
    TargetsShort(placed);
    forall i | 0 <= i < |known| && sid(known[i].0) in ids
      ensures ids[sid(known[i].0)] < |block| && known[i].1 == block[ids[sid(known[i].0)]] {
      var k :| 0 <= k < |m.shortIds| && m.shortIds[k] == sid(known[i].0);
      assert sid(known[i].0) == sid(hash(block[k + 1])) && ids[m.shortIds[k]] == k + 1;
    }
  }
}
