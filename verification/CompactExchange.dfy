/**
 Compact blocks from one node to another and back: announcement, request, answer, and the block put together.
 */
module CompactExchange {
  import opened Counting
  import opened Wrappers
  import opened CompactBlocks
  import opened CompactGather
  import opened CompactRelay
  import opened CompactRequest

  /** The answer to a request, or nothing for a position outside the block. */
  method Answer(block: seq<Tx>, indexes: seq<nat>) returns (r: Option<seq<Tx>>)
    ensures r.Some? <==> forall i | 0 <= i < |indexes| :: indexes[i] < |block|
    ensures r.Some? ==> |r.value| == |indexes| && forall i | 0 <= i < |indexes| :: r.value[i] == block[indexes[i]]
  {
    var txs := [];
    for i := 0 to |indexes|
      invariant |txs| == i && forall j | 0 <= j < i :: indexes[j] < |block| && txs[j] == block[indexes[j]]
    {
      if indexes[i] >= |block| {
        return None;
      }
      txs := txs + [block[indexes[i]]];
    }
    r := Some(txs);
  }

  /** The request as it arrives; nothing if it cannot be read. */
  method Ask(partial: PartiallyDownloadedBlock) returns (request: Option<seq<nat>>)
    requires !partial.headerNull
    ensures request == if Increasing(Cut(Free(partial.txnAvailable, 0))) then Some(Cut(Free(partial.txnAvailable, 0))) else None
  {
    var indexes := partial.MissingIndexes();
    var numbers := WriteIndexes(indexes);
    request := ReadIndexes(numbers);
    if request.Some? {
      Readable(indexes, request.value);
    } else {
      Readable(indexes, indexes);
    }
  }

  lemma {:induction false} SamePick(block: seq<Tx>, positions: seq<nat>, txs: seq<Tx>)
    requires |txs| == |positions| && forall i | 0 <= i < |txs| :: positions[i] < |block| && txs[i] == block[positions[i]]
    ensures txs == Pick(block, positions)
  {
    if positions != [] {
      SamePick(block, positions[1..], txs[1..]);
      assert txs == [txs[0]] + txs[1..];
    }
  }

  /** The request, the answer, and the block filled up; nothing if the request cannot be read or answered. */
  method Complete(partial: PartiallyDownloadedBlock, block: seq<Tx>) returns (vtx: Option<seq<Tx>>)
    requires !partial.headerNull
    modifies partial
    ensures var request := Cut(old(Free(partial.txnAvailable, 0)));
            if Increasing(request) && forall i | 0 <= i < |request| :: request[i] < |block|
            then vtx == Some(Completed(old(partial.txnAvailable), Pick(block, request), 0))
            else vtx == None
  {
    var request := Ask(partial);
    if request.None? {
      return None;
    }
    var answer := Answer(block, request.value);
    if answer.None? {
      return None;
    }
    SamePick(block, request.value, answer.value);
    var status, txs := partial.FillBlock(answer.value);
    vtx := Some(txs);
  }

  // ------------------------------------------------------------ up to 65536 transactions

  lemma {:induction false} CutSame(s: seq<nat>)
    requires forall i | 0 <= i < |s| :: s[i] <= MAX_INDEX
    ensures Cut(s) == s
  {
  }

  /** Genuine slots of a block of at most 65536 transactions lead to the block. */
  lemma ShortExchange(slots: seq<Option<Tx>>, block: seq<Tx>)
    requires Genuine(slots, block) && |block| <= MAX_INDEX + 1
    ensures var request := Cut(Free(slots, 0));
            Increasing(request) && (forall i | 0 <= i < |request| :: request[i] < |block|) && Completed(slots, Pick(block, request), 0) == block
  {
    FreeIs(slots, 0);
    CutSame(Free(slots, 0));
    Rebuilt(slots, block, 0);
  }

  /** From one node to another and back: with no false matches, the receiver rebuilds exactly the sender's block from the
      message, its own transactions and the answer to its request, unless a bucket of its hash table is overfull. */
  method SendBlock(block: seq<Tx>, sid: nat -> nat, hash: Tx -> nat, wtxid: Tx -> nat, pool: seq<Known>, extra: seq<Known>, crowded: bool)
    returns (status: Status, vtx: Option<seq<Tx>>)
    requires 0 < |block| <= MAX_INDEX + 1
    requires forall i, j | 0 <= i < |pool| && 1 <= j < |block| && sid(pool[i].0) == sid(hash(block[j])) :: pool[i].1 == block[j]
    requires forall i, j | 0 <= i < |extra| && 1 <= j < |block| && sid(extra[i].0) == sid(hash(block[j])) :: extra[i].1 == block[j]
    ensures status.OK? || status.Failed?
    ensures status.Failed? <==> crowded || exists i, j | 1 <= i < j < |block| :: sid(hash(block[i])) == sid(hash(block[j]))
    ensures vtx == if status.OK? then Some(block) else None
  {
    var m := Announce(block, sid, hash);
    AnnouncementDescribes(m, sid, hash, block);
    AnnouncedPositions(m, sid, hash, block);
    SameShortIds(m, sid, hash, block);
    var partial := new PartiallyDownloadedBlock();
    ghost var trace;
    status, trace := partial.InitData(m, sid, wtxid, pool, extra, crowded);
    if !status.OK? {
      return status, None;
    }
    NoFalse(m, sid, hash, block, pool, trace.placed, trace.ids);
    NoFalse(m, sid, hash, block, extra, trace.placed, trace.ids);
    ReceivedGenuine(m, sid, hash, wtxid, pool, extra, trace, partial.txnAvailable, partial.mempoolCount, block);
    ShortExchange(partial.txnAvailable, block);
    vtx := Complete(partial, block);
  }

  lemma SameShortIds(m: Message, sid: nat -> nat, hash: Tx -> nat, block: seq<Tx>)
    requires Announces(m, sid, hash, block)
    ensures !Distinct(m.shortIds) <==> exists i, j | 1 <= i < j < |block| :: sid(hash(block[i])) == sid(hash(block[j]))
  {
    if !Distinct(m.shortIds) {
      var i, j :| 0 <= i < j < |m.shortIds| && m.shortIds[i] == m.shortIds[j];
      assert sid(hash(block[i + 1])) == sid(hash(block[j + 1]));
    }
    if i, j :| 1 <= i < j < |block| && sid(hash(block[i])) == sid(hash(block[j])) {
      assert m.shortIds[i - 1] == m.shortIds[j - 1];
    }
  }

  // --------------------------------------------------------- more than 65536 transactions

  const LIMIT: nat := MAX_INDEX + 1

  /** Where the short ids of an honest announcement lead: to their positions, cut to 16 bits. */
  lemma LongIds(m: Message, sid: nat -> nat, hash: Tx -> nat, block: seq<Tx>, placed: seq<Option<Tx>>, ids: map<nat, nat>)
    requires Announces(m, sid, hash, block) && LedBy(m, placed, ids)
    ensures |placed| == |block| && placed[0] == Some(block[0]) && forall p | 0 < p < |placed| :: placed[p].None?
    ensures forall j | 1 <= j < |block| :: sid(hash(block[j])) in ids && ids[sid(hash(block[j]))] == Low16(j)
    ensures forall id | id in ids :: ids[id] <= MAX_INDEX
  {
    AnnouncedPositions(m, sid, hash, block);
    OthersAreFree(m, [0], placed, 0);
    assert placed[[0][0]] == m.prefilled[0].tx;
    forall p | 0 < p < |placed| ensures placed[p].None? {
      assert [0][..1] == [0];
    }
    forall j | 1 <= j < |block| ensures sid(hash(block[j])) in ids && ids[sid(hash(block[j]))] == Low16(j) {
      assert m.shortIds[j - 1] == sid(hash(block[j])) && m.shortIds[j - 1] in Elems(m.shortIds) && Free(placed, 0)[j - 1] == j;
    }
    forall id | id in ids ensures ids[id] <= MAX_INDEX {
      var k :| 0 <= k < |m.shortIds| && m.shortIds[k] == id;
      assert Targets(placed)[k] <= MAX_INDEX;
    }
  }

  /** The short id of transaction 65536 leads to the place of the coinbase. */
  lemma LongBlock(m: Message, sid: nat -> nat, hash: Tx -> nat, block: seq<Tx>, placed: seq<Option<Tx>>, ids: map<nat, nat>)
    requires Announces(m, sid, hash, block) && LedBy(m, placed, ids) && |block| > LIMIT
    ensures var id := sid(hash(block[LIMIT])); id in ids && ids[id] == 0 && placed[0] == Some(block[0])
  {
    LongIds(m, sid, hash, block, placed, ids);
  }

  /** Whatever the receiver knows, nothing is put into the slots beyond. */
  lemma NothingBeyond(m: Message, sid: nat -> nat, hash: Tx -> nat, wtxid: Tx -> nat, pool: seq<Known>, extra: seq<Known>, t: Trace,
                      slots: seq<Option<Tx>>, count: nat, block: seq<Tx>)
    requires Announces(m, sid, hash, block) && Received(m, sid, wtxid, pool, extra, t, slots, count)
    ensures |slots| == |block| && (|block| > LIMIT ==> HighFree(slots))
  {
    LongIds(m, sid, hash, block, t.placed, t.ids);
  }

  lemma {:induction false} AllFree(slots: seq<Option<Tx>>, from: nat)
    requires from <= |slots| && forall p | from <= p < |slots| :: slots[p].None?
    ensures |Free(slots, from)| == |slots| - from && forall k | 0 <= k < |slots| - from :: Free(slots, from)[k] == from + k
    decreases |slots| - from
  {
    if from < |slots| {
      AllFree(slots, from + 1);
    }
  }

  lemma {:induction false} NoneFree(slots: seq<Option<Tx>>, from: nat, to: nat)
    requires from <= to <= |slots| && forall p | from <= p < to :: slots[p].Some?
    ensures Free(slots, from) == Free(slots, to)
    decreases |slots| - from
  {
    if from < to {
      NoneFree(slots, from + 1, to);
    }
  }

  /** Of the slots, just those beyond position 65535 are free. */
  ghost predicate LowFilled(slots: seq<Option<Tx>>) { |slots| > LIMIT && forall p | 0 <= p < LIMIT :: slots[p].Some? }

  ghost predicate HighFree(slots: seq<Option<Tx>>) { |slots| > LIMIT && forall p | LIMIT <= p < |slots| :: slots[p].None? }

  /** The first positions. */
  function Firsts(n: nat): (r: seq<nat>)
    ensures |r| == n && forall i | 0 <= i < n :: r[i] == i
  {
    seq(n, i => i)
  }

  lemma JustHigh(slots: seq<Option<Tx>>)
    requires LowFilled(slots) && HighFree(slots)
    ensures |Free(slots, 0)| == |slots| - LIMIT && forall k | 0 <= k < |slots| - LIMIT :: Free(slots, 0)[k] == LIMIT + k
  {
    NoneFree(slots, 0, LIMIT);
    AllFree(slots, LIMIT);
  }

  lemma CutHigh(slots: seq<Option<Tx>>)
    requires LowFilled(slots) && HighFree(slots) && |slots| <= 2 * LIMIT
    ensures Cut(Free(slots, 0)) == Firsts(|slots| - LIMIT) && Increasing(Cut(Free(slots, 0)))
  {
    JustHigh(slots);
    CutFirsts(Free(slots, 0));
  }

  lemma {:induction false} CutFirsts(free: seq<nat>)
    requires |free| <= LIMIT && forall k | 0 <= k < |free| :: free[k] == LIMIT + k
    ensures Cut(free) == Firsts(|free|) && Increasing(Cut(free))
  {
    forall k | 0 <= k < |free| ensures Cut(free)[k] == k {
      CutOnce(k);
    }
  }

  lemma CutOnce(k: nat)
    requires k < LIMIT
    ensures Low16(LIMIT + k) == k
  {
  }

  /** A request that reaches beyond position 65535 can be read exactly when it asks for nothing else, and not for more than
      there are positions. */
  lemma LongRequest(slots: seq<Option<Tx>>)
    requires HighFree(slots)
    ensures Increasing(Cut(Free(slots, 0))) <==> |slots| <= 2 * LIMIT && LowFilled(slots)
    ensures |slots| <= 2 * LIMIT && LowFilled(slots) ==> Cut(Free(slots, 0)) == Firsts(|slots| - LIMIT)
  {
    if |slots| <= 2 * LIMIT && LowFilled(slots) {
      CutHigh(slots);
    } else {
      TooMuch(slots);
    }
  }

  lemma TooMuch(slots: seq<Option<Tx>>)
    requires HighFree(slots) && !(|slots| <= 2 * LIMIT && LowFilled(slots))
    ensures !Increasing(Cut(Free(slots, 0)))
  {
    if LowFilled(slots) {
      CutLimits();
      NotIncreasing(slots, LIMIT, 2 * LIMIT);
    } else {
      var p :| 0 <= p < LIMIT && slots[p].None?;
      CutLimits();
      NotIncreasing(slots, p, LIMIT);
    }
  }

  lemma CutLimits()
    ensures Low16(LIMIT) == 0 && Low16(2 * LIMIT) == 0
  {
  }

  lemma NotIncreasing(slots: seq<Option<Tx>>, p: nat, q: nat)
    requires p < q < |slots| && slots[p].None? && slots[q].None? && Low16(p) >= Low16(q)
    ensures !Increasing(Cut(Free(slots, 0)))
  {
    FreeIs(slots, 0);
    var free := Free(slots, 0);
    var i :| 0 <= i < |free| && free[i] == p;
    var j :| 0 <= j < |free| && free[j] == q;
    assert i < j && Cut(free)[i] >= Cut(free)[j];
  }

  /** The block at the end: the lower slots, and the first transactions once more. */
  ghost predicate Repeated(slots: seq<Option<Tx>>, block: seq<Tx>, vtx: seq<Tx>) {
    && |vtx| == |slots| == |block| > LIMIT
    && (forall p | 0 <= p < LIMIT :: slots[p] == Some(vtx[p]))
    && forall p | LIMIT <= p < |block| :: vtx[p] == block[p - LIMIT]
  }

  /** What is asked for are the first transactions, which go to the end. */
  lemma LongAnswer(slots: seq<Option<Tx>>, block: seq<Tx>)
    requires LowFilled(slots) && HighFree(slots) && |slots| == |block|
    ensures |Free(slots, 0)| == |slots| - LIMIT && Repeated(slots, block, Completed(slots, Pick(block, Firsts(|slots| - LIMIT)), 0))
  {
    var vtx := seq(|block|, p requires 0 <= p < |block| => if p < LIMIT then slots[p].value else block[p - LIMIT]);
    JustHigh(slots);
    Rebuilt(slots, vtx, 0);
    SamePick(vtx, Free(slots, 0), Pick(block, Firsts(|slots| - LIMIT)));
    assert vtx[0..] == vtx;
  }

  /** So for a block of more than 65536 transactions, whatever the receiver knows: the exchange comes to an end exactly when
      there are at most 131072 and every lower slot was filled, and the block it ends with repeats the first transactions
      behind position 65535.  It is not the sender's unless these were the same. */
  method SendLongBlock(block: seq<Tx>, sid: nat -> nat, hash: Tx -> nat, wtxid: Tx -> nat, pool: seq<Known>, extra: seq<Known>, crowded: bool)
    returns (status: Status, vtx: Option<seq<Tx>>, ghost m: Message, ghost trace: Trace, ghost slots: seq<Option<Tx>>, ghost count: nat)
    requires |block| > LIMIT
    ensures Announces(m, sid, hash, block)
    ensures status.OK? <==> |block| <= MAX_COUNT && !crowded && Distinct(m.shortIds)
    ensures status.OK? ==> Received(m, sid, wtxid, pool, extra, trace, slots, count)
    ensures vtx.Some? <==> status.OK? && |block| <= 2 * LIMIT && LowFilled(slots)
    ensures vtx.Some? ==> Repeated(slots, block, vtx.value)
    ensures vtx == Some(block) ==> block[LIMIT] == block[0]
  {
    var message := Announce(block, sid, hash);
    m := message;
    AnnouncedPositions(m, sid, hash, block);
    var partial := new PartiallyDownloadedBlock();
    status, trace := partial.InitData(message, sid, wtxid, pool, extra, crowded);
    slots, count := partial.txnAvailable, partial.mempoolCount;
    if !status.OK? {
      return status, None, m, trace, slots, count;
    }
    NothingBeyond(m, sid, hash, wtxid, pool, extra, trace, slots, count, block);
    vtx := CompleteLong(partial, block);
  }

  method CompleteLong(partial: PartiallyDownloadedBlock, block: seq<Tx>) returns (vtx: Option<seq<Tx>>)
    requires !partial.headerNull && HighFree(partial.txnAvailable) && |partial.txnAvailable| == |block|
    modifies partial
    ensures vtx.Some? <==> |block| <= 2 * LIMIT && LowFilled(old(partial.txnAvailable))
    ensures vtx.Some? ==> Repeated(old(partial.txnAvailable), block, vtx.value)
  {
    ghost var slots := partial.txnAvailable;
    LongRequest(slots);
    if LowFilled(slots) {
      LongAnswer(slots, block);
    }
    vtx := Complete(partial, block);
  }

  // ------------------------------------------------------------------ a full pool

  /** Everything behind the coinbase, each transaction once. */
  ghost predicate FullPool(pool: seq<Known>, hash: Tx -> nat, block: seq<Tx>) {
    |pool| == |block| - 1 && forall i | 0 <= i < |pool| :: pool[i] == (hash(block[i + 1]), block[i + 1])
  }

  /** Where the transaction for a slot stands in the pool. */
  function Source(p: nat): nat { if p == 0 then MAX_INDEX else p - 1 }

  /** With 65537 transactions every lower slot has one match, and the first one that of the last transaction. */
  lemma {:induction false} FullMatching(sid: nat -> nat, ids: map<nat, nat>, pool: seq<Known>, hash: Tx -> nat, block: seq<Tx>, k: nat, p: nat)
    requires |block| == LIMIT + 1 && FullPool(pool, hash, block) && k <= |pool| && p < LIMIT
    requires forall j | 1 <= j < |block| :: sid(hash(block[j])) in ids && ids[sid(hash(block[j]))] == Low16(j)
    ensures Matching(sid, ids, pool, k, p) == if Source(p) < k then [block[Source(p) + 1]] else []
  {
    if k > 0 {
      FullMatching(sid, ids, pool, hash, block, k - 1, p);
      assert pool[k - 1] == (hash(block[k]), block[k]);
      assert Low16(k) == p <==> Source(p) == k - 1;
    }
  }

  /** The scan of such a pool goes to its end. */
  lemma FullScan(m: Message, sid: nat -> nat, hash: Tx -> nat, wtxid: Tx -> nat, pool: seq<Known>, t: Trace, slots: seq<Option<Tx>>, count: nat,
                 block: seq<Tx>)
    requires |block| == LIMIT + 1 && Announces(m, sid, hash, block) && FullPool(pool, hash, block) && Distinct(m.shortIds)
    requires Received(m, sid, wtxid, pool, [], t, slots, count)
    ensures t.poolSeen == |pool|
  {
    LongIds(m, sid, hash, block, t.placed, t.ids);
    if t.poolSeen < |pool| {
      ElemsDistinct(m.shortIds);
      assert |t.ids| == |t.ids.Keys| == LIMIT;
      var own := Own(t.pooled, t.taken);
      FilledLow(own, 0);
      assert own[0].Some?;
      FullMatching(sid, t.ids, pool, hash, block, t.poolSeen, 0);
    }
  }

  /** The real exchange for 65537 transactions and a full pool: it goes through, with the first and the last one exchanged. */
  method SendToFullPool(block: seq<Tx>, sid: nat -> nat, hash: Tx -> nat, wtxid: Tx -> nat, pool: seq<Known>) returns (vtx: seq<Tx>)
    requires |block| == LIMIT + 1 && FullPool(pool, hash, block)
    requires forall i, j | 1 <= i < j < |block| :: sid(hash(block[i])) != sid(hash(block[j]))
    ensures vtx == block[0 := block[LIMIT]][LIMIT := block[0]]
  {
    var status, r;
    ghost var m, trace, slots, count;
    status, r, m, trace, slots, count := SendLongBlock(block, sid, hash, wtxid, pool, [], false);
    SameShortIds(m, sid, hash, block);
    FullSlots(m, sid, hash, wtxid, pool, trace, slots, count, block);
    vtx := r.value;
  }

  lemma FullSlots(m: Message, sid: nat -> nat, hash: Tx -> nat, wtxid: Tx -> nat, pool: seq<Known>, t: Trace, slots: seq<Option<Tx>>, count: nat,
                  block: seq<Tx>)
    requires |block| == LIMIT + 1 && Announces(m, sid, hash, block) && FullPool(pool, hash, block) && Distinct(m.shortIds)
    requires Received(m, sid, wtxid, pool, [], t, slots, count)
    ensures |slots| == |block| && forall p | 0 <= p < LIMIT :: slots[p] == Some(if p == 0 then block[LIMIT] else block[p])
  {
    LongIds(m, sid, hash, block, t.placed, t.ids);
    FullScan(m, sid, hash, wtxid, pool, t, slots, count, block);
    forall p | 0 <= p < LIMIT ensures slots[p] == Some(if p == 0 then block[LIMIT] else block[p]) {
      FullMatching(sid, t.ids, pool, hash, block, |pool|, p);
      OneMatch(sid, wtxid, pool, t, slots, p, block[Source(p) + 1]);
    }
  }

  lemma OneMatch(sid: nat -> nat, wtxid: Tx -> nat, pool: seq<Known>, t: Trace, slots: seq<Option<Tx>>, p: nat, x: Tx)
    requires Pooled(sid, t.ids, t.placed, pool, |pool|, t.pooled, t.taken) && p < |t.placed| && Matching(sid, t.ids, pool, |pool|, p) == [x]
    requires Topped(sid, wtxid, t.ids, t.pooled, t.taken, [], t.extraSeen, slots, t.takenAll)
    ensures slots[p] == Some(x)
  {
    assert Matching(sid, t.ids, [], t.extraSeen, p) == [];
  }
}
