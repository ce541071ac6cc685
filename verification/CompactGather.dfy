/**
 Filling the slots of a compact block from the receiver's own transactions: first the memory pool, then the extra ones.
 */
module CompactGather {
  import opened Wrappers
  import opened CompactBlocks

  /** A transaction known by its hash. */
  type Known = (nat, Tx)

  /** Every known transaction whose short id is asked for is the one asked for. */
  ghost predicate NoFalseMatch(sid: nat -> nat, known: seq<Known>, ids: map<nat, nat>, block: seq<Tx>) {
    forall i | 0 <= i < |known| && sid(known[i].0) in ids ::
      ids[sid(known[i].0)] < |block| && known[i].1 == block[ids[sid(known[i].0)]]
  }

  /** What is in the slots belongs there. */
  ghost predicate Genuine(slots: seq<Option<Tx>>, block: seq<Tx>) {
    |slots| == |block| && forall p | 0 <= p < |slots| && slots[p].Some? :: slots[p].value == block[p]
  }

  /** The slots that own transactions have been put in, as they are now. */
  function Own(slots: seq<Option<Tx>>, taken: seq<bool>): (r: seq<Option<Tx>>)
    requires |slots| == |taken|
    ensures |r| == |slots| && forall p | 0 <= p < |r| :: r[p] == if taken[p] then slots[p] else None
  {
    seq(|slots|, p requires 0 <= p < |slots| => if taken[p] then slots[p] else None)
  }

  /** The slots while own transactions are put in: only slots that ids lead to change, and those filled are counted. */
  ghost predicate Gathering(ids: map<nat, nat>, start: seq<Option<Tx>>, slots: seq<Option<Tx>>, taken: seq<bool>, count: nat) {
    && |slots| == |start| == |taken|
    && (forall id | id in ids :: ids[id] < |start|)
    && (forall p | 0 <= p < |start| :: if taken[p] then p in ids.Values else slots[p] == start[p])
    && count == Filled(Own(slots, taken), 0)
  }

  lemma GatheringStep(ids: map<nat, nat>, start: seq<Option<Tx>>, slots: seq<Option<Tx>>, taken: seq<bool>, count: nat, id: nat,
                      x: Option<Tx>)
    requires Gathering(ids, start, slots, taken, count) && id in ids
    ensures var p := ids[id];
            var change := (if x.Some? then 1 else 0) - if taken[p] && slots[p].Some? then 1 else 0;
            count + change >= 0 && Gathering(ids, start, slots[p := x], taken[p := true], count + change)
  {
    var p := ids[id];
    assert Own(slots[p := x], taken[p := true]) == Own(slots, taken)[p := x];
    FilledUpdate(Own(slots, taken), 0, p, x);
  }

  /** Where the ids lead to empty slots only, the prefilled ones stay and the count is of the slots filled since. */
  lemma GatheredCount(ids: map<nat, nat>, start: seq<Option<Tx>>, slots: seq<Option<Tx>>, taken: seq<bool>, count: nat)
    requires Gathering(ids, start, slots, taken, count)
    requires forall id | id in ids :: start[ids[id]].None?
    ensures forall p | 0 <= p < |start| && start[p].Some? :: slots[p] == start[p]
    ensures count == Filled(slots, 0) - Filled(start, 0)
  {
    OwnCount(start, slots, taken, 0);
  }

  lemma {:induction false} OwnCount(start: seq<Option<Tx>>, slots: seq<Option<Tx>>, taken: seq<bool>, from: nat)
    requires from <= |slots| == |start| == |taken|
    requires forall p | 0 <= p < |start| :: if taken[p] then start[p].None? else slots[p] == start[p]
    ensures Filled(Own(slots, taken), from) + Filled(start, from) == Filled(slots, from)
    decreases |slots| - from
  {
    if from < |slots| {
      OwnCount(start, slots, taken, from + 1);
    }
  }

  // -------------------------------------------------------- what ends up in a slot

  /** The known transactions, among the first k, whose short ids lead to a slot. */
  function Matching(sid: nat -> nat, ids: map<nat, nat>, known: seq<Known>, k: nat, p: nat): seq<Tx>
    requires k <= |known|
  {
    if k == 0 then []
    else Matching(sid, ids, known, k - 1, p) + if sid(known[k - 1].0) in ids && ids[sid(known[k - 1].0)] == p then [known[k - 1].1] else []
  }

  /** From the pool a single match is taken; two or more leave the slot empty. */
  function FromPool(before: Option<Tx>, found: seq<Tx>): Option<Tx> {
    if found == [] then before else if |found| == 1 then Some(found[0]) else None
  }

  /** A transaction stays unless another one is found that is not the same. */
  ghost function Kept(wtxid: Tx -> nat, tx: Tx, found: seq<Tx>): Option<Tx> {
    if exists x | x in found :: wtxid(x) != wtxid(tx) then None else Some(tx)
  }

  /** From the extra transactions: the first match fills a slot nothing was found for before, and different ones empty it. */
  ghost function FromExtra(wtxid: Tx -> nat, slot: Option<Tx>, taken: bool, found: seq<Tx>): Option<Tx> {
    if !taken then (if found == [] then slot else Kept(wtxid, found[0], found[1..]))
    else if slot.None? then None
    else Kept(wtxid, slot.value, found)
  }

  /** The slots after k transactions of the pool. */
  ghost predicate Pooled(sid: nat -> nat, ids: map<nat, nat>, start: seq<Option<Tx>>, pool: seq<Known>, k: nat, slots: seq<Option<Tx>>,
                         taken: seq<bool>) {
    && k <= |pool| && |slots| == |start| == |taken|
    && forall p | 0 <= p < |start| ::
         var found := Matching(sid, ids, pool, k, p);
         slots[p] == FromPool(start[p], found) && taken[p] == (found != [])
  }

  /** The slots after k extra transactions. */
  ghost predicate Topped(sid: nat -> nat, wtxid: Tx -> nat, ids: map<nat, nat>, slots0: seq<Option<Tx>>, taken0: seq<bool>, extra: seq<Known>, k: nat,
                         slots: seq<Option<Tx>>, taken: seq<bool>) {
    && k <= |extra| && |slots| == |slots0| == |taken| == |taken0|
    && forall p | 0 <= p < |slots| ::
         var found := Matching(sid, ids, extra, k, p);
         slots[p] == FromExtra(wtxid, slots0[p], taken0[p], found) && taken[p] == (taken0[p] || found != [])
  }

  /** The i-th known transaction has a short id that leads to a slot. */
  predicate Leads(sid: nat -> nat, ids: map<nat, nat>, known: seq<Known>, i: nat, p: nat)
    requires i < |known|
  {
    sid(known[i].0) in ids && ids[sid(known[i].0)] == p
  }

  /** What is found for a slot: nothing if none leads there, and exactly one transaction if that one alone does. */
  lemma {:induction false} MatchingExactly(sid: nat -> nat, ids: map<nat, nat>, known: seq<Known>, k: nat, p: nat)
    requires k <= |known|
    ensures Matching(sid, ids, known, k, p) == [] <==> forall i | 0 <= i < k :: !Leads(sid, ids, known, i, p)
    ensures forall i | 0 <= i < k && Leads(sid, ids, known, i, p) :: known[i].1 in Matching(sid, ids, known, k, p)
    ensures forall i | 0 <= i < k && Leads(sid, ids, known, i, p) ::
      (|Matching(sid, ids, known, k, p)| == 1 <==> forall j | 0 <= j < k && j != i :: !Leads(sid, ids, known, j, p))
  {
    if k > 0 {
      MatchingExactly(sid, ids, known, k - 1, p);
      assert Matching(sid, ids, known, k, p) ==
             Matching(sid, ids, known, k - 1, p) + if Leads(sid, ids, known, k - 1, p) then [known[k - 1].1] else [];
    }
  }

  /** What an empty slot holds in the end: the single transaction of the pool that leads there, or with none in the pool the
      first extra one, and in both cases only if every extra one that leads there is the same transaction. */
  lemma SlotExactly(sid: nat -> nat, wtxid: Tx -> nat, ids: map<nat, nat>, start: seq<Option<Tx>>, pool: seq<Known>, k: nat, mid: seq<Option<Tx>>,
                    taken: seq<bool>, extra: seq<Known>, n: nat, slots: seq<Option<Tx>>, taken': seq<bool>, p: nat, x: Tx)
    requires Pooled(sid, ids, start, pool, k, mid, taken) && Topped(sid, wtxid, ids, mid, taken, extra, n, slots, taken')
    requires p < |start| && start[p].None?
    ensures var inPool, inExtra := Matching(sid, ids, pool, k, p), Matching(sid, ids, extra, n, p);
      slots[p] == Some(x) <==>
      && (inPool == [x] || (inPool == [] && inExtra != [] && inExtra[0] == x))
      && forall y | y in inExtra :: wtxid(y) == wtxid(x)
  {
    var inPool, inExtra := Matching(sid, ids, pool, k, p), Matching(sid, ids, extra, n, p);
    assert inPool == [x] <==> |inPool| == 1 && inPool[0] == x;
    if inExtra != [] {
      assert inExtra == [inExtra[0]] + inExtra[1..];
    }
  }

  lemma PooledNot(sid: nat -> nat, ids: map<nat, nat>, start: seq<Option<Tx>>, pool: seq<Known>, k: nat, slots: seq<Option<Tx>>, taken: seq<bool>)
    requires Pooled(sid, ids, start, pool, k, slots, taken) && k < |pool| && sid(pool[k].0) !in ids
    ensures Pooled(sid, ids, start, pool, k + 1, slots, taken)
  {
  }

  lemma PooledOn(sid: nat -> nat, ids: map<nat, nat>, start: seq<Option<Tx>>, pool: seq<Known>, k: nat, slots: seq<Option<Tx>>, taken: seq<bool>)
    requires Pooled(sid, ids, start, pool, k, slots, taken) && k < |pool| && sid(pool[k].0) in ids && ids[sid(pool[k].0)] < |start|
    ensures var p := ids[sid(pool[k].0)];
            Pooled(sid, ids, start, pool, k + 1, slots[p := if taken[p] then None else Some(pool[k].1)], taken[p := true])
  {
  }

  lemma KeptOn(wtxid: Tx -> nat, tx: Tx, found: seq<Tx>, x: Tx)
    ensures Kept(wtxid, tx, found + [x]) == if wtxid(x) != wtxid(tx) then None else Kept(wtxid, tx, found)
  {
    assert x in found + [x];
    forall y | y in found ensures y in found + [x] {
    }
  }

  lemma FromExtraOn(wtxid: Tx -> nat, slot: Option<Tx>, taken: bool, found: seq<Tx>, x: Tx)
    ensures var now := FromExtra(wtxid, slot, taken, found);
            FromExtra(wtxid, slot, taken, found + [x]) ==
            if !taken && found == [] then Some(x) else if now.None? || wtxid(x) != wtxid(now.value) then None else now
  {
    if !taken && found != [] {
      assert (found + [x])[1..] == found[1..] + [x];
      KeptOn(wtxid, found[0], found[1..], x);
    } else if taken && slot.Some? {
      KeptOn(wtxid, slot.value, found, x);
    }
  }

  lemma ToppedOn(sid: nat -> nat, wtxid: Tx -> nat, ids: map<nat, nat>, slots0: seq<Option<Tx>>, taken0: seq<bool>, extra: seq<Known>, k: nat,
                 slots: seq<Option<Tx>>, taken: seq<bool>)
    requires Topped(sid, wtxid, ids, slots0, taken0, extra, k, slots, taken) && k < |extra|
    ensures var id, x := sid(extra[k].0), extra[k].1;
            if id !in ids then Topped(sid, wtxid, ids, slots0, taken0, extra, k + 1, slots, taken)
            else ids[id] < |slots| ==>
              var p := ids[id];
              var now := if !taken[p] then Some(x) else if slots[p].None? || wtxid(x) != wtxid(slots[p].value) then None else slots[p];
              Topped(sid, wtxid, ids, slots0, taken0, extra, k + 1, slots[p := now], taken[p := true])
  {
    var id := sid(extra[k].0);
    if id !in ids {
      forall q: nat ensures Matching(sid, ids, extra, k + 1, q) == Matching(sid, ids, extra, k, q) {
      }
    } else if ids[id] < |slots| {
      ToppedAt(sid, wtxid, ids, slots0, taken0, extra, k, slots, taken, ids[id]);
    }
  }

  lemma ToppedAt(sid: nat -> nat, wtxid: Tx -> nat, ids: map<nat, nat>, slots0: seq<Option<Tx>>, taken0: seq<bool>, extra: seq<Known>, k: nat,
                 slots: seq<Option<Tx>>, taken: seq<bool>, p: nat)
    requires Topped(sid, wtxid, ids, slots0, taken0, extra, k, slots, taken) && k < |extra| && Leads(sid, ids, extra, k, p) && p < |slots|
    ensures var x := extra[k].1;
            var now := if !taken[p] then Some(x) else if slots[p].None? || wtxid(x) != wtxid(slots[p].value) then None else slots[p];
            Topped(sid, wtxid, ids, slots0, taken0, extra, k + 1, slots[p := now], taken[p := true])
  {
    var found := Matching(sid, ids, extra, k, p);
    FromExtraOn(wtxid, slots0[p], taken0[p], found, extra[k].1);
    assert Matching(sid, ids, extra, k + 1, p) == found + [extra[k].1];
    forall q: nat | q != p ensures Matching(sid, ids, extra, k + 1, q) == Matching(sid, ids, extra, k, q) {
    }
  }

  /** The scan of the memory pool, cut short when every short id has its transaction. */
  method GatherPool(sid: nat -> nat, pool: seq<Known>, ids: map<nat, nat>, start: seq<Option<Tx>>)
    returns (slots: seq<Option<Tx>>, taken: seq<bool>, count: nat, ghost seen: nat)
    requires forall id | id in ids :: ids[id] < |start|
    ensures Gathering(ids, start, slots, taken, count) && Pooled(sid, ids, start, pool, seen, slots, taken)
    ensures (seen == |pool| || count == |ids|) && (pool != [] ==> seen > 0)
  {
    slots, taken, count := start, seq(|start|, _ => false), 0;
    FilledNone(Own(slots, taken), 0);
    for i := 0 to |pool|
      invariant Gathering(ids, start, slots, taken, count) && Pooled(sid, ids, start, pool, i, slots, taken)
    {
      slots, taken, count := PoolOne(sid, pool, i, ids, start, slots, taken, count);
      if count == |ids| {
        return slots, taken, count, i + 1;
      }
    }
    seen := |pool|;
  }

  /** A first match fills its slot, a second one empties it again. */
  method PoolOne(sid: nat -> nat, pool: seq<Known>, i: nat, ids: map<nat, nat>, ghost start: seq<Option<Tx>>, slots: seq<Option<Tx>>,
                 taken: seq<bool>, count: nat)
    returns (slots': seq<Option<Tx>>, taken': seq<bool>, count': nat)
    requires i < |pool| && Gathering(ids, start, slots, taken, count) && Pooled(sid, ids, start, pool, i, slots, taken)
    ensures Gathering(ids, start, slots', taken', count') && Pooled(sid, ids, start, pool, i + 1, slots', taken')
  {
    var id := sid(pool[i].0);
    slots', taken', count' := slots, taken, count;
    if id in ids {
      var p := ids[id];
      PooledOn(sid, ids, start, pool, i, slots, taken);
      GatheringStep(ids, start, slots, taken, count, id, if taken[p] then None else Some(pool[i].1));
      if !taken[p] {
        slots', taken', count' := slots[p := Some(pool[i].1)], taken[p := true], count + 1;
      } else {
        assert taken[p := true] == taken;
        if slots[p].Some? {
          slots', count' := slots[p := None], count - 1;
        } else {
          assert slots[p := None] == slots;
        }
      }
    } else {
      PooledNot(sid, ids, start, pool, i, slots, taken);
    }
  }

  /** The scan of the extra transactions. */
  method GatherExtra(sid: nat -> nat, wtxid: Tx -> nat, extra: seq<Known>, ids: map<nat, nat>, ghost start: seq<Option<Tx>>,
                     slots0: seq<Option<Tx>>, taken0: seq<bool>, count0: nat)
    returns (slots: seq<Option<Tx>>, count: nat, ghost taken: seq<bool>, ghost seen: nat)
    requires Gathering(ids, start, slots0, taken0, count0)
    ensures Gathering(ids, start, slots, taken, count) && Topped(sid, wtxid, ids, slots0, taken0, extra, seen, slots, taken)
    ensures seen == |extra| || count == |ids|
  {
    var have := taken0;
    slots, count := slots0, count0;
    for i := 0 to |extra|
      invariant Gathering(ids, start, slots, have, count) && Topped(sid, wtxid, ids, slots0, taken0, extra, i, slots, have)
    {
      slots, have, count := ExtraOne(sid, wtxid, extra, i, ids, start, slots0, taken0, slots, have, count);
      if count == |ids| {
        return slots, count, have, i + 1;
      }
    }
    taken, seen := have, |extra|;
  }

  /** A second match empties the slot only if it is a different transaction. */
  method ExtraOne(sid: nat -> nat, wtxid: Tx -> nat, extra: seq<Known>, i: nat, ids: map<nat, nat>, ghost start: seq<Option<Tx>>,
                  ghost slots0: seq<Option<Tx>>, ghost taken0: seq<bool>, slots: seq<Option<Tx>>, taken: seq<bool>, count: nat)
    returns (slots': seq<Option<Tx>>, taken': seq<bool>, count': nat)
    requires i < |extra| && Gathering(ids, start, slots, taken, count) && Topped(sid, wtxid, ids, slots0, taken0, extra, i, slots, taken)
    ensures Gathering(ids, start, slots', taken', count') && Topped(sid, wtxid, ids, slots0, taken0, extra, i + 1, slots', taken')
  {
    var id := sid(extra[i].0);
    slots', taken', count' := slots, taken, count;
    ToppedOn(sid, wtxid, ids, slots0, taken0, extra, i, slots, taken);
    if id in ids {
      var p := ids[id];
      GatheringStep(ids, start, slots, taken, count, id, if taken[p] then None else Some(extra[i].1));
      if !taken[p] {
        slots', taken', count' := slots[p := Some(extra[i].1)], taken[p := true], count + 1;
      } else {
        assert taken[p := true] == taken;
        if slots[p].Some? && wtxid(slots[p].value) != wtxid(extra[i].1) {
          slots', count' := slots[p := None], count - 1;
        } else {
          assert slots[p := slots[p]] == slots;
          assert slots[p].None? ==> slots[p := None] == slots;
        }
      }
    }
  }

  // ----------------------------------------------------------------- genuine slots

  /** Everything found for a slot is what belongs there. */
  lemma {:induction false} MatchingGenuine(sid: nat -> nat, ids: map<nat, nat>, known: seq<Known>, k: nat, p: nat, block: seq<Tx>)
    requires k <= |known| && NoFalseMatch(sid, known, ids, block) && p < |block|
    ensures forall x | x in Matching(sid, ids, known, k, p) :: x == block[p]
  {
    if k > 0 {
      MatchingGenuine(sid, ids, known, k - 1, p, block);
    }
  }

  /** With no false match, only genuine transactions are put into genuine slots. */
  lemma GatheredGenuine(sid: nat -> nat, wtxid: Tx -> nat, ids: map<nat, nat>, start: seq<Option<Tx>>, pool: seq<Known>, k: nat, mid: seq<Option<Tx>>,
                        taken: seq<bool>, extra: seq<Known>, n: nat, slots: seq<Option<Tx>>, taken': seq<bool>, block: seq<Tx>)
    requires Pooled(sid, ids, start, pool, k, mid, taken) && Topped(sid, wtxid, ids, mid, taken, extra, n, slots, taken')
    requires Genuine(start, block) && NoFalseMatch(sid, pool, ids, block) && NoFalseMatch(sid, extra, ids, block)
    ensures Genuine(slots, block)
  {
    forall p | 0 <= p < |slots| && slots[p].Some? ensures slots[p].value == block[p] {
      MatchingGenuine(sid, ids, pool, k, p, block);
      MatchingGenuine(sid, ids, extra, n, p, block);
      var found, more := Matching(sid, ids, pool, k, p), Matching(sid, ids, extra, n, p);
      assert found != [] ==> found[0] in found;
      assert more != [] ==> more[0] in more;
    }
  }
}
