/**
 Compact blocks (BIP 152): a block announced by short transaction ids and a few whole transactions.  Here, the whole
 ones are placed and the short ids are led to the free slots, with positions of 16 bits.
 */
module CompactBlocks {
  import opened Counting
  import opened Folding
  import opened Wrappers

  type Tx = nat

  const MAX_COUNT := 32_000_000 / 40

  const MAX_INDEX := 0xFFFF

  /** A transaction sent whole; its index counts the positions since the one before.  A null transaction is None. */
  datatype Prefilled = Prefilled(index: nat, tx: Option<Tx>)

  datatype Message = Message(headerNull: bool, shortIds: seq<nat>, prefilled: seq<Prefilled>) {
    function Count(): nat { |shortIds| + |prefilled| }
  }


  // ---------------------------------------------------------------- positions

  /** The positions of the prefilled transactions: each index counts on from the one before. */
  function Positions(prefilled: seq<Prefilled>): (r: seq<nat>)
    ensures |r| == |prefilled|
  {
    if prefilled == [] then []
    else
      var before := Positions(prefilled[..|prefilled| - 1]);
      before + [prefilled[|prefilled| - 1].index + if before == [] then 0 else before[|before| - 1] + 1]
  }

  ghost predicate Increasing(s: seq<nat>) { forall i, j | 0 <= i < j < |s| :: s[i] < s[j] }

  lemma {:induction false} PositionsIncrease(prefilled: seq<Prefilled>)
    ensures Increasing(Positions(prefilled))
  {
    if prefilled != [] {
      PositionsIncrease(prefilled[..|prefilled| - 1]);
    }
  }

  lemma {:induction false} PositionsPrefix(prefilled: seq<Prefilled>, n: nat)
    requires n <= |prefilled|
    ensures Positions(prefilled[..n]) == Positions(prefilled)[..n]
  {
    if n < |prefilled| {
      PositionsPrefix(prefilled[..|prefilled| - 1], n);
      assert prefilled[..|prefilled| - 1][..n] == prefilled[..n];
    } else {
      assert prefilled[..n] == prefilled;
    }
  }

  /** Position n, from the one before. */
  lemma NextPosition(prefilled: seq<Prefilled>, n: nat)
    requires n < |prefilled|
    ensures Positions(prefilled)[n] == prefilled[n].index + if n == 0 then 0 else Positions(prefilled)[n - 1] + 1
  {
    PositionsPrefix(prefilled, n + 1);
    PositionsPrefix(prefilled, n);
    assert prefilled[..n + 1][..n] == prefilled[..n];
    assert Positions(prefilled)[n] == Positions(prefilled)[..n + 1][n];
  }

  /** What a message must satisfy for the first n prefilled transactions to be placed. */
  ghost predicate Placeable(m: Message, pos: seq<nat>, n: nat)
    requires n <= |m.prefilled| == |pos|
  {
    forall i | 0 <= i < n :: m.prefilled[i].tx.Some? && pos[i] <= MAX_INDEX && pos[i] <= |m.shortIds| + i
  }

  /** Slots after placing the first n prefilled transactions: those are there, and nothing else. */
  ghost predicate Placed(m: Message, pos: seq<nat>, n: nat, slots: seq<Option<Tx>>)
    requires n <= |m.prefilled| == |pos|
  {
    && |slots| == m.Count()
    && (forall i | 0 <= i < n :: pos[i] < |slots| && slots[pos[i]] == m.prefilled[i].tx)
    && (forall p | 0 <= p < |slots| && slots[p].Some? :: p in pos[..n])
  }

  /** The prefilled transactions in their places, or nothing when the message is malformed. */
  method PlacePrefilled(m: Message) returns (r: Option<seq<Option<Tx>>>)
    ensures r.Some? <==> Placeable(m, Positions(m.prefilled), |m.prefilled|)
    ensures r.Some? ==> Placed(m, Positions(m.prefilled), |m.prefilled|, r.value)
  {
    var slots: seq<Option<Tx>> := seq(m.Count(), _ => None);
    ghost var pos := Positions(m.prefilled);
    PositionsIncrease(m.prefilled);
    var last: int := -1;
    for i := 0 to |m.prefilled|
      invariant Placeable(m, pos, i) && Placed(m, pos, i, slots)
      invariant last == if i == 0 then -1 else pos[i - 1]
    {
      if m.prefilled[i].tx.None? {
        return None;
      }
      last := last + m.prefilled[i].index + 1;
      NextPosition(m.prefilled, i);
      if last > MAX_INDEX || last > |m.shortIds| + i {
        return None;
      }
      PlacedOne(m, pos, i, slots);
      slots := slots[last := m.prefilled[i].tx];
    }
    r := Some(slots);
  }

  lemma PlacedOne(m: Message, pos: seq<nat>, i: nat, was: seq<Option<Tx>>)
    requires i < |m.prefilled| == |pos| && Increasing(pos) && Placed(m, pos, i, was) && pos[i] < |was|
    ensures Placed(m, pos, i + 1, was[pos[i] := m.prefilled[i].tx])
  {
    assert pos[..i + 1] == pos[..i] + [pos[i]];
  }

  // --------------------------------------------------------------- free slots

  /** The empty positions from one on, in order. */
  function Free(slots: seq<Option<Tx>>, from: nat): seq<nat>
    requires from <= |slots|
    decreases |slots| - from
  {
    if from == |slots| then [] else if slots[from].None? then [from] + Free(slots, from + 1) else Free(slots, from + 1)
  }

  lemma {:induction false} FreeIs(slots: seq<Option<Tx>>, from: nat)
    requires from <= |slots|
    ensures forall k | 0 <= k < |Free(slots, from)| :: from <= Free(slots, from)[k] < |slots| && slots[Free(slots, from)[k]].None?
    ensures forall j, k | 0 <= j < k < |Free(slots, from)| :: Free(slots, from)[j] < Free(slots, from)[k]
    ensures forall p | from <= p < |slots| && slots[p].None? :: p in Free(slots, from)
    decreases |slots| - from
  {
    if from < |slots| {
      FreeIs(slots, from + 1);
    }
  }

  function Filled(slots: seq<Option<Tx>>, from: nat): nat
    requires from <= |slots|
    decreases |slots| - from
  {
    if from == |slots| then 0 else (if slots[from].Some? then 1 else 0) + Filled(slots, from + 1)
  }

  lemma {:induction false} FreeAndFilled(slots: seq<Option<Tx>>, from: nat)
    requires from <= |slots|
    ensures |Free(slots, from)| + Filled(slots, from) == |slots| - from
    decreases |slots| - from
  {
    if from < |slots| {
      FreeAndFilled(slots, from + 1);
    }
  }

  lemma {:induction false} FilledUpdate(slots: seq<Option<Tx>>, from: nat, p: nat, x: Option<Tx>)
    requires from <= |slots| && p < |slots|
    ensures Filled(slots[p := x], from) ==
            Filled(slots, from) + (if p < from then 0 else (if x.Some? then 1 else 0) - if slots[p].Some? then 1 else 0)
    decreases |slots| - from
  {
    if from < |slots| {
      FilledUpdate(slots, from + 1, p, x);
    }
  }

  lemma {:induction false} FilledNone(slots: seq<Option<Tx>>, from: nat)
    requires from <= |slots| && forall p | 0 <= p < |slots| :: slots[p].None?
    ensures Filled(slots, from) == 0
    decreases |slots| - from
  {
    if from < |slots| {
      FilledNone(slots, from + 1);
    }
  }

  /** As many slots are left free as there are short ids. */
  lemma PlacedCount(m: Message, slots: seq<Option<Tx>>)
    requires Placed(m, Positions(m.prefilled), |m.prefilled|, slots) && Placeable(m, Positions(m.prefilled), |m.prefilled|)
    ensures |Free(slots, 0)| == |m.shortIds| && Filled(slots, 0) == |m.prefilled|
  {
    PositionsIncrease(m.prefilled);
    PlacedFilled(m, Positions(m.prefilled), |m.prefilled|, slots);
    FreeAndFilled(slots, 0);
  }

  lemma {:induction false} PlacedFilled(m: Message, pos: seq<nat>, n: nat, slots: seq<Option<Tx>>)
    requires n <= |m.prefilled| == |pos| && Increasing(pos) && Placeable(m, pos, n) && Placed(m, pos, n, slots)
    ensures Filled(slots, 0) == n
    decreases n
  {
    if n == 0 {
      FilledNone(slots, 0);
    } else {
      var p := pos[n - 1];
      var was := slots[p := None];
      forall q | 0 <= q < |was| && was[q].Some? ensures q in pos[..n - 1] {
        assert q in pos[..n] && pos[..n] == pos[..n - 1] + [p];
      }
      PlacedFilled(m, pos, n - 1, was);
      FilledUpdate(slots, 0, p, None);
    }
  }

  // ---------------------------------------------------------------- short ids

  ghost predicate Distinct(s: seq<nat>) { forall i, j | 0 <= i < j < |s| :: s[i] != s[j] }

  lemma DistinctBySize(s: seq<nat>)
    ensures Distinct(s) <==> |Elems(s)| == |s|
  {
    if Distinct(s) {
      ElemsDistinct(s);
    }
    forall i, j | 0 <= i < j < |s| && |Elems(s)| == |s| ensures s[i] != s[j] {
      RepeatShrinks(s, i, j);
    }
  }

  lemma RepeatShrinks(s: seq<nat>, i: nat, j: nat)
    requires i < j < |s|
    ensures s[i] == s[j] ==> |Elems(s)| < |s|
  {
    if s[i] == s[j] {
      var r := s[..j] + s[j + 1..];
      forall x | x in Elems(s) ensures x in Elems(r) {
        var k :| 0 <= k < |s| && s[k] == x;
        assert r[if k < j then k else if k == j then i else k - 1] == x;
      }
      SubsetSize(Elems(s), Elems(r));
      ElemsAtMost(r);
    }
  }

  /** Each short id leads to its slot: the k-th id to the k-th free one. */
  ghost predicate Leads(shortIds: seq<nat>, free: seq<nat>, n: nat, ids: map<nat, nat>)
    requires n <= |shortIds| == |free|
  {
    forall u | Unfold(u) ::
      && ids.Keys == Elems(shortIds[..n])
      && forall k | 0 <= k < n && (forall j | k < j < n :: shortIds[j] != shortIds[k]) :: shortIds[k] in ids && ids[shortIds[k]] == free[k]
  }

  lemma LeadsNone(shortIds: seq<nat>, free: seq<nat>)
    requires |shortIds| == |free|
    ensures Leads(shortIds, free, 0, map[])
  {
  }

  lemma LeadsOn(shortIds: seq<nat>, free: seq<nat>, n: nat, ids: map<nat, nat>)
    requires n < |shortIds| == |free| && Leads(shortIds, free, n, ids)
    ensures Leads(shortIds, free, n + 1, ids[shortIds[n] := free[n]])
  {
    assert Unfold(0);
    assert shortIds[..n + 1] == shortIds[..n] + [shortIds[n]];
    var ids' := ids[shortIds[n] := free[n]];
    forall k | 0 <= k < n + 1 && (forall j | k < j < n + 1 :: shortIds[j] != shortIds[k])
      ensures shortIds[k] in ids' && ids'[shortIds[k]] == free[k] {
      if k < n {
        assert shortIds[n] != shortIds[k];
      }
    }
  }

  lemma LeadsAll(shortIds: seq<nat>, free: seq<nat>, ids: map<nat, nat>)
    requires |shortIds| == |free| && Leads(shortIds, free, |shortIds|, ids)
    ensures |ids| == |shortIds| <==> Distinct(shortIds)
    ensures ids.Keys == Elems(shortIds) && (Distinct(shortIds) ==> forall k | 0 <= k < |shortIds| :: ids[shortIds[k]] == free[k])
  {
    assert Unfold(0);
    assert shortIds[..|shortIds|] == shortIds;
    DistinctBySize(shortIds);
    assert |ids| == |ids.Keys|;
  }

  /** Where the short ids lead: to the free slots, in order, as far as 16 bits can say. */
  function Targets(slots: seq<Option<Tx>>): (r: seq<nat>)
    ensures |r| == |Free(slots, 0)| && forall k | 0 <= k < |r| :: r[k] == Low16(Free(slots, 0)[k])
  {
    seq(|Free(slots, 0)|, k requires 0 <= k < |Free(slots, 0)| => Low16(Free(slots, 0)[k]))
  }

  /** A number cut to 16 bits. */
  function Low16(x: nat): (r: nat)
    ensures r <= x && r <= MAX_INDEX && (x <= MAX_INDEX <==> r == x)
  {
    x % 0x1_0000
  }

  // --------------------------------------------------------- scan for free slots

  /** Place k of the scan for short id i from an offset is inside the block and filled. */
  predicate Passed(slots: seq<Option<Tx>>, i: nat, offset: nat, k: nat) {
    i + Low16(offset + k) < |slots| && slots[i + Low16(offset + k)].Some?
  }

  /** The scan for short id i from one offset ends at another, with the offset in 16 bits. */
  ghost predicate ScanTo(slots: seq<Option<Tx>>, i: nat, offset: nat, r: nat, steps: nat) {
    && r == Low16(offset + steps) && i + r < |slots| && slots[i + r].None?
    && forall k: nat | k < steps :: Passed(slots, i, offset, k)
  }

  /** The scan never ends. */
  ghost predicate Endless(slots: seq<Option<Tx>>, i: nat, offset: nat) {
    forall k: nat :: Passed(slots, i, offset, k)
  }

  /** The offsets after each short id, where all scans end. */
  ghost predicate Scanned(slots: seq<Option<Tx>>, offsets: seq<nat>, steps: seq<nat>) {
    && |offsets| == |steps| + 1 && offsets[0] == 0
    && forall i | 0 <= i < |steps| :: ScanTo(slots, i, offsets[i], offsets[i + 1], steps[i])
  }

  /** The first 65536 slots are filled. */
  ghost predicate Crammed(slots: seq<Option<Tx>>) {
    |slots| > MAX_INDEX && forall p | 0 <= p <= MAX_INDEX :: slots[p].Some?
  }

  /** Then wherever 16 bits lead there is no free slot, and the first scan goes round and round. */
  lemma CrammedEndless(slots: seq<Option<Tx>>)
    requires Crammed(slots)
    ensures Endless(slots, 0, 0) && forall n: nat :: slots[Low16(n)].Some?
    ensures forall r: nat, steps: nat :: !ScanTo(slots, 0, 0, r, steps)
  {
    forall k: nat ensures Passed(slots, 0, 0, k) {
      assert Low16(0 + k) <= MAX_INDEX;
    }
    forall r: nat, steps: nat ensures !ScanTo(slots, 0, 0, r, steps) {
      assert Low16(0 + steps) <= MAX_INDEX;
    }
  }

  /** Positions of 16 bits: if the prefilled ones are that many, they are all of the first ones. */
  lemma {:induction false} FilledLow(slots: seq<Option<Tx>>, from: nat)
    requires from <= |slots| && forall p | 0 <= p < |slots| && slots[p].Some? :: p <= MAX_INDEX
    ensures from <= MAX_INDEX + 1 ==> Filled(slots, from) <= MAX_INDEX + 1 - from
    ensures from > MAX_INDEX ==> Filled(slots, from) == 0
    ensures from <= MAX_INDEX + 1 && Filled(slots, from) == MAX_INDEX + 1 - from ==>
              |slots| > MAX_INDEX && forall p | from <= p <= MAX_INDEX :: slots[p].Some?
    decreases |slots| - from
  {
    if from < |slots| {
      FilledLow(slots, from + 1);
    }
  }

  lemma CrammedIff(slots: seq<Option<Tx>>)
    requires forall p | 0 <= p < |slots| && slots[p].Some? :: p <= MAX_INDEX
    ensures Filled(slots, 0) <= MAX_INDEX + 1 && (Crammed(slots) <==> Filled(slots, 0) > MAX_INDEX)
  {
    FilledLow(slots, 0);
    if Crammed(slots) {
      ManyFilled(slots, 0);
    }
  }

  lemma {:induction false} ManyFilled(slots: seq<Option<Tx>>, from: nat)
    requires Crammed(slots) && from <= MAX_INDEX + 1
    ensures Filled(slots, from) >= MAX_INDEX + 1 - from
    decreases MAX_INDEX + 1 - from
  {
    if from <= MAX_INDEX {
      ManyFilled(slots, from + 1);
    }
  }

  lemma Tail(s: seq<nat>, i: nat)
    requires i < |s|
    ensures s[i..] != [] && s[i..][0] == s[i] && s[i..][1..] == s[i + 1..]
  {
  }

  /** Where the scan for short id i stands: the free slots still to come, and the filled ones passed. */
  ghost predicate Standing(slots: seq<Option<Tx>>, i: nat, offset: nat, rest: seq<nat>) {
    && i + offset <= |slots|
    && forall u | Unfold(u) :: Free(slots, i + offset) == rest && offset + Filled(slots, i + offset) == Filled(slots, 0)
  }

  lemma StandingFirst(slots: seq<Option<Tx>>)
    ensures Standing(slots, 0, 0, Free(slots, 0)[0..])
  {
    assert Free(slots, 0)[0..] == Free(slots, 0);
  }

  /** With no more than 65535 filled slots the offset never wraps around, and the scan ends at the next free slot. */
  lemma {:induction false} ScanFinds(slots: seq<Option<Tx>>, i: nat, offset: nat, rest: seq<nat>) returns (steps: nat)
    requires Filled(slots, 0) <= MAX_INDEX && Standing(slots, i, offset, rest) && rest != []
    ensures rest[0] >= i && ScanTo(slots, i, offset, rest[0] - i, steps) && Standing(slots, i + 1, rest[0] - i, rest[1..])
    decreases |slots| - offset
  {
    assert Unfold(0);
    if slots[i + offset].None? {
      steps := 0;
    } else {
      assert Free(slots, i + offset) == Free(slots, i + offset + 1);
      var less := ScanFinds(slots, i, offset + 1, rest);
      steps := less + 1;
      forall k: nat | k < steps ensures Passed(slots, i, offset, k) {
        assert k > 0 ==> Passed(slots, i, offset + 1, k - 1);
      }
    }
  }

  /** Where a scan ends is determined. */
  lemma ScanUnique(slots: seq<Option<Tx>>, i: nat, offset: nat, r: nat, n: nat, r': nat, n': nat)
    requires ScanTo(slots, i, offset, r, n) && ScanTo(slots, i, offset, r', n')
    ensures r == r'
  {
    assert !Passed(slots, i, offset, n) && !Passed(slots, i, offset, n');
  }

  /** For a well-formed message every scan ends exactly when there is no short id, or at most 65535 transactions are
      prefilled. */
  lemma ScansEnd(m: Message, slots: seq<Option<Tx>>)
    requires Placeable(m, Positions(m.prefilled), |m.prefilled|) && Placed(m, Positions(m.prefilled), |m.prefilled|, slots)
    ensures (exists offsets, steps :: |steps| == |m.shortIds| && Scanned(slots, offsets, steps)) <==>
            m.shortIds == [] || |m.prefilled| <= MAX_INDEX
  {
    PlacedCount(m, slots);
    PlacedLow(m, slots);
    CrammedIff(slots);
    if |m.prefilled| <= MAX_INDEX || m.shortIds == [] {
      var offsets, steps := ScanAll(m.shortIds, slots, |m.shortIds|);
    } else {
      CrammedEndless(slots);
      forall offsets, steps ensures !(|steps| == |m.shortIds| && Scanned(slots, offsets, steps)) {
        NeverScanned(slots, offsets, steps);
      }
    }
  }

  lemma NeverScanned(slots: seq<Option<Tx>>, offsets: seq<nat>, steps: seq<nat>)
    requires Crammed(slots)
    ensures steps != [] ==> !Scanned(slots, offsets, steps)
  {
    CrammedEndless(slots);
    if steps != [] && |offsets| == |steps| + 1 {
      assert !ScanTo(slots, 0, 0, offsets[1], steps[0]);
    }
  }

  lemma {:induction false} ScanAll(shortIds: seq<nat>, slots: seq<Option<Tx>>, n: nat) returns (offsets: seq<nat>, steps: seq<nat>)
    requires |Free(slots, 0)| == |shortIds| && n <= |shortIds| && (shortIds == [] || Filled(slots, 0) <= MAX_INDEX)
    ensures |steps| == n && Scanned(slots, offsets, steps) && Standing(slots, n, offsets[n], Free(slots, 0)[n..])
  {
    if n == 0 {
      offsets, steps := [0], [];
      StandingFirst(slots);
    } else {
      offsets, steps := ScanAll(shortIds, slots, n - 1);
      var free := Free(slots, 0);
      Tail(free, n - 1);
      var k := ScanFinds(slots, n - 1, offsets[n - 1], free[n - 1..]);
      offsets, steps := offsets + [free[n - 1] - (n - 1)], steps + [k];
    }
  }

  lemma PlacedLow(m: Message, slots: seq<Option<Tx>>)
    requires Placeable(m, Positions(m.prefilled), |m.prefilled|) && Placed(m, Positions(m.prefilled), |m.prefilled|, slots)
    ensures forall p | 0 <= p < |slots| && slots[p].Some? :: p <= MAX_INDEX
  {
    var pos := Positions(m.prefilled);
    forall p | 0 <= p < |slots| && slots[p].Some? ensures p <= MAX_INDEX {
      assert p in pos[..|m.prefilled|];
      var i :| 0 <= i < |pos| && pos[i] == p;
    }
  }

  /** The scan as the code makes it.  After 65536 filled places the offset is back where it was, and the scan goes on for
      ever; None says so. */
  method NextFree(slots: seq<Option<Tx>>, i: nat, offset: nat, ghost free: nat) returns (r: Option<nat>, ghost steps: nat)
    requires offset <= MAX_INDEX && i + offset <= free < |slots| && slots[free].None?
    ensures r.Some? ==> ScanTo(slots, i, offset, r.value, steps)
    ensures r.None? ==> Endless(slots, i, offset)
  {
    var o := offset;
    steps := 0;
    for k := 0 to MAX_INDEX + 1
      invariant steps == k && o == Low16(offset + k) && forall j: nat | j < k :: Passed(slots, i, offset, j)
    {
      StaysInside(slots, i, offset, free, k);
      if slots[i + o].None? {
        return Some(o), k;
      }
      o := Low16(o + 1);
      steps := k + 1;
    }
    GoesRound(slots, i, offset);
    r := None;
  }

  lemma StaysInside(slots: seq<Option<Tx>>, i: nat, offset: nat, free: nat, k: nat)
    requires offset <= MAX_INDEX && i + offset <= free < |slots| && slots[free].None? && k <= MAX_INDEX
    requires forall j: nat | j < k :: Passed(slots, i, offset, j)
    ensures i + Low16(offset + k) < |slots| && Low16(Low16(offset + k) + 1) == Low16(offset + k + 1)
  {
    var j := free - i - offset;
    if offset + j <= MAX_INDEX {
      assert !Passed(slots, i, offset, j);
    }
  }

  lemma GoesRound(slots: seq<Option<Tx>>, i: nat, offset: nat)
    requires forall j: nat | j <= MAX_INDEX :: Passed(slots, i, offset, j)
    ensures Endless(slots, i, offset)
  {
    forall k: nat ensures Passed(slots, i, offset, k) {
      assert Passed(slots, i, offset, k % 0x1_0000);
      assert (offset + k) % 0x1_0000 == (offset + k % 0x1_0000) % 0x1_0000;
    }
  }

  datatype Mapping = NeverDone | Collision | Mapped(ids: map<nat, nat>)

  /** The map from short ids to slots: never done exactly when the first 65536 slots are filled and there is a short id. */
  method MapShortIds(shortIds: seq<nat>, slots: seq<Option<Tx>>) returns (r: Mapping)
    requires |Free(slots, 0)| == |shortIds| && forall p | 0 <= p < |slots| && slots[p].Some? :: p <= MAX_INDEX
    ensures r.NeverDone? <==> shortIds != [] && Filled(slots, 0) > MAX_INDEX
    ensures !r.NeverDone? ==> (r.Mapped? <==> Distinct(shortIds))
    ensures r.Mapped? ==> r.ids.Keys == Elems(shortIds) && forall k | 0 <= k < |shortIds| :: r.ids[shortIds[k]] == Targets(slots)[k]
  {
    var m := FillMap(shortIds, slots, Free(slots, 0), Targets(slots));
    if m.None? {
      return NeverDone;
    }
    LeadsAll(shortIds, Targets(slots), m.value);
    if |m.value| != |shortIds| {
      return Collision;
    }
    r := Mapped(m.value);
  }

  method FillMap(shortIds: seq<nat>, slots: seq<Option<Tx>>, ghost free: seq<nat>, ghost targets: seq<nat>)
    returns (r: Option<map<nat, nat>>)
    requires free == Free(slots, 0) && targets == Targets(slots) && |free| == |shortIds|
    requires forall p | 0 <= p < |slots| && slots[p].Some? :: p <= MAX_INDEX
    ensures r.None? <==> shortIds != [] && Filled(slots, 0) > MAX_INDEX
    ensures r.Some? ==> Leads(shortIds, targets, |shortIds|, r.value)
  {
    var ids: map<nat, nat> := map[];
    var offset: nat := 0;
    LeadsNone(shortIds, targets);
    StandingFirst(slots);
    CrammedIff(slots);
    for i := 0 to |shortIds|
      invariant if i == 0 then offset == 0 else Filled(slots, 0) <= MAX_INDEX
      invariant offset <= MAX_INDEX && Standing(slots, i, offset, free[i..])
      invariant Leads(shortIds, targets, i, ids)
    {
      Tail(free, i);
      var next := NextOffset(slots, i, offset, free[i..]);
      if next.None? {
        return None;
      }
      offset := next.value;
      LeadsOn(shortIds, targets, i, ids);
      ids := ids[shortIds[i] := Low16(i + offset)];
    }
    r := Some(ids);
  }

  /** One scan, from where the one before ended. */
  method NextOffset(slots: seq<Option<Tx>>, i: nat, offset: nat, ghost rest: seq<nat>) returns (r: Option<nat>)
    requires offset <= MAX_INDEX && Standing(slots, i, offset, rest) && rest != []
    requires if i == 0 then offset == 0 else Filled(slots, 0) <= MAX_INDEX
    requires Crammed(slots) <==> Filled(slots, 0) > MAX_INDEX
    ensures r.None? <==> Filled(slots, 0) > MAX_INDEX
    ensures r.Some? ==> r.value <= MAX_INDEX && rest[0] == i + r.value && Standing(slots, i + 1, r.value, rest[1..])
  {
    FreeIs(slots, i + offset);
    assert Unfold(0);
    ghost var steps;
    r, steps := NextFree(slots, i, offset, rest[0]);
    if Filled(slots, 0) <= MAX_INDEX {
      var n := ScanFinds(slots, i, offset, rest);
      assert !Passed(slots, i, offset, n);
      ScanUnique(slots, i, offset, r.value, steps, rest[0] - i, n);
    } else {
      CrammedEndless(slots);
    }
  }
}
