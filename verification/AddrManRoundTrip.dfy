/**
 Saving a manager and reading it back gives the same manager up to the numbering of ids.
 */
module AddrManRoundTrip {
  import opened Counting
  import opened Folding
  import opened Wrappers
  import opened AddrManModel
  import opened AddrManOps
  import opened AddrManSerial

  // -------------------------------------------------- the lists of entries

  /** A list of the ids below n with some property, in order, found by counting. */
  predicate Chosen(infos: map<int, Info>, id: int, tried: bool) {
    id in infos && if tried then infos[id].inTried else infos[id].refCount != 0
  }

  /** NewList or TriedList. */
  function List(infos: map<int, Info>, n: nat, tried: bool): seq<SavedInfo> {
    if tried then TriedList(infos, n) else NewList(infos, n)
  }

  lemma ListNext(infos: map<int, Info>, n: nat, tried: bool)
    ensures List(infos, n + 1, tried) ==
      List(infos, n, tried) + if Chosen(infos, n, tried) then [ToSaved(infos[n])] else []
    ensures List(infos, 0, tried) == []
  {
  }

  /** A chosen id is found in the list at the number of chosen ids before it. */
  lemma {:induction false} ListAt(infos: map<int, Info>, n: nat, tried: bool, id: nat)
    requires id < n && Chosen(infos, id, tried)
    ensures |List(infos, id, tried)| < |List(infos, n, tried)|
    ensures List(infos, n, tried)[|List(infos, id, tried)|] == ToSaved(infos[id])
  {
    ListNext(infos, n - 1, tried);
    if id < n - 1 {
      ListAt(infos, n - 1, tried, id);
    }
  }

  /** And every place of the list is that of some chosen id. */
  lemma {:induction false} ListFrom(infos: map<int, Info>, n: nat, tried: bool, k: nat) returns (id: nat)
    requires k < |List(infos, n, tried)|
    ensures id < n && Chosen(infos, id, tried) && |List(infos, id, tried)| == k
  {
    ListNext(infos, 0, tried);
    ListNext(infos, n - 1, tried);
    if k < |List(infos, n - 1, tried)| {
      id := ListFrom(infos, n - 1, tried, k);
    } else {
      id := n - 1;
    }
  }

  function ChosenBelow(infos: map<int, Info>, n: nat, tried: bool): set<int> {
    set id | id in infos && id < n && Chosen(infos, id, tried)
  }

  lemma {:induction false} ListLength(infos: map<int, Info>, n: nat, tried: bool)
    requires forall id | id in infos :: 0 <= id
    ensures |List(infos, n, tried)| == |ChosenBelow(infos, n, tried)|
  {
    ListNext(infos, 0, tried);
    if n == 0 {
      assert ChosenBelow(infos, 0, tried) == {};
    } else {
      ListNext(infos, n - 1, tried);
      ListLength(infos, n - 1, tried);
      if Chosen(infos, n - 1, tried) {
        assert ChosenBelow(infos, n, tried) == ChosenBelow(infos, n - 1, tried) + {n - 1};
      } else {
        assert ChosenBelow(infos, n, tried) == ChosenBelow(infos, n - 1, tried);
      }
    }
  }

  // ---------------------------------------------------------- the numbering

  /** All entries in the order they are read back: the referenced ones, then the tried ones. */
  function Entries(s: State): seq<SavedInfo>
    requires s.idCount >= 0
  {
    NewList(s.infos, s.idCount) + TriedList(s.infos, s.idCount)
  }

  /** The id an entry gets when it is read back. */
  function Renumber(s: State, id: int): nat
    requires IdsOk(s) && id in s.infos
  {
    if s.infos[id].inTried then |NewList(s.infos, s.idCount)| + |TriedList(s.infos, id)|
    else Rank(s.infos, id)
  }

  /** Every entry is either tried or referenced, never both. */
  ghost predicate EitherOr(s: State) {
    forall id | id in s.infos :: s.infos[id].refCount != 0 <==> !s.infos[id].inTried
  }

  lemma RenumberAt(s: State, id: int)
    requires IdsOk(s) && EitherOr(s) && id in s.infos
    ensures var k := Renumber(s, id);
      && k < |Entries(s)| && Entries(s)[k] == ToSaved(s.infos[id])
      && (k < |NewList(s.infos, s.idCount)| <==> !s.infos[id].inTried)
  {
    var tried := s.infos[id].inTried;
    assert Chosen(s.infos, id, tried);
    ListAt(s.infos, s.idCount, tried, id);
  }

  lemma RenumberFrom(s: State, k: nat) returns (id: int)
    requires IdsOk(s) && EitherOr(s) && k < |Entries(s)|
    ensures id in s.infos && Renumber(s, id) == k
  {
    var n := |NewList(s.infos, s.idCount)|;
    if k < n {
      id := ListFrom(s.infos, s.idCount, false, k);
    } else {
      id := ListFrom(s.infos, s.idCount, true, k - n);
    }
  }

  /** Two places of the list never hold the same host. */
  ghost predicate DistinctHosts(e: seq<SavedInfo>) {
    forall j, k | 0 <= j < k < |e| :: e[j].service.host != e[k].service.host
  }

  lemma EntriesDistinct(s: State)
    requires IdsOk(s) && EitherOr(s) && AddrsOk(s)
    ensures DistinctHosts(Entries(s))
  {
    var e := Entries(s);
    forall j, k | 0 <= j < k < |e| ensures e[j].service.host != e[k].service.host {
      var a := RenumberFrom(s, j);
      var b := RenumberFrom(s, k);
      RenumberAt(s, a);
      RenumberAt(s, b);
    }
  }

  lemma RenumberInjective(s: State, a: int, b: int)
    requires IdsOk(s) && EitherOr(s) && AddrsOk(s) && a in s.infos && b in s.infos
    requires Renumber(s, a) == Renumber(s, b)
    ensures a == b
  {
    RenumberAt(s, a);
    RenumberAt(s, b);
  }

  /** The tried entries from place n on never share a slot. */
  ghost predicate DistinctSlots(env: Env, key: nat, e: seq<SavedInfo>, n: nat) {
    forall j, k | n <= j < k < |e| :: TriedSlot(env, key, e[j].service) != TriedSlot(env, key, e[k].service)
  }

  lemma EntriesSlots(env: Env, s: State)
    requires IdsOk(s) && EitherOr(s) && TriedTableOk(env, s)
    ensures DistinctSlots(env, s.key, Entries(s), |NewList(s.infos, s.idCount)|)
  {
    var e, n := Entries(s), |NewList(s.infos, s.idCount)|;
    forall j, k | n <= j < k < |e| ensures TriedSlot(env, s.key, e[j].service) != TriedSlot(env, s.key, e[k].service) {
      var a := RenumberFrom(s, j);
      var b := RenumberFrom(s, k);
      RenumberAt(s, a);
      RenumberAt(s, b);
    }
  }

  // --------------------------------------------------------- reading entries

  /** The first m entries have been read, numbered by their place; those from place n on as tried. */
  ghost predicate Filled(t: State, e: seq<SavedInfo>, n: nat, m: nat) {
    && m <= |e| && |t.random| == m
    && (forall i | 0 <= i < m :: t.random[i] == i)
    && (forall i | 0 <= i < m :: i in t.infos && t.infos[i] == FromSaved(e[i], i >= n, i).(refCount := t.infos[i].refCount))
    && (forall k | k in t.infos :: 0 <= k < m)
  }

  /** The address index over the first m entries. */
  ghost predicate Indexed(t: State, e: seq<SavedInfo>, m: nat) {
    && m <= |e|
    && (forall i | 0 <= i < m :: e[i].service.host in t.addrs && t.addrs[e[i].service.host] == i)
    && (forall a | a in t.addrs :: 0 <= t.addrs[a] < m && e[t.addrs[a]].service.host == a)
  }

  lemma AppendFilled(t: State, e: seq<SavedInfo>, n: nat, m: nat)
    requires Filled(t, e, n, m) && m < |e|
    ensures Filled(Append(t, m, FromSaved(e[m], m >= n, -1)), e, n, m + 1)
  {
  }

  lemma AppendIndexed(t: State, e: seq<SavedInfo>, n: nat, m: nat)
    requires Indexed(t, e, m) && m < |e| && DistinctHosts(e)
    ensures Indexed(Append(t, m, FromSaved(e[m], m >= n, -1)), e, m + 1)
  {
  }

  /** Everything but the entries and their indexes. */
  ghost predicate SameTables(t: State, t': State) {
    && t'.key == t.key && t'.nNew == t.nNew && t'.nTried == t.nTried && t'.lastGood == t.lastGood
    && t'.newTable == t.newTable && t'.triedTable == t.triedTable && t'.idCount == t.idCount
  }

  /** The state before anything is read. */
  ghost predicate Blank(t: State) {
    t.infos == map[] && t.addrs == map[] && t.random == [] && t.newTable == map[] && t.triedTable == map[]
  }

  /** Everything known while the "new" entries are being read. */
  ghost predicate ReadingNew(start: State, t: State, e: seq<SavedInfo>, n: nat, m: nat) {
    Filled(t, e, n, m) && Indexed(t, e, m) && Unreferenced(t) && SameTables(start, t)
  }

  ghost predicate Unreferenced(t: State) {
    forall i | i in t.infos :: t.infos[i].refCount == 0
  }

  lemma NewStep(env: Env, start: State, t: State, e: seq<SavedInfo>, n: nat, m: nat)
    requires ReadingNew(start, t, e, n, m) && m < n <= |e| && DistinctHosts(e)
    ensures ReadingNew(start, LoadOne(env, t, m, e[m], true), e, n, m + 1)
  {
    AppendFilled(t, e, n, m);
    AppendIndexed(t, e, n, m);
  }

  lemma LoadNewReads(env: Env, start: State, list: seq<SavedInfo>, e: seq<SavedInfo>)
    requires Blank(start) && |list| <= |e| && list == e[..|list|] && DistinctHosts(e)
    ensures ReadingNew(start, Fold(NewReader(env, true), start, list), e, |list|, |list|)
  {
    var n := |list|;
    var inv := (t: State, i: nat) => ReadingNew(start, t, e, n, i);
    forall t, i: nat | i < n && inv(t, i) ensures inv(NewReader(env, true)(t, i, list[i]), i + 1) {
      NewStep(env, start, t, e, n, i);
    }
    FoldKeeps(NewReader(env, true), start, list, inv);
  }

  /** The tried table over the entries from place n up to m. */
  ghost predicate TriedFilled(env: Env, t: State, e: seq<SavedInfo>, n: nat, m: nat) {
    && m <= |e|
    && (forall sl | sl in t.triedTable ::
          n <= t.triedTable[sl] < m && sl == TriedSlot(env, t.key, e[t.triedTable[sl]].service))
    && (forall i | n <= i < m :: SlotId(t.triedTable, TriedSlot(env, t.key, e[i].service)) == i)
  }

  /** The state while tried entries are being read. */
  ghost predicate ReadingTried(env: Env, t: State, e: seq<SavedInfo>, n: nat, m: nat) {
    Filled(t, e, n, m) && t.idCount == m && n <= m && TriedFilled(env, t, e, n, m) && Unreferenced(t)
  }

  /** Entries that can be read back without loss: no host and no tried slot occurs twice. */
  ghost predicate Lossless(env: Env, key: nat, e: seq<SavedInfo>, n: nat) {
    n <= |e| && DistinctSlots(env, key, e, n) && DistinctHosts(e)
  }

  lemma TriedStep(env: Env, t: State, e: seq<SavedInfo>, n: nat, m: nat)
    requires TriedFilled(env, t, e, n, m) && n <= m < |e| && DistinctSlots(env, t.key, e, n)
    ensures var sl := TriedSlot(env, t.key, e[m].service);
      && sl !in t.triedTable
      && TriedFilled(env, t.(triedTable := t.triedTable[sl := m]), e, n, m + 1)
  {
  }

  lemma TriedStepFilled(env: Env, t: State, e: seq<SavedInfo>, n: nat, m: nat)
    requires ReadingTried(env, t, e, n, m) && m < |e| && Lossless(env, t.key, e, n)
    ensures ReadingTried(env, LoadOneTried(env, t, e[m]), e, n, m + 1)
    ensures LoadOneTried(env, t, e[m]).key == t.key
  {
    AppendFilled(t, e, n, m);
    TriedStep(env, t, e, n, m);
  }

  lemma TriedStepIndexed(env: Env, t: State, e: seq<SavedInfo>, n: nat, m: nat)
    requires TriedFilled(env, t, e, n, m) && t.idCount == m && n <= m < |e|
    requires Indexed(t, e, m) && Lossless(env, t.key, e, n)
    ensures Indexed(LoadOneTried(env, t, e[m]), e, m + 1)
    ensures SameCounts(t, LoadOneTried(env, t, e[m]))
  {
    AppendIndexed(t, e, n, m);
    TriedStep(env, t, e, n, m);
  }

  ghost predicate SameCounts(t: State, t': State) {
    t'.nNew == t.nNew && t'.nTried == t.nTried && t'.newTable == t.newTable
  }

  /** Everything known while tried entries are being read. */
  ghost predicate Read(env: Env, start: State, t: State, e: seq<SavedInfo>, n: nat, m: nat) {
    ReadingTried(env, t, e, n, m) && Indexed(t, e, m) && SameCounts(start, t) && t.key == start.key
  }

  lemma ReadStep(env: Env, start: State, t: State, e: seq<SavedInfo>, n: nat, m: nat)
    requires Read(env, start, t, e, n, m) && m < |e| && Lossless(env, start.key, e, n)
    ensures Read(env, start, LoadOneTried(env, t, e[m]), e, n, m + 1)
  {
    TriedStepFilled(env, t, e, n, m);
    TriedStepIndexed(env, t, e, n, m);
  }

  ghost predicate ReadSome(env: Env, start: State, t: State, e: seq<SavedInfo>, n: nat, i: nat) {
    Read(env, start, t, e, n, n + i)
  }

  lemma ReaderStep(env: Env, start: State, t: State, x: SavedInfo, e: seq<SavedInfo>, n: nat, i: nat)
    requires ReadSome(env, start, t, e, n, i) && n + i < |e| && x == e[n + i] && Lossless(env, start.key, e, n)
    ensures ReadSome(env, start, LoadOneTried(env, t, x), e, n, i + 1)
  {
    ReadStep(env, start, t, e, n, n + i);
  }

  lemma ReaderSteps(env: Env, start: State, list: seq<SavedInfo>, e: seq<SavedInfo>, n: nat)
    requires n + |list| == |e| && Lossless(env, start.key, e, n)
    requires forall i | 0 <= i < |list| :: list[i] == e[n + i]
    ensures forall t, i: nat | i < |list| && ReadSome(env, start, t, e, n, i) ::
      ReadSome(env, start, LoadOneTried(env, t, list[i]), e, n, i + 1)
  {
    forall t, i: nat | i < |list| && ReadSome(env, start, t, e, n, i)
      ensures ReadSome(env, start, LoadOneTried(env, t, list[i]), e, n, i + 1)
    {
      ReaderStep(env, start, t, list[i], e, n, i);
    }
  }

  lemma LoadTriedReads(env: Env, start: State, list: seq<SavedInfo>, e: seq<SavedInfo>, n: nat)
    requires ReadSome(env, start, start, e, n, 0)
    requires forall t, i: nat | i < |list| && ReadSome(env, start, t, e, n, i) ::
      ReadSome(env, start, LoadOneTried(env, t, list[i]), e, n, i + 1)
    ensures ReadSome(env, start, Fold(TriedReader(env), start, list), e, n, |list|)
  {
    FoldKeeps(TriedReader(env), start, list, (t: State, i: nat) => ReadSome(env, start, t, e, n, i));
  }

  /** After all entries are read: everything in place but the "new" buckets. */
  ghost predicate EntriesRead(env: Env, s: State, t: State) {
    && s.idCount >= 0
    && var e, n := Entries(s), |NewList(s.infos, s.idCount)|;
       && ReadingTried(env, t, e, n, |e|) && Indexed(t, e, |e|) && t.key == s.key
       && t.newTable == map[] && t.nNew == n && t.nTried == |e| - n
  }

  lemma TriedComesNext(env: Env, start: State, t: State, e: seq<SavedInfo>, n: nat)
    requires Blank(start) && ReadingNew(start, t, e, n, n)
    ensures Read(env, t.(idCount := n), t.(idCount := n), e, n, n)
  {
    assert Filled(t.(idCount := n), e, n, n) && Indexed(t.(idCount := n), e, n);
  }

  lemma EntriesLossless(env: Env, s: State)
    requires IdsOk(s) && EitherOr(s) && AddrsOk(s) && TriedTableOk(env, s)
    ensures Lossless(env, s.key, Entries(s), |NewList(s.infos, s.idCount)|)
  {
    EntriesDistinct(s);
    EntriesSlots(env, s);
  }

  lemma LoadListsReads(env: Env, start: State, news: seq<SavedInfo>, trieds: seq<SavedInfo>)
    requires Blank(start) && Lossless(env, start.key, news + trieds, |news|)
    ensures var t1 := Fold(NewReader(env, true), start, news).(idCount := |news|);
      && Read(env, t1, Fold(TriedReader(env), t1, trieds), news + trieds, |news|, |news + trieds|)
      && SameTables(start.(idCount := |news|), t1)
  {
    LoadNewReads(env, start, news, news + trieds);
    TriedComesNext(env, start, Fold(NewReader(env, true), start, news), news + trieds, |news|);
    var t1 := Fold(NewReader(env, true), start, news).(idCount := |news|);
    ReaderSteps(env, t1, trieds, news + trieds, |news|);
    LoadTriedReads(env, t1, trieds, news + trieds, |news|);
  }

  lemma LoadEntriesReads(env: Env, s: State)
    requires IdsOk(s) && EitherOr(s) && AddrsOk(s) && TriedTableOk(env, s)
    requires forall sl | sl in s.newTable :: s.newTable[sl] >= 0
    requires s.nNew == |NewList(s.infos, s.idCount)| && s.nTried == |TriedList(s.infos, s.idCount)|
    ensures EntriesRead(env, s, LoadEntries(env, Save(s), true))
  {
    var m := Save(s);
    EntriesLossless(env, s);
    LoadListsReads(env, EmptyState(m.key).(nNew := |m.newInfos|, nTried := |m.triedInfos|), m.newInfos, m.triedInfos);
  }

  // --------------------------------------------------------- reading buckets

  /** A slot comes before position i of bucket b in the written order. */
  predicate Before(sl: Slot, b: int, i: int) { sl.0 < b || (sl.0 == b && sl.1 < i) }

  /** The slots written so far are back, under the new numbers. */
  ghost predicate SlotsBack(s: State, t: State, b: int, i: int)
    requires IdsOk(s)
  {
    && (forall sl | sl in t.newTable ::
          && sl in s.newTable && Before(sl, b, i)
          && s.newTable[sl] in s.infos && t.newTable[sl] == Renumber(s, s.newTable[sl]))
    && (forall sl | sl in s.newTable && Before(sl, b, i) :: sl in t.newTable)
  }

  /** What the saved manager has to satisfy. */
  ghost predicate Sound(env: Env, s: State) {
    && IdsOk(s) && EitherOr(s) && AddrsOk(s) && TriedTableOk(env, s) && NewTableOk(env, s) && RefsOk(s)
    && RangeOk(s, {})
  }

  /** Everything but the "new" table, which is being read. */
  ghost predicate EntriesThere(env: Env, s: State, t: State) {
    && s.idCount >= 0
    && var e, n := Entries(s), |NewList(s.infos, s.idCount)|;
       && Filled(t, e, n, |e|) && TriedFilled(env, t, e, n, |e|) && Indexed(t, e, |e|)
       && t.key == s.key && t.idCount == |e| && t.nNew == n && t.nTried == |e| - n
  }

  ghost predicate Restoring(env: Env, s: State, t: State, b: int, i: int) {
    IdsOk(s) && EntriesThere(env, s, t) && RefsOk(t) && SlotsBack(s, t, b, i)
  }

  /** The entry at its new number is the old entry. */
  lemma EntryThere(env: Env, s: State, t: State, id: int)
    requires IdsOk(s) && EitherOr(s) && EntriesThere(env, s, t) && id in s.infos
    ensures var k := Renumber(s, id);
      && k in t.infos && (k < t.nNew <==> !s.infos[id].inTried)
      && t.infos[k] == FromSaved(ToSaved(s.infos[id]), s.infos[id].inTried, k).(refCount := t.infos[k].refCount)
  {
    RenumberAt(s, id);
  }

  /** While a slot of an entry is still to come, the entry has a reference to spare. */
  lemma RoomLeft(env: Env, s: State, t: State, b: int, i: int)
    requires Sound(env, s) && Restoring(env, s, t, b, i) && (b, i) in s.newTable
    requires Renumber(s, s.newTable[(b, i)]) in t.infos
    ensures t.infos[Renumber(s, s.newTable[(b, i)])].refCount < NEW_BUCKETS_PER_ADDRESS
  {
    var id := s.newTable[(b, i)];
    var k := Renumber(s, id);
    forall sl | sl in Refs(t.newTable, k) ensures sl in Refs(s.newTable, id) - {(b, i)} {
      RenumberInjective(s, s.newTable[sl], id);
    }
    SubsetSize(Refs(t.newTable, k), Refs(s.newTable, id) - {(b, i)});
    assert (b, i) in Refs(s.newTable, id);
  }

  lemma RefEntriesThere(env: Env, s: State, t: State, sl: Slot, k: int)
    requires EntriesThere(env, s, t) && k in t.infos
    ensures EntriesThere(env, s, Ref(t, sl, k))
  {
  }

  lemma RefSlotsBack(s: State, t: State, b: int, i: int)
    requires IdsOk(s) && SlotsBack(s, t, b, i) && (b, i) in s.newTable && s.newTable[(b, i)] in s.infos
    requires Renumber(s, s.newTable[(b, i)]) in t.infos
    ensures SlotsBack(s, Ref(t, (b, i), Renumber(s, s.newTable[(b, i)])), b, i + 1)
  {
  }

  /** Reading the number written for a slot refills exactly that slot. */
  lemma LoadIndexIsRef(env: Env, s: State, t: State, b: int, i: int)
    requires Sound(env, s) && Restoring(env, s, t, b, i) && (b, i) in s.newTable
    ensures var k := Renumber(s, s.newTable[(b, i)]);
      k in t.infos && (b, i) !in t.newTable && LoadIndex(env, t, b, k) == Ref(t, (b, i), k)
  {
    EntryThere(env, s, t, s.newTable[(b, i)]);
    RoomLeft(env, s, t, b, i);
  }

  lemma IndexStep(env: Env, s: State, t: State, b: int, i: int)
    requires Sound(env, s) && Restoring(env, s, t, b, i) && (b, i) in s.newTable
    ensures Restoring(env, s, LoadIndex(env, t, b, Renumber(s, s.newTable[(b, i)])), b, i + 1)
  {
    var k := Renumber(s, s.newTable[(b, i)]);
    LoadIndexIsRef(env, s, t, b, i);
    RefEntriesThere(env, s, t, (b, i), k);
    RefSlotsBack(s, t, b, i);
    RefRefs(t, (b, i), k);
  }

  lemma GapStep(env: Env, s: State, t: State, b: int, i: int)
    requires Restoring(env, s, t, b, i) && (b, i) !in s.newTable
    ensures Restoring(env, s, t, b, i + 1)
  {
  }

  lemma BucketStep(env: Env, s: State, t: State, t1: State, b: int, i: nat)
    requires Sound(env, s) && Restoring(env, s, t1, b, i) && forall sl | sl in s.newTable :: s.newTable[sl] >= 0
    requires t1 == Fold(IndexReader(env, b), t, BucketList(s, b, i))
    ensures Restoring(env, s, Fold(IndexReader(env, b), t, BucketList(s, b, i + 1)), b, i + 1)
  {
    if (b, i) in s.newTable {
      IndexStep(env, s, t1, b, i);
      FoldNext(IndexReader(env, b), t, BucketList(s, b, i), Renumber(s, s.newTable[(b, i)]));
    } else {
      GapStep(env, s, t1, b, i);
      assert BucketList(s, b, i + 1) == BucketList(s, b, i);
    }
  }

  /** The slots in the written order are all back up to position i of bucket b. */
  ghost predicate BackTo(env: Env, s: State, t: State, b: int, i: nat)
    requires forall sl | sl in s.newTable :: s.newTable[sl] >= 0
  {
    Restoring(env, s, Fold(IndexReader(env, b), t, BucketList(s, b, i)), b, i)
  }

  lemma {:induction false} BucketReads(env: Env, s: State, t: State, b: int, i: nat)
    requires Sound(env, s) && Restoring(env, s, t, b, 0) && forall sl | sl in s.newTable :: s.newTable[sl] >= 0
    ensures BackTo(env, s, t, b, i)
  {
    if i > 0 {
      BucketReads(env, s, t, b, i - 1);
      BucketStep(env, s, t, Fold(IndexReader(env, b), t, BucketList(s, b, i - 1)), b, i - 1);
    }
  }

  lemma BucketEnd(env: Env, s: State, t: State, b: int)
    requires NewTableOk(env, s) && Restoring(env, s, t, b, BUCKET_SIZE)
    ensures Restoring(env, s, t, b + 1, 0)
  {
  }

  lemma BucketsRead(env: Env, s: State, t: State)
    requires Sound(env, s) && Restoring(env, s, t, 0, 0) && forall sl | sl in s.newTable :: s.newTable[sl] >= 0
    ensures Restoring(env, s, Fold(BucketReader(env), t, BucketLists(s, NEW_BUCKET_COUNT)), NEW_BUCKET_COUNT, 0)
  {
    var lists := BucketLists(s, NEW_BUCKET_COUNT);
    var inv := (t: State, b: nat) => Restoring(env, s, t, b, 0);
    forall t, b: nat | b < |lists| && inv(t, b) ensures inv(BucketReader(env)(t, b, lists[b]), b + 1) {
      BucketReads(env, s, t, b, BUCKET_SIZE);
      BucketEnd(env, s, Fold(IndexReader(env, b), t, lists[b]), b);
    }
    FoldKeeps(BucketReader(env), t, lists, inv);
  }

  // --------------------------------------------------------------- the result

  /** Every entry is back, with its reference count; only the memory-only times are reset. */
  ghost predicate SameEntries(s: State, t: State)
    requires IdsOk(s)
  {
    && |t.infos| == |s.infos|
    && forall id | id in s.infos ::
         && Renumber(s, id) in t.infos
         && t.infos[Renumber(s, id)] ==
              s.infos[id].(lastTry := 0, lastCountAttempt := 0, randomPos := t.infos[Renumber(s, id)].randomPos)
  }

  /** A table holds the same entries in the same slots. */
  ghost predicate SameSlots(s: State, before: Table, after: Table)
    requires IdsOk(s)
  {
    && after.Keys == before.Keys
    && forall sl | sl in before :: before[sl] in s.infos && after[sl] == Renumber(s, before[sl])
  }

  ghost predicate SameAddrs(s: State, t: State)
    requires IdsOk(s)
  {
    && t.addrs.Keys == s.addrs.Keys
    && forall a | a in s.addrs :: s.addrs[a] in s.infos && t.addrs[a] == Renumber(s, s.addrs[a])
  }

  /** The same manager under new numbers; what is lost is memory-only times and the random order. */
  ghost predicate Restored(s: State, t: State)
    requires IdsOk(s)
  {
    && t.key == s.key && t.nNew == s.nNew && t.nTried == s.nTried
    && SameEntries(s, t) && SameAddrs(s, t)
    && SameSlots(s, s.newTable, t.newTable) && SameSlots(s, s.triedTable, t.triedTable)
  }

  /** Every slot is back, so every reference is. */
  lemma RefsBack(env: Env, s: State, t: State, id: int)
    requires Sound(env, s) && Restoring(env, s, t, NEW_BUCKET_COUNT, 0) && id in s.infos
    ensures Refs(t.newTable, Renumber(s, id)) == Refs(s.newTable, id)
  {
    forall sl | sl in Refs(t.newTable, Renumber(s, id)) ensures sl in Refs(s.newTable, id) {
      RenumberInjective(s, s.newTable[sl], id);
    }
  }

  lemma EntriesBack(env: Env, s: State, t: State, id: int)
    requires Sound(env, s) && Restoring(env, s, t, NEW_BUCKET_COUNT, 0) && id in s.infos
    ensures var k := Renumber(s, id);
      && k in t.infos
      && t.infos[k] == s.infos[id].(lastTry := 0, lastCountAttempt := 0, randomPos := k)
  {
    EntryThere(env, s, t, id);
    RefsBack(env, s, t, id);
  }

  lemma AddrsBack(env: Env, s: State, t: State)
    requires Sound(env, s) && EntriesThere(env, s, t)
    ensures SameAddrs(s, t)
  {
    var e := Entries(s);
    forall a | a in s.addrs ensures a in t.addrs && t.addrs[a] == Renumber(s, s.addrs[a]) {
      RenumberAt(s, s.addrs[a]);
    }
    forall a | a in t.addrs ensures a in s.addrs {
      var id := RenumberFrom(s, t.addrs[a]);
      RenumberAt(s, id);
    }
  }

  lemma TriedBack(env: Env, s: State, t: State)
    requires Sound(env, s) && EntriesThere(env, s, t)
    ensures SameSlots(s, s.triedTable, t.triedTable)
  {
    forall sl | sl in s.triedTable ensures sl in t.triedTable && t.triedTable[sl] == Renumber(s, s.triedTable[sl]) {
      RenumberAt(s, s.triedTable[sl]);
    }
    forall sl | sl in t.triedTable ensures sl in s.triedTable {
      var id := RenumberFrom(s, t.triedTable[sl]);
      RenumberAt(s, id);
    }
  }

  lemma FilledIds(t: State, e: seq<SavedInfo>, n: nat)
    requires Filled(t, e, n, |e|) && n <= |e|
    ensures |NewIds(t.infos)| == n && |TriedIds(t.infos)| == |e| - n && |t.infos| == |e|
  {
    forall k | k in t.infos ensures t.infos[k].inTried <==> n <= k {
    }
    forall k | 0 <= k < |e| ensures k in t.infos {
    }
    assert NewIds(t.infos) == Interval(0, n);
    assert TriedIds(t.infos) == Interval(n, |e|);
    assert t.infos.Keys == Interval(0, |e|);
  }

  lemma SavedCounts(s: State)
    requires IdsOk(s) && EitherOr(s)
    ensures |NewList(s.infos, s.idCount)| == |NewIds(s.infos)| && |TriedList(s.infos, s.idCount)| == |TriedIds(s.infos)|
    ensures |Entries(s)| == |s.infos|
  {
    ListLength(s.infos, s.idCount, false);
    ListLength(s.infos, s.idCount, true);
    assert ChosenBelow(s.infos, s.idCount, false) == NewIds(s.infos);
    assert ChosenBelow(s.infos, s.idCount, true) == TriedIds(s.infos);
    assert s.infos.Keys == NewIds(s.infos) + TriedIds(s.infos);
    assert NewIds(s.infos) !! TriedIds(s.infos);
  }

  /** As many entries and as many of each kind as before. */
  lemma CountsBack(env: Env, s: State, t: State)
    requires IdsOk(s) && EitherOr(s) && CountsOk(s, 0) && EntriesThere(env, s, t)
    ensures t.nNew == s.nNew && t.nTried == s.nTried && |t.infos| == |s.infos| && CountsOk(t, 0)
  {
    SavedCounts(s);
    FilledIds(t, Entries(s), t.nNew);
  }

  lemma NewBack(env: Env, s: State, t: State)
    requires Sound(env, s) && Restoring(env, s, t, NEW_BUCKET_COUNT, 0)
    ensures SameSlots(s, s.newTable, t.newTable)
  {
    assert t.newTable.Keys == s.newTable.Keys;
  }

  lemma InfosBack(env: Env, s: State, t: State)
    requires Sound(env, s) && CountsOk(s, 0) && Restoring(env, s, t, NEW_BUCKET_COUNT, 0)
    ensures SameEntries(s, t)
  {
    CountsBack(env, s, t);
    forall id | id in s.infos
      ensures Renumber(s, id) in t.infos
      ensures t.infos[Renumber(s, id)] == s.infos[id].(lastTry := 0, lastCountAttempt := 0, randomPos := Renumber(s, id))
    {
      EntriesBack(env, s, t, id);
    }
  }

  // ---------------------------------------------- and it satisfies the invariant

  lemma IndexBack(env: Env, s: State, t: State)
    requires EntriesThere(env, s, t)
    ensures IndexOk(t)
  {
  }

  lemma TablesBack(env: Env, s: State, t: State)
    requires Sound(env, s) && Restoring(env, s, t, NEW_BUCKET_COUNT, 0)
    ensures NewTableOk(env, t) && TriedTableOk(env, t)
  {
    forall sl | sl in t.newTable
      ensures t.newTable[sl] in t.infos && !t.infos[t.newTable[sl]].inTried
      ensures 0 <= sl.0 < NEW_BUCKET_COUNT && sl.1 == BucketPosition(env, t.key, true, sl.0, t.infos[t.newTable[sl]].service)
    {
      EntriesBack(env, s, t, s.newTable[sl]);
    }
  }

  lemma RangeBack(env: Env, s: State, t: State)
    requires Sound(env, s) && Restoring(env, s, t, NEW_BUCKET_COUNT, 0)
    ensures RangeOk(t, {})
  {
    forall k | k in t.infos && !t.infos[k].inTried ensures 1 <= t.infos[k].refCount <= NEW_BUCKETS_PER_ADDRESS {
      var id := RenumberFrom(s, k);
      EntriesBack(env, s, t, id);
    }
  }

  lemma InvSound(env: Env, s: State)
    requires Inv(env, s)
    ensures Sound(env, s) && forall sl | sl in s.newTable :: s.newTable[sl] >= 0
  {
    forall id | id in s.infos ensures s.infos[id].refCount != 0 <==> !s.infos[id].inTried {
      if s.infos[id].inTried {
        assert Refs(s.newTable, id) == {};
      }
    }
  }

  lemma {:induction false} NothingToPrune(t: State, n: nat)
    requires RandomOk(t) && RangeOk(t, {})
    ensures Prune(t, n) == t
  {
    if n > 0 {
      NothingToPrune(t, n - 1);
    }
  }

  lemma SlotBound(t: Table, ids: set<int>, buckets: nat)
    requires forall sl | sl in t :: 0 <= sl.0 < buckets && 0 <= sl.1 < BUCKET_SIZE
    requires ids <= Values(t)
    ensures |ids| <= buckets * BUCKET_SIZE
  {
    SubsetSize(ids, Values(t));
    ValuesAtMost(t);
    assert t.Keys <= Grid(buckets, BUCKET_SIZE);
    SubsetSize(t.Keys, Grid(buckets, BUCKET_SIZE));
  }

  /** The limits Unserialize enforces are never exceeded. */
  lemma NewWithinLimit(env: Env, s: State)
    requires NewTableOk(env, s) && RefsOk(s) && RangeOk(s, {})
    ensures |NewIds(s.infos)| <= NEW_BUCKET_COUNT * BUCKET_SIZE
  {
    forall id | id in NewIds(s.infos) ensures id in Values(s.newTable) {
      assert Refs(s.newTable, id) != {};
      var sl :| sl in Refs(s.newTable, id);
    }
    SlotBound(s.newTable, NewIds(s.infos), NEW_BUCKET_COUNT);
  }

  lemma TriedWithinLimit(env: Env, s: State)
    requires TriedTableOk(env, s) && IdsOk(s)
    ensures |TriedIds(s.infos)| <= TRIED_BUCKET_COUNT * BUCKET_SIZE
  {
    forall id | id in TriedIds(s.infos) ensures id in Values(s.triedTable) {
      assert SlotId(s.triedTable, TriedSlot(env, s.key, s.infos[id].service)) == id;
    }
    SlotBound(s.triedTable, TriedIds(s.infos), TRIED_BUCKET_COUNT);
  }

  /** The state just before pruning. */
  lemma ReadingBackRestores(env: Env, s: State)
    requires Sound(env, s) && forall sl | sl in s.newTable :: s.newTable[sl] >= 0
    requires s.nNew == |NewList(s.infos, s.idCount)| && s.nTried == |TriedList(s.infos, s.idCount)|
    ensures var m := Save(s);
      Restoring(env, s, Fold(BucketReader(env), LoadEntries(env, m, true), m.buckets), NEW_BUCKET_COUNT, 0)
  {
    var t := LoadEntries(env, Save(s), true);
    LoadEntriesReads(env, s);
    assert RefsOk(t) by {
      forall k | k in t.infos ensures t.infos[k].refCount == |Refs(t.newTable, k)| {
        assert Refs(t.newTable, k) == {};
      }
    }
    assert SlotsBack(s, t, 0, 0);
    BucketsRead(env, s, t);
  }

  lemma RestoringInv(env: Env, s: State, t: State)
    requires Sound(env, s) && CountsOk(s, 0) && Restoring(env, s, t, NEW_BUCKET_COUNT, 0)
    ensures Inv(env, t)
  {
    IndexBack(env, s, t);
    TablesBack(env, s, t);
    RangeBack(env, s, t);
    CountsBack(env, s, t);
  }

  lemma RestoringRestored(env: Env, s: State, t: State)
    requires Sound(env, s) && CountsOk(s, 0) && Restoring(env, s, t, NEW_BUCKET_COUNT, 0)
    ensures Restored(s, t)
  {
    CountsBack(env, s, t);
    AddrsBack(env, s, t);
    TriedBack(env, s, t);
    NewBack(env, s, t);
    InfosBack(env, s, t);
  }

  /** What is written is accepted, and all of it is read. */
  lemma SavedIsLoaded(env: Env, s: State, t: State)
    requires IdsOk(s) && forall sl | sl in s.newTable :: s.newTable[sl] >= 0
    requires s.nNew == |NewList(s.infos, s.idCount)| <= NEW_BUCKET_COUNT * BUCKET_SIZE
    requires s.nTried == |TriedList(s.infos, s.idCount)| <= TRIED_BUCKET_COUNT * BUCKET_SIZE
    requires t == Fold(BucketReader(env), LoadEntries(env, Save(s), true), Save(s).buckets)
    ensures Listed(t) && Load(env, Save(s)) == Some(Prune(t, Ids(t)))
  {
    var m := Save(s);
    SavedAccepted(s);
    LoadEntriesListed(env, m, true);
    LoadBucketsListed(env, LoadEntries(env, m, true), m.buckets);
    assert m.buckets[..NEW_BUCKET_COUNT] == m.buckets;
    assert Load(env, m) == Some(LoadAll(env, m, true));
  }

  lemma SavedAccepted(s: State)
    requires IdsOk(s) && forall sl | sl in s.newTable :: s.newTable[sl] >= 0
    requires s.nNew == |NewList(s.infos, s.idCount)| <= NEW_BUCKET_COUNT * BUCKET_SIZE
    requires s.nTried == |TriedList(s.infos, s.idCount)| <= TRIED_BUCKET_COUNT * BUCKET_SIZE
    ensures var m := Save(s);
      && !Refused(m) && BucketCount(m) == NEW_BUCKET_COUNT
      && m.version == 1 && m.keySize == 32 && m.bucketCount == 0x4000_0400 && |m.buckets| == 1024
  {
    assert FlipBit30(FlipBit30(NEW_BUCKET_COUNT)) == NEW_BUCKET_COUNT;
  }

  lemma RoundTripFrom(env: Env, s: State)
    requires Sound(env, s) && CountsOk(s, 0) && forall sl | sl in s.newTable :: s.newTable[sl] >= 0
    ensures var r := Load(env, Save(s)); r.Some? && Inv(env, r.value) && Restored(s, r.value)
  {
    var t := Fold(BucketReader(env), LoadEntries(env, Save(s), true), Save(s).buckets);
    SavedCounts(s);
    NewWithinLimit(env, s);
    TriedWithinLimit(env, s);
    SavedIsLoaded(env, s, t);
    ReadingBackRestores(env, s);
    RestoringInv(env, s, t);
    RestoringRestored(env, s, t);
    NothingToPrune(t, Ids(t));
  }

  /** Reading back what was written never fails, loses and prunes nothing, and gives the same manager
      under new numbers, with the invariant restored. */
  lemma RoundTrip(env: Env, s: State)
    requires Inv(env, s)
    ensures IdsOk(s) && forall sl | sl in s.newTable :: s.newTable[sl] >= 0
    ensures var r := Load(env, Save(s)); r.Some? && Inv(env, r.value) && Restored(s, r.value)
  {
    InvSound(env, s);
    RoundTripFrom(env, s);
  }

  /** The numbering is one to one, so no two entries are merged. */
  lemma RenumberOneToOne(env: Env, s: State, a: int, b: int)
    requires Inv(env, s) && a in s.infos && b in s.infos && Renumber(s, a) == Renumber(s, b)
    ensures a == b
  {
    InvSound(env, s);
    RenumberInjective(s, a, b);
  }
}
