/**
 The counts of an address manager read back from any record: they are right exactly when the record announced no negative
 ones.
 */
module AddrManCounts {
  import opened Wrappers
  import opened Folding
  import opened AddrManModel
  import opened AddrManOps
  import opened AddrManSerial

  // -------------------------------------------------------- counts never rise

  lemma {:induction false} PruneCounts(s: State, n: nat)
    requires RandomOk(s)
    ensures Prune(s, n).nNew <= s.nNew && Prune(s, n).nTried == s.nTried
  {
    if n > 0 {
      PruneCounts(s, n - 1);
    }
  }

  lemma LoadEntriesCounts(env: Env, m: Saved, usable: bool)
    ensures LoadEntries(env, m, usable).nNew == m.newCount && LoadEntries(env, m, usable).nTried <= m.triedCount
  {
    var start := EmptyState(m.key).(nNew := m.newCount, nTried := m.triedCount);
    var inv := (t: State, n: nat) => t.nNew == m.newCount && t.nTried <= m.triedCount;
    FoldKeeps(NewReader(env, usable), start, Announced(m.newInfos, m.newCount), inv);
    var s1 := Fold(NewReader(env, usable), start, Announced(m.newInfos, m.newCount)).(idCount := m.newCount);
    FoldKeeps(TriedReader(env), s1, Announced(m.triedInfos, m.triedCount), inv);
  }

  lemma LoadBucketCounts(env: Env, s: State, bucket: int, list: seq<int>)
    ensures Fold(IndexReader(env, bucket), s, list).nNew == s.nNew && Fold(IndexReader(env, bucket), s, list).nTried == s.nTried
  {
    FoldKeeps(IndexReader(env, bucket), s, list, (t: State, n: nat) => t.nNew == s.nNew && t.nTried == s.nTried);
  }

  lemma LoadBucketsCounts(env: Env, s: State, lists: seq<seq<int>>)
    ensures Fold(BucketReader(env), s, lists).nNew == s.nNew && Fold(BucketReader(env), s, lists).nTried == s.nTried
  {
    var inv := (t: State, n: nat) => t.nNew == s.nNew && t.nTried == s.nTried;
    forall t, i: nat | i < |lists| && inv(t, i) ensures inv(BucketReader(env)(t, i, lists[i]), i + 1) {
      LoadBucketCounts(env, t, i, lists[i]);
    }
    FoldKeeps(BucketReader(env), s, lists, inv);
  }

  // ------------------------------------------------ counts that are announced right

  /** The entries there are, with so many of each kind still to be read. */
  ghost predicate Counting(s: State, news: int, trieds: int) {
    s.nNew == |NewIds(s.infos)| + news && s.nTried == |TriedIds(s.infos)| + trieds
  }

  lemma AppendCounts(s: State, id: int, info: Info)
    requires id !in s.infos
    ensures NewIds(Append(s, id, info).infos) == NewIds(s.infos) + if info.inTried then {} else {id}
    ensures TriedIds(Append(s, id, info).infos) == TriedIds(s.infos) + if info.inTried then {id} else {}
  {
  }

  lemma RefSame(s: State, sl: Slot, id: int)
    requires id in s.infos
    ensures NewIds(Ref(s, sl, id).infos) == NewIds(s.infos) && TriedIds(Ref(s, sl, id).infos) == TriedIds(s.infos)
  {
  }

  lemma LoadOneCounting(env: Env, s: State, id: int, e: SavedInfo, usable: bool, news: int, trieds: int)
    requires id !in s.infos && Counting(s, news, trieds)
    ensures Counting(LoadOne(env, s, id, e, usable), news - 1, trieds)
  {
    var info := FromSaved(e, false, -1);
    AppendCounts(s, id, info);
    var s1 := Append(s, id, info);
    if !usable {
      RefSame(s1, NewSlot(env, s1.key, s1.infos[id].service, s1.infos[id].source), id);
    }
  }

  lemma LoadOneTriedCounting(env: Env, s: State, e: SavedInfo, news: int, trieds: int)
    requires s.idCount !in s.infos && Counting(s, news, trieds)
    ensures Counting(LoadOneTried(env, s, e), news, trieds - 1)
  {
    AppendCounts(s, s.idCount, FromSaved(e, true, -1));
  }

  lemma OneMore(env: Env, t: State, i: nat, e: SavedInfo, usable: bool, news: int, trieds: int)
    requires Listed(t.(idCount := i)) && Counting(t, news, trieds)
    ensures Listed(LoadOne(env, t, i, e, usable).(idCount := i + 1)) && Counting(LoadOne(env, t, i, e, usable), news - 1, trieds)
  {
    LoadOneListed(env, t, i, e, usable);
    LoadOneCounting(env, t, i, e, usable, news, trieds);
  }

  lemma {:induction false} LoadNewCounting(env: Env, s: State, list: seq<SavedInfo>, usable: bool, news: int, trieds: int)
    requires Listed(s.(idCount := 0)) && Counting(s, news, trieds)
    ensures Listed(Fold(NewReader(env, usable), s, list).(idCount := |list|)) && Counting(Fold(NewReader(env, usable), s, list), news - |list|, trieds)
  {
    if list != [] {
      var n := |list| - 1;
      LoadNewCounting(env, s, list[..n], usable, news, trieds);
      OneMore(env, Fold(NewReader(env, usable), s, list[..n]), n, list[n], usable, news - n, trieds);
    }
  }

  lemma LoadTriedCounting(env: Env, s: State, list: seq<SavedInfo>)
    requires Listed(s) && Counting(s, 0, |list|)
    ensures Counting(Fold(TriedReader(env), s, list), 0, 0)
  {
    var inv := (t: State, n: nat) => Listed(t) && Counting(t, 0, |list| - n);
    forall t, i: nat | i < |list| && inv(t, i) ensures inv(TriedReader(env)(t, i, list[i]), i + 1) {
      LoadOneTriedListed(env, t, list[i]);
      LoadOneTriedCounting(env, t, list[i], 0, |list| - i);
    }
    FoldKeeps(TriedReader(env), s, list, inv);
  }

  lemma LoadEntriesCounting(env: Env, m: Saved, usable: bool)
    requires 0 <= m.newCount <= |m.newInfos| && 0 <= m.triedCount <= |m.triedInfos|
    ensures Counting(LoadEntries(env, m, usable), 0, 0)
  {
    var start := EmptyState(m.key).(nNew := m.newCount, nTried := m.triedCount);
    var news, trieds := Announced(m.newInfos, m.newCount), Announced(m.triedInfos, m.triedCount);
    assert NewIds(start.infos) == {} && TriedIds(start.infos) == {};
    LoadNewCounting(env, start, news, usable, m.newCount, m.triedCount);
    LoadTriedCounting(env, Fold(NewReader(env, usable), start, news).(idCount := m.newCount), trieds);
  }

  lemma LoadIndexCounting(env: Env, s: State, bucket: int, id: int)
    requires Counting(s, 0, 0)
    ensures Counting(LoadIndex(env, s, bucket, id), 0, 0)
  {
    if id in s.infos {
      RefSame(s, (bucket, BucketPosition(env, s.key, true, bucket, s.infos[id].service)), id);
    }
  }

  lemma LoadBucketCounting(env: Env, s: State, bucket: int, list: seq<int>)
    requires Counting(s, 0, 0)
    ensures Counting(Fold(IndexReader(env, bucket), s, list), 0, 0)
  {
    var inv := (t: State, n: nat) => Counting(t, 0, 0);
    forall t, i: nat | i < |list| && inv(t, i) ensures inv(IndexReader(env, bucket)(t, i, list[i]), i + 1) {
      LoadIndexCounting(env, t, bucket, list[i]);
    }
    FoldKeeps(IndexReader(env, bucket), s, list, inv);
  }

  lemma LoadBucketsCounting(env: Env, s: State, lists: seq<seq<int>>)
    requires Counting(s, 0, 0)
    ensures Counting(Fold(BucketReader(env), s, lists), 0, 0)
  {
    var inv := (t: State, n: nat) => Counting(t, 0, 0);
    forall t, i: nat | i < |lists| && inv(t, i) ensures inv(BucketReader(env)(t, i, lists[i]), i + 1) {
      LoadBucketCounting(env, t, i, lists[i]);
    }
    FoldKeeps(BucketReader(env), s, lists, inv);
  }

  lemma DeleteCounting(s: State, id: int)
    requires RandomOk(s) && id in s.infos && !s.infos[id].inTried && Counting(s, 0, 0)
    ensures Counting(Delete(s, id), 0, 0)
  {
    DeleteRemoves(s, id);
    assert TriedIds(Delete(s, id).infos) == TriedIds(s.infos);
    assert NewIds(Delete(s, id).infos) == NewIds(s.infos) - {id};
  }

  lemma {:induction false} PruneCounting(s: State, n: nat)
    requires RandomOk(s) && Counting(s, 0, 0)
    ensures Counting(Prune(s, n), 0, 0)
  {
    if n > 0 {
      PruneCounting(s, n - 1);
      var s1 := Prune(s, n - 1);
      if n - 1 in s1.infos && !s1.infos[n - 1].inTried && s1.infos[n - 1].refCount == 0 {
        DeleteCounting(s1, n - 1);
      }
    }
  }

  /** Whatever else a record says, the manager read from it counts its entries right exactly when no count was negative: such
      a record passes the limits, and breaks the invariant. */
  lemma LoadedCounts(env: Env, m: Saved)
    requires !Refused(m)
    ensures Load(env, m).Some? && (CountsOk(Load(env, m).value, 0) <==> m.newCount >= 0 && m.triedCount >= 0)
  {
    var usable := m.version == 1 && BucketCount(m) == NEW_BUCKET_COUNT;
    var s := LoadEntries(env, m, usable);
    LoadEntriesListed(env, m, usable);
    LoadEntriesCounts(env, m, usable);
    if m.newCount >= 0 && m.triedCount >= 0 {
      LoadEntriesCounting(env, m, usable);
    }
    if usable {
      var lists := m.buckets[..NEW_BUCKET_COUNT];
      LoadBucketsListed(env, s, lists);
      LoadBucketsCounts(env, s, lists);
      if m.newCount >= 0 && m.triedCount >= 0 {
        LoadBucketsCounting(env, s, lists);
      }
      s := Fold(BucketReader(env), s, lists);
    }
    PruneCounts(s, Ids(s));
    if m.newCount >= 0 && m.triedCount >= 0 {
      PruneCounting(s, Ids(s));
    }
  }

  /** The least such record: one "tried" entry after minus one "new" ones.  It is given the id -1, which in its slot reads as
      "empty". */
  lemma NegativeCount(env: Env, key: nat, e: SavedInfo)
    ensures var m := Saved(0, 32, key, -1, 1, 0, [], [e], []);
            var r := Load(env, m);
            r.Some? && -1 in r.value.infos && r.value.infos[-1].inTried && r.value.triedTable == map[] && r.value.nNew == -1
  {
    var m := Saved(0, 32, key, -1, 1, 0, [], [e], []);
    var start := EmptyState(key).(nNew := -1, nTried := 1);
    assert Fold(NewReader(env, false), start, []) == start;
    var s1 := start.(idCount := -1);
    assert [e][..0] == [] && Fold(TriedReader(env), s1, []) == s1;
    assert Fold(TriedReader(env), s1, [e]) == LoadOneTried(env, s1, e);
    assert Announced([e], 1) == [e] && Announced([], -1) == [];
  }
}
