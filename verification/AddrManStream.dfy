/**
 Serialize and Unserialize, as the loops that write and rebuild the manager's fields.  What is written is a record of
 the fields; the stream of bytes below it is not part of this model.
 */
module AddrManStream {
  import opened Folding
  import opened AddrManModel
  import opened AddrManOps
  import opened AddrManSerial
  import opened AddrManRoundTrip
  import opened AddrManTheorems
  import opened AddrMan

  // --------------------------------------------------------------- writing

  /** The counts written beside the lists are right, so the assertions in the loops hold. */
  method Serialize(a: Manager) returns (m: Saved)
    requires a.Valid()
    ensures Sound(a.env, a.Model()) && forall sl | sl in a.newTable :: a.newTable[sl] >= 0
    ensures m == Save(a.Model()) && |m.newInfos| == a.nNew && |m.triedInfos| == a.nTried
  {
    InvSound(a.env, a.Model());
    SavedCounts(a.Model());
    var news, ranks := WriteNew(a);
    var trieds := WriteTried(a);
    var buckets := WriteBuckets(a, ranks);
    m := Saved(1, 32, a.key, a.nNew, a.nTried, FlipBit30(NEW_BUCKET_COUNT), news, trieds, buckets);
  }

  /** The referenced entries in id order, and the number each id is written as. */
  method WriteNew(a: Manager) returns (list: seq<SavedInfo>, ranks: map<int, int>)
    requires a.idCount >= 0
    ensures list == NewList(a.infos, a.idCount)
    ensures forall id | id in a.infos && 0 <= id < a.idCount :: id in ranks && ranks[id] == Rank(a.infos, id)
  {
    list, ranks := [], map[];
    for id := 0 to a.idCount
      invariant list == NewList(a.infos, id)
      invariant forall k | k in a.infos && 0 <= k < id :: k in ranks && ranks[k] == Rank(a.infos, k)
    {
      if id in a.infos {
        ranks := ranks[id := |list|];
        if a.infos[id].refCount != 0 {
          list := list + [ToSaved(a.infos[id])];
        }
      }
    }
  }

  method WriteTried(a: Manager) returns (list: seq<SavedInfo>)
    requires a.idCount >= 0
    ensures list == TriedList(a.infos, a.idCount)
  {
    list := [];
    for id := 0 to a.idCount
      invariant list == TriedList(a.infos, id)
    {
      if id in a.infos && a.infos[id].inTried {
        list := list + [ToSaved(a.infos[id])];
      }
    }
  }

  method WriteBuckets(a: Manager, ranks: map<int, int>) returns (lists: seq<seq<int>>)
    requires a.Shape() && (forall sl | sl in a.newTable :: a.newTable[sl] >= 0)
    requires forall sl | sl in a.newTable :: a.newTable[sl] in ranks && ranks[a.newTable[sl]] == Rank(a.infos, a.newTable[sl])
    ensures lists == BucketLists(a.Model(), NEW_BUCKET_COUNT)
  {
    lists := [];
    for bucket := 0 to NEW_BUCKET_COUNT
      invariant lists == BucketLists(a.Model(), bucket)
    {
      var list := [];
      for i := 0 to BUCKET_SIZE
        invariant list == BucketList(a.Model(), bucket, i)
      {
        if a.vvNew[bucket, i] != -1 {
          assert (bucket, i) in a.newTable;
          list := list + [ranks[a.vvNew[bucket, i]]];
        }
      }
      lists := lists + [list];
    }
  }

  // --------------------------------------------------------------- reading

  method AppendEntry(a: Manager, id: int, info: Info)
    requires a.Shape()
    modifies a
    ensures a.Shape() && a.Model() == Append(old(a.Model()), id, info)
    ensures unchanged(a.vvNew) && unchanged(a.vvTried)
  {
    a.infos := a.infos[id := info.(randomPos := |a.random|)];
    a.addrs := a.addrs[info.service.host := id];
    a.random := a.random + [id];
  }

  method ReadOneNew(a: Manager, id: nat, e: SavedInfo, usable: bool)
    requires a.Shape()
    modifies a, a.vvNew
    ensures a.Shape() && a.Model() == LoadOne(a.env, old(a.Model()), id, e, usable)
  {
    AppendEntry(a, id, FromSaved(e, false, -1));
    if !usable {
      var b := NewBucket(a.env, a.key, e.service, e.source);
      var p := BucketPosition(a.env, a.key, true, b, e.service);
      if a.vvNew[b, p] == -1 {
        a.AddReference(b, p, id);
      }
    }
  }

  method ReadNew(a: Manager, list: seq<SavedInfo>, usable: bool)
    requires a.Shape()
    modifies a, a.vvNew
    ensures a.Shape() && a.Model() == Fold(NewReader(a.env, usable), old(a.Model()), list)
  {
    ghost var start := a.Model();
    for n := 0 to |list|
      invariant a.Shape() && a.Model() == Fold(NewReader(a.env, usable), start, list[..n])
    {
      FoldOn(NewReader(a.env, usable), start, list, n);
      ReadOneNew(a, n, list[n], usable);
    }
    assert list[..|list|] == list;
  }

  /** An entry whose slot is taken is lost; the losses come off the count at the end. */
  method ReadOneTried(a: Manager, e: SavedInfo) returns (lost: bool)
    requires a.Shape()
    modifies a, a.vvTried
    ensures a.Shape()
    ensures a.Model() == LoadOneTried(a.env, old(a.Model()), e).(nTried := old(a.nTried))
    ensures lost == (TriedSlot(a.env, a.key, e.service) in old(a.triedTable))
  {
    var b := TriedBucket(a.env, a.key, e.service);
    var p := BucketPosition(a.env, a.key, false, b, e.service);
    lost := a.vvTried[b, p] != -1;
    if !lost {
      AppendEntry(a, a.idCount, FromSaved(e, true, -1));
      a.SetTried(b, p, a.idCount);
      a.idCount := a.idCount + 1;
    }
  }

  lemma CountAside(env: Env, s: State, e: SavedInfo, count: int)
    ensures LoadOneTried(env, s.(nTried := count), e).(nTried := count) == LoadOneTried(env, s, e).(nTried := count)
    ensures LoadOneTried(env, s, e).nTried == s.nTried - if TriedSlot(env, s.key, e.service) in s.triedTable then 1 else 0
  {
  }

  method ReadTried(a: Manager, list: seq<SavedInfo>)
    requires a.Shape()
    modifies a, a.vvTried
    ensures a.Shape() && a.Model() == Fold(TriedReader(a.env), old(a.Model()), list)
  {
    ghost var start, s := a.Model(), a.Model();
    var lost := 0;
    for n := 0 to |list|
      invariant a.Shape()
      invariant s == Fold(TriedReader(a.env), start, list[..n])
      invariant a.Model() == s.(nTried := start.nTried) && s.nTried == start.nTried - lost
    {
      FoldOn(TriedReader(a.env), start, list, n);
      CountAside(a.env, s, list[n], start.nTried);
      s := LoadOneTried(a.env, s, list[n]);
      var taken := ReadOneTried(a, list[n]);
      if taken {
        lost := lost + 1;
      }
    }
    assert list[..|list|] == list;
    a.nTried := a.nTried - lost;
  }

  method ReadIndex(a: Manager, bucket: nat, id: int)
    requires a.Shape() && bucket < NEW_BUCKET_COUNT
    modifies a, a.vvNew
    ensures a.Shape() && a.Model() == LoadIndex(a.env, old(a.Model()), bucket, id)
  {
    if 0 <= id < a.nNew && id in a.infos {
      var p := BucketPosition(a.env, a.key, true, bucket, a.infos[id].service);
      if a.vvNew[bucket, p] == -1 && a.infos[id].refCount < NEW_BUCKETS_PER_ADDRESS {
        a.AddReference(bucket, p, id);
      }
    }
  }

  method ReadBucket(a: Manager, bucket: nat, list: seq<int>)
    requires a.Shape() && bucket < NEW_BUCKET_COUNT
    modifies a, a.vvNew
    ensures a.Shape() && a.Model() == Fold(IndexReader(a.env, bucket), old(a.Model()), list)
  {
    ghost var start := a.Model();
    for n := 0 to |list|
      invariant a.Shape() && a.Model() == Fold(IndexReader(a.env, bucket), start, list[..n])
    {
      FoldOn(IndexReader(a.env, bucket), start, list, n);
      ReadIndex(a, bucket, list[n]);
    }
    assert list[..|list|] == list;
  }

  method ReadBuckets(a: Manager, lists: seq<seq<int>>)
    requires a.Shape() && |lists| == NEW_BUCKET_COUNT
    modifies a, a.vvNew
    ensures a.Shape() && a.Model() == Fold(BucketReader(a.env), old(a.Model()), lists)
  {
    ghost var start := a.Model();
    for bucket := 0 to |lists|
      invariant a.Shape() && a.Model() == Fold(BucketReader(a.env), start, lists[..bucket])
    {
      FoldOn(BucketReader(a.env), start, lists, bucket);
      ReadBucket(a, bucket, lists[bucket]);
    }
    assert lists[..|lists|] == lists;
  }

  method PruneEntries(a: Manager)
    requires a.Shape() && RandomOk(a.Model())
    modifies a
    ensures a.Shape() && a.Model() == Prune(old(a.Model()), Ids(old(a.Model())))
  {
    ghost var start := a.Model();
    var n := if a.idCount < 0 then 0 else a.idCount;
    for id := 0 to n
      invariant a.Shape() && a.Model() == Prune(start, id)
    {
      if id in a.infos && !a.infos[id].inTried && a.infos[id].refCount == 0 {
        a.DeleteEntry(id);
      }
    }
  }

  /** The manager is cleared first; reading stops with an exception on a wrong key size or too many entries. */
  method Unserialize(a: Manager, m: Saved) returns (thrown: bool)
    requires a.Shape()
    modifies a, a.vvTried, a.vvNew
    ensures a.Shape() && thrown == Load(a.env, m).None?
    ensures !thrown ==> a.Model() == Load(a.env, m).value
  {
    a.Clear(m.key);
    thrown := Refused(m);
    if !thrown {
      Rebuild(a, m, m.version == 1 && BucketCount(m) == NEW_BUCKET_COUNT);
    }
  }

  method Rebuild(a: Manager, m: Saved, usable: bool)
    requires a.Shape() && a.Model() == EmptyState(m.key) && |m.newInfos| >= m.newCount && (usable ==> |m.buckets| >= NEW_BUCKET_COUNT)
    modifies a, a.vvTried, a.vvNew
    ensures a.Shape()
    ensures a.Model() == LoadAll(a.env, m, usable)
  {
    ReadEntries(a, m, usable);
    LoadEntriesListed(a.env, m, usable);
    if usable {
      LoadBucketsListed(a.env, a.Model(), m.buckets[..NEW_BUCKET_COUNT]);
      ReadBuckets(a, m.buckets[..NEW_BUCKET_COUNT]);
    }
    PruneEntries(a);
  }

  method ReadEntries(a: Manager, m: Saved, usable: bool)
    requires a.Shape() && a.Model() == EmptyState(m.key)
    modifies a, a.vvTried, a.vvNew
    ensures a.Shape() && a.Model() == LoadEntries(a.env, m, usable)
  {
    a.nNew, a.nTried := m.newCount, m.triedCount;
    ReadNew(a, Announced(m.newInfos, m.newCount), usable);
    a.idCount := m.newCount;
    ReadTried(a, Announced(m.triedInfos, m.triedCount));
  }

  /** A manager read back by any other, with whatever it held before: the same entries, buckets and counts under new
      numbers, and every promise about a manager holds of it again. */
  method SaveAndLoad(a: Manager, b: Manager)
    requires a.Valid() && b.Shape() && a.env == b.env
    requires a != b && a.vvNew != b.vvNew && a.vvTried != b.vvTried && a.vvNew != b.vvTried && a.vvTried != b.vvNew
    modifies b, b.vvTried, b.vvNew
    ensures IdsOk(old(a.Model())) && b.Valid() && Restored(old(a.Model()), b.Model())
  {
    RoundTrip(a.env, a.Model());
    var m := Serialize(a);
    var thrown := Unserialize(b, m);
  }
}
