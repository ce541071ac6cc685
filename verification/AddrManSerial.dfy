/**
 Saving and restoring the address manager.

 What is written keeps the entries and the "new" buckets but no ids, no tried table, no address index
 and no random order; reading rebuilds all of them.  A saved manager is the record of the fields in the
 order they are written.  The counts are numbers that may say anything; a list ends where the record ends.
 */
module AddrManSerial {
  import opened Wrappers
  import opened Folding
  import opened AddrManModel
  import opened AddrManOps

  /** The part of an entry that is written. */
  datatype SavedInfo = SavedInfo(
    service: Service,
    services: set<nat>,
    time: int,
    source: NetAddr,
    lastSuccess: int,
    attempts: int)

  datatype Saved = Saved(
    version: int,
    keySize: int,
    key: nat,
    newCount: int,
    triedCount: int,
    bucketCount: int,
    newInfos: seq<SavedInfo>,
    triedInfos: seq<SavedInfo>,
    buckets: seq<seq<int>>)

  /** Exclusive or with 2^30. */
  function FlipBit30(n: int): int {
    if n / 0x4000_0000 % 2 == 1 then n - 0x4000_0000 else n + 0x4000_0000
  }

  function ToSaved(info: Info): SavedInfo {
    SavedInfo(info.service, info.services, info.time, info.source, info.lastSuccess, info.attempts)
  }

  function FromSaved(e: SavedInfo, inTried: bool, pos: int): Info {
    Info(e.service, e.services, e.time, e.source, e.lastSuccess, 0, 0, e.attempts, 0, inTried, pos)
  }

  // --------------------------------------------------------------- writing

  /** The referenced entries with ids below n, in id order. */
  function NewList(infos: map<int, Info>, n: nat): seq<SavedInfo> {
    if n == 0 then []
    else NewList(infos, n - 1) + if n - 1 in infos && infos[n - 1].refCount != 0 then [ToSaved(infos[n - 1])] else []
  }

  function TriedList(infos: map<int, Info>, n: nat): seq<SavedInfo> {
    if n == 0 then []
    else TriedList(infos, n - 1) + if n - 1 in infos && infos[n - 1].inTried then [ToSaved(infos[n - 1])] else []
  }

  /** The number an id is written as: how many referenced ids come before it. */
  function Rank(infos: map<int, Info>, id: nat): nat { |NewList(infos, id)| }

  /** What is written for the first positions of a bucket. */
  function BucketList(s: State, bucket: int, positions: nat): seq<int>
    requires forall sl | sl in s.newTable :: s.newTable[sl] >= 0
  {
    if positions == 0 then []
    else
      var sl := (bucket, positions - 1);
      BucketList(s, bucket, positions - 1) + if sl in s.newTable then [Rank(s.infos, s.newTable[sl])] else []
  }

  function BucketLists(s: State, buckets: nat): (r: seq<seq<int>>)
    requires forall sl | sl in s.newTable :: s.newTable[sl] >= 0
    ensures |r| == buckets
    ensures forall b | 0 <= b < buckets :: r[b] == BucketList(s, b, BUCKET_SIZE)
  {
    if buckets == 0 then [] else BucketLists(s, buckets - 1) + [BucketList(s, buckets - 1, BUCKET_SIZE)]
  }

  function Save(s: State): Saved
    requires s.idCount >= 0
    requires forall sl | sl in s.newTable :: s.newTable[sl] >= 0
  {
    Saved(1, 32, s.key, s.nNew, s.nTried, FlipBit30(NEW_BUCKET_COUNT),
          NewList(s.infos, s.idCount), TriedList(s.infos, s.idCount), BucketLists(s, NEW_BUCKET_COUNT))
  }

  // --------------------------------------------------------------- reading

  /** Append an entry under a given id. */
  function Append(s: State, id: int, info: Info): State {
    s.(infos := s.infos[id := info.(randomPos := |s.random|)],
       addrs := s.addrs[info.service.host := id],
       random := s.random + [id])
  }

  /** Give an entry the slot of its own source when the written buckets cannot be used. */
  function SelfPlace(env: Env, s: State, id: int): State
    requires id in s.infos
  {
    var sl := NewSlot(env, s.key, s.infos[id].service, s.infos[id].source);
    if sl !in s.newTable then Ref(s, sl, id) else s
  }

  /** Read one "new" entry. */
  function LoadOne(env: Env, s: State, id: int, e: SavedInfo, usable: bool): State {
    var s1 := Append(s, id, FromSaved(e, false, -1));
    if usable then s1 else SelfPlace(env, s1, id)
  }

  function NewReader(env: Env, usable: bool): (State, nat, SavedInfo) -> State {
    (s: State, n: nat, e: SavedInfo) => LoadOne(env, s, n, e, usable)
  }

  /** Read one "tried" entry; one whose slot is taken is lost.  After a negative count the ids are negative too, and the
      number -1 in a slot stands for an empty one. */
  function LoadOneTried(env: Env, s: State, e: SavedInfo): State {
    var sl := TriedSlot(env, s.key, e.service);
    if sl in s.triedTable then s.(nTried := s.nTried - 1)
    else
      Append(s, s.idCount, FromSaved(e, true, -1)).(
        triedTable := Put(s.triedTable, sl, s.idCount),
        idCount := s.idCount + 1)
  }

  function TriedReader(env: Env): (State, nat, SavedInfo) -> State {
    (s: State, n: nat, e: SavedInfo) => LoadOneTried(env, s, e)
  }

  /** Read one index of a bucket. */
  function LoadIndex(env: Env, s: State, bucket: int, id: int): State {
    if 0 <= id < s.nNew && id in s.infos then
      var sl := (bucket, BucketPosition(env, s.key, true, bucket, s.infos[id].service));
      if sl !in s.newTable && s.infos[id].refCount < NEW_BUCKETS_PER_ADDRESS then Ref(s, sl, id) else s
    else s
  }

  function IndexReader(env: Env, bucket: int): (State, nat, int) -> State {
    (s: State, n: nat, id: int) => LoadIndex(env, s, bucket, id)
  }

  function BucketReader(env: Env): (State, nat, seq<int>) -> State {
    (s: State, bucket: nat, list: seq<int>) => Fold(IndexReader(env, bucket), s, list)
  }

  // --------- whatever was written, each id read is once in the random order

  /** What pruning needs: each id once in the random order; and what reading needs, that the next id is free. */
  ghost predicate Listed(s: State) { RandomOk(s) && forall id | id in s.infos :: id < s.idCount }

  lemma AppendListed(s: State, id: int, info: Info)
    requires RandomOk(s) && id !in s.infos
    ensures RandomOk(Append(s, id, info))
  {
    var s' := Append(s, id, info);
    forall i | 0 <= i < |s'.random| ensures s'.random[i] in s'.infos && s'.infos[s'.random[i]].randomPos == i {
      if i < |s.random| {
        assert s.random[i] in s.infos;
      }
    }
  }

  lemma LoadOneListed(env: Env, s: State, id: int, e: SavedInfo, usable: bool)
    requires Listed(s.(idCount := id))
    ensures Listed(LoadOne(env, s, id, e, usable).(idCount := id + 1))
  {
    AppendListed(s, id, FromSaved(e, false, -1));
  }

  lemma LoadOneTriedListed(env: Env, s: State, e: SavedInfo)
    requires Listed(s)
    ensures Listed(LoadOneTried(env, s, e))
  {
    AppendListed(s, s.idCount, FromSaved(e, true, -1));
  }

  lemma LoadIndexListed(env: Env, s: State, bucket: int, id: int)
    requires Listed(s)
    ensures Listed(LoadIndex(env, s, bucket, id))
  {
  }

  lemma LoadNewListed(env: Env, s: State, list: seq<SavedInfo>, usable: bool)
    requires Listed(s.(idCount := 0))
    ensures Listed(Fold(NewReader(env, usable), s, list).(idCount := |list|))
  {
    var inv := (t: State, n: nat) => Listed(t.(idCount := n));
    forall t, i: nat | i < |list| && inv(t, i) ensures inv(NewReader(env, usable)(t, i, list[i]), i + 1) {
      LoadOneListed(env, t, i, list[i], usable);
    }
    FoldKeeps(NewReader(env, usable), s, list, inv);
  }

  lemma LoadTriedListed(env: Env, s: State, list: seq<SavedInfo>)
    requires Listed(s)
    ensures Listed(Fold(TriedReader(env), s, list))
  {
    var inv := (t: State, n: nat) => Listed(t);
    forall t, i: nat | i < |list| && inv(t, i) ensures inv(TriedReader(env)(t, i, list[i]), i + 1) {
      LoadOneTriedListed(env, t, list[i]);
    }
    FoldKeeps(TriedReader(env), s, list, inv);
  }

  lemma LoadBucketListed(env: Env, s: State, bucket: int, list: seq<int>)
    requires Listed(s)
    ensures Listed(Fold(IndexReader(env, bucket), s, list))
  {
    var inv := (t: State, n: nat) => Listed(t);
    forall t, i: nat | i < |list| && inv(t, i) ensures inv(IndexReader(env, bucket)(t, i, list[i]), i + 1) {
      LoadIndexListed(env, t, bucket, list[i]);
    }
    FoldKeeps(IndexReader(env, bucket), s, list, inv);
  }

  lemma LoadBucketsListed(env: Env, s: State, lists: seq<seq<int>>)
    requires Listed(s)
    ensures Listed(Fold(BucketReader(env), s, lists))
  {
    var inv := (t: State, n: nat) => Listed(t);
    forall t, i: nat | i < |lists| && inv(t, i) ensures inv(BucketReader(env)(t, i, lists[i]), i + 1) {
      LoadBucketListed(env, t, i, lists[i]);
    }
    FoldKeeps(BucketReader(env), s, lists, inv);
  }

  /** Delete the untried entries among the first n ids that no slot refers to. */
  function Prune(s: State, n: nat): (s': State)
    requires RandomOk(s)
    ensures RandomOk(s')
  {
    if n == 0 then s else
      var s1 := Prune(s, n - 1);
      if n - 1 in s1.infos && !s1.infos[n - 1].inTried && s1.infos[n - 1].refCount == 0 then
        DeleteRandomOk(s1, n - 1);
        Delete(s1, n - 1)
      else s1
  }

  /** As many entries as a count says, none for a negative one. */
  function Announced(list: seq<SavedInfo>, count: int): (r: seq<SavedInfo>)
    ensures count <= |list| ==> |r| == if count < 0 then 0 else count
    ensures count == |list| ==> r == list
  {
    if count <= 0 then [] else if count < |list| then list[..count] else list
  }

  /** The entries, before the buckets are read. */
  function LoadEntries(env: Env, m: Saved, usable: bool): State {
    var start := EmptyState(m.key).(nNew := m.newCount, nTried := m.triedCount);
    var s1 := Fold(NewReader(env, usable), start, Announced(m.newInfos, m.newCount)).(idCount := m.newCount);
    Fold(TriedReader(env), s1, Announced(m.triedInfos, m.triedCount))
  }

  lemma LoadEntriesListed(env: Env, m: Saved, usable: bool)
    requires |m.newInfos| >= m.newCount
    ensures Listed(LoadEntries(env, m, usable))
  {
    var start := EmptyState(m.key).(nNew := m.newCount, nTried := m.triedCount);
    LoadNewListed(env, start, Announced(m.newInfos, m.newCount), usable);
    LoadTriedListed(env, Fold(NewReader(env, usable), start, Announced(m.newInfos, m.newCount)).(idCount := m.newCount),
                    Announced(m.triedInfos, m.triedCount));
  }

  /** The buckets too where they can be used, and no entry left without a reference. */
  function LoadAll(env: Env, m: Saved, usable: bool): State
    requires |m.newInfos| >= m.newCount && (usable ==> |m.buckets| >= NEW_BUCKET_COUNT)
  {
    LoadEntriesListed(env, m, usable);
    var s := LoadEntries(env, m, usable);
    var s' :=
      if usable then
        LoadBucketsListed(env, s, m.buckets[..NEW_BUCKET_COUNT]);
        Fold(BucketReader(env), s, m.buckets[..NEW_BUCKET_COUNT])
      else s;
    Prune(s', Ids(s'))
  }

  /** How many ids can stand for "new" entries. */
  function Ids(s: State): nat { if s.idCount < 0 then 0 else s.idCount }

  function BucketCount(m: Saved): int { if m.version != 0 then FlipBit30(m.bucketCount) else m.bucketCount }

  /** A wrong key size, a count beyond its limit, or fewer entries or bucket lists than announced; surplus ones are never read. */
  predicate Refused(m: Saved) {
    || m.keySize != 32
    || m.newCount > NEW_BUCKET_COUNT * BUCKET_SIZE
    || m.triedCount > TRIED_BUCKET_COUNT * BUCKET_SIZE
    || |m.newInfos| < m.newCount || |m.triedInfos| < m.triedCount || |m.buckets| < BucketCount(m)
  }

  /** Unserialize; None where the source throws. */
  function Load(env: Env, m: Saved): Option<State> {
    if Refused(m) then None
    else Some(LoadAll(env, m, m.version == 1 && BucketCount(m) == NEW_BUCKET_COUNT))
  }
}
