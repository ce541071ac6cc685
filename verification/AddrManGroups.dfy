/**
 What the two-stage hashing of buckets is for: the addresses of one group can fill only a few "tried" buckets, and the
 announcements of one group of sources can touch only a few "new" ones.
 */
module AddrManGroups {
  import opened Counting
  import opened AddrManModel
  import opened AddrManOps
  import opened AddrManTheorems

  type Hasher = seq<HashItem> -> nat

  /** The values of a function below n. */
  ghost function Image(f: int -> int, n: nat): set<int> { set k | 0 <= k < n :: f(k) }

  lemma {:induction false} ImageSize(f: int -> int, n: nat)
    ensures |Image(f, n)| <= n
  {
    if n > 0 {
      ImageSize(f, n - 1);
      assert Image(f, n) == Image(f, n - 1) + {f(n - 1)};
    }
  }

  /** The second stage of the hash: a bucket for a group and a small number. */
  function InGroup(h: Hasher, key: nat, group: seq<int>, count: nat): int -> int
    requires count > 0
  {
    n => h([KeyItem(key), GroupItem(group), NumberItem(n)]) % count
  }

  /** The "tried" buckets of an address group. */
  ghost function TriedBuckets(h: Hasher, key: nat, group: seq<int>): set<int> {
    Image(InGroup(h, key, group, TRIED_BUCKET_COUNT), TRIED_BUCKETS_PER_GROUP)
  }

  /** The "new" buckets of a group of sources. */
  ghost function NewBuckets(h: Hasher, key: nat, group: seq<int>): set<int> {
    Image(InGroup(h, key, group, NEW_BUCKET_COUNT), NEW_BUCKETS_PER_SOURCE_GROUP)
  }

  /** There are at most 8 of the one and 64 of the other. */
  lemma FewBuckets(h: Hasher, key: nat, group: seq<int>)
    ensures |TriedBuckets(h, key, group)| <= TRIED_BUCKETS_PER_GROUP
    ensures |NewBuckets(h, key, group)| <= NEW_BUCKETS_PER_SOURCE_GROUP
  {
    ImageSize(InGroup(h, key, group, TRIED_BUCKET_COUNT), TRIED_BUCKETS_PER_GROUP);
    ImageSize(InGroup(h, key, group, NEW_BUCKET_COUNT), NEW_BUCKETS_PER_SOURCE_GROUP);
  }

  /** The group decides on the set of buckets, and the rest of the address on one of the set. */
  lemma BucketsByGroup(h: Hasher, group: NetAddr -> seq<int>, routable: NetAddr -> bool, key: nat, svc: Service, source: NetAddr)
    ensures TriedBucket(SourceEnv(h, group, routable), key, svc) in TriedBuckets(h, key, group(svc.host))
    ensures NewBucket(SourceEnv(h, group, routable), key, svc, source) in NewBuckets(h, key, group(source))
    ensures TriedBucket(SourceEnv(h, group, routable), key, svc) ==
            InGroup(h, key, group(svc.host), TRIED_BUCKET_COUNT)(h([KeyItem(key), ServiceItem(svc)]) % 8)
    ensures NewBucket(SourceEnv(h, group, routable), key, svc, source) ==
            InGroup(h, key, group(source), NEW_BUCKET_COUNT)(h([KeyItem(key), GroupItem(group(svc.host)), GroupItem(group(source))]) % 64)
  {
    var n := h([KeyItem(key), ServiceItem(svc)]) % TRIED_BUCKETS_PER_GROUP;
    var m := h([KeyItem(key), GroupItem(group(svc.host)), GroupItem(group(source))]) % NEW_BUCKETS_PER_SOURCE_GROUP;
    assert TriedBucket(SourceEnv(h, group, routable), key, svc) == InGroup(h, key, group(svc.host), TRIED_BUCKET_COUNT)(n);
    assert NewBucket(SourceEnv(h, group, routable), key, svc, source) == InGroup(h, key, group(source), NEW_BUCKET_COUNT)(m);
  }

  /** An address is announced to the same "new" bucket as any other of its group, by any source of one group. */
  lemma OneBucketPerGroups(h: Hasher, group: NetAddr -> seq<int>, routable: NetAddr -> bool, key: nat,
                           svc: Service, source: NetAddr, svc': Service, source': NetAddr)
    requires group(svc.host) == group(svc'.host) && group(source) == group(source')
    ensures var env := SourceEnv(h, group, routable); NewBucket(env, key, svc, source) == NewBucket(env, key, svc', source')
  {
    BucketsByGroup(h, group, routable, key, svc, source);
    BucketsByGroup(h, group, routable, key, svc', source');
  }

  /** The "tried" buckets that hold addresses of a group. */
  ghost function TriedOf(s: State, group: NetAddr -> seq<int>, g: seq<int>): set<int> {
    set sl | sl in s.triedTable && s.triedTable[sl] in s.infos && group(s.infos[s.triedTable[sl]].service.host) == g :: sl.0
  }

  /** In every state of every run the tried addresses of one group lie in at most 8 buckets. */
  lemma TriedGroupBound(h: Hasher, group: NetAddr -> seq<int>, routable: NetAddr -> bool, s: State, ops: seq<Op>, g: seq<int>)
    requires Inv(SourceEnv(h, group, routable), s)
    ensures |TriedOf(Run(SourceEnv(h, group, routable), s, ops), group, g)| <= TRIED_BUCKETS_PER_GROUP
  {
    var env := SourceEnv(h, group, routable);
    var t := Run(env, s, ops);
    forall sl | sl in t.triedTable && t.triedTable[sl] in t.infos && group(t.infos[t.triedTable[sl]].service.host) == g
      ensures sl.0 in TriedBuckets(h, t.key, g) {
      var svc := t.infos[t.triedTable[sl]].service;
      BucketsByGroup(h, group, routable, t.key, svc, svc.host);
      assert sl == TriedSlot(env, t.key, svc);
    }
    FewBuckets(h, t.key, g);
    SubsetSize(TriedOf(t, group, g), TriedBuckets(h, t.key, g));
  }

  /** Outside some buckets the tables agree. */
  ghost predicate SameOutside(s: State, s': State, buckets: set<int>) {
    && s'.triedTable == s.triedTable
    && forall sl: Slot | sl.0 !in buckets :: SlotId(s'.newTable, sl) == SlotId(s.newTable, sl)
  }

  lemma PlaceTouches(env: Env, s: State, id: int, source: NetAddr, now: int, buckets: set<int>)
    requires Core(env, s, 0) && id in s.infos && !s.infos[id].inTried
    requires NewBucket(env, s.key, s.infos[id].service, source) in buckets
    ensures SameOutside(s, Place(env, s, id, source, now), buckets)
  {
    var sl := NewSlot(env, s.key, s.infos[id].service, source);
    CorePlaceable(env, s, id, source);
    if SlotId(s.newTable, sl) != id {
      if SlotForTaking(s, sl, id, now) {
        ClearedTable(s, sl);
      } else if s.infos[id].refCount == 0 {
        DeleteRemoves(s, id);
      }
    }
  }

  lemma ClearedTable(s: State, sl: Slot)
    requires RandomOk(s) && (sl in s.newTable ==> s.newTable[sl] in s.infos)
    ensures ClearNew(s, sl).newTable == s.newTable - {sl} && ClearNew(s, sl).triedTable == s.triedTable
  {
    if sl in s.newTable {
      UnrefRandom(s, sl);
      DeleteRemoves(Unref(s, sl), s.newTable[sl]);
    }
  }

  /** One announcement changes nothing outside the buckets of its source's group. */
  lemma AddTouches(h: Hasher, group: NetAddr -> seq<int>, routable: NetAddr -> bool, s: State, addr: Address, source: NetAddr, penalty: int,
                   now: int, dice: nat)
    requires Inv(SourceEnv(h, group, routable), s)
    ensures SameOutside(s, Add(SourceEnv(h, group, routable), s, addr, source, penalty, now, dice).0, NewBuckets(h, s.key, group(source)))
  {
    var env, host := SourceEnv(h, group, routable), addr.service.host;
    var p := if host == source then 0 else penalty;
    if env.routable(host) {
      if Known(s, host) {
        var id := s.addrs[host];
        var info := Refresh(s.infos[id], addr, p, now);
        SetInfoCore(env, s, id, info, 0);
        if MayAddReference(info, addr, dice) {
          BucketsByGroup(h, group, routable, s.key, info.service, source);
          PlaceTouches(env, SetInfo(s, id, info), id, source, now, NewBuckets(h, s.key, group(source)));
        }
      } else {
        RegisterCore(env, s, addr, source, p);
        BucketsByGroup(h, group, routable, s.key, addr.service, source);
        PlaceTouches(env, Register(s, addr, source, p), s.idCount, source, now, NewBuckets(h, s.key, group(source)));
      }
    }
  }

  /** So however many addresses the sources of one group announce, and whatever the manager holds, at most 64 of the 1024
      "new" buckets and none of the "tried" ones change. */
  lemma {:induction false} AnnouncementsTouch(h: Hasher, group: NetAddr -> seq<int>, routable: NetAddr -> bool, s: State, ops: seq<Op>, g: seq<int>)
    requires Inv(SourceEnv(h, group, routable), s)
    requires forall op | op in ops :: op.AddOp? && group(op.source) == g
    ensures |NewBuckets(h, s.key, g)| <= NEW_BUCKETS_PER_SOURCE_GROUP
    ensures SameOutside(s, Run(SourceEnv(h, group, routable), s, ops), NewBuckets(h, s.key, g))
    decreases |ops|
  {
    FewBuckets(h, s.key, g);
    if ops != [] {
      var env, op := SourceEnv(h, group, routable), ops[0];
      AddTouches(h, group, routable, s, op.addr, op.source, op.penalty, op.now, op.dice);
      AnnouncementsTouch(h, group, routable, Next(env, s, op), ops[1..], g);
    }
  }
}
