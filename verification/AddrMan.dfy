/**
 CAddrMan itself: the fields, updated in place, and the bucket tables as fixed-size arrays.
 Every method is proved to take the manager from one model state to the next.
 */
module AddrMan {
  import opened Bits
  import opened Folding
  import opened AddrManModel
  import opened AddrManOps
  import opened AddrManTheorems

  /** A bucket array holds a table: -1 marks the free slots. */
  ghost predicate Holds(a: array2<int>, t: Table)
    reads a
  {
    && (forall sl | sl in t :: 0 <= sl.0 < a.Length0 && 0 <= sl.1 < a.Length1 && t[sl] != -1)
    && (forall b, p | 0 <= b < a.Length0 && 0 <= p < a.Length1 :: a[b, p] == SlotId(t, (b, p)))
  }

  /** The id's slots in the first buckets. */
  ghost function Early(t: Table, id: int, buckets: int): set<Slot> {
    set sl | sl in t && t[sl] == id && sl.0 < buckets
  }

  /** An id can be in only one slot of a bucket, so emptying that one empties the bucket of it. */
  lemma EarlyNext(t: Table, id: int, bucket: int, pos: int)
    requires forall sl | sl in t && t[sl] == id && sl.0 == bucket :: sl.1 == pos
    requires id != -1
    ensures var t' := t - Early(t, id, bucket);
      && SlotId(t', (bucket, pos)) == SlotId(t, (bucket, pos))
      && t - Early(t, id, bucket + 1) == (if SlotId(t, (bucket, pos)) == id then t' - {(bucket, pos)} else t')
      && |Early(t, id, bucket + 1)| == |Early(t, id, bucket)| + (if SlotId(t, (bucket, pos)) == id then 1 else 0)
  {
    if SlotId(t, (bucket, pos)) == id {
      assert Early(t, id, bucket + 1) == Early(t, id, bucket) + {(bucket, pos)};
      assert t - Early(t, id, bucket + 1) == t - Early(t, id, bucket) - {(bucket, pos)};
    } else {
      assert Early(t, id, bucket + 1) == Early(t, id, bucket);
    }
  }

  lemma EarlyAll(t: Table, id: int)
    requires forall sl | sl in t :: 0 <= sl.0 < NEW_BUCKET_COUNT
    ensures Early(t, id, 0) == {} && t - Early(t, id, 0) == t
    ensures Early(t, id, NEW_BUCKET_COUNT) == Refs(t, id)
  {
  }

  /** Under the invariant every move Good_ may make is possible, and its bucket search succeeds. */
  lemma GoodReady(env: Env, s: State, svc: Service, time: int)
    requires Inv(env, s)
    ensures KnownExactly(s, svc) && !s.infos[s.addrs[svc.host]].inTried ==>
      var id := s.addrs[svc.host];
      Movable(env, Stamped(s, id, time), id) && Refs(s.newTable, id) != {}
  {
    if KnownExactly(s, svc) && !s.infos[s.addrs[svc.host]].inTried {
      StampedInv(env, s, s.addrs[svc.host], time);
      CoreMovable(env, Stamped(s, s.addrs[svc.host], time), s.addrs[svc.host]);
    }
  }

  /** Under the invariant whatever Add_ decides to do is possible. */
  ghost predicate Addable(env: Env, s: State, addr: Address, source: NetAddr, penalty: int, now: int, dice: nat) {
    var host := addr.service.host;
    if Known(s, host) then
      var id := s.addrs[host];
      var info := Refresh(s.infos[id], addr, penalty, now);
      && info.refCount >= 0
      && (MayAddReference(info, addr, dice) ==> Placeable(env, SetInfo(s, id, info), id, source))
    else
      Placeable(env, Register(s, addr, source, penalty), s.idCount, source)
  }

  lemma AddReady(env: Env, s: State, addr: Address, source: NetAddr, penalty: int, now: int, dice: nat)
    requires Inv(env, s)
    ensures Addable(env, s, addr, source, penalty, now, dice)
  {
    var host := addr.service.host;
    if Known(s, host) {
      var id := s.addrs[host];
      var info := Refresh(s.infos[id], addr, penalty, now);
      assert info.refCount == |Refs(s.newTable, id)|;
      SetInfoCore(env, s, id, info, 0);
      if MayAddReference(info, addr, dice) {
        CorePlaceable(env, SetInfo(s, id, info), id, source);
      }
    } else {
      RegisterCore(env, s, addr, source, penalty);
      CorePlaceable(env, Register(s, addr, source, penalty), s.idCount, source);
    }
  }

  method ClearTable(a: array2<int>)
    modifies a
    ensures Holds(a, map[])
  {
    for bucket := 0 to a.Length0
      invariant forall b, p | 0 <= b < bucket && 0 <= p < a.Length1 :: a[b, p] == -1
    {
      for entry := 0 to a.Length1
        invariant forall b, p | 0 <= b < bucket && 0 <= p < a.Length1 :: a[b, p] == -1
        invariant forall p | 0 <= p < entry :: a[bucket, p] == -1
      {
        a[bucket, entry] := -1;
      }
    }
  }

  class Manager {
    const env: Env
    const vvTried: array2<int>
    const vvNew: array2<int>
    var key: nat
    var idCount: int
    var infos: map<int, Info>
    var addrs: map<NetAddr, int>
    var random: seq<int>
    var nTried: int
    var nNew: int
    var lastGood: int

    ghost var triedTable: Table
    ghost var newTable: Table

    ghost predicate Shape()
      reads this, vvTried, vvNew
    {
      && vvTried != vvNew
      && vvTried.Length0 == TRIED_BUCKET_COUNT && vvTried.Length1 == BUCKET_SIZE
      && vvNew.Length0 == NEW_BUCKET_COUNT && vvNew.Length1 == BUCKET_SIZE
      && Holds(vvTried, triedTable) && Holds(vvNew, newTable)
    }

    ghost function Model(): State
      reads this
    {
      State(key, idCount, infos, addrs, random, nTried, triedTable, nNew, newTable, lastGood)
    }

    ghost predicate Valid()
      reads this, vvTried, vvNew
    {
      Shape() && Inv(env, Model())
    }

    // -------------------------------------------------------- table cells

    /** CAddrMan(): a manager is created cleared. */
    constructor (e: Env, newKey: nat)
      ensures Valid() && Model() == EmptyState(newKey) && env == e && fresh(vvTried) && fresh(vvNew)
    {
      env, key, idCount, infos, addrs, random, nTried, nNew, lastGood := e, newKey, 0, map[], map[], [], 0, 0, 1;
      vvTried := new int[TRIED_BUCKET_COUNT, BUCKET_SIZE]((_, _) => -1);
      vvNew := new int[NEW_BUCKET_COUNT, BUCKET_SIZE]((_, _) => -1);
      triedTable, newTable := map[], map[];
      new;
      EmptyInv(e, newKey);
    }

    /** Clear: whatever the fields held before; the new key is random in the source. */
    method Clear(newKey: nat)
      requires vvTried != vvNew && vvTried.Length0 == TRIED_BUCKET_COUNT && vvNew.Length0 == NEW_BUCKET_COUNT
      requires vvTried.Length1 == BUCKET_SIZE == vvNew.Length1
      modifies this, vvTried, vvNew
      ensures Valid() && Model() == EmptyState(newKey)
    {
      random, key := [], newKey;
      ClearTable(vvNew);
      ClearTable(vvTried);
      idCount, nTried, nNew, lastGood := 0, 0, 0, 1;
      infos, addrs := map[], map[];
      triedTable, newTable := map[], map[];
      EmptyInv(env, newKey);
    }

    method SetNew(b: int, p: int, id: int)
      requires Shape() && 0 <= b < NEW_BUCKET_COUNT && 0 <= p < BUCKET_SIZE
      modifies vvNew, this`newTable
      ensures Shape() && newTable == Put(old(newTable), (b, p), id)
    {
      vvNew[b, p] := id;
      newTable := Put(newTable, (b, p), id);
    }

    method SetTried(b: int, p: int, id: int)
      requires Shape() && 0 <= b < TRIED_BUCKET_COUNT && 0 <= p < BUCKET_SIZE
      modifies vvTried, this`triedTable
      ensures Shape() && triedTable == Put(old(triedTable), (b, p), id)
    {
      vvTried[b, p] := id;
      triedTable := Put(triedTable, (b, p), id);
    }

    // --------------------------------------------------------- primitives

    method CreateEntry(addr: Address, source: NetAddr) returns (id: int)
      requires Shape()
      modifies this
      ensures Shape()
      ensures id == old(idCount) && Model() == Create(old(Model()), addr, source)
    {
      id := idCount;
      idCount := idCount + 1;
      infos := infos[id := Info(addr.service, addr.services, addr.time, source, 0, 0, 0, 0, 0, false, -1)];
      addrs := addrs[addr.service.host := id];
      infos := infos[id := infos[id].(randomPos := |random|)];
      random := random + [id];
    }

    method SwapEntries(i: int, j: int)
      requires Shape() && RandomOk(Model()) && 0 <= i < |random| && 0 <= j < |random|
      modifies this`infos, this`random
      ensures Shape()
      ensures Model() == SwapRandom(old(Model()), i, j)
    {
      if i == j {
        return;
      }
      var id1, id2 := random[i], random[j];
      infos := infos[id1 := infos[id1].(randomPos := j)];
      infos := infos[id2 := infos[id2].(randomPos := i)];
      random := random[i := id2];
      random := random[j := id1];
    }

    method DeleteEntry(id: int)
      requires Shape() && RandomOk(Model()) && id in infos && !infos[id].inTried && infos[id].refCount == 0
      modifies this
      ensures Shape()
      ensures Model() == Delete(old(Model()), id)
    {
      var host := infos[id].service.host;
      SwapEntries(infos[id].randomPos, |random| - 1);
      RemoveLast(id, host);
    }

    method RemoveLast(id: int, host: NetAddr)
      requires Shape() && random != []
      modifies this`random, this`addrs, this`infos, this`nNew
      ensures Shape()
      ensures Model() == old(Model()).(random := old(random)[..|old(random)| - 1], addrs := old(addrs) - {host}, infos := old(infos) - {id},
                                       nNew := old(nNew) - 1)
    {
      random := random[..|random| - 1];
      addrs := addrs - {host};
      infos := infos - {id};
      nNew := nNew - 1;
    }

    /** Drop one reference; the assertion of the source is the third precondition. */
    method Unreference(b: int, p: int)
      requires Shape() && 0 <= b < NEW_BUCKET_COUNT && 0 <= p < BUCKET_SIZE
      requires vvNew[b, p] != -1 && vvNew[b, p] in infos
      requires infos[vvNew[b, p]].refCount > 0
      modifies this, vvNew
      ensures Shape() && (b, p) in old(Model()).newTable && old(Model()).newTable[(b, p)] == old(vvNew[b, p])
      ensures Model() == Unref(old(Model()), (b, p))
    {
      var id := vvNew[b, p];
      infos := infos[id := infos[id].(refCount := infos[id].refCount - 1)];
      SetNew(b, p, -1);
    }

    method ClearNewSlot(b: int, p: int)
      requires Shape() && 0 <= b < NEW_BUCKET_COUNT && 0 <= p < BUCKET_SIZE
      requires RandomOk(Model())
      requires vvNew[b, p] != -1 ==>
        vvNew[b, p] in infos && infos[vvNew[b, p]].refCount > 0 && !infos[vvNew[b, p]].inTried
      modifies this, vvNew
      ensures Shape()
      ensures Model() == ClearNew(old(Model()), (b, p))
      ensures vvNew[b, p] == -1
    {
      if vvNew[b, p] != -1 {
        ghost var s := Model();
        var id := vvNew[b, p];
        UnrefRandom(s, (b, p));
        Unreference(b, p);
        if infos[id].refCount == 0 {
          DeleteEntry(id);
        }
      }
    }

    // --------------------------------------------------------------- Good

    /** Taking an entry out of every "new" bucket leaves its reference count at zero. */
    method DropReferences(id: int)
      requires Shape() && id in infos && id != -1
      requires forall sl | sl in newTable && newTable[sl] == id ::
        sl.1 == BucketPosition(env, key, true, sl.0, infos[id].service)
      requires infos[id].refCount == |Refs(newTable, id)|
      modifies vvNew, this`infos, this`newTable
      ensures Shape()
      ensures Model() == DropRefs(old(Model()), id)
    {
      var info := EmptySlots(id, infos[id]);
      infos := infos[id := info];
    }

    /** The loop over the buckets. */
    method EmptySlots(id: int, start: Info) returns (info: Info)
      requires Shape() && id != -1
      requires forall sl | sl in newTable && newTable[sl] == id :: sl.1 == BucketPosition(env, key, true, sl.0, start.service)
      modifies vvNew, this`newTable
      ensures Shape() && newTable == old(newTable) - Refs(old(newTable), id)
      ensures info == start.(refCount := start.refCount - |Refs(old(newTable), id)|)
    {
      ghost var t := newTable;
      info := start;
      EarlyAll(t, id);
      for bucket := 0 to NEW_BUCKET_COUNT
        invariant Shape() && newTable == t - Early(t, id, bucket)
        invariant info == start.(refCount := start.refCount - |Early(t, id, bucket)|)
      {
        info := DropReference(id, bucket, info, t);
      }
    }

    /** The bucket's slot for the entry, which is the only one that can hold it. */
    method DropReference(id: int, bucket: int, info: Info, ghost t: Table) returns (r: Info)
      requires Shape() && 0 <= bucket < NEW_BUCKET_COUNT && id != -1 && newTable == t - Early(t, id, bucket)
      requires forall sl | sl in t && t[sl] == id :: sl.1 == BucketPosition(env, key, true, sl.0, info.service)
      modifies vvNew, this`newTable
      ensures Shape() && newTable == t - Early(t, id, bucket + 1)
      ensures r == info.(refCount := info.refCount - (|Early(t, id, bucket + 1)| - |Early(t, id, bucket)|))
    {
      r := info;
      var pos := BucketPosition(env, key, true, bucket, info.service);
      EarlyNext(t, id, bucket, pos);
      if vvNew[bucket, pos] == id {
        SetNew(bucket, pos, -1);
        r := info.(refCount := info.refCount - 1);
      }
    }

    method RemoveTried(b: int, p: int)
      requires Shape() && 0 <= b < TRIED_BUCKET_COUNT && 0 <= p < BUCKET_SIZE
      requires vvTried[b, p] != -1 && vvTried[b, p] in infos
      modifies this, vvTried
      ensures Shape() && (b, p) in old(triedTable) && old(triedTable)[(b, p)] == old(vvTried[b, p])
      ensures Model() == Untry(old(Model()), (b, p))
    {
      var out := vvTried[b, p];
      infos := infos[out := infos[out].(inTried := false)];
      SetTried(b, p, -1);
      nTried := nTried - 1;
    }

    method AddReference(b: int, p: int, id: int)
      requires Shape() && 0 <= b < NEW_BUCKET_COUNT && 0 <= p < BUCKET_SIZE && id in infos && id != -1
      modifies vvNew, this`infos, this`newTable
      ensures Shape()
      ensures Model() == Ref(old(Model()), (b, p), id)
    {
      infos := infos[id := infos[id].(refCount := infos[id].refCount + 1)];
      SetNew(b, p, id);
    }

    method SendBackToNew(b: int, p: int)
      requires Shape() && 0 <= b < TRIED_BUCKET_COUNT && 0 <= p < BUCKET_SIZE
      requires vvTried[b, p] != -1 && Evictable(env, Model(), (b, p))
      modifies this, vvTried, vvNew
      ensures Shape()
      ensures Model() == SendBack(env, old(Model()), (b, p))
    {
      var out := vvTried[b, p];
      var nb := NewBucket(env, key, infos[out].service, infos[out].source);
      var np := BucketPosition(env, key, true, nb, infos[out].service);
      RemoveTried(b, p);
      ClearNewSlot(nb, np);
      assert infos[out].refCount == 0;
      AddReference(nb, np, out);
      nNew := nNew + 1;
    }

    method MoveOutOfNew(id: int)
      requires Shape() && id in infos && id != -1
      requires forall sl | sl in newTable && newTable[sl] == id ::
        sl.1 == BucketPosition(env, key, true, sl.0, infos[id].service)
      requires infos[id].refCount == |Refs(newTable, id)|
      modifies this, vvNew
      ensures Shape()
      ensures Model() == MoveOut(old(Model()), id)
    {
      DropReferences(id);
      nNew := nNew - 1;
    }

    method VacateSlot(b: int, p: int)
      requires Shape() && 0 <= b < TRIED_BUCKET_COUNT && 0 <= p < BUCKET_SIZE
      requires (b, p) in triedTable ==> Evictable(env, Model(), (b, p))
      modifies this, vvTried, vvNew
      ensures Shape()
      ensures Model() == Vacate(env, old(Model()), (b, p))
    {
      if vvTried[b, p] != -1 {
        SendBackToNew(b, p);
      }
    }

    method PlaceTried(b: int, p: int, id: int)
      requires Shape() && 0 <= b < TRIED_BUCKET_COUNT && 0 <= p < BUCKET_SIZE && id in infos && id != -1
      modifies this, vvTried
      ensures Shape()
      ensures Model() == Try(old(Model()), (b, p), id)
    {
      SetTried(b, p, id);
      nTried := nTried + 1;
      infos := infos[id := infos[id].(inTried := true)];
    }

    method MakeEntryTried(id: int)
      requires Shape() && Movable(env, Model(), id)
      modifies this, vvTried, vvNew
      ensures Shape()
      ensures Model() == MoveToTried(env, old(Model()), id)
    {
      var kb := TriedBucket(env, key, infos[id].service);
      var kp := BucketPosition(env, key, false, kb, infos[id].service);
      MoveOutOfNew(id);
      VacateSlot(kb, kp);
      PlaceTried(kb, kp, id);
    }

    /** The search for a bucket holding the entry; it cannot come back empty-handed. */
    method FindNewBucket(id: int, start: nat) returns (found: int)
      requires Shape() && id in infos && id != -1 && start < NEW_BUCKET_COUNT
      requires forall sl | sl in newTable && newTable[sl] == id ::
        sl.1 == BucketPosition(env, key, true, sl.0, infos[id].service)
      requires Refs(newTable, id) != {}
      ensures 0 <= found < NEW_BUCKET_COUNT
      ensures vvNew[found, BucketPosition(env, key, true, found, infos[id].service)] == id
    {
      ghost var sl :| sl in Refs(newTable, id);
      found := -1;
      var n := 0;
      while n < NEW_BUCKET_COUNT
        invariant 0 <= n <= (sl.0 - start) % NEW_BUCKET_COUNT
      {
        var b := (n + start) % NEW_BUCKET_COUNT;
        var p := BucketPosition(env, key, true, b, infos[id].service);
        if vvNew[b, p] == id {
          return b;
        }
        assert b != sl.0;
        n := n + 1;
      }
      assert false;
    }

    method Find(host: NetAddr) returns (found: bool, id: int)
      ensures found <==> Known(Model(), host)
      ensures found ==> id == addrs[host]
    {
      if host !in addrs {
        return false, -1;
      }
      return addrs[host] in infos, addrs[host];
    }

    /** Good_, where the moves it may need are known to be possible. */
    method GoodFrom(svc: Service, time: int, rnd: nat)
      requires Shape() && rnd < NEW_BUCKET_COUNT
      requires KnownExactly(Model(), svc) && !infos[addrs[svc.host]].inTried ==>
        var id := addrs[svc.host];
        Movable(env, Stamped(Model(), id, time), id) && Refs(newTable, id) != {}
      modifies this, vvTried, vvNew
      ensures Shape()
      ensures var s := old(Model());
        Model() ==
          if !KnownExactly(s, svc) then s.(lastGood := time)
          else if s.infos[s.addrs[svc.host]].inTried then Stamped(s, s.addrs[svc.host], time)
          else MoveToTried(env, Stamped(s, s.addrs[svc.host], time), s.addrs[svc.host])
    {
      lastGood := time;
      var found, id := Find(svc.host);
      if !found {
        return;
      }
      if infos[id].service != svc {
        return;
      }
      infos := infos[id := infos[id].(lastSuccess := time, lastTry := time, attempts := 0)];
      if infos[id].inTried {
        return;
      }
      var bucket := FindNewBucket(id, rnd);
      MakeEntryTried(id);
    }

    method Good_(svc: Service, time: int, rnd: nat)
      requires Valid() && rnd < NEW_BUCKET_COUNT
      modifies this, vvTried, vvNew
      ensures Valid()
      ensures Model() == Good(env, old(Model()), svc, time)
    {
      GoodReady(env, Model(), svc, time);
      GoodInv(env, Model(), svc, time);
      GoodFrom(svc, time, rnd);
    }

    // ---------------------------------------------------------------- Add

    method SettleInNew(id: int, source: NetAddr, now: int)
      requires Shape() && Placeable(env, Model(), id, source)
      modifies this, vvNew
      ensures Shape()
      ensures Model() == Settle(env, old(Model()), id, source, now)
    {
      var b := NewBucket(env, key, infos[id].service, source);
      var p := BucketPosition(env, key, true, b, infos[id].service);
      if vvNew[b, p] != id {
        var insert := vvNew[b, p] == -1;
        if !insert {
          var existing := infos[vvNew[b, p]];
          if IsTerrible(existing, now) || (existing.refCount > 1 && infos[id].refCount == 0) {
            insert := true;
          }
        }
        if insert {
          ClearNewSlot(b, p);
          AddReference(b, p, id);
        } else if infos[id].refCount == 0 {
          DeleteEntry(id);
        }
      }
    }

    /** Refresh a known entry; the result says whether it goes on to compete for another slot. */
    method RefreshEntry(id: int, addr: Address, penalty: int, now: int, dice: nat) returns (more: bool)
      requires Shape() && id in infos && infos[id].refCount >= 0
      modifies this`infos
      ensures Shape()
      ensures var info := Refresh(old(infos)[id], addr, penalty, now);
        && Model() == SetInfo(old(Model()), id, info)
        && more == MayAddReference(info, addr, dice)
    {
      var online := now - addr.time < 24 * 60 * 60;
      var interval := if online then 60 * 60 else 24 * 60 * 60;
      var info := infos[id];
      if addr.time != 0 && (info.time == 0 || info.time < addr.time - interval - penalty) {
        info := info.(time := Uint32(Max(0, addr.time - penalty)));
      }
      info := info.(services := info.services + addr.services);
      infos := infos[id := info];
      if addr.time == 0 || (info.time != 0 && addr.time <= info.time) {
        return false;
      }
      if info.inTried {
        return false;
      }
      if info.refCount == NEW_BUCKETS_PER_ADDRESS {
        return false;
      }
      var factor := 1;
      for n := 0 to info.refCount
        invariant factor == Pow2(n)
      {
        factor := factor * 2;
      }
      if factor > 1 && RandomInt(dice, factor) != 0 {
        return false;
      }
      return true;
    }

    method RegisterEntry(addr: Address, source: NetAddr, penalty: int) returns (id: int)
      requires Shape()
      modifies this
      ensures Shape() && id == old(idCount)
      ensures Model() == Register(old(Model()), addr, source, penalty)
    {
      id := CreateEntry(addr, source);
      infos := infos[id := infos[id].(time := Uint32(Max(0, infos[id].time - penalty)))];
      nNew := nNew + 1;
    }

    /** Add_, where the placements it may need are known to be possible. */
    method AddFrom(addr: Address, source: NetAddr, penalty: int, now: int, dice: nat) returns (isNew: bool)
      requires Shape()
      requires Addable(env, Model(), addr, source, if addr.service.host == source then 0 else penalty, now, dice)
      modifies this, vvNew
      ensures Shape()
      ensures var s := old(Model());
              var host := addr.service.host;
              var p := if host == source then 0 else penalty;
        if !env.routable(host) then Model() == s && !isNew
        else if Known(s, host) then
          var id := s.addrs[host];
          var info := Refresh(s.infos[id], addr, p, now);
          && !isNew
          && Model() == if MayAddReference(info, addr, dice) then Settle(env, SetInfo(s, id, info), id, source, now)
                        else SetInfo(s, id, info)
        else isNew && Model() == Settle(env, Register(s, addr, source, p), s.idCount, source, now)
    {
      if !env.routable(addr.service.host) {
        return false;
      }
      isNew := false;
      var found, id := Find(addr.service.host);
      var p := if addr.service.host == source then 0 else penalty;
      if found {
        var more := RefreshEntry(id, addr, p, now, dice);
        if !more {
          return false;
        }
      } else {
        id := RegisterEntry(addr, source, p);
        isNew := true;
      }
      SettleInNew(id, source, now);
    }

    method Add_(addr: Address, source: NetAddr, penalty: int, now: int, dice: nat) returns (isNew: bool)
      requires Valid()
      modifies this, vvNew
      ensures Valid()
      ensures (Model(), isNew) == Add(env, old(Model()), addr, source, penalty, now, dice)
    {
      AddReady(env, Model(), addr, source, if addr.service.host == source then 0 else penalty, now, dice);
      AddInv(env, Model(), addr, source, penalty, now, dice);
      isNew := AddFrom(addr, source, penalty, now, dice);
    }

    // -------------------------------------------------- the other updates

    method Attempt_(svc: Service, countFailure: bool, time: int)
      requires Shape()
      modifies this`infos
      ensures Shape()
      ensures Model() == Attempt(old(Model()), svc, countFailure, time)
    {
      var found, id := Find(svc.host);
      if !found || infos[id].service != svc {
        return;
      }
      var info := infos[id].(lastTry := time);
      if countFailure && info.lastCountAttempt < lastGood {
        info := info.(lastCountAttempt := time, attempts := info.attempts + 1);
      }
      infos := infos[id := info];
    }

    method Connected_(svc: Service, time: int)
      requires Shape()
      modifies this`infos
      ensures Shape()
      ensures Model() == Connected(old(Model()), svc, time)
    {
      var found, id := Find(svc.host);
      if !found || infos[id].service != svc {
        return;
      }
      if time - infos[id].time > 20 * 60 {
        infos := infos[id := infos[id].(time := Uint32(time))];
      }
    }

    method SetServices_(svc: Service, services: set<nat>)
      requires Shape()
      modifies this`infos
      ensures Shape()
      ensures Model() == SetServices(old(Model()), svc, services)
    {
      var found, id := Find(svc.host);
      if !found || infos[id].service != svc {
        return;
      }
      infos := infos[id := infos[id].(services := services)];
    }

    // ------------------------------------------------------------ GetAddr

    /** The shuffle loop of GetAddr_. */
    method Shuffle(rand: nat -> nat, now: int, limit: nat) returns (out: seq<Info>, ghost seen: nat)
      requires Shape() && RandomOk(Model())
      modifies this`infos, this`random
      ensures Shape() && RandomOk(Model()) && Reshuffled(old(Model()), Model()) && |random| == old(|random|)
      ensures seen <= |random| && out == Decent(Model(), now, seen)
      ensures |out| <= limit && (seen == |random| || |out| == limit)
    {
      ghost var start := Model();
      out := [];
      var n := 0;
      while n < |random| && |out| < limit
        invariant Shape() && |out| <= limit && Collected(start, Model(), now, n, out)
        decreases |random| - n
      {
        out := Draw(rand(n), now, n, out, start);
        n := n + 1;
      }
      assert Unfold(0);
      seen := n;
    }

    /** One round of the loop. */
    method Draw(draw: nat, now: int, n: nat, out: seq<Info>, ghost start: State) returns (r: seq<Info>)
      requires Shape() && n < |random| && Collected(start, Model(), now, n, out)
      modifies this`infos, this`random
      ensures Shape() && |random| == old(|random|) && |r| <= |out| + 1 && Collected(start, Model(), now, n + 1, r)
    {
      var pos := RandomInt(draw, |random| - n) + n;
      CollectStep(start, Model(), now, n, out, pos);
      SwapEntries(n, pos);
      var info := infos[random[n]];
      r := if IsTerrible(info, now) then out else out + [info];
    }

    /** At most 23% of the known addresses and at most 2500, all different and none terrible: as many as there are up
        to that limit, in the order drawn.  The manager is only reshuffled. */
    method GetAddr_(rand: nat -> nat, now: int) returns (out: seq<Info>, ghost seen: nat)
      requires Valid()
      modifies this`infos, this`random
      ensures Valid() && Reshuffled(old(Model()), Model())
      ensures 100 * |out| <= GETADDR_MAX_PCT * |random| && |out| <= GETADDR_MAX
      ensures seen <= |random| && RandomOk(Model()) && out == Decent(Model(), now, seen) && GetAddrAnswer(Model(), out, now, seen)
      ensures seen == |random| || |out| == GETADDR_MAX || 100 * (|out| + 1) > GETADDR_MAX_PCT * |random|
    {
      var nodes := GETADDR_MAX_PCT * |random| / 100;
      if nodes > GETADDR_MAX {
        nodes := GETADDR_MAX;
      }
      ghost var s := Model();
      out, seen := Shuffle(rand, now, nodes);
      ReshuffledInv(env, s, Model());
      DecentAnswers(Model(), now, seen);
    }
  }
}
