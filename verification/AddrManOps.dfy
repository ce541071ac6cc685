/**
 The public operations of the address manager and what every run of them keeps.
 */
module AddrManOps {
  import opened Bits
  import opened AddrManModel

  // --------------------------------------------------------------- Good_

  /** The slot an evicted entry returns to. */
  function ReturnSlot(env: Env, s: State, sl: Slot): Slot
    requires sl in s.triedTable && s.triedTable[sl] in s.infos
  {
    var out := s.infos[s.triedTable[sl]];
    NewSlot(env, s.key, out.service, out.source)
  }

  /** Who may be found in a "new" slot: an untried entry with a reference to lose. */
  ghost predicate Occupied(s: State, sl: Slot) {
    sl in s.newTable ==>
      var id := s.newTable[sl];
      id in s.infos && s.infos[id].refCount > 0 && !s.infos[id].inTried
  }

  lemma CoreOccupied(env: Env, s: State, sl: Slot)
    requires NewTableOk(env, s) && RefsOk(s)
    ensures Occupied(s, sl)
  {
    if sl in s.newTable {
      assert sl in Refs(s.newTable, s.newTable[sl]);
    }
  }

  /** An occupant that can be sent back: clearing its return slot leaves the entry itself alone. */
  ghost predicate Evictable(env: Env, s: State, sl: Slot) {
    && sl in s.triedTable && s.triedTable[sl] in s.infos
    && RandomOk(Untry(s, sl)) && Occupied(Untry(s, sl), ReturnSlot(env, s, sl))
    && var s2 := ClearNew(Untry(s, sl), ReturnSlot(env, s, sl));
       s.triedTable[sl] in s2.infos && s2.infos[s.triedTable[sl]].refCount == 0
  }

  function SendBack(env: Env, s: State, sl: Slot): State
    requires Evictable(env, s, sl)
  {
    var s2 := ClearNew(Untry(s, sl), ReturnSlot(env, s, sl));
    Ref(s2, ReturnSlot(env, s, sl), s.triedTable[sl]).(nNew := s2.nNew + 1)
  }

  /** Make room in a "tried" slot. */
  function Vacate(env: Env, s: State, sl: Slot): State
    requires sl in s.triedTable ==> Evictable(env, s, sl)
  {
    if sl in s.triedTable then SendBack(env, s, sl) else s
  }

  /** Move the occupant of a "tried" slot, if any, back to the "new" table. */
  function Evict(env: Env, s: State, sl: Slot): (s': State)
    requires Core(env, s, 1)
  {
    CoreEvictable(env, s, sl);
    Vacate(env, s, sl)
  }

  lemma CoreEvictable(env: Env, s: State, sl: Slot)
    requires Core(env, s, 1)
    ensures sl in s.triedTable ==> Evictable(env, s, sl)
  {
    if sl in s.triedTable {
      EvicteeUntouched(env, s, sl, ReturnSlot(env, s, sl));
      CoreOccupied(env, Untry(s, sl), ReturnSlot(env, s, sl));
    }
  }

  /** Clearing the slot an evicted entry returns to never touches the entry itself. */
  lemma EvicteeUntouched(env: Env, s: State, sl: Slot, newSl: Slot)
    requires Core(env, s, 1) && sl in s.triedTable
    ensures Core(env, Untry(s, sl), 2)
    ensures var out := s.triedTable[sl];
            var s2 := ClearNew(Untry(s, sl), newSl);
            && out in s2.infos && !s2.infos[out].inTried && s2.infos[out].refCount == 0
            && s2.infos[out].service == s.infos[out].service
  {
    UntryCore(env, s, sl, 1);
    var out := s.triedTable[sl];
    if newSl in s.newTable {
      assert s.newTable[newSl] != out;
    }
    assert Refs(s.newTable, out) == {};
    ClearNewOthers(env, Untry(s, sl), newSl, out);
  }

  lemma EvictCore(env: Env, s: State, sl: Slot, except: set<int>)
    requires Core(env, s, 1) && RangeOk(s, except)
    ensures var s' := Evict(env, s, sl);
      && Core(env, s', 1) && RangeOk(s', except)
      && sl !in s'.triedTable && s'.key == s.key
  {
    if sl in s.triedTable {
      var out := s.triedTable[sl];
      var newSl := NewSlot(env, s.key, s.infos[out].service, s.infos[out].source);
      EvicteeUntouched(env, s, sl, newSl);
      var s1 := Untry(s, sl);
      ClearNewCore(env, s1, newSl, 2, except + {out});
      var s2 := ClearNew(s1, newSl);
      RefCore(env, s2, newSl, out, 2);
      RefRange(s2, newSl, out, except);
      SettleCore(env, Ref(s2, newSl, out), 2, 1);
    }
  }

  /** An entry on the move, in neither table, is untouched by an eviction. */
  lemma EvictOthers(env: Env, s: State, sl: Slot, id: int)
    requires Core(env, s, 1) && id in s.infos && !s.infos[id].inTried && s.infos[id].refCount == 0
    ensures var s' := Evict(env, s, sl);
      id in s'.infos && s'.infos[id] == s.infos[id].(randomPos := s'.infos[id].randomPos)
  {
    if sl in s.triedTable {
      var out := s.triedTable[sl];
      var newSl := NewSlot(env, s.key, s.infos[out].service, s.infos[out].source);
      EvicteeUntouched(env, s, sl, newSl);
      assert Refs(s.newTable, id) == {};
      if newSl in s.newTable {
        assert newSl in Refs(s.newTable, s.newTable[newSl]);
      }
      ClearNewOthers(env, Untry(s, sl), newSl, id);
    }
  }

  function MoveOut(s: State, id: int): State
    requires id in s.infos
  {
    DropRefs(s, id).(nNew := s.nNew - 1)
  }

  lemma MoveOutCore(env: Env, s: State, id: int)
    requires Core(env, s, 0) && id in s.infos
    ensures Core(env, MoveOut(s, id), 1)
  {
    DropRefsCore(env, s, id, 0);
    SettleCore(env, DropRefs(s, id), 0, -1);
  }

  /** An entry that can be moved to the "tried" table. */
  ghost predicate Movable(env: Env, s: State, id: int) {
    && id in s.infos && id != -1
    && (forall sl | sl in s.newTable && s.newTable[sl] == id ::
          sl.1 == BucketPosition(env, s.key, true, sl.0, s.infos[id].service))
    && s.infos[id].refCount == |Refs(s.newTable, id)|
    && var sl := TriedSlot(env, s.key, s.infos[id].service);
       && (sl in s.triedTable ==> Evictable(env, MoveOut(s, id), sl))
       && id in Vacate(env, MoveOut(s, id), sl).infos
  }

  function MoveToTried(env: Env, s: State, id: int): State
    requires Movable(env, s, id)
  {
    var sl := TriedSlot(env, s.key, s.infos[id].service);
    Try(Vacate(env, MoveOut(s, id), sl), sl, id)
  }

  lemma CoreMovable(env: Env, s: State, id: int)
    requires Core(env, s, 0) && id in s.infos && !s.infos[id].inTried
    ensures Movable(env, s, id)
  {
    var sl := TriedSlot(env, s.key, s.infos[id].service);
    MoveOutCore(env, s, id);
    CoreEvictable(env, MoveOut(s, id), sl);
    EvictOthers(env, MoveOut(s, id), sl, id);
  }

  /** Move an entry from the "new" table to its "tried" slot, evicting whoever is there. */
  function MakeTried(env: Env, s: State, id: int): State
    requires Core(env, s, 0) && id in s.infos && !s.infos[id].inTried
  {
    CoreMovable(env, s, id);
    MoveToTried(env, s, id)
  }

  lemma MakeTriedInv(env: Env, s: State, id: int)
    requires Inv(env, s) && id in s.infos && !s.infos[id].inTried
    ensures Inv(env, MakeTried(env, s, id)) && MakeTried(env, s, id).key == s.key
  {
    var sl := TriedSlot(env, s.key, s.infos[id].service);
    var s1 := MoveOut(s, id);
    MoveOutCore(env, s, id);
    assert RangeOk(s1, {id});
    EvictCore(env, s1, sl, {id});
    EvictOthers(env, s1, sl, id);
    TryCore(env, Evict(env, s1, sl), sl, id, 1);
    TryRange(Evict(env, s1, sl), sl, id);
  }

  lemma TryRange(s: State, sl: Slot, id: int)
    requires id in s.infos && RangeOk(s, {id})
    ensures RangeOk(Try(s, sl, id), {})
  {
  }

  lemma MakeTriedOwn(env: Env, s: State, id: int)
    requires Core(env, s, 0) && id in s.infos && !s.infos[id].inTried
    ensures var s' := MakeTried(env, s, id);
      && id in s'.infos
      && s'.infos[id] == s.infos[id].(inTried := true, refCount := 0, randomPos := s'.infos[id].randomPos)
  {
    MoveOutCore(env, s, id);
    EvictOthers(env, MoveOut(s, id), TriedSlot(env, s.key, s.infos[id].service), id);
  }

  /** The statistics of an entry after a success. */
  function Stamped(s: State, id: int, time: int): State
    requires id in s.infos
  {
    SetInfo(s.(lastGood := time), id, s.infos[id].(lastSuccess := time, lastTry := time, attempts := 0))
  }

  lemma StampedInv(env: Env, s: State, id: int, time: int)
    requires Inv(env, s) && id in s.infos
    ensures Inv(env, Stamped(s, id, time))
  {
    SetInfoCore(env, s.(lastGood := time), id, Stamped(s, id, time).infos[id], 0);
  }

  /** A connection to svc succeeded at a given time. */
  function Good(env: Env, s: State, svc: Service, time: int): State
    requires Inv(env, s)
  {
    if !KnownExactly(s, svc) then s.(lastGood := time) else
      var id := s.addrs[svc.host];
      StampedInv(env, s, id, time);
      if s.infos[id].inTried then Stamped(s, id, time) else MakeTried(env, Stamped(s, id, time), id)
  }

  lemma GoodInv(env: Env, s: State, svc: Service, time: int)
    requires Inv(env, s)
    ensures Inv(env, Good(env, s, svc, time)) && Good(env, s, svc, time).key == s.key
  {
    if KnownExactly(s, svc) {
      var id := s.addrs[svc.host];
      StampedInv(env, s, id, time);
      if !s.infos[id].inTried {
        MakeTriedInv(env, Stamped(s, id, time), id);
      }
    }
  }

  // ---------------------------------------------------------------- Add_

  /** Refresh time and services of an entry announced again. */
  function Refresh(info: Info, addr: Address, penalty: int, now: int): Info {
    var interval := if now - addr.time < 24 * 60 * 60 then 60 * 60 else 24 * 60 * 60;
    var t := if addr.time != 0 && (info.time == 0 || info.time < addr.time - interval - penalty)
             then Uint32(Max(0, addr.time - penalty)) else info.time;
    info.(time := t, services := info.services + addr.services)
  }

  /** An untried entry whose selected slot can be cleared without losing the entry itself. */
  ghost predicate Placeable(env: Env, s: State, id: int, source: NetAddr) {
    && RandomOk(s) && id in s.infos && id != -1 && !s.infos[id].inTried
    && var sl := NewSlot(env, s.key, s.infos[id].service, source);
       && Occupied(s, sl)
       && (SlotId(s.newTable, sl) != id ==> id in ClearNew(s, sl).infos)
  }

  lemma CorePlaceable(env: Env, s: State, id: int, source: NetAddr)
    requires Core(env, s, 0) && id in s.infos && !s.infos[id].inTried
    ensures Placeable(env, s, id, source)
  {
    var sl := NewSlot(env, s.key, s.infos[id].service, source);
    CoreOccupied(env, s, sl);
    ClearNewOthers(env, s, sl, id);
  }

  /** Whether an entry may take the slot it selects: it is free, its holder is terrible, or the holder
      can spare a reference the entry badly needs. */
  predicate SlotForTaking(s: State, sl: Slot, id: int, now: int)
    requires id in s.infos && (sl in s.newTable ==> s.newTable[sl] in s.infos)
  {
    || sl !in s.newTable
    || IsTerrible(s.infos[s.newTable[sl]], now)
    || (s.infos[s.newTable[sl]].refCount > 1 && s.infos[id].refCount == 0)
  }

  function Settle(env: Env, s: State, id: int, source: NetAddr, now: int): State
    requires Placeable(env, s, id, source)
  {
    var sl := NewSlot(env, s.key, s.infos[id].service, source);
    if SlotId(s.newTable, sl) == id then s
    else if SlotForTaking(s, sl, id, now) then Ref(ClearNew(s, sl), sl, id)
    else if s.infos[id].refCount == 0 then Delete(s, id)
    else s
  }

  /** Give an untried entry a reference in the bucket its announcer selects, if the slot can be had;
      an entry left with no reference at all is deleted. */
  function Place(env: Env, s: State, id: int, source: NetAddr, now: int): State
    requires Core(env, s, 0) && id in s.infos && !s.infos[id].inTried
  {
    CorePlaceable(env, s, id, source);
    Settle(env, s, id, source, now)
  }

  lemma PlaceInv(env: Env, s: State, id: int, source: NetAddr, now: int)
    requires Core(env, s, 0) && RangeOk(s, {id})
    requires id in s.infos && !s.infos[id].inTried && 0 <= s.infos[id].refCount < NEW_BUCKETS_PER_ADDRESS
    ensures Inv(env, Place(env, s, id, source, now)) && Place(env, s, id, source, now).key == s.key
  {
    var sl := NewSlot(env, s.key, s.infos[id].service, source);
    if SlotId(s.newTable, sl) == id {
      assert sl in Refs(s.newTable, id);
    } else if SlotForTaking(s, sl, id, now) {
      ClearNewOthers(env, s, sl, id);
      ClearNewCore(env, s, sl, 0, {id});
      RefCore(env, ClearNew(s, sl), sl, id, 0);
      RefRange(ClearNew(s, sl), sl, id, {});
    } else if s.infos[id].refCount == 0 {
      DeleteCore(env, s, id, 0);
      DeleteRemoves(s, id);
    }
  }

  /** The state after an entry for an unknown host has been created and counted. */
  function Register(s: State, addr: Address, source: NetAddr, penalty: int): State {
    Create(s, addr.(time := Uint32(Max(0, addr.time - penalty))), source).(nNew := s.nNew + 1)
  }

  lemma RegisterCore(env: Env, s: State, addr: Address, source: NetAddr, penalty: int)
    requires Core(env, s, 0) && addr.service.host !in s.addrs
    ensures Core(env, Register(s, addr, source, penalty), 0)
  {
    var addr' := addr.(time := Uint32(Max(0, addr.time - penalty)));
    CreateCore(env, s, addr', source);
    SettleCore(env, Create(s, addr', source), 1, 1);
  }

  lemma RegisterRange(s: State, addr: Address, source: NetAddr, penalty: int)
    requires RangeOk(s, {})
    ensures RangeOk(Register(s, addr, source, penalty), {s.idCount})
  {
  }

  /** Whether an announcement of a known entry may give it one more reference. */
  predicate MayAddReference(info: Info, addr: Address, dice: nat) {
    && addr.time != 0 && (info.time == 0 || addr.time > info.time)
    && !info.inTried
    && info.refCount != NEW_BUCKETS_PER_ADDRESS
    && (info.refCount > 0 ==> RandomInt(dice, Pow2(info.refCount)) == 0)
  }

  /** An announcement of addr by source.  The flag is the source's "new entry" result. */
  function Add(env: Env, s: State, addr: Address, source: NetAddr, penalty: int, now: int, dice: nat): (State, bool)
    requires Inv(env, s)
  {
    var host := addr.service.host;
    var p := if host == source then 0 else penalty;
    if !env.routable(host) then (s, false)
    else if Known(s, host) then
      var id := s.addrs[host];
      var info := Refresh(s.infos[id], addr, p, now);
      var s1 := SetInfo(s, id, info);
      SetInfoCore(env, s, id, info, 0);
      (if MayAddReference(info, addr, dice) then Place(env, s1, id, source, now) else s1, false)
    else
      RegisterCore(env, s, addr, source, p);
      (Place(env, Register(s, addr, source, p), s.idCount, source, now), true)
  }

  lemma AddInv(env: Env, s: State, addr: Address, source: NetAddr, penalty: int, now: int, dice: nat)
    requires Inv(env, s)
    ensures var s' := Add(env, s, addr, source, penalty, now, dice).0; Inv(env, s') && s'.key == s.key
  {
    var host := addr.service.host;
    var p := if host == source then 0 else penalty;
    if env.routable(host) {
      if Known(s, host) {
        var id := s.addrs[host];
        var info := Refresh(s.infos[id], addr, p, now);
        SetInfoCore(env, s, id, info, 0);
        if MayAddReference(info, addr, dice) {
          PlaceInv(env, SetInfo(s, id, info), id, source, now);
        }
      } else {
        RegisterCore(env, s, addr, source, p);
        RegisterRange(s, addr, source, p);
        PlaceInv(env, Register(s, addr, source, p), s.idCount, source, now);
      }
    }
  }

  // ------------------------------------- Attempt_, Connected_, SetServices_

  function Attempt(s: State, svc: Service, countFailure: bool, time: int): State {
    if !KnownExactly(s, svc) then s else
      var id := s.addrs[svc.host];
      var info := s.infos[id].(lastTry := time);
      SetInfo(s, id, if countFailure && info.lastCountAttempt < s.lastGood
                     then info.(lastCountAttempt := time, attempts := info.attempts + 1) else info)
  }

  function Connected(s: State, svc: Service, time: int): State {
    if !KnownExactly(s, svc) then s else
      var id := s.addrs[svc.host];
      if time - s.infos[id].time > 20 * 60 then SetInfo(s, id, s.infos[id].(time := Uint32(time))) else s
  }

  function SetServices(s: State, svc: Service, services: set<nat>): State {
    if !KnownExactly(s, svc) then s else
      SetInfo(s, s.addrs[svc.host], s.infos[s.addrs[svc.host]].(services := services))
  }

  lemma StatisticsInv(env: Env, s: State, svc: Service, countFailure: bool, time: int, services: set<nat>)
    requires Inv(env, s)
    ensures Inv(env, Attempt(s, svc, countFailure, time))
    ensures Inv(env, Connected(s, svc, time))
    ensures Inv(env, SetServices(s, svc, services))
  {
    if KnownExactly(s, svc) {
      var id := s.addrs[svc.host];
      SetInfoCore(env, s, id, Attempt(s, svc, countFailure, time).infos[id], 0);
      SetInfoCore(env, s, id, Connected(s, svc, time).infos[id], 0);
      SetInfoCore(env, s, id, SetServices(s, svc, services).infos[id], 0);
    }
  }

  // ------------------------------------------------------------- GetAddr_

  /** RandomInt(max): any number below max; a draw out of range stands for zero. */
  function RandomInt(draw: nat, max: nat): (r: nat)
    ensures max > 0 ==> r < max
  {
    if draw < max then draw else 0
  }

  /** What a call returns: entries of the manager, no two of the same host, none terrible, no more than
      the limit.  The manager itself is only reshuffled. */
  ghost predicate GetAddrAnswer(s: State, out: seq<Info>, now: int, seen: nat)
    requires seen <= |s.random|
  {
    && (forall k | 0 <= k < |out| ::
          && Known(s, out[k].service.host)
          && out[k] == s.infos[s.addrs[out[k].service.host]]
          && !IsTerrible(out[k], now)
          && out[k].randomPos < seen)
    && (forall j, k | 0 <= j < k < |out| :: out[j].service.host != out[k].service.host)
  }
}
