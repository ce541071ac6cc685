/**
 What each call to the address manager does to the entry it is about, field by field, and when an entry is given up.
 */
module AddrManEntries {
  import opened Bits
  import opened AddrManModel
  import opened AddrManOps
  import opened AddrManTheorems
  import opened AddrManGroups

  // --------------------------------------------------------------------- Good_

  /** Only the entries, the tables and their counts and orders can differ. */
  ghost predicate SameClock(s: State, s': State) { s'.lastGood == s.lastGood && s'.key == s.key }

  lemma ClearedClock(s: State, sl: Slot)
    requires RandomOk(s) && (sl in s.newTable ==> s.newTable[sl] in s.infos)
    ensures SameClock(s, ClearNew(s, sl)) && ClearNew(s, sl).idCount == s.idCount
  {
    if sl in s.newTable {
      UnrefRandom(s, sl);
    }
  }

  /** The last success of all is noted whether or not the service is known; an unknown one changes nothing else. */
  lemma GoodClock(env: Env, s: State, svc: Service, time: int)
    requires Inv(env, s)
    ensures Good(env, s, svc, time).lastGood == time
    ensures !KnownExactly(s, svc) ==> Good(env, s, svc, time) == s.(lastGood := time)
  {
    if KnownExactly(s, svc) && !s.infos[s.addrs[svc.host]].inTried {
      var id := s.addrs[svc.host];
      StampedInv(env, s, id, time);
      MakeTriedClock(env, Stamped(s, id, time), id);
    }
  }

  lemma MakeTriedClock(env: Env, s: State, id: int)
    requires Core(env, s, 0) && id in s.infos && !s.infos[id].inTried
    ensures SameClock(s, MakeTried(env, s, id))
  {
    var sl := TriedSlot(env, s.key, s.infos[id].service);
    CoreMovable(env, s, id);
    var s1 := MoveOut(s, id);
    if sl in s1.triedTable {
      ClearedClock(Untry(s1, sl), ReturnSlot(env, s1, sl));
    }
  }

  /** Good_ changes one "tried" slot, which the entry gets; in the "new" table the entry's own slots become free, and the
      entry that had to leave goes into a bucket of the group of its own source. */
  ghost predicate MovedIn(s: State, s': State, id: int, sl: Slot, buckets: set<int>) {
    && s'.triedTable == s.triedTable[sl := id]
    && (sl !in s.triedTable ==> s'.newTable == s.newTable - Refs(s.newTable, id))
    && (sl in s.triedTable ==>
          exists x: Slot :: x.0 in buckets && s'.newTable == (s.newTable - Refs(s.newTable, id))[x := s.triedTable[sl]])
  }

  /** The buckets an entry that is sent back can go to. */
  ghost function BackBuckets(h: Hasher, group: NetAddr -> seq<int>, s: State, sl: Slot): set<int>
    requires sl in s.triedTable ==> s.triedTable[sl] in s.infos
  {
    if sl in s.triedTable then NewBuckets(h, s.key, group(s.infos[s.triedTable[sl]].source)) else {}
  }

  lemma VacateTables(env: Env, s: State, sl: Slot)
    requires sl in s.triedTable ==> Evictable(env, s, sl)
    ensures var s' := Vacate(env, s, sl);
      && s'.triedTable == s.triedTable - {sl}
      && s'.newTable == if sl in s.triedTable then s.newTable[ReturnSlot(env, s, sl) := s.triedTable[sl]] else s.newTable
  {
    if sl in s.triedTable {
      ClearedTable(Untry(s, sl), ReturnSlot(env, s, sl));
    }
  }

  lemma MakeTriedTables(env: Env, s: State, id: int, sl: Slot, rest: Table)
    requires Core(env, s, 0) && id in s.infos && !s.infos[id].inTried && sl == TriedSlot(env, s.key, s.infos[id].service)
    requires rest == s.newTable - Refs(s.newTable, id)
    ensures MakeTried(env, s, id).triedTable == s.triedTable[sl := id]
    ensures MakeTried(env, s, id).newTable == if sl in s.triedTable then rest[ReturnSlot(env, s, sl) := s.triedTable[sl]] else rest
  {
    CoreMovable(env, s, id);
    VacateTables(env, MoveOut(s, id), sl);
    if sl in s.triedTable {
      SameReturn(env, s, id, sl);
    }
  }

  lemma SameReturn(env: Env, s: State, id: int, sl: Slot)
    requires Core(env, s, 0) && id in s.infos && !s.infos[id].inTried && sl in s.triedTable
    ensures ReturnSlot(env, MoveOut(s, id), sl) == ReturnSlot(env, s, sl)
  {
    assert s.triedTable[sl] != id;
  }

  lemma GoodTouches(h: Hasher, group: NetAddr -> seq<int>, routable: NetAddr -> bool, s: State, svc: Service, time: int)
    requires Inv(SourceEnv(h, group, routable), s) && KnownExactly(s, svc) && !s.infos[s.addrs[svc.host]].inTried
    ensures var env := SourceEnv(h, group, routable);
            var sl := TriedSlot(env, s.key, svc);
            MovedIn(s, Good(env, s, svc, time), s.addrs[svc.host], sl, BackBuckets(h, group, s, sl))
  {
    var env, id := SourceEnv(h, group, routable), s.addrs[svc.host];
    StampedInv(env, s, id, time);
    var sl := TriedSlot(env, s.key, svc);
    MakeTriedTables(env, Stamped(s, id, time), id, sl, s.newTable - Refs(s.newTable, id));
    if sl in s.triedTable {
      var out := s.infos[s.triedTable[sl]];
      BucketsByGroup(h, group, routable, s.key, out.service, out.source);
      assert ReturnSlot(env, Stamped(s, id, time), sl).0 in BackBuckets(h, group, s, sl);
    }
  }

  // ---------------------------------------------------------------------- Add_

  /** The same entry, at whatever place in the random order. */
  ghost predicate Alike(i: Info, j: Info) { i == j.(randomPos := i.randomPos) }

  /** What becomes of an entry that competes for a slot. */
  lemma PlaceOwn(env: Env, s: State, id: int, source: NetAddr, now: int)
    requires Core(env, s, 0) && id in s.infos && !s.infos[id].inTried
    ensures var s' := Place(env, s, id, source, now);
            var sl := NewSlot(env, s.key, s.infos[id].service, source);
            var wins := SlotId(s.newTable, sl) != id && SlotForTaking(s, sl, id, now);
      && SameClock(s, s')
      && (id in s'.infos <==> wins || s.infos[id].refCount > 0 || SlotId(s.newTable, sl) == id)
      && (id in s'.infos ==> Alike(s'.infos[id], s.infos[id].(refCount := s.infos[id].refCount + if wins then 1 else 0)))
      && (wins ==> SlotId(s'.newTable, sl) == id)
  {
    var sl := NewSlot(env, s.key, s.infos[id].service, source);
    CorePlaceable(env, s, id, source);
    if SlotId(s.newTable, sl) != id {
      if SlotForTaking(s, sl, id, now) {
        ClearNewOthers(env, s, sl, id);
        ClearedClock(s, sl);
      } else if s.infos[id].refCount == 0 {
        DeleteRemoves(s, id);
      } else {
        assert s.infos[id].refCount == |Refs(s.newTable, id)|;
      }
    }
  }

  /** An announcement has news: nothing was known of the time, or the time known is behind by more than an hour, or a day
      for an address that is not online now, and the penalty. */
  predicate Stale(known: int, announced: int, penalty: int, now: int) {
    announced != 0 && (known == 0 || announced - known > penalty + if now - announced < 86400 then 3600 else 86400)
  }

  /** What an announcement leaves of an entry, with or without a reference gained. */
  ghost predicate HeardAgain(i: Info, j: Info, addr: Address, penalty: int, now: int, gain: bool) {
    && j.services == i.services + addr.services
    && j.time == (if Stale(i.time, addr.time, penalty, now) then Uint32(Max(0, addr.time - penalty)) else i.time)
    && j.service == i.service && j.source == i.source && j.inTried == i.inTried && j.attempts == i.attempts
    && j.lastSuccess == i.lastSuccess && j.lastTry == i.lastTry && j.lastCountAttempt == i.lastCountAttempt
    && j.refCount == i.refCount + if gain then 1 else 0
  }

  /** A reference is gained exactly when the announcement is newer than the time then known, the entry is not tried, has fewer
      than eight, is lucky, and its slot there is free or held by a terrible entry. */
  ghost predicate Gains(env: Env, s: State, id: int, source: NetAddr, announced: int, time: int, now: int, dice: nat)
    requires id in s.infos
  {
    var i := s.infos[id];
    var sl := NewSlot(env, s.key, i.service, source);
    && announced != 0 && (time == 0 || announced > time) && !i.inTried && 0 <= i.refCount < 8 && RandomInt(dice, Pow2(i.refCount)) == 0
    && SlotId(s.newTable, sl) != id && (sl in s.newTable ==> s.newTable[sl] in s.infos && IsTerrible(s.infos[s.newTable[sl]], now))
  }

  /** A host announced again keeps its entry: its services grow, its time moves on exactly when it was stale, it may gain a
      reference, and everything else stays. */
  lemma AddKnown(env: Env, s: State, addr: Address, source: NetAddr, penalty: int, now: int, dice: nat, id: int, s': State)
    requires Inv(env, s) && env.routable(addr.service.host) && Known(s, addr.service.host)
    requires id == s.addrs[addr.service.host] && s' == Add(env, s, addr, source, penalty, now, dice).0
    ensures !Add(env, s, addr, source, penalty, now, dice).1 && SameClock(s, s') && id in s'.infos
    ensures var gain := Gains(env, s, id, source, addr.time, s'.infos[id].time, now, dice);
      && HeardAgain(s.infos[id], s'.infos[id], addr, if addr.service.host == source then 0 else penalty, now, gain)
      && (gain ==> SlotId(s'.newTable, NewSlot(env, s.key, s.infos[id].service, source)) == id)
  {
    var p := if addr.service.host == source then 0 else penalty;
    var info := Refresh(s.infos[id], addr, p, now);
    SetInfoCore(env, s, id, info, 0);
    if MayAddReference(info, addr, dice) {
      PlacedAgain(env, s, id, info, addr, source, now, dice);
      HeardAndPlaced(s.infos[id], info, s'.infos[id], addr, p, now, Gains(env, s, id, source, addr.time, info.time, now, dice));
    } else {
      GainsIff(env, s, id, info, addr, source, now, dice);
      HeardAndPlaced(s.infos[id], info, info, addr, p, now, false);
    }
  }

  lemma HeardAndPlaced(i: Info, info: Info, j: Info, addr: Address, penalty: int, now: int, gain: bool)
    requires info == Refresh(i, addr, penalty, now) && Alike(j, info.(refCount := info.refCount + if gain then 1 else 0))
    ensures HeardAgain(i, j, addr, penalty, now, gain) && j.time == info.time
  {
  }

  lemma PlacedAgain(env: Env, s: State, id: int, info: Info, addr: Address, source: NetAddr, now: int, dice: nat)
    requires Inv(env, s) && id in s.infos && info.service == s.infos[id].service && info.inTried == s.infos[id].inTried
    requires info.refCount == s.infos[id].refCount && Core(env, SetInfo(s, id, info), 0) && MayAddReference(info, addr, dice)
    ensures var s' := Place(env, SetInfo(s, id, info), id, source, now);
            var gain := Gains(env, s, id, source, addr.time, info.time, now, dice);
      && SameClock(s, s') && id in s'.infos
      && Alike(s'.infos[id], info.(refCount := info.refCount + if gain then 1 else 0))
      && (gain ==> SlotId(s'.newTable, NewSlot(env, s.key, info.service, source)) == id)
  {
    GainsIff(env, s, id, info, addr, source, now, dice);
    PlaceOwn(env, SetInfo(s, id, info), id, source, now);
  }

  lemma GainsIff(env: Env, s: State, id: int, info: Info, addr: Address, source: NetAddr, now: int, dice: nat)
    requires Inv(env, s) && id in s.infos && info.service == s.infos[id].service && info.inTried == s.infos[id].inTried
    requires info.refCount == s.infos[id].refCount
    ensures var s1 := SetInfo(s, id, info);
            var sl := NewSlot(env, s.key, info.service, source);
            Gains(env, s, id, source, addr.time, info.time, now, dice) <==>
            && MayAddReference(info, addr, dice) && SlotId(s.newTable, sl) != id
            && (sl in s.newTable ==> s.newTable[sl] in s.infos) && SlotForTaking(s1, sl, id, now)
  {
    if !info.inTried {
      assert 1 <= s.infos[id].refCount <= 8;
    }
  }

  /** A newcomer that stays has one reference, the announced services, the penalised time and nothing else to tell; an
      address that is not routable changes nothing. */
  lemma AddUnknown(env: Env, s: State, addr: Address, source: NetAddr, penalty: int, now: int, dice: nat)
    requires Inv(env, s) && !Known(s, addr.service.host)
    ensures var (s', isNew) := Add(env, s, addr, source, penalty, now, dice);
            var p := if addr.service.host == source then 0 else penalty;
      && SameClock(s, s') && isNew == env.routable(addr.service.host)
      && (!isNew ==> s' == s)
      && (Known(s', addr.service.host) ==>
            var j := s'.infos[s'.addrs[addr.service.host]];
            Alike(j, Info(addr.service, addr.services, Uint32(Max(0, addr.time - p)), source, 0, 0, 0, 0, 1, false, 0)))
  {
    var host := addr.service.host;
    var p := if host == source then 0 else penalty;
    if env.routable(host) {
      var s1, id := Register(s, addr, source, p), s.idCount;
      RegisterCore(env, s, addr, source, p);
      PlaceOwn(env, s1, id, source, now);
      AddInv(env, s, addr, source, penalty, now, dice);
      NewcomerSlot(env, s, s1, addr, source, p);
      var s' := Add(env, s, addr, source, penalty, now, dice).0;
      if Known(s', host) {
        assert s'.infos[s'.addrs[host]].service.host == host;
        OnlyNewcomer(env, s, addr, source, p, now, s'.addrs[host]);
      }
    }
  }

  lemma NewcomerSlot(env: Env, s: State, s1: State, addr: Address, source: NetAddr, p: int)
    requires Inv(env, s) && s1 == Register(s, addr, source, p)
    ensures SlotId(s1.newTable, NewSlot(env, s.key, addr.service, source)) != s.idCount
  {
  }

  lemma OnlyNewcomer(env: Env, s: State, addr: Address, source: NetAddr, p: int, now: int, k: int)
    requires Inv(env, s) && addr.service.host !in s.addrs && Core(env, Register(s, addr, source, p), 0)
    requires var s' := Place(env, Register(s, addr, source, p), s.idCount, source, now);
             k in s'.infos && s'.infos[k].service.host == addr.service.host
    ensures k == s.idCount
  {
    var s1 := Register(s, addr, source, p);
    PlaceIds(env, s1, s.idCount, source, now);
    if k != s.idCount {
      PlaceFate(env, s1, s.idCount, source, now, k);
    }
  }

  // ------------------------------------------- Attempt_, Connected_, SetServices_

  /** Everything but one entry is as before. */
  ghost predicate SameBut(s: State, s': State, id: int) {
    && s' == s.(infos := s'.infos) && s'.infos.Keys == s.infos.Keys
    && forall k | k in s.infos && k != id :: s'.infos[k] == s.infos[k]
  }

  /** An attempt is always noted; as a failure it is counted only if asked to, and once between two successes of any peer. */
  lemma AttemptOwn(s: State, svc: Service, countFailure: bool, time: int)
    ensures var s' := Attempt(s, svc, countFailure, time);
      && (!KnownExactly(s, svc) ==> s' == s)
      && (KnownExactly(s, svc) ==>
            var id := s.addrs[svc.host];
            var i := s.infos[id];
            var counts := countFailure && i.lastCountAttempt < s.lastGood;
            && SameBut(s, s', id)
            && s'.infos[id].lastTry == time && s'.infos[id].attempts == i.attempts + (if counts then 1 else 0)
            && s'.infos[id].lastCountAttempt == (if counts then time else i.lastCountAttempt)
            && s'.infos[id].(lastTry := 0, attempts := 0, lastCountAttempt := 0) == i.(lastTry := 0, attempts := 0, lastCountAttempt := 0))
  {
  }

  /** A connection that ends moves the time on only when it is more than twenty minutes behind. */
  lemma ConnectedOwn(s: State, svc: Service, time: int)
    ensures var s' := Connected(s, svc, time);
      && (!KnownExactly(s, svc) ==> s' == s)
      && (KnownExactly(s, svc) ==>
            var id := s.addrs[svc.host];
            && SameBut(s, s', id)
            && s'.infos[id].(time := 0) == s.infos[id].(time := 0)
            && s'.infos[id].time == if time > s.infos[id].time + 1200 then Uint32(time) else s.infos[id].time)
  {
  }

  lemma SetServicesOwn(s: State, svc: Service, services: set<nat>)
    ensures var s' := SetServices(s, svc, services);
      && (!KnownExactly(s, svc) ==> s' == s)
      && (KnownExactly(s, svc) ==>
            var id := s.addrs[svc.host];
            SameBut(s, s', id) && s'.infos[id].services == services && s'.infos[id].(services := {}) == s.infos[id].(services := {}))
  {
  }

  /** The attempts one after the other. */
  function Attempts(s: State, svc: Service, times: seq<int>): State
    decreases |times|
  {
    if times == [] then s else Attempts(Attempt(s, svc, true, times[0]), svc, times[1..])
  }

  /** However often it is tried in vain, a peer has at most one failure counted until some peer succeeds again: an outage of
      one's own is not held against it. */
  lemma {:induction false} OneFailure(s: State, svc: Service, times: seq<int>)
    requires KnownExactly(s, svc) && forall i | 0 <= i < |times| :: times[i] >= s.lastGood
    ensures var s', id := Attempts(s, svc, times), s.addrs[svc.host];
      && KnownExactly(s', svc) && s'.addrs == s.addrs && s'.lastGood == s.lastGood
      && s'.infos[id].attempts == s.infos[id].attempts + (if times != [] && s.infos[id].lastCountAttempt < s.lastGood then 1 else 0)
    decreases |times|
  {
    if times != [] {
      OneFailure(Attempt(s, svc, true, times[0]), svc, times[1..]);
    }
  }

  // ------------------------------------------------------------------- terrible

  /** When an entry is given up.  Never within a minute of an attempt.  Otherwise by its time alone, outside the last thirty
      days and the next ten minutes; and within them after three failures if it was never reached, or after ten if that was
      more than seven days ago. */
  lemma TerribleExactly(i: Info, now: int)
    ensures i.lastTry != 0 && i.lastTry >= now - 60 ==> !IsTerrible(i, now)
    ensures i.lastTry == 0 || i.lastTry < now - 60 ==>
      && (i.time == 0 || i.time < now - 2592000 || i.time > now + 600 ==> IsTerrible(i, now))
      && (i.time != 0 && now - 2592000 <= i.time <= now + 600 ==>
            && (i.attempts < 3 ==> !IsTerrible(i, now))
            && (3 <= i.attempts < 10 ==> (IsTerrible(i, now) <==> i.lastSuccess == 0))
            && (i.attempts >= 10 ==> (IsTerrible(i, now) <==> i.lastSuccess == 0 || i.lastSuccess < now - 604800)))
  {
  }

  /** Just reached, or just tried: not terrible, whatever else is known of it. */
  lemma JustReached(env: Env, s: State, svc: Service, time: int, now: int)
    requires Inv(env, s) && KnownExactly(s, svc) && 0 < time && now - 60 <= time
    ensures var id := s.addrs[svc.host];
      && id in Good(env, s, svc, time).infos && !IsTerrible(Good(env, s, svc, time).infos[id], now)
      && !IsTerrible(Attempt(s, svc, false, time).infos[id], now)
  {
    GoodFate(env, s, svc, time, s.addrs[svc.host]);
  }

  /** One round: some unknown peer is reached, which ends the own outage, and then the peer is tried in vain. */
  function Round(env: Env, s: State, other: Service, good: int, svc: Service, time: int): State
    requires Inv(env, s)
  {
    Attempt(Good(env, s, other, good), svc, true, time)
  }

  lemma RoundCounts(env: Env, s: State, other: Service, good: int, svc: Service, time: int)
    requires Inv(env, s) && KnownExactly(s, svc) && !KnownExactly(s, other) && s.infos[s.addrs[svc.host]].lastCountAttempt < good
    ensures var s', id := Round(env, s, other, good, svc, time), s.addrs[svc.host];
      && Inv(env, s') && KnownExactly(s', svc) && !KnownExactly(s', other) && s'.addrs == s.addrs
      && s'.infos[id].attempts == s.infos[id].attempts + 1 && s'.infos[id].lastCountAttempt == s'.infos[id].lastTry == time
      && s'.infos[id].lastSuccess == s.infos[id].lastSuccess
  {
    GoodInv(env, s, other, good);
    StatisticsInv(env, Good(env, s, other, good), svc, true, time, {});
  }

  /** Three such rounds make a peer that was never reached terrible, as soon as a minute has passed. */
  lemma ThreeFailures(env: Env, s: State, other: Service, svc: Service, g1: int, t1: int, g2: int, t2: int, g3: int, t3: int, now: int)
    requires Inv(env, s) && KnownExactly(s, svc) && !KnownExactly(s, other)
    requires var i := s.infos[s.addrs[svc.host]]; i.lastSuccess == 0 && i.attempts >= 0 && i.lastCountAttempt < g1
    requires t1 < g2 && t2 < g3 && t3 < now - 60
    ensures Inv(env, Round(env, s, other, g1, svc, t1))
    ensures Inv(env, Round(env, Round(env, s, other, g1, svc, t1), other, g2, svc, t2))
    ensures var s' := Round(env, Round(env, Round(env, s, other, g1, svc, t1), other, g2, svc, t2), other, g3, svc, t3);
            IsTerrible(s'.infos[s.addrs[svc.host]], now)
  {
    RoundCounts(env, s, other, g1, svc, t1);
    var s1 := Round(env, s, other, g1, svc, t1);
    RoundCounts(env, s1, other, g2, svc, t2);
    RoundCounts(env, Round(env, s1, other, g2, svc, t2), other, g3, svc, t3);
  }
}
