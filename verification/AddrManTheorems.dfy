/**
 What the address manager's operations promise, for every state its invariant allows and for
 every run from an empty manager.
 */
module AddrManTheorems {
  import opened Folding
  import opened AddrManModel
  import opened AddrManOps

  // ------------------------------------------------------------- GetAddr_

  lemma CollectKeepsAnswer(s: State, n: nat, out: seq<Info>, now: int)
    requires RandomOk(s) && AddrsOk(s) && n < |s.random| && GetAddrAnswer(s, out, now, n)
    requires !IsTerrible(s.infos[s.random[n]], now)
    ensures GetAddrAnswer(s, out + [s.infos[s.random[n]]], now, n + 1)
  {
    var id := s.random[n];
    var info := s.infos[id];
    assert id in s.infos && info.service.host in s.addrs && s.addrs[info.service.host] == id;
    forall k | 0 <= k < |out| ensures out[k].service.host != info.service.host {
      assert out[k].randomPos < n;
    }
  }

  lemma AnswerLater(s: State, out: seq<Info>, now: int, n: nat, m: nat)
    requires n <= m <= |s.random| && GetAddrAnswer(s, out, now, n)
    ensures GetAddrAnswer(s, out, now, m)
  {
  }

  /** The entries among the first n of the random order that are not terrible, in order. */
  function Decent(s: State, now: int, n: nat): seq<Info>
    requires RandomOk(s) && n <= |s.random|
  {
    if n == 0 then []
    else
      var info := s.infos[s.random[n - 1]];
      Decent(s, now, n - 1) + if IsTerrible(info, now) then [] else [info]
  }

  /** They are entries of the manager, no two of the same host and none terrible. */
  lemma {:induction false} DecentAnswers(s: State, now: int, n: nat)
    requires RandomOk(s) && AddrsOk(s) && n <= |s.random|
    ensures GetAddrAnswer(s, Decent(s, now, n), now, n)
  {
    if n > 0 {
      DecentAnswers(s, now, n - 1);
      if IsTerrible(s.infos[s.random[n - 1]], now) {
        AnswerLater(s, Decent(s, now, n - 1), now, n - 1, n);
      } else {
        CollectKeepsAnswer(s, n - 1, Decent(s, now, n - 1), now);
      }
    }
  }

  /** Swapping later places changes nothing about the earlier ones. */
  lemma {:induction false} DecentSwap(s: State, now: int, i: nat, j: nat, n: nat)
    requires RandomOk(s) && n <= i <= j < |s.random|
    ensures RandomOk(SwapRandom(s, i, j)) && Decent(SwapRandom(s, i, j), now, n) == Decent(s, now, n)
  {
    SwapRandomOk(s, i, j);
    if n > 0 {
      DecentSwap(s, now, i, j, n - 1);
      var id := s.random[n - 1];
      assert s.infos[id].randomPos == n - 1 && id != s.random[i] && id != s.random[j];
    }
  }

  /** The manager after a shuffle: the same entries in the same tables, listed in another order. */
  ghost predicate Reshuffled(s: State, s': State) {
    && s' == s.(infos := s'.infos, random := s'.random)
    && s'.infos.Keys == s.infos.Keys
    && (forall k | k in s'.infos :: s'.infos[k] == s.infos[k].(randomPos := s'.infos[k].randomPos))
    && multiset(s'.random) == multiset(s.random)
  }

  lemma SwapReshuffles(s: State, i: int, j: int)
    requires RandomOk(s) && 0 <= i < |s.random| && 0 <= j < |s.random|
    ensures Reshuffled(s, SwapRandom(s, i, j))
  {
    SwapRandomSame(s, i, j);
    SwapRandomPermutes(s, i, j);
  }

  lemma ReshuffledTwice(s: State, s1: State, s2: State)
    requires Reshuffled(s, s1) && Reshuffled(s1, s2)
    ensures Reshuffled(s, s2)
  {
  }

  /** In the shuffle loop after n rounds. */
  ghost predicate Collected(start: State, s: State, now: int, n: nat, out: seq<Info>) {
    && RandomOk(s) && n <= |s.random| == |start.random|
    && forall u | Unfold(u) :: Reshuffled(start, s) && out == Decent(s, now, n)
  }

  lemma CollectStep(start: State, s: State, now: int, n: nat, out: seq<Info>, pos: nat)
    requires Collected(start, s, now, n, out) && n <= pos < |s.random|
    ensures var s' := SwapRandom(s, n, pos);
      && RandomOk(s') && |s'.random| == |s.random|
      && var info := s'.infos[s'.random[n]];
         Collected(start, s', now, n + 1, if IsTerrible(info, now) then out else out + [info])
  {
    assert Unfold(0);
    DecentSwap(s, now, n, pos, n);
    SwapReshuffles(s, n, pos);
    ReshuffledTwice(start, s, SwapRandom(s, n, pos));
  }

  lemma ReshuffledInv(env: Env, s: State, s': State)
    requires Inv(env, s) && Reshuffled(s, s') && RandomOk(s')
    ensures Inv(env, s')
  {
    forall k | k in s'.infos ensures SameEntry(s.infos[k], s'.infos[k]) {
    }
    assert TriedIds(s'.infos) == TriedIds(s.infos);
    assert NewIds(s'.infos) == NewIds(s.infos);
  }

  // ----------------------------------- what an operation does to other entries

  /** Nothing but random position, and for a "new" entry its reference count, has changed. */
  ghost predicate Spared(i: Info, j: Info) {
    j == i.(randomPos := j.randomPos, refCount := j.refCount)
  }

  lemma EvictFate(env: Env, s: State, sl: Slot, k: int)
    requires Core(env, s, 1) && k in s.infos
    ensures var s' := Evict(env, s, sl);
      if k == SlotId(s.triedTable, sl) then
        k in s'.infos && Spared(s.infos[k].(inTried := false), s'.infos[k])
      else
        && (k in s'.infos ==> Spared(s.infos[k], s'.infos[k]))
        && (k !in s'.infos ==>
              && sl in s.triedTable && k == SlotId(s.newTable, ReturnSlot(env, s, sl))
              && !s.infos[k].inTried && s.infos[k].refCount == 1)
  {
    if sl in s.triedTable {
      var newSl := ReturnSlot(env, s, sl);
      EvicteeUntouched(env, s, sl, newSl);
      ClearNewOthers(env, Untry(s, sl), newSl, k);
    }
  }

  lemma PlaceFate(env: Env, s: State, id: int, source: NetAddr, now: int, k: int)
    requires Core(env, s, 0) && id in s.infos && !s.infos[id].inTried && k in s.infos && k != id
    ensures var s' := Place(env, s, id, source, now);
      && (k in s'.infos ==> Spared(s.infos[k], s'.infos[k]))
      && (k !in s'.infos ==> !s.infos[k].inTried && s.infos[k].refCount == 1 && IsTerrible(s.infos[k], now))
  {
    var sl := NewSlot(env, s.key, s.infos[id].service, source);
    ClearNewOthers(env, s, sl, k);
    ClearNewOthers(env, s, sl, id);
    if s.infos[id].refCount == 0 {
      DeleteRemoves(s, id);
    }
  }

  /** Add_ forgets an entry only if it was an untried entry with a single reference and terrible
      statistics; every other entry survives in its table, its statistics untouched. */
  lemma AddFate(env: Env, s: State, addr: Address, source: NetAddr, penalty: int, now: int, dice: nat, k: int)
    requires Inv(env, s) && k in s.infos && s.infos[k].service.host != addr.service.host
    ensures var s' := Add(env, s, addr, source, penalty, now, dice).0;
      && (k in s'.infos ==> Spared(s.infos[k], s'.infos[k]))
      && (k !in s'.infos ==> !s.infos[k].inTried && s.infos[k].refCount == 1 && IsTerrible(s.infos[k], now))
  {
    var host := addr.service.host;
    var p := if host == source then 0 else penalty;
    if env.routable(host) {
      if Known(s, host) {
        var id := s.addrs[host];
        var info := Refresh(s.infos[id], addr, p, now);
        SetInfoCore(env, s, id, info, 0);
        if MayAddReference(info, addr, dice) {
          PlaceFate(env, SetInfo(s, id, info), id, source, now, k);
        }
      } else {
        RegisterCore(env, s, addr, source, p);
        PlaceFate(env, Register(s, addr, source, p), s.idCount, source, now, k);
      }
    }
  }

  /** An unknown routable host becomes known unless the slot its announcer selects is held by an entry
      with no other reference and decent statistics; the result flag is true either way. */
  lemma AddNewcomer(env: Env, s: State, addr: Address, source: NetAddr, penalty: int, now: int, dice: nat)
    requires Inv(env, s) && env.routable(addr.service.host) && addr.service.host !in s.addrs
    ensures var r := Add(env, s, addr, source, penalty, now, dice);
            var holder := SlotId(s.newTable, NewSlot(env, s.key, addr.service, source));
      && r.1
      && (holder in s.infos && s.infos[holder].refCount == 1 && !IsTerrible(s.infos[holder], now)
          <==> addr.service.host !in r.0.addrs)
      && (addr.service.host in r.0.addrs ==> KnownExactly(r.0, addr.service))
  {
    var p := if addr.service.host == source then 0 else penalty;
    var s1 := Register(s, addr, source, p);
    var id := s.idCount;
    RegisterCore(env, s, addr, source, p);
    var sl := NewSlot(env, s.key, addr.service, source);
    assert SlotId(s.newTable, sl) != id;
    if sl !in s.newTable || IsTerrible(s.infos[s.newTable[sl]], now) || s.infos[s.newTable[sl]].refCount > 1 {
      AddInv(env, s, addr, source, penalty, now, dice);
      ClearNewOthers(env, s1, sl, id);
    } else {
      assert sl in Refs(s.newTable, s.newTable[sl]);
      DeleteRemoves(s1, id);
    }
  }

  lemma MakeTriedFate(env: Env, s: State, id: int, k: int)
    requires Core(env, s, 0) && id in s.infos && !s.infos[id].inTried && k in s.infos && k != id
    ensures var s' := MakeTried(env, s, id);
            var sl := TriedSlot(env, s.key, s.infos[id].service);
      if k == SlotId(s.triedTable, sl) then
        k in s'.infos && Spared(s.infos[k].(inTried := false), s'.infos[k])
      else
        && (k in s'.infos ==> Spared(s.infos[k], s'.infos[k]))
        && (k !in s'.infos ==>
              && sl in s.triedTable && k == SlotId(s.newTable, ReturnSlot(env, s, sl))
              && !s.infos[k].inTried && s.infos[k].refCount == 1)
  {
    var sl := TriedSlot(env, s.key, s.infos[id].service);
    MoveOutCore(env, s, id);
    EvictOthers(env, MoveOut(s, id), sl, id);
    EvictFate(env, MoveOut(s, id), sl, k);
  }

  /** A success stamps an entry and clears its failures; when and from whom it was heard of is not touched, so that nobody
      can tell from the times who is connected. */
  ghost predicate Succeeded(i: Info, j: Info, time: int) {
    && j.lastSuccess == j.lastTry == time && j.attempts == 0 && j.inTried && j.refCount == 0
    && j.service == i.service && j.services == i.services && j.time == i.time && j.source == i.source
    && j.lastCountAttempt == i.lastCountAttempt
  }

  /** Good_ puts the entry into the tried table; the entry it displaces returns to the new table, and
      the only entry forgotten, if any, was the single-reference holder of the returning slot. */
  lemma GoodFate(env: Env, s: State, svc: Service, time: int, k: int)
    requires Inv(env, s) && KnownExactly(s, svc) && k in s.infos
    ensures var s' := Good(env, s, svc, time);
            var sl := TriedSlot(env, s.key, svc);
      if k == s.addrs[svc.host] then
        k in s'.infos && Succeeded(s.infos[k], s'.infos[k], time)
      else if k == SlotId(s.triedTable, sl) && !s.infos[s.addrs[svc.host]].inTried then
        k in s'.infos && Spared(s.infos[k].(inTried := false), s'.infos[k])
      else
        && (k in s'.infos ==> Spared(s.infos[k], s'.infos[k]))
        && (k !in s'.infos ==>
              && sl in s.triedTable && k == SlotId(s.newTable, ReturnSlot(env, s, sl))
              && !s.infos[k].inTried && s.infos[k].refCount == 1)
  {
    var id := s.addrs[svc.host];
    StampedInv(env, s, id, time);
    if !s.infos[id].inTried {
      if k == id {
        MakeTriedOwn(env, Stamped(s, id, time), id);
      } else {
        MakeTriedFate(env, Stamped(s, id, time), id, k);
      }
    } else if k == id {
      assert Refs(s.newTable, id) == {};
    }
  }

  lemma MakeTriedIds(env: Env, s: State, id: int)
    requires Core(env, s, 0) && id in s.infos && !s.infos[id].inTried
    ensures MakeTried(env, s, id).infos.Keys <= s.infos.Keys
  {
    var sl := TriedSlot(env, s.key, s.infos[id].service);
    var s1 := MoveOut(s, id);
    MoveOutCore(env, s, id);
    EvictOthers(env, s1, sl, id);
    if sl in s1.triedTable {
      EvicteeUntouched(env, s1, sl, ReturnSlot(env, s1, sl));
      ClearNewIds(Untry(s1, sl), ReturnSlot(env, s1, sl));
    }
  }

  lemma GoodIds(env: Env, s: State, svc: Service, time: int)
    requires Inv(env, s)
    ensures Good(env, s, svc, time).infos.Keys <= s.infos.Keys
  {
    if KnownExactly(s, svc) && !s.infos[s.addrs[svc.host]].inTried {
      StampedInv(env, s, s.addrs[svc.host], time);
      MakeTriedIds(env, Stamped(s, s.addrs[svc.host], time), s.addrs[svc.host]);
    }
  }

  lemma PlaceIds(env: Env, s: State, id: int, source: NetAddr, now: int)
    requires Core(env, s, 0) && id in s.infos && !s.infos[id].inTried
    ensures Place(env, s, id, source, now).infos.Keys <= s.infos.Keys
    ensures id in Place(env, s, id, source, now).infos ==> Spared(s.infos[id], Place(env, s, id, source, now).infos[id])
  {
    var sl := NewSlot(env, s.key, s.infos[id].service, source);
    ClearNewIds(s, sl);
    ClearNewOthers(env, s, sl, id);
    if s.infos[id].refCount == 0 {
      DeleteRemoves(s, id);
    }
  }

  // ----------------------------------------------------------------- time

  /** The clauses of Check_ about times. */
  ghost predicate TimesOk(s: State) {
    forall k | k in s.infos ::
      && s.infos[k].lastTry >= 0
      && s.infos[k].lastSuccess >= 0
      && (s.infos[k].inTried ==> s.infos[k].lastSuccess != 0)
  }

  /** Good_ keeps the time clauses exactly when the time is positive or the service unknown. */
  lemma GoodTimes(env: Env, s: State, svc: Service, time: int)
    requires Inv(env, s) && TimesOk(s)
    ensures TimesOk(Good(env, s, svc, time)) <==> time > 0 || !KnownExactly(s, svc)
  {
    if KnownExactly(s, svc) {
      var s' := Good(env, s, svc, time);
      GoodIds(env, s, svc, time);
      GoodFate(env, s, svc, time, s.addrs[svc.host]);
      forall k | k in s'.infos && time > 0
        ensures s'.infos[k].lastTry >= 0 && s'.infos[k].lastSuccess >= 0
        ensures s'.infos[k].inTried ==> s'.infos[k].lastSuccess != 0
      {
        GoodFate(env, s, svc, time, k);
      }
    }
  }

  /** Attempt_ keeps them exactly when the time is not negative or the service unknown. */
  lemma AttemptTimes(s: State, svc: Service, countFailure: bool, time: int)
    requires TimesOk(s)
    ensures TimesOk(Attempt(s, svc, countFailure, time)) <==> time >= 0 || !KnownExactly(s, svc)
  {
    if KnownExactly(s, svc) {
      assert Attempt(s, svc, countFailure, time).infos[s.addrs[svc.host]].lastTry == time;
    }
  }

  lemma PlaceTimes(env: Env, s: State, id: int, source: NetAddr, now: int)
    requires Core(env, s, 0) && id in s.infos && !s.infos[id].inTried && TimesOk(s)
    ensures TimesOk(Place(env, s, id, source, now))
  {
    var s' := Place(env, s, id, source, now);
    PlaceIds(env, s, id, source, now);
    forall k | k in s'.infos ensures Spared(s.infos[k], s'.infos[k]) {
      if k != id {
        PlaceFate(env, s, id, source, now, k);
      }
    }
  }

  lemma RegisterTimes(s: State, addr: Address, source: NetAddr, penalty: int)
    requires TimesOk(s)
    ensures TimesOk(Register(s, addr, source, penalty))
  {
  }

  lemma RefreshTimes(s: State, id: int, addr: Address, penalty: int, now: int)
    requires TimesOk(s) && id in s.infos
    ensures TimesOk(SetInfo(s, id, Refresh(s.infos[id], addr, penalty, now)))
  {
  }

  lemma AddTimes(env: Env, s: State, addr: Address, source: NetAddr, penalty: int, now: int, dice: nat)
    requires Inv(env, s) && TimesOk(s)
    ensures TimesOk(Add(env, s, addr, source, penalty, now, dice).0)
  {
    var host := addr.service.host;
    var p := if host == source then 0 else penalty;
    if Known(s, host) {
      var id := s.addrs[host];
      var info := Refresh(s.infos[id], addr, p, now);
      SetInfoCore(env, s, id, info, 0);
      RefreshTimes(s, id, addr, p, now);
      if !info.inTried {
        PlaceTimes(env, SetInfo(s, id, info), id, source, now);
      }
    } else {
      RegisterCore(env, s, addr, source, p);
      RegisterTimes(s, addr, source, p);
      PlaceTimes(env, Register(s, addr, source, p), s.idCount, source, now);
    }
  }

  // ----------------------------------------------------------------- runs

  /** The calls a manager can receive; a GetAddr_ call is named by the order it leaves behind. */
  datatype Op =
    | AddOp(addr: Address, source: NetAddr, penalty: int, now: int, dice: nat)
    | GoodOp(svc: Service, time: int)
    | AttemptOp(svc: Service, countFailure: bool, time: int)
    | ConnectedOp(svc: Service, time: int)
    | SetServicesOp(svc: Service, services: set<nat>)
    | GetAddrOp(shuffled: State)

  /** One call keeps the invariant. */
  ghost function Next(env: Env, s: State, op: Op): (s': State)
    requires Inv(env, s)
    ensures Inv(env, s') && s'.key == s.key
  {
    match op
    case AddOp(addr, source, penalty, now, dice) =>
      AddInv(env, s, addr, source, penalty, now, dice);
      Add(env, s, addr, source, penalty, now, dice).0
    case GoodOp(svc, time) =>
      GoodInv(env, s, svc, time);
      Good(env, s, svc, time)
    case AttemptOp(svc, countFailure, time) =>
      StatisticsInv(env, s, svc, countFailure, time, {});
      Attempt(s, svc, countFailure, time)
    case ConnectedOp(svc, time) =>
      StatisticsInv(env, s, svc, false, time, {});
      Connected(s, svc, time)
    case SetServicesOp(svc, services) =>
      StatisticsInv(env, s, svc, false, 0, services);
      SetServices(s, svc, services)
    case GetAddrOp(shuffled) =>
      if Reshuffled(s, shuffled) && RandomOk(shuffled) then
        ReshuffledInv(env, s, shuffled);
        shuffled
      else s
  }

  /** Every run keeps the invariant. */
  ghost function Run(env: Env, s: State, ops: seq<Op>): (s': State)
    requires Inv(env, s)
    ensures Inv(env, s') && s'.key == s.key
    decreases |ops|
  {
    if ops == [] then s else Run(env, Next(env, s, ops[0]), ops[1..])
  }

  /** The times a caller hands to Good_ are positive, and to Attempt_ not negative. */
  ghost predicate TimelyOp(op: Op) {
    && (op.GoodOp? ==> op.time > 0)
    && (op.AttemptOp? ==> op.time >= 0)
  }

  /** The remaining calls touch no entry's success or attempt times. */
  lemma OtherTimes(s: State, svc: Service, time: int, services: set<nat>, shuffled: State)
    requires TimesOk(s)
    ensures TimesOk(Connected(s, svc, time)) && TimesOk(SetServices(s, svc, services))
    ensures Reshuffled(s, shuffled) ==> TimesOk(shuffled)
  {
  }

  lemma NextTimes(env: Env, s: State, op: Op)
    requires Inv(env, s) && TimesOk(s) && TimelyOp(op)
    ensures TimesOk(Next(env, s, op))
  {
    match op
    case AddOp(addr, source, penalty, now, dice) => AddTimes(env, s, addr, source, penalty, now, dice);
    case GoodOp(svc, time) => GoodTimes(env, s, svc, time);
    case AttemptOp(svc, countFailure, time) => AttemptTimes(s, svc, countFailure, time);
    case ConnectedOp(svc, time) => OtherTimes(s, svc, time, {}, s);
    case SetServicesOp(svc, services) => OtherTimes(s, svc, 0, services, s);
    case GetAddrOp(shuffled) => OtherTimes(s, Service(NetAddr([]), 0), 0, {}, shuffled);
  }

  lemma {:induction false} RunTimes(env: Env, s: State, ops: seq<Op>)
    requires Inv(env, s) && TimesOk(s) && forall op | op in ops :: TimelyOp(op)
    ensures TimesOk(Run(env, s, ops))
    decreases |ops|
  {
    if ops != [] {
      NextTimes(env, s, ops[0]);
      RunTimes(env, Next(env, s, ops[0]), ops[1..]);
    }
  }

  lemma EmptyInv(env: Env, key: nat)
    ensures Inv(env, EmptyState(key)) && TimesOk(EmptyState(key))
  {
    assert TriedIds(EmptyState(key).infos) == {};
    assert NewIds(EmptyState(key).infos) == {};
  }
}
