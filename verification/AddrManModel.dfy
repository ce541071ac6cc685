/**
 The stochastic address manager (CAddrMan) on values: the entities, the bucket
 functions and every operation as a function from one manager state to the next.

 A bucket table is a map from (bucket, position) to an id; an absent slot is the
 source's -1.  Hashing, address grouping and routability are parameters (Env);
 clock readings and random draws are arguments of the operations.
 */
module AddrManModel {

  const TRIED_BUCKET_COUNT: int := 256
  const NEW_BUCKET_COUNT: int := 1024
  const BUCKET_SIZE: int := 64
  const TRIED_BUCKETS_PER_GROUP: int := 8
  const NEW_BUCKETS_PER_SOURCE_GROUP: int := 64
  const NEW_BUCKETS_PER_ADDRESS: int := 8
  const HORIZON_DAYS: int := 30
  const RETRIES: int := 3
  const MAX_FAILURES: int := 10
  const MIN_FAIL_DAYS: int := 7
  const GETADDR_MAX_PCT: int := 23
  const GETADDR_MAX: int := 2500

  /** An IP address; CNetAddr compares nothing else. */
  datatype NetAddr = NetAddr(ip: seq<int>)

  /** An IP address with a port (CService). */
  datatype Service = Service(host: NetAddr, port: nat)

  /** What a peer announces about a service (CAddress); services is the set of flag bits, time a uint32. */
  datatype Address = Address(service: Service, services: set<nat>, time: int)

  /** What CHashWriter is fed. */
  datatype HashItem =
    | KeyItem(key: nat)
    | ServiceItem(service: Service)
    | GroupItem(group: seq<int>)
    | NumberItem(number: int)
    | TagItem(tag: char)

  /** What the manager computes from a key and an address, before reduction to a bucket or position. */
  datatype Env = Env(
    triedHash: (nat, Service) -> nat,
    newHash: (nat, Service, NetAddr) -> nat,
    positionHash: (nat, bool, int, Service) -> nat,
    routable: NetAddr -> bool)

  /** The hashes as the source composes them out of CHashWriter and the address groups. */
  function SourceEnv(cheapHash: seq<HashItem> -> nat, group: NetAddr -> seq<int>, routable: NetAddr -> bool): Env {
    Env(
      (key: nat, svc: Service) =>
        var hash1 := cheapHash([KeyItem(key), ServiceItem(svc)]);
        cheapHash([KeyItem(key), GroupItem(group(svc.host)), NumberItem(hash1 % TRIED_BUCKETS_PER_GROUP)]),
      (key: nat, svc: Service, source: NetAddr) =>
        var hash1 := cheapHash([KeyItem(key), GroupItem(group(svc.host)), GroupItem(group(source))]);
        cheapHash([KeyItem(key), GroupItem(group(source)), NumberItem(hash1 % NEW_BUCKETS_PER_SOURCE_GROUP)]),
      (key: nat, isNew: bool, bucket: int, svc: Service) =>
        cheapHash([KeyItem(key), TagItem(if isNew then 'N' else 'K'), NumberItem(bucket), ServiceItem(svc)]),
      routable)
  }

  /** One entry (CAddrInfo). */
  datatype Info = Info(
    service: Service,
    services: set<nat>,
    time: int,
    source: NetAddr,
    lastSuccess: int,
    lastTry: int,
    lastCountAttempt: int,
    attempts: int,
    refCount: int,
    inTried: bool,
    randomPos: int)

  type Slot = (int, int)

  type Table = map<Slot, int>

  /** The whole manager. */
  datatype State = State(
    key: nat,
    idCount: int,
    infos: map<int, Info>,
    addrs: map<NetAddr, int>,
    random: seq<int>,
    nTried: int,
    triedTable: Table,
    nNew: int,
    newTable: Table,
    lastGood: int)

  // ---------------------------------------------------------------- hashing

  function TriedBucket(env: Env, key: nat, svc: Service): (b: int)
    ensures 0 <= b < TRIED_BUCKET_COUNT
  {
    env.triedHash(key, svc) % TRIED_BUCKET_COUNT
  }

  function NewBucket(env: Env, key: nat, svc: Service, source: NetAddr): (b: int)
    ensures 0 <= b < NEW_BUCKET_COUNT
  {
    env.newHash(key, svc, source) % NEW_BUCKET_COUNT
  }

  function BucketPosition(env: Env, key: nat, isNew: bool, bucket: int, svc: Service): (p: int)
    ensures 0 <= p < BUCKET_SIZE
  {
    env.positionHash(key, isNew, bucket, svc) % BUCKET_SIZE
  }

  function TriedSlot(env: Env, key: nat, svc: Service): Slot {
    var b := TriedBucket(env, key, svc);
    (b, BucketPosition(env, key, false, b, svc))
  }

  function NewSlot(env: Env, key: nat, svc: Service, source: NetAddr): Slot {
    var b := NewBucket(env, key, svc, source);
    (b, BucketPosition(env, key, true, b, svc))
  }

  /** Whether the statistics of an entry are bad enough to drop it. */
  predicate IsTerrible(info: Info, now: int) {
    if info.lastTry != 0 && info.lastTry >= now - 60 then false
    else
      || info.time > now + 10 * 60
      || info.time == 0
      || now - info.time > HORIZON_DAYS * 24 * 60 * 60
      || (info.lastSuccess == 0 && info.attempts >= RETRIES)
      || (now - info.lastSuccess > MIN_FAIL_DAYS * 24 * 60 * 60 && info.attempts >= MAX_FAILURES)
  }

  function Uint32(n: int): int { n % 0x1_0000_0000 }

  function Max(a: int, b: int): int { if a < b then b else a }

  // ------------------------------------------------------------- primitives

  function EmptyState(key: nat): State {
    State(key, 0, map[], map[], [], 0, map[], 0, map[], 1)
  }

  function SlotId(t: Table, sl: Slot): int {
    if sl in t then t[sl] else -1
  }

  function Put(t: Table, sl: Slot, id: int): Table {
    if id == -1 then t - {sl} else t[sl := id]
  }

  /** The slots of a table that hold an id. */
  function Refs(t: Table, id: int): set<Slot> {
    set sl | sl in t && t[sl] == id
  }

  function SetInfo(s: State, id: int, info: Info): State {
    s.(infos := s.infos[id := info])
  }

  predicate Known(s: State, host: NetAddr) {
    host in s.addrs && s.addrs[host] in s.infos
  }

  /** Known under exactly this service, port included. */
  predicate KnownExactly(s: State, svc: Service) {
    Known(s, svc.host) && s.infos[s.addrs[svc.host]].service == svc
  }

  // ------------------------------------------------------------- invariants

  /** random lists every id once, each entry knowing its place. */
  ghost predicate RandomOk(s: State) {
    && (forall id | id in s.infos ::
          0 <= s.infos[id].randomPos < |s.random| && s.random[s.infos[id].randomPos] == id)
    && (forall i | 0 <= i < |s.random| :: s.random[i] in s.infos && s.infos[s.random[i]].randomPos == i)
  }

  /** addrs inverts infos. */
  ghost predicate AddrsOk(s: State) {
    && (forall id | id in s.infos ::
          s.infos[id].service.host in s.addrs && s.addrs[s.infos[id].service.host] == id)
    && (forall a | a in s.addrs :: s.addrs[a] in s.infos && s.infos[s.addrs[a]].service.host == a)
  }

  /** Ids are the numbers handed out so far, less the deleted ones. */
  ghost predicate IdsOk(s: State) {
    0 <= s.idCount && forall id | id in s.infos :: 0 <= id < s.idCount
  }

  ghost predicate IndexOk(s: State) {
    RandomOk(s) && AddrsOk(s) && IdsOk(s)
  }

  /** Every "new" slot holds an untried id and sits where that id hashes to in its bucket. */
  ghost predicate NewTableOk(env: Env, s: State) {
    forall sl | sl in s.newTable ::
      && 0 <= sl.0 < NEW_BUCKET_COUNT
      && s.newTable[sl] in s.infos
      && !s.infos[s.newTable[sl]].inTried
      && sl.1 == BucketPosition(env, s.key, true, sl.0, s.infos[s.newTable[sl]].service)
  }

  /** The "tried" table holds exactly the tried ids, each in its one slot. */
  ghost predicate TriedTableOk(env: Env, s: State) {
    && (forall sl | sl in s.triedTable ::
          && s.triedTable[sl] in s.infos
          && s.infos[s.triedTable[sl]].inTried
          && sl == TriedSlot(env, s.key, s.infos[s.triedTable[sl]].service))
    && (forall id | id in s.infos && s.infos[id].inTried ::
          SlotId(s.triedTable, TriedSlot(env, s.key, s.infos[id].service)) == id)
  }

  /** Reference counts are the number of "new" slots holding the id. */
  ghost predicate RefsOk(s: State) {
    forall id | id in s.infos :: s.infos[id].refCount == |Refs(s.newTable, id)|
  }

  function TriedIds(infos: map<int, Info>): set<int> { set id | id in infos && infos[id].inTried }

  function NewIds(infos: map<int, Info>): set<int> { set id | id in infos && !infos[id].inTried }

  /** The counters, with nNew short by a given number of entries on the move between tables. */
  ghost predicate CountsOk(s: State, moving: int) {
    && s.nTried == |TriedIds(s.infos)|
    && s.nNew + moving == |NewIds(s.infos)|
  }

  ghost predicate TablesOk(env: Env, s: State, moving: int) {
    NewTableOk(env, s) && TriedTableOk(env, s) && RefsOk(s) && CountsOk(s, moving)
  }

  /** What holds at every point inside an operation. */
  ghost predicate Core(env: Env, s: State, moving: int) {
    IndexOk(s) && TablesOk(env, s, moving)
  }

  /** Every untried entry, except those on the move, has one to eight references. */
  ghost predicate RangeOk(s: State, except: set<int>) {
    forall id | id in s.infos && !s.infos[id].inTried && id !in except ::
      1 <= s.infos[id].refCount <= NEW_BUCKETS_PER_ADDRESS
  }

  /** The invariant between operations. */
  ghost predicate Inv(env: Env, s: State) {
    Core(env, s, 0) && RangeOk(s, {})
  }

  // ------------------------------------------------------------- operations

  function Create(s: State, addr: Address, source: NetAddr): State {
    var id := s.idCount;
    s.(idCount := id + 1,
       infos := s.infos[id := Info(addr.service, addr.services, addr.time, source, 0, 0, 0, 0, 0, false, |s.random|)],
       addrs := s.addrs[addr.service.host := id],
       random := s.random + [id])
  }

  function SwapRandom(s: State, i: int, j: int): State
    requires RandomOk(s) && 0 <= i < |s.random| && 0 <= j < |s.random|
  {
    if i == j then s else
      var a, b := s.random[i], s.random[j];
      s.(infos := s.infos[a := s.infos[a].(randomPos := j)][b := s.infos[b].(randomPos := i)],
         random := s.random[i := b][j := a])
  }

  function Delete(s: State, id: int): State
    requires RandomOk(s) && id in s.infos
  {
    var s1 := SwapRandom(s, s.infos[id].randomPos, |s.random| - 1);
    s1.(random := s1.random[..|s1.random| - 1],
        addrs := s1.addrs - {s.infos[id].service.host},
        infos := s1.infos - {id},
        nNew := s1.nNew - 1)
  }

  // ------------------------------------------- the primitives keep the core

  /** Entries of m, perhaps fewer, agreeing on everything but their random position. */
  ghost predicate SameButRandom(m: map<int, Info>, m': map<int, Info>) {
    && m'.Keys <= m.Keys
    && forall id | id in m' :: m'[id] == m[id].(randomPos := m'[id].randomPos)
  }

  lemma SwapRandomOk(s: State, i: int, j: int)
    requires RandomOk(s) && 0 <= i < |s.random| && 0 <= j < |s.random|
    ensures RandomOk(SwapRandom(s, i, j))
  {
    var s' := SwapRandom(s, i, j);
    forall id | id in s'.infos
      ensures 0 <= s'.infos[id].randomPos < |s'.random| && s'.random[s'.infos[id].randomPos] == id
    {
    }
  }

  lemma SwapRandomSame(s: State, i: int, j: int)
    requires RandomOk(s) && 0 <= i < |s.random| && 0 <= j < |s.random|
    ensures SameButRandom(s.infos, SwapRandom(s, i, j).infos)
    ensures SwapRandom(s, i, j).infos.Keys == s.infos.Keys
  {
  }

  lemma SwapRandomPermutes(s: State, i: int, j: int)
    requires RandomOk(s) && 0 <= i < |s.random| && 0 <= j < |s.random|
    ensures multiset(SwapRandom(s, i, j).random) == multiset(s.random)
  {
  }

  /** s' is s without the entry id, other entries having at most moved in the random order. */
  ghost predicate Removed(s: State, s': State, id: int) {
    && id in s.infos
    && s'.infos.Keys == s.infos.Keys - {id}
    && (forall k | k in s'.infos :: s'.infos[k] == s.infos[k].(randomPos := s'.infos[k].randomPos))
    && s'.addrs == s.addrs - {s.infos[id].service.host}
    && s'.key == s.key && s'.idCount == s.idCount && s'.lastGood == s.lastGood
    && s'.newTable == s.newTable && s'.triedTable == s.triedTable
    && s'.nTried == s.nTried && s'.nNew == s.nNew - 1
  }

  lemma DeleteRemoves(s: State, id: int)
    requires RandomOk(s) && id in s.infos
    ensures Removed(s, Delete(s, id), id)
  {
    SwapRandomSame(s, s.infos[id].randomPos, |s.random| - 1);
  }

  lemma DeleteRandomOk(s: State, id: int)
    requires RandomOk(s) && id in s.infos
    ensures RandomOk(Delete(s, id))
  {
    var s1 := SwapRandom(s, s.infos[id].randomPos, |s.random| - 1);
    SwapRandomOk(s, s.infos[id].randomPos, |s.random| - 1);
    DropLastRandom(s1, id, Delete(s, id));
  }

  lemma DropLastRandom(s: State, id: int, s': State)
    requires RandomOk(s) && s.random != [] && s.random[|s.random| - 1] == id
    requires s'.random == s.random[..|s.random| - 1] && s'.infos == s.infos - {id}
    ensures RandomOk(s')
  {
  }

  lemma RemovedIndex(s: State, s': State, id: int)
    requires Removed(s, s', id) && AddrsOk(s) && IdsOk(s)
    ensures AddrsOk(s') && IdsOk(s')
  {
  }

  /** Entries the tables cannot tell apart. */
  ghost predicate SameEntry(i: Info, j: Info) {
    i.service == j.service && i.inTried == j.inTried && i.refCount == j.refCount
  }

  lemma RemovedNewTable(env: Env, s: State, s': State, id: int)
    requires Removed(s, s', id) && NewTableOk(env, s) && RefsOk(s) && s.infos[id].refCount == 0
    ensures NewTableOk(env, s')
  {
    forall k | k in s'.infos ensures SameEntry(s.infos[k], s'.infos[k]) {
    }
    assert Refs(s.newTable, id) == {};
    forall sl | sl in s'.newTable ensures s'.newTable[sl] in s'.infos {
      assert sl in Refs(s.newTable, s.newTable[sl]);
    }
  }

  lemma RemovedRefs(s: State, s': State, id: int)
    requires Removed(s, s', id) && RefsOk(s)
    ensures RefsOk(s')
  {
    forall k | k in s'.infos ensures SameEntry(s.infos[k], s'.infos[k]) {
    }
  }

  lemma RemovedTriedTable(env: Env, s: State, s': State, id: int)
    requires Removed(s, s', id) && TriedTableOk(env, s) && !s.infos[id].inTried
    ensures TriedTableOk(env, s')
  {
    forall k | k in s'.infos ensures SameEntry(s.infos[k], s'.infos[k]) {
    }
  }

  lemma RemovedCounts(s: State, s': State, id: int, moving: int)
    requires Removed(s, s', id) && CountsOk(s, moving) && !s.infos[id].inTried
    ensures CountsOk(s', moving)
  {
    forall k | k in s'.infos ensures SameEntry(s.infos[k], s'.infos[k]) {
    }
    assert TriedIds(s'.infos) == TriedIds(s.infos);
    assert NewIds(s'.infos) == NewIds(s.infos) - {id};
  }

  lemma DeleteCore(env: Env, s: State, id: int, moving: int)
    requires Core(env, s, moving)
    requires id in s.infos && !s.infos[id].inTried && s.infos[id].refCount == 0
    ensures Core(env, Delete(s, id), moving)
  {
    DeleteRemoves(s, id);
    DeleteRandomOk(s, id);
    RemovedIndex(s, Delete(s, id), id);
    RemovedNewTable(env, s, Delete(s, id), id);
    RemovedRefs(s, Delete(s, id), id);
    RemovedTriedTable(env, s, Delete(s, id), id);
    RemovedCounts(s, Delete(s, id), id, moving);
  }

  /** Rewriting an entry's statistics, counts or table membership leaves the indexes alone. */
  lemma SetInfoIndex(s: State, id: int, info: Info)
    requires IndexOk(s) && id in s.infos
    requires info.service == s.infos[id].service && info.randomPos == s.infos[id].randomPos
    ensures IndexOk(SetInfo(s, id, info))
  {
    var s' := SetInfo(s, id, info);
    forall i | 0 <= i < |s'.random| ensures s'.random[i] in s'.infos && s'.infos[s'.random[i]].randomPos == i {
      assert s.random[i] in s.infos;
    }
    forall a | a in s'.addrs ensures s'.addrs[a] in s'.infos && s'.infos[s'.addrs[a]].service.host == a {
      assert s.addrs[a] in s.infos;
    }
  }

  lemma SetInfoCore(env: Env, s: State, id: int, info: Info, moving: int)
    requires Core(env, s, moving) && id in s.infos
    requires SameEntry(info, s.infos[id]) && info.randomPos == s.infos[id].randomPos
    ensures Core(env, SetInfo(s, id, info), moving)
    ensures RangeOk(s, {}) ==> RangeOk(SetInfo(s, id, info), {})
  {
    SetInfoIndex(s, id, info);
    var s' := SetInfo(s, id, info);
    assert TriedIds(s'.infos) == TriedIds(s.infos);
    assert NewIds(s'.infos) == NewIds(s.infos);
  }

  // ---- one "new" slot

  function Unref(s: State, sl: Slot): State
    requires sl in s.newTable && s.newTable[sl] in s.infos
  {
    var id := s.newTable[sl];
    SetInfo(s, id, s.infos[id].(refCount := s.infos[id].refCount - 1)).(newTable := s.newTable - {sl})
  }

  function Ref(s: State, sl: Slot, id: int): State
    requires id in s.infos
  {
    SetInfo(s, id, s.infos[id].(refCount := s.infos[id].refCount + 1)).(newTable := s.newTable[sl := id])
  }

  lemma UnrefRandom(s: State, sl: Slot)
    requires sl in s.newTable && s.newTable[sl] in s.infos && RandomOk(s)
    ensures RandomOk(Unref(s, sl))
  {
  }

  lemma UnrefRefs(s: State, sl: Slot)
    requires sl in s.newTable && s.newTable[sl] in s.infos && RefsOk(s)
    ensures RefsOk(Unref(s, sl)) && s.infos[s.newTable[sl]].refCount >= 1
  {
    var s' := Unref(s, sl);
    assert sl in Refs(s.newTable, s.newTable[sl]);
    forall k | k in s'.infos ensures s'.infos[k].refCount == |Refs(s'.newTable, k)| {
      assert Refs(s'.newTable, k) == Refs(s.newTable, k) - {sl};
      if k != s.newTable[sl] {
        assert sl !in Refs(s.newTable, k);
      }
    }
  }

  lemma UnrefCore(env: Env, s: State, sl: Slot, moving: int)
    requires Core(env, s, moving) && sl in s.newTable
    ensures Core(env, Unref(s, sl), moving) && s.infos[s.newTable[sl]].refCount >= 1
  {
    var id := s.newTable[sl];
    var s' := Unref(s, sl);
    SetInfoIndex(s, id, s'.infos[id]);
    UnrefRefs(s, sl);
    assert TriedIds(s'.infos) == TriedIds(s.infos);
    assert NewIds(s'.infos) == NewIds(s.infos);
  }

  lemma RefRefs(s: State, sl: Slot, id: int)
    requires sl !in s.newTable && id in s.infos && RefsOk(s)
    ensures RefsOk(Ref(s, sl, id))
  {
    var s' := Ref(s, sl, id);
    forall k | k in s'.infos ensures s'.infos[k].refCount == |Refs(s'.newTable, k)| {
      if k == id {
        assert Refs(s'.newTable, k) == Refs(s.newTable, k) + {sl};
        assert sl !in Refs(s.newTable, k);
      } else {
        assert Refs(s'.newTable, k) == Refs(s.newTable, k);
      }
    }
  }

  lemma RefCore(env: Env, s: State, sl: Slot, id: int, moving: int)
    requires Core(env, s, moving) && sl !in s.newTable && id in s.infos && !s.infos[id].inTried
    requires 0 <= sl.0 < NEW_BUCKET_COUNT && sl.1 == BucketPosition(env, s.key, true, sl.0, s.infos[id].service)
    ensures Core(env, Ref(s, sl, id), moving)
  {
    var s' := Ref(s, sl, id);
    SetInfoIndex(s, id, s'.infos[id]);
    RefRefs(s, sl, id);
    assert TriedIds(s'.infos) == TriedIds(s.infos);
    assert NewIds(s'.infos) == NewIds(s.infos);
  }

  /** Empty a "new" slot, deleting its entry when that was the last reference. */
  function ClearNew(s: State, sl: Slot): State
    requires RandomOk(s)
    requires sl in s.newTable ==> s.newTable[sl] in s.infos
  {
    if sl !in s.newTable then s
    else if s.infos[s.newTable[sl]].refCount - 1 == 0 then
      UnrefRandom(s, sl);
      Delete(Unref(s, sl), s.newTable[sl])
    else Unref(s, sl)
  }

  /** The slot ends up free; nobody but its occupant is affected, and the occupant survives exactly
      when it has another reference. */
  lemma ClearNewCore(env: Env, s: State, sl: Slot, moving: int, except: set<int>)
    requires Core(env, s, moving) && RangeOk(s, except)
    ensures var s' := ClearNew(s, sl);
      && Core(env, s', moving)
      && s'.newTable == s.newTable - {sl} && s'.triedTable == s.triedTable
      && s'.key == s.key && s'.nTried == s.nTried && s'.idCount == s.idCount
      && RangeOk(s', except)
  {
    if sl in s.newTable {
      var id := s.newTable[sl];
      UnrefCore(env, s, sl, moving);
      if s.infos[id].refCount == 1 {
        DeleteCore(env, Unref(s, sl), id, moving);
        DeleteRemoves(Unref(s, sl), id);
      }
    }
  }

  lemma ClearNewOthers(env: Env, s: State, sl: Slot, k: int)
    requires Core(env, s, 0) || Core(env, s, 1) || Core(env, s, 2)
    requires k in s.infos
    ensures var s' := ClearNew(s, sl);
      if SlotId(s.newTable, sl) != k then
        k in s'.infos && s'.infos[k] == s.infos[k].(randomPos := s'.infos[k].randomPos)
      else
        && (k in s'.infos <==> s.infos[k].refCount > 1)
        && (k in s'.infos ==> SameEntry(s'.infos[k], s.infos[k].(refCount := s.infos[k].refCount - 1)))
  {
    if sl in s.newTable {
      UnrefRefs(s, sl);
      if s.infos[s.newTable[sl]].refCount == 1 {
        assert RandomOk(Unref(s, sl));
        DeleteRemoves(Unref(s, sl), s.newTable[sl]);
      }
    }
  }

  // ---- moving between the tables

  /** Drop every "new" slot holding the id. */
  function DropRefs(s: State, id: int): State
    requires id in s.infos
  {
    SetInfo(s, id, s.infos[id].(refCount := 0)).(
      newTable := s.newTable - Refs(s.newTable, id))
  }

  /** Take the occupant out of a "tried" slot. */
  function Untry(s: State, sl: Slot): State
    requires sl in s.triedTable && s.triedTable[sl] in s.infos
  {
    var id := s.triedTable[sl];
    SetInfo(s, id, s.infos[id].(inTried := false)).(triedTable := s.triedTable - {sl}, nTried := s.nTried - 1)
  }

  /** Enter an unreferenced entry into a "tried" slot. */
  function Try(s: State, sl: Slot, id: int): State
    requires id in s.infos
  {
    SetInfo(s, id, s.infos[id].(inTried := true)).(triedTable := s.triedTable[sl := id], nTried := s.nTried + 1)
  }

  lemma DropRefsRefs(s: State, id: int)
    requires id in s.infos && RefsOk(s)
    ensures RefsOk(DropRefs(s, id))
  {
    var s' := DropRefs(s, id);
    forall k | k in s'.infos ensures s'.infos[k].refCount == |Refs(s'.newTable, k)| {
      if k == id {
        assert Refs(s'.newTable, k) == {};
      } else {
        assert Refs(s'.newTable, k) == Refs(s.newTable, k);
      }
    }
  }

  lemma DropRefsTables(env: Env, s: State, id: int)
    requires id in s.infos && NewTableOk(env, s) && TriedTableOk(env, s)
    ensures NewTableOk(env, DropRefs(s, id)) && TriedTableOk(env, DropRefs(s, id))
  {
  }

  lemma DropRefsCounts(s: State, id: int, moving: int)
    requires id in s.infos && CountsOk(s, moving)
    ensures CountsOk(DropRefs(s, id), moving)
  {
    assert TriedIds(DropRefs(s, id).infos) == TriedIds(s.infos);
    assert NewIds(DropRefs(s, id).infos) == NewIds(s.infos);
  }

  lemma DropRefsCore(env: Env, s: State, id: int, moving: int)
    requires Core(env, s, moving) && id in s.infos
    ensures Core(env, DropRefs(s, id), moving)
  {
    SetInfoIndex(s, id, DropRefs(s, id).infos[id]);
    DropRefsTables(env, s, id);
    DropRefsRefs(s, id);
    DropRefsCounts(s, id, moving);
  }

  lemma UntryTables(env: Env, s: State, sl: Slot)
    requires TriedTableOk(env, s) && NewTableOk(env, s) && sl in s.triedTable
    ensures TriedTableOk(env, Untry(s, sl)) && NewTableOk(env, Untry(s, sl))
  {
  }

  lemma UntryCounts(s: State, sl: Slot, moving: int)
    requires sl in s.triedTable && s.triedTable[sl] in s.infos && s.infos[s.triedTable[sl]].inTried
    requires CountsOk(s, moving) && RefsOk(s)
    ensures CountsOk(Untry(s, sl), moving + 1) && RefsOk(Untry(s, sl))
  {
    var id := s.triedTable[sl];
    assert TriedIds(Untry(s, sl).infos) == TriedIds(s.infos) - {id};
    assert NewIds(Untry(s, sl).infos) == NewIds(s.infos) + {id};
  }

  lemma UntryCore(env: Env, s: State, sl: Slot, moving: int)
    requires Core(env, s, moving) && sl in s.triedTable
    ensures Core(env, Untry(s, sl), moving + 1)
  {
    SetInfoIndex(s, s.triedTable[sl], Untry(s, sl).infos[s.triedTable[sl]]);
    UntryTables(env, s, sl);
    UntryCounts(s, sl, moving);
  }

  lemma TryTried(env: Env, s: State, sl: Slot, id: int)
    requires IdsOk(s) && TriedTableOk(env, s) && id in s.infos && !s.infos[id].inTried
    requires sl == TriedSlot(env, s.key, s.infos[id].service) && sl !in s.triedTable
    ensures TriedTableOk(env, Try(s, sl, id))
  {
  }

  lemma TryNew(env: Env, s: State, sl: Slot, id: int)
    requires NewTableOk(env, s) && RefsOk(s) && id in s.infos && s.infos[id].refCount == 0
    ensures NewTableOk(env, Try(s, sl, id)) && RefsOk(Try(s, sl, id))
  {
    assert Refs(s.newTable, id) == {};
    forall at | at in s.newTable ensures s.newTable[at] != id {
      assert at in Refs(s.newTable, s.newTable[at]);
    }
  }

  lemma TryCounts(s: State, sl: Slot, id: int, moving: int)
    requires CountsOk(s, moving) && id in s.infos && !s.infos[id].inTried
    ensures CountsOk(Try(s, sl, id), moving - 1)
  {
    assert TriedIds(Try(s, sl, id).infos) == TriedIds(s.infos) + {id};
    assert NewIds(Try(s, sl, id).infos) == NewIds(s.infos) - {id};
  }

  lemma TryCore(env: Env, s: State, sl: Slot, id: int, moving: int)
    requires Core(env, s, moving) && id in s.infos && !s.infos[id].inTried && s.infos[id].refCount == 0
    requires sl == TriedSlot(env, s.key, s.infos[id].service) && sl !in s.triedTable
    ensures Core(env, Try(s, sl, id), moving - 1)
  {
    SetInfoIndex(s, id, Try(s, sl, id).infos[id]);
    TryTried(env, s, sl, id);
    TryNew(env, s, sl, id);
    TryCounts(s, sl, id, moving);
  }

  lemma CreateRandom(s: State, addr: Address, source: NetAddr)
    requires RandomOk(s) && IdsOk(s)
    ensures RandomOk(Create(s, addr, source))
  {
    var s' := Create(s, addr, source);
    forall i | 0 <= i < |s'.random| ensures s'.random[i] in s'.infos && s'.infos[s'.random[i]].randomPos == i {
      if i < |s.random| {
        assert s.random[i] in s.infos;
      }
    }
  }

  lemma CreateAddrs(s: State, addr: Address, source: NetAddr)
    requires AddrsOk(s) && IdsOk(s) && addr.service.host !in s.addrs
    ensures AddrsOk(Create(s, addr, source)) && IdsOk(Create(s, addr, source))
  {
    var s' := Create(s, addr, source);
    forall a | a in s'.addrs ensures s'.addrs[a] in s'.infos && s'.infos[s'.addrs[a]].service.host == a {
      if a in s.addrs {
        assert s.addrs[a] in s.infos;
      }
    }
  }

  lemma CreateTables(env: Env, s: State, addr: Address, source: NetAddr)
    requires IdsOk(s) && NewTableOk(env, s) && TriedTableOk(env, s)
    ensures NewTableOk(env, Create(s, addr, source)) && TriedTableOk(env, Create(s, addr, source))
  {
  }

  lemma CreateRefs(env: Env, s: State, addr: Address, source: NetAddr)
    requires IdsOk(s) && NewTableOk(env, s) && RefsOk(s)
    ensures RefsOk(Create(s, addr, source))
  {
    assert Refs(s.newTable, s.idCount) == {};
  }

  lemma CreateCounts(s: State, addr: Address, source: NetAddr)
    requires IdsOk(s) && CountsOk(s, 0)
    ensures CountsOk(Create(s, addr, source), 1)
  {
    var s' := Create(s, addr, source);
    assert TriedIds(s'.infos) == TriedIds(s.infos);
    assert NewIds(s'.infos) == NewIds(s.infos) + {s.idCount};
  }

  lemma CreateCore(env: Env, s: State, addr: Address, source: NetAddr)
    requires Core(env, s, 0) && addr.service.host !in s.addrs
    ensures Core(env, Create(s, addr, source), 1)
  {
    CreateRandom(s, addr, source);
    CreateAddrs(s, addr, source);
    CreateTables(env, s, addr, source);
    CreateRefs(env, s, addr, source);
    CreateCounts(s, addr, source);
  }

  /** Correcting nNew settles entries on the move. */
  lemma SettleCore(env: Env, s: State, moving: int, settled: int)
    requires Core(env, s, moving)
    ensures Core(env, s.(nNew := s.nNew + settled), moving - settled)
  {
  }

  lemma RefRange(s: State, sl: Slot, id: int, except: set<int>)
    requires id in s.infos && RangeOk(s, except + {id})
    requires 0 <= s.infos[id].refCount < NEW_BUCKETS_PER_ADDRESS
    ensures RangeOk(Ref(s, sl, id), except)
  {
  }

  lemma ClearNewIds(s: State, sl: Slot)
    requires RandomOk(s) && (sl in s.newTable ==> s.newTable[sl] in s.infos)
    ensures ClearNew(s, sl).infos.Keys <= s.infos.Keys
  {
    if sl in s.newTable && s.infos[s.newTable[sl]].refCount == 1 {
      assert RandomOk(Unref(s, sl));
      DeleteRemoves(Unref(s, sl), s.newTable[sl]);
    }
  }
}
