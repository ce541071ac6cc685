/**
 The manager's own consistency check, Check_, clause by clause, and how much of the invariant it sees.
 */
module AddrManCheck {
  import opened Counting
  import opened AddrManModel
  import opened AddrManOps
  import opened AddrManTheorems

  /** Reading mapAddr with operator[]: a missing host reads as id 0. */
  function LookUp(s: State, host: NetAddr): int {
    if host in s.addrs then s.addrs[host] else 0
  }

  /** The per-entry tests (return codes -1 to -6, -8 and -14). */
  ghost predicate EntryPasses(s: State, id: int)
    requires id in s.infos
  {
    var info := s.infos[id];
    && (info.inTried ==> info.lastSuccess != 0 && info.refCount == 0)
    && (!info.inTried ==> 1 <= info.refCount <= NEW_BUCKETS_PER_ADDRESS)
    && LookUp(s, info.service.host) == id
    && 0 <= info.randomPos < |s.random| && s.random[info.randomPos] == id
    && info.lastTry >= 0 && info.lastSuccess >= 0
  }

  ghost predicate EntriesPass(s: State) {
    forall id | id in s.infos :: EntryPasses(s, id)
  }

  /** The tried table visits each tried id once, in its slot (-11, -13, -17 and -18). */
  ghost predicate TriedPasses(env: Env, s: State) {
    && (forall sl | sl in s.triedTable ::
          s.triedTable[sl] in TriedIds(s.infos) && sl == TriedSlot(env, s.key, s.infos[s.triedTable[sl]].service))
    && (forall id | id in TriedIds(s.infos) :: |Refs(s.triedTable, id)| == 1)
  }

  /** The new table visits each untried id as often as its reference count says, in its slots (-12, -15 and -19). */
  ghost predicate NewPasses(env: Env, s: State) {
    && (forall sl | sl in s.newTable ::
          && s.newTable[sl] in NewIds(s.infos)
          && sl.1 == BucketPosition(env, s.key, true, sl.0, s.infos[s.newTable[sl]].service))
    && (forall id | id in NewIds(s.infos) :: |Refs(s.newTable, id)| == s.infos[id].refCount)
  }

  /** Check_ returns 0 (with -7, -9, -10 and -16). */
  ghost predicate CheckPasses(env: Env, s: State) {
    && |s.random| == s.nTried + s.nNew
    && EntriesPass(s)
    && |TriedIds(s.infos)| == s.nTried && |NewIds(s.infos)| == s.nNew
    && TriedPasses(env, s) && NewPasses(env, s)
    && s.key != 0
  }

  /** What Check_ cannot see: stray addresses, a missing address of entry 0, ids never handed out, buckets that do not
      exist. */
  ghost predicate Unseen(s: State) {
    && (forall a | a in s.addrs :: s.addrs[a] in s.infos && s.infos[s.addrs[a]].service.host == a)
    && (0 in s.infos ==> s.infos[0].service.host in s.addrs)
    && IdsOk(s)
    && forall sl | sl in s.newTable :: 0 <= sl.0 < NEW_BUCKET_COUNT
  }

  // ---------------------------------------------------------- cardinalities

  lemma SplitIds(infos: map<int, Info>)
    ensures |infos| == |TriedIds(infos)| + |NewIds(infos)|
  {
    assert TriedIds(infos) + NewIds(infos) == infos.Keys;
    assert TriedIds(infos) !! NewIds(infos);
  }

  /** As many entries as places, each at its own place: every place is taken. */
  lemma RandomOkFromCount(s: State)
    requires |s.infos| == |s.random|
    requires forall id | id in s.infos ::
      0 <= s.infos[id].randomPos < |s.random| && s.random[s.infos[id].randomPos] == id
    ensures RandomOk(s)
  {
    forall i | 0 <= i < |s.random| ensures s.random[i] in s.infos && s.infos[s.random[i]].randomPos == i {
      if forall id | id in s.infos :: s.infos[id].randomPos != i {
        NotAllPlaced(s, i);
      } else {
        var id :| id in s.infos && s.infos[id].randomPos == i;
        assert s.random[i] == id;
      }
    }
  }

  /** A place nobody holds leaves too few places. */
  lemma NotAllPlaced(s: State, i: int)
    requires 0 <= i < |s.random|
    requires forall id | id in s.infos ::
      0 <= s.infos[id].randomPos < |s.random| && s.random[s.infos[id].randomPos] == id && s.infos[id].randomPos != i
    ensures |s.infos| < |s.random|
  {
    var others := s.random[..i] + s.random[i + 1..];
    forall id | id in s.infos ensures id in others {
      var p := s.infos[id].randomPos;
      assert others[if p < i then p else p - 1] == id;
    }
    ElemsAtMost(others);
    SubsetSize(s.infos.Keys, Elems(others));
  }

  lemma CountFromRandomOk(s: State)
    requires RandomOk(s)
    ensures |s.infos| == |s.random|
  {
    forall id | id in s.infos ensures id in s.random {
      assert s.random[s.infos[id].randomPos] == id;
    }
    assert Elems(s.random) == s.infos.Keys;
    ElemsDistinct(s.random);
  }

  // ------------------------------------------------------- the equivalence

  lemma TriedPassesIff(env: Env, s: State)
    requires IdsOk(s)
    ensures TriedPasses(env, s) <==> TriedTableOk(env, s)
  {
    if TriedTableOk(env, s) {
      forall id | id in TriedIds(s.infos) ensures |Refs(s.triedTable, id)| == 1 {
        assert Refs(s.triedTable, id) == {TriedSlot(env, s.key, s.infos[id].service)};
      }
    }
    if TriedPasses(env, s) {
      forall id | id in s.infos && s.infos[id].inTried
        ensures SlotId(s.triedTable, TriedSlot(env, s.key, s.infos[id].service)) == id
      {
        assert id in TriedIds(s.infos);
        assert Refs(s.triedTable, id) != {};
        var sl :| sl in Refs(s.triedTable, id);
        assert sl == TriedSlot(env, s.key, s.infos[id].service);
      }
    }
  }

  lemma NewPassesFromInv(env: Env, s: State)
    requires NewTableOk(env, s) && RefsOk(s)
    ensures NewPasses(env, s)
    ensures forall id | id in s.infos && s.infos[id].inTried :: s.infos[id].refCount == 0
  {
    forall id | id in s.infos && s.infos[id].inTried ensures s.infos[id].refCount == 0 {
      assert Refs(s.newTable, id) == {};
    }
  }

  lemma NewInvFromPasses(env: Env, s: State)
    requires NewPasses(env, s)
    requires forall sl | sl in s.newTable :: 0 <= sl.0 < NEW_BUCKET_COUNT
    requires forall id | id in s.infos && s.infos[id].inTried :: s.infos[id].refCount == 0
    ensures NewTableOk(env, s) && RefsOk(s)
  {
    forall id | id in s.infos ensures s.infos[id].refCount == |Refs(s.newTable, id)| {
      if s.infos[id].inTried {
        assert Refs(s.newTable, id) == {};
      } else {
        assert id in NewIds(s.infos);
      }
    }
  }

  lemma CheckPassesFromInv(env: Env, s: State)
    requires Inv(env, s) && TimesOk(s) && s.key != 0
    ensures CheckPasses(env, s)
  {
    SplitIds(s.infos);
    CountFromRandomOk(s);
    TriedPassesIff(env, s);
    NewPassesFromInv(env, s);
    forall id | id in s.infos ensures EntryPasses(s, id) {
    }
  }

  lemma InvFromCheckPasses(env: Env, s: State)
    requires CheckPasses(env, s) && Unseen(s)
    ensures Inv(env, s) && TimesOk(s)
  {
    forall id | id in s.infos ensures EntryPasses(s, id) {
    }
    SplitIds(s.infos);
    RandomOkFromCount(s);
    TriedPassesIff(env, s);
    NewInvFromPasses(env, s);
  }

  /** Check_ accepts exactly the states of the invariant, among those without the faults it cannot see. */
  lemma CheckExactly(env: Env, s: State)
    ensures CheckPasses(env, s) && Unseen(s) <==> Inv(env, s) && TimesOk(s) && s.key != 0
  {
    if CheckPasses(env, s) && Unseen(s) {
      InvFromCheckPasses(env, s);
    }
    if Inv(env, s) && TimesOk(s) && s.key != 0 {
      CheckPassesFromInv(env, s);
    }
  }

  /** Every run from an empty manager, called with sensible times, passes Check_. */
  lemma EveryRunPassesCheck(env: Env, key: nat, ops: seq<Op>)
    requires key != 0 && forall op | op in ops :: TimelyOp(op)
    ensures Inv(env, EmptyState(key))
    ensures CheckPasses(env, Run(env, EmptyState(key), ops))
  {
    var s := EmptyState(key);
    EmptyInv(env, key);
    RunTimes(env, s, ops);
    CheckPassesFromInv(env, Run(env, s, ops));
  }
}
