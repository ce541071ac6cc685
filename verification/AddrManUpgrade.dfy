/**
 Reading a file whose buckets cannot be used, because its version or its number of buckets is another one: every "new"
 entry is given the slot of its own source, the first to ask for a slot gets it, and the others are forgotten.
 */
module AddrManUpgrade {
  import opened Wrappers
  import opened Folding
  import opened AddrManModel
  import opened AddrManSerial

  /** The i-th asks for its slot before any other. */
  ghost predicate First(slots: seq<Slot>, i: int) {
    0 <= i < |slots| && forall j | 0 <= j < i :: slots[j] != slots[i]
  }

  ghost function NewSlots(env: Env, key: nat, list: seq<SavedInfo>): (r: seq<Slot>)
    ensures |r| == |list|
  {
    seq(|list|, i requires 0 <= i < |list| => NewSlot(env, key, list[i].service, list[i].source))
  }

  ghost function TriedSlots(env: Env, key: nat, list: seq<SavedInfo>): (r: seq<Slot>)
    ensures |r| == |list|
  {
    seq(|list|, i requires 0 <= i < |list| => TriedSlot(env, key, list[i].service))
  }

  /** An entry as it was written, with some references. */
  ghost predicate AsWritten(info: Info, e: SavedInfo, refs: int, tried: bool) {
    && info.service == e.service && info.services == e.services && info.time == e.time && info.source == e.source
    && info.lastSuccess == e.lastSuccess && info.attempts == e.attempts
    && info.lastTry == 0 && info.lastCountAttempt == 0 && info.refCount == refs && info.inTried == tried
  }

  // ------------------------------------------------------------------ new entries

  ghost predicate ReadNew(slots: seq<Slot>, list: seq<SavedInfo>, key: nat, t: State, n: nat) {
    && n <= |list| == |slots| && t.key == key && t.triedTable == map[]
    && (forall id | id in t.infos :: 0 <= id < n)
    && (forall i | 0 <= i < n :: i in t.infos && AsWritten(t.infos[i], list[i], if First(slots, i) then 1 else 0, false))
    && (forall i | 0 <= i < n :: slots[i] in t.newTable)
    && (forall sl | sl in t.newTable :: 0 <= t.newTable[sl] < n && slots[t.newTable[sl]] == sl && First(slots, t.newTable[sl]))
  }

  /** What reading one "new" entry does. */
  lemma LoadedNew(env: Env, t: State, n: nat, e: SavedInfo, sl: Slot)
    requires sl == NewSlot(env, t.key, e.service, e.source)
    ensures var t' := LoadOne(env, t, n, e, false);
      && t'.key == t.key && t'.triedTable == t.triedTable
      && t'.newTable == (if sl in t.newTable then t.newTable else t.newTable[sl := n])
      && n in t'.infos && t'.infos == t.infos[n := t'.infos[n]] && AsWritten(t'.infos[n], e, if sl in t.newTable then 0 else 1, false)
  {
  }

  lemma FirstIfFree(slots: seq<Slot>, list: seq<SavedInfo>, key: nat, t: State, n: nat)
    requires ReadNew(slots, list, key, t, n) && n < |list|
    ensures slots[n] in t.newTable <==> !First(slots, n)
  {
  }

  lemma NewRead(slots: seq<Slot>, list: seq<SavedInfo>, key: nat, t: State, n: nat, t': State)
    requires ReadNew(slots, list, key, t, n) && n < |list| && t'.key == t.key && t'.triedTable == t.triedTable
    requires t'.newTable == (if First(slots, n) then t.newTable[slots[n] := n] else t.newTable)
    requires slots[n] in t.newTable <==> !First(slots, n)
    requires n in t'.infos && t'.infos == t.infos[n := t'.infos[n]] && AsWritten(t'.infos[n], list[n], if First(slots, n) then 1 else 0, false)
    ensures ReadNew(slots, list, key, t', n + 1)
  {
    forall i | 0 <= i < n + 1 ensures i in t'.infos && AsWritten(t'.infos[i], list[i], if First(slots, i) then 1 else 0, false) {
      if i < n {
        assert AsWritten(t.infos[i], list[i], if First(slots, i) then 1 else 0, false);
      }
    }
  }

  lemma ReadNewStep(env: Env, list: seq<SavedInfo>, slots: seq<Slot>, key: nat, t: State, n: nat)
    requires ReadNew(slots, list, key, t, n) && n < |list| && slots[n] == NewSlot(env, key, list[n].service, list[n].source)
    ensures ReadNew(slots, list, key, NewReader(env, false)(t, n, list[n]), n + 1)
  {
    FirstIfFree(slots, list, key, t, n);
    LoadedNew(env, t, n, list[n], slots[n]);
    NewRead(slots, list, key, t, n, LoadOne(env, t, n, list[n], false));
  }

  lemma {:induction false} ReadNewAll(env: Env, start: State, list: seq<SavedInfo>, slots: seq<Slot>, n: nat)
    requires start.infos == map[] && start.newTable == map[] && start.triedTable == map[]
    requires n <= |list| == |slots| && forall i | 0 <= i < |list| :: slots[i] == NewSlot(env, start.key, list[i].service, list[i].source)
    ensures ReadNew(slots, list, start.key, Fold(NewReader(env, false), start, list[..n]), n)
  {
    if n > 0 {
      ReadNewAll(env, start, list, slots, n - 1);
      FoldOn(NewReader(env, false), start, list, n - 1);
      ReadNewStep(env, list, slots, start.key, Fold(NewReader(env, false), start, list[..n - 1]), n - 1);
    }
  }

  // ---------------------------------------------------------------- tried entries

  /** A slot holds the first entry that asked for it. */
  ghost predicate HoldsFirst(slots: seq<Slot>, list: seq<SavedInfo>, t: State, n: nat, sl: Slot)
    requires |slots| == |list|
  {
    sl in t.triedTable && t.triedTable[sl] in t.infos && t.triedTable[sl] >= n &&
    exists j | 0 <= j < |list| :: First(slots, j) && slots[j] == sl && AsWritten(t.infos[t.triedTable[sl]], list[j], 0, true)
  }

  /** After m tried entries on top of n new ones. */
  ghost predicate ReadTried(slots: seq<Slot>, list: seq<SavedInfo>, s: State, n: nat, t: State, m: nat) {
    && m <= |list| == |slots| && t.key == s.key && t.newTable == s.newTable && t.idCount >= n
    && (forall id | id in s.infos :: id < n && id in t.infos && t.infos[id] == s.infos[id])
    && (forall id | id in t.infos :: id < t.idCount && (id in s.infos || (id >= n && t.infos[id].inTried)))
    && (forall j | 0 <= j < m :: slots[j] in t.triedTable)
    && (forall sl | sl in t.triedTable :: HoldsFirst(slots, list, t, n, sl))
    && (forall sl | sl in t.triedTable :: exists j | 0 <= j < m :: slots[j] == sl)
  }

  lemma SlotHeld(slots: seq<Slot>, list: seq<SavedInfo>, t: State, t': State, n: nat, sl: Slot)
    requires |slots| == |list| && HoldsFirst(slots, list, t, n, sl)
    requires sl in t'.triedTable && t'.triedTable[sl] == t.triedTable[sl]
    requires t.triedTable[sl] in t'.infos && t'.infos[t.triedTable[sl]] == t.infos[t.triedTable[sl]]
    ensures HoldsFirst(slots, list, t', n, sl)
  {
  }

  lemma SlotTaken(slots: seq<Slot>, list: seq<SavedInfo>, s: State, n: nat, t: State, m: nat)
    requires ReadTried(slots, list, s, n, t, m) && m < |list| && slots[m] in t.triedTable
    ensures ReadTried(slots, list, s, n, t.(nTried := t.nTried - 1), m + 1)
  {
    forall sl | sl in t.triedTable ensures HoldsFirst(slots, list, t.(nTried := t.nTried - 1), n, sl) {
      SlotHeld(slots, list, t, t.(nTried := t.nTried - 1), n, sl);
    }
  }

  lemma SlotFree(slots: seq<Slot>, list: seq<SavedInfo>, s: State, n: nat, t: State, m: nat, t': State)
    requires ReadTried(slots, list, s, n, t, m) && m < |list| && slots[m] !in t.triedTable
    requires t'.key == t.key && t'.newTable == t.newTable && t'.idCount == t.idCount + 1
    requires t'.triedTable == t.triedTable[slots[m] := t.idCount]
    requires t.idCount in t'.infos && t'.infos == t.infos[t.idCount := t'.infos[t.idCount]]
    requires AsWritten(t'.infos[t.idCount], list[m], 0, true)
    ensures ReadTried(slots, list, s, n, t', m + 1)
  {
    assert First(slots, m);
    forall sl | sl in t'.triedTable
      ensures HoldsFirst(slots, list, t', n, sl)
      ensures exists j | 0 <= j < m + 1 :: slots[j] == sl {
      if sl == slots[m] {
        assert AsWritten(t'.infos[t'.triedTable[sl]], list[m], 0, true);
      } else {
        SlotHeld(slots, list, t, t', n, sl);
      }
    }
  }

  /** What reading one "tried" entry does. */
  lemma LoadedTried(env: Env, t: State, e: SavedInfo, sl: Slot)
    requires sl == TriedSlot(env, t.key, e.service) && t.idCount >= 0
    ensures var t' := LoadOneTried(env, t, e);
      if sl in t.triedTable then t' == t.(nTried := t.nTried - 1)
      else
        && t'.key == t.key && t'.newTable == t.newTable && t'.idCount == t.idCount + 1
        && t'.triedTable == t.triedTable[sl := t.idCount]
        && t.idCount in t'.infos && t'.infos == t.infos[t.idCount := t'.infos[t.idCount]]
        && AsWritten(t'.infos[t.idCount], e, 0, true)
  {
  }

  lemma ReadTriedStep(env: Env, list: seq<SavedInfo>, slots: seq<Slot>, s: State, n: nat, t: State, m: nat)
    requires ReadTried(slots, list, s, n, t, m) && m < |list| && slots[m] == TriedSlot(env, s.key, list[m].service)
    ensures ReadTried(slots, list, s, n, TriedReader(env)(t, m, list[m]), m + 1)
  {
    LoadedTried(env, t, list[m], slots[m]);
    if slots[m] in t.triedTable {
      SlotTaken(slots, list, s, n, t, m);
    } else {
      SlotFree(slots, list, s, n, t, m, LoadOneTried(env, t, list[m]));
    }
  }

  lemma ReadTriedNone(s: State, n: nat, list: seq<SavedInfo>, slots: seq<Slot>)
    requires s.triedTable == map[] && s.idCount == n && (forall id | id in s.infos :: id < n) && |slots| == |list|
    ensures ReadTried(slots, list, s, n, s, 0)
  {
  }

  lemma {:induction false} ReadTriedAll(env: Env, s: State, n: nat, list: seq<SavedInfo>, slots: seq<Slot>, m: nat)
    requires ReadTried(slots, list, s, n, s, 0) && m <= |list|
    requires forall j | 0 <= j < |list| :: slots[j] == TriedSlot(env, s.key, list[j].service)
    ensures ReadTried(slots, list, s, n, Fold(TriedReader(env), s, list[..m]), m)
  {
    if m > 0 {
      ReadTriedAll(env, s, n, list, slots, m - 1);
      FoldOn(TriedReader(env), s, list, m - 1);
      ReadTriedStep(env, list, slots, s, n, Fold(TriedReader(env), s, list[..m - 1]), m - 1);
    }
  }

  // ---------------------------------------------------------------------- pruning

  predicate Unreferenced(info: Info) { !info.inTried && info.refCount == 0 }

  /** Of the first n ids exactly the "new" entries without a reference are forgotten. */
  ghost predicate Pruned(s: State, r: State, n: nat, id: int) {
    && r.newTable == s.newTable && r.triedTable == s.triedTable
    && (id in r.infos <==> id in s.infos && !(0 <= id < n && Unreferenced(s.infos[id])))
    && (id in r.infos ==> r.infos[id] == s.infos[id].(randomPos := r.infos[id].randomPos))
  }

  /** The n-th of some states is followed by one with id n forgotten if nothing refers to it. */
  ghost predicate PrunesAt(f: nat -> State, n: nat) {
    if n in f(n).infos && Unreferenced(f(n).infos[n]) then Removed(f(n), f(n + 1), n) else f(n + 1) == f(n)
  }

  lemma {:induction false} PrunesOn(f: nat -> State, n: nat, id: int)
    requires forall k | 0 <= k < n :: PrunesAt(f, k)
    ensures Pruned(f(0), f(n), n, id)
  {
    if n > 0 {
      PrunesOn(f, n - 1, id);
      PrunesOn(f, n - 1, n - 1);
      assert PrunesAt(f, n - 1);
    }
  }

  lemma PruneExactly(s: State, n: nat, id: int)
    requires RandomOk(s)
    ensures Pruned(s, Prune(s, n), n, id)
  {
    var f := (k: nat) => Prune(s, k);
    forall k | 0 <= k < n ensures PrunesAt(f, k) {
      var r := Prune(s, k);
      if k in r.infos && Unreferenced(r.infos[k]) {
        DeleteRemoves(r, k);
      }
    }
    PrunesOn(f, n, id);
  }

  // ------------------------------------------------------------------------ result

  /** The "new" entries kept are the first to ask for their slots, each as it was written and with that one reference, and
      no slot refers to anything else. */
  ghost predicate NewKept(slots: seq<Slot>, list: seq<SavedInfo>, r: State)
    requires |slots| == |list|
  {
    && (forall i | 0 <= i < |list| :: i in r.infos <==> First(slots, i))
    && (forall i | 0 <= i < |list| && First(slots, i) ::
          AsWritten(r.infos[i], list[i], 1, false) && slots[i] in r.newTable && r.newTable[slots[i]] == i)
    && (forall sl | sl in r.newTable :: First(slots, r.newTable[sl]) && slots[r.newTable[sl]] == sl)
  }

  /** Every slot a "tried" entry asked for holds the first to ask for it, as it was written; no other slot is filled. */
  ghost predicate TriedKept(slots: seq<Slot>, list: seq<SavedInfo>, n: nat, r: State)
    requires |slots| == |list|
  {
    && (forall j | 0 <= j < |list| :: slots[j] in r.triedTable)
    && (forall sl | sl in r.triedTable :: HoldsFirst(slots, list, r, n, sl))
  }

  lemma NewsKept(slots: seq<Slot>, list: seq<SavedInfo>, s: State, t: State, n: nat)
    requires n == |list| && ReadNew(slots, list, s.key, s, n) && RandomOk(t) && t.newTable == s.newTable && t.idCount >= n
    requires forall id | id in s.infos :: id in t.infos && t.infos[id] == s.infos[id]
    ensures NewKept(slots, list, Prune(t, t.idCount))
  {
    var r := Prune(t, t.idCount);
    PruneExactly(t, t.idCount, 0);
    forall i | 0 <= i < n
      ensures i in r.infos <==> First(slots, i)
      ensures First(slots, i) ==> AsWritten(r.infos[i], list[i], 1, false) && slots[i] in r.newTable && r.newTable[slots[i]] == i {
      OneKept(slots, list, s, t, n, i);
    }
  }

  lemma OneKept(slots: seq<Slot>, list: seq<SavedInfo>, s: State, t: State, n: nat, i: nat)
    requires i < n == |list| && ReadNew(slots, list, s.key, s, n) && RandomOk(t) && t.newTable == s.newTable && t.idCount >= n
    requires i in s.infos ==> i in t.infos && t.infos[i] == s.infos[i]
    ensures var r := Prune(t, t.idCount);
      && (i in r.infos <==> First(slots, i))
      && (First(slots, i) ==> AsWritten(r.infos[i], list[i], 1, false) && slots[i] in r.newTable && r.newTable[slots[i]] == i)
  {
    PruneExactly(t, t.idCount, i);
    assert AsWritten(s.infos[i], list[i], if First(slots, i) then 1 else 0, false);
    assert slots[i] in s.newTable;
  }

  lemma TriedsKept(slots: seq<Slot>, list: seq<SavedInfo>, s: State, n: nat, t: State)
    requires ReadTried(slots, list, s, n, t, |list|) && RandomOk(t)
    ensures TriedKept(slots, list, n, Prune(t, t.idCount))
  {
    var r := Prune(t, t.idCount);
    PruneExactly(t, t.idCount, 0);
    forall sl | sl in r.triedTable ensures HoldsFirst(slots, list, r, n, sl) {
      assert HoldsFirst(slots, list, t, n, sl);
      PruneExactly(t, t.idCount, t.triedTable[sl]);
      var j :| 0 <= j < |list| && First(slots, j) && slots[j] == sl && AsWritten(t.infos[t.triedTable[sl]], list[j], 0, true);
      assert AsWritten(r.infos[r.triedTable[sl]], list[j], 0, true);
    }
  }

  lemma NewsRead(env: Env, start: State, news: seq<SavedInfo>)
    requires start.infos == map[] && start.newTable == map[] && start.triedTable == map[]
    ensures var s := Fold(NewReader(env, false), start, news).(idCount := |news|);
      s.key == start.key && ReadNew(NewSlots(env, s.key, news), news, s.key, s, |news|)
  {
    assert news[..|news|] == news;
    ReadNewAll(env, start, news, NewSlots(env, start.key, news), |news|);
  }

  lemma TriedsRead(env: Env, slots: seq<Slot>, news: seq<SavedInfo>, s: State, trieds: seq<SavedInfo>)
    requires ReadNew(slots, news, s.key, s, |news|) && s.idCount == |news|
    ensures ReadTried(TriedSlots(env, s.key, trieds), trieds, s, |news|, Fold(TriedReader(env), s, trieds), |trieds|)
  {
    assert trieds[..|trieds|] == trieds;
    ReadTriedNone(s, |news|, trieds, TriedSlots(env, s.key, trieds));
    ReadTriedAll(env, s, |news|, trieds, TriedSlots(env, s.key, trieds), |trieds|);
  }

  /** Any accepted file whose buckets cannot be used. */
  lemma OtherFormat(env: Env, m: Saved, news: seq<SavedInfo>, trieds: seq<SavedInfo>)
    requires !Refused(m) && m.newCount >= 0 && !(m.version == 1 && BucketCount(m) == 1024)
    requires news == Announced(m.newInfos, m.newCount) && trieds == Announced(m.triedInfos, m.triedCount)
    ensures Load(env, m).Some?
    ensures NewKept(NewSlots(env, m.key, news), news, Load(env, m).value)
    ensures TriedKept(TriedSlots(env, m.key, trieds), trieds, m.newCount, Load(env, m).value)
  {
    LoadEntriesListed(env, m, false);
    var start := EmptyState(m.key).(nNew := m.newCount, nTried := m.triedCount);
    var s := Fold(NewReader(env, false), start, news).(idCount := |news|);
    var t := Fold(TriedReader(env), s, trieds);
    NewsRead(env, start, news);
    TriedsRead(env, NewSlots(env, m.key, news), news, s, trieds);
    assert Load(env, m) == Some(Prune(t, t.idCount));
    NewsKept(NewSlots(env, m.key, news), news, s, t, |news|);
    TriedsKept(TriedSlots(env, m.key, trieds), trieds, s, |news|, t);
  }
}
