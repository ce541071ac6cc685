/**
 CuckooCache::cache: a set of elements, each stored at one of eight places, with lazy erasing and displacement.
 A slot whose collection flag is set is dead: its element may still be found but may be overwritten at any time.
 */
module Cuckoo {
  import opened Folding
  import opened Nonlinear

  type Element = nat

  type Hash32 = x: nat | x < 0x1_0000_0000

  function Max(a: nat, b: nat): nat { if a < b then b else a }

  /** A hash is read as a fraction of one, and scaled to the size. */
  function Scale(h: Hash32, size: nat): (r: nat)
    requires size > 0
    ensures r < size
  {
    MulMonotone(h, 0xFFFF_FFFF, size);
    h * size / 0x1_0000_0000
  }

  /** A table: elements, dead flags and epoch flags. */
  datatype Table = Table(elements: seq<Element>, dead: seq<bool>, epoch: seq<bool>) {
    predicate Shape() { |elements| == |dead| == |epoch| > 0 }

    predicate Alive(i: nat) { i < |elements| && i < |dead| && !dead[i] }

    /** x is alive at i. */
    predicate Holds(i: nat, x: Element) { Alive(i) && elements[i] == x }

    ghost function Live(): set<Element> { set i | 0 <= i < |elements| && Alive(i) :: elements[i] }
  }

  /** Where an element may be: eight places of the table. */
  ghost predicate Places(locs: Element -> seq<nat>, size: nat) {
    forall e: Element :: |locs(e)| == 8 && forall k | 0 <= k < 8 :: locs(e)[k] < size
  }

  /** Place k is the first of an element's places that stores it. */
  ghost predicate FoundAt(locs: Element -> seq<nat>, t: Table, x: Element, k: nat)
    requires Places(locs, |t.elements|) && k < 8
  {
    t.elements[locs(x)[k]] == x && forall m | 0 <= m < k :: t.elements[locs(x)[m]] != x
  }

  /** Every live slot holds an element that a search finds just there. */
  ghost predicate Valid(locs: Element -> seq<nat>, t: Table) {
    && t.Shape() && Places(locs, |t.elements|)
    && forall i | 0 <= i < |t.elements| && t.Alive(i) :: Home(locs, t, i)
  }

  ghost predicate Home(locs: Element -> seq<nat>, t: Table, i: nat)
    requires Places(locs, |t.elements|) && i < |t.elements|
  {
    exists k | 0 <= k < 8 :: locs(t.elements[i])[k] == i && FoundAt(locs, t, t.elements[i], k)
  }

  /** No element is alive twice. */
  lemma LiveOnce(locs: Element -> seq<nat>, t: Table, i: nat, j: nat)
    requires Valid(locs, t) && i < |t.elements| && j < |t.elements| && t.Alive(i) && t.Alive(j)
    requires t.elements[i] == t.elements[j]
    ensures i == j
  {
    assert Home(locs, t, i) && Home(locs, t, j);
  }

  /** The element being carried is alive nowhere in the table. */
  ghost predicate Carried(t: Table, x: Element) { forall i: nat :: !t.Holds(i, x) }

  /** Putting a carried element at one of its places, where no earlier place stores it, keeps the table valid. */
  lemma PutKeeps(locs: Element -> seq<nat>, t: Table, x: Element, k: nat, e: bool)
    requires Valid(locs, t) && Carried(t, x) && k < 8
    requires forall m | 0 <= m < k :: t.elements[locs(x)[m]] != x
    ensures Valid(locs, Put(t, locs(x)[k], x, e))
  {
    var p := locs(x)[k];
    var t' := Put(t, p, x, e);
    forall i | 0 <= i < |t'.elements| && t'.Alive(i) ensures Home(locs, t', i) {
      if i == p {
        var q := FirstPlace(locs, t', x, k);
        assert FoundAt(locs, t', x, q);
      } else {
        assert Home(locs, t, i) && !t.Holds(i, x);
        var y := t.elements[i];
        var q :| 0 <= q < 8 && locs(y)[q] == i && FoundAt(locs, t, y, q);
        assert FoundAt(locs, t', y, q);
      }
    }
  }

  /** The first of an element's places that is the k-th one. */
  lemma FirstPlace(locs: Element -> seq<nat>, t: Table, x: Element, k: nat) returns (q: nat)
    requires Places(locs, |t.elements|) && k < 8 && t.elements[locs(x)[k]] == x
    requires forall m | 0 <= m < k && locs(x)[m] != locs(x)[k] :: t.elements[locs(x)[m]] != x
    ensures q <= k && locs(x)[q] == locs(x)[k] && FoundAt(locs, t, x, q)
    decreases k
  {
    if m :| 0 <= m < k && locs(x)[m] == locs(x)[k] {
      q := FirstPlace(locs, t, x, m);
    } else {
      q := k;
    }
  }

  function Put(t: Table, p: nat, x: Element, e: bool): Table
    requires t.Shape() && p < |t.elements|
  {
    Table(t.elements[p := x], t.dead[p := false], t.epoch[p := e])
  }

  // ------------------------------------------------------------- displacement

  /** An element comes with its epoch flag from the table before, or is the new one, which is recent. */
  ghost predicate From(before: Table, e: Element, x: Element, epoch: bool) {
    (x == e && epoch) || exists i: nat :: before.Holds(i, x) && i < |before.epoch| && before.epoch[i] == epoch
  }

  ghost predicate AllFrom(before: Table, e: Element, t: Table) {
    forall i: nat | t.Alive(i) && i < |t.epoch| :: From(before, e, t.elements[i], t.epoch[i])
  }

  /** While element c is carried: the table and c together hold what the table before and e held. */
  ghost predicate Carrying(locs: Element -> seq<nat>, before: Table, e: Element, t: Table, c: Element, epoch: bool) {
    && t.Shape() && Places(locs, |t.elements|)
    && forall u | Unfold(u) ::
      && Valid(locs, t) && |t.elements| == |before.elements| && t.dead == before.dead
      && Carried(t, c) && From(before, e, c, epoch) && AllFrom(before, e, t)
      && t.Live() + {c} == before.Live() + {e}
  }

  lemma StartCarrying(locs: Element -> seq<nat>, t: Table, e: Element)
    requires Valid(locs, t) && forall k | 0 <= k < 8 :: t.elements[locs(e)[k]] != e
    ensures Carrying(locs, t, e, t, e, true)
  {
    assert Unfold(0);
    forall i: nat | t.Alive(i) && i < |t.epoch| ensures From(t, e, t.elements[i], t.epoch[i]) {
      assert t.Holds(i, t.elements[i]);
    }
    forall i: nat ensures !t.Holds(i, e) {
      if t.Alive(i) {
        assert Home(locs, t, i);
      }
    }
  }

  /** What putting an element in changes in the set of live elements. */
  lemma PutLive(t: Table, p: nat, x: Element, e: bool)
    requires t.Shape() && p < |t.elements|
    requires !t.dead[p] ==> forall i: nat | i != p :: !t.Holds(i, t.elements[p])
    ensures Put(t, p, x, e).Live() == (if t.dead[p] then t.Live() else t.Live() - {t.elements[p]}) + {x}
  {
    var t' := Put(t, p, x, e);
    assert t'.Alive(p) && t'.elements[p] == x;
    forall y ensures y in t'.Live() <==> y in (if t.dead[p] then t.Live() else t.Live() - {t.elements[p]}) + {x} {
      if y in t'.Live() {
        var i :| 0 <= i < |t'.elements| && t'.Alive(i) && t'.elements[i] == y;
        assert i == p || (t.Alive(i) && t.Holds(i, y));
      }
      if y in t.Live() && (t.dead[p] || y != t.elements[p]) {
        var i :| 0 <= i < |t.elements| && t.Alive(i) && t.elements[i] == y;
        assert i != p && t'.Alive(i) && t'.elements[i] == y;
      }
    }
  }

  /** The carried element changes places with the one at a live slot. */
  lemma SwapCarries(locs: Element -> seq<nat>, before: Table, e: Element, t: Table, c: Element, epoch: bool, k: nat)
    requires Carrying(locs, before, e, t, c, epoch) && k < 8
    requires forall m | 0 <= m < 8 :: t.Alive(locs(c)[m])
    ensures var p := locs(c)[k]; Carrying(locs, before, e, Put(t, p, c, epoch), t.elements[p], t.epoch[p])
  {
    assert Unfold(0);
    var p := locs(c)[k];
    var t', c' := Put(t, p, c, epoch), t.elements[p];
    forall m | 0 <= m < k ensures t.elements[locs(c)[m]] != c {
      assert !t.Holds(locs(c)[m], c);
    }
    PutKeeps(locs, t, c, k, epoch);
    forall i: nat | i != p ensures !t.Holds(i, c') {
      if t.Holds(i, c') {
        LiveOnce(locs, t, i, p);
      }
    }
    PutLive(t, p, c, epoch);
    assert !t.Holds(p, c);
    assert t'.dead == t.dead;
    forall i: nat ensures !t'.Holds(i, c') {
      assert !t.Holds(i, c') || i == p;
    }
    assert c' in t.Live();
    assert From(before, e, t.elements[p], t.epoch[p]);
    forall i: nat | t'.Alive(i) && i < |t'.epoch| ensures From(before, e, t'.elements[i], t'.epoch[i]) {
      if i != p {
        assert t.Alive(i);
      }
    }
  }

  /** The outcome of an insertion: the elements before and the new one, less at most one, all with the epoch flags
      they had. */
  ghost predicate Inserted(locs: Element -> seq<nat>, before: Table, e: Element, t: Table, lost: set<Element>) {
    forall u | Unfold(u) ::
      && Valid(locs, t) && AllFrom(before, e, t)
      && |lost| <= 1 && lost <= before.Live() + {e} && t.Live() == before.Live() + {e} - lost
  }

  /** The carried element finds the first dead slot among its places. */
  lemma PlaceCarried(locs: Element -> seq<nat>, before: Table, e: Element, t: Table, c: Element, epoch: bool, k: nat)
    requires Carrying(locs, before, e, t, c, epoch) && k < 8
    requires (forall m | 0 <= m < k :: t.Alive(locs(c)[m])) && !t.Alive(locs(c)[k])
    ensures Inserted(locs, before, e, Put(t, locs(c)[k], c, epoch), {})
  {
    assert Unfold(0);
    var p := locs(c)[k];
    var t' := Put(t, p, c, epoch);
    forall m | 0 <= m < k ensures t.elements[locs(c)[m]] != c {
      assert !t.Holds(locs(c)[m], c);
    }
    PutKeeps(locs, t, c, k, epoch);
    PutLive(t, p, c, epoch);
    forall i: nat | t'.Alive(i) && i < |t'.epoch| ensures From(before, e, t'.elements[i], t'.epoch[i]) {
      if i != p {
        assert t.Alive(i);
      }
    }
  }

  /** Out of depth: the element carried last is dropped, and nothing else. */
  lemma DropCarried(locs: Element -> seq<nat>, before: Table, e: Element, t: Table, c: Element, epoch: bool)
    requires Carrying(locs, before, e, t, c, epoch)
    ensures Inserted(locs, before, e, t, {c})
  {
    assert Unfold(0);
    forall i | 0 <= i < |t.elements| && t.Alive(i) ensures t.elements[i] != c {
      assert !t.Holds(i, c);
    }
    assert c !in t.Live();
  }

  // ---------------------------------------------------------------- erasing

  /** t' is t with some more slots dead, or alive with other epoch flags. */
  lemma FewerAlive(locs: Element -> seq<nat>, t: Table, t': Table)
    requires Valid(locs, t) && t'.Shape() && t'.elements == t.elements && forall i: nat | t'.Alive(i) :: t.Alive(i)
    ensures Valid(locs, t') && t'.Live() <= t.Live()
  {
    forall i | 0 <= i < |t'.elements| && t'.Alive(i) ensures Home(locs, t', i) {
      assert Home(locs, t, i);
      var k :| 0 <= k < 8 && locs(t.elements[i])[k] == i && FoundAt(locs, t, t.elements[i], k);
      assert FoundAt(locs, t', t'.elements[i], k);
    }
  }

  /** The slot where a search finds an element is the only one where it can be alive. */
  lemma FoundIsHome(locs: Element -> seq<nat>, t: Table, x: Element, k: nat, i: nat)
    requires Valid(locs, t) && k < 8 && FoundAt(locs, t, x, k) && i != locs(x)[k]
    ensures !t.Holds(i, x)
  {
    if t.Alive(i) {
      assert Home(locs, t, i);
    }
  }

  /** Reviving or keeping the slot where an element was found. */
  lemma KeepFound(locs: Element -> seq<nat>, t: Table, x: Element, k: nat)
    requires Valid(locs, t) && k < 8 && FoundAt(locs, t, x, k)
    ensures Inserted(locs, t, x, Put(t, locs(x)[k], x, true), {})
  {
    assert Unfold(0);
    var p := locs(x)[k];
    var t' := Put(t, p, x, true);
    assert t'.elements == t.elements;
    forall i | 0 <= i < |t'.elements| && t'.Alive(i) ensures Home(locs, t', i) {
      if i == p {
        assert FoundAt(locs, t', x, k);
      } else {
        assert Home(locs, t, i);
        var q :| 0 <= q < 8 && locs(t.elements[i])[q] == i && FoundAt(locs, t, t.elements[i], q);
        assert FoundAt(locs, t', t'.elements[i], q);
      }
    }
    forall i: nat | t'.Alive(i) && i < |t'.epoch| ensures From(t, x, t'.elements[i], t'.epoch[i]) {
      if i != p {
        assert t.Holds(i, t.elements[i]);
      }
    }
    forall y ensures y in t'.Live() <==> y in t.Live() + {x} {
      if y in t.Live() {
        var i :| 0 <= i < |t.elements| && t.Alive(i) && t.elements[i] == y;
        assert t'.Alive(i) && t'.elements[i] == y;
      }
      assert t'.Alive(p) && t'.elements[p] == x;
    }
  }

  // -------------------------------------------------------------------- chain

  /** The first dead one of some places, or their number. */
  function FirstDead(t: Table, places: seq<nat>): (r: nat)
    ensures r <= |places| && (forall m | 0 <= m < r :: t.Alive(places[m])) && (r < |places| ==> !t.Alive(places[r]))
  {
    if places == [] || !t.Alive(places[0]) then 0 else 1 + FirstDead(t, places[1..])
  }

  /** The first place equal to the last one looked at, or their number. */
  function IndexOf(places: seq<nat>, loc: int): (r: nat)
    ensures r <= |places| && (forall m | 0 <= m < r :: places[m] != loc) && (r < |places| ==> places[r] == loc)
  {
    if places == [] || places[0] == loc then 0 else 1 + IndexOf(places[1..], loc)
  }

  /** The place after the last one looked at, in turn; the second one where that is none of the eight. */
  function NextPlace(places: seq<nat>, loc: int): (r: nat)
    requires |places| == 8
    ensures r in places
  {
    places[(1 + IndexOf(places, loc)) % 8]
  }

  /** The chain of displacements: the table at its end, and who found no place. */
  ghost function Displaced(locs: Element -> seq<nat>, t: Table, c: Element, epoch: bool, loc: int, depth: nat): (Table, set<Element>)
    requires t.Shape() && Places(locs, |t.elements|)
    decreases depth
  {
    if depth == 0 then (t, {c})
    else
      var k := FirstDead(t, locs(c));
      if k < 8 then (Put(t, locs(c)[k], c, epoch), {})
      else
        var p := NextPlace(locs(c), loc);
        Displaced(locs, Put(t, p, c, epoch), t.elements[p], t.epoch[p], p, depth - 1)
  }

  /** The first of some places that stores an element, or their number. */
  function FirstStored(t: Table, places: seq<nat>, x: Element): (r: nat)
    requires forall m | 0 <= m < |places| :: places[m] < |t.elements|
    ensures r <= |places| && (forall m | 0 <= m < r :: t.elements[places[m]] != x) && (r < |places| ==> t.elements[places[r]] == x)
  {
    if places == [] || t.elements[places[0]] == x then 0 else 1 + FirstStored(t, places[1..], x)
  }

  /** What insert makes of a table: an element still stored is kept, any other one starts a chain. */
  ghost function Placed(locs: Element -> seq<nat>, t: Table, e: Element, depth: nat): (Table, set<Element>)
    requires t.Shape() && Places(locs, |t.elements|)
  {
    var k := FirstStored(t, locs(e), e);
    if k < 8 then (Put(t, locs(e)[k], e, true), {}) else Displaced(locs, t, e, true, -1, depth)
  }

  /** An element with a dead place always finds one. */
  lemma RoomMeansNoLoss(locs: Element -> seq<nat>, t: Table, c: Element, epoch: bool, loc: int, depth: nat, k: nat)
    requires t.Shape() && Places(locs, |t.elements|) && depth > 0 && k < 8 && !t.Alive(locs(c)[k])
    ensures Displaced(locs, t, c, epoch, loc, depth).1 == {}
  {
    assert FirstDead(t, locs(c)) <= k;
  }

  lemma ChainSwaps(locs: Element -> seq<nat>, t: Table, c: Element, epoch: bool, loc: int, depth: nat)
    requires t.Shape() && Places(locs, |t.elements|) && depth > 0 && FirstDead(t, locs(c)) == 8
    ensures var p := NextPlace(locs(c), loc);
            p < |t.elements| && Displaced(locs, t, c, epoch, loc, depth) == Displaced(locs, Put(t, p, c, epoch), t.elements[p], t.epoch[p], p, depth - 1)
  {
  }

  /** A chain of any length loses at most one element, and doubles none. */
  lemma {:induction false} ChainInserts(locs: Element -> seq<nat>, before: Table, e: Element, t: Table, c: Element, epoch: bool, loc: int,
                                        depth: nat, t': Table, lost: set<Element>)
    requires Carrying(locs, before, e, t, c, epoch) && (t', lost) == Displaced(locs, t, c, epoch, loc, depth)
    ensures Inserted(locs, before, e, t', lost)
    decreases depth
  {
    if depth == 0 {
      DropCarried(locs, before, e, t, c, epoch);
    } else {
      var k := FirstDead(t, locs(c));
      if k < 8 {
        PlaceCarried(locs, before, e, t, c, epoch, k);
      } else {
        var next := (1 + IndexOf(locs(c), loc)) % 8;
        var p := locs(c)[next];
        SwapCarries(locs, before, e, t, c, epoch, next);
        ChainSwaps(locs, t, c, epoch, loc, depth);
        ChainInserts(locs, before, e, Put(t, p, c, epoch), t.elements[p], t.epoch[p], p, depth - 1, t', lost);
      }
    }
  }

  /** After an insertion the live elements are those before and the new one, less at most one; all keep their epoch flag. */
  lemma PlacedInserts(locs: Element -> seq<nat>, t: Table, e: Element, depth: nat)
    requires Valid(locs, t)
    ensures var r := Placed(locs, t, e, depth); Inserted(locs, t, e, r.0, r.1)
  {
    var k := FirstStored(t, locs(e), e);
    if k < 8 {
      KeepFound(locs, t, e, k);
    } else {
      StartCarrying(locs, t, e);
      var (t', lost) := Displaced(locs, t, e, true, -1, depth);
      ChainInserts(locs, t, e, t, e, true, -1, depth, t', lost);
    }
  }

  // -------------------------------------------------------------------- routes

  /** p is the place to go on with: the one after the last one looked at, wrapping round, or the second one at the start. */
  ghost predicate Follows(places: seq<nat>, loc: int, p: nat)
    requires |places| == 8
  {
    if exists m | 0 <= m < 8 :: places[m] == loc
    then exists k | 0 <= k < 8 :: places[k] == loc && (forall m | 0 <= m < k :: places[m] != loc) && p == places[if k == 7 then 0 else k + 1]
    else p == places[1]
  }

  lemma NextPlaceFollows(places: seq<nat>, loc: int, p: nat)
    requires |places| == 8
    ensures NextPlace(places, loc) == p <==> Follows(places, loc, p)
  {
    var k := IndexOf(places, loc);
    if m :| 0 <= m < 8 && places[m] == loc {
      assert k <= m;
    }
  }

  /** The element just put in at a place is taken out again at once exactly when the carried element has that place twice
      in a row. */
  lemma NotBack(places: seq<nat>, loc: nat, k: nat)
    requires |places| == 8 && k < 8 && places[k] == loc && forall m | 0 <= m < k :: places[m] != loc
    ensures NextPlace(places, loc) == loc <==> k < 7 && places[k + 1] == loc
  {
    NextPlaceFollows(places, loc, NextPlace(places, loc));
  }

  /** As an element with all its places the same has. */
  lemma BackAgain(loc: nat)
    ensures NextPlace([loc, loc, loc, loc, loc, loc, loc, loc], loc) == loc
  {
    NotBack([loc, loc, loc, loc, loc, loc, loc, loc], loc, 0);
  }

  /** A way to a dead slot: each element in turn has none but alive places, and pushes out the holder of the next one, until
      one has a dead place. */
  ghost predicate Route(locs: Element -> seq<nat>, t: Table, c: Element, loc: int, path: seq<nat>)
    requires t.Shape() && Places(locs, |t.elements|)
    decreases |path|
  {
    if path == [] then Settles(locs, t, c)
    else Pushes(locs, t, c, loc, path[0]) && path[0] < |t.elements| && Route(locs, t, t.elements[path[0]], path[0], path[1..])
  }

  /** An element with a dead place. */
  ghost predicate Settles(locs: Element -> seq<nat>, t: Table, c: Element)
    requires t.Shape() && Places(locs, |t.elements|)
  {
    forall u | Unfold(u) :: exists k | 0 <= k < 8 :: !t.Alive(locs(c)[k])
  }

  /** An element with none, which goes on with place p. */
  ghost predicate Pushes(locs: Element -> seq<nat>, t: Table, c: Element, loc: int, p: nat)
    requires t.Shape() && Places(locs, |t.elements|)
  {
    forall u | Unfold(u) :: (forall k | 0 <= k < 8 :: t.Alive(locs(c)[k])) && Follows(locs(c), loc, p)
  }

  lemma {:induction false} RouteKeeps(locs: Element -> seq<nat>, t: Table, t': Table, c: Element, loc: int, path: seq<nat>)
    requires t.Shape() && t'.Shape() && Places(locs, |t.elements|) && t'.dead == t.dead && Route(locs, t, c, loc, path)
    requires forall i | 0 <= i < |path| && path[i] < |t.elements| :: t'.elements[path[i]] == t.elements[path[i]]
    ensures Route(locs, t', c, loc, path)
    decreases |path|
  {
    assert Unfold(0);
    if path != [] {
      forall i | 0 <= i < |path| - 1 && path[1..][i] < |t.elements| ensures t'.elements[path[1..][i]] == t.elements[path[1..][i]] {
        assert path[1..][i] == path[i + 1];
      }
      RouteKeeps(locs, t, t', t.elements[path[0]], path[0], path[1..]);
      forall k | 0 <= k < 8 ensures t'.Alive(locs(c)[k]) {
        assert t.Alive(locs(c)[k]);
      }
    } else {
      var k :| 0 <= k < 8 && !t.Alive(locs(c)[k]);
      assert !t'.Alive(locs(c)[k]);
    }
  }

  /** No slot is passed twice. */
  ghost predicate Different(path: seq<nat>) { forall u | Unfold(u) :: forall i, j | 0 <= i < j < |path| :: path[i] != path[j] }

  lemma DifferentTail(path: seq<nat>)
    requires path != [] && Different(path)
    ensures Different(path[1..]) && path[0] !in path[1..]
  {
    assert Unfold(0);
    forall i | 0 <= i < |path| - 1 ensures path[1..][i] != path[0] {
      assert path[1..][i] == path[i + 1];
    }
  }

  lemma RouteStep(locs: Element -> seq<nat>, t: Table, c: Element, epoch: bool, loc: int, depth: nat, path: seq<nat>, p: nat, t': Table)
    requires t.Shape() && Places(locs, |t.elements|) && path != [] && Route(locs, t, c, loc, path) && depth > 0
    requires Different(path) && p == path[0] && t' == Put(t, p, c, epoch)
    ensures t.Alive(p) && t'.Shape() && |t'.elements| == |t.elements| && Route(locs, t', t.elements[p], p, path[1..])
    ensures Displaced(locs, t, c, epoch, loc, depth) == Displaced(locs, t', t.elements[p], t.epoch[p], p, depth - 1)
  {
    assert Unfold(0);
    assert FirstDead(t, locs(c)) == 8;
    NextPlaceFollows(locs(c), loc, p);
    ChainSwaps(locs, t, c, epoch, loc, depth);
    FollowedIsAlive(locs, t, c, loc, p);
    assert t'.dead == t.dead;
    DifferentTail(path);
    RouteKeeps(locs, t, t', t.elements[p], p, path[1..]);
  }

  lemma FollowedIsAlive(locs: Element -> seq<nat>, t: Table, c: Element, loc: int, p: nat)
    requires t.Shape() && Places(locs, |t.elements|) && (forall k | 0 <= k < 8 :: t.Alive(locs(c)[k])) && Follows(locs(c), loc, p)
    ensures t.Alive(p)
  {
  }

  /** At its end the last one is placed in a dead slot, and the live ones keep what they hold. */
  lemma RouteEnds(locs: Element -> seq<nat>, t: Table, c: Element, epoch: bool, loc: int, depth: nat)
    requires t.Shape() && Places(locs, |t.elements|) && Route(locs, t, c, loc, []) && depth > 0
    ensures var r := Displaced(locs, t, c, epoch, loc, depth);
      r.1 == {} && |r.0.elements| == |t.elements| && forall q: nat | t.Alive(q) :: r.0.elements[q] == t.elements[q]
  {
    assert Unfold(0);
    var k :| 0 <= k < 8 && !t.Alive(locs(c)[k]);
    assert FirstDead(t, locs(c)) <= k;
  }

  /** What an element at slot q must be like at the end of a way: pushed in there, or there before and not passed. */
  ghost predicate Kept(t: Table, path: seq<nat>, t': Table) {
    |t'.elements| == |t.elements| && forall q: nat | t.Alive(q) && q !in path :: t'.elements[q] == t.elements[q]
  }

  /** Along a way of any length that passes no slot twice, and is shorter than the depth limit, everyone moves on by one and
      nobody is lost. */
  lemma {:induction false} RouteMoves(locs: Element -> seq<nat>, t: Table, c: Element, epoch: bool, loc: int, depth: nat, path: seq<nat>,
                                      t': Table, lost: set<Element>)
    requires t.Shape() && Places(locs, |t.elements|) && Route(locs, t, c, loc, path) && |path| < depth
    requires Different(path) && (t', lost) == Displaced(locs, t, c, epoch, loc, depth)
    ensures lost == {} && Kept(t, path, t')
    ensures path != [] ==> path[0] < |t'.elements| && t'.elements[path[0]] == c
    decreases depth
  {
    if path == [] {
      RouteEnds(locs, t, c, epoch, loc, depth);
    } else {
      var p := path[0];
      var u := Put(t, p, c, epoch);
      DifferentTail(path);
      RouteStep(locs, t, c, epoch, loc, depth, path, p, u);
      RouteMoves(locs, u, t.elements[p], t.epoch[p], p, depth - 1, path[1..], t', lost);
      KeptOn(t, p, c, epoch, path, t');
    }
  }

  lemma KeptOn(t: Table, p: nat, c: Element, epoch: bool, path: seq<nat>, t': Table)
    requires t.Shape() && t.Alive(p) && path != [] && p == path[0] && p !in path[1..] && Kept(Put(t, p, c, epoch), path[1..], t')
    ensures Kept(t, path, t') && t'.elements[p] == c
  {
    var u := Put(t, p, c, epoch);
    assert u.Alive(p) && t'.elements[p] == u.elements[p];
    forall q: nat | t.Alive(q) && q !in path ensures t'.elements[q] == t.elements[q] {
      assert q !in path[1..] && u.Alive(q);
    }
  }

  /** So an insertion with such a way from the new element loses nothing. */
  lemma RouteMeansNoLoss(locs: Element -> seq<nat>, t: Table, e: Element, depth: nat, path: seq<nat>)
    requires t.Shape() && Places(locs, |t.elements|) && (forall k | 0 <= k < 8 :: t.elements[locs(e)[k]] != e)
    requires Route(locs, t, e, -1, path) && |path| < depth && Different(path)
    ensures Placed(locs, t, e, depth).1 == {}
  {
    var (t', lost) := Placed(locs, t, e, depth);
    RouteMoves(locs, t, e, true, -1, depth, path, t', lost);
  }

  // ------------------------------------------------------------------- epochs

  /** How many live slots of the current epoch there are among the first n. */
  function CurrentCount(t: Table, n: nat): nat
    requires t.Shape() && n <= |t.elements|
  {
    if n == 0 then 0 else CurrentCount(t, n - 1) + if t.epoch[n - 1] && !t.dead[n - 1] then 1 else 0
  }

  /** The current epoch becomes the old one, and the old one dies. */
  ghost predicate Aged(t: Table, t': Table) {
    && t.Shape() && t'.Shape() && t'.elements == t.elements
    && forall i | 0 <= i < |t.elements| :: t'.dead[i] == (t.dead[i] || !t.epoch[i]) && !t'.epoch[i]
  }

  // -------------------------------------------------------------------- cache

  /** compute_hashes: the places of an element, from eight hashes. */
  function Locations(hash: (nat, Element) -> Hash32, size: nat, e: Element): (r: seq<nat>)
    requires size > 0
    ensures |r| == 8 && forall k | 0 <= k < 8 :: r[k] < size
  {
    [Scale(hash(0, e), size), Scale(hash(1, e), size), Scale(hash(2, e), size), Scale(hash(3, e), size),
     Scale(hash(4, e), size), Scale(hash(5, e), size), Scale(hash(6, e), size), Scale(hash(7, e), size)]
  }

  /** A slot is the place of the hashes that, as fractions of one, fall into its share of the table. */
  lemma ScaleExactly(h: Hash32, size: nat, r: nat)
    requires size > 0
    ensures Scale(h, size) == r <==> r * 0x1_0000_0000 <= h * size < (r + 1) * 0x1_0000_0000
  {
  }

  /** Every slot of a table of up to 2^32 is the place of some hash. */
  lemma SlotReached(size: nat, r: nat) returns (h: Hash32)
    requires 0 < size <= 0x1_0000_0000 && r < size
    ensures Scale(h, size) == r
  {
    var x := (r * 0x1_0000_0000 + size - 1) / size;
    Ceiling(r * 0x1_0000_0000, size, x);
    MulMonotone(r + 1, size, 0x1_0000_0000);
    SmallerFactor(x, 0x1_0000_0000, size);
    h := x;
    ScaleExactly(h, size, r);
  }

  lemma SmallerFactor(x: nat, w: nat, size: nat)
    ensures x * size >= w * size || x < w
  {
    if x >= w {
      MulMonotone(w, x, size);
    }
  }

  lemma Ceiling(a: nat, b: nat, x: nat)
    requires b > 0 && x == (a + b - 1) / b
    ensures a <= x * b < a + b
  {
    assert a + b - 1 == x * b + (a + b - 1) % b;
  }

  /** The eight places are independent: any eight slots are the places of an element under some hash functions. */
  lemma AnyPlaces(size: nat, e: Element, places: seq<nat>) returns (hash: (nat, Element) -> Hash32)
    requires 0 < size <= 0x1_0000_0000 && |places| == 8 && forall k | 0 <= k < 8 :: places[k] < size
    ensures Locations(hash, size, e) == places
  {
    var hs: seq<Hash32> := [];
    for k := 0 to 8
      invariant |hs| == k && forall j | 0 <= j < k :: Scale(hs[j], size) == places[j]
    {
      var h := SlotReached(size, places[k]);
      hs := hs + [h];
    }
    hash := (k: nat, x: Element) => if k < 8 then hs[k] else 0;
  }

  /** How many elements make an epoch: 45% of the slots, with the product cut to 32 bits. */
  function EpochSize(slots: nat): (r: nat)
    ensures r >= 1 && (slots <= 95443717 && 45 * slots >= 100 ==> r == 45 * slots / 100)
  {
    Max(1, 45 * slots % 0x1_0000_0000 / 100)
  }

  /** It is 45% exactly up to 95443717 slots; fewer than three slots have an epoch of one. */
  lemma EpochExactly(slots: nat)
    requires slots < 0x1_0000_0000
    ensures EpochSize(slots) == Max(1, 45 * slots / 100) <==> slots <= 95443717
  {
    var turns := 45 * slots / 0x1_0000_0000;
    assert 45 * slots == turns * 0x1_0000_0000 + 45 * slots % 0x1_0000_0000;
  }

  /** Just above that number of slots the product wraps around, and an epoch is one element. */
  lemma EpochWraps()
    ensures EpochSize(95443717) == 42949672 && EpochSize(95443718) == 1
  {
  }

  class Cache {
    /** The eight places of an element. */
    const locs: Element -> seq<nat>
    const table: array<Element>
    const collectionFlags: array<bool>
    const epochFlags: array<bool>
    const epochSize: nat
    const depthLimit: nat
    var epochHeuristicCounter: nat

    ghost predicate Arrays()
      reads this
    {
      && table.Length == collectionFlags.Length == epochFlags.Length >= 2 && collectionFlags != epochFlags
      && Places(locs, table.Length)
    }

    ghost function T(): Table
      reads table, collectionFlags, epochFlags
    {
      Table(table[..], collectionFlags[..], epochFlags[..])
    }

    ghost predicate Ok()
      reads this, table, collectionFlags, epochFlags
    {
      Arrays() && Valid(locs, T())
    }

    /** setup: all slots hold the default element, dead. */
    constructor (size: nat, depth: nat, h: (nat, Element) -> Hash32)
      requires depth >= 1 && size < 0x1_0000_0000
      ensures Ok() && T().Live() == {} && fresh(table) && fresh(collectionFlags) && fresh(epochFlags)
      ensures table.Length == Max(2, size) && depthLimit == depth && epochSize == epochHeuristicCounter == EpochSize(table.Length)
      ensures forall e :: locs(e) == Locations(h, table.Length, e)
    {
      var n := if size < 2 then 2 else size;
      locs, depthLimit := e => Locations(h, n, e), depth;
      table := new Element[n](_ => 0);
      collectionFlags := new bool[n](_ => true);
      epochFlags := new bool[n](_ => false);
      epochSize, epochHeuristicCounter := EpochSize(n), EpochSize(n);
    }

    /** The first of an element's places that stores it. */
    method Find(e: Element) returns (k: nat)
      requires Ok()
      ensures k == FirstStored(T(), locs(e), e)
    {
      k := 0;
      while k < 8
        invariant 0 <= k <= 8 && forall m | 0 <= m < k :: T().elements[locs(e)[m]] != e
      {
        if table[locs(e)[k]] == e {
          return;
        }
        k := k + 1;
      }
    }

    /** Some place of the element stores it, alive or dead. */
    ghost predicate Stored(e: Element)
      reads this, table, collectionFlags, epochFlags
      requires Ok()
    {
      exists k | 0 <= k < 8 :: T().elements[locs(e)[k]] == e
    }

    /** contains: every live element is found, and any other only where its slot was not used again; erasing marks its
        slot dead. */
    method Contains(e: Element, erase: bool) returns (r: bool)
      requires Ok()
      modifies collectionFlags
      ensures Ok() && (old(e in T().Live()) ==> r) && (r <==> old(Stored(e)))
      ensures !erase || !r ==> T() == old(T())
      ensures erase && r ==> T().Live() == old(T().Live()) - {e} && T().elements == old(T().elements) && T().epoch == old(T().epoch)
    {
      var k := Find(e);
      ghost var t := T();
      if e in t.Live() {
        var i :| 0 <= i < |t.elements| && t.Alive(i) && t.elements[i] == e;
        assert Home(locs, t, i);
      }
      if k == 8 {
        return false;
      }
      if erase {
        var p := locs(e)[k];
        collectionFlags[p] := true;
        ErasedAt(locs, t, e, k, T());
      }
      return true;
    }

    /** An erased element is still found until something else takes its slot. */
    method EraseAndAsk(e: Element) returns (erased: bool, found: bool)
      requires Ok()
      modifies collectionFlags
      ensures Ok() && found == erased && e !in T().Live()
    {
      erased := Contains(e, true);
      found := Contains(e, false);
    }

    method EpochCheck()
      requires Ok()
      modifies this, collectionFlags, epochFlags
      ensures Ok() && T().Live() <= old(T().Live())
      ensures if old(epochHeuristicCounter) == 0 && CurrentCount(old(T()), table.Length) >= epochSize then Aged(old(T()), T())
              else T() == old(T())
      ensures epochHeuristicCounter ==
              if old(epochHeuristicCounter) > 0 then old(epochHeuristicCounter) - 1
              else if CurrentCount(old(T()), table.Length) >= epochSize then epochSize
              else Max(1, Max(epochSize / 16, epochSize - CurrentCount(old(T()), table.Length)))
    {
      if epochHeuristicCounter != 0 {
        epochHeuristicCounter := epochHeuristicCounter - 1;
        return;
      }
      ghost var t := T();
      var unused := 0;
      for i := 0 to table.Length
        invariant unused == CurrentCount(t, i)
      {
        if epochFlags[i] && !collectionFlags[i] {
          unused := unused + 1;
        }
      }
      if unused >= epochSize {
        Age();
        FewerAlive(locs, t, T());
        epochHeuristicCounter := epochSize;
      } else {
        epochHeuristicCounter := Max(1, Max(epochSize / 16, epochSize - unused));
      }
    }

    method Age()
      requires Arrays()
      modifies collectionFlags, epochFlags
      ensures Aged(old(T()), T())
    {
      ghost var t := T();
      for i := 0 to table.Length
        invariant forall j | 0 <= j < i :: collectionFlags[j] == (t.dead[j] || !t.epoch[j]) && !epochFlags[j]
        invariant forall j | i <= j < table.Length :: collectionFlags[j] == t.dead[j] && epochFlags[j] == t.epoch[j]
      {
        if epochFlags[i] {
          epochFlags[i] := false;
        } else {
          collectionFlags[i] := true;
        }
      }
    }

    method PutAt(p: nat, e: Element, epoch: bool)
      requires Arrays() && p < table.Length
      modifies table, collectionFlags, epochFlags
      ensures T() == Put(old(T()), p, e, epoch)
    {
      table[p] := e;
      collectionFlags[p] := false;
      epochFlags[p] := epoch;
    }

    /** insert: the live elements are those after the epoch check and the new one, less at most one that found no
        place; whoever stays keeps its epoch flag. */
    method Insert(e: Element) returns (ghost mid: Table, ghost lost: set<Element>)
      requires Ok()
      modifies this, table, collectionFlags, epochFlags
      ensures Ok() && mid.Live() <= old(T().Live()) && (mid == old(T()) || Aged(old(T()), mid))
      ensures Valid(locs, mid) && (T(), lost) == Placed(locs, mid, e, depthLimit) && Inserted(locs, mid, e, T(), lost)
      ensures depthLimit > 0 && (exists k | 0 <= k < 8 :: !mid.Alive(locs(e)[k])) ==> lost == {}
    {
      EpochCheck();
      mid := T();
      PlacedInserts(locs, mid, e, depthLimit);
      if k :| depthLimit > 0 && 0 <= k < 8 && !mid.Alive(locs(e)[k]) {
        RoomMeansNoLoss(locs, mid, e, true, -1, depthLimit, k);
      }
      lost := Place(e);
      assert Unfold(0);
    }

    /** insert, after the epoch check. */
    method Place(e: Element) returns (ghost lost: set<Element>)
      requires Ok()
      modifies table, collectionFlags, epochFlags
      ensures (T(), lost) == Placed(locs, old(T()), e, depthLimit)
    {
      var k := Find(e);
      if k < 8 {
        lost := {};
        PutAt(locs(e)[k], e, true);
      } else {
        lost := Displace(e);
      }
    }

    /** The loop of insert. */
    method Displace(e: Element) returns (ghost lost: set<Element>)
      requires Arrays()
      modifies table, collectionFlags, epochFlags
      ensures (T(), lost) == Displaced(locs, old(T()), e, true, -1, depthLimit)
    {
      var c, lastEpoch := e, true;
      var lastLoc: int := -1;
      ghost var end := Displaced(locs, T(), e, true, -1, depthLimit);
      for depth := 0 to depthLimit
        invariant Displaced(locs, T(), c, lastEpoch, lastLoc, depthLimit - depth) == end
      {
        var k := FindDead(c);
        if k < 8 {
          PutAt(locs(c)[k], c, lastEpoch);
          lost := {};
          return;
        }
        c, lastEpoch, lastLoc := SwapOut(c, lastEpoch, lastLoc);
      }
      lost := {c};
    }

    /** No place of the carried element is free: it takes the one after the last one looked at, and the element
        there is carried on. */
    method SwapOut(c: Element, epoch: bool, lastLoc: int) returns (c': Element, epoch': bool, loc': int)
      requires Arrays()
      modifies table, collectionFlags, epochFlags
      ensures var p := NextPlace(locs(c), lastLoc);
              p < table.Length && loc' == p && T() == Put(old(T()), p, c, epoch) && c' == old(table[p]) && epoch' == old(epochFlags[p])
    {
      var last := Index(locs(c), lastLoc);
      var p := locs(c)[(1 + last) % 8];
      loc', c', epoch' := p, table[p], epochFlags[p];
      PutAt(p, c, epoch);
    }

    method FindDead(c: Element) returns (k: nat)
      requires Arrays()
      ensures k == FirstDead(T(), locs(c))
    {
      k := 0;
      while k < 8
        invariant 0 <= k <= 8 && forall m | 0 <= m < k :: T().Alive(locs(c)[m])
      {
        if collectionFlags[locs(c)[k]] {
          return;
        }
        k := k + 1;
      }
    }
  }

  /** std::find over the eight places: the index of the first equal one, or eight. */
  method Index(locs: seq<nat>, loc: int) returns (i: nat)
    requires |locs| == 8
    ensures i <= 8 && (i < 8 ==> locs[i] == loc) && forall j | 0 <= j < i :: locs[j] != loc
    ensures i == IndexOf(locs, loc)
  {
    i := 0;
    while i < 8 && locs[i] != loc
      invariant 0 <= i <= 8 && forall j | 0 <= j < i :: locs[j] != loc
    {
      i := i + 1;
    }
  }

  lemma ErasedAt(locs: Element -> seq<nat>, t: Table, e: Element, k: nat, t': Table)
    requires Valid(locs, t) && k < 8 && FoundAt(locs, t, e, k) && t' == t.(dead := t.dead[locs(e)[k] := true])
    ensures Valid(locs, t') && t'.Live() == t.Live() - {e}
  {
    FewerAlive(locs, t, t');
    var p := locs(e)[k];
    forall y ensures y in t'.Live() <==> y in t.Live() - {e} {
      if y in t'.Live() {
        var i :| 0 <= i < |t'.elements| && t'.Alive(i) && t'.elements[i] == y;
        assert t.Alive(i) && i != p;
        FoundIsHome(locs, t, e, k, i);
      }
      if y in t.Live() - {e} {
        var i :| 0 <= i < |t.elements| && t.Alive(i) && t.elements[i] == y;
        assert t'.Alive(i) && t'.elements[i] == y;
      }
    }
  }
}
