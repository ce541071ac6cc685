/**
 What the DIRTY and FRESH flags save: what was only read is never written, a coin that came and went inside a cache leaves no
 trace, and what is written was changed.
 */
module CoinsFlags {
  import opened Wrappers
  import opened Coins

  /** Outputs that can never be spent: scripts that begin with OP_RETURN, and scripts of more than 129000 bytes. */
  lemma UnspendableScripts(script: Script, rest: Script)
    ensures Unspendable([106] + rest) && !Unspendable([])
    ensures script != [] && script[0] != 106 ==> (Unspendable(script) <==> |script| >= 129001)
  {
  }

  /** An entry that says what the view below says, and is not to be written. */
  predicate Clean(e: Entry) { !e.isDirty && !e.isFresh }

  // ---------------------------------------------------------------------- reads

  /** Reading adds at most one clean entry to a cache, and changes no other. */
  lemma FetchEntries(v: View, p: OutPoint)
    requires v.Cache?
    ensures var w := Fetch(v, p);
      && w.Cache? && w.best == v.best
      && (forall q | q != p :: At(w.entries, q) == At(v.entries, q))
      && (p in v.entries ==> w == v)
      && (p !in v.entries && p in w.entries ==> Clean(w.entries[p]) && Some(w.entries[p].coin) == Lookup(v.base, p))
      && (p !in v.entries && p !in w.entries ==> Lookup(v.base, p).None?)
  {
    FoundUnspent(v.base, p);
  }

  lemma {:induction false} FoundUnspent(v: View, p: OutPoint)
    ensures Lookup(v, p).Some? ==> !Lookup(v, p).value.Spent()
  {
    if v.Cache? && p !in v.entries {
      FoundUnspent(v.base, p);
    }
  }

  /** A view that has only been told of another best block. */
  function Told(v: View, best: nat): View {
    match v
    case Disk(coins, _) => Disk(coins, best)
    case Cache(entries, _, base) => Cache(entries, best, base)
  }

  /** A cache with clean entries only, as reads leave it, writes nothing. */
  lemma CleanFlush(base: View, entries: Entries, best: nat, base': View)
    requires (forall p | p in entries :: Clean(entries[p])) && Written(base, entries, best, base')
    ensures base' == Told(base, best)
  {
    if base.Disk? {
      forall p ensures At(base'.coins, p) == At(base.coins, p) {
      }
      SameMap(base'.coins, base.coins);
    } else {
      forall p ensures At(base'.entries, p) == At(base.entries, p) {
        if p in entries {
          assert Merge(At(base.entries, p), entries[p]) == Merged(At(base'.entries, p));
        }
      }
      SameMap(base'.entries, base.entries);
    }
  }

  lemma SameMap<T>(m: map<OutPoint, T>, n: map<OutPoint, T>)
    requires forall p :: At(m, p) == At(n, p)
    ensures m == n
  {
    forall p ensures p in m <==> p in n {
      assert At(m, p) == At(n, p);
    }
    forall p | p in m ensures m[p] == n[p] {
      assert At(m, p) == At(n, p);
    }
  }

  /** Reads one after the other. */
  function Reads(v: View, ps: seq<OutPoint>): (w: View)
    requires v.Cache?
    ensures w.Cache?
    decreases |ps|
  {
    if ps == [] then v else Reads(Fetch(v, ps[0]), ps[1..])
  }

  lemma {:induction false} ReadsClean(v: View, ps: seq<OutPoint>)
    requires v.Cache? && forall p | p in v.entries :: Clean(v.entries[p])
    ensures forall p | p in Reads(v, ps).entries :: Clean(Reads(v, ps).entries[p])
    decreases |ps|
  {
    if ps != [] {
      var w := Fetch(v, ps[0]);
      FetchEntries(v, ps[0]);
      forall p | p in w.entries ensures Clean(w.entries[p]) {
        if p != ps[0] {
          assert At(w.entries, p) == At(v.entries, p);
        }
      }
      ReadsClean(w, ps[1..]);
    }
  }

  /** However much was read through a new cache, flushing it leaves every coin and entry of its base as it is. */
  lemma ReadOnlyFlush(base: View, best: nat, ps: seq<OutPoint>, base': View)
    requires var w := Reads(Cache(map[], best, base), ps); Written(w.base, w.entries, w.best, base')
    ensures var w := Reads(Cache(map[], best, base), ps); base' == Told(w.base, w.best)
  {
    ReadsClean(Cache(map[], best, base), ps);
    var w := Reads(Cache(map[], best, base), ps);
    CleanFlush(w.base, w.entries, w.best, base');
  }

  /** Uncaching drops exactly a clean entry. */
  lemma UncacheDrops(v: View, p: OutPoint, q: OutPoint)
    requires v.Cache?
    ensures var w := Uncached(v, p);
      && w == v.(entries := w.entries)
      && (q in w.entries <==> q in v.entries && !(q == p && Clean(v.entries[p])))
      && (q in w.entries ==> w.entries[q] == v.entries[q])
  {
  }

  // --------------------------------------------------------------------- writes

  /** After spending, a fresh entry is gone, and any other one says so and is to be written; nothing else is changed. */
  lemma SpendEntry(v: View, p: OutPoint)
    requires v.Cache?
    ensures var w, s := Fetch(v, p), Spend(v, p).0;
      && w.Cache? && s == w.(entries := s.entries) && s.entries - {p} == w.entries - {p}
      && (p in s.entries <==> p in w.entries && !w.entries[p].isFresh)
      && (p in s.entries ==> s.entries[p].coin.Spent() && s.entries[p].isDirty && !s.entries[p].isFresh)
  {
    FetchFinds(v, p);
    var w, s := Fetch(v, p), Spend(v, p).0;
    SameMap(s.entries - {p}, w.entries - {p});
  }

  /** An added coin is to be written; it is fresh if its entry was, or if nothing may be overwritten and nothing in the cache
      still has to tell the parent of an older coin. */
  lemma AddEntry(v: View, p: OutPoint, coin: Coin, overwrite: bool)
    requires v.Cache? && !coin.Spent() && !Unspendable(coin.out.script) && Added(v, p, coin, overwrite).Fine?
    ensures var w := Added(v, p, coin, overwrite).view;
      && w == v.(entries := w.entries) && w.entries - {p} == v.entries - {p} && p in w.entries
      && w.entries[p].coin == coin && w.entries[p].isDirty
      && (w.entries[p].isFresh <==> (p in v.entries && v.entries[p].isFresh) || (!overwrite && (p in v.entries ==> !v.entries[p].isDirty)))
  {
    var w := Added(v, p, coin, overwrite).view;
    SameMap(w.entries - {p}, v.entries - {p});
  }

  /** A coin that is created and spent inside one cache leaves no trace in it. */
  lemma CameAndWent(v: View, p: OutPoint, coin: Coin)
    requires v.Cache? && p !in v.entries && !coin.Spent() && !Unspendable(coin.out.script)
    ensures Added(v, p, coin, false).Fine? && Spend(Added(v, p, coin, false).view, p) == (v, true)
  {
    var w := Added(v, p, coin, false).view;
    FetchFinds(w, p);
    SameMap(Spend(w, p).0.entries, v.entries);
  }

  // ---------------------------------------------------------------------- flush

  /** What a parent's entry is after a child's is written over it: as before if the child's is clean of changes; gone if the
      coin is spent and nobody below has heard of it; otherwise the child's coin, to be written, and fresh only if nobody
      below has heard of it.  It fails exactly when the child calls fresh what the parent has unspent. */
  lemma MergeEntry(us: Option<Entry>, them: Entry)
    ensures var unheard := if us.Some? then us.value.isFresh else them.isFresh;
      && (!them.isDirty ==> Merge(us, them) == Merged(us))
      && (Merge(us, them) == Misapplied <==> them.isDirty && them.isFresh && us.Some? && !us.value.coin.Spent())
      && (them.isDirty && Merge(us, them).Merged? ==>
            var e := Merge(us, them).entry;
            && (e.None? <==> unheard && them.coin.Spent())
            && (e.Some? ==> e.value.coin == them.coin && e.value.isDirty && e.value.isFresh == unheard))
  {
  }
}
