/**
 The unspent-output set as a stack of caches over a database (CCoinsView, CCoinsViewCache).

 A view is the database, or a cache over another view.  What a view means is a plain partial function from
 outpoints to unspent coins (Lookup); the caches with their DIRTY and FRESH flags only speed it up.
 */
module Coins {
  import opened Wrappers

  datatype OutPoint = OutPoint(hash: nat, n: nat)

  type Script = seq<nat>

  datatype TxOut = TxOut(value: int, script: Script)

  /** A UTXO entry; a spent coin is one whose output is null. */
  datatype Coin = Coin(out: TxOut, height: nat, coinBase: bool) {
    predicate Spent() { out.value == -1 }
  }

  const EMPTY_COIN := Coin(TxOut(-1, []), 0, false)
  const OP_RETURN: nat := 0x6a
  const MAX_SCRIPT_SIZE := 129000

  predicate Unspendable(script: Script) {
    (|script| > 0 && script[0] == OP_RETURN) || |script| > MAX_SCRIPT_SIZE
  }

  /** A cached coin: DIRTY when it may differ from the parent view, FRESH when the parent has no unspent coin. */
  datatype Entry = Entry(coin: Coin, isDirty: bool, isFresh: bool)

  type Entries = map<OutPoint, Entry>

  /** best is the hash of the best block, zero standing for "not known here". */
  datatype View =
    | Disk(coins: map<OutPoint, Coin>, best: nat)
    | Cache(entries: Entries, best: nat, base: View)

  // ----------------------------------------------------------------- meaning

  function Unspent(c: Coin): Option<Coin> { if c.Spent() then None else Some(c) }

  /** What a view says about an outpoint. */
  function Lookup(v: View, p: OutPoint): Option<Coin> {
    match v
    case Disk(coins, _) => if p in coins then Unspent(coins[p]) else None
    case Cache(entries, _, base) => if p in entries then Unspent(entries[p].coin) else Lookup(base, p)
  }

  function BestBlock(v: View): nat {
    match v
    case Disk(_, best) => best
    case Cache(_, best, base) => if best == 0 then BestBlock(base) else best
  }

  ghost predicate SameView(v: View, w: View) { forall p :: Lookup(v, p) == Lookup(w, p) }

  /** w is v with one outpoint changed. */
  ghost predicate Changed(v: View, w: View, p: OutPoint, c: Option<Coin>) {
    forall q :: Lookup(w, q) == if q == p then c else Lookup(v, q)
  }

  /** What the flags promise about an entry, given what the parent view says. */
  predicate EntryOk(e: Entry, under: Option<Coin>) {
    && (e.isFresh ==> under.None?)
    && (!e.isDirty ==> Unspent(e.coin) == under)
  }

  ghost predicate WellFormed(v: View) {
    match v
    case Disk(coins, _) => forall p | p in coins :: !coins[p].Spent()
    case Cache(entries, _, base) => WellFormed(base) && forall p | p in entries :: EntryOk(entries[p], Lookup(base, p))
  }

  // ------------------------------------------------------------------- reads

  /** FetchCoin: pull an unspent coin up through all the caches. */
  function Fetch(v: View, p: OutPoint): View {
    match v
    case Disk(_, _) => v
    case Cache(entries, best, base) =>
      if p in entries then v
      else
        var base' := Fetch(base, p);
        var found := Lookup(base, p);
        if found.None? then Cache(entries, best, base')
        else Cache(entries[p := Entry(found.value, false, found.value.Spent())], best, base')
  }

  /** Reading changes no view at any depth, and no flag's promise. */
  lemma {:induction false} FetchKeeps(v: View, p: OutPoint)
    requires WellFormed(v)
    ensures WellFormed(Fetch(v, p)) && SameView(v, Fetch(v, p))
  {
    if v.Cache? && p !in v.entries {
      FetchKeeps(v.base, p);
      var v' := Fetch(v, p);
      forall q ensures Lookup(v', q) == Lookup(v, q) {
        assert Lookup(v'.base, q) == Lookup(v.base, q);
      }
    }
  }

  /** A coin found is in the top cache afterwards. */
  lemma FetchFinds(v: View, p: OutPoint)
    requires v.Cache?
    ensures Fetch(v, p).Cache? && Fetch(v, p).best == v.best
    ensures p in Fetch(v, p).entries <==> p in v.entries || Lookup(v.base, p).Some?
    ensures p in v.entries ==> Fetch(v, p) == v
    ensures p in Fetch(v, p).entries ==> Unspent(Fetch(v, p).entries[p].coin) == Lookup(v, p)
  {
  }

  function Uncached(v: View, p: OutPoint): View
    requires v.Cache?
  {
    if p in v.entries && !v.entries[p].isDirty && !v.entries[p].isFresh then v.(entries := v.entries - {p}) else v
  }

  lemma UncacheKeeps(v: View, p: OutPoint)
    requires v.Cache? && WellFormed(v)
    ensures WellFormed(Uncached(v, p)) && SameView(v, Uncached(v, p))
  {
  }

  // ------------------------------------------------------------------ writes

  /** SpendCoin; the flag says whether the cache held an entry. */
  function Spend(v: View, p: OutPoint): (View, bool)
    requires v.Cache?
  {
    var w := Fetch(v, p);
    if p !in w.entries then (w, false)
    else if w.entries[p].isFresh then (w.(entries := w.entries - {p}), true)
    else (w.(entries := w.entries[p := Entry(EMPTY_COIN, true, false)]), true)
  }

  /** SpendCoin removes exactly one key; it reports true for every unspent coin. */
  lemma SpendRemoves(v: View, p: OutPoint)
    requires v.Cache? && WellFormed(v)
    ensures WellFormed(Spend(v, p).0) && Changed(v, Spend(v, p).0, p, None)
    ensures Lookup(v, p).Some? ==> Spend(v, p).1
  {
    FetchKeeps(v, p);
    var w := Fetch(v, p);
    var v' := Spend(v, p).0;
    forall q ensures Lookup(v', q) == if q == p then None else Lookup(v, q) {
      assert Lookup(w, q) == Lookup(v, q);
    }
  }

  /** What the report means: the coin was unspent, or the cache itself held an entry for it.  So it is right exactly when
      the cache does not hold the coin as spent. */
  lemma SpendReports(v: View, p: OutPoint)
    requires v.Cache?
    ensures Spend(v, p).1 <==> Lookup(v, p).Some? || p in v.entries
    ensures (Spend(v, p).1 <==> Lookup(v, p).Some?) <==> !(p in v.entries && v.entries[p].coin.Spent())
  {
    FetchFinds(v, p);
  }

  /** Spending twice: the second time the coin is spent already, and the report is true again. */
  lemma SpentTwice(p: OutPoint, coin: Coin)
    requires !coin.Spent()
    ensures var v := Cache(map[], 0, Disk(map[p := coin], 1));
            var once := Spend(v, p);
            var twice := Spend(once.0, p);
            WellFormed(v) && once.1 && Lookup(once.0, p).None? && twice.1
  {
    var v := Cache(map[], 0, Disk(map[p := coin], 1));
    SpendReports(v, p);
    SpendRemoves(v, p);
    SpendReports(Spend(v, p).0, p);
  }

  datatype AddResult = Thrown | Fine(view: View)

  /** AddCoin of an unspent coin; Thrown where the source throws. */
  function Added(v: View, p: OutPoint, coin: Coin, overwrite: bool): AddResult
    requires v.Cache? && !coin.Spent()
  {
    if Unspendable(coin.out.script) then Fine(v)
    else
      var e := if p in v.entries then v.entries[p] else Entry(EMPTY_COIN, false, false);
      if !overwrite && !e.coin.Spent() then Thrown
      else
        var newlyFresh := !overwrite && !e.isDirty;
        Fine(v.(entries := v.entries[p := Entry(coin, true, e.isFresh || newlyFresh)]))
  }

  /** AddCoin sets exactly one key, or none when the output can never be spent, and throws exactly when told
      not to overwrite an unspent coin in the cache. */
  lemma AddSets(v: View, p: OutPoint, coin: Coin, overwrite: bool)
    requires v.Cache? && !coin.Spent()
    ensures var r := Added(v, p, coin, overwrite);
      && (r.Thrown? <==> !Unspendable(coin.out.script) && !overwrite && p in v.entries && Lookup(v, p).Some?)
      && (r.Fine? ==> if Unspendable(coin.out.script) then r.view == v else Changed(v, r.view, p, Some(coin)))
  {
  }

  /** The flags stay right exactly when the caller tells the truth: no overwriting allowed means no unspent
      coin exists. */
  lemma AddKeepsFlags(v: View, p: OutPoint, coin: Coin, overwrite: bool)
    requires v.Cache? && WellFormed(v) && !coin.Spent() && !Unspendable(coin.out.script)
    requires Added(v, p, coin, overwrite).Fine?
    ensures WellFormed(Added(v, p, coin, overwrite).view) <==> overwrite || Lookup(v, p).None?
  {
    var v' := Added(v, p, coin, overwrite).view;
    assert p in v'.entries;
    if overwrite || Lookup(v, p).None? {
      assert EntryOk(v'.entries[p], Lookup(v.base, p));
      assert WellFormed(v');
    }
  }

  /** What a wrong promise costs: spending the new coin brings the overwritten one back. */
  lemma WrongPromiseResurrects(v: View, p: OutPoint, coin: Coin)
    requires v.Cache? && WellFormed(v) && !coin.Spent() && !Unspendable(coin.out.script)
    requires p !in v.entries && Lookup(v, p).Some?
    ensures Added(v, p, coin, false).Fine?
    ensures Lookup(Spend(Added(v, p, coin, false).view, p).0, p) == Lookup(v, p)
  {
  }

  // ------------------------------------------------------------------- flush

  datatype MergeResult = Misapplied | Merged(entry: Option<Entry>)

  /** What BatchWrite makes of a parent's entry and a child's. */
  function Merge(us: Option<Entry>, them: Entry): MergeResult {
    if !them.isDirty then Merged(us)
    else match us
      case None =>
        if them.isFresh && them.coin.Spent() then Merged(None) else Merged(Some(Entry(them.coin, true, them.isFresh)))
      case Some(u) =>
        if them.isFresh && !u.coin.Spent() then Misapplied
        else if u.isFresh && them.coin.Spent() then Merged(None)
        else Merged(Some(Entry(them.coin, true, u.isFresh)))
  }

  /** What an optional entry shows over what lies below. */
  function Shown(e: Option<Entry>, under: Option<Coin>): Option<Coin> {
    if e.None? then under else Unspent(e.value.coin)
  }

  /** Under the flags' promises merging cannot go wrong, shows what the child showed, and keeps the parent's
      promises to the grandparent. */
  lemma MergeRight(us: Option<Entry>, them: Entry, under: Option<Coin>)
    requires us.Some? ==> EntryOk(us.value, under)
    requires EntryOk(them, Shown(us, under))
    ensures var r := Merge(us, them);
      && r.Merged?
      && Shown(r.entry, under) == Unspent(them.coin)
      && (r.entry.Some? ==> EntryOk(r.entry.value, under))
  {
  }

  function At<T>(m: map<OutPoint, T>, p: OutPoint): Option<T> { if p in m then Some(m[p]) else None }

  /** A cache after BatchWrite of a child's entries, whatever order they came in. */
  ghost predicate WrittenToCache(e: Entries, child: Entries, e': Entries) {
    forall p :: if p in child then Merge(At(e, p), child[p]) == Merged(At(e', p)) else At(e', p) == At(e, p)
  }

  /** The database after BatchWrite. */
  ghost predicate WrittenToDisk(c: map<OutPoint, Coin>, child: Entries, c': map<OutPoint, Coin>) {
    forall p :: At(c', p) == if p in child && child[p].isDirty then Unspent(child[p].coin) else At(c, p)
  }

  ghost predicate Written(base: View, child: Entries, best: nat, base': View) {
    match base
    case Disk(coins, _) => base'.Disk? && base'.best == best && WrittenToDisk(coins, child, base'.coins)
    case Cache(entries, _, b) =>
      base'.Cache? && base'.best == best && base'.base == b && WrittenToCache(entries, child, base'.entries)
  }

  /** Flushing a well-formed cache of any depth moves its view down by one: the parent shows exactly what the
      child showed, and is itself well formed. */
  lemma FlushMovesView(v: View, base': View)
    requires v.Cache? && WellFormed(v) && Written(v.base, v.entries, v.best, base')
    ensures WellFormed(base') && SameView(v, base')
  {
    match v.base
    case Disk(coins, _) =>
      forall p ensures Lookup(base', p) == Lookup(v, p) && (p in base'.coins ==> !base'.coins[p].Spent()) {
        assert At(base'.coins, p) == if p in v.entries && v.entries[p].isDirty then Unspent(v.entries[p].coin) else At(coins, p);
      }
    case Cache(entries, _, b) =>
      forall p ensures Lookup(base', p) == Lookup(v, p)
               ensures p in base'.entries ==> EntryOk(base'.entries[p], Lookup(b, p)) {
        if p in v.entries {
          MergeRight(At(entries, p), v.entries[p], Lookup(b, p));
          assert Merge(At(entries, p), v.entries[p]) == Merged(At(base'.entries, p));
        } else {
          assert At(base'.entries, p) == At(entries, p);
        }
      }
  }

  /** The best block survives a flush exactly when the flushed cache knows it, or the parent had nothing of its
      own to forget; the database has nothing below it to fall back on. */
  lemma FlushBestBlock(v: View, base': View)
    requires v.Cache? && Written(v.base, v.entries, v.best, base')
    ensures BestBlock(base') == BestBlock(v) <==>
            v.best != 0 || v.base.best == 0 || (v.base.Cache? && v.base.best == BestBlock(v.base.base))
  {
  }

  /** A new cache, flushed before it was asked for its best block, over one that knows block 2 and a database at block 1. */
  lemma BestBlockLost(base': View)
    requires Written(Cache(map[], 2, Disk(map[], 1)), map[], 0, base')
    ensures var v := Cache(map[], 0, Cache(map[], 2, Disk(map[], 1))); WellFormed(v) && BestBlock(v) == 2 && BestBlock(base') == 1
  {
  }

  // -------------------------------------------------------------------- runs

  /** What can happen to a stack of caches, seen from the top. */
  datatype Op =
    | ReadOp(p: OutPoint)
    | UncacheOp(p: OutPoint)
    | SpendOp(p: OutPoint)
    | AddOp(p: OutPoint, coin: Coin, overwrite: bool)
    | PushOp                    // a new cache on top
    | FlushOp(base: View)       // the top cache writes to its base, which becomes this
    | PopOp                     // an empty top cache is dropped

  ghost predicate CacheStep(v: View, op: Op, v': View) {
    match op
    case ReadOp(p) => v' == Fetch(v, p)
    case UncacheOp(p) => v.Cache? && v' == Uncached(v, p)
    case SpendOp(p) => v.Cache? && v' == Spend(v, p).0
    case AddOp(p, coin, overwrite) => v.Cache? && !coin.Spent() && Added(v, p, coin, overwrite) == Fine(v')
    case PushOp => v' == Cache(map[], 0, v)
    case FlushOp(base) => v.Cache? && Written(v.base, v.entries, v.best, base) && v' == Cache(map[], v.best, base)
    case PopOp => v.Cache? && v.entries == map[] && v' == v.base
  }

  /** The same operation on a plain map. */
  function PlainStep(m: map<OutPoint, Coin>, op: Op): map<OutPoint, Coin> {
    match op
    case SpendOp(p) => m - {p}
    case AddOp(p, coin, _) => if Unspendable(coin.out.script) then m else m[p := coin]
    case _ => m
  }

  /** The caller forbids overwriting only where there is nothing to overwrite. */
  predicate Truthful(m: map<OutPoint, Coin>, op: Op) {
    op.AddOp? && !op.overwrite ==> op.p !in m
  }

  ghost predicate Represents(v: View, m: map<OutPoint, Coin>) { forall p :: Lookup(v, p) == At(m, p) }

  lemma StepRefines(v: View, m: map<OutPoint, Coin>, op: Op, v': View)
    requires WellFormed(v) && Represents(v, m) && CacheStep(v, op, v') && Truthful(m, op)
    ensures WellFormed(v') && Represents(v', PlainStep(m, op))
  {
    match op
    case ReadOp(p) =>
      FetchKeeps(v, p);
      forall q ensures Lookup(v', q) == At(m, q) {
        assert Lookup(v, q) == At(m, q);
      }
    case UncacheOp(p) =>
      UncacheKeeps(v, p);
      forall q ensures Lookup(v', q) == At(m, q) {
        assert Lookup(v, q) == At(m, q);
      }
    case SpendOp(p) =>
      SpendRemoves(v, p);
      forall q ensures Lookup(v', q) == At(m - {p}, q) {
        assert Lookup(v, q) == At(m, q);
      }
    case AddOp(p, coin, overwrite) =>
      AddSets(v, p, coin, overwrite);
      assert Lookup(v, p) == At(m, p);
      if !Unspendable(coin.out.script) {
        AddKeepsFlags(v, p, coin, overwrite);
        forall q ensures Lookup(v', q) == At(m[p := coin], q) {
          assert Lookup(v, q) == At(m, q);
        }
      }
    case PushOp =>
      forall q ensures Lookup(v', q) == At(m, q) {
        assert Lookup(v, q) == At(m, q);
      }
    case FlushOp(base) =>
      FlushMovesView(v, base);
      forall q ensures Lookup(v', q) == At(m, q) {
        assert Lookup(v, q) == At(m, q) && Lookup(base, q) == Lookup(v, q);
      }
    case PopOp =>
      forall q ensures Lookup(v', q) == At(m, q) {
        assert Lookup(v, q) == At(m, q);
      }
  }

  /** The plain map after a run. */
  function PlainRun(m: map<OutPoint, Coin>, ops: seq<Op>): map<OutPoint, Coin> {
    if ops == [] then m else PlainStep(PlainRun(m, ops[..|ops| - 1]), ops[|ops| - 1])
  }

  /** Any run on any stack of caches shows, at its end, what the plain map holds. */
  lemma {:induction false} EveryRunRefines(views: seq<View>, ops: seq<Op>, m: map<OutPoint, Coin>)
    requires |views| == |ops| + 1 && WellFormed(views[0]) && Represents(views[0], m)
    requires forall i | 0 <= i < |ops| :: CacheStep(views[i], ops[i], views[i + 1]) && Truthful(PlainRun(m, ops[..i]), ops[i])
    ensures WellFormed(views[|ops|]) && Represents(views[|ops|], PlainRun(m, ops))
  {
    if ops != [] {
      var n := |ops| - 1;
      forall i | 0 <= i < n ensures ops[..n][..i] == ops[..i] {
      }
      EveryRunRefines(views[..|ops|], ops[..n], m);
      StepRefines(views[n], PlainRun(m, ops[..n]), ops[n], views[n + 1]);
    }
  }

  // --------------------------------------------------------------- BatchWrite

  /** Some of the child's entries, those not in rest, are merged, and nothing else is changed. */
  ghost predicate PartWritten(us: Entries, child: Entries, rest: Entries, entries: Entries) {
    && (forall p | p in rest :: p in child && rest[p] == child[p])
    && forall p :: if p in child && p !in rest then Merge(At(us, p), child[p]) == Merged(At(entries, p)) else At(entries, p) == At(us, p)
  }

  /** BatchWrite into a cache: the entries arrive in any order, and leave the child one by one.  A throw leaves what was
      merged before it. */
  method WriteToCache(us: Entries, child: Entries) returns (entries: Entries, rest: Entries, thrown: bool)
    ensures PartWritten(us, child, rest, entries)
    ensures !thrown ==> rest == map[] && WrittenToCache(us, child, entries)
    ensures thrown ==> exists p :: p in rest && Merge(At(us, p), child[p]) == Misapplied
  {
    entries, rest := us, child;
    while rest != map[]
      invariant PartWritten(us, child, rest, entries)
      decreases |rest|
    {
      var p :| p in rest;
      var them := rest[p];
      assert At(entries, p) == At(us, p);
      if them.isDirty {
        if p !in entries {
          if !(them.isFresh && them.coin.Spent()) {
            entries := entries[p := Entry(them.coin, true, them.isFresh)];
          }
        } else if them.isFresh && !entries[p].coin.Spent() {
          return entries, rest, true;
        } else if entries[p].isFresh && them.coin.Spent() {
          entries := entries - {p};
        } else {
          entries := entries[p := Entry(them.coin, true, entries[p].isFresh)];
        }
      }
      rest := rest - {p};
    }
    thrown := false;
  }

  /** BatchWrite into the database. */
  method WriteToDisk(coins: map<OutPoint, Coin>, child: Entries) returns (coins': map<OutPoint, Coin>)
    ensures WrittenToDisk(coins, child, coins')
  {
    coins' := coins;
    var rest := child;
    while rest != map[]
      invariant forall p | p in rest :: p in child && rest[p] == child[p]
      invariant forall p :: At(coins', p) == (if p in child && p !in rest && child[p].isDirty then Unspent(child[p].coin)
                                              else At(coins, p))
      decreases |rest|
    {
      var p :| p in rest;
      var them := rest[p];
      rest := rest - {p};
      if them.isDirty {
        if them.coin.Spent() {
          coins' := coins' - {p};
        } else {
          coins' := coins'[p := them.coin];
        }
      }
    }
  }

  // ---------------------------------------------------------------- the cache

  /** CCoinsViewCache: even reading updates it.  The view below is held by value. */
  class CoinsViewCache {
    var cacheCoins: Entries
    var hashBlock: nat
    var base: View

    function AsView(): View
      reads this
    {
      Cache(cacheCoins, hashBlock, base)
    }

    constructor (baseIn: View)
      ensures AsView() == Cache(map[], 0, baseIn)
    {
      cacheCoins, hashBlock, base := map[], 0, baseIn;
    }

    method FetchCoin(p: OutPoint) returns (found: bool)
      modifies this
      ensures AsView() == Fetch(old(AsView()), p)
      ensures found <==> p in cacheCoins
    {
      if p in cacheCoins {
        return true;
      }
      var tmp := Lookup(base, p);
      base := Fetch(base, p);
      if tmp.None? {
        return false;
      }
      cacheCoins := cacheCoins[p := Entry(tmp.value, false, tmp.value.Spent())];
      return true;
    }

    method GetCoin(p: OutPoint) returns (r: Option<Coin>)
      modifies this
      ensures AsView() == Fetch(old(AsView()), p)
      ensures r == Lookup(old(AsView()), p)
    {
      FetchFinds(AsView(), p);
      var found := FetchCoin(p);
      r := if found then Unspent(cacheCoins[p].coin) else None;
    }

    method AddCoin(p: OutPoint, coin: Coin, overwrite: bool) returns (thrown: bool)
      requires !coin.Spent()
      modifies `cacheCoins
      ensures if thrown then AsView() == old(AsView()) && Added(old(AsView()), p, coin, overwrite).Thrown?
              else Added(old(AsView()), p, coin, overwrite) == Fine(AsView())
    {
      if Unspendable(coin.out.script) {
        return false;
      }
      var e := if p in cacheCoins then cacheCoins[p] else Entry(EMPTY_COIN, false, false);
      var newlyFresh := false;
      if !overwrite {
        if !e.coin.Spent() {
          return true;
        }
        newlyFresh := !e.isDirty;
      }
      cacheCoins := cacheCoins[p := Entry(coin, true, e.isFresh || newlyFresh)];
      return false;
    }

    method SpendCoin(p: OutPoint) returns (ok: bool, moveout: Option<Coin>)
      modifies this
      ensures (AsView(), ok) == Spend(old(AsView()), p)
      ensures moveout == Lookup(old(AsView()), p)
    {
      FetchFinds(AsView(), p);
      var found := FetchCoin(p);
      if !found {
        return false, None;
      }
      moveout := Unspent(cacheCoins[p].coin);
      if cacheCoins[p].isFresh {
        cacheCoins := cacheCoins - {p};
      } else {
        cacheCoins := cacheCoins[p := Entry(EMPTY_COIN, true, false)];
      }
      ok := true;
    }

    method Uncache(p: OutPoint)
      modifies `cacheCoins
      ensures AsView() == Uncached(old(AsView()), p)
    {
      if p in cacheCoins && !cacheCoins[p].isDirty && !cacheCoins[p].isFresh {
        cacheCoins := cacheCoins - {p};
      }
    }

    method BatchWrite(child: Entries, best: nat) returns (thrown: bool, rest: Entries)
      modifies this
      ensures !thrown ==> rest == map[] && Written(old(AsView()), child, best, AsView())
      ensures thrown ==>
        && base == old(base) && hashBlock == old(hashBlock) && PartWritten(old(cacheCoins), child, rest, cacheCoins)
        && exists p :: p in rest && Merge(At(old(cacheCoins), p), child[p]) == Misapplied
    {
      cacheCoins, rest, thrown := WriteToCache(cacheCoins, child);
      if !thrown {
        hashBlock := best;
      }
    }

    /** Flush: on a well-formed stack of any depth it never throws, and hands the whole view to the base.  The database
        insists on knowing the best block. */
    method Flush() returns (thrown: bool)
      requires base.Disk? ==> hashBlock != 0
      modifies this
      ensures old(WellFormed(AsView())) ==> !thrown && WellFormed(AsView())
      ensures old(WellFormed(AsView())) ==> SameView(old(AsView()), base) && SameView(old(AsView()), AsView())
      ensures !thrown ==> Written(old(base), old(cacheCoins), hashBlock, base) && cacheCoins == map[] && hashBlock == old(hashBlock)
      ensures thrown ==>
        && old(base).Cache? && base.Cache? && base == old(base).(entries := base.entries) && hashBlock == old(hashBlock)
        && PartWritten(old(base).entries, old(cacheCoins), cacheCoins, base.entries)
        && exists p :: p in cacheCoins && Merge(At(old(base).entries, p), old(cacheCoins)[p]) == Misapplied
    {
      ghost var v := AsView();
      match base {
        case Disk(coins, _) =>
          var coins' := WriteToDisk(coins, cacheCoins);
          base := Disk(coins', hashBlock);
        case Cache(entries, best, below) =>
          if WellFormed(v) {
            FlushNeverThrows(v);
          }
          var written, rest;
          written, rest, thrown := WriteToCache(entries, cacheCoins);
          if thrown {
            base, cacheCoins := Cache(written, best, below), rest;
            return;
          }
          base := Cache(written, hashBlock, below);
      }
      if WellFormed(v) {
        FlushMovesView(v, base);
      }
      cacheCoins := map[];
      thrown := false;
    }

    method GetBestBlock() returns (best: nat)
      modifies `hashBlock
      ensures best == old(BestBlock(AsView())) == BestBlock(AsView())
      ensures hashBlock == best
    {
      if hashBlock == 0 {
        hashBlock := BestBlock(base);
      }
      best := hashBlock;
    }
  }

  /** On a well-formed cache over a cache no merge is misapplied. */
  lemma FlushNeverThrows(v: View)
    requires v.Cache? && v.base.Cache? && WellFormed(v)
    ensures forall p | p in v.entries :: Merge(At(v.base.entries, p), v.entries[p]).Merged?
  {
    forall p | p in v.entries ensures Merge(At(v.base.entries, p), v.entries[p]).Merged? {
      assert EntryOk(v.entries[p], Lookup(v.base, p));
      MergeRight(At(v.base.entries, p), v.entries[p], Lookup(v.base.base, p));
    }
  }

  /** What adding the first n outputs of a transaction makes of a view. */
  ghost predicate OutputsAdded(v: View, txid: nat, outs: seq<TxOut>, n: nat, height: nat, coinBase: bool, v': View)
    requires n <= |outs|
  {
    forall p :: Lookup(v', p) ==
      (if p.hash == txid && p.n < n && !Unspendable(outs[p.n].script) then Some(Coin(outs[p.n], height, coinBase))
       else Lookup(v, p))
  }

  /** The caller's promise: none of the first n spendable outputs exists unspent. */
  ghost predicate OutputsFree(v: View, txid: nat, outs: seq<TxOut>, n: nat)
    requires n <= |outs|
  {
    forall i | 0 <= i < n && !Unspendable(outs[i].script) :: Lookup(v, OutPoint(txid, i)).None?
  }

  /** The flags of the outputs still to come are right. */
  ghost predicate RestOk(v: View, txid: nat, outs: seq<TxOut>, n: nat)
    requires v.Cache?
  {
    forall i | n <= i < |outs| && OutPoint(txid, i) in v.entries :: EntryOk(v.entries[OutPoint(txid, i)], Lookup(v.base, OutPoint(txid, i)))
  }

  lemma OneMoreOutput(v: View, txid: nat, outs: seq<TxOut>, n: nat, height: nat, coinBase: bool, w: View, v': View, overwrite: bool)
    requires n < |outs| && outs[n].value != -1
    requires w.Cache? && OutputsAdded(v, txid, outs, n, height, coinBase, w)
    requires Added(w, OutPoint(txid, n), Coin(outs[n], height, coinBase), overwrite) == Fine(v')
    ensures OutputsAdded(v, txid, outs, n + 1, height, coinBase, v')
  {
    var p, coin := OutPoint(txid, n), Coin(outs[n], height, coinBase);
    AddSets(w, p, coin, overwrite);
    forall q ensures Lookup(v', q) ==
      (if q.hash == txid && q.n < n + 1 && !Unspendable(outs[q.n].script) then Some(Coin(outs[q.n], height, coinBase))
       else Lookup(v, q)) {
      assert Lookup(w, q) ==
        (if q.hash == txid && q.n < n && !Unspendable(outs[q.n].script) then Some(Coin(outs[q.n], height, coinBase))
         else Lookup(v, q));
    }
  }

  /** A wrong promise for one output is not repaired by the next. */
  lemma OneMorePromise(w: View, txid: nat, outs: seq<TxOut>, n: nat, coin: Coin, overwrite: bool, v': View)
    requires n < |outs| && !coin.Spent() && w.Cache? && RestOk(w, txid, outs, n)
    requires Added(w, OutPoint(txid, n), coin, overwrite) == Fine(v')
    ensures v'.Cache? && RestOk(v', txid, outs, n + 1)
    ensures WellFormed(v') <==>
            WellFormed(w) && (Unspendable(coin.out.script) || overwrite || Lookup(w, OutPoint(txid, n)).None?)
  {
    var p := OutPoint(txid, n);
    if !Unspendable(coin.out.script) {
      if WellFormed(w) {
        AddKeepsFlags(w, p, coin, overwrite);
      } else if WellFormed(v') {
        forall q | q in w.entries ensures EntryOk(w.entries[q], Lookup(w.base, q)) {
          assert q == p || (q in v'.entries && v'.entries[q] == w.entries[q]);
        }
      }
    }
  }

  /** AddCoins throws nothing and keeps the flags right exactly when it checks, or adds a coinbase, or no spendable output
      of the transaction exists unspent; as far as it comes it adds exactly the spendable outputs. */
  method AddCoins(cache: CoinsViewCache, txid: nat, outs: seq<TxOut>, height: nat, coinBase: bool, check: bool)
    returns (thrown: bool, ghost done: nat)
    requires WellFormed(cache.AsView()) && forall i | 0 <= i < |outs| :: outs[i].value != -1
    modifies cache
    ensures !thrown && WellFormed(cache.AsView()) <==> check || coinBase || OutputsFree(old(cache.AsView()), txid, outs, |outs|)
    ensures done <= |outs| && OutputsAdded(old(cache.AsView()), txid, outs, done, height, coinBase, cache.AsView())
    ensures !thrown ==> done == |outs|
  {
    ghost var start := cache.AsView();
    done := 0;
    for i := 0 to |outs|
      invariant done == i && RestOk(cache.AsView(), txid, outs, i)
      invariant WellFormed(cache.AsView()) <==> check || coinBase || OutputsFree(start, txid, outs, i)
      invariant OutputsAdded(start, txid, outs, i, height, coinBase, cache.AsView())
    {
      var p := OutPoint(txid, i);
      var overwrite := coinBase;
      ghost var w := cache.AsView();
      assert Lookup(w, p) == Lookup(start, p);
      if check {
        FetchKeeps(w, p);
        var have := cache.GetCoin(p);
        overwrite := have.Some?;
        forall q ensures Lookup(cache.AsView(), q) == Lookup(w, q) {
        }
      }
      ghost var before := cache.AsView();
      AddSets(before, p, Coin(outs[i], height, coinBase), overwrite);
      thrown := cache.AddCoin(p, Coin(outs[i], height, coinBase), overwrite);
      if thrown {
        return;
      }
      OneMoreOutput(start, txid, outs, i, height, coinBase, before, cache.AsView(), overwrite);
      OneMorePromise(before, txid, outs, i, Coin(outs[i], height, coinBase), overwrite, cache.AsView());
      done := i + 1;
    }
    thrown := false;
  }
}
