/**
 Bech32 finds up to three wrong values within 1023 places.  The zeros of the generator g(x) include three consecutive
 powers, and an error in three places that is zero at all three is no error.
 */
module Bech32Errors {
  import opened Folding
  import opened Wrappers
  import Counting
  import opened Galois
  import opened Bech32
  import opened Bech32Zeros

  // --------------------------------------------------------- powers of the zeros

  lemma BetaNext(v: Element)
    ensures Beta(Next(v)) == Next(Beta(v))
  {
    NextLinear();
    assert Next(Plus(Plus(v, Next(Next(v))), Next(Next(Next(v))))) == Plus(Next(Plus(v, Next(Next(v)))), Next(Next(Next(Next(v)))));
    assert Next(Plus(v, Next(Next(v)))) == Plus(Next(v), Next(Next(Next(v))));
  }

  lemma {:induction false} BetaPower(n: nat, v: Element)
    ensures Beta(Power(Next, n, v)) == Power(Next, n, Beta(v))
  {
    if n > 0 {
      BetaPower(n - 1, v);
      BetaNext(Power(Next, n - 1, v));
    }
  }

  /** The powers of the zeros: those of the first one, times powers of a. */
  lemma {:induction false} PowerRoot(r: nat, p: nat, v: Element)
    ensures Power(Root(r), p, v) == Power(Next, r * p, Power(Beta, p, v))
  {
    if p > 0 {
      PowerRoot(r, p - 1, v);
      BetaPower(r * (p - 1), Power(Beta, p - 1, v));
      PowerAdd(Next, r, r * (p - 1), Power(Beta, p, v));
      assert r * p == r + r * (p - 1);
    }
  }

  lemma NextZero(v: Element)
    requires Next(v) == 0
    ensures v == 0
  {
  }

  lemma BetaZero(v: Element)
    requires Beta(v) == 0
    ensures v == 0
  {
  }

  /** Only zero is mapped to zero. */
  ghost predicate Injective(f: Element -> Element) { forall u | Unfold(u) :: forall v :: f(v) == 0 ==> v == 0 }

  /** Up to 1022 times, the map returns to no element but zero. */
  ghost predicate LongCycles(f: Element -> Element) {
    forall u | Unfold(u) :: forall d: nat, v :: 0 < d < 1023 && Power(f, d, v) == v ==> v == 0
  }

  lemma NextAndBeta()
    ensures Linear(Next) && Injective(Next) && LongCycles(Next) && Injective(Beta)
  {
    NextLinear();
    forall v | Next(v) == 0 ensures v == 0 {
      NextZero(v);
    }
    forall v | Beta(v) == 0 ensures v == 0 {
      BetaZero(v);
    }
    forall d: nat, v | 0 < d < 1023 && Power(Next, d, v) == v ensures v == 0 {
      Order(d, v);
    }
  }

  lemma {:induction false} PowerZero(f: Element -> Element, n: nat, v: Element)
    requires Injective(f) && Power(f, n, v) == 0
    ensures v == 0
  {
    assert Unfold(0);
    if n > 0 {
      PowerZero(f, n - 1, v);
    }
  }

  // ------------------------------------------------------------- three equations

  lemma SumIsZero(u: Element, v: Element)
    ensures Plus(u, v) == 0 <==> u == v
  {
  }

  lemma Cancel(f: Element -> Element, n: nat, u: Element, v: Element)
    requires Linear(f) && Injective(f) && Power(f, n, u) == Power(f, n, v)
    ensures u == v
  {
    PowerLinear(f, n, u, v);
    SumIsZero(Power(f, n, u), Power(f, n, v));
    PowerZero(f, n, Plus(u, v));
    SumIsZero(u, v);
  }

  lemma Subtract(a: Element, b: Element, p: Element, q: Element, z: Element)
    requires Plus(Plus(a, b), z) == 0 && Plus(Plus(p, q), z) == 0
    ensures Plus(p, a) == Plus(q, b)
  {
  }

  /** Three elements whose sums are zero with three consecutive powers as factors are zero. */
  lemma ThreeEquations(f: Element -> Element, p: nat, q: nat, x: Element, y: Element, z: Element,
                       px: Element, qy: Element, ppx: Element, qqy: Element)
    requires Linear(f) && Injective(f) && LongCycles(f) && 0 < q < p < 1023
    requires px == Power(f, p, x) && qy == Power(f, q, y) && ppx == Power(f, p, px) && qqy == Power(f, q, qy)
    requires Plus(Plus(x, y), z) == 0 && Plus(Plus(px, qy), z) == 0 && Plus(Plus(ppx, qqy), z) == 0
    ensures x == 0 && y == 0 && z == 0
  {
    Subtract(x, y, px, qy, z);
    Subtract(px, qy, ppx, qqy, z);
    PowerLinear(f, p, px, x);
    PowerLinear(f, q, qy, y);
    Returns(f, p, q, Plus(px, x));
    SumIsZero(px, x);
    SumIsZero(qy, y);
    Fixed(f, p, x);
    Fixed(f, q, y);
    PlusZero(0);
    PlusZero(z);
  }

  lemma Fixed(f: Element -> Element, d: nat, v: Element)
    requires LongCycles(f) && 0 < d < 1023 && Power(f, d, v) == v
    ensures v == 0
  {
    assert Unfold(0);
  }

  lemma Returns(f: Element -> Element, p: nat, q: nat, w: Element)
    requires Linear(f) && Injective(f) && LongCycles(f) && 0 < q < p < 1023 && Power(f, p, w) == Power(f, q, w)
    ensures w == 0
  {
    PowerAdd(f, q, p - q, w);
    Cancel(f, q, Power(f, p - q, w), w);
    Fixed(f, p - q, w);
  }

  /** Three elements under the powers of a map cancel. */
  ghost predicate Cancels(f: Element -> Element, p: nat, q: nat, r: nat, a: Element, b: Element, c: Element) {
    forall u | Unfold(u) :: Plus(Plus(Power(f, p, a), Power(f, q, b)), Power(f, r, c)) == 0
  }

  lemma TakeOut(f: Element -> Element, r: nat, s: nat, t: nat, x: Element, y: Element, z: Element, sx: Element, ty: Element)
    requires Linear(f) && Injective(f) && sx == Power(f, s, x) && ty == Power(f, t, y)
    requires Cancels(f, r + s, r + t, r, x, y, z)
    ensures Plus(Plus(sx, ty), z) == 0
  {
    assert Unfold(0);
    PowerAdd(f, r, s, x);
    PowerAdd(f, r, t, y);
    PowerLinear(f, r, sx, ty);
    PowerLinear(f, r, Plus(sx, ty), z);
    PowerZero(f, r, Plus(Plus(sx, ty), z));
  }

  /** The same with a common power taken out. */
  lemma CommonPower(f: Element -> Element, p: nat, q: nat, r: nat, x: Element, y: Element, z: Element)
    requires Linear(f) && Injective(f) && LongCycles(f) && 0 < q < p < 1023
    requires Cancels(f, 0, 0, 0, x, y, z) && Cancels(f, r + p, r + q, r, x, y, z)
    requires Cancels(f, 2 * (r + p), 2 * (r + q), 2 * r, x, y, z)
    ensures x == 0 && y == 0 && z == 0
  {
    var px, qy, ppx, qqy := Power(f, p, x), Power(f, q, y), Power(f, 2 * p, x), Power(f, 2 * q, y);
    TakeOut(f, 0, 0, 0, x, y, z, x, y);
    TakeOut(f, r, p, q, x, y, z, px, qy);
    TakeOut(f, 2 * r, 2 * p, 2 * q, x, y, z, ppx, qqy);
    Doubled(f, p, x);
    Doubled(f, q, y);
    ThreeEquations(f, p, q, x, y, z, px, qy, ppx, qqy);
  }

  lemma Doubled(f: Element -> Element, n: nat, v: Element)
    ensures Power(f, 2 * n, v) == Power(f, n, Power(f, n, v))
  {
    PowerAdd(f, n, n, v);
  }

  /** A power of a map at an element. */
  ghost predicate Leads(f: Element -> Element, n: nat, v: Element, w: Element) { forall u | Unfold(u) :: Power(f, n, v) == w }

  lemma CancelsAtRoot(n: nat, p: nat, q: nat, r: nat, a: Element, b: Element, c: Element, x: Element, y: Element, z: Element)
    requires Cancels(Root(n), p, q, r, a, b, c) && Leads(Beta, p, a, x) && Leads(Beta, q, b, y) && Leads(Beta, r, c, z)
    ensures Cancels(Next, n * p, n * q, n * r, x, y, z)
  {
    PowerRoot(n, p, a);
    PowerRoot(n, q, b);
    PowerRoot(n, r, c);
  }

  lemma Led(f: Element -> Element, n: nat, v: Element) returns (w: Element)
    ensures Leads(f, n, v, w)
  {
    w := Power(f, n, v);
  }

  lemma LeadsZero(f: Element -> Element, n: nat, v: Element, w: Element)
    requires Injective(f) && Leads(f, n, v, w) && w == 0
    ensures v == 0
  {
    assert Unfold(0);
    PowerZero(f, n, v);
  }

  /** Values in three places within 1023 that cancel at three consecutive zeros are zero. */
  lemma ThreePlaces(p: nat, q: nat, r: nat, a: Element, b: Element, c: Element)
    requires r < q < p < r + 1023
    requires Cancels(Root(0), p, q, r, a, b, c) && Cancels(Root(1), p, q, r, a, b, c) && Cancels(Root(2), p, q, r, a, b, c)
    ensures a == 0 && b == 0 && c == 0
  {
    var x := Led(Beta, p, a);
    var y := Led(Beta, q, b);
    var z := Led(Beta, r, c);
    CancelsAtRoot(0, p, q, r, a, b, c, x, y, z);
    CancelsAtRoot(1, p, q, r, a, b, c, x, y, z);
    CancelsAtRoot(2, p, q, r, a, b, c, x, y, z);
    NextAndBeta();
    CommonPower(Next, p - r, q - r, r, x, y, z);
    LeadsZero(Beta, p, a, x);
    LeadsZero(Beta, q, b, y);
    LeadsZero(Beta, r, c, z);
  }

  // ----------------------------------------------------------- PolyMod, evaluated

  /** A list of values as a polynomial, evaluated. */
  ghost function Series(f: Element -> Element, vs: seq<seq<bool>>): Element
    requires AllFive(vs)
  {
    if vs == [] then 0 else Plus(f(Series(f, vs[..|vs| - 1])), Embed(vs[|vs| - 1]))
  }

  lemma EvalZero(f: Element -> Element)
    requires Linear(f)
    ensures Eval(f, Zero(30)) == 0
  {
    GroupZero(0);
    GroupZero(1);
    GroupZero(2);
    GroupZero(3);
    GroupZero(4);
    GroupZero(5);
    EmbedZero(Zero(5));
    LinearZero(f);
    assert Plus(0, 0) == 0;
  }

  /** PolyMod keeps the value at each zero of the generator. */
  lemma {:induction false} PolyEval(f: Element -> Element, vs: seq<seq<bool>>)
    requires Linear(f) && ZeroOfGenerator(f) && AllFive(vs)
    ensures Eval(f, Poly(Zero(30), vs)) == Series(f, vs)
  {
    if vs == [] {
      EvalZero(f);
    } else {
      var n := |vs| - 1;
      PolyEval(f, vs[..n]);
      StepEval(f, Poly(Zero(30), vs[..n]), vs[n]);
    }
  }

  /** The share of one place in the value of the first n. */
  function Term(f: Element -> Element, n: nat, i: nat, a: Element): Element {
    if n <= i then 0 else Power(f, n - 1 - i, a)
  }

  lemma TermNext(f: Element -> Element, n: nat, i: nat, a: Element)
    requires Linear(f)
    ensures Term(f, n + 1, i, a) == Plus(f(Term(f, n, i, a)), On(n == i, a))
  {
    LinearZero(f);
    if n == i {
      assert Plus(0, a) == a;
    } else {
      PlusZero(Term(f, n + 1, i, a));
    }
  }

  lemma PlusZero(a: Element)
    ensures Plus(a, 0) == a && Plus(0, a) == a
  {
  }

  /** Outside three places the values are zero. */
  ghost predicate OnlyAt(vs: seq<seq<bool>>, i: nat, j: nat, k: nat) {
    AllFive(vs) && i < j < k < |vs| && forall n | 0 <= n < |vs| && n != i && n != j && n != k :: vs[n] == Zero(5)
  }

  lemma {:induction false} SeriesTerms(f: Element -> Element, vs: seq<seq<bool>>, i: nat, j: nat, k: nat, n: nat)
    requires Linear(f) && OnlyAt(vs, i, j, k) && n <= |vs|
    ensures Series(f, vs[..n]) == Plus(Plus(Term(f, n, i, Embed(vs[i])), Term(f, n, j, Embed(vs[j]))), Term(f, n, k, Embed(vs[k])))
  {
    if n > 0 {
      var m := n - 1;
      var a, b, c := Embed(vs[i]), Embed(vs[j]), Embed(vs[k]);
      SeriesTerms(f, vs, i, j, k, m);
      assert vs[..n][..m] == vs[..m];
      TermNext(f, m, i, a);
      TermNext(f, m, j, b);
      TermNext(f, m, k, c);
      PlusThree(f(Term(f, m, i, a)), f(Term(f, m, j, b)), f(Term(f, m, k, c)), On(m == i, a), On(m == j, b), On(m == k, c));
      AtPlaces(vs, i, j, k, m);
    }
  }

  lemma AtPlaces(vs: seq<seq<bool>>, i: nat, j: nat, k: nat, m: nat)
    requires OnlyAt(vs, i, j, k) && m < |vs|
    ensures Embed(vs[m]) == Plus(Plus(On(m == i, Embed(vs[i])), On(m == j, Embed(vs[j]))), On(m == k, Embed(vs[k])))
  {
    PlusZero(Embed(vs[m]));
    PlusZero(0);
    EmbedZero(vs[m]);
  }

  lemma CancelsAtZero(f: Element -> Element, vs: seq<seq<bool>>, i: nat, j: nat, k: nat)
    requires Linear(f) && OnlyAt(vs, i, j, k) && Series(f, vs) == 0
    ensures Cancels(f, |vs| - 1 - i, |vs| - 1 - j, |vs| - 1 - k, Embed(vs[i]), Embed(vs[j]), Embed(vs[k]))
  {
    assert vs[..|vs|] == vs;
    SeriesTerms(f, vs, i, j, k, |vs|);
    CancelsTerms(f, |vs|, i, j, k, Embed(vs[i]), Embed(vs[j]), Embed(vs[k]));
  }

  lemma CancelsTerms(f: Element -> Element, n: nat, i: nat, j: nat, k: nat, a: Element, b: Element, c: Element)
    requires i < j < k < n && Plus(Plus(Term(f, n, i, a), Term(f, n, j, b)), Term(f, n, k, c)) == 0
    ensures Cancels(f, n - 1 - i, n - 1 - j, n - 1 - k, a, b, c)
  {
  }

  lemma SeriesAtZero(n: nat, vs: seq<seq<bool>>)
    requires n < 3 && AllFive(vs) && Poly(Zero(30), vs) == Zero(30)
    ensures Series(Root(n), vs) == 0
  {
    RootLinear(n);
    ThreeZeros(n);
    PolyEval(Root(n), vs);
    EvalZero(Root(n));
  }

  lemma CancelsAtZeros(n: nat, vs: seq<seq<bool>>, i: nat, j: nat, k: nat)
    requires n < 3 && OnlyAt(vs, i, j, k) && Poly(Zero(30), vs) == Zero(30)
    ensures Cancels(Root(n), |vs| - 1 - i, |vs| - 1 - j, |vs| - 1 - k, Embed(vs[i]), Embed(vs[j]), Embed(vs[k]))
  {
    SeriesAtZero(n, vs);
    RootLinear(n);
    CancelsAtZero(Root(n), vs, i, j, k);
  }

  /** Three places within 1023 that leave zero are zero. */
  lemma ThreeNotZero(vs: seq<seq<bool>>, i: nat, j: nat, k: nat)
    requires OnlyAt(vs, i, j, k) && k < i + 1023 && Poly(Zero(30), vs) == Zero(30)
    ensures vs[i] == Zero(5) && vs[j] == Zero(5) && vs[k] == Zero(5)
  {
    CancelsAtZeros(0, vs, i, j, k);
    CancelsAtZeros(1, vs, i, j, k);
    CancelsAtZeros(2, vs, i, j, k);
    NoneOfThree(vs, i, j, k);
  }

  lemma NoneOfThree(vs: seq<seq<bool>>, i: nat, j: nat, k: nat)
    requires AllFive(vs) && i < j < k < |vs| && k < i + 1023
    requires forall n | 0 <= n < 3 :: Cancels(Root(n), |vs| - 1 - i, |vs| - 1 - j, |vs| - 1 - k, Embed(vs[i]), Embed(vs[j]), Embed(vs[k]))
    ensures vs[i] == Zero(5) && vs[j] == Zero(5) && vs[k] == Zero(5)
  {
    ThreePlaces(|vs| - 1 - i, |vs| - 1 - j, |vs| - 1 - k, Embed(vs[i]), Embed(vs[j]), Embed(vs[k]));
    EmbedZero(vs[i]);
    EmbedZero(vs[j]);
    EmbedZero(vs[k]);
  }

  // -------------------------------------------------------------- errors detected

  lemma ThreeDifferences(c: seq<bool>, vs: seq<seq<bool>>, ws: seq<seq<bool>>, i: nat, j: nat, k: nat)
    requires |c| == 30 && |vs| == |ws| && AllFive(vs) && AllFive(ws) && i < j < k < |vs| && k < i + 1023
    requires forall n | 0 <= n < |vs| && n != i && n != j && n != k :: vs[n] == ws[n]
    requires Poly(c, vs) == Poly(c, ws)
    ensures vs == ws
  {
    var d := Sum(vs, ws);
    PolyLinear(c, c, vs, ws);
    XorSame(c);
    XorSame(Poly(c, vs));
    forall n | 0 <= n < |d| && n != i && n != j && n != k ensures d[n] == Zero(5) {
      XorSame(vs[n]);
    }
    ThreeNotZero(d, i, j, k);
    SameIfNoDifference(vs[i], ws[i], 5);
    SameIfNoDifference(vs[j], ws[j], 5);
    SameIfNoDifference(vs[k], ws[k], 5);
  }

  /** The places at which two lists differ. */
  ghost function Differing<T>(vs: seq<T>, ws: seq<T>): set<nat>
    requires |vs| == |ws|
  {
    set n: nat | n < |vs| && vs[n] != ws[n]
  }

  /** The first and the last of them. */
  lemma Ends<T>(vs: seq<T>, ws: seq<T>) returns (a: nat, b: nat)
    requires |vs| == |ws| && vs != ws
    ensures a <= b < |vs| && a in Differing(vs, ws) && b in Differing(vs, ws)
    ensures forall n | n in Differing(vs, ws) :: a <= n <= b
  {
    var some :| 0 <= some < |vs| && vs[some] != ws[some];
    a, b := 0, |vs| - 1;
    while vs[a] == ws[a]
      invariant a <= some && forall n | 0 <= n < a :: vs[n] == ws[n]
      decreases some - a
    {
      a := a + 1;
    }
    while vs[b] == ws[b]
      invariant some <= b < |vs| && forall n | b < n < |vs| :: vs[n] == ws[n]
      decreases b
    {
      b := b - 1;
    }
  }

  /** Three places that include all the differences. */
  lemma Middle<T>(vs: seq<T>, ws: seq<T>, a: nat, b: nat) returns (m: nat)
    requires |vs| == |ws| && a + 1 < b && a in Differing(vs, ws) && b in Differing(vs, ws) && |Differing(vs, ws)| <= 3
    requires forall n | n in Differing(vs, ws) :: a <= n <= b
    ensures a < m < b && Differing(vs, ws) <= {a, m, b}
  {
    var d := Differing(vs, ws);
    if d <= {a, b} {
      m := a + 1;
    } else {
      m :| m in d && m != a && m != b;
      forall n | n in d ensures n in {a, m, b} {
        Counting.SubsetSize({a, m, b, n}, d);
      }
    }
  }

  /** The differences are three at most and within a window of 1023. */
  ghost predicate FewErrors<T>(vs: seq<T>, ws: seq<T>)
    requires |vs| == |ws|
  {
    var d := Differing(vs, ws);
    |d| <= 3 && forall m, n | m in d && n in d :: n - m < 1023
  }

  /** PolyMod of two lists that differ so is not the same. */
  lemma ErrorsDetected(vs: seq<nat>, ws: seq<nat>)
    requires |vs| == |ws| && Values(vs) && Values(ws) && FewErrors(vs, ws)
    ensures Poly(ONE, Fives(vs)) == Poly(ONE, Fives(ws)) <==> vs == ws
  {
    FivesDiffer(vs, ws);
    if vs != ws && Poly(ONE, Fives(vs)) == Poly(ONE, Fives(ws)) {
      FewDetected(ONE, Fives(vs), Fives(ws));
      FivesInjective(vs, ws);
    }
  }

  lemma FivesDiffer(vs: seq<nat>, ws: seq<nat>)
    requires |vs| == |ws| && FewErrors(vs, ws)
    ensures FewErrors(Fives(vs), Fives(ws))
  {
    Counting.SubsetSize(Differing(Fives(vs), Fives(ws)), Differing(vs, ws));
  }

  lemma FewDetected(c: seq<bool>, v: seq<seq<bool>>, w: seq<seq<bool>>)
    requires |c| == 30 && |v| == |w| && AllFive(v) && AllFive(w) && FewErrors(v, w) && Poly(c, v) == Poly(c, w)
    ensures v == w
  {
    if v != w {
      var a, m, b := Places(v, w);
      if b - a < 6 {
        NearErrors(c, v, w, a, b);
      } else {
        ThreeDifferences(c, v, w, a, m, b);
      }
    }
  }

  /** The differences are near each other, or are in three places. */
  lemma Places<T>(v: seq<T>, w: seq<T>) returns (a: nat, m: nat, b: nat)
    requires |v| == |w| && v != w && FewErrors(v, w)
    ensures a <= b < |v| && b < a + 1023
    ensures b - a < 6 ==> forall n | 0 <= n < |v| && !(a <= n <= b) :: v[n] == w[n]
    ensures b - a >= 6 ==> a < m < b && forall n | 0 <= n < |v| && n != a && n != m && n != b :: v[n] == w[n]
  {
    a, b := Ends(v, w);
    m := a;
    if b - a >= 6 {
      m := Middle(v, w, a, b);
    }
    forall n | 0 <= n < |v| && n !in Differing(v, w) ensures v[n] == w[n] {
    }
  }

  lemma NearErrors(c: seq<bool>, v: seq<seq<bool>>, w: seq<seq<bool>>, a: nat, b: nat)
    requires |c| == 30 && |v| == |w| && AllFive(v) && AllFive(w) && a <= b < |v| && b - a < 6 && Poly(c, v) == Poly(c, w)
    requires forall n | 0 <= n < |v| && !(a <= n <= b) :: v[n] == w[n]
    ensures v == w
  {
    var head, m1, m2, tail := v[..a], v[a..b + 1], w[a..b + 1], v[b + 1..];
    InParts(v, w, a, b);
    Burst(c, head, m1, m2, tail);
  }

  lemma InParts<T>(v: seq<T>, w: seq<T>, a: nat, b: nat)
    requires |v| == |w| && a <= b < |v| && forall n | 0 <= n < |v| && !(a <= n <= b) :: v[n] == w[n]
    ensures v == v[..a] + v[a..b + 1] + v[b + 1..] && w == v[..a] + w[a..b + 1] + v[b + 1..]
  {
  }

  // ------------------------------------------------------------------ whole texts

  /** What goes into the checksum of a text: the part before the last '1', expanded, and the values behind it. */
  function Entered(s: string): (r: seq<nat>)
    ensures |r| == if LastOne(s) < 0 then 0 else LastOne(s) + |s|
  {
    if LastOne(s) < 0 then [] else ExpandHRP(Lowered(s[..LastOne(s)])) + Revs(s[LastOne(s) + 1..])
  }

  /** Two texts with the '1' at the same place that differ in up to three of these values do not decode to different ones. */
  method DecodeTypos(s: string, t: string) returns (a: Option<(string, seq<nat>)>, b: Option<(string, seq<nat>)>)
    requires |s| == |t| && LastOne(s) == LastOne(t) && |Differing(Entered(s), Entered(t))| <= 3
    ensures a.Some? <==> WellFormed(s)
    ensures b.Some? <==> WellFormed(t)
    ensures a.Some? && b.Some? ==> a == b && Entered(s) == Entered(t)
  {
    a := Decode(s);
    b := Decode(t);
    if a.Some? && b.Some? {
      EnteredVerifies(s);
      EnteredVerifies(t);
      ErrorsDetected(Entered(s), Entered(t));
      SameDecoded(s, t);
    }
  }

  lemma EnteredVerifies(s: string)
    requires WellFormed(s)
    ensures |Entered(s)| < 1023 && Values(Entered(s)) && Poly(ONE, Fives(Entered(s))) == ONE
  {
    EnteredValues(s);
    Remainder(Lowered(s[..LastOne(s)]), Revs(s[LastOne(s) + 1..]));
  }

  lemma EnteredValues(s: string)
    requires WellFormed(s)
    ensures |Entered(s)| < 1023 && Values(Entered(s))
  {
    PartIsBytes(s, LastOne(s));
  }

  lemma Remainder(hrp: string, values: seq<nat>)
    ensures Verifies(hrp, values) ==> Poly(ONE, Fives(ExpandHRP(hrp) + values)) == ONE
  {
    assert Unfold(0);
  }

  lemma SameDecoded(s: string, t: string)
    requires |s| == |t| && LastOne(s) == LastOne(t) && 0 <= LastOne(s) && LastOne(s) + 7 <= |s| && Entered(s) == Entered(t)
    ensures Lowered(s[..LastOne(s)]) == Lowered(t[..LastOne(t)])
    ensures Revs(s[LastOne(s) + 1..|s| - 6]) == Revs(t[LastOne(t) + 1..|t| - 6])
  {
    var p := LastOne(s);
    var x, y := ExpandHRP(Lowered(s[..p])), ExpandHRP(Lowered(t[..p]));
    var u, v := Revs(s[p + 1..]), Revs(t[p + 1..]);
    SameParts(x, y, u, v);
    ExpandInjective(Lowered(s[..p]), Lowered(t[..p]));
    var n := |s| - 6 - (p + 1);
    assert Revs(s[p + 1..|s| - 6]) == u[..n] && Revs(t[p + 1..|t| - 6]) == v[..n];
  }

  lemma SameParts(x: seq<nat>, y: seq<nat>, u: seq<nat>, v: seq<nat>)
    requires |x| == |y| && x + u == y + v
    ensures x == y && u == v
  {
    assert x == (x + u)[..|x|] && y == (y + v)[..|y|] && u == (x + u)[|x|..] && v == (y + v)[|y|..];
  }

  lemma ExpandInjective(a: string, b: string)
    requires |a| == |b| && ExpandHRP(a) == ExpandHRP(b)
    ensures a == b
  {
    forall i | 0 <= i < |a| ensures a[i] == b[i] {
      ExpandAt(a, i);
      ExpandAt(b, i);
      SameChar(a[i], b[i]);
    }
  }

  lemma ExpandAt(a: string, i: nat)
    requires i < |a|
    ensures ExpandHRP(a)[i] == a[i] as nat / 32 && ExpandHRP(a)[|a| + 1 + i] == a[i] as nat % 32 && ExpandHRP(a)[|a|] == 0
  {
  }

  lemma SameChar(c: char, d: char)
    requires c as nat / 32 == d as nat / 32 && c as nat % 32 == d as nat % 32
    ensures c == d
  {
    var x, y := c as nat, d as nat;
    assert x == 32 * (x / 32) + x % 32 && y == 32 * (y / 32) + y % 32;
  }

  // -------------------------------------------------------- how many wrong characters

  lemma ConcatDiffers<T>(x: seq<T>, y: seq<T>, u: seq<T>, v: seq<T>)
    requires |x| == |y| && |u| == |v|
    ensures |Differing(x + u, y + v)| <= |Differing(x, y)| + |Differing(u, v)|
  {
    var all := Differing(x + u, y + v);
    var low, high := set n | n in all && n < |x|, set n | n in all && n >= |x|;
    assert all == low + high;
    forall n | n in low ensures n in Differing(x, y) {
      assert (x + u)[n] == x[n] && (y + v)[n] == y[n];
    }
    Counting.SubsetSize(low, Differing(x, y));
    forall n | n in high ensures n - |x| in Differing(u, v) {
      assert (x + u)[n] == u[n - |x|] && (y + v)[n] == v[n - |x|];
    }
    MovedFewer(high, -|x|, Differing(u, v));
  }

  /** The upper and the lower bits of a part's characters. */
  function High(a: string): (r: seq<nat>)
    ensures |r| == |a| && forall i | 0 <= i < |a| :: r[i] == a[i] as nat / 32
  {
    seq(|a|, i requires 0 <= i < |a| => a[i] as nat / 32)
  }

  function LowBitsOf(a: string): (r: seq<nat>)
    ensures |r| == |a| && forall i | 0 <= i < |a| :: r[i] == a[i] as nat % 32
  {
    seq(|a|, i requires 0 <= i < |a| => a[i] as nat % 32)
  }

  /** A wrong character of the part changes two values at most, and a letter for a letter one. */
  lemma PartDiffers(a: string, b: string)
    requires |a| == |b|
    ensures |Differing(ExpandHRP(a), ExpandHRP(b))| <= 2 * |Differing(a, b)|
    ensures (forall i | 0 <= i < |a| :: IsLower(a[i]) && IsLower(b[i])) ==> |Differing(ExpandHRP(a), ExpandHRP(b))| <= |Differing(a, b)|
  {
    assert ExpandHRP(a) == High(a) + ([0] + LowBitsOf(a)) && ExpandHRP(b) == High(b) + ([0] + LowBitsOf(b));
    ConcatDiffers(High(a), High(b), [0] + LowBitsOf(a), [0] + LowBitsOf(b));
    ConcatDiffers([0], [0], LowBitsOf(a), LowBitsOf(b));
    assert Differing<nat>([0], [0]) == {};
    HalvesDiffer(a, b);
  }

  lemma HalvesDiffer(a: string, b: string)
    requires |a| == |b|
    ensures |Differing(High(a), High(b))| <= |Differing(a, b)| && |Differing(LowBitsOf(a), LowBitsOf(b))| <= |Differing(a, b)|
    ensures (forall i | 0 <= i < |a| :: IsLower(a[i]) && IsLower(b[i])) ==> Differing(High(a), High(b)) == {}
  {
    Counting.SubsetSize(Differing(High(a), High(b)), Differing(a, b));
    Counting.SubsetSize(Differing(LowBitsOf(a), LowBitsOf(b)), Differing(a, b));
  }

  /** So in the part one wrong character is found, with another one behind it too; three of them if all are letters; and
      behind the part three. */
  lemma FewTypos(s: string, t: string)
    requires |s| == |t| && LastOne(s) == LastOne(t) && 0 <= LastOne(s)
    ensures var p := LastOne(s);
            var inPart, behind := |Differing(Lowered(s[..p]), Lowered(t[..p]))|, |Differing(Revs(s[p + 1..]), Revs(t[p + 1..]))|;
            && |Differing(Entered(s), Entered(t))| <= 2 * inPart + behind
            && ((forall i | 0 <= i < p :: IsLower(LowerCase(s[i])) && IsLower(LowerCase(t[i]))) ==>
                  |Differing(Entered(s), Entered(t))| <= inPart + behind)
  {
    var p := LastOne(s);
    var a, b := Lowered(s[..p]), Lowered(t[..p]);
    PartDiffers(a, b);
    ConcatDiffers(ExpandHRP(a), ExpandHRP(b), Revs(s[p + 1..]), Revs(t[p + 1..]));
  }

  lemma {:induction false} MovedFewer(d: set<nat>, k: int, e: set<nat>)
    requires forall n | n in d :: n + k in e
    ensures |d| <= |e|
  {
    if d != {} {
      var x :| x in d;
      MovedFewer(d - {x}, k, e - {x + k});
    }
  }
}
