/**
 The zeros of the Bech32 generator g(x).  A word of the checksum is a polynomial over the field of 32 elements modulo
 g(x), so that it can be evaluated at a zero of g(x): a step of PolyMod multiplies the outcome by the zero and adds the
 next value.
 */
module Bech32Zeros {
  import opened Folding
  import opened Galois
  import opened Bits
  import opened Bech32

  // ------------------------------------------------------------- values as elements

  /** A 5-bit value as an element: the field of 32 elements inside the field of 1024, where the powers of 333, a zero of
      x^5 + x^3 + 1, stand for the bits. */
  ghost function Embed(b: seq<bool>): (e: Element)
    requires |b| == 5
    ensures Embeds(b, e)
  {
    assert Embeds(b, FiveSum(On(b[0], 1), On(b[1], 333), On(b[2], 643), On(b[3], 615), On(b[4], 290)));
    var e :| Embeds(b, e);
    e
  }

  ghost predicate Embeds(b: seq<bool>, e: Element)
    requires |b| == 5
  {
    forall u | Unfold(u) :: e == FiveSum(On(b[0], 1), On(b[1], 333), On(b[2], 643), On(b[3], 615), On(b[4], 290))
  }

  lemma Spanned(a: bool, b: bool, c: bool, d: bool, e: bool)
    requires FiveSum(On(a, 1), On(b, 333), On(c, 643), On(d, 615), On(e, 290)) == 0
    ensures !a && !b && !c && !d && !e
  {
  }

  lemma EmbedZero(b: seq<bool>)
    requires |b| == 5
    ensures Embed(b) == 0 <==> b == Zero(5)
  {
    assert Unfold(0);
    if Embed(b) == 0 {
      Spanned(b[0], b[1], b[2], b[3], b[4]);
    }
  }

  lemma OnXor(a: bool, b: bool, x: Element)
    ensures On(a != b, x) == Plus(On(a, x), On(b, x))
  {
  }

  lemma SumPlus(a: Element, b: Element, c: Element, d: Element, e: Element, p: Element, q: Element, r: Element, s: Element, t: Element)
    ensures FiveSum(Plus(a, p), Plus(b, q), Plus(c, r), Plus(d, s), Plus(e, t)) == Plus(FiveSum(a, b, c, d, e), FiveSum(p, q, r, s, t))
  {
    PlusTwo(a, b, p, q);
    PlusTwo(Plus(a, b), c, Plus(p, q), r);
    PlusTwo(Plus(Plus(a, b), c), d, Plus(Plus(p, q), r), s);
    PlusTwo(Plus(Plus(Plus(a, b), c), d), e, Plus(Plus(Plus(p, q), r), s), t);
  }

  lemma EmbedXor(v: seq<bool>, w: seq<bool>)
    requires |v| == |w| == 5
    ensures Embed(Xor(v, w)) == Plus(Embed(v), Embed(w))
  {
    assert Unfold(0);
    OnXor(v[0], w[0], 1);
    OnXor(v[1], w[1], 333);
    OnXor(v[2], w[2], 643);
    OnXor(v[3], w[3], 615);
    OnXor(v[4], w[4], 290);
    SumPlus(On(v[0], 1), On(v[1], 333), On(v[2], 643), On(v[3], 615), On(v[4], 290),
            On(w[0], 1), On(w[1], 333), On(w[2], 643), On(w[3], 615), On(w[4], 290));
  }

  // ------------------------------------------------------------- the three zeros

  function Beta(v: Element): Element { Plus(Plus(v, Next(Next(v))), Next(Next(Next(v)))) }

  /** Multiplication by one of the zeros of g(x). */
  function Root(i: nat): Element -> Element { v => Power(Next, i, Beta(v)) }

  lemma PlusThree(a: Element, b: Element, c: Element, p: Element, q: Element, r: Element)
    ensures Plus(Plus(Plus(a, p), Plus(b, q)), Plus(c, r)) == Plus(Plus(Plus(a, b), c), Plus(Plus(p, q), r))
  {
    PlusTwo(a, b, p, q);
    PlusTwo(Plus(a, b), c, Plus(p, q), r);
  }

  lemma BetaSum(f: Element -> Element, u: Element, v: Element)
    requires Linear(f)
    ensures var w := Plus(u, v);
            Plus(Plus(w, f(f(w))), f(f(f(w)))) == Plus(Plus(Plus(u, f(f(u))), f(f(f(u)))), Plus(Plus(v, f(f(v))), f(f(f(v)))))
  {
    PlusThree(u, f(f(u)), f(f(f(u))), v, f(f(v)), f(f(f(v))));
  }

  lemma RootSum(i: nat, u: Element, v: Element)
    ensures Root(i)(Plus(u, v)) == Plus(Root(i)(u), Root(i)(v))
  {
    NextLinear();
    BetaSum(Next, u, v);
    PowerLinear(Next, i, Beta(u), Beta(v));
  }

  lemma RootLinear(i: nat)
    ensures Linear(Root(i))
  {
    forall u, v ensures Root(i)(Plus(u, v)) == Plus(Root(i)(u), Root(i)(v)) {
      RootSum(i, u, v);
    }
  }

  // -------------------------------------------------------- evaluation of a word

  /** The value of a polynomial of degree five. */
  function Horner(f: Element -> Element, g5: Element, g4: Element, g3: Element, g2: Element, g1: Element, g0: Element): Element {
    Plus(f(Plus(f(Plus(f(Plus(f(Plus(f(g5), g4)), g3)), g2)), g1)), g0)
  }

  lemma HornerStep(f: Element -> Element, a: Element, p: Element, b: Element, q: Element)
    requires Linear(f)
    ensures Plus(f(Plus(a, p)), Plus(b, q)) == Plus(Plus(f(a), b), Plus(f(p), q))
  {
    PlusTwo(f(a), b, f(p), q);
  }

  lemma HornerPlus(f: Element -> Element, a5: Element, a4: Element, a3: Element, a2: Element, a1: Element, a0: Element,
                   b5: Element, b4: Element, b3: Element, b2: Element, b1: Element, b0: Element)
    requires Linear(f)
    ensures Horner(f, Plus(a5, b5), Plus(a4, b4), Plus(a3, b3), Plus(a2, b2), Plus(a1, b1), Plus(a0, b0)) ==
            Plus(Horner(f, a5, a4, a3, a2, a1, a0), Horner(f, b5, b4, b3, b2, b1, b0))
  {
    HornerStep(f, a5, b5, a4, b4);
    var a, b := Plus(f(a5), a4), Plus(f(b5), b4);
    HornerStep(f, a, b, a3, b3);
    a, b := Plus(f(a), a3), Plus(f(b), b3);
    HornerStep(f, a, b, a2, b2);
    a, b := Plus(f(a), a2), Plus(f(b), b2);
    HornerStep(f, a, b, a1, b1);
    a, b := Plus(f(a), a1), Plus(f(b), b1);
    HornerStep(f, a, b, a0, b0);
  }

  function Sixth(f: Element -> Element, v: Element): Element { f(f(f(f(f(f(v)))))) }

  /** A word of the checksum, evaluated. */
  ghost function Eval(f: Element -> Element, c: seq<bool>): Element
    requires |c| == 30
  {
    Horner(f, Embed(Group(c, 5)), Embed(Group(c, 4)), Embed(Group(c, 3)), Embed(Group(c, 2)), Embed(Group(c, 1)), Embed(Group(c, 0)))
  }

  // ----------------------------------------------------------- what is folded back

  /** What the value leaving on the left folds back into a group. */
  function BackGroup(c: seq<bool>, j: nat): (r: seq<bool>)
    requires |c| == 30 && j < 6
    ensures |r| == 5 && forall k | 0 <= k < 5 :: r[k] == Back(c, 5 * j + k)
  {
    seq(5, k requires 0 <= k < 5 => Back(c, 5 * j + k))
  }

  lemma StepGroup(c: seq<bool>, v: seq<bool>, j: nat)
    requires |c| == 30 && |v| == 5 && j < 6
    ensures Group(Step(c, v), j) == Xor(if j == 0 then v else Group(c, j - 1), BackGroup(c, j))
  {
    var before := if j == 0 then v else Group(c, j - 1);
    forall k | 0 <= k < 5 ensures Group(Step(c, v), j)[k] == Xor(before, BackGroup(c, j))[k] {
      StepGroupBit(c, v, j, k);
    }
  }

  lemma StepGroupBit(c: seq<bool>, v: seq<bool>, j: nat, k: nat)
    requires |c| == 30 && |v| == 5 && j < 6 && k < 5
    ensures Group(Step(c, v), j)[k] == ((if j == 0 then v else Group(c, j - 1))[k] != Back(c, 5 * j + k))
  {
    assert Step(c, v)[5 * j + k] == NextBit(c, v, 5 * j + k);
  }

  /** The elements that the five bits of the leaving value put into a group. */
  function Folded(c: seq<bool>, k0: Element, k1: Element, k2: Element, k3: Element, k4: Element): Element
    requires |c| == 30
  {
    FiveSum(On(c[25], k0), On(c[26], k1), On(c[27], k2), On(c[28], k3), On(c[29], k4))
  }


  lemma ShrFive(x: nat)
    ensures Shr(x, 5) == x / 32
  {
    assert Shr(x, 1) == x / 2 && Shr(x, 2) == x / 4 && Shr(x, 3) == x / 8 && Shr(x, 4) == x / 16;
  }

  lemma GroupBits(x: nat, j: nat, h: nat)
    requires Shr(x, 5 * j) == h
    ensures forall k | 0 <= k < 5 :: BitAt(x, 5 * j + k) == BitAt(h, k)
  {
    forall k | 0 <= k < 5 ensures BitAt(x, 5 * j + k) == BitAt(h, k) {
      ShrShr(x, 5 * j, k);
    }
  }

  /** A number, shifted again and again by five bits. */
  lemma Shifts(x: nat, a: nat, b: nat, c: nat, d: nat, e: nat)
    requires x / 32 == a && a / 32 == b && b / 32 == c && c / 32 == d && d / 32 == e
    ensures Shr(x, 5) == a && Shr(x, 10) == b && Shr(x, 15) == c && Shr(x, 20) == d && Shr(x, 25) == e
  {
    ShrFive(x);
    ShrShr(x, 5, 5);
    ShrFive(a);
    ShrShr(x, 10, 5);
    ShrFive(b);
    ShrShr(x, 15, 5);
    ShrFive(c);
    ShrShr(x, 20, 5);
    ShrFive(d);
  }

  lemma Shifted0()
    ensures Shr(Generator(0), 5) == 31150781 && Shr(Generator(0), 10) == 973461 && Shr(Generator(0), 15) == 30420
    ensures Shr(Generator(0), 20) == 950 && Shr(Generator(0), 25) == 29
  {
    Shifts(Generator(0), 31150781, 973461, 30420, 950, 29);
  }

  lemma Shifted1()
    ensures Shr(Generator(1), 5) == 20087923 && Shr(Generator(1), 10) == 627747 && Shr(Generator(1), 15) == 19617
    ensures Shr(Generator(1), 20) == 613 && Shr(Generator(1), 25) == 19
  {
    Shifts(Generator(1), 20087923, 627747, 19617, 613, 19);
  }

  lemma Shifted2()
    ensures Shr(Generator(2), 5) == 16058575 && Shr(Generator(2), 10) == 501830 && Shr(Generator(2), 15) == 15682
    ensures Shr(Generator(2), 20) == 490 && Shr(Generator(2), 25) == 15
  {
    Shifts(Generator(2), 16058575, 501830, 15682, 490, 15);
  }

  lemma Shifted3()
    ensures Shr(Generator(3), 5) == 32117150 && Shr(Generator(3), 10) == 1003660 && Shr(Generator(3), 15) == 31364
    ensures Shr(Generator(3), 20) == 980 && Shr(Generator(3), 25) == 30
  {
    Shifts(Generator(3), 32117150, 1003660, 31364, 980, 30);
  }

  lemma Shifted4()
    ensures Shr(Generator(4), 5) == 22061845 && Shr(Generator(4), 10) == 689432 && Shr(Generator(4), 15) == 21544
    ensures Shr(Generator(4), 20) == 673 && Shr(Generator(4), 25) == 21
  {
    Shifts(Generator(4), 22061845, 689432, 21544, 673, 21);
  }

  lemma Generators0()
    ensures !BitAt(Generator(0), 0) && BitAt(Generator(0), 1) && !BitAt(Generator(0), 2) && !BitAt(Generator(0), 3) && BitAt(Generator(0), 4)
    ensures BitAt(Generator(1), 0) && !BitAt(Generator(1), 1) && BitAt(Generator(1), 2) && BitAt(Generator(1), 3) && !BitAt(Generator(1), 4)
    ensures !BitAt(Generator(2), 0) && BitAt(Generator(2), 1) && !BitAt(Generator(2), 2) && BitAt(Generator(2), 3) && BitAt(Generator(2), 4)
    ensures BitAt(Generator(3), 0) && !BitAt(Generator(3), 1) && BitAt(Generator(3), 2) && BitAt(Generator(3), 3) && BitAt(Generator(3), 4)
    ensures BitAt(Generator(4), 0) && BitAt(Generator(4), 1) && !BitAt(Generator(4), 2) && !BitAt(Generator(4), 3) && BitAt(Generator(4), 4)
  {
  }

  lemma Mixed0(a: bool, b: bool, c: bool, d: bool, e: bool)
    ensures FiveSum(On(Mix(a, b, c, d, e, false, true, false, true, true), 1),
                    On(Mix(a, b, c, d, e, true, false, true, false, true), 333),
                    On(Mix(a, b, c, d, e, false, true, false, true, false), 643),
                    On(Mix(a, b, c, d, e, false, true, true, true, false), 615),
                    On(Mix(a, b, c, d, e, true, false, true, true, true), 290)) ==
            FiveSum(On(a, 111), On(b, 229), On(c, 520), On(d, 455), On(e, 110))
  {
  }

  lemma Back0(c: seq<bool>)
    requires |c| == 30
    ensures Embed(BackGroup(c, 0)) == Folded(c, 111, 229, 520, 455, 110)
  {
    assert Unfold(0);
    Generators0();
    Mixed0(c[25], c[26], c[27], c[28], c[29]);
  }

  lemma Generators1()
    ensures BitAt(Generator(0), 5) && !BitAt(Generator(0), 6) && BitAt(Generator(0), 7) && BitAt(Generator(0), 8) && BitAt(Generator(0), 9)
    ensures BitAt(Generator(1), 5) && BitAt(Generator(1), 6) && !BitAt(Generator(1), 7) && !BitAt(Generator(1), 8) && BitAt(Generator(1), 9)
    ensures BitAt(Generator(2), 5) && BitAt(Generator(2), 6) && BitAt(Generator(2), 7) && BitAt(Generator(2), 8) && !BitAt(Generator(2), 9)
    ensures !BitAt(Generator(3), 5) && BitAt(Generator(3), 6) && BitAt(Generator(3), 7) && BitAt(Generator(3), 8) && BitAt(Generator(3), 9)
    ensures BitAt(Generator(4), 5) && !BitAt(Generator(4), 6) && BitAt(Generator(4), 7) && !BitAt(Generator(4), 8) && BitAt(Generator(4), 9)
  {
    Shifted0();
    Shifted1();
    Shifted2();
    Shifted3();
    Shifted4();
    Low1();
    GroupBits(Generator(0), 1, 31150781);
    GroupBits(Generator(1), 1, 20087923);
    GroupBits(Generator(2), 1, 16058575);
    GroupBits(Generator(3), 1, 32117150);
    GroupBits(Generator(4), 1, 22061845);
  }

  lemma Low1()
    ensures BitAt(31150781, 0) && !BitAt(31150781, 1) && BitAt(31150781, 2) && BitAt(31150781, 3) && BitAt(31150781, 4)
    ensures BitAt(20087923, 0) && BitAt(20087923, 1) && !BitAt(20087923, 2) && !BitAt(20087923, 3) && BitAt(20087923, 4)
    ensures BitAt(16058575, 0) && BitAt(16058575, 1) && BitAt(16058575, 2) && BitAt(16058575, 3) && !BitAt(16058575, 4)
    ensures !BitAt(32117150, 0) && BitAt(32117150, 1) && BitAt(32117150, 2) && BitAt(32117150, 3) && BitAt(32117150, 4)
    ensures BitAt(22061845, 0) && !BitAt(22061845, 1) && BitAt(22061845, 2) && !BitAt(22061845, 3) && BitAt(22061845, 4)
  {
  }

  lemma Mixed1(a: bool, b: bool, c: bool, d: bool, e: bool)
    ensures FiveSum(On(Mix(a, b, c, d, e, true, true, true, false, true), 1),
                    On(Mix(a, b, c, d, e, false, true, true, true, false), 333),
                    On(Mix(a, b, c, d, e, true, false, true, true, true), 643),
                    On(Mix(a, b, c, d, e, true, false, true, true, false), 615),
                    On(Mix(a, b, c, d, e, true, true, false, true, true), 290)) ==
            FiveSum(On(a, 455), On(b, 110), On(c, 424), On(d, 139), On(e, 928))
  {
  }

  lemma Back1(c: seq<bool>)
    requires |c| == 30
    ensures Embed(BackGroup(c, 1)) == Folded(c, 455, 110, 424, 139, 928)
  {
    assert Unfold(0);
    Generators1();
    Mixed1(c[25], c[26], c[27], c[28], c[29]);
  }

  lemma Generators2()
    ensures BitAt(Generator(0), 10) && !BitAt(Generator(0), 11) && BitAt(Generator(0), 12) && !BitAt(Generator(0), 13) && BitAt(Generator(0), 14)
    ensures BitAt(Generator(1), 10) && BitAt(Generator(1), 11) && !BitAt(Generator(1), 12) && !BitAt(Generator(1), 13) && !BitAt(Generator(1), 14)
    ensures !BitAt(Generator(2), 10) && BitAt(Generator(2), 11) && BitAt(Generator(2), 12) && !BitAt(Generator(2), 13) && !BitAt(Generator(2), 14)
    ensures !BitAt(Generator(3), 10) && !BitAt(Generator(3), 11) && BitAt(Generator(3), 12) && BitAt(Generator(3), 13) && !BitAt(Generator(3), 14)
    ensures !BitAt(Generator(4), 10) && !BitAt(Generator(4), 11) && !BitAt(Generator(4), 12) && BitAt(Generator(4), 13) && BitAt(Generator(4), 14)
  {
    Shifted0();
    Shifted1();
    Shifted2();
    Shifted3();
    Shifted4();
    Low2();
    GroupBits(Generator(0), 2, 973461);
    GroupBits(Generator(1), 2, 627747);
    GroupBits(Generator(2), 2, 501830);
    GroupBits(Generator(3), 2, 1003660);
    GroupBits(Generator(4), 2, 689432);
  }

  lemma Low2()
    ensures BitAt(973461, 0) && !BitAt(973461, 1) && BitAt(973461, 2) && !BitAt(973461, 3) && BitAt(973461, 4)
    ensures BitAt(627747, 0) && BitAt(627747, 1) && !BitAt(627747, 2) && !BitAt(627747, 3) && !BitAt(627747, 4)
    ensures !BitAt(501830, 0) && BitAt(501830, 1) && BitAt(501830, 2) && !BitAt(501830, 3) && !BitAt(501830, 4)
    ensures !BitAt(1003660, 0) && !BitAt(1003660, 1) && BitAt(1003660, 2) && BitAt(1003660, 3) && !BitAt(1003660, 4)
    ensures !BitAt(689432, 0) && !BitAt(689432, 1) && !BitAt(689432, 2) && BitAt(689432, 3) && BitAt(689432, 4)
  {
  }

  lemma Mixed2(a: bool, b: bool, c: bool, d: bool, e: bool)
    ensures FiveSum(On(Mix(a, b, c, d, e, true, true, false, false, false), 1),
                    On(Mix(a, b, c, d, e, false, true, true, false, false), 333),
                    On(Mix(a, b, c, d, e, true, false, true, true, false), 643),
                    On(Mix(a, b, c, d, e, false, false, false, true, true), 615),
                    On(Mix(a, b, c, d, e, true, false, false, false, true), 290)) ==
            FiveSum(On(a, 928), On(b, 332), On(c, 974), On(d, 228), On(e, 837))
  {
  }

  lemma Back2(c: seq<bool>)
    requires |c| == 30
    ensures Embed(BackGroup(c, 2)) == Folded(c, 928, 332, 974, 228, 837)
  {
    assert Unfold(0);
    Generators2();
    Mixed2(c[25], c[26], c[27], c[28], c[29]);
  }

  lemma Generators3()
    ensures !BitAt(Generator(0), 15) && !BitAt(Generator(0), 16) && BitAt(Generator(0), 17) && !BitAt(Generator(0), 18) && BitAt(Generator(0), 19)
    ensures BitAt(Generator(1), 15) && !BitAt(Generator(1), 16) && !BitAt(Generator(1), 17) && !BitAt(Generator(1), 18) && !BitAt(Generator(1), 19)
    ensures !BitAt(Generator(2), 15) && BitAt(Generator(2), 16) && !BitAt(Generator(2), 17) && !BitAt(Generator(2), 18) && !BitAt(Generator(2), 19)
    ensures !BitAt(Generator(3), 15) && !BitAt(Generator(3), 16) && BitAt(Generator(3), 17) && !BitAt(Generator(3), 18) && !BitAt(Generator(3), 19)
    ensures !BitAt(Generator(4), 15) && !BitAt(Generator(4), 16) && !BitAt(Generator(4), 17) && BitAt(Generator(4), 18) && !BitAt(Generator(4), 19)
  {
    Shifted0();
    Shifted1();
    Shifted2();
    Shifted3();
    Shifted4();
    Low3();
    GroupBits(Generator(0), 3, 30420);
    GroupBits(Generator(1), 3, 19617);
    GroupBits(Generator(2), 3, 15682);
    GroupBits(Generator(3), 3, 31364);
    GroupBits(Generator(4), 3, 21544);
  }

  lemma Low3()
    ensures !BitAt(30420, 0) && !BitAt(30420, 1) && BitAt(30420, 2) && !BitAt(30420, 3) && BitAt(30420, 4)
    ensures BitAt(19617, 0) && !BitAt(19617, 1) && !BitAt(19617, 2) && !BitAt(19617, 3) && !BitAt(19617, 4)
    ensures !BitAt(15682, 0) && BitAt(15682, 1) && !BitAt(15682, 2) && !BitAt(15682, 3) && !BitAt(15682, 4)
    ensures !BitAt(31364, 0) && !BitAt(31364, 1) && BitAt(31364, 2) && !BitAt(31364, 3) && !BitAt(31364, 4)
    ensures !BitAt(21544, 0) && !BitAt(21544, 1) && !BitAt(21544, 2) && BitAt(21544, 3) && !BitAt(21544, 4)
  {
  }

  lemma Mixed3(a: bool, b: bool, c: bool, d: bool, e: bool)
    ensures FiveSum(On(Mix(a, b, c, d, e, false, true, false, false, false), 1),
                    On(Mix(a, b, c, d, e, false, false, true, false, false), 333),
                    On(Mix(a, b, c, d, e, true, false, false, true, false), 643),
                    On(Mix(a, b, c, d, e, false, false, false, false, true), 615),
                    On(Mix(a, b, c, d, e, true, false, false, false, false), 290)) ==
            FiveSum(On(a, 929), On(b, 1), On(c, 333), On(d, 643), On(e, 615))
  {
  }

  lemma Back3(c: seq<bool>)
    requires |c| == 30
    ensures Embed(BackGroup(c, 3)) == Folded(c, 929, 1, 333, 643, 615)
  {
    assert Unfold(0);
    Generators3();
    Mixed3(c[25], c[26], c[27], c[28], c[29]);
  }

  lemma Generators4()
    ensures !BitAt(Generator(0), 20) && BitAt(Generator(0), 21) && BitAt(Generator(0), 22) && !BitAt(Generator(0), 23) && BitAt(Generator(0), 24)
    ensures BitAt(Generator(1), 20) && !BitAt(Generator(1), 21) && BitAt(Generator(1), 22) && !BitAt(Generator(1), 23) && !BitAt(Generator(1), 24)
    ensures !BitAt(Generator(2), 20) && BitAt(Generator(2), 21) && !BitAt(Generator(2), 22) && BitAt(Generator(2), 23) && !BitAt(Generator(2), 24)
    ensures !BitAt(Generator(3), 20) && !BitAt(Generator(3), 21) && BitAt(Generator(3), 22) && !BitAt(Generator(3), 23) && BitAt(Generator(3), 24)
    ensures BitAt(Generator(4), 20) && !BitAt(Generator(4), 21) && !BitAt(Generator(4), 22) && !BitAt(Generator(4), 23) && !BitAt(Generator(4), 24)
  {
    Shifted0();
    Shifted1();
    Shifted2();
    Shifted3();
    Shifted4();
    Low4();
    GroupBits(Generator(0), 4, 950);
    GroupBits(Generator(1), 4, 613);
    GroupBits(Generator(2), 4, 490);
    GroupBits(Generator(3), 4, 980);
    GroupBits(Generator(4), 4, 673);
  }

  lemma Low4()
    ensures !BitAt(950, 0) && BitAt(950, 1) && BitAt(950, 2) && !BitAt(950, 3) && BitAt(950, 4)
    ensures BitAt(613, 0) && !BitAt(613, 1) && BitAt(613, 2) && !BitAt(613, 3) && !BitAt(613, 4)
    ensures !BitAt(490, 0) && BitAt(490, 1) && !BitAt(490, 2) && BitAt(490, 3) && !BitAt(490, 4)
    ensures !BitAt(980, 0) && !BitAt(980, 1) && BitAt(980, 2) && !BitAt(980, 3) && BitAt(980, 4)
    ensures BitAt(673, 0) && !BitAt(673, 1) && !BitAt(673, 2) && !BitAt(673, 3) && !BitAt(673, 4)
  {
  }

  lemma Mixed4(a: bool, b: bool, c: bool, d: bool, e: bool)
    ensures FiveSum(On(Mix(a, b, c, d, e, false, true, false, false, true), 1),
                    On(Mix(a, b, c, d, e, true, false, true, false, false), 333),
                    On(Mix(a, b, c, d, e, true, true, false, true, false), 643),
                    On(Mix(a, b, c, d, e, false, false, true, false, false), 615),
                    On(Mix(a, b, c, d, e, true, false, false, true, false), 290)) ==
            FiveSum(On(a, 748), On(b, 642), On(c, 810), On(d, 929), On(e, 1))
  {
  }

  lemma Back4(c: seq<bool>)
    requires |c| == 30
    ensures Embed(BackGroup(c, 4)) == Folded(c, 748, 642, 810, 929, 1)
  {
    assert Unfold(0);
    Generators4();
    Mixed4(c[25], c[26], c[27], c[28], c[29]);
  }

  lemma Generators5()
    ensures BitAt(Generator(0), 25) && !BitAt(Generator(0), 26) && BitAt(Generator(0), 27) && BitAt(Generator(0), 28) && BitAt(Generator(0), 29)
    ensures BitAt(Generator(1), 25) && BitAt(Generator(1), 26) && !BitAt(Generator(1), 27) && !BitAt(Generator(1), 28) && BitAt(Generator(1), 29)
    ensures BitAt(Generator(2), 25) && BitAt(Generator(2), 26) && BitAt(Generator(2), 27) && BitAt(Generator(2), 28) && !BitAt(Generator(2), 29)
    ensures !BitAt(Generator(3), 25) && BitAt(Generator(3), 26) && BitAt(Generator(3), 27) && BitAt(Generator(3), 28) && BitAt(Generator(3), 29)
    ensures BitAt(Generator(4), 25) && !BitAt(Generator(4), 26) && BitAt(Generator(4), 27) && !BitAt(Generator(4), 28) && BitAt(Generator(4), 29)
  {
    Shifted0();
    Shifted1();
    Shifted2();
    Shifted3();
    Shifted4();
    Low5();
    GroupBits(Generator(0), 5, 29);
    GroupBits(Generator(1), 5, 19);
    GroupBits(Generator(2), 5, 15);
    GroupBits(Generator(3), 5, 30);
    GroupBits(Generator(4), 5, 21);
  }

  lemma Low5()
    ensures BitAt(29, 0) && !BitAt(29, 1) && BitAt(29, 2) && BitAt(29, 3) && BitAt(29, 4)
    ensures BitAt(19, 0) && BitAt(19, 1) && !BitAt(19, 2) && !BitAt(19, 3) && BitAt(19, 4)
    ensures BitAt(15, 0) && BitAt(15, 1) && BitAt(15, 2) && BitAt(15, 3) && !BitAt(15, 4)
    ensures !BitAt(30, 0) && BitAt(30, 1) && BitAt(30, 2) && BitAt(30, 3) && BitAt(30, 4)
    ensures BitAt(21, 0) && !BitAt(21, 1) && BitAt(21, 2) && !BitAt(21, 3) && BitAt(21, 4)
  {
  }

  lemma Back5(c: seq<bool>)
    requires |c| == 30
    ensures Embed(BackGroup(c, 5)) == Folded(c, 455, 110, 424, 139, 928)
  {
    assert Unfold(0);
    Generators5();
    Mixed1(c[25], c[26], c[27], c[28], c[29]);
  }

  // ----------------------------------------------------- zeros of the generator

  /** Two evaluations with the same outcome. */
  lemma Agree(f: Element -> Element, g5: Element, g4: Element, g3: Element, g2: Element, g1: Element, g0: Element,
              y4: Element, y3: Element, y2: Element, y1: Element,
              x0: Element, x1: Element, x2: Element, x3: Element, x4: Element, x5: Element, z: Element)
    requires Plus(f(g5), g4) == y4 && Plus(f(y4), g3) == y3 && Plus(f(y3), g2) == y2 && Plus(f(y2), g1) == y1 && Plus(f(y1), g0) == z
    requires f(x0) == x1 && f(x1) == x2 && f(x2) == x3 && f(x3) == x4 && f(x4) == x5 && f(x5) == z
    ensures Horner(f, g5, g4, g3, g2, g1, g0) == Sixth(f, x0)
  {
  }

  lemma Zeros00()
    ensures Horner(Root(0), 455, 748, 929, 928, 455, 111) == Sixth(Root(0), 1)
  {
    Agree(Root(0), 455, 748, 929, 928, 455, 111, 96, 321, 423, 427, 1, 13, 81, 925, 1018, 313, 95);
  }

  lemma Zeros01()
    ensures Horner(Root(0), 110, 642, 1, 332, 110, 229) == Sixth(Root(0), 333)
  {
    Agree(Root(0), 110, 642, 1, 332, 110, 229, 36, 405, 74, 860, 333, 603, 379, 773, 999, 440, 247);
  }

  lemma Zeros02()
    ensures Horner(Root(0), 424, 810, 333, 974, 424, 520) == Sixth(Root(0), 643)
  {
    Agree(Root(0), 424, 810, 333, 974, 424, 520, 781, 706, 677, 512, 643, 550, 794, 892, 434, 133, 156);
  }

  lemma Zeros03()
    ensures Horner(Root(0), 139, 929, 643, 228, 139, 455) == Sixth(Root(0), 615)
  {
    Agree(Root(0), 139, 929, 643, 228, 139, 455, 891, 786, 1008, 448, 615, 87, 947, 540, 536, 556, 872);
  }

  lemma Zeros04()
    ensures Horner(Root(0), 928, 1, 615, 837, 928, 110) == Sixth(Root(0), 290)
  {
    Agree(Root(0), 928, 1, 615, 837, 928, 110, 730, 948, 378, 168, 290, 240, 661, 728, 457, 714, 259);
  }

  lemma Zeros10()
    ensures Horner(Root(1), 455, 748, 929, 928, 455, 111) == Sixth(Root(1), 1)
  {
    Agree(Root(1), 455, 748, 929, 928, 455, 111, 465, 352, 721, 671, 1, 26, 324, 601, 706, 726, 798);
  }

  lemma Zeros11()
    ensures Horner(Root(1), 110, 642, 1, 332, 110, 229) == Sixth(Root(1), 333)
  {
    Agree(Root(1), 110, 642, 1, 332, 110, 229, 491, 196, 203, 383, 333, 659, 969, 188, 786, 13, 162);
  }

  lemma Zeros12()
    ensures Horner(Root(1), 424, 810, 333, 974, 424, 520) == Sixth(Root(1), 643)
  {
    Agree(Root(1), 424, 810, 333, 974, 424, 520, 868, 857, 920, 11, 643, 617, 34, 884, 948, 603, 758);
  }

  lemma Zeros13()
    ensures Horner(Root(1), 139, 929, 643, 228, 139, 455) == Sixth(Root(1), 615)
  {
    Agree(Root(1), 139, 929, 643, 228, 139, 455, 533, 92, 345, 976, 615, 174, 646, 539, 595, 550, 17);
  }

  lemma Zeros14()
    ensures Horner(Root(1), 928, 1, 615, 837, 928, 110) == Sixth(Root(1), 290)
  {
    Agree(Root(1), 928, 1, 615, 837, 928, 110, 914, 800, 412, 358, 290, 480, 59, 542, 545, 87, 323);
  }

  lemma Zeros20()
    ensures Horner(Root(2), 455, 748, 929, 928, 455, 111) == Sixth(Root(2), 1)
  {
    Agree(Root(2), 455, 748, 929, 928, 455, 111, 691, 691, 690, 225, 1, 52, 821, 51, 953, 983, 800);
  }

  lemma Zeros21()
    ensures Horner(Root(2), 110, 642, 1, 332, 110, 229) == Sixth(Root(2), 333)
  {
    Agree(Root(2), 110, 642, 1, 332, 110, 229, 629, 629, 824, 281, 333, 771, 878, 965, 8, 416, 316);
  }

  lemma Zeros22()
    ensures Horner(Root(2), 424, 810, 333, 974, 424, 520) == Sixth(Root(2), 643)
  {
    Agree(Root(2), 424, 810, 333, 974, 424, 520, 950, 950, 309, 420, 643, 759, 136, 820, 7, 140, 996);
  }

  lemma Zeros23()
    ensures Horner(Root(2), 139, 929, 643, 228, 139, 455) == Sixth(Root(2), 615)
  {
    Agree(Root(2), 139, 929, 643, 228, 139, 455, 201, 201, 686, 925, 615, 348, 119, 547, 198, 870, 613);
  }

  lemma Zeros24()
    ensures Horner(Root(2), 928, 1, 615, 837, 928, 110) == Sixth(Root(2), 290)
  {
    Agree(Root(2), 928, 1, 615, 837, 928, 110, 258, 258, 32, 773, 290, 960, 236, 523, 451, 143, 952);
  }

  /** The map is multiplication by a zero of g(x): at it, x^6 and what is folded back for x^6 agree, for each bit of the leaving value. */
  ghost predicate ZeroOfGenerator(f: Element -> Element) {
    forall u | Unfold(u) ::
      && Horner(f, 455, 748, 929, 928, 455, 111) == Sixth(f, 1)
      && Horner(f, 110, 642, 1, 332, 110, 229) == Sixth(f, 333)
      && Horner(f, 424, 810, 333, 974, 424, 520) == Sixth(f, 643)
      && Horner(f, 139, 929, 643, 228, 139, 455) == Sixth(f, 615)
      && Horner(f, 928, 1, 615, 837, 928, 110) == Sixth(f, 290)
  }

  lemma AtZero(f: Element -> Element)
    requires ZeroOfGenerator(f)
    ensures Horner(f, 455, 748, 929, 928, 455, 111) == Sixth(f, 1)
    ensures Horner(f, 110, 642, 1, 332, 110, 229) == Sixth(f, 333)
    ensures Horner(f, 424, 810, 333, 974, 424, 520) == Sixth(f, 643)
    ensures Horner(f, 139, 929, 643, 228, 139, 455) == Sixth(f, 615)
    ensures Horner(f, 928, 1, 615, 837, 928, 110) == Sixth(f, 290)
  {
    assert Unfold(0);
  }

  /** Three consecutive zeros. */
  lemma ThreeZeros(i: nat)
    requires i < 3
    ensures ZeroOfGenerator(Root(i))
  {
    if i == 0 {
      Zeros00();
      Zeros01();
      Zeros02();
      Zeros03();
      Zeros04();
    } else if i == 1 {
      Zeros10();
      Zeros11();
      Zeros12();
      Zeros13();
      Zeros14();
    } else {
      Zeros20();
      Zeros21();
      Zeros22();
      Zeros23();
      Zeros24();
    }
  }

  // ------------------------------------------------------------- a step, evaluated

  lemma FoldedStep(f: Element -> Element, c: seq<bool>, k0: Element, k1: Element, k2: Element, k3: Element, k4: Element,
                   m0: Element, m1: Element, m2: Element, m3: Element, m4: Element)
    requires Linear(f) && |c| == 30
    ensures Plus(f(Folded(c, k0, k1, k2, k3, k4)), Folded(c, m0, m1, m2, m3, m4)) ==
            Folded(c, Plus(f(k0), m0), Plus(f(k1), m1), Plus(f(k2), m2), Plus(f(k3), m3), Plus(f(k4), m4))
  {
    LinearFive(f, c[25], c[26], c[27], c[28], c[29], k0, k1, k2, k3, k4);
    OnPlus(c[25], f(k0), m0);
    OnPlus(c[26], f(k1), m1);
    OnPlus(c[27], f(k2), m2);
    OnPlus(c[28], f(k3), m3);
    OnPlus(c[29], f(k4), m4);
    SumPlus(On(c[25], f(k0)), On(c[26], f(k1)), On(c[27], f(k2)), On(c[28], f(k3)), On(c[29], f(k4)),
            On(c[25], m0), On(c[26], m1), On(c[27], m2), On(c[28], m3), On(c[29], m4));
  }

  lemma OnPlus(b: bool, x: Element, y: Element)
    ensures On(b, Plus(x, y)) == Plus(On(b, x), On(b, y))
  {
  }

  lemma FoldedSixth(f: Element -> Element, c: seq<bool>, k0: Element, k1: Element, k2: Element, k3: Element, k4: Element)
    requires Linear(f) && |c| == 30
    ensures Sixth(f, Folded(c, k0, k1, k2, k3, k4)) == Folded(c, Sixth(f, k0), Sixth(f, k1), Sixth(f, k2), Sixth(f, k3), Sixth(f, k4))
  {
    FoldedMap(f, c, k0, k1, k2, k3, k4);
    FoldedMap(f, c, f(k0), f(k1), f(k2), f(k3), f(k4));
    FoldedMap(f, c, f(f(k0)), f(f(k1)), f(f(k2)), f(f(k3)), f(f(k4)));
    FoldedMap(f, c, f(f(f(k0))), f(f(f(k1))), f(f(f(k2))), f(f(f(k3))), f(f(f(k4))));
    FoldedMap(f, c, f(f(f(f(k0)))), f(f(f(f(k1)))), f(f(f(f(k2)))), f(f(f(f(k3)))), f(f(f(f(k4)))));
    FoldedMap(f, c, f(f(f(f(f(k0))))), f(f(f(f(f(k1))))), f(f(f(f(f(k2))))), f(f(f(f(f(k3))))), f(f(f(f(f(k4))))));
  }

  lemma FoldedMap(f: Element -> Element, c: seq<bool>, k0: Element, k1: Element, k2: Element, k3: Element, k4: Element)
    requires Linear(f) && |c| == 30
    ensures f(Folded(c, k0, k1, k2, k3, k4)) == Folded(c, f(k0), f(k1), f(k2), f(k3), f(k4))
  {
    LinearFive(f, c[25], c[26], c[27], c[28], c[29], k0, k1, k2, k3, k4);
  }

  /** What is folded back, evaluated, bit by bit of the leaving value. */
  lemma FoldedEval(f: Element -> Element, c: seq<bool>)
    requires Linear(f) && |c| == 30
    ensures Horner(f, Folded(c, 455, 110, 424, 139, 928), Folded(c, 748, 642, 810, 929, 1), Folded(c, 929, 1, 333, 643, 615),
                   Folded(c, 928, 332, 974, 228, 837), Folded(c, 455, 110, 424, 139, 928), Folded(c, 111, 229, 520, 455, 110)) ==
            Folded(c, Horner(f, 455, 748, 929, 928, 455, 111),
                   Horner(f, 110, 642, 1, 332, 110, 229),
                   Horner(f, 424, 810, 333, 974, 424, 520),
                   Horner(f, 139, 929, 643, 228, 139, 455),
                   Horner(f, 928, 1, 615, 837, 928, 110))
  {
    FoldedStep(f, c, 455, 110, 424, 139, 928, 748, 642, 810, 929, 1);
    var p0, p1, p2, p3, p4 := Plus(f(455), 748), Plus(f(110), 642), Plus(f(424), 810), Plus(f(139), 929), Plus(f(928), 1);
    FoldedStep(f, c, p0, p1, p2, p3, p4, 929, 1, 333, 643, 615);
    p0, p1, p2, p3, p4 := Plus(f(p0), 929), Plus(f(p1), 1), Plus(f(p2), 333), Plus(f(p3), 643), Plus(f(p4), 615);
    FoldedStep(f, c, p0, p1, p2, p3, p4, 928, 332, 974, 228, 837);
    p0, p1, p2, p3, p4 := Plus(f(p0), 928), Plus(f(p1), 332), Plus(f(p2), 974), Plus(f(p3), 228), Plus(f(p4), 837);
    FoldedStep(f, c, p0, p1, p2, p3, p4, 455, 110, 424, 139, 928);
    p0, p1, p2, p3, p4 := Plus(f(p0), 455), Plus(f(p1), 110), Plus(f(p2), 424), Plus(f(p3), 139), Plus(f(p4), 928);
    FoldedStep(f, c, p0, p1, p2, p3, p4, 111, 229, 520, 455, 110);
  }

  lemma BackEval(f: Element -> Element, c: seq<bool>)
    requires Linear(f) && ZeroOfGenerator(f) && |c| == 30
    ensures Horner(f, Embed(BackGroup(c, 5)), Embed(BackGroup(c, 4)), Embed(BackGroup(c, 3)),
                   Embed(BackGroup(c, 2)), Embed(BackGroup(c, 1)), Embed(BackGroup(c, 0))) == Sixth(f, Embed(Group(c, 5)))
  {
    Back0(c);
    Back1(c);
    Back2(c);
    Back3(c);
    Back4(c);
    Back5(c);
    AtZero(f);
    FoldedEval(f, c);
    FoldedSixth(f, c, 1, 333, 643, 615, 290);
    TopGroup(c);
  }

  lemma TopGroup(c: seq<bool>)
    requires |c| == 30
    ensures Embed(Group(c, 5)) == Folded(c, 1, 333, 643, 615, 290)
  {
    assert Unfold(0);
    var g := Group(c, 5);
    assert g[0] == c[25] && g[1] == c[26] && g[2] == c[27] && g[3] == c[28] && g[4] == c[29];
  }

  lemma Carry(f: Element -> Element, x: Element, y: Element, g: Element)
    requires Linear(f)
    ensures Plus(f(Plus(x, y)), g) == Plus(f(x), Plus(f(y), g))
  {
    Associative(f(x), f(y), g);
  }

  /** The highest coefficient moves to x^6. */
  lemma Raised(f: Element -> Element, g5: Element, g4: Element, g3: Element, g2: Element, g1: Element, g0: Element, v: Element)
    requires Linear(f)
    ensures Plus(f(Horner(f, g5, g4, g3, g2, g1, g0)), v) == Plus(Sixth(f, g5), Horner(f, g4, g3, g2, g1, g0, v))
  {
    Carry(f, f(g5), g4, g3);
    Carry(f, f(f(g5)), Plus(f(g4), g3), g2);
    Carry(f, f(f(f(g5))), Plus(f(Plus(f(g4), g3)), g2), g1);
    Carry(f, f(f(f(f(g5)))), Plus(f(Plus(f(Plus(f(g4), g3)), g2)), g1), g0);
    Carry(f, f(f(f(f(f(g5))))), Plus(f(Plus(f(Plus(f(Plus(f(g4), g3)), g2)), g1)), g0), v);
  }

  /** A step of PolyMod multiplies by the zero and adds the value. */
  lemma StepEval(f: Element -> Element, c: seq<bool>, v: seq<bool>)
    requires Linear(f) && ZeroOfGenerator(f) && |c| == 30 && |v| == 5
    ensures Eval(f, Step(c, v)) == Plus(f(Eval(f, c)), Embed(v))
  {
    StepEmbeds(c, v);
    HornerPlus(f, Embed(Group(c, 4)), Embed(Group(c, 3)), Embed(Group(c, 2)), Embed(Group(c, 1)), Embed(Group(c, 0)), Embed(v),
               Embed(BackGroup(c, 5)), Embed(BackGroup(c, 4)), Embed(BackGroup(c, 3)),
               Embed(BackGroup(c, 2)), Embed(BackGroup(c, 1)), Embed(BackGroup(c, 0)));
    BackEval(f, c);
    Raised(f, Embed(Group(c, 5)), Embed(Group(c, 4)), Embed(Group(c, 3)), Embed(Group(c, 2)), Embed(Group(c, 1)), Embed(Group(c, 0)), Embed(v));
    Commutative(Sixth(f, Embed(Group(c, 5))),
                Horner(f, Embed(Group(c, 4)), Embed(Group(c, 3)), Embed(Group(c, 2)), Embed(Group(c, 1)), Embed(Group(c, 0)), Embed(v)));
  }

  lemma StepEmbed(c: seq<bool>, v: seq<bool>, j: nat)
    requires |c| == 30 && |v| == 5 && j < 6
    ensures Embed(Group(Step(c, v), j)) == Plus(Embed(if j == 0 then v else Group(c, j - 1)), Embed(BackGroup(c, j)))
  {
    StepGroup(c, v, j);
    EmbedXor(if j == 0 then v else Group(c, j - 1), BackGroup(c, j));
  }

  lemma StepEmbeds(c: seq<bool>, v: seq<bool>)
    requires |c| == 30 && |v| == 5
    ensures Embed(Group(Step(c, v), 0)) == Plus(Embed(v), Embed(BackGroup(c, 0)))
    ensures Embed(Group(Step(c, v), 1)) == Plus(Embed(Group(c, 0)), Embed(BackGroup(c, 1)))
    ensures Embed(Group(Step(c, v), 2)) == Plus(Embed(Group(c, 1)), Embed(BackGroup(c, 2)))
    ensures Embed(Group(Step(c, v), 3)) == Plus(Embed(Group(c, 2)), Embed(BackGroup(c, 3)))
    ensures Embed(Group(Step(c, v), 4)) == Plus(Embed(Group(c, 3)), Embed(BackGroup(c, 4)))
    ensures Embed(Group(Step(c, v), 5)) == Plus(Embed(Group(c, 4)), Embed(BackGroup(c, 5)))
  {
    StepEmbed(c, v, 0);
    StepEmbed(c, v, 1);
    StepEmbed(c, v, 2);
    StepEmbed(c, v, 3);
    StepEmbed(c, v, 4);
    StepEmbed(c, v, 5);
  }
}
