/**
 The field of 1024 elements, as words of ten bits: polynomials in a over GF(2) modulo a^10 + a^9 + a^5 + a^2 + 1.  Every
 element but zero is a power of a, and 1023 is the least exponent that gives one.
 */
module Galois {
  type Element = bv10

  function Plus(u: Element, v: Element): Element { u ^ v }

  lemma Associative(u: Element, v: Element, w: Element)
    ensures Plus(u, Plus(v, w)) == Plus(Plus(u, v), w)
  {
  }

  lemma Commutative(u: Element, v: Element)
    ensures Plus(u, v) == Plus(v, u)
  {
  }

  /** Two sums added place by place. */
  lemma PlusTwo(a: Element, b: Element, p: Element, q: Element)
    ensures Plus(Plus(a, p), Plus(b, q)) == Plus(Plus(a, b), Plus(p, q))
  {
    Associative(a, p, Plus(b, q));
    Associative(p, b, q);
    Commutative(p, b);
    Associative(b, p, q);
    Associative(a, b, Plus(p, q));
  }

  /** A map that respects addition. */
  ghost predicate Linear(f: Element -> Element) {
    forall u, v {:trigger f(Plus(u, v))} :: f(Plus(u, v)) == Plus(f(u), f(v))
  }

  /** A map applied n times. */
  function Power(f: Element -> Element, n: nat, v: Element): Element { if n == 0 then v else f(Power(f, n - 1, v)) }

  lemma LinearZero(f: Element -> Element)
    requires Linear(f)
    ensures f(0) == 0
  {
    assert Plus(0, 0) == 0;
    assert f(Plus(0, 0)) == Plus(f(0), f(0));
  }

  lemma {:induction false} PowerLinear(f: Element -> Element, n: nat, u: Element, v: Element)
    requires Linear(f)
    ensures Power(f, n, Plus(u, v)) == Plus(Power(f, n, u), Power(f, n, v))
  {
    if n > 0 {
      PowerLinear(f, n - 1, u, v);
    }
  }

  lemma {:induction false} PowerAdd(f: Element -> Element, m: nat, n: nat, v: Element)
    ensures Power(f, m + n, v) == Power(f, m, Power(f, n, v))
  {
    if m > 0 {
      PowerAdd(f, m - 1, n, v);
    }
  }

  lemma PowerNext(f: Element -> Element, n: nat, v: Element)
    ensures Power(f, n, f(v)) == f(Power(f, n, v))
  {
    PowerAdd(f, n, 1, v);
    PowerAdd(f, 1, n, v);
  }

  // ------------------------------------------------------- powers are products

  function On(b: bool, x: Element): Element { if b then x else 0 }

  predicate Bit(v: Element, j: nat)
    requires j < 10
  {
    (v >> j) & 1 == 1
  }

  function FiveSum(a: Element, b: Element, c: Element, d: Element, e: Element): Element { Plus(Plus(Plus(Plus(a, b), c), d), e) }

  /** The sum of the images of w under the powers of a map that a word selects. */
  function Times(f: Element -> Element, v: Element, w: Element): Element {
    Plus(FiveSum(On(Bit(v, 0), w), On(Bit(v, 1), Power(f, 1, w)), On(Bit(v, 2), Power(f, 2, w)),
                 On(Bit(v, 3), Power(f, 3, w)), On(Bit(v, 4), Power(f, 4, w))),
         FiveSum(On(Bit(v, 5), Power(f, 5, w)), On(Bit(v, 6), Power(f, 6, w)), On(Bit(v, 7), Power(f, 7, w)),
                 On(Bit(v, 8), Power(f, 8, w)), On(Bit(v, 9), Power(f, 9, w))))
  }

  lemma LinearFive(f: Element -> Element, a: bool, b: bool, c: bool, d: bool, e: bool, p: Element, q: Element, r: Element, s: Element, t: Element)
    requires Linear(f)
    ensures f(FiveSum(On(a, p), On(b, q), On(c, r), On(d, s), On(e, t))) == FiveSum(On(a, f(p)), On(b, f(q)), On(c, f(r)), On(d, f(s)), On(e, f(t)))
  {
    LinearZero(f);
  }

  lemma LinearTimes(f: Element -> Element, v: Element, w: Element)
    requires Linear(f)
    ensures f(Times(f, v, w)) == Times(f, v, f(w))
  {
    LinearFive(f, Bit(v, 0), Bit(v, 1), Bit(v, 2), Bit(v, 3), Bit(v, 4), w, Power(f, 1, w), Power(f, 2, w), Power(f, 3, w), Power(f, 4, w));
    LinearFive(f, Bit(v, 5), Bit(v, 6), Bit(v, 7), Bit(v, 8), Bit(v, 9),
               Power(f, 5, w), Power(f, 6, w), Power(f, 7, w), Power(f, 8, w), Power(f, 9, w));
    PowerNext(f, 1, w);
    PowerNext(f, 2, w);
    PowerNext(f, 3, w);
    PowerNext(f, 4, w);
    PowerNext(f, 5, w);
    PowerNext(f, 6, w);
    PowerNext(f, 7, w);
    PowerNext(f, 8, w);
    PowerNext(f, 9, w);
  }

  lemma Spread(v: Element)
    ensures v == Plus(FiveSum(On(Bit(v, 0), 1), On(Bit(v, 1), 2), On(Bit(v, 2), 4), On(Bit(v, 3), 8), On(Bit(v, 4), 16)),
                      FiveSum(On(Bit(v, 5), 32), On(Bit(v, 6), 64), On(Bit(v, 7), 128), On(Bit(v, 8), 256), On(Bit(v, 9), 512)))
  {
  }

  /** A map whose powers of one are the bits. */
  ghost predicate Cyclic(f: Element -> Element) {
    && Power(f, 1, 1) == 2 && Power(f, 2, 1) == 4 && Power(f, 3, 1) == 8 && Power(f, 4, 1) == 16 && Power(f, 5, 1) == 32
    && Power(f, 6, 1) == 64 && Power(f, 7, 1) == 128 && Power(f, 8, 1) == 256 && Power(f, 9, 1) == 512
  }

  /** Its powers are determined by what they make of one. */
  lemma {:induction false} PowerIsTimes(f: Element -> Element, n: nat, v: Element)
    requires Linear(f) && Cyclic(f)
    ensures Power(f, n, v) == Times(f, v, Power(f, n, 1))
  {
    if n == 0 {
      Spread(v);
    } else {
      PowerIsTimes(f, n - 1, v);
      LinearTimes(f, v, Power(f, n - 1, 1));
    }
  }

  // ------------------------------------------------------------ the order of a

  /** Multiplication by a. */
  function Next(v: Element): Element { (v << 1) ^ (v >> 9) ^ ((v >> 9) << 2) ^ ((v >> 9) << 5) ^ ((v >> 9) << 9) }

  lemma NextSum(u: Element, v: Element)
    ensures Next(Plus(u, v)) == Plus(Next(u), Next(v))
  {
  }

  lemma NextLinear()
    ensures Linear(Next) && Cyclic(Next)
  {
    forall u, v ensures Next(Plus(u, v)) == Plus(Next(u), Next(v)) {
      NextSum(u, v);
    }
    NextOnes();
  }

  lemma NextOnes()
    ensures Cyclic(Next)
  {
  }

  /** Adding exponents multiplies. */
  lemma TimesPower(m: nat, n: nat, x: Element, y: Element, z: Element)
    requires Power(Next, m, 1) == x && Power(Next, n, 1) == y && Times(Next, y, x) == z
    ensures Power(Next, m + n, 1) == z
  {
    NextLinear();
    PowerAdd(Next, m, n, 1);
    PowerIsTimes(Next, m, y);
  }

  lemma Powers64()
    ensures Power(Next, 16, 1) == 41 && Power(Next, 32, 1) == 612 && Power(Next, 33, 1) == 749 && Power(Next, 64, 1) == 106
  {
    NextOnes();
    TimesPower(8, 8, 256, 256, 41);
    TimesPower(16, 16, 41, 41, 612);
    TimesPower(32, 1, 612, 2, 749);
    TimesPower(32, 32, 612, 612, 106);
  }

  lemma Power93()
    ensures Power(Next, 93, 1) == 217
  {
    NextOnes();
    Powers64();
    TimesPower(64, 16, 106, 41, 560);
    TimesPower(80, 8, 560, 256, 378);
    TimesPower(88, 4, 378, 16, 894);
    TimesPower(92, 1, 894, 2, 217);
  }

  lemma Power341()
    ensures Power(Next, 341, 1) == 150 && Power(Next, 1023, 1) == 1
  {
    NextOnes();
    Powers64();
    TimesPower(64, 64, 106, 106, 154);
    TimesPower(128, 128, 154, 154, 199);
    TimesPower(256, 64, 199, 106, 271);
    TimesPower(320, 16, 271, 41, 299);
    TimesPower(336, 4, 299, 16, 75);
    TimesPower(340, 1, 75, 2, 150);
    TimesPower(341, 341, 150, 150, 151);
    TimesPower(682, 341, 151, 150, 1);
  }

  lemma NoFixed(v: Element)
    ensures Power(Next, 33, v) == v ==> v == 0
    ensures Power(Next, 93, v) == v ==> v == 0
    ensures Power(Next, 341, v) == v ==> v == 0
  {
    NextLinear();
    Powers64();
    Power93();
    Power341();
    PowerIsTimes(Next, 33, v);
    PowerIsTimes(Next, 93, v);
    PowerIsTimes(Next, 341, v);
    NoFixedFactor(v);
  }

  /** Multiplication by these three elements leaves only zero as it is. */
  lemma NoFixedFactor(v: Element)
    ensures Times(Next, v, 749) == v ==> v == 0
    ensures Times(Next, v, 217) == v ==> v == 0
    ensures Times(Next, v, 150) == v ==> v == 0
  {
    NoFixed749(v);
    NoFixed217(v);
    NoFixed150(v);
  }

  lemma Multiples(c0: Element, c1: Element, c2: Element, c3: Element, c4: Element, c5: Element, c6: Element, c7: Element, c8: Element, c9: Element)
    requires Next(c0) == c1 && Next(c1) == c2 && Next(c2) == c3 && Next(c3) == c4 && Next(c4) == c5
    requires Next(c5) == c6 && Next(c6) == c7 && Next(c7) == c8 && Next(c8) == c9
    ensures Power(Next, 1, c0) == c1 && Power(Next, 2, c0) == c2 && Power(Next, 3, c0) == c3 && Power(Next, 4, c0) == c4 && Power(Next, 5, c0) == c5
    ensures Power(Next, 6, c0) == c6 && Power(Next, 7, c0) == c7 && Power(Next, 8, c0) == c8 && Power(Next, 9, c0) == c9
  {
  }

  lemma NoFixed749(v: Element)
    ensures Times(Next, v, 749) == v ==> v == 0
  {
    Multiples(749, 1023, 475, 950, 329, 658, 769, 39, 78, 156);
    if Times(Next, v, 749) == v {
      Solve749(v);
    }
  }

  lemma Solve749(v: Element)
    requires v == Plus(FiveSum(On(Bit(v, 0), 749), On(Bit(v, 1), 1023), On(Bit(v, 2), 475), On(Bit(v, 3), 950), On(Bit(v, 4), 329)),
                      FiveSum(On(Bit(v, 5), 658), On(Bit(v, 6), 769), On(Bit(v, 7), 39), On(Bit(v, 8), 78), On(Bit(v, 9), 156)))
    ensures v == 0
  {
  }

  lemma NoFixed217(v: Element)
    ensures Times(Next, v, 217) == v ==> v == 0
  {
    Multiples(217, 434, 868, 237, 474, 948, 333, 666, 785, 7);
    if Times(Next, v, 217) == v {
      Solve217(v);
    }
  }

  lemma Solve217(v: Element)
    requires v == Plus(FiveSum(On(Bit(v, 0), 217), On(Bit(v, 1), 434), On(Bit(v, 2), 868), On(Bit(v, 3), 237), On(Bit(v, 4), 474)),
                      FiveSum(On(Bit(v, 5), 948), On(Bit(v, 6), 333), On(Bit(v, 7), 666), On(Bit(v, 8), 785), On(Bit(v, 9), 7)))
    ensures v == 0
  {
  }

  lemma NoFixed150(v: Element)
    ensures Times(Next, v, 150) == v ==> v == 0
  {
    Multiples(150, 300, 600, 661, 783, 59, 118, 236, 472, 944);
    if Times(Next, v, 150) == v {
      Solve150(v);
    }
  }

  lemma Solve150(v: Element)
    requires v == Plus(FiveSum(On(Bit(v, 0), 150), On(Bit(v, 1), 300), On(Bit(v, 2), 600), On(Bit(v, 3), 661), On(Bit(v, 4), 783)),
                      FiveSum(On(Bit(v, 5), 59), On(Bit(v, 6), 118), On(Bit(v, 7), 236), On(Bit(v, 8), 472), On(Bit(v, 9), 944)))
    ensures v == 0
  {
  }

  lemma AllFixed(v: Element)
    ensures Power(Next, 1023, v) == v
  {
    NextLinear();
    Power341();
    PowerIsTimes(Next, 1023, v);
    Spread(v);
  }

  /** The greatest common divisor, by taking away. */
  function Gcd(a: nat, b: nat): (g: nat)
    requires a > 0 && b > 0
    ensures 0 < g <= a && g <= b
    decreases a + b
  {
    if a == b then a else if a < b then Gcd(a, b - a) else Gcd(a - b, b)
  }

  lemma {:induction false} GcdDivides(a: nat, b: nat) returns (k: nat, l: nat)
    requires a > 0 && b > 0
    ensures a == k * Gcd(a, b) && b == l * Gcd(a, b)
    decreases a + b
  {
    if a == b {
      k, l := 1, 1;
    } else if a < b {
      k, l := GcdDivides(a, b - a);
      assert (k + l) * Gcd(a, b) == k * Gcd(a, b) + l * Gcd(a, b);
      l := k + l;
    } else {
      k, l := GcdDivides(a - b, b);
      assert (k + l) * Gcd(a, b) == k * Gcd(a, b) + l * Gcd(a, b);
      k := k + l;
    }
  }

  /** What two exponents leave as it is, their greatest common divisor does too. */
  lemma {:induction false} FixedGcd(f: Element -> Element, a: nat, b: nat, v: Element)
    requires a > 0 && b > 0 && Power(f, a, v) == v && Power(f, b, v) == v
    ensures Power(f, Gcd(a, b), v) == v
    decreases a + b
  {
    if a < b {
      PowerAdd(f, b - a, a, v);
      FixedGcd(f, a, b - a, v);
    } else if b < a {
      PowerAdd(f, a - b, b, v);
      FixedGcd(f, a - b, b, v);
    }
  }

  lemma {:induction false} FixedMultiple(f: Element -> Element, m: nat, g: nat, v: Element)
    requires Power(f, g, v) == v
    ensures Power(f, m * g, v) == v
  {
    if m > 0 {
      FixedMultiple(f, m - 1, g, v);
      assert m * g == g + (m - 1) * g;
      PowerAdd(f, g, (m - 1) * g, v);
    }
  }

  /** 1023 is 3 times 11 times 31. */
  lemma SmallDivisor(a: nat, b: nat)
    requires a * b == 1023 && a <= 31
    ensures a == 1 || a == 3 || a == 11 || a == 31
  {
    assert 2 * b != 1023 && 4 * b != 1023 && 5 * b != 1023 && 6 * b != 1023 && 7 * b != 1023 && 8 * b != 1023 && 9 * b != 1023 && 10 * b != 1023;
    assert 12 * b != 1023 && 13 * b != 1023 && 14 * b != 1023 && 15 * b != 1023 && 16 * b != 1023 && 17 * b != 1023 && 18 * b != 1023;
    assert 19 * b != 1023 && 20 * b != 1023 && 21 * b != 1023 && 22 * b != 1023 && 23 * b != 1023 && 24 * b != 1023 && 25 * b != 1023;
    assert 26 * b != 1023 && 27 * b != 1023 && 28 * b != 1023 && 29 * b != 1023 && 30 * b != 1023;
  }

  lemma LargeProduct(a: nat, b: nat)
    ensures a >= 32 && b >= 32 ==> a * b >= 32 * 32
  {
  }

  lemma ProperDivisor(l: nat, g: nat) returns (m: nat)
    requires l * g == 1023 && l > 1
    ensures m * g == 33 || m * g == 93 || m * g == 341
  {
    if l <= 31 {
      SmallDivisor(l, g);
      m := 1;
    } else {
      LargeProduct(l, g);
      SmallDivisor(g, l);
      m := if g == 1 then 33 else if g == 3 then 11 else 3;
    }
  }

  /** No power of a but the multiples of 1023 leaves any element but zero as it is. */
  lemma Order(d: nat, v: Element)
    requires 0 < d < 1023
    ensures Power(Next, d, v) == v ==> v == 0
  {
    if Power(Next, d, v) == v {
      AllFixed(v);
      var k, l := GcdDivides(d, 1023);
      var g := Gcd(d, 1023);
      FixedGcd(Next, d, 1023, v);
      assert l != 0 && l != 1;
      var m := ProperDivisor(l, g);
      FixedMultiple(Next, m, g, v);
      NoFixed(v);
    }
  }
}
