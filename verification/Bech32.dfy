/**
 Bech32 (BIP 173): a human-readable part and 5-bit values with a checksum that is linear over GF(2).  Inside the
 checksum, words are sequences of bits, lowest first.
 */
module Bech32 {
  import opened Wrappers
  import opened Bits
  import opened Folding

  // ---------------------------------------------------------------- bit words

  function Zero(n: nat): (r: seq<bool>)
    ensures |r| == n && forall i | 0 <= i < n :: !r[i]
  {
    seq(n, _ => false)
  }

  function Xor(a: seq<bool>, b: seq<bool>): (r: seq<bool>)
    requires |a| == |b|
    ensures |r| == |a| && forall i | 0 <= i < |a| :: r[i] == (a[i] != b[i])
  {
    seq(|a|, i requires 0 <= i < |a| => a[i] != b[i])
  }

  /** The five bits of a value. */
  function Five(v: nat): (r: seq<bool>)
    ensures |r| == 5
  {
    [BitAt(v, 0), BitAt(v, 1), BitAt(v, 2), BitAt(v, 3), BitAt(v, 4)]
  }

  function ValueOf(b: seq<bool>): (v: nat)
    requires |b| == 5
    ensures v < 32
  {
    One(b[0]) + 2 * (One(b[1]) + 2 * (One(b[2]) + 2 * (One(b[3]) + 2 * One(b[4]))))
  }

  function One(b: bool): nat { if b then 1 else 0 }

  lemma FiveOfValue(b: seq<bool>)
    requires |b| == 5
    ensures Five(ValueOf(b)) == b
  {
    var w3 := One(b[3]) + 2 * One(b[4]);
    var w2 := One(b[2]) + 2 * w3;
    var w1 := One(b[1]) + 2 * w2;
    var v := ValueOf(b);
    assert Shr(v, 1) == w1;
    assert Shr(v, 2) == w2;
    assert Shr(v, 3) == w3;
    assert Shr(v, 4) == One(b[4]);
  }

  lemma ValueOfFive(v: nat)
    requires v < 32
    ensures ValueOf(Five(v)) == v
  {
  }

  // ------------------------------------------------------------------- PolyMod

  /** x^6 mod g(x), packed, and its multiples by 2, 4, 8 and 16. */
  function Generator(n: nat): nat
    requires n < 5
  {
    if n == 0 then 0x3b6a57b2 else if n == 1 then 0x26508e6d else if n == 2 then 0x1ea119fa else if n == 3 then 0x3d4233dd else 0x2a1462b3
  }

  /** What the value leaving on the left folds back into bit j. */
  function Back(c: seq<bool>, j: nat): bool
    requires |c| == 30
  {
    Mix(c[25], c[26], c[27], c[28], c[29], BitAt(Generator(0), j), BitAt(Generator(1), j), BitAt(Generator(2), j), BitAt(Generator(3), j), BitAt(Generator(4), j))
  }

  /** The sum of the bits that are switched on. */
  function Mix(a: bool, b: bool, c: bool, d: bool, e: bool, k0: bool, k1: bool, k2: bool, k3: bool, k4: bool): bool {
    (((((a && k0) != (b && k1)) != (c && k2)) != (d && k3)) != (e && k4))
  }

  lemma MixLinear(a: bool, b: bool, c: bool, d: bool, e: bool, p: bool, q: bool, r: bool, s: bool, t: bool,
                  k0: bool, k1: bool, k2: bool, k3: bool, k4: bool)
    ensures Mix(a != p, b != q, c != r, d != s, e != t, k0, k1, k2, k3, k4) ==
            (Mix(a, b, c, d, e, k0, k1, k2, k3, k4) != Mix(p, q, r, s, t, k0, k1, k2, k3, k4))
  {
  }

  function NextBit(c: seq<bool>, v: seq<bool>, j: nat): bool
    requires |c| == 30 && |v| == 5 && j < 30
  {
    (if j < 5 then v[j] else c[j - 5]) != Back(c, j)
  }

  /** One step of PolyMod: the next value enters from the right. */
  function Step(c: seq<bool>, v: seq<bool>): (r: seq<bool>)
    requires |c| == 30 && |v| == 5
    ensures |r| == 30 && forall j | 0 <= j < 30 :: r[j] == NextBit(c, v, j)
  {
    seq(30, j requires 0 <= j < 30 => NextBit(c, v, j))
  }

  ghost predicate AllFive(vs: seq<seq<bool>>) { forall i | 0 <= i < |vs| :: |vs[i]| == 5 }

  /** PolyMod from any start. */
  ghost function Poly(c: seq<bool>, vs: seq<seq<bool>>): (r: seq<bool>)
    requires |c| == 30 && AllFive(vs)
    ensures |r| == 30
  {
    if vs == [] then c else Step(Poly(c, vs[..|vs| - 1]), vs[|vs| - 1])
  }

  // ------------------------------------------------------------------ linearity

  lemma BackLinear(c: seq<bool>, d: seq<bool>, j: nat)
    requires |c| == |d| == 30
    ensures Back(Xor(c, d), j) == (Back(c, j) != Back(d, j))
  {
    MixLinear(c[25], c[26], c[27], c[28], c[29], d[25], d[26], d[27], d[28], d[29],
              BitAt(Generator(0), j), BitAt(Generator(1), j), BitAt(Generator(2), j), BitAt(Generator(3), j), BitAt(Generator(4), j));
  }

  lemma StepLinear(c: seq<bool>, d: seq<bool>, v: seq<bool>, w: seq<bool>)
    requires |c| == |d| == 30 && |v| == |w| == 5
    ensures Step(Xor(c, d), Xor(v, w)) == Xor(Step(c, v), Step(d, w))
  {
    forall j | 0 <= j < 30 ensures NextBit(Xor(c, d), Xor(v, w), j) == (NextBit(c, v, j) != NextBit(d, w, j)) {
      NextBitLinear(c, d, v, w, j);
    }
  }

  lemma NextBitLinear(c: seq<bool>, d: seq<bool>, v: seq<bool>, w: seq<bool>, j: nat)
    requires |c| == |d| == 30 && |v| == |w| == 5 && j < 30
    ensures NextBit(Xor(c, d), Xor(v, w), j) == (NextBit(c, v, j) != NextBit(d, w, j))
  {
    BackLinear(c, d, j);
  }

  /** Two lists of values added place by place. */
  ghost function Sum(vs: seq<seq<bool>>, ws: seq<seq<bool>>): (r: seq<seq<bool>>)
    requires |vs| == |ws| && AllFive(vs) && AllFive(ws)
    ensures |r| == |vs| && AllFive(r) && forall i | 0 <= i < |vs| :: r[i] == Xor(vs[i], ws[i])
  {
    seq(|vs|, i requires 0 <= i < |vs| => Xor(vs[i], ws[i]))
  }

  /** PolyMod is linear. */
  lemma {:induction false} PolyLinear(c: seq<bool>, d: seq<bool>, vs: seq<seq<bool>>, ws: seq<seq<bool>>)
    requires |c| == |d| == 30 && |vs| == |ws| && AllFive(vs) && AllFive(ws)
    ensures Poly(Xor(c, d), Sum(vs, ws)) == Xor(Poly(c, vs), Poly(d, ws))
  {
    if vs != [] {
      var n := |vs| - 1;
      PolyLinear(c, d, vs[..n], ws[..n]);
      assert Sum(vs, ws)[..n] == Sum(vs[..n], ws[..n]);
      StepLinear(Poly(c, vs[..n]), Poly(d, ws[..n]), vs[n], ws[n]);
    }
  }

  lemma PolyAppend(c: seq<bool>, vs: seq<seq<bool>>, v: seq<bool>)
    requires |c| == 30 && AllFive(vs) && |v| == 5
    ensures AllFive(vs + [v]) && Poly(c, vs + [v]) == Step(Poly(c, vs), v)
  {
    assert (vs + [v])[..|vs|] == vs;
  }

  lemma {:induction false} PolyConcat(c: seq<bool>, vs: seq<seq<bool>>, ws: seq<seq<bool>>)
    requires |c| == 30 && AllFive(vs) && AllFive(ws)
    ensures AllFive(vs + ws) && Poly(c, vs + ws) == Poly(Poly(c, vs), ws)
  {
    if ws == [] {
      assert vs + ws == vs;
    } else {
      var n := |ws| - 1;
      var ws', w := ws[..n], ws[n];
      PolyConcat(c, vs, ws');
      PolyAppend(c, vs + ws', w);
      PolyAppend(Poly(c, vs), ws', w);
      assert vs + ws == vs + ws' + [w] && ws == ws' + [w];
    }
  }

  // ---------------------------------------------------------------- reversible

  lemma LowBits0()
    ensures Five(Generator(0)) == [false, true, false, false, true]
    ensures Five(Generator(1)) == [true, false, true, true, false]
    ensures Five(Generator(2)) == [false, true, false, true, true]
    ensures Five(Generator(3)) == [true, false, true, true, true]
    ensures Five(Generator(4)) == [true, true, false, false, true]
  {
  }

  /** The lowest five bits determine the five that were folded back. */
  lemma FoldedBack(a: bool, b: bool, c: bool, d: bool, e: bool)
    requires !Mix(a, b, c, d, e, false, true, false, true, true) && !Mix(a, b, c, d, e, true, false, true, false, true)
    requires !Mix(a, b, c, d, e, false, true, false, true, false) && !Mix(a, b, c, d, e, false, true, true, true, false)
    requires !Mix(a, b, c, d, e, true, false, true, true, true)
    ensures !a && !b && !c && !d && !e
  {
  }

  lemma BackLow(c: seq<bool>)
    requires |c| == 30
    ensures Back(c, 0) == Mix(c[25], c[26], c[27], c[28], c[29], false, true, false, true, true)
    ensures Back(c, 1) == Mix(c[25], c[26], c[27], c[28], c[29], true, false, true, false, true)
    ensures Back(c, 2) == Mix(c[25], c[26], c[27], c[28], c[29], false, true, false, true, false)
    ensures Back(c, 3) == Mix(c[25], c[26], c[27], c[28], c[29], false, true, true, true, false)
    ensures Back(c, 4) == Mix(c[25], c[26], c[27], c[28], c[29], true, false, true, true, true)
  {
    LowBits0();
    assert forall n | 0 <= n < 5 :: Five(Generator(n))[0] == BitAt(Generator(n), 0) && Five(Generator(n))[1] == BitAt(Generator(n), 1);
    assert forall n | 0 <= n < 5 :: Five(Generator(n))[2] == BitAt(Generator(n), 2) && Five(Generator(n))[3] == BitAt(Generator(n), 3);
    assert forall n | 0 <= n < 5 :: Five(Generator(n))[4] == BitAt(Generator(n), 4);
  }

  /** Only zero steps to zero: the lowest coefficient of g(x) is not zero. */
  lemma StepZero(c: seq<bool>)
    requires |c| == 30 && Step(c, Zero(5)) == Zero(30)
    ensures c == Zero(30)
  {
    forall j | 0 <= j < 5 ensures !Back(c, j) {
      assert !Step(c, Zero(5))[j];
    }
    BackLow(c);
    FoldedBack(c[25], c[26], c[27], c[28], c[29]);
    forall j | 0 <= j < 25 ensures !c[j] {
      assert !Step(c, Zero(5))[j + 5];
    }
  }

  lemma XorSame(a: seq<bool>)
    ensures Xor(a, a) == Zero(|a|)
  {
  }

  lemma SameIfNoDifference(a: seq<bool>, b: seq<bool>, n: nat)
    requires |a| == |b| == n && Xor(a, b) == Zero(n)
    ensures a == b
  {
    forall i | 0 <= i < n ensures a[i] == b[i] {
      assert !Xor(a, b)[i];
    }
  }

  /** A step can be undone. */
  lemma StepInjective(c: seq<bool>, d: seq<bool>, v: seq<bool>)
    requires |c| == |d| == 30 && |v| == 5 && Step(c, v) == Step(d, v)
    ensures c == d
  {
    StepLinear(c, d, v, v);
    XorSame(v);
    XorSame(Step(c, v));
    StepZero(Xor(c, d));
    SameIfNoDifference(c, d, 30);
  }

  lemma {:induction false} PolyInjective(c: seq<bool>, d: seq<bool>, vs: seq<seq<bool>>)
    requires |c| == |d| == 30 && AllFive(vs) && Poly(c, vs) == Poly(d, vs)
    ensures c == d
  {
    if vs != [] {
      var vs', v := vs[..|vs| - 1], vs[|vs| - 1];
      StepInjective(Poly(c, vs'), Poly(d, vs'), v);
      PolyInjective(c, d, vs');
    }
  }

  /** A 5-bit group of a word. */
  function Group(c: seq<bool>, i: nat): (r: seq<bool>)
    requires |c| == 30 && i < 6
    ensures |r| == 5
  {
    c[5 * i..5 * i + 5]
  }

  /** With nothing leaving on the left, a step moves the groups up and puts the value below. */
  lemma StepMoves(c: seq<bool>, v: seq<bool>)
    requires |c| == 30 && |v| == 5 && Group(c, 5) == Zero(5)
    ensures Group(Step(c, v), 0) == v && forall i | 1 <= i < 6 :: Group(Step(c, v), i) == Group(c, i - 1)
  {
    var g := Group(c, 5);
    assert !g[0] && !g[1] && !g[2] && !g[3] && !g[4];
    assert forall j: nat :: !Back(c, j);
  }

  /** Up to six values from zero stand side by side, the last one lowest. */
  ghost predicate Packed(c: seq<bool>, vs: seq<seq<bool>>)
    requires |c| == 30 && AllFive(vs) && |vs| <= 6
  {
    forall i | 0 <= i < 6 :: Group(c, i) == if i < |vs| then vs[|vs| - 1 - i] else Zero(5)
  }

  lemma {:induction false} PackedFromZero(vs: seq<seq<bool>>)
    requires AllFive(vs) && |vs| <= 6
    ensures Packed(Poly(Zero(30), vs), vs)
  {
    if vs == [] {
      forall i | 0 <= i < 6 ensures Group(Zero(30), i) == Zero(5) {
      }
    } else {
      var n := |vs| - 1;
      var c := Poly(Zero(30), vs[..n]);
      PackedFromZero(vs[..n]);
      assert Group(c, 5) == Zero(5);
      StepMoves(c, vs[n]);
      PackedOn(c, vs, n);
    }
  }

  lemma PackedOn(c: seq<bool>, vs: seq<seq<bool>>, n: nat)
    requires AllFive(vs) && n + 1 == |vs| <= 6 && |c| == 30 && Packed(c, vs[..n])
    requires Group(Step(c, vs[n]), 0) == vs[n] && forall i | 1 <= i < 6 :: Group(Step(c, vs[n]), i) == Group(c, i - 1)
    ensures Packed(Step(c, vs[n]), vs)
  {
    forall i | 0 <= i < 6 ensures Group(Step(c, vs[n]), i) == if i < |vs| then vs[|vs| - 1 - i] else Zero(5) {
      if i > 0 {
        assert Group(c, i - 1) == if i - 1 < n then vs[..n][n - 1 - (i - 1)] else Zero(5);
      }
    }
  }

  /** So six values or fewer from zero give zero only if all are zero. */
  lemma FewNotZero(vs: seq<seq<bool>>)
    requires AllFive(vs) && |vs| <= 6 && Poly(Zero(30), vs) == Zero(30)
    ensures forall i | 0 <= i < |vs| :: vs[i] == Zero(5)
  {
    PackedFromZero(vs);
    PackedZero(vs);
  }

  lemma PackedZero(vs: seq<seq<bool>>)
    requires AllFive(vs) && |vs| <= 6 && Packed(Zero(30), vs)
    ensures forall i | 0 <= i < |vs| :: vs[i] == Zero(5)
  {
    forall i | 0 <= i < |vs| ensures vs[i] == Zero(5) {
      var k := |vs| - 1 - i;
      GroupZero(k);
      assert Group(Zero(30), k) == vs[i];
    }
  }

  lemma GroupZero(k: nat)
    requires k < 6
    ensures Group(Zero(30), k) == Zero(5)
  {
  }

  // ---------------------------------------------------------------- burst errors

  /** Two lists that differ only within six consecutive places have different remainders. */
  lemma Burst(c: seq<bool>, head: seq<seq<bool>>, m1: seq<seq<bool>>, m2: seq<seq<bool>>, tail: seq<seq<bool>>)
    requires |c| == 30 && AllFive(head) && AllFive(m1) && AllFive(m2) && AllFive(tail) && |m1| == |m2| <= 6
    requires AllFive(head + m1 + tail) && AllFive(head + m2 + tail) && Poly(c, head + m1 + tail) == Poly(c, head + m2 + tail)
    ensures m1 == m2
  {
    var b := Poly(c, head);
    PolyThree(c, head, m1, tail);
    PolyThree(c, head, m2, tail);
    PolyInjective(Poly(b, m1), Poly(b, m2), tail);
    PolyLinear(b, b, m1, m2);
    XorSame(b);
    XorSame(Poly(b, m1));
    FewNotZero(Sum(m1, m2));
    forall i | 0 <= i < |m1| ensures m1[i] == m2[i] {
      assert Sum(m1, m2)[i] == Zero(5);
      SameIfNoDifference(m1[i], m2[i], 5);
    }
  }

  lemma PolyThree(c: seq<bool>, head: seq<seq<bool>>, mid: seq<seq<bool>>, tail: seq<seq<bool>>)
    requires |c| == 30 && AllFive(head) && AllFive(mid) && AllFive(tail)
    ensures AllFive(head + mid + tail) && Poly(c, head + mid + tail) == Poly(Poly(Poly(c, head), mid), tail)
  {
    PolyConcat(c, head, mid);
    PolyConcat(c, head + mid, tail);
  }

  // ------------------------------------------------------------------ checksums

  ghost predicate Values(vs: seq<nat>) { forall i | 0 <= i < |vs| :: vs[i] < 32 }

  ghost function Fives(vs: seq<nat>): (r: seq<seq<bool>>)
    ensures |r| == |vs| && AllFive(r) && forall i | 0 <= i < |vs| :: r[i] == Five(vs[i])
  {
    seq(|vs|, i requires 0 <= i < |vs| => Five(vs[i]))
  }

  lemma FivesConcat(vs: seq<nat>, ws: seq<nat>)
    ensures Fives(vs + ws) == Fives(vs) + Fives(ws)
  {
  }

  lemma FivesInjective(vs: seq<nat>, ws: seq<nat>)
    requires Values(vs) && Values(ws) && Fives(vs) == Fives(ws)
    ensures vs == ws
  {
    forall i | 0 <= i < |vs| ensures vs[i] == ws[i] {
      assert Fives(vs)[i] == Fives(ws)[i];
      ValueOfFive(vs[i]);
      ValueOfFive(ws[i]);
    }
  }

  const ONE: seq<bool> := [true] + Zero(29)

  method PolyMod(v: seq<nat>) returns (c: seq<bool>)
    requires Values(v)
    ensures c == Poly(ONE, Fives(v))
  {
    c := ONE;
    assert Fives(v[..0]) == [];
    for i := 0 to |v|
      invariant |c| == 30 && c == Poly(ONE, Fives(v[..i]))
    {
      c := Step(c, Five(v[i]));
      assert Fives(v[..i + 1]) == Fives(v[..i]) + [Five(v[i])];
      PolyAppend(ONE, Fives(v[..i]), Five(v[i]));
    }
    assert v[..|v|] == v;
  }

  /** The characters are bytes. */
  ghost predicate ByteText(s: string) { forall i | 0 <= i < |s| :: s[i] as int < 256 }

  /** ExpandHRP: the high bits of all characters, a zero, and the low bits. */
  function ExpandHRP(hrp: string): (r: seq<nat>)
    ensures |r| == 2 * |hrp| + 1 && (ByteText(hrp) ==> Values(r))
  {
    seq(|hrp|, i requires 0 <= i < |hrp| => hrp[i] as nat / 32) + [0] + seq(|hrp|, i requires 0 <= i < |hrp| => hrp[i] as nat % 32)
  }

  /** The checksum of a part and values is right. */
  ghost predicate Verifies(hrp: string, values: seq<nat>) {
    forall u | Unfold(u) :: Poly(ONE, Fives(ExpandHRP(hrp) + values)) == ONE
  }

  method VerifyChecksum(hrp: string, values: seq<nat>) returns (r: bool)
    requires ByteText(hrp) && Values(values)
    ensures r <==> Verifies(hrp, values)
  {
    var c := PolyMod(ExpandHRP(hrp) + values);
    assert Unfold(0);
    r := c == ONE;
  }

  /** The six values to put behind: the 5-bit groups of what six zeros leave, with its lowest bit changed. */
  method CreateChecksum(hrp: string, values: seq<nat>) returns (r: seq<nat>)
    requires ByteText(hrp) && Values(values)
    ensures |r| == 6 && Values(r) && Verifies(hrp, values + r)
  {
    var enc := ExpandHRP(hrp) + values;
    var rest := PolyMod(enc + [0, 0, 0, 0, 0, 0]);
    var mod := Xor(rest, ONE);
    r := Groups(mod);
    ChecksumRight(enc, rest, mod, r);
    assert ExpandHRP(hrp) + (values + r) == enc + r;
  }

  /** The 5-bit groups of a word, highest first. */
  method Groups(mod: seq<bool>) returns (r: seq<nat>)
    requires |mod| == 30
    ensures |r| == 6 && Values(r) && forall j | 0 <= j < 6 :: r[j] == ValueOf(Group(mod, 5 - j))
  {
    r := [];
    for i := 0 to 6
      invariant |r| == i && forall j | 0 <= j < i :: r[j] == ValueOf(Group(mod, 5 - j))
    {
      r := r + [ValueOf(Group(mod, 5 - i))];
    }
  }

  lemma ChecksumRight(enc: seq<nat>, rest: seq<bool>, mod: seq<bool>, r: seq<nat>)
    requires rest == Poly(ONE, Fives(enc + [0, 0, 0, 0, 0, 0])) && mod == Xor(rest, ONE)
    requires |r| == 6 && forall j | 0 <= j < 6 :: r[j] == ValueOf(Group(mod, 5 - j))
    ensures Poly(ONE, Fives(enc + r)) == ONE
  {
    var six: seq<nat> := [0, 0, 0, 0, 0, 0];
    var c := Poly(ONE, Fives(enc));
    assert Poly(c, Fives(six)) == rest by {
      FivesConcat(enc, six);
      PolyConcat(ONE, Fives(enc), Fives(six));
    }
    FiveZero();
    Completes(c, rest, mod, Fives(six), Fives(r));
    FivesConcat(enc, r);
    PolyConcat(ONE, Fives(enc), Fives(r));
  }

  /** Six values change the remainder by just the word they make up. */
  lemma Completes(c: seq<bool>, rest: seq<bool>, mod: seq<bool>, six: seq<seq<bool>>, a: seq<seq<bool>>)
    requires |c| == |mod| == |rest| == 30 && |six| == |a| == 6 && AllFive(six) && AllFive(a)
    requires (forall i | 0 <= i < 6 :: six[i] == Zero(5)) && rest == Poly(c, six) && mod == Xor(rest, ONE)
    requires forall i | 0 <= i < 6 :: a[i] == Five(ValueOf(Group(mod, 5 - i)))
    ensures Poly(c, a) == ONE
  {
    PolyLinear(c, Zero(30), six, a);
    XorZero(c);
    SumZero(six, a);
    MakesUp(a, mod);
    XorTwice(rest, ONE);
  }

  lemma XorZero(c: seq<bool>)
    ensures Xor(c, Zero(|c|)) == c && Xor(Zero(|c|), c) == c
  {
  }

  lemma XorTwice(p: seq<bool>, q: seq<bool>)
    requires |p| == |q|
    ensures Xor(p, Xor(p, q)) == q
  {
  }

  lemma SumZero(six: seq<seq<bool>>, a: seq<seq<bool>>)
    requires |six| == |a| && AllFive(six) && AllFive(a) && forall i | 0 <= i < |six| :: six[i] == Zero(5)
    ensures Sum(six, a) == a
  {
    forall i | 0 <= i < |a| ensures Sum(six, a)[i] == a[i] {
      XorZero(a[i]);
    }
  }

  lemma MakesUp(a: seq<seq<bool>>, mod: seq<bool>)
    requires |mod| == 30 && |a| == 6 && AllFive(a) && forall i | 0 <= i < 6 :: a[i] == Five(ValueOf(Group(mod, 5 - i)))
    ensures Poly(Zero(30), a) == mod
  {
    PackedFromZero(a);
    var c := Poly(Zero(30), a);
    forall i | 0 <= i < 6 ensures Group(c, i) == Group(mod, i) {
      FiveOfValue(Group(mod, i));
      assert Group(c, i) == a[5 - i];
    }
    SameGroups(c, mod);
  }

  lemma FiveZero()
    ensures Five(0) == Zero(5)
  {
  }

  lemma SameGroups(c: seq<bool>, d: seq<bool>)
    requires |c| == |d| == 30 && forall i | 0 <= i < 6 :: Group(c, i) == Group(d, i)
    ensures c == d
  {
    forall j | 0 <= j < 30 ensures c[j] == d[j] {
      assert Group(c, j / 5)[j % 5] == Group(d, j / 5)[j % 5];
    }
  }

  /** Two value lists of the same length that differ only within six consecutive places do not both verify. */
  lemma BurstDetected(hrp: string, head: seq<nat>, m1: seq<nat>, m2: seq<nat>, tail: seq<nat>)
    requires Values(m1) && Values(m2) && |m1| == |m2| <= 6 && m1 != m2
    ensures !(Verifies(hrp, head + m1 + tail) && Verifies(hrp, head + m2 + tail))
  {
    assert Unfold(0);
    var h := ExpandHRP(hrp) + head;
    if Verifies(hrp, head + m1 + tail) && Verifies(hrp, head + m2 + tail) {
      InThree(ExpandHRP(hrp), head, m1, tail);
      InThree(ExpandHRP(hrp), head, m2, tail);
      Burst(ONE, Fives(h), Fives(m1), Fives(m2), Fives(tail));
      FivesInjective(m1, m2);
    }
  }

  lemma InThree(e: seq<nat>, head: seq<nat>, mid: seq<nat>, tail: seq<nat>)
    ensures Fives(e + (head + mid + tail)) == Fives(e + head) + Fives(mid) + Fives(tail)
  {
    assert e + (head + mid + tail) == (e + head) + mid + tail;
    FivesConcat(e + head, mid);
    FivesConcat(e + head + mid, tail);
  }

  // -------------------------------------------------------------- character set

  function CharOf(v: nat): char
    requires v < 32
  {
    if v == 0 then 'q' else if v == 1 then 'p' else if v == 2 then 'z' else if v == 3 then 'r' else 
    if v == 4 then 'y' else if v == 5 then '9' else if v == 6 then 'x' else if v == 7 then '8' else 
    if v == 8 then 'g' else if v == 9 then 'f' else if v == 10 then '2' else if v == 11 then 't' else 
    if v == 12 then 'v' else if v == 13 then 'd' else if v == 14 then 'w' else if v == 15 then '0' else 
    if v == 16 then 's' else if v == 17 then '3' else if v == 18 then 'j' else if v == 19 then 'n' else 
    if v == 20 then '5' else if v == 21 then '4' else if v == 22 then 'k' else if v == 23 then 'h' else 
    if v == 24 then 'c' else if v == 25 then 'e' else if v == 26 then '6' else if v == 27 then 'm' else 
    if v == 28 then 'u' else if v == 29 then 'a' else if v == 30 then '7' else 'l'
  }

  /** The place of a lower-case character in the set, or 32. */
  function PlaceOf(c: char): (v: nat)
    ensures v <= 32
  {
    if c == 'q' then 0 else if c == 'p' then 1 else if c == 'z' then 2 else if c == 'r' then 3 else 
    if c == 'y' then 4 else if c == '9' then 5 else if c == 'x' then 6 else if c == '8' then 7 else 
    if c == 'g' then 8 else if c == 'f' then 9 else if c == '2' then 10 else if c == 't' then 11 else 
    if c == 'v' then 12 else if c == 'd' then 13 else if c == 'w' then 14 else if c == '0' then 15 else 
    if c == 's' then 16 else if c == '3' then 17 else if c == 'j' then 18 else if c == 'n' then 19 else 
    if c == '5' then 20 else if c == '4' then 21 else if c == 'k' then 22 else if c == 'h' then 23 else 
    if c == 'c' then 24 else if c == 'e' then 25 else if c == '6' then 26 else if c == 'm' then 27 else 
    if c == 'u' then 28 else if c == 'a' then 29 else if c == '7' then 30 else if c == 'l' then 31 else 
    32
  }

  function LowerCase(c: char): char { if 'A' <= c <= 'Z' then (c as int - 65 + 97) as char else c }

  /** The reverse table, which knows both cases. */
  function Rev(c: char): nat { PlaceOf(LowerCase(c)) }

  lemma RevOfChar(v: nat)
    requires v < 32
    ensures Rev(CharOf(v)) == v && CharOf(v) != '1' && 33 <= CharOf(v) as int <= 126 && LowerCase(CharOf(v)) == CharOf(v)
  {
  }

  // ------------------------------------------------------------------ the text

  function Chars(vs: seq<nat>): (r: string)
    requires Values(vs)
    ensures |r| == |vs| && forall i | 0 <= i < |vs| :: r[i] == CharOf(vs[i])
  {
    seq(|vs|, i requires 0 <= i < |vs| => CharOf(vs[i]))
  }

  method Encode(hrp: string, values: seq<nat>) returns (r: string)
    requires ByteText(hrp) && Values(values)
    ensures exists sum :: |sum| == 6 && Values(sum) && Verifies(hrp, values + sum) && r == hrp + "1" + Chars(values + sum)
  {
    var sum := CreateChecksum(hrp, values);
    var combined := values + sum;
    r := hrp + "1";
    for i := 0 to |combined|
      invariant r == hrp + "1" + Chars(combined[..i])
    {
      r := r + [CharOf(combined[i])];
      assert Chars(combined[..i + 1]) == Chars(combined[..i]) + [CharOf(combined[i])];
    }
    assert combined[..|combined|] == combined;
  }

  predicate Printable(c: char) { 33 <= c as int <= 126 }

  predicate IsLower(c: char) { 'a' <= c <= 'z' }

  predicate IsUpper(c: char) { 'A' <= c <= 'Z' }

  /** Only printable characters, and not of both cases. */
  ghost predicate OneCase(s: string) {
    && (forall i | 0 <= i < |s| :: Printable(s[i]))
    && !((exists i | 0 <= i < |s| :: IsLower(s[i])) && (exists i | 0 <= i < |s| :: IsUpper(s[i])))
  }

  /** The place of the last '1', or -1. */
  function LastOne(s: string): (p: int)
    ensures -1 <= p < |s| && (p >= 0 ==> s[p] == '1') && forall i | p < i < |s| :: s[i] != '1'
  {
    LastOneBefore(s, |s|)
  }

  function LastOneBefore(s: string, n: nat): (p: int)
    requires n <= |s|
    ensures -1 <= p < n && (p >= 0 ==> s[p] == '1') && forall i | p < i < n :: s[i] != '1'
  {
    if n == 0 then -1 else if s[n - 1] == '1' then n - 1 else LastOneBefore(s, n - 1)
  }

  function Lowered(s: string): (r: string)
    ensures |r| == |s| && forall i | 0 <= i < |s| :: r[i] == LowerCase(s[i])
  {
    seq(|s|, i requires 0 <= i < |s| => LowerCase(s[i]))
  }

  function Revs(s: string): (r: seq<nat>)
    ensures |r| == |s| && forall i | 0 <= i < |s| :: r[i] == Rev(s[i])
  {
    seq(|s|, i requires 0 <= i < |s| => Rev(s[i]))
  }

  /** All characters are in the set. */
  ghost predicate InSet(t: string) { forall i | 0 <= i < |t| :: Rev(t[i]) < 32 }

  /** The texts that decode. */
  ghost predicate WellFormed(s: string) {
    var pos := LastOne(s);
    && OneCase(s) && |s| <= 90 && 1 <= pos && pos + 7 <= |s|
    && InSet(s[pos + 1..]) && Verifies(Lowered(s[..pos]), Revs(s[pos + 1..]))
  }

  method CheckCase(s: string) returns (r: bool)
    ensures r <==> OneCase(s)
  {
    var lower, upper := false, false;
    for i := 0 to |s|
      invariant forall j | 0 <= j < i :: Printable(s[j])
      invariant lower <==> exists j | 0 <= j < i :: IsLower(s[j])
      invariant upper <==> exists j | 0 <= j < i :: IsUpper(s[j])
    {
      if !Printable(s[i]) {
        return false;
      }
      lower := lower || IsLower(s[i]);
      upper := upper || IsUpper(s[i]);
    }
    r := !(lower && upper);
  }

  /** Decode: exactly the well-formed texts, giving the lower-case part before the last '1' and the values behind it
      without their checksum. */
  method Decode(s: string) returns (r: Option<(string, seq<nat>)>)
    ensures r.Some? <==> WellFormed(s)
    ensures r.Some? ==> r.value == (Lowered(s[..LastOne(s)]), Revs(s[LastOne(s) + 1..|s| - 6]))
  {
    var oneCase := CheckCase(s);
    if !oneCase {
      return None;
    }
    var pos := LastOne(s);
    if |s| > 90 || pos == -1 || pos == 0 || pos + 7 > |s| {
      return None;
    }
    PartIsBytes(s, pos);
    r := DecodeParts(s[..pos], s[pos + 1..]);
    assert s[pos + 1..][..|s| - pos - 7] == s[pos + 1..|s| - 6];
  }

  lemma PartIsBytes(s: string, pos: nat)
    requires OneCase(s) && pos <= |s|
    ensures ByteText(s[..pos]) && ByteText(Lowered(s[..pos]))
  {
  }

  method DecodeParts(left: string, right: string) returns (r: Option<(string, seq<nat>)>)
    requires |right| >= 6 && ByteText(left)
    ensures r.Some? <==> InSet(right) && Verifies(Lowered(left), Revs(right))
    ensures r.Some? ==> r.value == (Lowered(left), Revs(right[..|right| - 6]))
  {
    var values := ReadValues(right);
    if values.None? {
      return None;
    }
    var ok := VerifyChecksum(Lowered(left), values.value);
    if !ok {
      return None;
    }
    var data := values.value[..|values.value| - 6];
    assert data == Revs(right[..|right| - 6]);
    r := Some((Lowered(left), data));
  }

  method ReadValues(t: string) returns (r: Option<seq<nat>>)
    ensures r.Some? <==> InSet(t)
    ensures r.Some? ==> r.value == Revs(t) && Values(r.value)
  {
    var values := [];
    for i := 0 to |t|
      invariant |values| == i && forall j | 0 <= j < i :: values[j] == Rev(t[j]) && Rev(t[j]) < 32
    {
      if Rev(t[i]) >= 32 {
        return None;
      }
      values := values + [Rev(t[i])];
    }
    assert values == Revs(t);
    r := Some(values);
  }

  // ---------------------------------------------------------------- round trip

  /** What a human-readable part and values must be like to be read back. */
  ghost predicate Readable(hrp: string, values: seq<nat>) {
    && hrp != [] && |hrp| + 1 + |values| + 6 <= 90
    && forall i | 0 <= i < |hrp| :: Printable(hrp[i]) && !IsUpper(hrp[i])
  }

  /** Decode after Encode gives back what went in, exactly for a non-empty printable part without capitals and no more
      than ninety characters in all. */
  method DecodeAfterEncode(hrp: string, values: seq<nat>) returns (r: Option<(string, seq<nat>)>)
    requires ByteText(hrp) && Values(values)
    ensures r == Some((hrp, values)) <==> Readable(hrp, values)
  {
    var s := Encode(hrp, values);
    ghost var sum :| |sum| == 6 && Values(sum) && Verifies(hrp, values + sum) && s == hrp + "1" + Chars(values + sum);
    Separator(hrp, values + sum, s);
    ReadBack(hrp, values, sum, s);
    r := Decode(s);
  }

  /** The characters of values are in the set, printable and not capitals, and none is '1'. */
  lemma CharsAreFine(vs: seq<nat>)
    requires Values(vs)
    ensures InSet(Chars(vs)) && Revs(Chars(vs)) == vs
    ensures forall i | 0 <= i < |vs| :: Chars(vs)[i] != '1' && Printable(Chars(vs)[i]) && !IsUpper(Chars(vs)[i])
  {
    forall i | 0 <= i < |vs| ensures Rev(Chars(vs)[i]) == vs[i] && Chars(vs)[i] != '1' && Printable(Chars(vs)[i]) && !IsUpper(Chars(vs)[i]) {
      RevOfChar(vs[i]);
    }
  }

  /** So the last '1' is the separator. */
  lemma Separator(hrp: string, vs: seq<nat>, s: string)
    requires Values(vs) && s == hrp + "1" + Chars(vs)
    ensures LastOne(s) == |hrp| && s[..|hrp|] == hrp && s[|hrp| + 1..] == Chars(vs)
  {
    CharsAreFine(vs);
    assert s[|hrp|] == '1';
    forall i | |hrp| < i < |s| ensures s[i] != '1' {
      assert s[i] == Chars(vs)[i - |hrp| - 1];
    }
  }

  lemma LoweredSame(s: string)
    ensures Lowered(s) == s <==> forall i | 0 <= i < |s| :: !IsUpper(s[i])
  {
    forall i | 0 <= i < |s| ensures LowerCase(s[i]) == s[i] <==> !IsUpper(s[i]) {
    }
    if Lowered(s) == s {
      forall i | 0 <= i < |s| ensures !IsUpper(s[i]) {
        assert Lowered(s)[i] == s[i];
      }
    }
  }

  lemma ReadBack(hrp: string, values: seq<nat>, sum: seq<nat>, s: string)
    requires Values(values) && Values(sum) && |sum| == 6 && Verifies(hrp, values + sum) && s == hrp + "1" + Chars(values + sum)
    requires LastOne(s) == |hrp| && s[..|hrp|] == hrp && s[|hrp| + 1..] == Chars(values + sum)
    ensures WellFormed(s) && (Lowered(s[..LastOne(s)]), Revs(s[LastOne(s) + 1..|s| - 6])) == (hrp, values) <==> Readable(hrp, values)
  {
    var t := Chars(values + sum);
    CharsAreFine(values + sum);
    LoweredSame(hrp);
    assert Revs(s[|hrp| + 1..|s| - 6]) == values by {
      assert s[|hrp| + 1..|s| - 6] == t[..|values|];
      FrontValues(values, sum, t);
    }
    OneCaseIs(hrp, t, s);
  }

  lemma FrontValues(values: seq<nat>, sum: seq<nat>, t: string)
    requires |t| == |values| + |sum| && Revs(t) == values + sum
    ensures Revs(t[..|values|]) == values
  {
    forall i | 0 <= i < |values| ensures Rev(t[i]) == values[i] {
      assert Revs(t)[i] == (values + sum)[i];
    }
  }

  /** Behind a part without capitals, the whole text is of one case exactly when the part is printable. */
  lemma OneCaseIs(hrp: string, t: string, s: string)
    requires s == hrp + "1" + t && forall i | 0 <= i < |t| :: Printable(t[i]) && !IsUpper(t[i])
    ensures (forall i | 0 <= i < |hrp| :: !IsUpper(hrp[i])) ==>
            (OneCase(s) <==> forall i | 0 <= i < |hrp| :: Printable(hrp[i]))
  {
    assert Printable('1') && !IsUpper('1');
    forall i | 0 <= i < |hrp| ensures s[i] == hrp[i] {
    }
    forall i | |hrp| <= i < |s| ensures Printable(s[i]) && !IsUpper(s[i]) {
      if i > |hrp| {
        assert s[i] == t[i - |hrp| - 1];
      }
    }
  }
}
