/**
 A text that BIP 173 lists as valid is accepted: the generator, the expansion of the part, the start value and the order of
 the character set are those of the standard.
 */
module Bech32Example {
  import opened Wrappers
  import opened Bits
  import opened Folding
  import opened Galois
  import opened Bech32
  import opened Bech32Zeros

  /** The characters in the order of their values. */
  lemma CharacterSet(v: nat)
    requires v < 32
    ensures CharOf(v) == "qpzry9x8gf2tvdw0s3jn54khce6mua7l"[v]
  {
  }

  type Five5 = g: seq<bool> | |g| == 5 witness [false, false, false, false, false]

  /** A word of the checksum by its six groups, the lowest first. */
  function Word(g0: Five5, g1: Five5, g2: Five5, g3: Five5, g4: Five5, g5: Five5): (c: seq<bool>)
    ensures |c| == 30 && Group(c, 0) == g0 && Group(c, 1) == g1 && Group(c, 2) == g2 && Group(c, 3) == g3 && Group(c, 4) == g4 && Group(c, 5) == g5
  {
    g0 + g1 + g2 + g3 + g4 + g5
  }

  /** The sum of two groups. */
  function Add(a: Five5, b: Five5): (r: Five5)
    ensures r == Xor(a, b)
  {
    var r := [a[0] != b[0], a[1] != b[1], a[2] != b[2], a[3] != b[3], a[4] != b[4]];
    assert r == Xor(a, b);
    r
  }

  /** Groups are the same if they stand for the same element. */
  lemma SameElement(a: Five5, b: Five5)
    requires Embed(a) == Embed(b)
    ensures a == b
  {
    EmbedXor(a, b);
    EmbedZero(Xor(a, b));
    SameIfNoDifference(a, b, 5);
  }

  lemma IsElement(a: Five5, b: Five5, e: Element)
    requires Embed(a) == e && e == FiveSum(On(b[0], 1), On(b[1], 333), On(b[2], 643), On(b[3], 615), On(b[4], 290))
    ensures a == b
  {
    assert Unfold(0);
    SameElement(a, b);
  }

  lemma Top(c: seq<bool>, t: Five5)
    requires |c| == 30 && Group(c, 5) == t
    ensures c[25] == t[0] && c[26] == t[1] && c[27] == t[2] && c[28] == t[3] && c[29] == t[4]
  {
    var g := Group(c, 5);
    assert g[0] == c[25] && g[1] == c[26] && g[2] == c[27] && g[3] == c[28] && g[4] == c[29];
  }

  lemma SixGroups(c: seq<bool>, d: seq<bool>)
    requires |c| == |d| == 30 && Group(c, 0) == Group(d, 0) && Group(c, 1) == Group(d, 1) && Group(c, 2) == Group(d, 2)
    requires Group(c, 3) == Group(d, 3) && Group(c, 4) == Group(d, 4) && Group(c, 5) == Group(d, 5)
    ensures c == d
  {
    SameGroups(c, d);
  }

  /** One step, group by group, with what is folded back. */
  lemma StepWord(c: seq<bool>, v: Five5, b0: Five5, b1: Five5, b2: Five5, b3: Five5, b4: Five5, b5: Five5, d: seq<bool>)
    requires |c| == |d| == 30 && BackGroup(c, 0) == b0 && BackGroup(c, 1) == b1 && BackGroup(c, 2) == b2
    requires BackGroup(c, 3) == b3 && BackGroup(c, 4) == b4 && BackGroup(c, 5) == b5
    requires Group(d, 0) == Add(v, b0) && Group(d, 1) == Add(Group(c, 0), b1) && Group(d, 2) == Add(Group(c, 1), b2)
    requires Group(d, 3) == Add(Group(c, 2), b3) && Group(d, 4) == Add(Group(c, 3), b4) && Group(d, 5) == Add(Group(c, 4), b5)
    ensures Step(c, v) == d
  {
    StepGroup(c, v, 0);
    StepGroup(c, v, 1);
    StepGroup(c, v, 2);
    StepGroup(c, v, 3);
    StepGroup(c, v, 4);
    StepGroup(c, v, 5);
    SixGroups(Step(c, v), d);
  }

  const G0: Five5 := [false, false, false, false, false]
  const G1: Five5 := [true, false, false, false, false]
  const G3: Five5 := [true, true, false, false, false]
  const G4: Five5 := [false, false, true, false, false]
  const G6: Five5 := [false, true, true, false, false]
  const G9: Five5 := [true, false, false, true, false]
  const G10: Five5 := [false, true, false, true, false]
  const G11: Five5 := [true, true, false, true, false]
  const G15: Five5 := [true, true, true, true, false]
  const G16: Five5 := [false, false, false, false, true]
  const G17: Five5 := [true, false, false, false, true]
  const G18: Five5 := [false, true, false, false, true]
  const G20: Five5 := [false, false, true, false, true]
  const G21: Five5 := [true, false, true, false, true]
  const G22: Five5 := [false, true, true, false, true]
  const G23: Five5 := [true, true, true, false, true]
  const G25: Five5 := [true, false, false, true, true]
  const G26: Five5 := [false, true, false, true, true]
  const G27: Five5 := [true, true, false, true, true]
  const G28: Five5 := [false, false, true, true, true]
  const G29: Five5 := [true, false, true, true, true]
  const G30: Five5 := [false, true, true, true, true]
  const G31: Five5 := [true, true, true, true, true]

  /** What the value 0 folds back when it leaves on the left. */
  lemma Top0(c: seq<bool>)
    requires |c| == 30 && Group(c, 5) == G0
    ensures BackGroup(c, 0) == G0 && BackGroup(c, 1) == G0 && BackGroup(c, 2) == G0
    ensures BackGroup(c, 3) == G0 && BackGroup(c, 4) == G0 && BackGroup(c, 5) == G0
  {
    Top(c, G0);
    Back0(c);
    IsElement(BackGroup(c, 0), G0, 0);
    Back1(c);
    IsElement(BackGroup(c, 1), G0, 0);
    Back2(c);
    IsElement(BackGroup(c, 2), G0, 0);
    Back3(c);
    IsElement(BackGroup(c, 3), G0, 0);
    Back4(c);
    IsElement(BackGroup(c, 4), G0, 0);
    Back5(c);
    IsElement(BackGroup(c, 5), G0, 0);
  }

  /** What the value 1 folds back when it leaves on the left. */
  lemma Top1(c: seq<bool>)
    requires |c| == 30 && Group(c, 5) == G1
    ensures BackGroup(c, 0) == G18 && BackGroup(c, 1) == G29 && BackGroup(c, 2) == G21
    ensures BackGroup(c, 3) == G20 && BackGroup(c, 4) == G22 && BackGroup(c, 5) == G29
  {
    Top(c, G1);
    Back0(c);
    IsElement(BackGroup(c, 0), G18, 111);
    Back1(c);
    IsElement(BackGroup(c, 1), G29, 455);
    Back2(c);
    IsElement(BackGroup(c, 2), G21, 928);
    Back3(c);
    IsElement(BackGroup(c, 3), G20, 929);
    Back4(c);
    IsElement(BackGroup(c, 4), G22, 748);
    Back5(c);
    IsElement(BackGroup(c, 5), G29, 455);
  }

  /** What the value 18 folds back when it leaves on the left. */
  lemma Top18(c: seq<bool>)
    requires |c| == 30 && Group(c, 5) == G18
    ensures BackGroup(c, 0) == G30 && BackGroup(c, 1) == G6 && BackGroup(c, 2) == G27
    ensures BackGroup(c, 3) == G9 && BackGroup(c, 4) == G4 && BackGroup(c, 5) == G6
  {
    Top(c, G18);
    Back0(c);
    IsElement(BackGroup(c, 0), G30, 139);
    Back1(c);
    IsElement(BackGroup(c, 1), G6, 974);
    Back2(c);
    IsElement(BackGroup(c, 2), G27, 521);
    Back3(c);
    IsElement(BackGroup(c, 3), G9, 614);
    Back4(c);
    IsElement(BackGroup(c, 4), G4, 643);
    Back5(c);
    IsElement(BackGroup(c, 5), G6, 974);
  }

  /** What the value 30 folds back when it leaves on the left. */
  lemma Top30(c: seq<bool>)
    requires |c| == 30 && Group(c, 5) == G30
    ensures BackGroup(c, 0) == G25 && BackGroup(c, 1) == G23 && BackGroup(c, 2) == G17
    ensures BackGroup(c, 3) == G15 && BackGroup(c, 4) == G26 && BackGroup(c, 5) == G23
  {
    Top(c, G30);
    Back0(c);
    IsElement(BackGroup(c, 0), G25, 836);
    Back1(c);
    IsElement(BackGroup(c, 1), G23, 749);
    Back2(c);
    IsElement(BackGroup(c, 2), G17, 291);
    Back3(c);
    IsElement(BackGroup(c, 3), G15, 424);
    Back4(c);
    IsElement(BackGroup(c, 4), G26, 520);
    Back5(c);
    IsElement(BackGroup(c, 5), G23, 749);
  }

  lemma Sums()
    ensures Add(G0, G0) == G0
    ensures Add(G0, G22) == G22
    ensures Add(G1, G0) == G1
    ensures Add(G1, G17) == G16
    ensures Add(G1, G20) == G21
    ensures Add(G3, G0) == G3
    ensures Add(G3, G29) == G30
    ensures Add(G4, G4) == G0
    ensures Add(G6, G6) == G0
    ensures Add(G6, G29) == G27
    ensures Add(G9, G9) == G0
    ensures Add(G10, G0) == G10
    ensures Add(G10, G21) == G31
    ensures Add(G11, G23) == G28
    ensures Add(G15, G29) == G18
    ensures Add(G16, G20) == G4
    ensures Add(G16, G22) == G6
    ensures Add(G20, G18) == G6
    ensures Add(G21, G26) == G15
    ensures Add(G22, G23) == G1
    ensures Add(G25, G18) == G11
    ensures Add(G27, G27) == G0
    ensures Add(G28, G0) == G28
    ensures Add(G28, G21) == G9
    ensures Add(G28, G29) == G1
    ensures Add(G31, G15) == G16
    ensures Add(G31, G25) == G6
    ensures Add(G31, G30) == G1
  {
  }

  lemma Step1()
    ensures Step(Word(G1, G0, G0, G0, G0, G0), G3) == Word(G3, G1, G0, G0, G0, G0)
  {
    var c := Word(G1, G0, G0, G0, G0, G0);
    Top0(c);
    Sums();
    StepWord(c, G3, G0, G0, G0, G0, G0, G0, Word(G3, G1, G0, G0, G0, G0));
  }

  lemma Step2()
    ensures Step(Word(G3, G1, G0, G0, G0, G0), G0) == Word(G0, G3, G1, G0, G0, G0)
  {
    var c := Word(G3, G1, G0, G0, G0, G0);
    Top0(c);
    Sums();
    StepWord(c, G0, G0, G0, G0, G0, G0, G0, Word(G0, G3, G1, G0, G0, G0));
  }

  lemma Step3()
    ensures Step(Word(G0, G3, G1, G0, G0, G0), G1) == Word(G1, G0, G3, G1, G0, G0)
  {
    var c := Word(G0, G3, G1, G0, G0, G0);
    Top0(c);
    Sums();
    StepWord(c, G1, G0, G0, G0, G0, G0, G0, Word(G1, G0, G3, G1, G0, G0));
  }

  lemma Step4()
    ensures Step(Word(G1, G0, G3, G1, G0, G0), G10) == Word(G10, G1, G0, G3, G1, G0)
  {
    var c := Word(G1, G0, G3, G1, G0, G0);
    Top0(c);
    Sums();
    StepWord(c, G10, G0, G0, G0, G0, G0, G0, Word(G10, G1, G0, G3, G1, G0));
  }

  lemma Step5()
    ensures Step(Word(G10, G1, G0, G3, G1, G0), G28) == Word(G28, G10, G1, G0, G3, G1)
  {
    var c := Word(G10, G1, G0, G3, G1, G0);
    Top0(c);
    Sums();
    StepWord(c, G28, G0, G0, G0, G0, G0, G0, Word(G28, G10, G1, G0, G3, G1));
  }

  lemma Step6()
    ensures Step(Word(G28, G10, G1, G0, G3, G1), G25) == Word(G11, G1, G31, G21, G22, G30)
  {
    var c := Word(G28, G10, G1, G0, G3, G1);
    Top1(c);
    Sums();
    StepWord(c, G25, G18, G29, G21, G20, G22, G29, Word(G11, G1, G31, G21, G22, G30));
  }

  lemma Step7()
    ensures Step(Word(G11, G1, G31, G21, G22, G30), G31) == Word(G6, G28, G16, G16, G15, G1)
  {
    var c := Word(G11, G1, G31, G21, G22, G30);
    Top30(c);
    Sums();
    StepWord(c, G31, G25, G23, G17, G15, G26, G23, Word(G6, G28, G16, G16, G15, G1));
  }

  lemma Step8()
    ensures Step(Word(G6, G28, G16, G16, G15, G1), G20) == Word(G6, G27, G9, G4, G6, G18)
  {
    var c := Word(G6, G28, G16, G16, G15, G1);
    Top1(c);
    Sums();
    StepWord(c, G20, G18, G29, G21, G20, G22, G29, Word(G6, G27, G9, G4, G6, G18));
  }

  lemma Step9()
    ensures Step(Word(G6, G27, G9, G4, G6, G18), G31) == Word(G1, G0, G0, G0, G0, G0)
  {
    var c := Word(G6, G27, G9, G4, G6, G18);
    Top18(c);
    Sums();
    StepWord(c, G31, G30, G6, G27, G9, G4, G6, Word(G1, G0, G0, G0, G0, G0));
  }

  lemma OneMore(vs: seq<nat>, v: nat, g: Five5, c: seq<bool>, d: seq<bool>)
    requires |c| == |d| == 30 && Poly(ONE, Fives(vs)) == c && Five(v) == g && Step(c, g) == d
    ensures Poly(ONE, Fives(vs + [v])) == d
  {
    FivesConcat(vs, [v]);
    assert Fives([v]) == [Five(v)];
    PolyAppend(ONE, Fives(vs), Five(v));
  }

  lemma StartWord()
    ensures ONE == Word(G1, G0, G0, G0, G0, G0) && Poly(ONE, Fives([])) == ONE
  {
    assert Fives([]) == [];
    var w := Word(G1, G0, G0, G0, G0, G0);
    forall i | 0 <= i < 30 ensures ONE[i] == w[i] {
      assert w[i] == Group(w, i / 5)[i % 5];
    }
  }

  lemma Value0()
    ensures Five(0) == G0
  {
    assert Shr(0, 1) == 0 && Shr(0, 2) == 0 && Shr(0, 3) == 0 && Shr(0, 4) == 0;
  }

  lemma Value1()
    ensures Five(1) == G1
  {
    assert Shr(1, 1) == 0 && Shr(1, 2) == 0 && Shr(1, 3) == 0 && Shr(1, 4) == 0;
  }

  lemma Value3()
    ensures Five(3) == G3
  {
    assert Shr(3, 1) == 1 && Shr(3, 2) == 0 && Shr(3, 3) == 0 && Shr(3, 4) == 0;
  }

  lemma Value10()
    ensures Five(10) == G10
  {
    assert Shr(10, 1) == 5 && Shr(10, 2) == 2 && Shr(10, 3) == 1 && Shr(10, 4) == 0;
  }

  lemma Value20()
    ensures Five(20) == G20
  {
    assert Shr(20, 1) == 10 && Shr(20, 2) == 5 && Shr(20, 3) == 2 && Shr(20, 4) == 1;
  }

  lemma Value25()
    ensures Five(25) == G25
  {
    assert Shr(25, 1) == 12 && Shr(25, 2) == 6 && Shr(25, 3) == 3 && Shr(25, 4) == 1;
  }

  lemma Value28()
    ensures Five(28) == G28
  {
    assert Shr(28, 1) == 14 && Shr(28, 2) == 7 && Shr(28, 3) == 3 && Shr(28, 4) == 1;
  }

  lemma Value31()
    ensures Five(31) == G31
  {
    assert Shr(31, 1) == 15 && Shr(31, 2) == 7 && Shr(31, 3) == 3 && Shr(31, 4) == 1;
  }

  lemma After1()
    ensures Poly(ONE, Fives([3])) == Word(G3, G1, G0, G0, G0, G0)
  {
    StartWord();
    Value3();
    Step1();
    OneMore([], 3, G3, Word(G1, G0, G0, G0, G0, G0), Word(G3, G1, G0, G0, G0, G0));
    assert [] + [3] == [3];
  }

  lemma After2()
    ensures Poly(ONE, Fives([3, 0])) == Word(G0, G3, G1, G0, G0, G0)
  {
    After1();
    Value0();
    Step2();
    OneMore([3], 0, G0, Word(G3, G1, G0, G0, G0, G0), Word(G0, G3, G1, G0, G0, G0));
    assert [3] + [0] == [3, 0];
  }

  lemma After3()
    ensures Poly(ONE, Fives([3, 0, 1])) == Word(G1, G0, G3, G1, G0, G0)
  {
    After2();
    Value1();
    Step3();
    OneMore([3, 0], 1, G1, Word(G0, G3, G1, G0, G0, G0), Word(G1, G0, G3, G1, G0, G0));
    assert [3, 0] + [1] == [3, 0, 1];
  }

  lemma After4()
    ensures Poly(ONE, Fives([3, 0, 1, 10])) == Word(G10, G1, G0, G3, G1, G0)
  {
    After3();
    Value10();
    Step4();
    OneMore([3, 0, 1], 10, G10, Word(G1, G0, G3, G1, G0, G0), Word(G10, G1, G0, G3, G1, G0));
    assert [3, 0, 1] + [10] == [3, 0, 1, 10];
  }

  lemma After5()
    ensures Poly(ONE, Fives([3, 0, 1, 10, 28])) == Word(G28, G10, G1, G0, G3, G1)
  {
    After4();
    Value28();
    Step5();
    OneMore([3, 0, 1, 10], 28, G28, Word(G10, G1, G0, G3, G1, G0), Word(G28, G10, G1, G0, G3, G1));
    assert [3, 0, 1, 10] + [28] == [3, 0, 1, 10, 28];
  }

  lemma After6()
    ensures Poly(ONE, Fives([3, 0, 1, 10, 28, 25])) == Word(G11, G1, G31, G21, G22, G30)
  {
    After5();
    Value25();
    Step6();
    OneMore([3, 0, 1, 10, 28], 25, G25, Word(G28, G10, G1, G0, G3, G1), Word(G11, G1, G31, G21, G22, G30));
    assert [3, 0, 1, 10, 28] + [25] == [3, 0, 1, 10, 28, 25];
  }

  lemma After7()
    ensures Poly(ONE, Fives([3, 0, 1, 10, 28, 25, 31])) == Word(G6, G28, G16, G16, G15, G1)
  {
    After6();
    Value31();
    Step7();
    OneMore([3, 0, 1, 10, 28, 25], 31, G31, Word(G11, G1, G31, G21, G22, G30), Word(G6, G28, G16, G16, G15, G1));
    assert [3, 0, 1, 10, 28, 25] + [31] == [3, 0, 1, 10, 28, 25, 31];
  }

  lemma After8()
    ensures Poly(ONE, Fives([3, 0, 1, 10, 28, 25, 31, 20])) == Word(G6, G27, G9, G4, G6, G18)
  {
    After7();
    Value20();
    Step8();
    OneMore([3, 0, 1, 10, 28, 25, 31], 20, G20, Word(G6, G28, G16, G16, G15, G1), Word(G6, G27, G9, G4, G6, G18));
    assert [3, 0, 1, 10, 28, 25, 31] + [20] == [3, 0, 1, 10, 28, 25, 31, 20];
  }

  lemma After9()
    ensures Poly(ONE, Fives([3, 0, 1, 10, 28, 25, 31, 20, 31])) == Word(G1, G0, G0, G0, G0, G0)
  {
    After8();
    Value31();
    Step9();
    OneMore([3, 0, 1, 10, 28, 25, 31, 20], 31, G31, Word(G6, G27, G9, G4, G6, G18), Word(G1, G0, G0, G0, G0, G0));
    assert [3, 0, 1, 10, 28, 25, 31, 20] + [31] == [3, 0, 1, 10, 28, 25, 31, 20, 31];
  }

  lemma TextVerifies()
    ensures Verifies("a", [10, 28, 25, 31, 20, 31])
  {
    After9();
    StartWord();
    assert ExpandHRP("a") == [3, 0, 1];
    assert [3, 0, 1] + [10, 28, 25, 31, 20, 31] == [3, 0, 1, 10, 28, 25, 31, 20, 31];
  }

  lemma TextValues()
    ensures Revs("2uel5l") == [10, 28, 25, 31, 20, 31] && InSet("2uel5l") && Lowered("a") == "a" && Revs(""[..0]) == []
  {
  }

  /** "a12uel5l" is taken apart at its only '1'. */
  lemma TextParts(s: string)
    requires s == "a12uel5l"
    ensures LastOne(s) == 1 && s[..1] == "a" && s[2..] == "2uel5l" && s[2..2] == "" && OneCase(s)
  {
    assert s[0] == 'a' && s[1] == '1' && s[2] == '2' && s[3] == 'u' && s[4] == 'e' && s[5] == 'l' && s[6] == '5' && s[7] == 'l';
  }

  /** It decodes to the part "a" and no values. */
  lemma ValidText(s: string)
    requires s == "a12uel5l"
    ensures WellFormed(s) && Lowered(s[..1]) == "a" && Revs(s[2..2]) == []
  {
    TextParts(s);
    TextValues();
    TextVerifies();
  }
}
