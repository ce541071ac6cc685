/**
 How far the skip list over block heights takes a search.  A pointer leads from an even height to the one without its
 lowest bit, and from an odd one past two bits.  The number of steps grows with the square of the number of bits; the
 greatest number is found exactly.
 */
module SkipList {
  import opened Bits
  import opened Folding

  /** Turn the lowest '1' bit into a '0'. */
  function InvertLowestOne(n: nat): nat { if n == 0 then 0 else And(n, n - 1) }

  lemma InvertLowestOneFalls(n: nat)
    ensures InvertLowestOne(n) <= n && (n > 0 ==> InvertLowestOne(n) < n)
  {
    if n > 0 {
      AndAtMost(n, n - 1);
    }
  }

  /** The height a block's skip pointer leads to. */
  function GetSkipHeight(height: nat): (r: nat)
    ensures height > 0 ==> r < height
  {
    if height < 2 then 0
    else if height % 2 == 1 then
      InvertLowestOneFalls(height - 1);
      InvertLowestOneFalls(InvertLowestOne(height - 1));
      InvertLowestOne(InvertLowestOne(height - 1)) + 1
    else InvertLowestOneFalls(height); InvertLowestOne(height)
  }

  /** The same two, as functions whose definition is looked at only where it is asked for. */
  ghost function Low(n: nat): (r: nat)
    ensures IsLow(n, r)
  {
    assert IsLow(n, InvertLowestOne(n));
    var r: nat :| IsLow(n, r);
    r
  }

  ghost predicate IsLow(n: nat, r: nat) { forall u | Unfold(u) :: r == InvertLowestOne(n) }

  ghost function Skip(h: nat): (r: nat)
    ensures IsSkip(h, r) && (h > 0 ==> r < h)
  {
    assert IsSkip(h, GetSkipHeight(h));
    var r: nat :| IsSkip(h, r) && (h > 0 ==> r < h);
    r
  }

  ghost predicate IsSkip(h: nat, r: nat) { forall u | Unfold(u) :: r == GetSkipHeight(h) }

  lemma SkipIs(h: nat)
    ensures Skip(h) == GetSkipHeight(h)
  {
    assert Unfold(0);
  }

  lemma SkipOdd(e: nat, f: nat, g: nat)
    requires e > 0 && e % 2 == 0 && f == Low(e) && g == Low(f)
    ensures Skip(e + 1) == g + 1
  {
    assert Unfold(0);
  }

  lemma SkipEven(e: nat, f: nat)
    requires e > 0 && e % 2 == 0 && f == Low(e)
    ensures Skip(e) == f
  {
    assert Unfold(0);
  }

  lemma LowFalls(n: nat)
    ensures Low(n) <= n && (n > 0 ==> Low(n) < n)
  {
    assert Unfold(0);
    InvertLowestOneFalls(n);
  }

  /** Where the search for a lower height goes next. */
  ghost function Next(h: nat, t: nat): (r: nat)
    requires t < h
    ensures t <= r < h && IsNext(h, t, r)
  {
    assert IsNext(h, t, Choice(h, t, Skip(h), Skip(h - 1)));
    var r: nat :| t <= r < h && IsNext(h, t, r);
    r
  }

  /** The pointer is followed if it does not lead too far, and the one of the height before is not better. */
  function Choice(h: nat, t: nat, s: nat, before: nat): (r: nat)
    requires t < h && s < h
    ensures t <= r < h
  {
    if s == t || (s > t && !(before < s - 2 && before >= t)) then s else h - 1
  }

  ghost predicate IsNext(h: nat, t: nat, r: nat)
    requires t < h
  {
    forall u | Unfold(u) :: r == Choice(h, t, Skip(h), Skip(h - 1))
  }

  lemma By(h: nat, t: nat, s: nat, before: nat)
    requires t < h && Skip(h) == s && Skip(h - 1) == before
    ensures Next(h, t) == Choice(h, t, s, before)
  {
    assert Unfold(0);
  }

  /** The steps of a search. */
  ghost function Steps(h: nat, t: nat): nat
    requires t <= h
  {
    if h == t then 0 else 1 + Steps(Next(h, t), t)
  }

  /** One step of the search, by the heights as they are computed. */
  lemma OneStep(h: nat, t: nat)
    requires t < h
    ensures Steps(h, t) == 1 + Steps(Choice(h, t, GetSkipHeight(h), GetSkipHeight(h - 1)), t)
  {
    SkipIs(h);
    SkipIs(h - 1);
    By(h, t, Skip(h), Skip(h - 1));
  }

  // ---------------------------------------------------------------- bits

  lemma {:induction false} AndSelf(n: nat)
    ensures And(n, n) == n
  {
    if n > 0 {
      AndSelf(n / 2);
    }
  }

  lemma LowestOfEven(n: nat)
    ensures Low(2 * n) == 2 * Low(n)
  {
    assert Unfold(0);
    if n > 0 {
      assert 2 * n / 2 == n && (2 * n - 1) / 2 == n - 1;
    }
  }

  lemma LowestOfOdd(n: nat)
    ensures Low(2 * n + 1) == 2 * n
  {
    assert Unfold(0);
    if n > 0 {
      AndSelf(n);
      assert (2 * n + 1) / 2 == n && 2 * n / 2 == n;
    }
  }

  lemma LowestOfEven4(n: nat)
    ensures Low(4 * n) == 4 * Low(n) && Low(4 * n + 2) == 4 * n
  {
    LowestOfEven(2 * n);
    LowestOfEven(n);
    LowestOfEven(2 * n + 1);
    LowestOfOdd(n);
    assert 4 * n == 2 * (2 * n) && 4 * n + 2 == 2 * (2 * n + 1);
  }

  lemma LowestOfEven8(n: nat)
    ensures Low(8 * n) == 8 * Low(n) && Low(8 * n + 2) == 8 * n
    ensures Low(8 * n + 4) == 8 * n && Low(8 * n + 6) == 8 * n + 4
  {
    LowestOfEven4(2 * n);
    LowestOfEven(n);
    LowestOfEven4(2 * n + 1);
    LowestOfOdd(n);
    assert 8 * n == 4 * (2 * n) && 8 * n + 4 == 4 * (2 * n + 1);
  }

  /** The number of ones. */
  function Ones(n: nat): nat { if n == 0 then 0 else n % 2 + Ones(n / 2) }

  lemma {:induction false} OneFewer(n: nat)
    requires n > 0
    ensures Ones(Low(n)) == Ones(n) - 1
  {
    var m := n / 2;
    if n % 2 == 0 {
      LowestOfEven(m);
      OneFewer(m);
      assert Low(n) / 2 == Low(m);
    } else {
      LowestOfOdd(m);
    }
  }

  lemma {:induction false} NoOnes(n: nat)
    ensures Ones(n) == 0 <==> n == 0
  {
    if n > 0 {
      NoOnes(n / 2);
    }
  }

  lemma {:induction false} OnesAtMost(n: nat, k: nat)
    requires n < Pow2(k)
    ensures Ones(n) <= k
  {
    if n > 0 {
      OnesAtMost(n / 2, k - 1);
    }
  }

  /** Below a multiple of a power of two only the low part changes. */
  lemma {:induction false} LowestAbove(m: nat, d: nat, low: nat)
    requires 0 < low < Pow2(d)
    ensures Low(Shl(m, d) + low) == Shl(m, d) + Low(low)
  {
    var l := low / 2;
    if low % 2 == 0 {
      LowestAbove(m, d - 1, l);
      LowestOfEven(Shl(m, d - 1) + l);
      LowestOfEven(l);
    } else {
      LowestOfOdd(Shl(m, d - 1) + l);
      LowestOfOdd(l);
    }
  }

  lemma {:induction false} LowestOfTop(a: nat, d: nat)
    ensures Low(Shl(2 * a + 1, d)) == Shl(2 * a, d) && Shl(2 * a + 1, d) == Shl(2 * a, d) + Pow2(d)
  {
    if d == 0 {
      LowestOfOdd(a);
    } else {
      LowestOfTop(a, d - 1);
      LowestOfEven(Shl(2 * a + 1, d - 1));
    }
  }

  lemma EightTimes(m: nat, d: nat)
    requires d >= 3
    ensures Shl(m, d) == 8 * Shl(m, d - 3) && Pow2(d) == 8 * Pow2(d - 3)
  {
    assert Shl(m, d) == 2 * Shl(m, d - 1) && Shl(m, d - 1) == 2 * Shl(m, d - 2) && Shl(m, d - 2) == 2 * Shl(m, d - 3);
    assert Pow2(d) == 2 * Pow2(d - 1) && Pow2(d - 1) == 2 * Pow2(d - 2) && Pow2(d - 2) == 2 * Pow2(d - 3);
  }

  lemma Twice(n: nat, k: nat)
    requires n == k + k
    ensures n % 2 == 0
  {
  }

  lemma LowestTwoBelow(p: nat)
    requires p % 2 == 0
    ensures p > 0 ==> Low(p) <= p - 2
  {
    LowestOfEven(p / 2);
    LowFalls(p / 2);
  }

  // ------------------------------------------------------- one block of heights

  /** Around a multiple of 2^d, but not of 2^(d+1): the heights above it share its upper bits, the target lies among the
      2^d heights below. */
  ghost predicate Around(d: nat, size: nat, top: nat, bottom: nat, t: nat) {
    bottom <= t < top && d >= 3 && forall u | Unfold(u) :: size == Pow2(d) && exists a: nat :: top == Shl(2 * a + 1, d) && bottom == Shl(2 * a, d)
  }

  lemma IsAround(a: nat, d: nat, t: nat)
    requires d >= 3 && Shl(2 * a, d) <= t < Shl(2 * a + 1, d)
    ensures Around(d, Pow2(d), Shl(2 * a + 1, d), Shl(2 * a, d), t)
  {
  }

  lemma AroundFacts(d: nat, size: nat, top: nat, bottom: nat, t: nat)
    requires Around(d, size, top, bottom, t)
    ensures top == bottom + size && top % 2 == 0 && bottom % 2 == 0 && (bottom + 1) % 2 == 1 && size >= 8 && size == Pow2(d)
    ensures Low(top) == bottom && Low(bottom) <= if bottom == 0 then 0 else bottom - 2
  {
    assert Unfold(0);
    var a: nat :| top == Shl(2 * a + 1, d) && bottom == Shl(2 * a, d);
    LowestOfTop(a, d);
    TopAndBottom(d, top, bottom, 2 * a + 1, 2 * a);
    LowestTwoBelow(bottom);
    LowFalls(bottom);
  }

  lemma TopAndBottom(d: nat, top: nat, bottom: nat, m: nat, n: nat)
    requires d >= 3 && top == Shl(m, d) && bottom == Shl(n, d)
    ensures top % 2 == 0 && bottom % 2 == 0 && (bottom + 1) % 2 == 1 && Pow2(d) >= 8
  {
    EvenShl(m, d);
    EvenShl(n, d);
    OddAfterEven(bottom);
    EightTimes(0, d);
  }

  lemma EvenShl(m: nat, d: nat)
    requires d > 0
    ensures Shl(m, d) % 2 == 0
  {
    Twice(Shl(m, d), Shl(m, d - 1));
  }

  lemma OddAfterEven(n: nat)
    requires n % 2 == 0
    ensures (n + 1) % 2 == 1
  {
  }

  lemma AroundLow(d: nat, size: nat, top: nat, bottom: nat, t: nat, low: nat)
    requires Around(d, size, top, bottom, t) && 0 < low < size
    ensures Low(top + low) == top + Low(low)
  {
    assert Unfold(0);
    var a: nat :| top == Shl(2 * a + 1, d) && bottom == Shl(2 * a, d);
    LowestAbove(2 * a + 1, d, low);
  }

  /** A bound for the searches from below the top: they start at odd heights, or are over. */
  ghost predicate Lands(top: nat, t: nat, b: nat) {
    forall u | Unfold(u) :: forall x: nat | t <= x < top && (x % 2 == 1 || x == t) :: Steps(x, t) <= b
  }

  lemma LandsAt(top: nat, t: nat, b: nat, x: nat)
    requires Lands(top, t, b) && t <= x < top && (x % 2 == 1 || x == t)
    ensures Steps(x, t) <= b
  {
    assert Unfold(0);
  }

  lemma FromTop(d: nat, size: nat, top: nat, bottom: nat, t: nat, b: nat)
    requires Around(d, size, top, bottom, t) && Lands(top, t, b)
    ensures Steps(top, t) <= 1 + b
    ensures t > bottom ==> Steps(top, t) == 1 + Steps(top - 1, t)
  {
    AroundFacts(d, size, top, bottom, t);
    SkipEven(top, bottom);
    By(top, t, bottom, Skip(top - 1));
    if t == bottom {
      Stepped(top, t, bottom);
    } else {
      OddBeforeEven(top);
      Stepped(top, t, top - 1);
      LandsAt(top, t, b, top - 1);
    }
  }

  lemma OddBeforeEven(n: nat)
    requires n > 0 && n % 2 == 0
    ensures (n - 1) % 2 == 1
  {
  }

  lemma Stepped(h: nat, t: nat, x: nat)
    requires t < h && Next(h, t) == x
    ensures Steps(h, t) == 1 + Steps(x, t)
  {
  }

  // ---------------------------------------------------------------- odd heights

  function OddCost(ones: nat): nat { 1 + (ones + 1) / 2 }

  lemma TwoFewer(e: nat, f: nat, g: nat)
    requires e % 2 == 0 && Ones(e) >= 2 && f == Low(e) && g == Low(f)
    ensures 0 <= g < f < e && f % 2 == 0 && g % 2 == 0 && Ones(g) == Ones(e) - 2
  {
    NoOnes(e);
    OneFewer(e);
    NoOnes(f);
    OneFewer(f);
    LowFalls(e);
    LowFalls(f);
    LowestOfEven(e / 2);
    LowestOfEven(f / 2);
  }

  /** Two ones at a time. */
  lemma NextOddMany(d: nat, size: nat, top: nat, bottom: nat, t: nat, e: nat, f: nat, g: nat)
    requires Around(d, size, top, bottom, t) && 0 < g + 1 < f < e < size && e % 2 == 0 && f == Low(e) && g == Low(f)
    ensures Next(top + e + 1, t) == top + g + 1
  {
    AroundLow(d, size, top, bottom, t, e);
    AroundLow(d, size, top, bottom, t, f);
    AroundFacts(d, size, top, bottom, t);
    SkipOdd(top + e, top + f, top + g);
    SkipEven(top + e, top + f);
    By(top + e + 1, t, top + g + 1, top + f);
  }

  /** With a single one left, the pointer leads just above the bottom. */
  lemma NextOddOne(d: nat, size: nat, top: nat, bottom: nat, t: nat, e: nat)
    requires Around(d, size, top, bottom, t) && 0 < e < size && e % 2 == 0 && Ones(e) == 1
    ensures Next(top + e + 1, t) == if bottom + 1 >= t then bottom + 1 else top + e
  {
    OddOnePointers(d, size, top, bottom, t, e);
    By(top + e + 1, t, bottom + 1, top);
  }

  lemma OddOnePointers(d: nat, size: nat, top: nat, bottom: nat, t: nat, e: nat)
    requires Around(d, size, top, bottom, t) && 0 < e < size && e % 2 == 0 && Ones(e) == 1
    ensures Skip(top + e + 1) == bottom + 1 && Skip(top + e) == top
  {
    OneFewer(e);
    NoOnes(Low(e));
    AroundLow(d, size, top, bottom, t, e);
    EvenAbove(d, size, top, bottom, t, e);
    AroundFacts(d, size, top, bottom, t);
    SkipOdd(top + e, top, bottom);
    SkipEven(top + e, top);
  }

  lemma NextEvenOne(d: nat, size: nat, top: nat, bottom: nat, t: nat, e: nat)
    requires Around(d, size, top, bottom, t) && 0 < e < size && e % 2 == 0 && Ones(e) == 1 && t > bottom + 1
    ensures Next(top + e, t) == top
  {
    OneFewer(e);
    NoOnes(Low(e));
    AroundLow(d, size, top, bottom, t, e);
    EvenAbove(d, size, top, bottom, t, e);
    SkipEven(top + e, top);
    BeforeEven(d, size, top, bottom, t, e);
    Unblocked(top + e, t, top, Skip(top + e - 1));
  }

  lemma Unblocked(h: nat, t: nat, s: nat, before: nat)
    requires t < s < h && Skip(h) == s && Skip(h - 1) == before && (before >= s - 2 || before < t)
    ensures Next(h, t) == s
  {
    By(h, t, s, before);
  }

  lemma EvenAbove(d: nat, size: nat, top: nat, bottom: nat, t: nat, e: nat)
    requires Around(d, size, top, bottom, t) && e % 2 == 0
    ensures (top + e) % 2 == 0
  {
    AroundFacts(d, size, top, bottom, t);
  }

  /** The pointer of the height before an even one: above the top, or close to the bottom. */
  lemma BeforeEven(d: nat, size: nat, top: nat, bottom: nat, t: nat, e: nat)
    requires Around(d, size, top, bottom, t) && 0 < e < size && e % 2 == 0
    ensures Skip(top + e - 1) > top || Skip(top + e - 1) <= bottom + 1
  {
    AroundFacts(d, size, top, bottom, t);
    if e > 2 {
      var f := Low(e - 2);
      AroundLow(d, size, top, bottom, t, e - 2);
      LowFalls(e - 2);
      if f > 0 {
        AroundLow(d, size, top, bottom, t, f);
        SkipOdd(top + e - 2, top + f, top + Low(f));
      } else {
        SkipOdd(top + e - 2, top, bottom);
      }
    } else {
      SkipOdd(top, bottom, Low(bottom));
    }
  }

  /** Just above the top, only a search that ends next to genesis can jump. */
  lemma NextOddNone(d: nat, size: nat, top: nat, bottom: nat, t: nat)
    requires Around(d, size, top, bottom, t)
    ensures Next(top + 1, t) == if bottom == 0 && t <= 1 then 1 else top
  {
    AroundFacts(d, size, top, bottom, t);
    SkipOdd(top, bottom, Low(bottom));
    SkipEven(top, bottom);
    By(top + 1, t, Low(bottom) + 1, bottom);
  }

  lemma TwoOff(d: nat, size: nat, top: nat, bottom: nat, t: nat, e: nat) returns (g: nat)
    requires Around(d, size, top, bottom, t) && e < size && e % 2 == 0 && Ones(e) >= 2
    ensures g < e && g % 2 == 0 && Ones(g) == Ones(e) - 2 && Steps(top + e + 1, t) == 1 + Steps(top + g + 1, t)
  {
    var f := Low(e);
    g := Low(f);
    TwoFewer(e, f, g);
    NextOddMany(d, size, top, bottom, t, e, f, g);
    Stepped(top + e + 1, t, top + g + 1);
  }

  lemma FromOddOne(d: nat, size: nat, top: nat, bottom: nat, t: nat, b: nat, e: nat)
    requires Around(d, size, top, bottom, t) && Lands(top, t, b) && 0 < e < size && e % 2 == 0 && Ones(e) == 1
    ensures Steps(top + e + 1, t) <= 3 + b
    ensures t > bottom + 1 ==> Steps(top + e + 1, t) == 3 + Steps(top - 1, t)
  {
    if t > bottom + 1 {
      FromTop(d, size, top, bottom, t, b);
      ByTheTop(d, size, top, bottom, t, e);
    } else {
      JustAbove(d, size, top, bottom, t, b);
      NextOddOne(d, size, top, bottom, t, e);
      Stepped(top + e + 1, t, bottom + 1);
    }
  }

  lemma ByTheTop(d: nat, size: nat, top: nat, bottom: nat, t: nat, e: nat)
    requires Around(d, size, top, bottom, t) && 0 < e < size && e % 2 == 0 && Ones(e) == 1 && t > bottom + 1
    ensures Steps(top + e + 1, t) == 2 + Steps(top, t)
  {
    NextOddOne(d, size, top, bottom, t, e);
    NextEvenOne(d, size, top, bottom, t, e);
    Stepped(top + e, t, top);
    Stepped(top + e + 1, t, top + e);
  }

  lemma JustAbove(d: nat, size: nat, top: nat, bottom: nat, t: nat, b: nat)
    requires Around(d, size, top, bottom, t) && Lands(top, t, b) && t <= bottom + 1
    ensures Steps(bottom + 1, t) <= b
  {
    AroundFacts(d, size, top, bottom, t);
    LandsAt(top, t, b, bottom + 1);
  }

  lemma FromOddNone(d: nat, size: nat, top: nat, bottom: nat, t: nat, b: nat)
    requires Around(d, size, top, bottom, t) && Lands(top, t, b)
    ensures Steps(top + 1, t) <= 2 + b
    ensures t > bottom + 1 ==> Steps(top + 1, t) == 2 + Steps(top - 1, t)
  {
    AroundFacts(d, size, top, bottom, t);
    FromTop(d, size, top, bottom, t, b);
    NextOddNone(d, size, top, bottom, t);
    Stepped(top + 1, t, Next(top + 1, t));
    if bottom == 0 && t <= 1 {
      LandsAt(top, t, b, 1);
    }
  }

  /** From an odd height down: a step for every two ones, two more to pass the top, and on from below it. */
  lemma {:induction false} FromOdd(d: nat, size: nat, top: nat, bottom: nat, t: nat, b: nat, e: nat)
    requires Around(d, size, top, bottom, t) && Lands(top, t, b) && e < size && e % 2 == 0
    ensures Steps(top + e + 1, t) <= OddCost(Ones(e)) + 1 + b
    ensures t > bottom + 1 ==> Steps(top + e + 1, t) == OddCost(Ones(e)) + 1 + Steps(top - 1, t)
    decreases e
  {
    NoOnes(e);
    if Ones(e) >= 2 {
      var g := TwoOff(d, size, top, bottom, t, e);
      FromOdd(d, size, top, bottom, t, b, g);
    } else if Ones(e) == 1 {
      FromOddOne(d, size, top, bottom, t, b, e);
    } else {
      FromOddNone(d, size, top, bottom, t, b);
    }
  }

  // --------------------------------------------------------------- even heights

  /** Multiples of eight lose one bit a step. */
  lemma NextEight(d: nat, size: nat, top: nat, bottom: nat, t: nat, m: nat)
    requires Around(d, size, top, bottom, t) && 0 < 8 * m < size
    ensures Next(top + 8 * m, t) == top + 8 * Low(m)
  {
    var q := m - 1;
    LowestOfEven8(m);
    LowestOfEven8(q);
    LowFalls(m);
    AroundFacts(d, size, top, bottom, t);
    AroundLow(d, size, top, bottom, t, 8 * m);
    AroundLow(d, size, top, bottom, t, 8 * q + 6);
    AroundLow(d, size, top, bottom, t, 8 * q + 4);
    EvensAbove(d, size, top, bottom, t, m);
    EvensAbove(d, size, top, bottom, t, q);
    SkipEven(top + 8 * m, top + 8 * Low(m));
    SkipOdd(top + 8 * q + 6, top + 8 * q + 4, top + 8 * q);
    Unblocked(top + 8 * m, t, top + 8 * Low(m), top + 8 * q + 1);
  }

  lemma {:induction false} FromEight(d: nat, size: nat, top: nat, bottom: nat, t: nat, b: nat, m: nat)
    requires Around(d, size, top, bottom, t) && Lands(top, t, b) && 8 * m < size
    ensures Steps(top + 8 * m, t) <= Ones(m) + 1 + b
    ensures t > bottom ==> Steps(top + 8 * m, t) == Ones(m) + 1 + Steps(top - 1, t)
    decreases m
  {
    if m == 0 {
      FromTop(d, size, top, bottom, t, b);
    } else {
      NextEight(d, size, top, bottom, t, m);
      Stepped(top + 8 * m, t, top + 8 * Low(m));
      OneFewer(m);
      LowFalls(m);
      FromEight(d, size, top, bottom, t, b, Low(m));
    }
  }

  /** Other even heights: the pointer of the height before is better, and the search goes there. */
  lemma Blocked(h: nat, t: nat, s: nat, before: nat)
    requires 0 < h && Skip(h) == s && Skip(h - 1) == before && t <= before < s - 2
    ensures t < h && Next(h, t) == h - 1
  {
    By(h, t, s, before);
  }

  lemma EvensAbove(d: nat, size: nat, top: nat, bottom: nat, t: nat, m: nat)
    requires Around(d, size, top, bottom, t)
    ensures (top + 8 * m) % 2 == 0 && (top + 8 * m + 2) % 2 == 0 && (top + 8 * m + 4) % 2 == 0 && (top + 8 * m + 6) % 2 == 0
  {
    AroundFacts(d, size, top, bottom, t);
    var k := top / 2 + 4 * m;
    Twice(top + 8 * m, k);
    Twice(top + 8 * m + 2, k + 1);
    Twice(top + 8 * m + 4, k + 2);
    Twice(top + 8 * m + 6, k + 3);
  }

  lemma NextFour(d: nat, size: nat, top: nat, bottom: nat, t: nat, m: nat)
    requires Around(d, size, top, bottom, t) && 0 < m && 8 * m + 4 < size
    ensures Next(top + 8 * m + 4, t) == top + 8 * m + 3
  {
    LowestOfEven8(m);
    LowFalls(m);
    AroundLow(d, size, top, bottom, t, 8 * m + 4);
    AroundLow(d, size, top, bottom, t, 8 * m + 2);
    AroundLow(d, size, top, bottom, t, 8 * m);
    EvensAbove(d, size, top, bottom, t, m);
    SkipEven(top + 8 * m + 4, top + 8 * m);
    SkipOdd(top + 8 * m + 2, top + 8 * m, top + 8 * Low(m));
    Blocked(top + 8 * m + 4, t, top + 8 * m, top + 8 * Low(m) + 1);
  }

  lemma NextSix(d: nat, size: nat, top: nat, bottom: nat, t: nat, m: nat)
    requires Around(d, size, top, bottom, t) && 0 < m && 8 * m + 6 < size
    ensures Next(top + 8 * m + 6, t) == top + 8 * m + 5
  {
    LowestOfEven8(m);
    LowFalls(m);
    AroundLow(d, size, top, bottom, t, 8 * m + 6);
    AroundLow(d, size, top, bottom, t, 8 * m + 4);
    AroundLow(d, size, top, bottom, t, 8 * m);
    EvensAbove(d, size, top, bottom, t, m);
    SkipEven(top + 8 * m + 6, top + 8 * m + 4);
    SkipOdd(top + 8 * m + 4, top + 8 * m, top + 8 * Low(m));
    Blocked(top + 8 * m + 6, t, top + 8 * m + 4, top + 8 * Low(m) + 1);
  }

  lemma NextTwo(d: nat, size: nat, top: nat, bottom: nat, t: nat, m: nat, f: nat)
    requires Around(d, size, top, bottom, t) && 0 < f < m && f == Low(m) && 8 * m + 2 < size
    ensures Next(top + 8 * m + 2, t) == top + 8 * m + 1
  {
    LowestOfEven8(m);
    LowestOfEven8(f);
    LowFalls(f);
    AroundLow(d, size, top, bottom, t, 8 * m + 2);
    AroundLow(d, size, top, bottom, t, 8 * m);
    AroundLow(d, size, top, bottom, t, 8 * f);
    EvensAbove(d, size, top, bottom, t, m);
    SkipEven(top + 8 * m + 2, top + 8 * m);
    SkipOdd(top + 8 * m, top + 8 * f, top + 8 * Low(f));
    Blocked(top + 8 * m + 2, t, top + 8 * m, top + 8 * Low(f) + 1);
  }

  /** Whatever the search does, it follows the pointer or goes one back. */
  lemma NextEither(d: nat, size: nat, top: nat, bottom: nat, t: nat, e: nat)
    requires Around(d, size, top, bottom, t) && 0 < e < size && e % 2 == 0
    ensures Next(top + e, t) == top + Low(e) || Next(top + e, t) == top + e - 1
  {
    EvenAbove(d, size, top, bottom, t, e);
    AroundLow(d, size, top, bottom, t, e);
    SkipEven(top + e, top + Low(e));
    By(top + e, t, top + Low(e), Skip(top + e - 1));
  }

  /** By way of the odd height below. */
  lemma FromBelow(d: nat, size: nat, top: nat, bottom: nat, t: nat, b: nat, e: nat)
    requires Around(d, size, top, bottom, t) && Lands(top, t, b) && e + 2 < size && e % 2 == 0
    ensures Steps(top + e + 1, t) <= 2 + d / 2 + b
  {
    AroundFacts(d, size, top, bottom, t);
    EvenOnesAtMost(e, d);
    FromOdd(d, size, top, bottom, t, b, e);
  }

  lemma EvenOnesAtMost(e: nat, d: nat)
    requires d > 0 && e < Pow2(d) && e % 2 == 0
    ensures Ones(e) <= d - 1
  {
    OnesAtMost(e / 2, d - 1);
  }

  /** From any even height. */
  lemma FromEven(d: nat, size: nat, top: nat, bottom: nat, t: nat, b: nat, m: nat, r: nat)
    requires Around(d, size, top, bottom, t) && Lands(top, t, b) && 8 * m + r < size && (r == 2 || r == 4 || r == 6)
    ensures Steps(top + 8 * m + r, t) <= 5 + d / 2 + b
  {
    if m == 0 {
      FromSmall(d, size, top, bottom, t, b, r);
    } else if r == 2 {
      FromTwo(d, size, top, bottom, t, b, m);
    } else {
      if r == 4 {
        NextFour(d, size, top, bottom, t, m);
      } else {
        NextSix(d, size, top, bottom, t, m);
      }
      Stepped(top + 8 * m + r, t, top + 8 * m + r - 1);
      Twice(8 * m + r - 2, 4 * m + if r == 4 then 1 else 2);
      FromBelow(d, size, top, bottom, t, b, 8 * m + r - 2);
    }
  }

  lemma FromTwo(d: nat, size: nat, top: nat, bottom: nat, t: nat, b: nat, m: nat)
    requires Around(d, size, top, bottom, t) && Lands(top, t, b) && 8 * m + 2 < size && m > 0
    ensures Steps(top + 8 * m + 2, t) <= 5 + d / 2 + b
  {
    var h := top + 8 * m + 2;
    TwoNext(d, size, top, bottom, t, m);
    Stepped(h, t, Next(h, t));
    if Next(h, t) == h - 1 {
      Even(m, 8 * m);
      FromBelow(d, size, top, bottom, t, b, 8 * m);
    } else {
      FromEight(d, size, top, bottom, t, b, m);
    }
  }

  lemma TwoNext(d: nat, size: nat, top: nat, bottom: nat, t: nat, m: nat)
    requires Around(d, size, top, bottom, t) && 8 * m + 2 < size && m > 0
    ensures Next(top + 8 * m + 2, t) == top + 8 * m + 1 || (Next(top + 8 * m + 2, t) == top + 8 * m && Ones(m) <= 1)
  {
    Even(m, 8 * m);
    NextEither(d, size, top, bottom, t, 8 * m + 2);
    LowestOfEven8(m);
    if Ones(m) >= 2 {
      OneFewer(m);
      NoOnes(Low(m));
      LowFalls(m);
      NextTwo(d, size, top, bottom, t, m, Low(m));
    }
  }

  lemma FromSmall(d: nat, size: nat, top: nat, bottom: nat, t: nat, b: nat, r: nat)
    requires Around(d, size, top, bottom, t) && Lands(top, t, b) && (r == 2 || r == 4 || r == 6)
    ensures Steps(top + r, t) <= 5 + b
  {
    if r == 2 {
      FromSmallTwo(d, size, top, bottom, t, b);
    } else {
      FromSmallFour(d, size, top, bottom, t, b);
      if r == 6 {
        FromSmallSix(d, size, top, bottom, t, b);
      }
    }
  }

  lemma SmallLows()
    ensures Low(2) == 0 && Low(4) == 0 && Low(6) == 4 && Ones(2) == 1 && Ones(4) == 1
  {
    LowestOfEven8(0);
  }

  lemma FromSmallTwo(d: nat, size: nat, top: nat, bottom: nat, t: nat, b: nat)
    requires Around(d, size, top, bottom, t) && Lands(top, t, b)
    ensures Steps(top + 2, t) <= 3 + b
  {
    AroundFacts(d, size, top, bottom, t);
    SmallLows();
    FromTop(d, size, top, bottom, t, b);
    FromOddNone(d, size, top, bottom, t, b);
    NextEither(d, size, top, bottom, t, 2);
    Stepped(top + 2, t, Next(top + 2, t));
  }

  lemma FromSmallFour(d: nat, size: nat, top: nat, bottom: nat, t: nat, b: nat)
    requires Around(d, size, top, bottom, t) && Lands(top, t, b)
    ensures Steps(top + 4, t) <= 4 + b
  {
    AroundFacts(d, size, top, bottom, t);
    SmallLows();
    FromTop(d, size, top, bottom, t, b);
    FromOddOne(d, size, top, bottom, t, b, 2);
    NextEither(d, size, top, bottom, t, 4);
    Stepped(top + 4, t, Next(top + 4, t));
  }

  lemma FromSmallSix(d: nat, size: nat, top: nat, bottom: nat, t: nat, b: nat)
    requires Around(d, size, top, bottom, t) && Lands(top, t, b) && Steps(top + 4, t) <= 4 + b
    ensures Steps(top + 6, t) <= 5 + b
  {
    AroundFacts(d, size, top, bottom, t);
    SmallLows();
    FromOddOne(d, size, top, bottom, t, b, 4);
    NextEither(d, size, top, bottom, t, 6);
    Stepped(top + 6, t, Next(top + 6, t));
  }

  // ------------------------------------------------------------------ the bound

  /** The most steps from an odd height to one that shares all but its k lowest bits. */
  function OddSteps(k: nat): nat
    requires k >= 3
  {
    if k == 3 then 4 else OddSteps(k - 1) + 2 + (k - 1) / 2
  }

  /** The most steps of all. */
  function MostSteps(k: nat): nat
    requires k >= 3
  {
    if k == 3 then 4 else 1 + OddSteps(k - 1) + if k - 4 > (k - 1) / 2 + 4 then k - 4 else (k - 1) / 2 + 4
  }

  /** The pointers of eight heights in a row. */
  lemma EightPointers(q: nat, p: nat)
    requires p == 8 * q
    ensures Skip(p + 7) == p + 1 && Skip(p + 6) == p + 4 && Skip(p + 4) == p && Skip(p + 2) == p
    ensures Skip(p + 5) == Low(p) + 1 && Skip(p + 3) == Low(p) + 1
  {
    LowestOfEven8(q);
    Even(q, p);
    SkipOdd(p + 6, p + 4, p);
    SkipEven(p + 6, p + 4);
    SkipOdd(p + 4, p, Low(p));
    SkipEven(p + 4, p);
    SkipOdd(p + 2, p, Low(p));
    SkipEven(p + 2, p);
  }

  lemma Even(q: nat, p: nat)
    requires p == 8 * q
    ensures p % 2 == 0 && (p + 2) % 2 == 0 && (p + 4) % 2 == 0 && (p + 6) % 2 == 0
  {
    Twice(p, 4 * q);
    Twice(p + 2, 4 * q + 1);
    Twice(p + 4, 4 * q + 2);
    Twice(p + 6, 4 * q + 3);
  }

  lemma OddPointers(q: nat, p: nat)
    requires p == 8 * q
    ensures if p == 0 then Low(p) == 0 else Low(p) + 1 < p && Skip(p + 1) < p
  {
    Even(q, p);
    LowestTwoBelow(p);
    LowFalls(p);
    LowFalls(Low(p));
    if p > 0 {
      SkipOdd(p, Low(p), Low(Low(p)));
    }
  }

  /** One step, as the two pointers say. */
  lemma StepBy(h: nat, t: nat, s: nat, before: nat)
    requires t < h && Skip(h) == s && Skip(h - 1) == before
    ensures Steps(h, t) == 1 + Steps(Choice(h, t, s, before), t)
  {
    By(h, t, s, before);
  }

  lemma ToThree(q: nat, p: nat, t: nat)
    requires p == 8 * q <= t
    ensures t <= p + 1 ==> Steps(p + 1, t) <= 1
    ensures t <= p + 2 ==> Steps(p + 2, t) <= 1
    ensures t <= p + 3 ==> Steps(p + 3, t) <= if t >= p + 2 then 1 else 2
  {
    EightPointers(q, p);
    OddPointers(q, p);
    if t == p {
      StepBy(p + 1, t, Skip(p + 1), Skip(p));
    }
    if t < p + 2 {
      StepBy(p + 2, t, p, Skip(p + 1));
    }
    if t < p + 3 {
      StepBy(p + 3, t, Low(p) + 1, p);
    }
  }

  lemma ToFive(q: nat, p: nat, t: nat)
    requires p == 8 * q <= t
    ensures t <= p + 4 ==> Steps(p + 4, t) <= if t >= p + 2 then 2 else 3
    ensures t <= p + 5 ==> Steps(p + 5, t) <= if t >= p + 2 then 3 else if p == 0 then 2 else 4
  {
    EightPointers(q, p);
    OddPointers(q, p);
    ToThree(q, p, t);
    if t < p + 4 {
      StepBy(p + 4, t, p, Low(p) + 1);
    }
    if t < p + 5 {
      StepBy(p + 5, t, Low(p) + 1, p);
    }
  }

  lemma ToSeven(q: nat, p: nat, t: nat)
    requires p == 8 * q <= t
    ensures t <= p + 6 ==> Steps(p + 6, t) <= if t >= p + 2 then 3 else 4
    ensures t <= p + 7 ==> Steps(p + 7, t) <= 4
  {
    EightPointers(q, p);
    OddPointers(q, p);
    ToThree(q, p, t);
    ToFive(q, p, t);
    if t < p + 6 {
      StepBy(p + 6, t, p + 4, Low(p) + 1);
    }
    if t < p + 7 {
      StepBy(p + 7, t, p + 1, p + 4);
    }
  }

  /** Within eight heights four steps do. */
  lemma WithinEight(q: nat, h: nat, t: nat)
    requires 8 * q <= t <= h < 8 * q + 8
    ensures Steps(h, t) <= 4
  {
    ToThree(q, 8 * q, t);
    ToFive(q, 8 * q, t);
    ToSeven(q, 8 * q, t);
  }

  /** Two heights of one block, in the same half or in both. */
  lemma Halves(q: nat, k: nat)
    requires k > 0
    ensures Shl(q, k) == Shl(2 * q, k - 1) && Shl(2 * q + 1, k - 1) == Shl(2 * q, k - 1) + Pow2(k - 1) && Pow2(k) == 2 * Pow2(k - 1)
  {
    LowestOfTop(q, k - 1);
    ShlDouble(q, k - 1);
  }

  lemma {:induction false} ShlDouble(q: nat, k: nat)
    ensures Shl(2 * q, k) == Shl(q, k + 1)
  {
    if k > 0 {
      ShlDouble(q, k - 1);
    }
  }

  lemma ShlThree(q: nat)
    ensures Shl(q, 3) == 8 * q && Pow2(3) == 8
  {
    assert Shl(q, 1) == 2 * q;
    assert Shl(q, 2) == 4 * q;
    assert Pow2(1) == 2;
    assert Pow2(2) == 4;
  }

  lemma {:induction false} OddBound(k: nat, q: nat, h: nat, t: nat)
    requires k >= 3 && Shl(q, k) <= t <= h < Shl(q, k) + Pow2(k) && (h % 2 == 1 || h == t)
    ensures Steps(h, t) <= OddSteps(k)
    decreases k, 0
  {
    if k == 3 {
      ShlThree(q);
      WithinEight(q, h, t);
    } else {
      Halves(q, k);
      var top := Shl(2 * q + 1, k - 1);
      if h < top {
        OddBound(k - 1, 2 * q, h, t);
      } else if t >= top {
        OddBound(k - 1, 2 * q + 1, h, t);
      } else {
        var bottom := Shl(2 * q, k - 1);
        IsAround(q, k - 1, t);
        LandsBound(k - 1, 2 * q, top, t);
        FromOddHeight(k - 1, Pow2(k - 1), top, bottom, t, OddSteps(k - 1), h);
      }
    }
  }

  lemma OddAbove(top: nat, h: nat)
    requires top <= h && top % 2 == 0 && h % 2 == 1
    ensures top < h && (h - top - 1) % 2 == 0
  {
  }

  lemma FromOddHeight(d: nat, size: nat, top: nat, bottom: nat, t: nat, b: nat, h: nat)
    requires Around(d, size, top, bottom, t) && Lands(top, t, b) && top <= h < top + size && h % 2 == 1
    ensures Steps(h, t) <= 2 + d / 2 + b
  {
    AroundFacts(d, size, top, bottom, t);
    var e := h - top - 1;
    OddAbove(top, h);
    EvenOnesAtMost(e, d);
    FromOdd(d, size, top, bottom, t, b, e);
  }

  lemma {:induction false} LandsBound(k: nat, q: nat, top: nat, t: nat)
    requires k >= 3 && Shl(q, k) <= t && top == Shl(q, k) + Pow2(k)
    ensures Lands(top, t, OddSteps(k))
    decreases k, 1
  {
    forall x: nat | t <= x < top && (x % 2 == 1 || x == t) ensures Steps(x, t) <= OddSteps(k) {
      OddBound(k, q, x, t);
    }
  }

  lemma MostGrows(k: nat)
    requires k > 3
    ensures MostSteps(k - 1) <= MostSteps(k) && OddSteps(k) <= MostSteps(k)
  {
  }

  lemma {:induction false} BlockBound(k: nat, q: nat, h: nat, t: nat)
    requires k >= 3 && Shl(q, k) <= t <= h < Shl(q, k) + Pow2(k)
    ensures Steps(h, t) <= MostSteps(k)
    decreases k
  {
    if k == 3 {
      ShlThree(q);
      WithinEight(q, h, t);
    } else {
      Halves(q, k);
      MostGrows(k);
      var top := Shl(2 * q + 1, k - 1);
      if h < top {
        BlockBound(k - 1, 2 * q, h, t);
      } else if t >= top {
        BlockBound(k - 1, 2 * q + 1, h, t);
      } else {
        LandsBound(k - 1, 2 * q, top, t);
        IsAround(q, k - 1, t);
        FromAny(k - 1, Pow2(k - 1), top, Shl(2 * q, k - 1), t, OddSteps(k - 1), h - top);
      }
    }
  }

  lemma FromAny(d: nat, size: nat, top: nat, bottom: nat, t: nat, b: nat, low: nat)
    requires Around(d, size, top, bottom, t) && Lands(top, t, b) && low < size
    ensures Steps(top + low, t) <= 1 + b + if d - 3 > d / 2 + 4 then d - 3 else d / 2 + 4
  {
    AroundFacts(d, size, top, bottom, t);
    if low % 2 == 1 {
      FromOddHeight(d, size, top, bottom, t, b, top + low);
    } else {
      var m, r := EightParts(low);
      if r == 0 {
        EightOnes(m, d);
        FromEight(d, size, top, bottom, t, b, m);
      } else {
        FromEven(d, size, top, bottom, t, b, m, r);
      }
    }
  }

  lemma EightParts(low: nat) returns (m: nat, r: nat)
    requires low % 2 == 0
    ensures low == 8 * m + r && (r == 0 || r == 2 || r == 4 || r == 6)
  {
    m, r := low / 8, low % 8;
  }

  lemma EightOnes(m: nat, d: nat)
    requires d >= 3 && 8 * m < Pow2(d)
    ensures Ones(m) <= d - 3
  {
    assert Pow2(d) == 2 * Pow2(d - 1) && Pow2(d - 1) == 2 * Pow2(d - 2) && Pow2(d - 2) == 2 * Pow2(d - 3);
    OnesAtMost(m, d - 3);
  }

  /** From any height up to 2^k to any one below. */
  lemma StepsBound(k: nat, h: nat, t: nat)
    requires k >= 4 && t <= h <= Pow2(k)
    ensures Steps(h, t) <= MostSteps(k)
  {
    ShlZero(k);
    if h < Pow2(k) {
      BlockBound(k, 0, h, t);
    } else if t < h {
      Pow2IsShl(k);
      LandsBound(k, 0, h, t);
      IsAround(0, k, t);
      FromTop(k, Pow2(k), h, 0, t, OddSteps(k));
    }
  }

  // ------------------------------------------------------------ and it is reached

  lemma {:induction false} OnesOfAllOnes(k: nat)
    ensures Ones(Pow2(k) - 1) == k
  {
    if k > 0 {
      OnesOfAllOnes(k - 1);
    }
  }

  lemma SevenToTwo()
    ensures Steps(7, 2) == 4
  {
    EightPointers(0, 0);
    OddPointers(0, 0);
    StepBy(3, 2, 1, 0);
    StepBy(4, 2, 0, 1);
    StepBy(6, 2, 4, 1);
    StepBy(7, 2, 1, 4);
  }

  /** The upper half of the heights below 2^(d+1). */
  lemma UpperHalf(d: nat, n: nat)
    requires d >= 3 && n == Pow2(d)
    ensures n >= 8 && n % 2 == 0 && Around(d, n, n, 0, 2) && Lands(n, 2, OddSteps(d))
  {
    ShlZero(d);
    Pow2IsShl(d);
    EightTimes(0, d);
    Twice(n, 4 * Pow2(d - 3));
    IsAround(0, d, 2);
    LandsBound(d, 0, n, 2);
  }

  lemma OnesBeforeLast(d: nat, n: nat)
    requires d >= 3 && n == Pow2(d)
    ensures n >= 2 && Ones(n - 2) == d - 1
  {
    OnesOfAllOnes(d - 1);
    var m := Pow2(d - 1) - 1;
    assert n - 2 == m + m && (m + m) / 2 == m;
  }

  lemma {:induction false} OddReached(k: nat)
    requires k >= 3
    ensures Pow2(k) >= 8 && Steps(Pow2(k) - 1, 2) == OddSteps(k)
  {
    if k == 3 {
      ShlThree(0);
      SevenToTwo();
    } else {
      OddReached(k - 1);
      OneBitMore(k - 1, Pow2(k - 1));
    }
  }

  lemma OneBitMore(d: nat, n: nat)
    requires d >= 3 && n == Pow2(d) >= 8 && Steps(n - 1, 2) == OddSteps(d)
    ensures Steps(2 * n - 1, 2) == OddSteps(d + 1)
  {
    UpperHalf(d, n);
    OnesBeforeLast(d, n);
    FromAllOnes(d, n, OddSteps(d));
  }

  lemma FromAllOnes(d: nat, n: nat, b: nat)
    requires Around(d, n, n, 0, 2) && Lands(n, 2, b) && n >= 8 && n % 2 == 0 && Ones(n - 2) == d - 1 && Steps(n - 1, 2) == b
    ensures Steps(2 * n - 1, 2) == 2 + d / 2 + b
  {
    FromOdd(d, n, n, 0, 2, b, n - 2);
  }

  /** No fewer steps will do: from 2^k - 8 to height 2 the search takes them all. */
  lemma StepsReached(k: nat, n: nat)
    requires k >= 15 && n == Pow2(k)
    ensures n >= 10 && Steps(n - 8, 2) == MostSteps(k)
  {
    OddReached(k - 1);
    MostFromEven(k);
    TwiceReached(k - 1, Pow2(k - 1));
  }

  lemma MostFromEven(k: nat)
    requires k >= 15
    ensures MostSteps(k) == k - 3 + OddSteps(k - 1)
  {
  }

  lemma TwiceReached(d: nat, n: nat)
    requires d >= 3 && n == Pow2(d) >= 8 && Steps(n - 1, 2) == OddSteps(d)
    ensures Pow2(d + 1) == 2 * n && Steps(2 * n - 8, 2) == d - 2 + OddSteps(d)
  {
    OneZeroMore(d, n, Pow2(d - 3));
  }

  lemma OneZeroMore(d: nat, n: nat, e: nat)
    requires d >= 3 && n == Pow2(d) >= 8 && e == Pow2(d - 3) && Steps(n - 1, 2) == OddSteps(d)
    ensures Steps(2 * n - 8, 2) == d - 2 + OddSteps(d)
  {
    OnesBelow(d, n, e);
    UpperHalf(d, n);
    FromOnes(d, n, e - 1, OddSteps(d));
  }

  lemma OnesBelow(d: nat, n: nat, e: nat)
    requires d >= 3 && n == Pow2(d) && e == Pow2(d - 3)
    ensures n == 8 * (e - 1) + 8 && Ones(e - 1) == d - 3
  {
    OnesOfAllOnes(d - 3);
    EightTimes(0, d);
  }

  lemma FromOnes(d: nat, n: nat, m: nat, b: nat)
    requires Around(d, n, n, 0, 2) && Lands(n, 2, b) && n == 8 * m + 8 && Ones(m) == d - 3 && Steps(n - 1, 2) == b
    ensures Steps(2 * n - 8, 2) == d - 2 + b
  {
    FromEight(d, n, n, 0, 2, b, m);
  }

  lemma Quarters(n: nat)
    requires n > 0
    ensures n * n / 4 == (n - 1) * (n - 1) / 4 + n / 2
  {
    if n % 2 == 0 {
      Squares(n / 2);
      Squares(n / 2 - 1);
    } else {
      Squares(n / 2);
    }
  }

  lemma Squares(j: nat)
    ensures (2 * j) * (2 * j) / 4 == j * j && (2 * j + 1) * (2 * j + 1) / 4 == j * j + j && (j + 1) * (j + 1) == j * j + j + j + 1
  {
    assert (2 * j) * (2 * j) == 4 * (j * j);
    assert (2 * j + 1) * (2 * j + 1) == 4 * (j * j + j) + 1;
  }

  lemma {:induction false} OddStepsIs(k: nat)
    requires k >= 3
    ensures OddSteps(k) == 2 * k - 3 + (k - 1) * (k - 1) / 4
  {
    if k > 3 {
      OddStepsIs(k - 1);
      Quarters(k - 1);
    }
  }

  /** The number grows with the square of the bits. */
  lemma MostStepsIs(k: nat)
    requires k >= 15
    ensures MostSteps(k) == 3 * k - 8 + (k - 2) * (k - 2) / 4
  {
    OddStepsIs(k - 1);
  }

  /** So from up to 2^18 blocks the greatest number of steps is 110. */
  lemma EighteenBits(h: nat, t: nat)
    requires t <= h <= 0x4_0000
    ensures Steps(h, t) <= 110 && Steps(0x4_0000 - 8, 2) == 110
  {
    assert Pow2(9) == 0x200 && Pow2(18) == 0x4_0000;
    MostStepsIs(18);
    StepsBound(18, h, t);
    StepsReached(18, 0x4_0000);
  }
}
