/**
 The request for missing transactions: a list of 16-bit positions, sent as differences.
 */
module CompactRequest {
  import opened Wrappers
  import opened CompactBlocks

  const WORD64 := 0x1_0000_0000_0000_0000

  /** How far a position lies beyond the one after the previous one, in 64 bits. */
  function Gap(indexes: seq<nat>, i: nat): nat
    requires i < |indexes|
  {
    (indexes[i] as int - if i == 0 then 0 else indexes[i - 1] as int + 1) % WORD64
  }

  /** A list of positions to ask for, written as differences. */
  function Differences(indexes: seq<nat>, i: nat): seq<nat>
    requires i <= |indexes|
    decreases |indexes| - i
  {
    if i == |indexes| then [] else [Gap(indexes, i)] + Differences(indexes, i + 1)
  }

  method WriteIndexes(indexes: seq<nat>) returns (out: seq<nat>)
    ensures out == Differences(indexes, 0)
  {
    out := [];
    for i := 0 to |indexes|
      invariant out + Differences(indexes, i) == Differences(indexes, 0)
    {
      out := out + [Gap(indexes, i)];
    }
  }

  lemma {:induction false} DifferenceAt(indexes: seq<nat>, i: nat, j: nat)
    requires i <= j < |indexes|
    ensures |Differences(indexes, i)| == |indexes| - i
    ensures Differences(indexes, i)[j - i] == Gap(indexes, j)
    decreases |indexes| - i
  {
    if i < j {
      DifferenceAt(indexes, i + 1, j);
    } else if i + 1 < |indexes| {
      DifferenceAt(indexes, i + 1, i + 1);
    }
  }

  lemma DifferencesAre(indexes: seq<nat>)
    ensures |Differences(indexes, 0)| == |indexes| && forall j | 0 <= j < |indexes| :: Differences(indexes, 0)[j] == Gap(indexes, j)
  {
    forall j | 0 <= j < |indexes| ensures |Differences(indexes, 0)| == |indexes| && Differences(indexes, 0)[j] == Gap(indexes, j) {
      DifferenceAt(indexes, 0, j);
    }
  }

  /** Positions of 16 bits. */
  ghost predicate Short(indexes: seq<nat>) { forall i | 0 <= i < |indexes| :: indexes[i] <= MAX_INDEX }

  /** A list of positions as a request may hold. */
  ghost predicate Request(indexes: seq<nat>) { Increasing(indexes) && Short(indexes) }

  /** Where the next number counts on: behind the position before, in 16 bits. */
  function Offset(indexes: seq<nat>, j: nat): nat
    requires j <= |indexes|
  {
    if j == 0 then 0 else Low16(indexes[j - 1] + 1)
  }

  /** Position j as reading makes it. */
  ghost predicate DecodesAt(numbers: seq<nat>, indexes: seq<nat>, j: nat)
    requires j < |numbers| == |indexes|
  {
    indexes[j] <= MAX_INDEX && indexes[j] == numbers[j] + Offset(indexes, j)
  }

  /** A list as reading makes it. */
  ghost predicate Decodes(numbers: seq<nat>, indexes: seq<nat>) {
    |indexes| == |numbers| && forall j | 0 <= j < |numbers| :: DecodesAt(numbers, indexes, j)
  }

  /** One number more. */
  lemma DecodesOn(numbers: seq<nat>, indexes: seq<nat>, n: nat)
    requires n < |numbers| == |indexes|
    ensures Decodes(numbers[..n + 1], indexes[..n + 1]) <==> Decodes(numbers[..n], indexes[..n]) && DecodesAt(numbers, indexes, n)
  {
    var f, g, f', g' := numbers[..n], indexes[..n], numbers[..n + 1], indexes[..n + 1];
    assert n > 0 ==> g'[n - 1] == indexes[n - 1];
    assert DecodesAt(f', g', n) <==> DecodesAt(numbers, indexes, n);
    forall j | 0 <= j < n ensures DecodesAt(f', g', j) <==> DecodesAt(f, g, j) {
      assert j > 0 ==> g[j - 1] == g'[j - 1];
    }
    if Decodes(f, g) && DecodesAt(numbers, indexes, n) {
      forall j | 0 <= j < n + 1 ensures DecodesAt(f', g', j) {
        assert j < n ==> DecodesAt(f, g, j);
      }
    }
    if Decodes(f', g') {
      forall j | 0 <= j < n ensures DecodesAt(f, g, j) {
        assert DecodesAt(f', g', j);
      }
    }
  }

  /** Reading, with every number and sum checked to fit in 16 bits: it fails exactly when no list can come out. */
  method ReadIndexes(numbers: seq<nat>) returns (r: Option<seq<nat>>)
    ensures r.Some? ==> Decodes(numbers, r.value)
    ensures r.None? ==> forall indexes :: !Decodes(numbers, indexes)
  {
    var indexes: seq<nat> := [];
    var offset: nat := 0;
    for j := 0 to |numbers|
      invariant Decodes(numbers[..j], indexes) && offset == Offset(indexes, j)
    {
      if numbers[j] > MAX_INDEX || numbers[j] + offset > MAX_INDEX {
        NoFurther(numbers, indexes, j);
        return None;
      }
      ReadOne(numbers, indexes, j);
      indexes := indexes + [numbers[j] + offset];
      offset := Low16(indexes[j] + 1);
    }
    assert numbers[..|numbers|] == numbers;
    r := Some(indexes);
  }

  lemma ReadOne(numbers: seq<nat>, indexes: seq<nat>, j: nat)
    requires j < |numbers| && Decodes(numbers[..j], indexes) && numbers[j] + Offset(indexes, j) <= MAX_INDEX
    ensures Decodes(numbers[..j + 1], indexes + [numbers[j] + Offset(indexes, j)])
  {
    var now := indexes + [numbers[j] + Offset(indexes, j)];
    var front := numbers[..j + 1];
    DecodesOn(front, now, j);
    assert front[..j] == numbers[..j] && now[..j] == indexes && front[..j + 1] == front && now[..j + 1] == now;
  }

  lemma NoFurther(numbers: seq<nat>, indexes: seq<nat>, j: nat)
    requires j < |numbers| && Decodes(numbers[..j], indexes)
    ensures forall other | Decodes(numbers, other) :: numbers[j] + Offset(indexes, j) <= MAX_INDEX
  {
    forall other | Decodes(numbers, other) ensures numbers[j] + Offset(indexes, j) <= MAX_INDEX {
      RoomForNext(numbers, other, indexes, j);
    }
  }

  lemma RoomForNext(numbers: seq<nat>, other: seq<nat>, indexes: seq<nat>, j: nat)
    requires j < |numbers| && Decodes(numbers, other) && Decodes(numbers[..j], indexes)
    ensures numbers[j] + Offset(indexes, j) <= MAX_INDEX
  {
    DecodesOne(numbers, other, indexes, j);
    assert j > 0 ==> other[j - 1] == other[..j][j - 1];
    assert DecodesAt(numbers, other, j);
  }

  /** At most one list comes out, however far the reading got. */
  lemma {:induction false} DecodesOne(numbers: seq<nat>, a: seq<nat>, b: seq<nat>, n: nat)
    requires n <= |numbers| && Decodes(numbers, a) && Decodes(numbers[..n], b)
    ensures b == a[..n]
  {
    if n > 0 {
      var front := numbers[..n];
      DecodesOn(front, b, n - 1);
      assert front[..n] == front && b[..n] == b && front[..n - 1] == numbers[..n - 1];
      DecodesOne(numbers, a, b[..n - 1], n - 1);
      assert n > 1 ==> b[n - 2] == b[..n - 1][n - 2] == a[..n - 1][n - 2] == a[n - 2];
      assert DecodesAt(numbers, a, n - 1) && b[n - 1] == a[n - 1];
      assert b == b[..n - 1] + [b[n - 1]] && a[..n] == a[..n - 1] + [a[n - 1]];
    }
  }

  /** Writing and reading undo each other on every request: its differences, and no other numbers, are read as it. */
  lemma RequestRoundTrip(numbers: seq<nat>, written: seq<nat>)
    requires Request(written)
    ensures Decodes(numbers, written) <==> numbers == Differences(written, 0)
  {
    DifferencesAre(written);
    if |numbers| == |written| {
      forall j | 0 <= j < |written| ensures DecodesAt(numbers, written, j) <==> numbers[j] == Differences(written, 0)[j] {
        GapIs(written, j);
      }
      assert numbers == Differences(written, 0) <==> forall j | 0 <= j < |written| :: numbers[j] == Differences(written, 0)[j];
    }
  }

  /** Where positions increase nothing is cut off, and nowhere else does the difference fit in 16 bits. */
  lemma GapIs(indexes: seq<nat>, j: nat)
    requires Short(indexes) && j < |indexes|
    ensures if j > 0 && indexes[j - 1] >= indexes[j] then Gap(indexes, j) > MAX_INDEX else indexes[j] == Gap(indexes, j) + Offset(indexes, j)
  {
    var before: int := if j == 0 then 0 else indexes[j - 1] + 1;
    var d := indexes[j] - before;
    assert d >= 0 ==> d % WORD64 == d;
    assert d < 0 ==> d % WORD64 == d + WORD64;
  }

  /** Of all lists of 16-bit positions exactly the requests can be read again once they are written; a position that does not
      lie beyond the one before is written as a number of 64 bits. */
  lemma Readable(written: seq<nat>, read: seq<nat>)
    requires Short(written)
    ensures Decodes(Differences(written, 0), read) <==> Increasing(written) && read == written
  {
    var numbers := Differences(written, 0);
    if Increasing(written) {
      RequestRoundTrip(numbers, written);
      if Decodes(numbers, read) {
        OnlyOne(numbers, read, written);
      }
    } else {
      NotReadable(written, numbers, read);
    }
  }

  lemma NotReadable(written: seq<nat>, numbers: seq<nat>, read: seq<nat>)
    requires Short(written) && !Increasing(written) && numbers == Differences(written, 0)
    ensures !Decodes(numbers, read)
  {
    var j := Descent(written);
    DifferencesAre(written);
    assert numbers[j] == Gap(written, j);
    GapIs(written, j);
    FitsWhenRead(numbers, read, j);
  }

  lemma FitsWhenRead(numbers: seq<nat>, read: seq<nat>, j: nat)
    requires j < |numbers|
    ensures Decodes(numbers, read) ==> numbers[j] <= MAX_INDEX
  {
    if Decodes(numbers, read) {
      assert DecodesAt(numbers, read, j);
    }
  }

  lemma OnlyOne(numbers: seq<nat>, a: seq<nat>, b: seq<nat>)
    requires Decodes(numbers, a) && Decodes(numbers, b)
    ensures a == b
  {
    assert numbers[..|numbers|] == numbers && a[..|numbers|] == a;
    DecodesOne(numbers, a, b, |numbers|);
  }

  /** A position that does not lie beyond the one before. */
  lemma Descent(s: seq<nat>) returns (j: nat)
    requires !Increasing(s)
    ensures 0 < j < |s| && s[j - 1] >= s[j]
  {
    if forall j | 0 < j < |s| :: s[j - 1] < s[j] {
      StepsIncrease(s);
    }
    j :| 0 < j < |s| && s[j - 1] >= s[j];
  }

  lemma {:induction false} StepsIncrease(s: seq<nat>)
    requires forall j | 0 < j < |s| :: s[j - 1] < s[j]
    ensures Increasing(s)
  {
    if |s| > 0 {
      var front := s[..|s| - 1];
      StepsIncrease(front);
      forall i, j | 0 <= i < j < |s| ensures s[i] < s[j] {
        assert i < |s| - 2 ==> front[i] < front[|s| - 2];
        assert j < |s| - 1 ==> front[i] < front[j];
      }
    }
  }

  // ------------------------------------------------------- what is read is a request

  function Total(numbers: seq<nat>): nat { if numbers == [] then 0 else Total(numbers[..|numbers| - 1]) + numbers[|numbers| - 1] }

  /** What is read is a request exactly when the numbers received leave room for the last position; otherwise one of them has
      passed position 65535, and counting starts again from zero. */
  lemma {:induction false} ReadIsRequest(numbers: seq<nat>, indexes: seq<nat>)
    requires Decodes(numbers, indexes)
    ensures Request(indexes) <==> Total(numbers) + |numbers| <= MAX_INDEX + 1
    ensures Request(indexes) && indexes != [] ==> indexes[|indexes| - 1] == Total(numbers) + |numbers| - 1
  {
    if numbers != [] {
      var n := |numbers| - 1;
      var front := indexes[..n];
      DecodesOn(numbers, indexes, n);
      assert numbers[..n + 1] == numbers && indexes[..n + 1] == indexes && indexes == front + [indexes[n]];
      ReadIsRequest(numbers[..n], front);
      assert n > 0 ==> front[n - 1] == indexes[n - 1];
      OneMoreIndex(front, indexes[n]);
      LastFits(numbers, indexes, n, Total(numbers[..n]));
    }
  }

  lemma LastFits(numbers: seq<nat>, indexes: seq<nat>, n: nat, total: nat)
    requires n < |numbers| == |indexes| && DecodesAt(numbers, indexes, n)
    requires n == 0 ==> total == 0
    ensures n > 0 && indexes[n - 1] == total + n - 1 <= MAX_INDEX ==> (indexes[n - 1] < indexes[n] <==> total + numbers[n] + n + 1 <= MAX_INDEX + 1)
    ensures n > 0 && indexes[n - 1] == total + n - 1 <= MAX_INDEX && indexes[n - 1] < indexes[n] ==> indexes[n] == total + numbers[n] + n
    ensures n == 0 ==> indexes[n] == numbers[n]
  {
    assert Low16(MAX_INDEX + 1) == 0;
  }

  /** So position 65535 stands only last. */
  lemma LastStandsLast(numbers: seq<nat>, indexes: seq<nat>)
    requires Decodes(numbers, indexes)
    ensures Request(indexes) <==> forall j | 0 <= j < |indexes| - 1 :: indexes[j] != MAX_INDEX
  {
    if forall j | 0 <= j < |indexes| - 1 :: indexes[j] != MAX_INDEX {
      forall j | 0 < j < |indexes| ensures indexes[j - 1] < indexes[j] {
        assert DecodesAt(numbers, indexes, j) && DecodesAt(numbers, indexes, j - 1);
      }
      StepsIncrease(indexes);
      forall j | 0 <= j < |indexes| ensures indexes[j] <= MAX_INDEX {
        assert DecodesAt(numbers, indexes, j);
      }
    } else {
      var j :| 0 <= j < |indexes| - 1 && indexes[j] == MAX_INDEX;
      assert DecodesAt(numbers, indexes, j + 1);
      assert !(indexes[j] < indexes[j + 1]);
    }
  }

  lemma OneMoreIndex(front: seq<nat>, x: nat)
    requires x <= MAX_INDEX
    ensures Request(front + [x]) <==> Request(front) && (front != [] ==> front[|front| - 1] < x)
  {
    var s := front + [x];
    if Request(s) {
      forall i, j | 0 <= i < j < |front| ensures front[i] < front[j] {
        assert s[i] < s[j];
      }
      forall i | 0 <= i < |front| ensures front[i] <= MAX_INDEX {
        assert s[i] <= MAX_INDEX;
      }
      assert front != [] ==> s[|front| - 1] < s[|front|];
    }
  }

  /** Two numbers that pass position 65535 are read as two positions that do not increase. */
  lemma PassesLast()
    ensures Decodes([MAX_INDEX, 0], [MAX_INDEX, 0]) && !Request([MAX_INDEX, 0])
  {
    assert Low16(MAX_INDEX + 1) == 0;
    var s := [MAX_INDEX, 0];
    assert DecodesAt(s, s, 0) && DecodesAt(s, s, 1);
    assert !(s[0] < s[1]);
  }
}
