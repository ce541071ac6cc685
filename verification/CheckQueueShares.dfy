/**
 How the verification queue shares out its work: the size and order of a batch, who is woken for it, and what is still
 evaluated once a check has failed.
 */
module CheckQueueShares {
  import opened Nonlinear
  import opened CheckQueue

  /** A batch is the greatest one within the limit and a fair share of the queue, counting the idle threads, which will help at
      once, twice; but it is never empty. */
  lemma BatchExactly(s: State, n: int)
    requires s.nTotal + s.nIdle + 1 > 0
    ensures var shares := s.nTotal + s.nIdle + 1;
      BatchLength(s) == n <==>
        && n >= 1 && (n > 1 ==> n <= s.batchSize && n * shares <= |s.queue|)
        && (n + 1 <= s.batchSize ==> (n + 1) * shares > |s.queue|)
  {
    var shares := s.nTotal + s.nIdle + 1;
    var q := Quotient(|s.queue|, shares);
    QuotientBounds(|s.queue|, shares);
    MulSum(q, 1, shares);
    if n >= 1 {
      ShareIff(|s.queue|, shares, q, n);
      ShareIff(|s.queue|, shares, q, n + 1);
    }
  }

  lemma ShareIff(a: nat, b: nat, q: nat, n: nat)
    requires b > 0 && q * b <= a < q * b + b
    ensures n * b <= a <==> n <= q
  {
    if n <= q {
      MulMonotone(n, q, b);
    } else {
      MulMonotone(q + 1, n, b);
      MulSum(q, 1, b);
    }
  }

  /** A batch is taken from the end of the queue, the last check first. */
  lemma {:induction false} PoppedAt(queue: seq<Check>, n: nat, k: nat)
    requires k < n <= |queue|
    ensures Popped(queue, n)[k] == queue[|queue| - 1 - k]
  {
    if k < n - 1 {
      PoppedAt(queue, n - 1, k);
    }
  }

  /** Added checks go to the end; two or more wake every worker that waits, one the worker picked, none nobody; the master and
      those at work are not disturbed. */
  lemma AddWakes(s: State, checks: seq<Check>, wake: nat, i: nat)
    requires i < |s.threads|
    ensures var s' := Added(s, checks, wake);
      && s'.queue == s.queue + checks && |s'.threads| == |s.threads|
      && s'.threads[i] ==
         if s.threads[i].Waiting? && i != MASTER && (|checks| >= 2 || (|checks| == 1 && i == wake)) then Waiting(true) else s.threads[i]
  {
  }

  // ------------------------------------------------------------- after a failure

  /** What a thread that knows of no failure may still evaluate. */
  function Hope(t: Thread): int { if t.Working? && t.ok && t.done <= |t.batch| then |t.batch| - t.done else 0 }

  function Hopes(s: State): int { Total(s.threads, Hope) }

  /** Once the queue knows of a failure, what is taken from it is taken only to be skipped. */
  lemma LockHopes(s: State, i: nat)
    requires Inv(s) && !s.allOk && Enabled(s, Lock(i)) && !Returns(s, i)
    ensures var s' := Locked(s, i); !s'.allOk && s'.log == s.log && Hopes(s') == Hopes(s)
  {
    var t := Locked(s, i).threads[i];
    LockKeepsHistory(s, i);
    LockChanges(s, i);
    LockTotal(s, i, Hope, t);
    if s.queue != [] {
      DecideOk(s, i);
    }
  }

  lemma EvaluateHopes(s: State, i: nat, result: bool)
    requires Inv(s) && !s.allOk && Enabled(s, Evaluate(i, result))
    ensures var s' := Evaluated(s, i, result); !s'.allOk && |s'.log| + Hopes(s') <= |s.log| + Hopes(s)
  {
    TotalUpdate(s.threads, Hope, i, Evaluated(s, i, result).threads[i]);
  }

  /** No step of the run lets Wait return. */
  ghost predicate NoReturn(s: State, steps: seq<Step>)
    requires Inv(s)
    decreases |steps|
  {
    steps == [] ||
    (if Enabled(s, steps[0]) then !(steps[0].Lock? && Returns(s, steps[0].thread)) && NoReturn(Next(s, steps[0]), steps[1..])
     else NoReturn(s, steps[1..]))
  }

  /** So in every interleaving up to the verdict no more checks are evaluated than threads already had in hand. */
  lemma {:induction false} AfterFailure(s: State, steps: seq<Step>)
    requires Inv(s) && !s.allOk && NoReturn(s, steps)
    ensures |Run(s, steps).log| <= |s.log| + Hopes(s)
    decreases |steps|
  {
    if steps == [] {
      TotalTerms(s.threads, Hope);
    } else if Enabled(s, steps[0]) {
      match steps[0]
      case Add(checks, wake) =>
        AddTotal(s, checks, wake, Hope);
        AfterFailure(Next(s, steps[0]), steps[1..]);
      case Lock(i) =>
        LockHopes(s, i);
        AfterFailure(Next(s, steps[0]), steps[1..]);
      case Evaluate(i, result) =>
        EvaluateHopes(s, i, result);
        AfterFailure(Next(s, steps[0]), steps[1..]);
    } else {
      AfterFailure(s, steps[1..]);
    }
  }
}
