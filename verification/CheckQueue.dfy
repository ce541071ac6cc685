/**
 The verification queue (CCheckQueue): one master and any number of workers sharing a stack of checks.

 Each critical section of Loop, and each evaluation of a check outside the lock, is one step; steps of
 different threads interleave in any order and a blocked thread may wake spuriously.  Thread 0 is the
 master.  A check is named by a number; what evaluating it returns is part of the step.
 */
module CheckQueue {
  import opened Counting
  import opened Nonlinear

  type Check = int

  /** Where a thread is. */
  datatype Thread =
    | Outside                                           // not in Loop
    | Waiting(notified: bool)                           // blocked on its condition variable
    | Working(batch: seq<Check>, done: nat, ok: bool)     // past the lock, with its own batch

  /** A check that has been evaluated, with the result. */
  datatype Outcome = Outcome(check: Check, result: bool)

  /** The queue's fields, its threads and, since the last Wait returned, what was added, evaluated and skipped. */
  datatype State = State(
    batchSize: nat,
    queue: seq<Check>,
    nIdle: int,
    nTotal: int,
    allOk: bool,
    nTodo: int,
    threads: seq<Thread>,
    added: multiset<Check>,
    log: seq<Outcome>,
    skipped: multiset<Check>)

  const MASTER := 0

  // ------------------------------------------------------- sums over threads

  function Total(ts: seq<Thread>, f: Thread -> int): int {
    if ts == [] then 0 else Total(ts[..|ts| - 1], f) + f(ts[|ts| - 1])
  }

  function Held(t: Thread): int { if t.Working? then |t.batch| else 0 }

  function InLoop(t: Thread): int { if t.Outside? then 0 else 1 }

  function Idle(t: Thread): int { if t.Waiting? then 1 else 0 }

  lemma {:induction false} TotalUpdate(ts: seq<Thread>, f: Thread -> int, i: nat, t: Thread)
    requires i < |ts|
    ensures Total(ts[i := t], f) == Total(ts, f) - f(ts[i]) + f(t)
  {
    var n := |ts| - 1;
    if i == n {
      assert ts[i := t][..n] == ts[..n];
    } else {
      assert ts[i := t][..n] == ts[..n][i := t];
      TotalUpdate(ts[..n], f, i, t);
    }
  }

  /** A non-negative sum bounds each of its terms, and a positive one has a positive term. */
  lemma {:induction false} TotalTerms(ts: seq<Thread>, f: Thread -> int)
    requires forall i | 0 <= i < |ts| :: f(ts[i]) >= 0
    ensures forall i | 0 <= i < |ts| :: f(ts[i]) <= Total(ts, f)
    ensures Total(ts, f) >= 0
    ensures Total(ts, f) > 0 ==> exists i :: 0 <= i < |ts| && f(ts[i]) > 0
  {
    if ts != [] {
      var n := |ts| - 1;
      TotalTerms(ts[..n], f);
      forall i | 0 <= i < |ts| ensures f(ts[i]) <= Total(ts, f) {
        if i < n {
          assert ts[..n][i] == ts[i];
        }
      }
      if Total(ts, f) > 0 && f(ts[n]) <= 0 {
        var i :| 0 <= i < n && f(ts[..n][i]) > 0;
        assert f(ts[i]) > 0;
      }
    }
  }

  /** How often a check is among those a thread has yet to handle. */
  function Left(c: Check): Thread -> int {
    (t: Thread) => if t.Working? && t.done <= |t.batch| then Count(t.batch[t.done..], c) else 0
  }

  /** The checks evaluated, with repetitions. */
  function Ran(log: seq<Outcome>): multiset<Check> {
    if log == [] then multiset{} else Ran(log[..|log| - 1]) + multiset{log[|log| - 1].check}
  }

  predicate Failed(log: seq<Outcome>) { exists i | 0 <= i < |log| :: !log[i].result }

  // ------------------------------------------------------------------- steps

  datatype Step =
    | Add(checks: seq<Check>, wake: nat)      // the master adds checks; wake names the worker notify_one picks
    | Lock(thread: nat)                     // a thread runs through a critical section of Loop
    | Evaluate(thread: nat, result: bool)   // a thread handles the next check of its batch

  function Max(a: int, b: int): int { if a < b then b else a }

  function Min(a: int, b: int): int { if a < b then a else b }

  /** How many checks a thread takes from the queue at once. */
  function BatchLength(s: State): int
    requires s.nTotal + s.nIdle + 1 > 0
  {
    Max(1, Min(s.batchSize, Quotient(|s.queue|, s.nTotal + s.nIdle + 1)))
  }

  /** The last n checks, last first: the order in which popping the stack yields them. */
  function Popped(queue: seq<Check>, n: nat): (r: seq<Check>)
    requires n <= |queue|
    ensures |r| == n
  {
    if n == 0 then [] else Popped(queue, n - 1) + [queue[|queue| - n]]
  }

  lemma {:induction false} PoppedKeeps(queue: seq<Check>, n: nat, c: Check)
    requires n <= |queue|
    ensures Count(queue, c) == Count(queue[..|queue| - n], c) + Count(Popped(queue, n), c)
  {
    if n == 0 {
      assert queue[..|queue|] == queue;
    } else {
      PoppedKeeps(queue, n - 1, c);
      var rest, x := queue[..|queue| - n], queue[|queue| - n];
      CountAppend(rest, x, c);
      CountAppend(Popped(queue, n - 1), x, c);
      assert queue[..|queue| - (n - 1)] == rest + [x];
    }
  }

  /** The state before the loop head of a critical section: the previous batch is accounted for. */
  function Settle(s: State, i: nat): State
    requires i < |s.threads|
  {
    match s.threads[i]
    case Outside => s.(nTotal := s.nTotal + 1)
    case Waiting(_) => s.(nIdle := s.nIdle - 1)
    case Working(batch, done, ok) =>
      var s1 := s.(allOk := s.allOk && ok, nTodo := s.nTodo - |batch|);
      if s1.nTodo == 0 && i != MASTER && s.threads[MASTER].Waiting?
      then s1.(threads := s.threads[MASTER := Waiting(true)]) else s1
  }

  /** The loop head: return, block, or take a batch. */
  function Decide(s: State, i: nat): State
    requires i < |s.threads| && (s.queue != [] ==> s.nTotal + s.nIdle + 1 > 0 && BatchLength(s) <= |s.queue|)
  {
    if s.queue == [] then
      if i == MASTER && s.nTodo == 0 then
        s.(nTotal := s.nTotal - 1, allOk := true, threads := s.threads[i := Outside],
           added := multiset{}, log := [], skipped := multiset{})
      else s.(nIdle := s.nIdle + 1, threads := s.threads[i := Waiting(false)])
    else
      var n := BatchLength(s);
      s.(queue := s.queue[..|s.queue| - n], threads := s.threads[i := Working(Popped(s.queue, n), 0, s.allOk)])
  }

  /** Wait is about to return its verdict. */
  predicate Returns(s: State, i: nat)
    requires i < |s.threads|
  {
    i == MASTER && s.queue == [] && Settle(s, i).nTodo == 0
  }

  function NotifyAll(ts: seq<Thread>): (r: seq<Thread>)
    ensures |r| == |ts|
    ensures forall i | 0 <= i < |ts| :: r[i] == if i != MASTER && ts[i].Waiting? then Waiting(true) else ts[i]
  {
    if |ts| <= 1 then ts
    else
      var last := ts[|ts| - 1];
      NotifyAll(ts[..|ts| - 1]) + [if last.Waiting? then Waiting(true) else last]
  }

  function NotifyOne(ts: seq<Thread>, wake: nat): seq<Thread> {
    if 0 < wake < |ts| && ts[wake].Waiting? then ts[wake := Waiting(true)] else ts
  }

  predicate Enabled(s: State, step: Step) {
    match step
    case Add(_, _) => |s.threads| > 0 && s.threads[MASTER].Outside?
    case Lock(i) => i < |s.threads| && (s.threads[i].Working? ==> s.threads[i].done == |s.threads[i].batch|)
    case Evaluate(i, _) => i < |s.threads| && s.threads[i].Working? && s.threads[i].done < |s.threads[i].batch|
  }

  // --------------------------------------------------------------- invariant

  ghost predicate BatchesOk(ts: seq<Thread>) {
    forall i | 0 <= i < |ts| && ts[i].Working? :: 1 <= |ts[i].batch| && ts[i].done <= |ts[i].batch|
  }

  /** The counters say what they are meant to count. */
  ghost predicate CountersOk(s: State) {
    && s.nTotal == Total(s.threads, InLoop)
    && s.nIdle == Total(s.threads, Idle)
    && s.nTodo == |s.queue| + Total(s.threads, Held)
  }

  /** Every check added is queued, in some batch, evaluated or skipped, as often as it was added. */
  ghost predicate Conserved(s: State) {
    forall c: Check :: ConservedAt(s, c)
  }

  ghost predicate ConservedAt(s: State, c: Check) {
    s.added[c] == Count(s.queue, c) + Total(s.threads, Left(c)) + Ran(s.log)[c] + s.skipped[c]
  }

  /** No failure is known to the queue or to any thread at work. */
  ghost predicate Clean(s: State) {
    s.allOk && forall i | 0 <= i < |s.threads| :: Happy(s.threads[i])
  }

  predicate Happy(t: Thread) { t.Working? ==> t.ok }

  /** The threads know of a failure exactly when a check failed, and only then is anything skipped. */
  ghost predicate VerdictOk(s: State) {
    && (Clean(s) <==> !Failed(s.log))
    && (s.skipped != multiset{} ==> Failed(s.log))
  }

  /** The master blocks only with an empty queue, and unless it has been notified something is outstanding. */
  ghost predicate MasterOk(s: State) {
    && |s.threads| > 0
    && (s.threads[MASTER].Waiting? ==> s.queue == [] && (!s.threads[MASTER].notified ==> s.nTodo > 0))
  }

  ghost predicate Inv(s: State) {
    BatchesOk(s.threads) && CountersOk(s) && Conserved(s) && VerdictOk(s) && MasterOk(s)
  }

  function Start(batchSize: nat, workers: nat): State {
    State(batchSize, [], 0, 0, true, 0, seq(workers + 1, _ => Outside), multiset{}, [], multiset{})
  }

  lemma {:induction false} TotalZero(ts: seq<Thread>, f: Thread -> int)
    requires forall i | 0 <= i < |ts| :: f(ts[i]) == 0
    ensures Total(ts, f) == 0
  {
    if ts != [] {
      TotalZero(ts[..|ts| - 1], f);
    }
  }

  lemma StartInv(batchSize: nat, workers: nat)
    ensures Inv(Start(batchSize, workers))
  {
    var s := Start(batchSize, workers);
    TotalZero(s.threads, InLoop);
    TotalZero(s.threads, Idle);
    TotalZero(s.threads, Held);
    forall c: Check ensures Total(s.threads, Left(c)) == 0 {
      TotalZero(s.threads, Left(c));
    }
  }

  // ---------------------------------------------------------------- Evaluate

  /** One check of a batch: evaluated while nothing has failed, skipped afterwards. */
  function Evaluated(s: State, i: nat, result: bool): State
    requires Enabled(s, Evaluate(i, result))
  {
    var t := s.threads[i];
    var c := t.batch[t.done];
    if t.ok then
      s.(threads := s.threads[i := t.(done := t.done + 1, ok := result)], log := s.log + [Outcome(c, result)])
    else
      s.(threads := s.threads[i := t.(done := t.done + 1)], skipped := s.skipped + multiset{c})
  }

  lemma RanNext(log: seq<Outcome>, o: Outcome)
    ensures Ran(log + [o]) == Ran(log) + multiset{o.check}
    ensures Failed(log + [o]) <==> Failed(log) || !o.result
  {
    assert (log + [o])[..|log|] == log;
    assert (log + [o])[|log|] == o;
    forall i | 0 <= i < |log| ensures (log + [o])[i] == log[i] {
    }
  }

  lemma EvaluateCounters(s: State, i: nat, result: bool)
    requires CountersOk(s) && Enabled(s, Evaluate(i, result))
    ensures CountersOk(Evaluated(s, i, result))
  {
    var t' := Evaluated(s, i, result).threads[i];
    TotalUpdate(s.threads, InLoop, i, t');
    TotalUpdate(s.threads, Idle, i, t');
    TotalUpdate(s.threads, Held, i, t');
  }

  lemma LeftStep(t: Thread, ok: bool, c: Check)
    requires t.Working? && t.done < |t.batch|
    ensures Left(c)(t) == Left(c)(t.(done := t.done + 1, ok := ok)) + if t.batch[t.done] == c then 1 else 0
  {
    assert t.batch[t.done..] == [t.batch[t.done]] + t.batch[t.done + 1..];
    CountConcat([t.batch[t.done]], t.batch[t.done + 1..], c);
    assert Count([t.batch[t.done]], c) == Count([], c) + if t.batch[t.done] == c then 1 else 0;
  }

  lemma EvaluateLeft(s: State, i: nat, result: bool, c: Check)
    requires Enabled(s, Evaluate(i, result))
    ensures Total(Evaluated(s, i, result).threads, Left(c)) ==
      Total(s.threads, Left(c)) - if s.threads[i].batch[s.threads[i].done] == c then 1 else 0
  {
    var t' := Evaluated(s, i, result).threads[i];
    LeftStep(s.threads[i], t'.ok, c);
    TotalUpdate(s.threads, Left(c), i, t');
  }

  lemma EvaluateHandled(s: State, i: nat, result: bool, c: Check)
    requires Enabled(s, Evaluate(i, result))
    ensures var s' := Evaluated(s, i, result);
      Ran(s'.log)[c] + s'.skipped[c] ==
        Ran(s.log)[c] + s.skipped[c] + if s.threads[i].batch[s.threads[i].done] == c then 1 else 0
  {
    RanNext(s.log, Outcome(s.threads[i].batch[s.threads[i].done], result));
  }

  lemma EvaluateConserved(s: State, i: nat, result: bool, c: Check)
    requires ConservedAt(s, c) && Enabled(s, Evaluate(i, result))
    ensures ConservedAt(Evaluated(s, i, result), c)
  {
    EvaluateLeft(s, i, result, c);
    EvaluateHandled(s, i, result, c);
  }

  lemma EvaluateVerdict(s: State, i: nat, result: bool)
    requires VerdictOk(s) && Enabled(s, Evaluate(i, result))
    ensures VerdictOk(Evaluated(s, i, result))
  {
    var t := s.threads[i];
    RanNext(s.log, Outcome(t.batch[t.done], result));
    var s' := Evaluated(s, i, result);
    if Clean(s') {
      assert Happy(s'.threads[i]);
      forall j | 0 <= j < |s.threads| ensures Happy(s.threads[j]) {
        assert Happy(s'.threads[j]);
      }
      assert Clean(s);
    }
    if Clean(s) && (t.ok ==> result) {
      forall j | 0 <= j < |s.threads| ensures Happy(s'.threads[j]) {
        assert Happy(s.threads[j]);
      }
      assert Clean(s');
    }
    if Clean(s) {
      assert Happy(s.threads[i]);
    }
  }

  lemma EvaluateRest(s: State, i: nat, result: bool)
    requires BatchesOk(s.threads) && MasterOk(s) && Enabled(s, Evaluate(i, result))
    ensures BatchesOk(Evaluated(s, i, result).threads) && MasterOk(Evaluated(s, i, result))
  {
  }

  lemma EvaluateInv(s: State, i: nat, result: bool)
    requires Inv(s) && Enabled(s, Evaluate(i, result))
    ensures Inv(Evaluated(s, i, result))
  {
    EvaluateCounters(s, i, result);
    forall c: Check ensures ConservedAt(Evaluated(s, i, result), c) {
      EvaluateConserved(s, i, result, c);
    }
    EvaluateVerdict(s, i, result);
    EvaluateRest(s, i, result);
  }

  // -------------------------------------------------------------------- Lock

  /** Everything a sum over threads may look at except whether a blocked thread has been notified. */
  ghost predicate Indifferent(f: Thread -> int) { f(Waiting(true)) == f(Waiting(false)) }

  /** The sums after a critical section of thread i that leaves it in state t. */
  lemma LockTotal(s: State, i: nat, f: Thread -> int, t: Thread)
    requires i < |s.threads| && Indifferent(f)
    ensures Total(Settle(s, i).threads[i := t], f) == Total(s.threads, f) - f(s.threads[i]) + f(t)
  {
    var ts := Settle(s, i).threads;
    if ts != s.threads {
      TotalUpdate(s.threads, f, MASTER, Waiting(true));
      assert s.threads[MASTER] == Waiting(true) || s.threads[MASTER] == Waiting(false);
    }
    TotalUpdate(ts, f, i, t);
  }

  lemma HeldTerms(s: State)
    ensures Total(s.threads, Held) >= 0 && forall i | 0 <= i < |s.threads| :: Held(s.threads[i]) <= Total(s.threads, Held)
  {
    TotalTerms(s.threads, Held);
  }

  /** What the start of a critical section does to the counters. */
  lemma SettleChanges(s: State, i: nat)
    requires i < |s.threads|
    ensures var s1 := Settle(s, i);
      && s1.nTotal == s.nTotal - InLoop(s.threads[i]) + 1
      && s1.nIdle == s.nIdle - Idle(s.threads[i])
      && s1.nTodo == s.nTodo - Held(s.threads[i])
      && s1.queue == s.queue && s1.added == s.added && s1.log == s.log && s1.skipped == s.skipped
      && |s1.threads| == |s.threads| && s1.threads[i] == s.threads[i]
  {
  }

  /** The loop head never divides by zero and never takes more than there is. */
  lemma DecideOk(s: State, i: nat)
    requires CountersOk(s) && i < |s.threads| && s.queue != []
    ensures var s1 := Settle(s, i);
      && s1.queue == s.queue && s1.nTotal + s1.nIdle + 1 > 0 && 1 <= BatchLength(s1) <= |s.queue|
  {
    TotalTerms(s.threads, InLoop);
    TotalTerms(s.threads, Idle);
    SettleChanges(s, i);
  }

  /** What the loop head does to the counters. */
  lemma DecideChanges(s: State, i: nat)
    requires i < |s.threads| && (s.queue != [] ==> s.nTotal + s.nIdle + 1 > 0 && BatchLength(s) <= |s.queue|)
    ensures var s', t := Decide(s, i), Decide(s, i).threads[i];
      && s'.threads == s.threads[i := t] && s'.nTodo == s.nTodo
      && s'.nTotal == s.nTotal - 1 + InLoop(t)
      && s'.nIdle == s.nIdle + Idle(t)
      && |s'.queue| == |s.queue| - Held(t)
  {
  }

  function Locked(s: State, i: nat): State
    requires CountersOk(s) && Enabled(s, Lock(i))
  {
    if s.queue != [] then
      DecideOk(s, i);
      Decide(Settle(s, i), i)
    else Decide(Settle(s, i), i)
  }

  /** How the counters and the queue change over a critical section that leaves thread i in state t. */
  lemma LockChanges(s: State, i: nat)
    requires CountersOk(s) && Enabled(s, Lock(i))
    ensures var s', t := Locked(s, i), Locked(s, i).threads[i];
      && s'.threads == Settle(s, i).threads[i := t]
      && s'.nTotal == s.nTotal - InLoop(s.threads[i]) + InLoop(t)
      && s'.nIdle == s.nIdle - Idle(s.threads[i]) + Idle(t)
      && s'.nTodo == s.nTodo - Held(s.threads[i])
      && |s'.queue| == |s.queue| - Held(t)
  {
    SettleChanges(s, i);
    if s.queue != [] {
      DecideOk(s, i);
    }
    DecideChanges(Settle(s, i), i);
  }

  lemma LockCounters(s: State, i: nat)
    requires CountersOk(s) && Enabled(s, Lock(i))
    ensures CountersOk(Locked(s, i))
  {
    var t := Locked(s, i).threads[i];
    LockChanges(s, i);
    LockTotal(s, i, InLoop, t);
    LockTotal(s, i, Idle, t);
    LockTotal(s, i, Held, t);
  }

  lemma DecideTakes(s: State, i: nat, c: Check)
    requires i < |s.threads| && (s.queue != [] ==> s.nTotal + s.nIdle + 1 > 0 && BatchLength(s) <= |s.queue|)
    ensures var s' := Decide(s, i);
      Count(s.queue, c) == Count(s'.queue, c) + Left(c)(s'.threads[i])
  {
    if s.queue != [] {
      PoppedKeeps(s.queue, BatchLength(s), c);
      assert Decide(s, i).threads[i].batch[0..] == Decide(s, i).threads[i].batch;
    }
  }

  /** What leaves the queue is what the thread takes. */
  lemma LockTakes(s: State, i: nat, c: Check)
    requires CountersOk(s) && Enabled(s, Lock(i))
    ensures |Locked(s, i).threads| == |s.threads|
    ensures Count(s.queue, c) == Count(Locked(s, i).queue, c) + Left(c)(Locked(s, i).threads[i])
  {
    SettleChanges(s, i);
    if s.queue != [] {
      DecideOk(s, i);
    }
    DecideTakes(Settle(s, i), i, c);
  }

  lemma LockKeepsHistory(s: State, i: nat)
    requires CountersOk(s) && Enabled(s, Lock(i)) && !Returns(s, i)
    ensures var s' := Locked(s, i); s'.added == s.added && s'.log == s.log && s'.skipped == s.skipped
  {
    if s.queue != [] {
      DecideOk(s, i);
    }
  }

  lemma LockConserved(s: State, i: nat, c: Check)
    requires CountersOk(s) && ConservedAt(s, c) && Enabled(s, Lock(i)) && !Returns(s, i)
    ensures ConservedAt(Locked(s, i), c)
  {
    LockKeepsHistory(s, i);
    LockTakes(s, i, c);
    LockLeft(s, i, c);
  }

  lemma LockLeft(s: State, i: nat, c: Check)
    requires CountersOk(s) && Enabled(s, Lock(i))
    ensures var s' := Locked(s, i); Total(s'.threads, Left(c)) == Total(s.threads, Left(c)) + Left(c)(s'.threads[i])
  {
    LockChanges(s, i);
    LockTotal(s, i, Left(c), Locked(s, i).threads[i]);
  }

  lemma LockVerdict(s: State, i: nat)
    requires CountersOk(s) && VerdictOk(s) && Enabled(s, Lock(i)) && !Returns(s, i)
    ensures VerdictOk(Locked(s, i))
  {
    var s' := Locked(s, i);
    LockChanges(s, i);
    if Clean(s) {
      assert Happy(s.threads[i]);
      forall j | 0 <= j < |s'.threads| ensures Happy(s'.threads[j]) {
        assert Happy(s.threads[j]);
      }
      assert Clean(s');
    }
    if Clean(s') {
      forall j | 0 <= j < |s.threads| ensures Happy(s.threads[j]) {
        assert Happy(s'.threads[j]);
      }
      assert Clean(s);
    }
  }

  lemma LockBatches(s: State, i: nat)
    requires CountersOk(s) && BatchesOk(s.threads) && Enabled(s, Lock(i))
    ensures BatchesOk(Locked(s, i).threads)
  {
    LockChanges(s, i);
    if s.queue != [] {
      DecideOk(s, i);
    }
  }

  lemma LockMaster(s: State, i: nat)
    requires CountersOk(s) && BatchesOk(s.threads) && MasterOk(s) && Enabled(s, Lock(i))
    ensures MasterOk(Locked(s, i))
  {
    HeldTerms(s);
    assert Settle(s, i).nTodo >= 0;
    if s.queue != [] {
      DecideOk(s, i);
    }
  }

  // ------------------------------------------------------------ Wait returns

  /** When Wait returns nobody holds a batch and nothing is left over. */
  lemma ReturnsIdle(s: State)
    requires CountersOk(s) && BatchesOk(s.threads) && Enabled(s, Lock(MASTER)) && Returns(s, MASTER)
    ensures forall i | 0 < i < |s.threads| :: !s.threads[i].Working?
    ensures forall c: Check :: Total(s.threads, Left(c)) == 0
  {
    TotalUpdate(s.threads, Held, MASTER, Outside);
    var others := s.threads[MASTER := Outside];
    TotalTerms(others, Held);
    forall i | 0 < i < |s.threads| ensures !s.threads[i].Working? {
      assert Held(others[i]) <= 0;
    }
    forall c: Check ensures Total(s.threads, Left(c)) == 0 {
      TotalZero(s.threads, Left(c));
    }
  }

  /** The verdict: true only if every check added since the last return was evaluated, exactly as often as it
      was added, and none failed; false only if an evaluated check failed. */
  lemma Verdict(s: State)
    requires Inv(s) && Enabled(s, Lock(MASTER)) && Returns(s, MASTER)
    ensures var verdict := Settle(s, MASTER).allOk;
      if verdict then Ran(s.log) == s.added && !Failed(s.log) else Failed(s.log)
  {
    ReturnsIdle(s);
    assert Clean(s) ==> Happy(s.threads[MASTER]);
    if Settle(s, MASTER).allOk {
      forall i | 0 <= i < |s.threads| ensures Happy(s.threads[i]) {
      }
      assert Clean(s);
      forall c: Check ensures s.added[c] == Ran(s.log)[c] {
        assert ConservedAt(s, c);
      }
    }
  }

  lemma ReturnInv(s: State)
    requires Inv(s) && Enabled(s, Lock(MASTER)) && Returns(s, MASTER)
    ensures Inv(Locked(s, MASTER))
  {
    var s' := Locked(s, MASTER);
    ReturnsIdle(s);
    LockCounters(s, MASTER);
    LockBatches(s, MASTER);
    LockMaster(s, MASTER);
    forall c: Check ensures ConservedAt(s', c) {
      LockLeft(s, MASTER, c);
    }
    forall i | 0 <= i < |s'.threads| ensures Happy(s'.threads[i]) {
    }
    assert Clean(s');
  }

  lemma LockInv(s: State, i: nat)
    requires Inv(s) && Enabled(s, Lock(i))
    ensures Inv(Locked(s, i))
  {
    if Returns(s, i) {
      ReturnInv(s);
    } else {
      LockCounters(s, i);
      LockBatches(s, i);
      LockMaster(s, i);
      LockVerdict(s, i);
      forall c: Check ensures ConservedAt(Locked(s, i), c) {
        LockConserved(s, i, c);
      }
    }
  }

  // --------------------------------------------------------------------- Add

  function Added(s: State, checks: seq<Check>, wake: nat): State {
    s.(queue := s.queue + checks,
       nTodo := s.nTodo + |checks|,
       added := s.added + multiset(checks),
       threads := if |checks| == 0 then s.threads
                  else if |checks| == 1 then NotifyOne(s.threads, wake)
                  else NotifyAll(s.threads))
  }

  lemma {:induction false} NotifyAllTotal(ts: seq<Thread>, f: Thread -> int)
    requires Indifferent(f)
    ensures Total(NotifyAll(ts), f) == Total(ts, f)
  {
    if |ts| > 1 {
      var n := |ts| - 1;
      NotifyAllTotal(ts[..n], f);
      assert NotifyAll(ts)[..n] == NotifyAll(ts[..n]);
      assert ts[n].Waiting? ==> ts[n] == Waiting(true) || ts[n] == Waiting(false);
    }
  }

  lemma AddTotal(s: State, checks: seq<Check>, wake: nat, f: Thread -> int)
    requires Indifferent(f)
    ensures Total(Added(s, checks, wake).threads, f) == Total(s.threads, f)
  {
    NotifyAllTotal(s.threads, f);
    if 0 < wake < |s.threads| && s.threads[wake].Waiting? {
      TotalUpdate(s.threads, f, wake, Waiting(true));
      assert s.threads[wake] == Waiting(true) || s.threads[wake] == Waiting(false);
    }
  }

  lemma AddInv(s: State, checks: seq<Check>, wake: nat)
    requires Inv(s) && Enabled(s, Add(checks, wake))
    ensures Inv(Added(s, checks, wake))
  {
    var s' := Added(s, checks, wake);
    AddTotal(s, checks, wake, InLoop);
    AddTotal(s, checks, wake, Idle);
    AddTotal(s, checks, wake, Held);
    forall c: Check ensures ConservedAt(s', c) {
      assert ConservedAt(s, c);
      AddTotal(s, checks, wake, Left(c));
      CountConcat(s.queue, checks, c);
      CountMultiset(checks, c);
    }
    forall i | 0 <= i < |s.threads| ensures s'.threads[i] == s.threads[i] || (i != MASTER && s.threads[i].Waiting? && s'.threads[i].Waiting?) {
    }
    if Clean(s) {
      forall i | 0 <= i < |s.threads| ensures Happy(s'.threads[i]) {
        assert Happy(s.threads[i]);
      }
      assert Clean(s');
    }
    if Clean(s') {
      forall i | 0 <= i < |s.threads| ensures Happy(s.threads[i]) {
        assert Happy(s'.threads[i]);
      }
      assert Clean(s);
    }
  }

  // -------------------------------------------------------------------- runs

  function Next(s: State, step: Step): (s': State)
    requires Inv(s) && Enabled(s, step)
    ensures Inv(s')
  {
    match step
    case Add(checks, wake) =>
      AddInv(s, checks, wake);
      Added(s, checks, wake)
    case Lock(i) =>
      LockInv(s, i);
      Locked(s, i)
    case Evaluate(i, result) =>
      EvaluateInv(s, i, result);
      Evaluated(s, i, result)
  }

  /** Every interleaving keeps the invariant; a step that is not enabled is not taken. */
  function Run(s: State, steps: seq<Step>): (s': State)
    requires Inv(s)
    ensures Inv(s')
    decreases |steps|
  {
    if steps == [] then s
    else if Enabled(s, steps[0]) then Run(Next(s, steps[0]), steps[1..])
    else Run(s, steps[1..])
  }

  /** Whatever the workers and the schedule did before, a verdict is about exactly the checks of its round. */
  lemma EveryVerdict(batchSize: nat, workers: nat, steps: seq<Step>)
    ensures Inv(Start(batchSize, workers))
    ensures var s := Run(Start(batchSize, workers), steps);
      Enabled(s, Lock(MASTER)) && Returns(s, MASTER) ==>
        && (Settle(s, MASTER).allOk ==> Ran(s.log) == s.added && !Failed(s.log))
        && (!Settle(s, MASTER).allOk ==> Failed(s.log))
        && Locked(s, MASTER).added == multiset{} && Locked(s, MASTER).log == [] && Locked(s, MASTER).allOk
  {
    StartInv(batchSize, workers);
    var s := Run(Start(batchSize, workers), steps);
    if Enabled(s, Lock(MASTER)) && Returns(s, MASTER) {
      Verdict(s);
    }
  }

  // ---------------------------------------------------------------- progress

  /** A step that is not a spurious wake-up. */
  predicate Genuine(s: State, step: Step) {
    Enabled(s, step) && (step.Lock? && s.threads[step.thread].Waiting? ==> s.threads[step.thread].notified)
  }

  /** A blocked master nobody has notified means some worker holds a batch. */
  lemma WakeUpNotLost(s: State) returns (i: nat)
    requires Inv(s) && s.threads[MASTER] == Waiting(false)
    ensures 0 < i < |s.threads| && s.threads[i].Working? && |s.threads[i].batch| >= 1
  {
    TotalTerms(s.threads, Held);
    var j :| 0 <= j < |s.threads| && Held(s.threads[j]) > 0;
    i := j;
  }

  /** While the master is in Wait, someone can take a genuine step other than adding. */
  lemma NoDeadlock(s: State) returns (step: Step)
    requires Inv(s) && !s.threads[MASTER].Outside?
    ensures Genuine(s, step) && !step.Add?
  {
    var i: nat := MASTER;
    if s.threads[MASTER] == Waiting(false) {
      i := WakeUpNotLost(s);
    }
    if s.threads[i].Working? && s.threads[i].done < |s.threads[i].batch| {
      step := Evaluate(i, true);
    } else {
      step := Lock(i);
    }
  }

  /** How much work a thread still stands for. */
  function Weight(t: Thread): int {
    match t
    case Outside => 3
    case Waiting(notified) => if notified then 1 else 0
    case Working(batch, done, _) => 2 + Max(0, |batch| - done)
  }

  function Work(s: State): int { 3 * |s.queue| + Total(s.threads, Weight) }

  lemma WorkNatural(s: State)
    ensures Work(s) >= 0
  {
    TotalTerms(s.threads, Weight);
  }

  lemma LockWeight(s: State, i: nat, t: Thread)
    requires i < |s.threads|
    ensures Total(Settle(s, i).threads[i := t], Weight) <=
      Total(s.threads, Weight) - Weight(s.threads[i]) + Weight(t) + if s.threads[i].Working? then 1 else 0
  {
    var ts := Settle(s, i).threads;
    if ts != s.threads {
      TotalUpdate(s.threads, Weight, MASTER, Waiting(true));
    }
    TotalUpdate(ts, Weight, i, t);
  }

  /** Every genuine step short of returning or adding brings Wait closer to its end, so Wait cannot go on for
      more than Work(s) of them. */
  lemma WorkShrinks(s: State, step: Step)
    requires Inv(s) && Genuine(s, step) && !step.Add? && !(step.Lock? && Returns(s, step.thread))
    ensures Work(Next(s, step)) < Work(s)
  {
    match step
    case Lock(i) => LockShrinks(s, i);
    case Evaluate(i, result) =>
      TotalUpdate(s.threads, Weight, i, Evaluated(s, i, result).threads[i]);
  }

  lemma LockShrinks(s: State, i: nat)
    requires Inv(s) && Genuine(s, Lock(i)) && !Returns(s, i)
    ensures Work(Next(s, Lock(i))) < Work(s)
  {
    LockChanges(s, i);
    LockWeight(s, i, Locked(s, i).threads[i]);
    if s.queue != [] {
      DecideOk(s, i);
    }
  }

  /** A stretch of genuine steps during which nothing is added and Wait does not return. */
  ghost predicate Stretch(s: State, steps: seq<Step>)
    requires Inv(s)
    decreases |steps|
  {
    steps == [] ||
    (var step := steps[0];
     && Genuine(s, step) && !step.Add? && !(step.Lock? && Returns(s, step.thread))
     && Stretch(Next(s, step), steps[1..]))
  }

  lemma {:induction false} WaitEnds(s: State, steps: seq<Step>)
    requires Inv(s) && Stretch(s, steps)
    ensures |steps| <= Work(s)
    decreases |steps|
  {
    WorkNatural(s);
    if steps != [] {
      WorkShrinks(s, steps[0]);
      WaitEnds(Next(s, steps[0]), steps[1..]);
    }
  }

  // ------------------------------------------------- the code under the mutex

  /** Whom a call to Add notifies. */
  datatype Notice = Nobody | OneWorker | AllWorkers

  /** The threads after a notification of workers; wake names the one that notify_one picks. */
  function Notified(ts: seq<Thread>, notice: Notice, wake: nat): seq<Thread> {
    match notice
    case Nobody => ts
    case OneWorker => NotifyOne(ts, wake)
    case AllWorkers => NotifyAll(ts)
  }

  /** The threads after a notification of the master, which is lost on one that does not wait. */
  function MasterNotified(ts: seq<Thread>, notify: bool): seq<Thread> {
    if notify && ts != [] && ts[MASTER].Waiting? then ts[MASTER := Waiting(true)] else ts
  }

  /** The shared fields, and the two pieces of code that touch them with the mutex held. */
  class Shared {
    const batchSize: nat
    var queue: seq<Check>
    var nIdle: int
    var nTotal: int
    var allOk: bool
    var nTodo: int

    constructor (n: nat)
      ensures batchSize == n && Shows(Start(n, 0))
    {
      batchSize := n;
      queue, nIdle, nTotal, allOk, nTodo := [], 0, 0, true, 0;
    }

    /** The fields are those of a model state. */
    ghost predicate Shows(s: State)
      reads this
    {
      batchSize == s.batchSize && queue == s.queue && nIdle == s.nIdle && nTotal == s.nTotal
      && allOk == s.allOk && nTodo == s.nTodo
    }

    method AddChecks(checks: seq<Check>, ghost s: State, ghost wake: nat) returns (notice: Notice)
      requires Shows(s)
      modifies this
      ensures Shows(Added(s, checks, wake)) && Added(s, checks, wake).threads == Notified(s.threads, notice, wake)
      ensures (notice.Nobody? <==> checks == []) && (notice.OneWorker? <==> |checks| == 1)
    {
      for k := 0 to |checks|
        invariant queue == s.queue + checks[..k] && nTodo == s.nTodo
        invariant nIdle == s.nIdle && nTotal == s.nTotal && allOk == s.allOk
      {
        queue := queue + [checks[k]];
      }
      assert checks[..|checks|] == checks;
      nTodo := nTodo + |checks|;
      notice := if |checks| == 1 then OneWorker else if |checks| > 1 then AllWorkers else Nobody;
    }

    /** Pop a batch off the stack, one check at a time. */
    method PopBatch(n: nat) returns (batch: seq<Check>)
      requires n <= |queue|
      modifies this`queue
      ensures batch == Popped(old(queue), n) && queue == old(queue)[..|old(queue)| - n]
    {
      batch := [];
      for k := 0 to n
        invariant queue == old(queue)[..|old(queue)| - k] && batch == Popped(old(queue), k)
      {
        batch := batch + [queue[|queue| - 1]];
        queue := queue[..|queue| - 1];
      }
    }

    method CleanUp(master: bool, thread: Thread, ghost s: State, ghost i: nat) returns (wakeMaster: bool)
      requires i < |s.threads| && Shows(s) && thread == s.threads[i] && (master <==> i == MASTER)
      modifies this
      ensures Shows(Settle(s, i)) && Settle(s, i).threads == MasterNotified(s.threads, wakeMaster)
      ensures wakeMaster <==> !master && thread.Working? && nTodo == 0
    {
      wakeMaster := false;
      match thread {
        case Working(batch, done, ok) =>
          allOk := allOk && ok;
          nTodo := nTodo - |batch|;
          wakeMaster := nTodo == 0 && !master;
        case Outside =>
          nTotal := nTotal + 1;
        case Waiting(_) =>
          nIdle := nIdle - 1;
      }
    }

    method LoopHead(master: bool, ghost s: State, ghost i: nat) returns (next: Thread, verdict: bool)
      requires i < |s.threads| && Shows(s) && (master <==> i == MASTER)
      requires s.queue != [] ==> s.nTotal + s.nIdle + 1 > 0 && BatchLength(s) <= |s.queue|
      modifies this
      ensures Shows(Decide(s, i)) && Decide(s, i).threads == s.threads[i := next] && verdict == s.allOk
      ensures next.Outside? <==> master && s.queue == [] && s.nTodo == 0
    {
      verdict := allOk;
      if queue == [] {
        if master && nTodo == 0 {
          nTotal := nTotal - 1;
          allOk := true;
          next := Outside;
        } else {
          nIdle := nIdle + 1;
          next := Waiting(false);
        }
      } else {
        QuotientDivides(|queue|, nTotal + nIdle + 1);
        var n := Max(1, Min(batchSize, |queue| / (nTotal + nIdle + 1)));
        var batch := PopBatch(n);
        next := Working(batch, 0, allOk);
      }
    }

    /** One critical section of Loop, from taking the lock to releasing or blocking on it: the fields, the thread's own
        state, the notification of the master, and the verdict where Wait returns. */
    method CriticalSection(master: bool, thread: Thread, ghost s: State, ghost i: nat)
      returns (next: Thread, wakeMaster: bool, verdict: bool)
      requires CountersOk(s) && Enabled(s, Lock(i)) && Shows(s)
      requires thread == s.threads[i] && (master <==> i == MASTER)
      modifies this
      ensures Shows(Locked(s, i)) && Locked(s, i).threads == MasterNotified(s.threads, wakeMaster)[i := next]
      ensures next.Outside? <==> Returns(s, i)
      ensures next.Outside? ==> verdict == Settle(s, i).allOk
    {
      if s.queue != [] {
        DecideOk(s, i);
      }
      wakeMaster := CleanUp(master, thread, s, i);
      next, verdict := LoopHead(master, Settle(s, i), i);
    }
  }
}
