/**
  Particular families of runs of the ring: a single producer, a bulk dequeue against single dequeues,
  the answers of the full and empty tests, and two short runs in which the ring surprises its callers.
*/
module RingRuns {
  import opened Common
  import opened RingMachine
  import opened RingFifo

  // ----- One producer always publishes in claim order -----

  ghost predicate OneProducerInv<T>(s: State<T>) {
    && IndexInv(s) && PublishedWritten(s)
    && |s.producers| == 1
    && (Pending(s.producers[0]) ==> s.producers[0].ticket == s.front - 1)
  }

  lemma OneProducerStep<T>(s: State<T>, step: Step<T>)
    requires OneProducerInv(s) && Enabled(s, step)
    ensures Ordered(s, step) && OneProducerInv(Next(s, step))
  {
    StepKeepsIndices(s, step);
    assert s.producers[1..] == [];
    assert PendingCount(s.producers) == if Pending(s.producers[0]) then 1 else 0;
    assert Ordered(s, step);
    PublicationIsExact(s, step);
  }

  lemma {:induction false} OneProducerRun<T>(states: seq<State<T>>, steps: seq<Step<T>>, k: nat)
    requires Run(states, steps) && OneProducerInv(states[0]) && k <= |steps|
    ensures OneProducerInv(states[k]) && forall i :: 0 <= i < k ==> Ordered(states[i], steps[i])
  {
    if k > 0 {
      OneProducerRun(states, steps, k - 1);
      OneProducerStep(states[k - 1], steps[k - 1]);
    }
  }

  /** A ring with one producer never publishes out of order, so FifoSafety covers all of its runs. */
  lemma OneProducerIsOrdered<T>(capacity: nat, states: seq<State<T>>, steps: seq<Step<T>>)
    requires 0 < capacity && RunFromInit(capacity, 1, states, steps)
    ensures OrderedRun(states, steps)
  {
    InitIndexInv<T>(capacity, 1);
    OneProducerRun(states, steps, |steps|);
  }

  /** Claim order: every publisher holds ticket `readfront`.  This is enough, for any number of producers. */
  lemma ClaimOrderIsOrdered<T>(s: State<T>, step: Step<T>)
    requires IndexInv(s) && Enabled(s, step)
    requires step.Publish? ==> s.producers[step.p].ticket == s.readfront
    ensures Ordered(s, step)
  {
    if step.Publish? {
      assert ProducerOk(s, s.producers[step.p]);
    }
  }

  // ----- A bulk dequeue is that many single dequeues -----

  function Copies<T>(n: nat): seq<Step<T>> {
    if n == 0 then [] else Copies(n - 1) + [BulkCopy]
  }

  function BulkDequeue<T>(s: State<T>, maxOut: nat): seq<Step<T>>
    requires 0 < s.capacity
  {
    if s.readfront % s.capacity == s.back % s.capacity
    then [BulkLoad(maxOut), BulkCheck]
    else [BulkLoad(maxOut), BulkCheck]
         + Copies(BlockSize(s.readfront, s.back, s.capacity, maxOut)) + [BulkCommit]
  }

  function SingleDequeues<T>(n: nat): seq<Step<T>> {
    if n == 0 then [] else SingleDequeues(n - 1) + [SingleLoad, SingleCheck, SingleRead, SingleStore]
  }

  /** The contents of the `n` slots from back on. */
  function Block<T>(s: State<T>, n: nat): (xs: seq<Option<T>>)
    requires 0 < s.capacity <= |s.buffer|
    ensures |xs| == n
  {
    if n == 0 then [] else Block(s, n - 1) + [s.buffer[(s.back + n - 1) % s.capacity]]
  }

  /** The state after taking the next `n` slots. */
  function Taken<T>(s: State<T>, n: nat): State<T>
    requires 0 < s.capacity <= |s.buffer|
  {
    s.(back := s.back + n, out := s.out + Block(s, n))
  }

  function Last<T>(states: seq<State<T>>): State<T>
    requires states != []
  {
    states[|states| - 1]
  }

  lemma OneSingle<T>(t: State<T>) returns (states: seq<State<T>>)
    requires 0 < t.capacity < |t.buffer| && t.consumer.Resting?
    requires t.back < t.readfront <= t.back + t.capacity - 1
    ensures Run([t] + states, [SingleLoad, SingleCheck, SingleRead, SingleStore])
    ensures states[3] == t.(back := t.back + 1, out := t.out + [t.buffer[t.back % t.capacity]])
  {
    RemainderDistinguishes(t.readfront, t.back, t.capacity);
    var t1 := Next(t, SingleLoad);
    var t2 := Next(t1, SingleCheck);
    var t3 := Next(t2, SingleRead);
    states := [t1, t2, t3, Next(t3, SingleStore)];
  }

  lemma TakenStep<T>(s: State<T>, n: nat)
    requires 0 < n && 0 < s.capacity <= |s.buffer|
    ensures var t := Taken(s, n - 1);
      Taken(s, n) == t.(back := t.back + 1, out := t.out + [t.buffer[t.back % t.capacity]])
  {
    var x := s.buffer[(s.back + n - 1) % s.capacity];
    assert s.out + (Block(s, n - 1) + [x]) == s.out + Block(s, n - 1) + [x];
  }

  lemma TakenFacts<T>(s: State<T>, n: nat)
    requires 0 < s.capacity <= |s.buffer|
    ensures var t := Taken(s, n);
      && t.capacity == s.capacity && t.buffer == s.buffer && t.consumer == s.consumer
      && t.readfront == s.readfront && t.back == s.back + n
    ensures Taken(s, 0) == s
  {
    assert s.out + [] == s.out;
  }

  lemma {:induction false} SinglesTake<T>(s: State<T>, n: nat) returns (states: seq<State<T>>)
    requires 0 < s.capacity < |s.buffer| && s.consumer.Resting?
    requires s.back + n <= s.readfront <= s.back + s.capacity - 1
    ensures Run(states, SingleDequeues(n)) && states[0] == s && Last(states) == Taken(s, n)
  {
    hide Next, Enabled, Taken, Block;
    TakenFacts(s, n);
    if n == 0 {
      states := [s];
    } else {
      var before := SinglesTake(s, n - 1);
      TakenFacts(s, n - 1);
      TakenStep(s, n);
      var four := OneSingle(Last(before));
      states := Joined(before, SingleDequeues(n - 1), four, [SingleLoad, SingleCheck, SingleRead, SingleStore]);
    }
  }

  /** Two runs, the second starting where the first ended. */
  lemma Joined<T>(a: seq<State<T>>, aSteps: seq<Step<T>>, b: seq<State<T>>, bSteps: seq<Step<T>>)
      returns (states: seq<State<T>>)
    requires Run(a, aSteps) && Run([Last(a)] + b, bSteps)
    ensures states == a + b && Run(states, aSteps + bSteps)
  {
    states := a + b;
    var steps := aSteps + bSteps;
    forall i | 0 <= i < |steps|
      ensures Enabled(states[i], steps[i]) && states[i + 1] == Next(states[i], steps[i])
    {
      if i >= |aSteps| {
        var j := i - |aSteps|;
        assert steps[i] == bSteps[j];
        assert states[i] == ([Last(a)] + b)[j] && states[i + 1] == ([Last(a)] + b)[j + 1];
      }
    }
  }

  lemma CopyOne<T>(s: State<T>, n: nat, k: nat)
    requires 0 < s.capacity < |s.buffer| && k < n && s.back % s.capacity + n <= s.capacity
    ensures var t := s.(consumer := BulkCopying(n, Block(s, k)));
      Enabled(t, BulkCopy) && Next(t, BulkCopy) == s.(consumer := BulkCopying(n, Block(s, k + 1)))
  {
    hide Block, Next;
    BlockStep(s, k);
    RemainderStep(s.back, k, s.capacity);
    CopyNext(s.(consumer := BulkCopying(n, Block(s, k))));
  }

  lemma CopyNext<T>(t: State<T>)
    requires Enabled(t, BulkCopy)
    ensures var c := t.consumer;
      Next(t, BulkCopy) ==
      t.(consumer := BulkCopying(c.n, c.got + [t.buffer[t.back % t.capacity + |c.got|]]))
  {
  }

  lemma BlockStep<T>(s: State<T>, k: nat)
    requires 0 < s.capacity <= |s.buffer|
    ensures Block(s, k + 1) == Block(s, k) + [s.buffer[(s.back + k) % s.capacity]]
  {
  }

  lemma {:induction false} CopiesRead<T>(s: State<T>, n: nat, k: nat) returns (states: seq<State<T>>)
    requires 0 < s.capacity < |s.buffer| && s.back % s.capacity + n <= s.capacity
    requires s.consumer == BulkCopying(n, []) && k <= n
    ensures Run([s] + states, Copies(k)) && Last([s] + states) == s.(consumer := BulkCopying(n, Block(s, k)))
  {
    if k == 0 {
      states := [];
    } else {
      var before := CopiesRead(s, n, k - 1);
      CopyOne(s, n, k - 1);
      var after := s.(consumer := BulkCopying(n, Block(s, k)));
      var joined := Joined([s] + before, Copies(k - 1), [after], [BulkCopy]);
      states := before + [after];
      assert [s] + states == joined;
    }
  }

  /** The copies and the store of back, from where the block has been measured. */
  lemma BulkCopies<T>(s: State<T>, n: nat) returns (states: seq<State<T>>)
    requires IndexInv(s) && s.consumer.Resting? && s.back + n <= s.readfront && s.back % s.capacity + n <= s.capacity
    ensures Run([s.(consumer := BulkCopying(n, []))] + states, Copies(n) + [BulkCommit])
    ensures states != [] && Last(states) == Taken(s, n)
  {
    hide Next, Enabled, Run;
    var s2 := s.(consumer := BulkCopying(n, []));
    assert 0 < s2.capacity < |s2.buffer|;
    hide IndexInv;
    var copies := CopiesRead(s2, n, n);
    var s3 := Last([s2] + copies);
    SameBlock(s, s2, n);
    CommitStep(s, s3, n);
    var all := Joined([s2] + copies, Copies(n), [Taken(s, n)], [BulkCommit]);
    states := copies + [Taken(s, n)];
    assert [s2] + states == all;
  }

  lemma CommitStep<T>(s: State<T>, s3: State<T>, n: nat)
    requires 0 < s.capacity < |s.buffer| && s.consumer.Resting?
    requires s3 == s.(consumer := BulkCopying(n, Block(s, n)))
    ensures Run([s3] + [Taken(s, n)], [BulkCommit])
  {
    assert Next(s3, BulkCommit) == Taken(s, n);
  }

  /** The load of readfront and the measuring. */
  lemma BulkMeasures<T>(s: State<T>, maxOut: nat)
    requires IndexInv(s) && s.consumer.Resting?
    ensures s.readfront % s.capacity == s.back % s.capacity <==> s.readfront == s.back
    ensures var n := if s.readfront == s.back then 0 else BlockSize(s.readfront, s.back, s.capacity, maxOut);
      && Run([s, s.(consumer := BulkLoaded(s.readfront, maxOut)),
              if s.readfront == s.back then s else s.(consumer := BulkCopying(n, []))], [BulkLoad(maxOut), BulkCheck])
      && s.back + n <= s.readfront <= s.back + s.capacity - 1 && (n > 0 ==> s.back % s.capacity + n <= s.capacity)
      && n <= maxOut && (n == 0 <==> s.readfront == s.back || maxOut == 0)
  {
    RemainderDistinguishes(s.readfront, s.back, s.capacity);
    if s.readfront != s.back {
      BlockFits(s.readfront, s.back, s.capacity, maxOut);
    }
  }

  /**
    A bulk dequeue of at most `maxOut`, wherever it stands relative to the wrap point, leaves exactly the
    state that many single dequeues leave; and it takes something whenever something is published and
    `maxOut` is positive.
  */
  lemma BulkEqualsSingles<T>(s: State<T>, maxOut: nat)
      returns (n: nat, bulk: seq<State<T>>, singles: seq<State<T>>)
    requires IndexInv(s) && s.consumer.Resting?
    ensures n == if s.readfront == s.back then 0 else BlockSize(s.readfront, s.back, s.capacity, maxOut)
    ensures Run(bulk, BulkDequeue(s, maxOut)) && bulk[0] == s
    ensures Run(singles, SingleDequeues(n)) && singles[0] == s
    ensures Last(bulk) == Last(singles) == Taken(s, n)
    ensures n <= maxOut && (n == 0 <==> s.readfront == s.back || maxOut == 0)
  {
    hide Run, Next, Enabled, IndexInv, BlockSize, Taken, Copies, SingleDequeues;
    BulkMeasures(s, maxOut);
    Resized(s);
    n := if s.readfront == s.back then 0 else BlockSize(s.readfront, s.back, s.capacity, maxOut);
    var s1 := s.(consumer := BulkLoaded(s.readfront, maxOut));
    singles := SinglesTake(s, n);
    TakenFacts(s, n);
    if s.readfront == s.back {
      bulk := [s, s1, s];
    } else {
      var copied := BulkCopies(s, n);
      bulk := Joined([s, s1, s.(consumer := BulkCopying(n, []))], [BulkLoad(maxOut), BulkCheck], copied,
                     Copies(n) + [BulkCommit]);
      assert [BulkLoad(maxOut), BulkCheck] + (Copies(n) + [BulkCommit]) == BulkDequeue(s, maxOut);
    }
  }

  lemma Resized<T>(s: State<T>)
    requires IndexInv(s)
    ensures 0 < s.capacity < |s.buffer| && s.back % s.capacity <= s.capacity
  {
  }

  lemma {:induction false} SameBlock<T>(s: State<T>, t: State<T>, n: nat)
    requires 0 < s.capacity <= |s.buffer| && t.capacity == s.capacity && t.buffer == s.buffer && t.back == s.back
    ensures Block(t, n) == Block(s, n)
  {
    if n > 0 {
      SameBlock(s, t, n - 1);
    }
  }

  // ----- The full and empty tests -----

  lemma SameRemainder(a: int, b: int, c: int)
    requires 0 < c
    ensures a % c == b % c <==> (a - b) % c == 0
  {
    assert a - b == c * (a / c - b / c) + (a % c - b % c);
    if a % c == b % c {
      RemainderOf(a / c - b / c, 0, c);
    } else if (a - b) % c == 0 {
      assert c * ((a - b) / c - a / c + b / c) == a % c - b % c;
      SmallMultiple(c, (a - b) / c - a / c + b / c);
    }
  }

  /**
    When a producer's fullness test can be believed.  If its load of front is current the test is exact.
    If it is stale, a report of "full" is true precisely when front has since moved by a multiple of the
    capacity.
  */
  lemma FullReport<T>(s: State<T>, p: nat)
    requires IndexInv(s) && Enabled(s, CheckBack(p))
    ensures var f := s.producers[p].f; var full := s.front - s.back == s.capacity - 1;
            var reported := Next(s, CheckBack(p)).producers[p].Idle?;
      && (f == s.front ==> (reported <==> full))
      && (reported ==> (full <==> (s.front - f) % s.capacity == 0))
  {
    var f := s.producers[p].f;
    FullTest(s.front, s.back, s.capacity);
    SameRemainder(s.front + 1, f + 1, s.capacity);
  }

  lemma SoloTest<T>(s: State<T>, p: nat, x: T) returns (states: seq<State<T>>)
    requires IndexInv(s) && p < |s.producers| && s.producers[p].Idle?
    ensures Run([s] + states, [LoadFront(p, x), CheckBack(p)])
    ensures states[1] ==
      if s.front - s.back == s.capacity - 1 then s else WithProducer(s, p, NotFull(x, s.front))
  {
    FullTest(s.front, s.back, s.capacity);
    assert s.producers[p := Idle] == s.producers;
    var s1 := Next(s, LoadFront(p, x));
    states := [s1, Next(s1, CheckBack(p))];
  }

  lemma SoloCommit<T>(s: State<T>, p: nat, x: T) returns (states: seq<State<T>>)
    requires 0 < s.capacity < |s.buffer| && p < |s.producers| && s.producers[p].Idle?
    ensures Run([WithProducer(s, p, NotFull(x, s.front))] + states,
                [CompareAndSwap(p, false), WriteSlot(p), Publish(p)])
    ensures states[2] == s.(front := s.front + 1, readfront := s.readfront + 1, items := s.items + [x],
           buffer := s.buffer[s.front % s.capacity := Some(x)], written := s.written + {s.front})
  {
    var s2 := WithProducer(s, p, NotFull(x, s.front));
    var s3 := Next(s2, CompareAndSwap(p, false));
    var s4 := Next(s3, WriteSlot(p));
    states := [s3, s4, Next(s4, Publish(p))];
    assert s4.producers[p := Idle] == s.producers;
  }

  /**
    Sequential use: a TryEnqueue that is not interrupted answers "full" exactly when capacity - 1 elements
    are queued, and otherwise appends its value and publishes it.
  */
  lemma SoloEnqueue<T>(s: State<T>, p: nat, x: T) returns (steps: seq<Step<T>>, states: seq<State<T>>)
    requires IndexInv(s) && p < |s.producers| && s.producers[p].Idle?
    ensures Run([s] + states, steps)
    ensures s.front - s.back == s.capacity - 1 ==>
      steps == [LoadFront(p, x), CheckBack(p)] && states[1] == s
    ensures s.front - s.back < s.capacity - 1 ==>
      && steps == [LoadFront(p, x), CheckBack(p)] + [CompareAndSwap(p, false), WriteSlot(p), Publish(p)]
      && |states| == 5
      && states[4] == s.(front := s.front + 1, readfront := s.readfront + 1, items := s.items + [x],
           buffer := s.buffer[s.front % s.capacity := Some(x)], written := s.written + {s.front})
  {
    hide Next, Enabled;
    steps := [LoadFront(p, x), CheckBack(p)];
    states := SoloTest(s, p, x);
    if s.front - s.back < s.capacity - 1 {
      var three := SoloCommit(s, p, x);
      var joined := Joined([s] + states, steps, three, [CompareAndSwap(p, false), WriteSlot(p), Publish(p)]);
      states := states + three;
      assert [s] + states == joined;
      steps := steps + [CompareAndSwap(p, false), WriteSlot(p), Publish(p)];
    }
  }

  /** Nothing queued, nothing in flight. */
  ghost predicate Quiet<T>(s: State<T>) {
    && IndexInv(s) && s.consumer.Resting? && s.front == s.back
    && forall i :: 0 <= i < |s.producers| ==> s.producers[i].Idle?
  }

  /**
    A fullness test on a stale load: on a quiet ring of capacity 2 producer 0 loads front, producer 1
    enqueues `y`, the consumer takes it, and producer 0 then reports the empty ring full.
  */
  lemma SpuriousFull<T>(s0: State<T>, x: T, y: T) returns (states: seq<State<T>>, steps: seq<Step<T>>)
    requires Quiet(s0) && s0.capacity == 2 && 2 <= |s0.producers|
    ensures Run(states, steps) && states[0] == s0
    ensures var s := Last(states);
      && s.items == s0.items + [y] && s.front == s.readfront == s.back == s0.back + 1
      && Enabled(s, CheckBack(0)) && Next(s, CheckBack(0)).producers[0].Idle?
  {
    var s1 := Next(s0, LoadFront(0, x));
    StepKeepsIndices(s0, LoadFront(0, x));
    states, steps := [s0, s1], [LoadFront(0, x)];
    var enq, mid := SoloEnqueue(s1, 1, y);
    states := Joined(states, steps, mid, enq);
    steps := steps + enq;
    var s2 := Last(states);
    var four := OneSingle(s2);
    states := Joined(states, steps, four, [SingleLoad, SingleCheck, SingleRead, SingleStore]);
    steps := steps + [SingleLoad, SingleCheck, SingleRead, SingleStore];
  }

  /** An uninterrupted producer up to its winning swap. */
  lemma SoloClaim<T>(s: State<T>, p: nat, x: T) returns (states: seq<State<T>>)
    requires IndexInv(s) && p < |s.producers| && s.producers[p].Idle? && s.front - s.back < s.capacity - 1
    ensures Run([s] + states, [LoadFront(p, x), CheckBack(p), CompareAndSwap(p, false)])
    ensures states[2] == s.(front := s.front + 1, items := s.items + [x],
                            producers := s.producers[p := Claimed(x, s.front)])
    ensures IndexInv(states[2])
  {
    FullTest(s.front, s.back, s.capacity);
    var s1 := Next(s, LoadFront(p, x));
    var s2 := Next(s1, CheckBack(p));
    var s3 := Next(s2, CompareAndSwap(p, false));
    states := [s1, s2, s3];
    assert s3.producers == s.producers[p := Claimed(x, s.front)];
    LoadFrontKeepsIndices(s, LoadFront(p, x));
    CheckBackKeepsIndices(s1, CheckBack(p));
    CompareAndSwapKeepsIndices(s2, CompareAndSwap(p, false));
  }

  /**
    Without ordered publication the consumer can be handed a slot its producer has not written: on a quiet
    ring producer 1 overtakes producer 0 between its claim and its write, and the consumer takes whatever
    the slot held before.
  */
  lemma OvertakingReadsUnwritten<T>(s0: State<T>, x: T, y: T) returns (states: seq<State<T>>, steps: seq<Step<T>>)
    requires Quiet(s0) && s0.capacity == 3 && 2 <= |s0.producers|
    ensures Run(states, steps) && states[0] == s0
    ensures var s := Last(states);
      && s.items == s0.items + [x, y]
      && s.out == s0.out + [s0.buffer[s0.front % 3]]
  {
    steps := [LoadFront(0, x), CheckBack(0), CompareAndSwap(0, false)];
    var claim := SoloClaim(s0, 0, x);
    states := [s0] + claim;
    var s3 := Last(states);
    hide Next, Enabled;
    var enq, mid := SoloEnqueue(s3, 1, y);
    states := Joined(states, steps, mid, enq);
    steps := steps + enq;
    var four := OneSingle(Last(states));
    RemainderDistinguishes(s3.front, s0.front, 3);
    states := Joined(states, steps, four, [SingleLoad, SingleCheck, SingleRead, SingleStore]);
    steps := steps + [SingleLoad, SingleCheck, SingleRead, SingleStore];
  }

  /**
    The emptiness test of the consumer, which alone moves back: whatever producers do between its load of
    front and its load of back, it answers whether every claimed ticket had been taken at the first load.
  */
  lemma {:induction false} EmptyReport<T>(states: seq<State<T>>, steps: seq<Step<T>>, k: nat)
    requires Run(states, steps) && IndexInv(states[0]) && k <= |steps|
    requires forall i :: 0 <= i < |steps| ==>
      steps[i].LoadFront? || steps[i].CheckBack? || steps[i].CompareAndSwap? || steps[i].WriteSlot? || steps[i].Publish?
    ensures states[k].back == states[0].back
    ensures var capacity := states[0].capacity;
      states[0].front % capacity == states[k].back % capacity <==> states[0].front == states[0].back
  {
    RemainderDistinguishes(states[0].front, states[0].back, states[0].capacity);
    if k > 0 {
      EmptyReport(states, steps, k - 1);
    }
  }
}
