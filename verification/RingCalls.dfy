/**
  One TryEnqueue or TryDequeue among others: how a call can end in any run of the ring, what it has done by then, and
  what becomes of a value whose compare-and-swap was lost.
*/
module RingCalls {
  import opened Common
  import opened RingMachine
  import opened RingRuns

  /** Producer p's compare-and-swap claims a ticket. */
  predicate Wins<T>(s: State<T>, step: Step<T>, p: nat)
    requires Enabled(s, step)
  {
    step.CompareAndSwap? && step.p == p && !step.spurious && s.front == s.producers[p].f
  }

  /** Producer p's compare-and-swap fails because front has moved. */
  predicate Loses<T>(s: State<T>, step: Step<T>, p: nat)
    requires Enabled(s, step)
  {
    step.CompareAndSwap? && step.p == p && !step.spurious && s.front != s.producers[p].f
  }

  ghost function WinsIn<T>(states: seq<State<T>>, steps: seq<Step<T>>, p: nat, b: nat, c: nat): nat
    requires Run(states, steps) && b <= c <= |steps|
    decreases c
  {
    if b == c then 0
    else WinsIn(states, steps, p, b, c - 1) + if Wins(states[c - 1], steps[c - 1], p) then 1 else 0
  }

  ghost function LossesIn<T>(states: seq<State<T>>, steps: seq<Step<T>>, p: nat, b: nat, c: nat): nat
    requires Run(states, steps) && b <= c <= |steps|
    decreases c
  {
    if b == c then 0
    else LossesIn(states, steps, p, b, c - 1) + if Loses(states[c - 1], steps[c - 1], p) then 1 else 0
  }

  /** Producer p is inside one call from its first load at step b up to state c, where it may have returned. */
  ghost predicate OneCall<T>(states: seq<State<T>>, steps: seq<Step<T>>, p: nat, value: T, b: nat, c: nat) {
    && Run(states, steps) && b < c <= |steps| && steps[b] == LoadFront(p, value)
    && forall i :: b < i < c ==> p < |states[i].producers| && !states[i].producers[p].Idle?
  }

  /** The ticket carries the value. */
  ghost predicate Carries<T>(s: State<T>, t: nat, value: T) {
    t < |s.items| && s.items[t] == value
  }

  /** Where a call that began when front was `start` stands after so many won and lost swaps. */
  ghost predicate InCall<T>(s: State<T>, q: Producer<T>, value: T, start: nat, wins: nat, losses: nat) {
    match q
    case Idle => false
    case HasFront(v, f) => v == value && wins == 0 && start + losses <= f <= s.front
    case NotFull(v, f) => v == value && wins == 0 && start + losses <= f <= s.front
    case Claimed(v, t) => v == value && wins == 1 && start + losses <= t && Carries(s, t, value)
    case Written(t) => wins == 1 && start + losses <= t && Carries(s, t, value) && t in s.written
  }

  /** The fullness test on the producer's load of front says full. */
  predicate SeesFull<T>(s: State<T>, p: nat)
    requires Enabled(s, CheckBack(p))
  {
    (s.producers[p].f + 1) % s.capacity == s.back % s.capacity
  }

  lemma OwnStepInCall<T>(s: State<T>, step: Step<T>, p: nat, value: T, start: nat, wins: nat, losses: nat)
    requires IndexInv(s) && Enabled(s, step) && p < |s.producers|
    requires step in {CheckBack(p), CompareAndSwap(p, true), CompareAndSwap(p, false), WriteSlot(p)}
    requires InCall(s, s.producers[p], value, start, wins, losses)
    ensures var s' := Next(s, step);
      if step == CheckBack(p) && SeesFull(s, p) then s'.producers[p] == Idle
      else InCall(s', s'.producers[p], value, start, wins + if Wins(s, step, p) then 1 else 0,
                  losses + if Loses(s, step, p) then 1 else 0)
  {
    hide ProducerOk, ConsumerOk, TicketsDistinct, PendingCount;
    assert |s.items| == s.front;
  }

  predicate StepOf<T>(step: Step<T>, p: nat) {
    (step.LoadFront? || step.CheckBack? || step.CompareAndSwap? || step.WriteSlot? || step.Publish?) && step.p == p
  }

  lemma OthersInCall<T>(s: State<T>, step: Step<T>, p: nat, value: T, start: nat, wins: nat, losses: nat)
    requires Enabled(s, step) && p < |s.producers| && !StepOf(step, p)
    requires InCall(s, s.producers[p], value, start, wins, losses)
    ensures var s' := Next(s, step);
      && |s'.producers| == |s.producers| && s'.producers[p] == s.producers[p]
      && InCall(s', s'.producers[p], value, start, wins, losses)
  {
  }

  /** A producer inside a call tests, swaps, writes or publishes. */
  lemma OwnStepIs<T>(s: State<T>, step: Step<T>, p: nat)
    requires Enabled(s, step) && StepOf(step, p) && !s.producers[p].Idle?
    ensures step in {CheckBack(p), CompareAndSwap(p, true), CompareAndSwap(p, false), WriteSlot(p), Publish(p)}
    ensures step == Publish(p) ==> Next(s, step).producers[p] == Idle
  {
  }

  /** One more step of anybody: the call goes on. */
  lemma StepInCall<T>(s: State<T>, step: Step<T>, p: nat, value: T, start: nat, wins: nat, losses: nat)
    requires IndexInv(s) && Enabled(s, step) && p < |s.producers|
    requires InCall(s, s.producers[p], value, start, wins, losses)
    ensures p < |Next(s, step).producers|
    ensures var s' := Next(s, step);
      !s'.producers[p].Idle? ==>
        InCall(s', s'.producers[p], value, start, wins + if Wins(s, step, p) then 1 else 0,
               losses + if Loses(s, step, p) then 1 else 0)
  {
    assert !s.producers[p].Idle?;
    hide IndexInv, InCall, Next, Enabled;
    if StepOf(step, p) {
      OwnStepIs(s, step, p);
      ProducersStay(s, step);
      if step != Publish(p) {
        OwnStepInCall(s, step, p, value, start, wins, losses);
      }
    } else {
      OthersInCall(s, step, p, value, start, wins, losses);
    }
  }

  lemma ProducersStay<T>(s: State<T>, step: Step<T>)
    requires Enabled(s, step)
    ensures |Next(s, step).producers| == |s.producers|
  {
  }

  lemma RunStep<T>(states: seq<State<T>>, steps: seq<Step<T>>, i: nat)
    requires Run(states, steps) && i < |steps|
    ensures |states| == |steps| + 1 && Enabled(states[i], steps[i]) && states[i + 1] == Next(states[i], steps[i])
  {
    hide Next, Enabled;
  }

  lemma CountedStep<T>(states: seq<State<T>>, steps: seq<Step<T>>, p: nat, b: nat, c: nat)
    requires Run(states, steps) && b <= c < |steps| && Enabled(states[c], steps[c])
    ensures WinsIn(states, steps, p, b, c + 1)
         == WinsIn(states, steps, p, b, c) + if Wins(states[c], steps[c], p) then 1 else 0
    ensures LossesIn(states, steps, p, b, c + 1)
         == LossesIn(states, steps, p, b, c) + if Loses(states[c], steps[c], p) then 1 else 0
    ensures WinsIn(states, steps, p, c, c) == LossesIn(states, steps, p, c, c) == 0
  {
    hide Run, Enabled, Next, Wins, Loses;
  }

  lemma {:induction false} CallKeeps<T>(states: seq<State<T>>, steps: seq<Step<T>>, p: nat, value: T, b: nat, c: nat)
    requires OneCall(states, steps, p, value, b, c) && IndexInv(states[0])
    requires p < |states[c].producers| && !states[c].producers[p].Idle?
    ensures InCall(states[c], states[c].producers[p], value, states[b].front,
                   WinsIn(states, steps, p, b, c), LossesIn(states, steps, p, b, c))
    decreases c
  {
    hide IndexInv, InCall, Wins, Loses, Run, Enabled, Next, WinsIn, LossesIn;
    var i := c - 1;
    RunKeepsIndices(states, steps, i);
    RunStep(states, steps, i);
    CountedStep(states, steps, p, b, i);
    if i == b {
      CallBegins(states[b], p, value);
    } else {
      CallKeeps(states, steps, p, value, b, i);
      StepInCall(states[i], steps[i], p, value, states[b].front, WinsIn(states, steps, p, b, i),
                 LossesIn(states, steps, p, b, i));
    }
  }

  lemma CallBegins<T>(s: State<T>, p: nat, value: T)
    requires Enabled(s, LoadFront(p, value))
    ensures var s' := Next(s, LoadFront(p, value)); InCall(s', s'.producers[p], value, s.front, 0, 0)
    ensures !Next(s, LoadFront(p, value)).producers[p].Idle?
    ensures !Wins(s, LoadFront(p, value), p) && !Loses(s, LoadFront(p, value), p)
  {
  }

  lemma EndsCall<T>(s: State<T>, step: Step<T>, p: nat, value: T, start: nat, wins: nat, losses: nat)
    requires IndexInv(s) && Enabled(s, step) && p < |s.producers| && Next(s, step).producers[p].Idle?
    requires InCall(s, s.producers[p], value, start, wins, losses)
    ensures step == Publish(p) || (step == CheckBack(p) && SeesFull(s, p))
    ensures !Wins(s, step, p) && !Loses(s, step, p) && losses + wins <= Next(s, step).front - start
    ensures step == Publish(p) ==> wins == 1 && exists t: nat ::
      start <= t < Next(s, step).front && Carries(Next(s, step), t, value) && t in Next(s, step).written
    ensures step == CheckBack(p) ==> wins == 0 && start <= s.producers[p].f <= Next(s, step).front
  {
    if StepOf(step, p) {
      OwnStepIs(s, step, p);
      if step != Publish(p) {
        OwnStepInCall(s, step, p, value, start, wins, losses);
      } else {
        assert Carries(Next(s, step), s.producers[p].ticket, value);
      }
    } else {
      OthersInCall(s, step, p, value, start, wins, losses);
    }
  }

  /**
    How a call can end, in every interleaving.  It ends with a publication after exactly one won swap, and then the
    value has a ticket that front passed during the call and whose slot has been written; or with a fullness test
    that said full on a load of front made during the call, and then it has won no swap.  And it is lock-free: for
    every swap that was lost to a moved front, front moved once more during the call.
  */
  lemma EnqueueOutcome<T>(states: seq<State<T>>, steps: seq<Step<T>>, p: nat, value: T, b: nat, c: nat)
    requires OneCall(states, steps, p, value, b, c) && IndexInv(states[0])
    requires p < |states[c].producers| && states[c].producers[p].Idle?
    ensures steps[c - 1] == Publish(p) || (steps[c - 1] == CheckBack(p) && SeesFull(states[c - 1], p))
    ensures steps[c - 1] == Publish(p) ==> WinsIn(states, steps, p, b, c) == 1 && exists t: nat ::
      states[b].front <= t < states[c].front && Carries(states[c], t, value) && t in states[c].written
    ensures steps[c - 1] == CheckBack(p) ==>
      WinsIn(states, steps, p, b, c) == 0 && states[b].front <= states[c - 1].producers[p].f <= states[c].front
    ensures LossesIn(states, steps, p, b, c) + WinsIn(states, steps, p, b, c) <= states[c].front - states[b].front
  {
    hide IndexInv, Run, Enabled, Next, Wins, Loses, WinsIn, LossesIn, InCall, Carries, SeesFull;
    var i := c - 1;
    RunKeepsIndices(states, steps, i);
    RunStep(states, steps, i);
    CountedStep(states, steps, p, b, i);
    if i == b {
      CallBegins(states[b], p, value);
      assert false;
    }
    CallKeeps(states, steps, p, value, b, i);
    EndsCall(states[i], steps[i], p, value, states[b].front, WinsIn(states, steps, p, b, i),
             LossesIn(states, steps, p, b, i));
  }

  /** A run may begin differently if its first step leads to the same state. */
  lemma OtherFirstStep<T>(a: State<T>, first: Step<T>, other: State<T>, otherFirst: Step<T>, states: seq<State<T>>,
                          rest: seq<Step<T>>)
    requires Run([a] + states, [first] + rest) && Enabled(a, first) && Enabled(other, otherFirst)
    requires Next(other, otherFirst) == Next(a, first)
    ensures Run([other] + states, [otherFirst] + rest)
  {
    hide Next, Enabled;
    var from, steps := [other] + states, [otherFirst] + rest;
    assert ([a] + states)[1] == Next(([a] + states)[0], ([first] + rest)[0]);
    forall i | 0 <= i < |steps| ensures Enabled(from[i], steps[i]) && from[i + 1] == Next(from[i], steps[i]) {
      if i > 0 {
        assert ([first] + rest)[i] == steps[i] && ([a] + states)[i] == from[i];
        assert ([a] + states)[i + 1] == from[i + 1];
      }
    }
  }

  /** A lost swap is as good as a new first load of front. */
  lemma LostIsReloaded<T>(s: State<T>, p: nat, spurious: bool)
    requires Enabled(s, CompareAndSwap(p, spurious)) && (s.front != s.producers[p].f || spurious)
    ensures var x := s.producers[p].value;
      && Enabled(WithProducer(s, p, Idle), LoadFront(p, x))
      && Next(s, CompareAndSwap(p, spurious)) == Next(WithProducer(s, p, Idle), LoadFront(p, x))
  {
    assert s.producers[p := Idle][p := HasFront(s.producers[p].value, s.front)]
        == s.producers[p := HasFront(s.producers[p].value, s.front)];
  }

  /**
    A lost swap loses nothing: if the producer then runs on undisturbed, it answers "full" exactly when capacity - 1
    elements are queued, and otherwise appends its value and publishes it.
  */
  lemma LostSwapRetries<T>(s: State<T>, p: nat, spurious: bool) returns (steps: seq<Step<T>>, states: seq<State<T>>)
    requires IndexInv(s) && Enabled(s, CompareAndSwap(p, spurious)) && (s.front != s.producers[p].f || spurious)
    ensures Run([s] + states, steps)
    ensures s.front - s.back == s.capacity - 1 ==>
      steps == [CompareAndSwap(p, spurious), CheckBack(p)] && states[1] == WithProducer(s, p, Idle)
    ensures s.front - s.back < s.capacity - 1 ==>
      && steps == [CompareAndSwap(p, spurious), CheckBack(p)]
                  + [CompareAndSwap(p, false), WriteSlot(p), Publish(p)]
      && |states| == 5
      && var x := s.producers[p].value;
         states[4] == WithProducer(s, p, Idle).(front := s.front + 1, readfront := s.readfront + 1,
           items := s.items + [x], buffer := s.buffer[s.front % s.capacity := Some(x)],
           written := s.written + {s.front})
  {
    var x, idle := s.producers[p].value, WithProducer(s, p, Idle);
    IdleOk(s);
    ProducerMoves(s, p, Idle);
    var solo;
    solo, states := SoloEnqueue(idle, p, x);
    assert CountersOrdered(s) && 0 < s.capacity < |s.buffer|;
    hide IndexInv, Next, Enabled;
    LostIsReloaded(s, p, spurious);
    assert solo == [LoadFront(p, x)] + solo[1..];
    OtherFirstStep(idle, LoadFront(p, x), s, CompareAndSwap(p, spurious), states, solo[1..]);
    steps := [CompareAndSwap(p, spurious)] + solo[1..];
  }

  /** Nobody waits for anybody: wherever the other threads stand, a producer and the consumer can go on. */
  lemma NobodyWaits<T>(s: State<T>, p: nat)
    requires IndexInv(s) && p < |s.producers|
    ensures match s.producers[p]
      case Idle => forall value :: Enabled(s, LoadFront(p, value))
      case HasFront(_, _) => Enabled(s, CheckBack(p))
      case NotFull(_, _) => Enabled(s, CompareAndSwap(p, false)) && Enabled(s, CompareAndSwap(p, true))
      case Claimed(_, _) => Enabled(s, WriteSlot(p))
      case Written(_) => Enabled(s, Publish(p))
    ensures match s.consumer
      case Resting => Enabled(s, SingleLoad) && forall maxOut :: Enabled(s, BulkLoad(maxOut))
      case SingleLoaded(_) => Enabled(s, SingleCheck)
      case SingleReady(_) => Enabled(s, SingleRead)
      case SingleHolds(_, _) => Enabled(s, SingleStore)
      case BulkLoaded(_, _) => Enabled(s, BulkCheck)
      case BulkCopying(n, got) => Enabled(s, if |got| < n then BulkCopy else BulkCommit)
  {
    hide ProducerOk, TicketsDistinct, PendingCount;
  }

  // ----- The consumer's calls -----

  predicate ConsumerStep<T>(step: Step<T>) {
    || step.SingleLoad? || step.SingleCheck? || step.SingleRead? || step.SingleStore?
    || step.BulkLoad? || step.BulkCheck? || step.BulkCopy? || step.BulkCommit?
  }

  /** How many steps of its own the consumer may still take before its call returns. */
  function StepsLeft<T>(c: Consumer<T>, capacity: nat): nat {
    match c
    case Resting => 0
    case SingleLoaded(_) => 3
    case SingleReady(_) => 2
    case SingleHolds(_, _) => 1
    case BulkLoaded(_, _) => capacity + 2
    case BulkCopying(n, got) => if |got| < n then n - |got| + 1 else 1
  }

  /** Where a call stands that found `published` on its first load, when `back` had been reached and `out` taken. */
  ghost predicate InTake<T>(s: State<T>, maxOut: Option<nat>, published: nat, back: nat, out: seq<Option<T>>)
    requires 0 < s.capacity
  {
    && s.back == back <= published <= s.readfront && s.out == out
    && match s.consumer
       case Resting => false
       case SingleLoaded(f) => maxOut == None && f == published
       case SingleReady(_) => maxOut == None && back < published
       case SingleHolds(_, _) => maxOut == None && back < published
       case BulkLoaded(f, m) => maxOut == Some(m) && f == published
       case BulkCopying(n, got) =>
         maxOut.Some? && back < published && n == BlockSize(published, back, s.capacity, maxOut.value) && |got| <= n
  }

  /** What the call has taken when it returns. */
  ghost predicate TookAll<T>(s: State<T>, maxOut: Option<nat>, published: nat, back: nat, out: seq<Option<T>>)
    requires 0 < s.capacity
  {
    var n := if published == back then 0
             else if maxOut.None? then 1 else BlockSize(published, back, s.capacity, maxOut.value);
    s.consumer.Resting? && s.back == back + n && out <= s.out && |s.out| == |out| + n
  }

  lemma TakeBegins<T>(s: State<T>, step: Step<T>)
    requires IndexInv(s) && Enabled(s, step) && (step.SingleLoad? || step.BulkLoad?)
    ensures Next(s, step).capacity == s.capacity > 0
    ensures InTake(Next(s, step), if step.BulkLoad? then Some(step.maxOut) else None, s.readfront, s.back, s.out)
  {
  }

  lemma CheckGoesOn<T>(s: State<T>, step: Step<T>, maxOut: Option<nat>, published: nat, back: nat,
                       out: seq<Option<T>>)
    requires IndexInv(s) && Enabled(s, step) && (step.SingleCheck? || step.BulkCheck?)
    requires InTake(s, maxOut, published, back, out)
    ensures var s' := Next(s, step);
      && s'.capacity == s.capacity && StepsLeft(s'.consumer, s.capacity) < StepsLeft(s.consumer, s.capacity)
      && (InTake(s', maxOut, published, back, out) || TookAll(s', maxOut, published, back, out))
  {
    RemainderDistinguishes(published, back, s.capacity);
    if step.BulkCheck? && published != back {
      BlockFits(published, back, s.capacity, s.consumer.maxOut);
    }
  }

  lemma TakeGoesOn<T>(s: State<T>, step: Step<T>, maxOut: Option<nat>, published: nat, back: nat,
                      out: seq<Option<T>>)
    requires IndexInv(s) && Enabled(s, step) && ConsumerStep(step) && !step.SingleCheck? && !step.BulkCheck?
    requires InTake(s, maxOut, published, back, out)
    ensures var s' := Next(s, step);
      && s'.capacity == s.capacity && StepsLeft(s'.consumer, s.capacity) < StepsLeft(s.consumer, s.capacity)
      && (InTake(s', maxOut, published, back, out) || TookAll(s', maxOut, published, back, out))
  {
    hide BlockSize;
  }

  lemma ProducersLeaveTake<T>(s: State<T>, step: Step<T>, maxOut: Option<nat>, published: nat, back: nat,
                              out: seq<Option<T>>)
    requires IndexInv(s) && Enabled(s, step) && !ConsumerStep(step) && InTake(s, maxOut, published, back, out)
    ensures Next(s, step).capacity == s.capacity && Next(s, step).consumer == s.consumer
    ensures InTake(Next(s, step), maxOut, published, back, out)
  {
    hide BlockSize;
  }

  /** Steps of the consumer from b up to c. */
  function ConsumerSteps<T>(steps: seq<Step<T>>, b: nat, c: nat): nat
    requires b <= c <= |steps|
    decreases c
  {
    if b == c then 0 else ConsumerSteps(steps, b, c - 1) + if ConsumerStep(steps[c - 1]) then 1 else 0
  }

  /** The consumer is inside one call from its first load at step b up to state c, where it may have returned. */
  ghost predicate OneTake<T>(states: seq<State<T>>, steps: seq<Step<T>>, b: nat, c: nat) {
    && Run(states, steps) && b < c <= |steps| && (steps[b].SingleLoad? || steps[b].BulkLoad?)
    && forall i :: b < i < c ==> !states[i].consumer.Resting?
  }

  function MaxOut<T>(step: Step<T>): Option<nat> {
    if step.BulkLoad? then Some(step.maxOut) else None
  }

  /**
    A dequeue is decided by its first load, whatever the producers do meanwhile: it returns having taken nothing if
    and only if nothing was published then (or a bulk dequeue had no room), else one value, or a block of the size
    that was published then up to the wrap point.  And it is wait-free.
  */
  lemma {:induction false} DequeueOutcome<T>(states: seq<State<T>>, steps: seq<Step<T>>, b: nat, c: nat)
    requires OneTake(states, steps, b, c) && IndexInv(states[0])
    ensures states[c].capacity == states[b].capacity > 0
    ensures if states[c].consumer.Resting?
      then TookAll(states[c], MaxOut(steps[b]), states[b].readfront, states[b].back, states[b].out)
      else InTake(states[c], MaxOut(steps[b]), states[b].readfront, states[b].back, states[b].out)
    ensures ConsumerSteps(steps, b + 1, c) + StepsLeft(states[c].consumer, states[b].capacity)
         <= if steps[b].BulkLoad? then states[b].capacity + 2 else 3
    decreases c
  {
    hide IndexInv, Enabled, Next, Run, InTake, TookAll, BlockSize;
    var i := c - 1;
    RunKeepsIndices(states, steps, i);
    RunStep(states, steps, i);
    if i == b {
      TakeBegins(states[b], steps[b]);
      LeftAfterLoad(states[b], steps[b]);
    } else {
      DequeueOutcome(states, steps, b, i);
      TakeOneMore(states[i], steps[i], MaxOut(steps[b]), states[b].readfront, states[b].back, states[b].out);
    }
  }

  lemma LeftAfterLoad<T>(s: State<T>, step: Step<T>)
    requires Enabled(s, step) && (step.SingleLoad? || step.BulkLoad?)
    ensures StepsLeft(Next(s, step).consumer, s.capacity) == if step.BulkLoad? then s.capacity + 2 else 3
    ensures !Next(s, step).consumer.Resting?
  {
  }

  /** One more step of anybody. */
  lemma TakeOneMore<T>(s: State<T>, step: Step<T>, maxOut: Option<nat>, published: nat, back: nat,
                       out: seq<Option<T>>)
    requires IndexInv(s) && 0 < s.capacity && Enabled(s, step) && InTake(s, maxOut, published, back, out)
    ensures var s' := Next(s, step);
      && s'.capacity == s.capacity
      && StepsLeft(s'.consumer, s.capacity) + (if ConsumerStep(step) then 1 else 0) <= StepsLeft(s.consumer, s.capacity)
      && if s'.consumer.Resting? then TookAll(s', maxOut, published, back, out)
         else InTake(s', maxOut, published, back, out)
  {
    hide IndexInv, Enabled, Next, BlockSize, StepsLeft;
    if step.SingleCheck? || step.BulkCheck? {
      CheckGoesOn(s, step, maxOut, published, back, out);
    } else if ConsumerStep(step) {
      TakeGoesOn(s, step, maxOut, published, back, out);
    } else {
      ProducersLeaveTake(s, step, maxOut, published, back, out);
    }
  }
}
