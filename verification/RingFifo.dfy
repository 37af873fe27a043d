/**
  What the ring of RingMachine carries: when publications respect claim order it is a bounded FIFO.

  readfront counts publications without saying which slots were written, so the payload theorems hold
  for the runs in which every publication finds the slot of ticket `readfront` already written.  That
  condition is exact (PublicationOrderIsExact); claim-order publication implies it, and a single
  producer always publishes in claim order.
*/
module RingFifo {
  import opened Common
  import opened RingMachine

  /** A publication is ordered when the ticket it makes readable has its slot written. */
  ghost predicate Ordered<T>(s: State<T>, step: Step<T>) {
    step.Publish? ==> s.readfront in s.written
  }

  ghost predicate OrderedRun<T>(states: seq<State<T>>, steps: seq<Step<T>>)
    requires |states| == |steps| + 1
  {
    forall i :: 0 <= i < |steps| ==> Ordered(states[i], steps[i])
  }

  /** No slot the consumer may read is still unwritten. */
  ghost predicate PublishedWritten<T>(s: State<T>) {
    forall t: nat :: t < s.readfront ==> t in s.written
  }

  ghost predicate SlotsHold<T>(s: State<T>)
    requires IndexInv(s)
  {
    forall t: nat :: s.back <= t < s.front && t in s.written ==> s.buffer[t % s.capacity] == Some(s.items[t])
  }

  ghost predicate TakenHolds<T>(s: State<T>)
    requires IndexInv(s)
  {
    && (forall i: nat :: i < s.back ==> s.out[i] == Some(s.items[i]))
    && (s.consumer.SingleHolds? ==> s.consumer.x == Some(s.items[s.back]))
    && (s.consumer.BulkCopying? ==>
          forall i: nat :: i < |s.consumer.got| ==> s.consumer.got[i] == Some(s.items[s.back + i]))
  }

  ghost predicate FifoInv<T>(s: State<T>) {
    IndexInv(s) && PublishedWritten(s) && SlotsHold(s) && TakenHolds(s)
  }

  // ----- Steps keep slots and taken items, as long as only written slots are read -----

  /** If the step reads a slot, its ticket has been written. */
  predicate ReadsWritten<T>(s: State<T>, step: Step<T>)
    requires Enabled(s, step)
  {
    && (step.SingleRead? ==> s.back in s.written)
    && (step.BulkCopy? ==> s.back + |s.consumer.got| in s.written)
  }

  /** Tickets below this one have been read. */
  function ReadUpTo<T>(s: State<T>): nat {
    s.back + if s.consumer.SingleHolds? then 1 else if s.consumer.BulkCopying? then |s.consumer.got| else 0
  }

  ghost predicate ReadWasWritten<T>(s: State<T>) {
    forall t: nat :: t < ReadUpTo(s) ==> t in s.written
  }

  lemma WriteKeepsHeld<T>(s: State<T>, step: Step<T>)
    requires IndexInv(s) && SlotsHold(s) && ReadWasWritten(s)
    requires Enabled(s, step) && step.WriteSlot? && IndexInv(Next(s, step))
    ensures SlotsHold(Next(s, step))
  {
    var s', q := Next(s, step), s.producers[step.p];
    SlotWritten(s, step);
    hide IndexInv;
    forall t: nat | s'.back <= t < s'.front && t in s'.written
      ensures s'.buffer[t % s'.capacity] == Some(s'.items[t])
    {
      if t != q.ticket {
        RemainderDistinguishes(t, q.ticket, s.capacity);
      }
    }
  }

  lemma SlotWritten<T>(s: State<T>, step: Step<T>)
    requires IndexInv(s) && Enabled(s, step) && step.WriteSlot?
    ensures var q := s.producers[step.p];
      q.ticket < |s.items| == s.front && s.items[q.ticket] == q.value && q.ticket !in s.written
    ensures 0 < s.capacity < |s.buffer| && s.front < s.back + s.capacity
    ensures forall t :: t in s.written ==> t < |s.items|
  {
    assert ProducerOk(s, s.producers[step.p]);
  }

  lemma OthersKeepHeld<T>(s: State<T>, step: Step<T>)
    requires IndexInv(s) && SlotsHold(s) && Enabled(s, step) && !step.WriteSlot? && IndexInv(Next(s, step))
    ensures SlotsHold(Next(s, step))
  {
    hide IndexInv;
    SlotsSame(s, step);
  }

  lemma SlotsSame<T>(s: State<T>, step: Step<T>)
    requires IndexInv(s) && Enabled(s, step) && !step.WriteSlot?
    ensures var s' := Next(s, step);
      && s'.buffer == s.buffer && s'.written == s.written && s.items <= s'.items && s'.capacity == s.capacity
      && s.back <= s'.back
    ensures 0 < s.capacity < |s.buffer| && s.front == |s.items| && forall t :: t in s.written ==> t < |s.items|
  {
  }

  /** What the index facts say about the consumer. */
  lemma ConsumerFacts<T>(s: State<T>)
    requires IndexInv(s)
    ensures 0 < s.capacity < |s.buffer| && |s.out| == s.back <= |s.items| == s.front
    ensures s.consumer.SingleReady? || s.consumer.SingleHolds? ==> s.consumer.b == s.back < |s.items|
    ensures s.consumer.BulkCopying? ==>
      && |s.consumer.got| <= s.consumer.n && s.back + s.consumer.n <= |s.items|
      && s.back % s.capacity + s.consumer.n <= s.capacity
  {
  }

  predicate ConsumerChecks<T>(step: Step<T>) {
    step.SingleLoad? || step.SingleCheck? || step.BulkLoad? || step.BulkCheck?
  }

  predicate ConsumerTakes<T>(step: Step<T>) {
    step.SingleRead? || step.SingleStore? || step.BulkCopy? || step.BulkCommit?
  }

  lemma CopyKeepsHolds<T>(s: State<T>, step: Step<T>)
    requires IndexInv(s) && SlotsHold(s) && TakenHolds(s)
    requires Enabled(s, step) && step.BulkCopy? && ReadsWritten(s, step) && IndexInv(Next(s, step))
    ensures TakenHolds(Next(s, step))
  {
    hide IndexInv;
    ConsumerFacts(s);
    RemainderStep(s.back, |s.consumer.got|, s.capacity);
  }

  lemma ReadKeepsHolds<T>(s: State<T>, step: Step<T>)
    requires IndexInv(s) && SlotsHold(s) && TakenHolds(s)
    requires Enabled(s, step) && step.SingleRead? && ReadsWritten(s, step) && IndexInv(Next(s, step))
    ensures TakenHolds(Next(s, step))
  {
    hide IndexInv;
    ConsumerFacts(s);
  }

  lemma StoreKeepsHolds<T>(s: State<T>, step: Step<T>)
    requires IndexInv(s) && TakenHolds(s) && Enabled(s, step) && step.SingleStore? && IndexInv(Next(s, step))
    ensures TakenHolds(Next(s, step))
  {
    hide IndexInv;
    ConsumerFacts(s);
  }

  lemma CommitKeepsHolds<T>(s: State<T>, step: Step<T>)
    requires IndexInv(s) && TakenHolds(s) && Enabled(s, step) && step.BulkCommit? && IndexInv(Next(s, step))
    ensures TakenHolds(Next(s, step))
  {
    hide IndexInv;
    ConsumerFacts(s);
    CommitAppends(s.out, s.consumer.got, s.items);
  }

  lemma CommitAppends<T>(out: seq<Option<T>>, got: seq<Option<T>>, items: seq<T>)
    requires |out| + |got| <= |items|
    requires forall i: nat :: i < |out| ==> out[i] == Some(items[i])
    requires forall i: nat :: i < |got| ==> got[i] == Some(items[|out| + i])
    ensures forall i: nat :: i < |out| + |got| ==> (out + got)[i] == Some(items[i])
  {
    forall i: nat | |out| <= i < |out| + |got| ensures (out + got)[i] == Some(items[i]) {
      assert (out + got)[i] == got[i - |out|];
    }
  }

  lemma ChecksKeepHolds<T>(s: State<T>, step: Step<T>)
    requires IndexInv(s) && TakenHolds(s) && Enabled(s, step) && ConsumerChecks(step) && IndexInv(Next(s, step))
    ensures TakenHolds(Next(s, step))
  {
    hide IndexInv;
    ConsumerFacts(s);
  }

  lemma ProducersKeepHolds<T>(s: State<T>, step: Step<T>)
    requires IndexInv(s) && TakenHolds(s) && Enabled(s, step) && IndexInv(Next(s, step))
    requires !ConsumerChecks(step) && !ConsumerTakes(step)
    ensures TakenHolds(Next(s, step))
  {
    hide IndexInv;
    ConsumerFacts(s);
    ProducersLeave(s, step);
  }

  lemma ProducersLeave<T>(s: State<T>, step: Step<T>)
    requires Enabled(s, step) && !ConsumerChecks(step) && !ConsumerTakes(step)
    ensures var s' := Next(s, step);
      s'.consumer == s.consumer && s'.out == s.out && s'.back == s.back && s.items <= s'.items
  {
  }

  lemma StepKeepsHeld<T>(s: State<T>, step: Step<T>)
    requires IndexInv(s) && SlotsHold(s) && ReadWasWritten(s) && Enabled(s, step) && IndexInv(Next(s, step))
    ensures SlotsHold(Next(s, step))
  {
    hide SlotsHold, ReadWasWritten, IndexInv, Next, Enabled;
    if step.WriteSlot? {
      WriteKeepsHeld(s, step);
    } else {
      OthersKeepHeld(s, step);
    }
  }

  lemma StepKeepsHolds<T>(s: State<T>, step: Step<T>)
    requires IndexInv(s) && SlotsHold(s) && TakenHolds(s)
    requires Enabled(s, step) && ReadsWritten(s, step) && IndexInv(Next(s, step))
    ensures TakenHolds(Next(s, step))
  {
    hide SlotsHold, TakenHolds, IndexInv, Next, Enabled;
    match step {
      case BulkCopy => CopyKeepsHolds(s, step);
      case SingleRead => ReadKeepsHolds(s, step);
      case SingleStore => StoreKeepsHolds(s, step);
      case BulkCommit => CommitKeepsHolds(s, step);
      case _ =>
        if ConsumerChecks(step) {
          ChecksKeepHolds(s, step);
        } else {
          ProducersKeepHolds(s, step);
        }
    }
  }

  // ----- Ordered steps keep the payload -----

  /** What is readable has been written, and nothing else is read. */
  lemma PublishedReads<T>(s: State<T>, step: Step<T>)
    requires IndexInv(s) && PublishedWritten(s) && Enabled(s, step)
    ensures ReadWasWritten(s) && ReadsWritten(s, step)
  {
  }

  lemma PublicationIsExact<T>(s: State<T>, step: Step<T>)
    requires IndexInv(s) && PublishedWritten(s) && Enabled(s, step)
    ensures PublishedWritten(Next(s, step)) <==> Ordered(s, step)
  {
    hide IndexInv;
    var s' := Next(s, step);
    assert s.written <= s'.written;
    if step.Publish? && s.readfront !in s.written {
      assert s.readfront < s'.readfront;
    }
  }

  lemma OrderedStepKeepsFifo<T>(s: State<T>, step: Step<T>)
    requires FifoInv(s) && Enabled(s, step) && Ordered(s, step)
    ensures FifoInv(Next(s, step))
  {
    hide IndexInv, SlotsHold, TakenHolds, PublishedWritten, ReadWasWritten, ReadsWritten, Next, Enabled, Ordered;
    StepKeepsIndices(s, step);
    PublishedReads(s, step);
    PublicationIsExact(s, step);
    StepKeepsHeld(s, step);
    StepKeepsHolds(s, step);
  }

  lemma {:induction false} OrderedRunKeepsFifo<T>(states: seq<State<T>>, steps: seq<Step<T>>, k: nat)
    requires Run(states, steps) && OrderedRun(states, steps) && FifoInv(states[0]) && k <= |steps|
    ensures FifoInv(states[k])
  {
    if k > 0 {
      OrderedRunKeepsFifo(states, steps, k - 1);
      OrderedStepKeepsFifo(states[k - 1], steps[k - 1]);
    }
  }

  /** The sequence of optional values the consumer holds after taking `xs`. */
  function Somes<T>(xs: seq<T>): seq<Option<T>> {
    seq(|xs|, i requires 0 <= i < |xs| => Some(xs[i]))
  }

  /** The abstract queue: claimed, not yet taken. */
  function Queue<T>(s: State<T>): seq<T>
    requires s.back <= |s.items|
  {
    s.items[s.back..]
  }

  /**
    FIFO safety of every ordered run: what was taken followed by what is queued is what was enqueued,
    in ticket order; the queue is bounded by capacity - 1; and each published slot still holds the value
    its producer enqueued, so nothing unread was overwritten and nothing unwritten can be read.
  */
  lemma FifoSafety<T>(capacity: nat, producers: nat, states: seq<State<T>>, steps: seq<Step<T>>)
    requires 0 < capacity && RunFromInit(capacity, producers, states, steps) && OrderedRun(states, steps)
    ensures forall k :: 0 <= k <= |steps| ==> var s := states[k];
      && s.back <= s.readfront <= s.front == |s.items| && |s.buffer| == capacity + 1
      && s.out == Somes(s.items[..s.back])
      && s.items == s.items[..s.back] + Queue(s)
      && |Queue(s)| <= capacity - 1
      && forall t: nat :: s.back <= t < s.readfront ==> s.buffer[t % capacity] == Some(s.items[t])
  {
    InitIndexInv<T>(capacity, producers);
    forall k | 0 <= k <= |steps|
      ensures FifoInv(states[k]) && states[k].capacity == capacity
    {
      OrderedRunKeepsFifo(states, steps, k);
      RunKeepsIndices(states, steps, k);
    }
    forall k | 0 <= k <= |steps|
      ensures states[k].items == states[k].items[..states[k].back] + Queue(states[k])
      ensures forall t: nat :: states[k].back <= t < states[k].readfront ==> t in states[k].written
    {
    }
  }

  // ----- Each step is an atomic step of a bounded FIFO -----

  /** The specification: queued values, and the value that each producer is still trying to enqueue. */
  datatype Fifo<T> = Fifo(queue: seq<T>, waiting: seq<Option<T>>)

  datatype FifoEvent<T> =
    | Stutter
    | Began(p: nat, x: T)
    | Enqueued(p: nat)
    | Refused(p: nat)
    | Dequeued(xs: seq<T>)

  /** What may happen to a queue of at most `bound` elements; a waiting value is enqueued or refused, not dropped. */
  ghost predicate FifoStep<T>(bound: nat, q: Fifo<T>, e: FifoEvent<T>, q': Fifo<T>) {
    match e
    case Stutter => q' == q
    case Began(p, x) =>
      p < |q.waiting| && q.waiting[p].None? && q' == q.(waiting := q.waiting[p := Some(x)])
    case Enqueued(p) =>
      && p < |q.waiting| && q.waiting[p].Some? && |q.queue| < bound
      && q' == Fifo(q.queue + [q.waiting[p].value], q.waiting[p := None])
    case Refused(p) =>
      p < |q.waiting| && q.waiting[p].Some? && q' == q.(waiting := q.waiting[p := None])
    case Dequeued(xs) => q.waiting == q'.waiting && q.queue == xs + q'.queue
  }

  function WaitingValue<T>(q: Producer<T>): Option<T> {
    match q
    case HasFront(value, _) => Some(value)
    case NotFull(value, _) => Some(value)
    case _ => None
  }

  function WaitingValues<T>(ps: seq<Producer<T>>): (ws: seq<Option<T>>)
    ensures |ws| == |ps|
  {
    seq(|ps|, i requires 0 <= i < |ps| => WaitingValue(ps[i]))
  }

  function Abstract<T>(s: State<T>): Fifo<T>
    requires s.back <= |s.items|
  {
    Fifo(Queue(s), WaitingValues(s.producers))
  }

  /**
    Which abstract step a concrete step takes: the winning swap enqueues, a failed fullness test refuses, the store
    of back dequeues; a lost swap does nothing.
  */
  function FifoEventOf<T>(s: State<T>, step: Step<T>): FifoEvent<T>
    requires Enabled(s, step)
  {
    match step
    case LoadFront(p, value) => Began(p, value)
    case CheckBack(p) =>
      if (s.producers[p].f + 1) % s.capacity == s.back % s.capacity then Refused(p) else Stutter
    case CompareAndSwap(p, spurious) =>
      if s.front == s.producers[p].f && !spurious then Enqueued(p) else Stutter
    case SingleStore => if s.back < |s.items| then Dequeued([s.items[s.back]]) else Stutter
    case BulkCommit =>
      if s.back + s.consumer.n <= |s.items| then Dequeued(s.items[s.back..s.back + s.consumer.n]) else Stutter
    case _ => Stutter
  }

  ghost predicate RefinesFifo<T>(s: State<T>, step: Step<T>)
    requires FifoInv(s) && Enabled(s, step)
  {
    var e, s' := FifoEventOf(s, step), Next(s, step);
    && s'.back <= |s'.items|
    && FifoStep(s.capacity - 1, Abstract(s), e, Abstract(s'))
    && s'.out == s.out + (if e.Dequeued? then Somes(e.xs) else [])
  }

  lemma WaitingUpdate<T>(ps: seq<Producer<T>>, p: nat, q: Producer<T>)
    requires p < |ps|
    ensures WaitingValues(ps[p := q]) == WaitingValues(ps)[p := WaitingValue(q)]
    ensures WaitingValue(q) == WaitingValue(ps[p]) ==> WaitingValues(ps[p := q]) == WaitingValues(ps)
  {
  }

  lemma DequeueRefinesFifo<T>(s: State<T>, step: Step<T>)
    requires FifoInv(s) && Enabled(s, step) && (step.BulkCommit? || step.SingleStore?)
    ensures RefinesFifo(s, step)
  {
    hide WaitingValues;
    var s' := Next(s, step);
    if step.BulkCommit? {
      assert s.items[s.back..] == s.items[s.back..s.back + s.consumer.n] + s'.items[s'.back..];
      assert s.consumer.got == Somes(s.items[s.back..s.back + s.consumer.n]);
    } else {
      assert s.items[s.back..] == [s.items[s.back]] + s'.items[s'.back..];
      assert [s.consumer.x] == Somes([s.items[s.back]]);
    }
  }

  /** A producer's step, seen from the queue. */
  lemma ProducerRefinesFifo<T>(s: State<T>, step: Step<T>)
    requires FifoInv(s) && Enabled(s, step)
    requires step.LoadFront? || step.CheckBack? || step.CompareAndSwap? || step.WriteSlot? || step.Publish?
    ensures RefinesFifo(s, step)
  {
    hide PublishedWritten, SlotsHold, TakenHolds, WaitingValues;
    var s', p := Next(s, step), step.p;
    var ws := WaitingValues(s.producers);
    WaitingUpdate(s.producers, p, s'.producers[p]);
    WaitingAt(s, p);
    assert s.out + [] == s.out;
    if step.CompareAndSwap? && s.front == s.producers[p].f && !step.spurious {
      assert ProducerOk(s, s.producers[p]);
      assert s'.items[s.back..] == s.items[s.back..] + [s.producers[p].value];
    }
  }

  lemma WaitingAt<T>(s: State<T>, p: nat)
    requires p < |s.producers|
    ensures WaitingValues(s.producers)[p] == WaitingValue(s.producers[p])
  {
  }

  lemma ConsumerRefinesFifo<T>(s: State<T>, step: Step<T>)
    requires FifoInv(s) && Enabled(s, step)
    requires ConsumerChecks(step) || step.SingleRead? || step.BulkCopy?
    ensures RefinesFifo(s, step)
  {
    hide PublishedWritten, SlotsHold, TakenHolds, WaitingValues;
  }

  /**
    Each ordered step of the ring is one atomic step of a FIFO bounded by capacity - 1, or invisible: the first load
    of a call puts its value among the waiting ones, the winning compare-and-swap enqueues it, a failed fullness test
    refuses it, and the store (or fetch-and-add) of back is the dequeue.  A lost swap leaves the value waiting.
  */
  lemma StepRefinesFifo<T>(s: State<T>, step: Step<T>)
    requires FifoInv(s) && Enabled(s, step) && Ordered(s, step)
    ensures FifoInv(Next(s, step)) && RefinesFifo(s, step)
  {
    hide FifoInv, RefinesFifo, Next, Enabled;
    OrderedStepKeepsFifo(s, step);
    if step.BulkCommit? || step.SingleStore? {
      DequeueRefinesFifo(s, step);
    } else if ConsumerChecks(step) || step.SingleRead? || step.BulkCopy? {
      ConsumerRefinesFifo(s, step);
    } else {
      ProducerRefinesFifo(s, step);
    }
  }

  // ----- The publication condition is exact -----

  /**
    Exactly when the payload is safe: along a run no slot becomes readable before it is written if and
    only if every publication of the run is ordered.
  */
  lemma PublicationOrderIsExact<T>(capacity: nat, producers: nat, states: seq<State<T>>, steps: seq<Step<T>>)
    requires 0 < capacity && RunFromInit(capacity, producers, states, steps)
    ensures OrderedRun(states, steps) <==> forall k :: 0 <= k <= |steps| ==> PublishedWritten(states[k])
  {
    InitIndexInv<T>(capacity, producers);
    forall k | 0 <= k <= |steps| ensures IndexInv(states[k]) {
      RunKeepsIndices(states, steps, k);
    }
    if OrderedRun(states, steps) {
      forall k | 0 <= k <= |steps| ensures PublishedWritten(states[k]) {
        OrderedRunKeepsFifo(states, steps, k);
      }
    } else {
      var i :| 0 <= i < |steps| && !Ordered(states[i], steps[i]);
      if PublishedWritten(states[i]) {
        PublicationIsExact(states[i], steps[i]);
        assert !PublishedWritten(states[i + 1]);
      }
    }
  }
}
