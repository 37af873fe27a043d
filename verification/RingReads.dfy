/**
  The two conditions of module RingFifo in terms of what threads do: who holds the ticket that a publication makes
  readable, and which slots the consumer reads.
*/
module RingReads {
  import opened Common
  import opened RingMachine
  import opened RingFifo

  // ----- Publications: who holds the ticket -----

  /** Some producer has claimed the ticket and not yet written its slot. */
  ghost predicate HeldUnwritten<T>(s: State<T>, t: nat) {
    exists p :: 0 <= p < |s.producers| && s.producers[p].Claimed? && s.producers[p].ticket == t
  }

  ghost predicate TicketsKnown<T>(s: State<T>) {
    forall t: nat :: t < s.front && t !in s.written ==> HeldUnwritten(s, t)
  }

  lemma StepKeepsTickets<T>(s: State<T>, step: Step<T>)
    requires IndexInv(s) && TicketsKnown(s) && Enabled(s, step)
    ensures TicketsKnown(Next(s, step))
  {
    var s' := Next(s, step);
    forall t: nat | t < s'.front && t !in s'.written ensures HeldUnwritten(s', t) {
      if t < s.front {
        var p :| 0 <= p < |s.producers| && s.producers[p].Claimed? && s.producers[p].ticket == t;
        assert s'.producers[p] == s.producers[p];
      } else {
        assert s'.producers[step.p].Claimed? && s'.producers[step.p].ticket == t;
      }
    }
  }

  lemma {:induction false} RunKeepsTickets<T>(states: seq<State<T>>, steps: seq<Step<T>>, k: nat)
    requires Run(states, steps) && IndexInv(states[0]) && TicketsKnown(states[0]) && k <= |steps|
    ensures TicketsKnown(states[k])
  {
    if k > 0 {
      RunKeepsTickets(states, steps, k - 1);
      RunKeepsIndices(states, steps, k - 1);
      StepKeepsTickets(states[k - 1], steps[k - 1]);
    }
  }

  lemma {:induction false} SomePending<T>(ps: seq<Producer<T>>, p: nat)
    requires p < |ps| && Pending(ps[p])
    ensures PendingCount(ps) > 0
  {
    if p > 0 {
      SomePending(ps[1..], p - 1);
    }
  }

  /**
    A run is ordered exactly when no publication ever happens while the oldest unpublished ticket is still held
    unwritten, be it by a producer other than the one that publishes.
  */
  lemma OrderedMeansNoneHolds<T>(capacity: nat, producers: nat, states: seq<State<T>>, steps: seq<Step<T>>)
    requires 0 < capacity && RunFromInit(capacity, producers, states, steps)
    ensures OrderedRun(states, steps) <==>
            forall i :: 0 <= i < |steps| && steps[i].Publish? ==> !HeldUnwritten(states[i], states[i].readfront)
  {
    InitIndexInv<T>(capacity, producers);
    forall i | 0 <= i < |steps| && steps[i].Publish?
      ensures Ordered(states[i], steps[i]) <==> !HeldUnwritten(states[i], states[i].readfront)
    {
      var s := states[i];
      RunKeepsIndices(states, steps, i);
      RunKeepsTickets(states, steps, i);
      SomePending(s.producers, steps[i].p);
      if HeldUnwritten(s, s.readfront) {
        var p :| 0 <= p < |s.producers| && s.producers[p].Claimed? && s.producers[p].ticket == s.readfront;
        assert ProducerOk(s, s.producers[p]);
      }
    }
  }

  // ----- Reads: what the consumer gets -----

  /** A slot holds nothing, or the value of some ticket that has been written. */
  ghost predicate SlotsKnown<T>(s: State<T>)
    requires IndexInv(s)
  {
    forall i: nat :: i < s.capacity && s.buffer[i].Some? ==>
      exists t :: t in s.written && t % s.capacity == i && s.buffer[i] == Some(s.items[t])
  }

  ghost predicate ReadInv<T>(s: State<T>) {
    IndexInv(s) && SlotsHold(s) && TakenHolds(s) && SlotsKnown(s) && ReadWasWritten(s)
  }

  lemma WriteKeepsKnown<T>(s: State<T>, step: Step<T>)
    requires IndexInv(s) && SlotsKnown(s) && Enabled(s, step) && step.WriteSlot? && IndexInv(Next(s, step))
    ensures SlotsKnown(Next(s, step))
  {
    hide IndexInv, Run;
    var s', q := Next(s, step), s.producers[step.p];
    SlotWritten(s, step);
    forall i: nat | i < s'.capacity && s'.buffer[i].Some?
      ensures exists t :: t in s'.written && t % s'.capacity == i && s'.buffer[i] == Some(s'.items[t])
    {
      if i == q.ticket % s.capacity {
        assert q.ticket in s'.written;
      } else {
        var t :| t in s.written && t % s.capacity == i && s.buffer[i] == Some(s.items[t]);
        assert t in s'.written;
      }
    }
  }

  lemma OthersKeepKnown<T>(s: State<T>, step: Step<T>)
    requires IndexInv(s) && SlotsKnown(s) && Enabled(s, step) && !step.WriteSlot? && IndexInv(Next(s, step))
    ensures SlotsKnown(Next(s, step))
  {
    hide IndexInv, Run;
    var s' := Next(s, step);
    SlotsSame(s, step);
    forall i: nat | i < s'.capacity && s'.buffer[i].Some?
      ensures exists t :: t in s'.written && t % s'.capacity == i && s'.buffer[i] == Some(s'.items[t])
    {
      var t :| t in s.written && t % s.capacity == i && s.buffer[i] == Some(s.items[t]);
      assert t in s'.written;
    }
  }

  lemma StepKeepsReadWritten<T>(s: State<T>, step: Step<T>)
    requires IndexInv(s) && ReadWasWritten(s) && Enabled(s, step) && ReadsWritten(s, step)
    ensures ReadWasWritten(Next(s, step))
  {
  }

  lemma StepKeepsReads<T>(s: State<T>, step: Step<T>)
    requires ReadInv(s) && Enabled(s, step) && ReadsWritten(s, step)
    ensures ReadInv(Next(s, step))
  {
    hide SlotsHold, TakenHolds, SlotsKnown, ReadWasWritten, ReadsWritten, IndexInv, Next, Enabled;
    StepKeepsIndices(s, step);
    StepKeepsReadWritten(s, step);
    StepKeepsHeld(s, step);
    StepKeepsHolds(s, step);
    if step.WriteSlot? {
      WriteKeepsKnown(s, step);
    } else {
      OthersKeepKnown(s, step);
    }
  }

  lemma SlotOfAnother<T>(s: State<T>, t: nat)
    requires IndexInv(s) && SlotsKnown(s) && NoRepeats(s.items) && t < s.front && t !in s.written
    ensures s.buffer[t % s.capacity] != Some(s.items[t])
  {
    var i := t % s.capacity;
    if s.buffer[i].Some? {
      var u :| u in s.written && u % s.capacity == i && s.buffer[i] == Some(s.items[u]);
      assert u != t;
    }
  }

  lemma UnwrittenCopyIsWrong<T>(s: State<T>, step: Step<T>)
    requires IndexInv(s) && SlotsKnown(s) && NoRepeats(s.items)
    requires Enabled(s, step) && step.BulkCopy? && !ReadsWritten(s, step) && IndexInv(Next(s, step))
    ensures !TakenHolds(Next(s, step))
  {
    hide SlotsKnown, NoRepeats;
    var i := |s.consumer.got|;
    assert s.back + i < s.front;
    SlotOfAnother(s, s.back + i);
    RemainderStep(s.back, i, s.capacity);
    assert Next(s, step).consumer.got[i] == s.buffer[(s.back + i) % s.capacity];
  }

  lemma UnwrittenSingleIsWrong<T>(s: State<T>, step: Step<T>)
    requires IndexInv(s) && SlotsKnown(s) && NoRepeats(s.items)
    requires Enabled(s, step) && step.SingleRead? && !ReadsWritten(s, step) && IndexInv(Next(s, step))
    ensures !TakenHolds(Next(s, step))
  {
    hide SlotsKnown, NoRepeats;
    SlotOfAnother(s, s.back);
  }

  /** With distinct values a read of an unwritten slot never gets the value of its ticket. */
  lemma RightReadNeedsWrite<T>(s: State<T>, step: Step<T>)
    requires ReadInv(s) && Enabled(s, step) && NoRepeats(s.items)
    requires IndexInv(Next(s, step)) && TakenHolds(Next(s, step))
    ensures ReadsWritten(s, step)
  {
    hide SlotsHold, TakenHolds, SlotsKnown, ReadWasWritten, IndexInv, Next, Enabled, NoRepeats;
    if !ReadsWritten(s, step) {
      if step.BulkCopy? {
        UnwrittenCopyIsWrong(s, step);
      } else {
        UnwrittenSingleIsWrong(s, step);
      }
    }
  }

  lemma InitReadInv<T>(capacity: nat, producers: nat)
    requires 0 < capacity
    ensures ReadInv(Init<T>(capacity, producers))
  {
    InitIndexInv<T>(capacity, producers);
  }

  lemma {:induction false} ReadsKeepRun<T>(states: seq<State<T>>, steps: seq<Step<T>>, k: nat)
    requires Run(states, steps) && ReadInv(states[0]) && k <= |steps|
    requires forall i :: 0 <= i < k ==> ReadsWritten(states[i], steps[i])
    ensures ReadInv(states[k])
  {
    if k > 0 {
      ReadsKeepRun(states, steps, k - 1);
      StepKeepsReads(states[k - 1], steps[k - 1]);
    }
  }

  /** The values only grow in number along a run. */
  lemma {:induction false} ItemsGrow<T>(states: seq<State<T>>, steps: seq<Step<T>>, i: nat, k: nat)
    requires Run(states, steps) && i <= k <= |steps|
    ensures states[i].items <= states[k].items
    decreases k
  {
    if i < k {
      ItemsGrow(states, steps, i, k - 1);
    }
  }

  /** What the consumer holds and has taken is, at each ticket, the value enqueued with that ticket. */
  ghost predicate TakesTheRightValues<T>(states: seq<State<T>>) {
    forall k :: 0 <= k < |states| ==> IndexInv(states[k]) && TakenHolds(states[k])
  }

  lemma PrefixNoRepeats<T>(a: seq<T>, b: seq<T>)
    requires a <= b && NoRepeats(b)
    ensures NoRepeats(a)
  {
  }

  lemma {:induction false} RightValuesNeedWrites<T>(states: seq<State<T>>, steps: seq<Step<T>>, k: nat)
    requires Run(states, steps) && ReadInv(states[0]) && k <= |steps| && NoRepeats(states[|steps|].items)
    requires TakesTheRightValues(states)
    ensures ReadInv(states[k]) && forall i :: 0 <= i < k ==> ReadsWritten(states[i], steps[i])
  {
    hide IndexInv, TakenHolds, SlotsHold, SlotsKnown, NoRepeats;
    if k > 0 {
      RightValuesNeedWrites(states, steps, k - 1);
      ItemsGrow(states, steps, k - 1, |steps|);
      PrefixNoRepeats(states[k - 1].items, states[|steps|].items);
      assert states[k] == Next(states[k - 1], steps[k - 1]);
      RightReadNeedsWrite(states[k - 1], steps[k - 1]);
      StepKeepsReads(states[k - 1], steps[k - 1]);
    }
  }

  /**
    Exactly when the consumer takes the right values: if each slot had been written when it was read, whatever the
    order of the publications; and only then, in the runs whose values tell the tickets apart.
  */
  lemma ReadsAreExact<T>(capacity: nat, producers: nat, states: seq<State<T>>, steps: seq<Step<T>>)
    requires 0 < capacity && RunFromInit(capacity, producers, states, steps)
    ensures (forall i :: 0 <= i < |steps| ==> ReadsWritten(states[i], steps[i])) ==> TakesTheRightValues(states)
    ensures NoRepeats(states[|steps|].items) && TakesTheRightValues(states) ==>
            forall i :: 0 <= i < |steps| ==> ReadsWritten(states[i], steps[i])
  {
    InitReadInv<T>(capacity, producers);
    if forall i :: 0 <= i < |steps| ==> ReadsWritten(states[i], steps[i]) {
      forall k | 0 <= k < |states| ensures ReadInv(states[k]) {
        ReadsKeepRun(states, steps, k);
      }
    }
    if NoRepeats(states[|steps|].items) && TakesTheRightValues(states) {
      RightValuesNeedWrites(states, steps, |steps|);
    }
  }
}
