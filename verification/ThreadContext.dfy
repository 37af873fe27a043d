/**
  The objects behind ZoneLog: the slab stack of src/stack/slabstack.h and the per-thread context of
  src/Context.cpp.  A pointer into the slab is its index.  The name reference, the clock and the frame
  number are parameters; interning is part of DrainThread and PointerHashes.
*/
module ThreadContexts {
  import opened Common
  import opened Events
  import opened RingQueues
  import opened ZoneLog

  /** A stack that never allocates after construction. */
  class SlabStack<T(0)> {
    const capacity: nat
    const slab: array<T>
    var topIndex: nat

    ghost predicate Valid()
      reads this
    {
      slab.Length == capacity && topIndex <= capacity
    }

    constructor (maxSize: nat)
      ensures Valid() && capacity == maxSize && topIndex == 0 && fresh(slab)
    {
      capacity := maxSize;
      slab := new T[maxSize];
      topIndex := 0;
    }

    /** Claims the next slot; nothing is written yet. */
    method Push() returns (p: Option<nat>)
      requires Valid()
      modifies this`topIndex
      ensures Valid()
      ensures old(topIndex) == capacity ==> p == None && topIndex == old(topIndex)
      ensures old(topIndex) < capacity ==> p == Some(old(topIndex)) && topIndex == old(topIndex) + 1
    {
      if topIndex == capacity {
        return None;
      }
      p := Some(topIndex);
      topIndex := topIndex + 1;
    }

    /** Gives up the top slot, which stays readable. */
    method Pop() returns (p: Option<nat>)
      requires Valid()
      modifies this`topIndex
      ensures Valid()
      ensures old(topIndex) == 0 ==> p == None && topIndex == 0
      ensures 0 < old(topIndex) ==> p == Some(topIndex) && topIndex == old(topIndex) - 1
    {
      if topIndex == 0 {
        return None;
      }
      topIndex := topIndex - 1;
      p := Some(topIndex);
    }

    method Peek() returns (p: Option<nat>)
      requires Valid()
      ensures p == if topIndex == 0 then None else Some(topIndex - 1)
    {
      if topIndex == 0 {
        return None;
      }
      p := Some(topIndex - 1);
    }
  }

  /** The part of ProfileContext a thread uses while profiling. */
  class ProfileContext {
    var nextMessageID: nat
    var frameNumber: nat
    const eventQueue: RingQueue<ProfileEvent>

    constructor ()
      ensures nextMessageID == 1 && frameNumber == 0
      ensures fresh(eventQueue) && fresh(eventQueue.buffer) && eventQueue.Valid() && eventQueue.items == []
    {
      nextMessageID, frameNumber := 1, 0;
      eventQueue := new RingQueue(MAX_EVENT_BUFFER);
    }

    method NextEventID() returns (id: nat)
      modifies this`nextMessageID
      ensures id == old(nextMessageID) && nextMessageID == id + 1
    {
      id := nextMessageID;
      nextMessageID := nextMessageID + 1;
    }
  }

  class ThreadContext {
    const threadIndex: nat
    const profileIntervalStack: SlabStack<ProfileEvent>

    ghost predicate Valid()
      reads profileIntervalStack
    {
      profileIntervalStack.Valid()
    }

    /** The open zones, outermost first; their values are still to come. */
    ghost function Open(): (zones: seq<ProfileEvent>)
      requires Valid()
      reads profileIntervalStack, profileIntervalStack.slab
      ensures |zones| == profileIntervalStack.topIndex
    {
      seq(profileIntervalStack.topIndex,
        i requires 0 <= i < profileIntervalStack.topIndex && Valid()
          reads profileIntervalStack, profileIntervalStack.slab
        => profileIntervalStack.slab[i].(value := 0))
    }

    /** The context's queue is not this thread's slab. */
    ghost predicate Apart(context: ProfileContext) {
      && profileIntervalStack.slab as object != context.eventQueue.buffer as object
      && profileIntervalStack as object != context.eventQueue as object
    }

    constructor (threadIndex: nat, depth: nat)
      ensures Valid() && this.threadIndex == threadIndex && Open() == []
      ensures profileIntervalStack.capacity == depth
      ensures fresh(profileIntervalStack) && fresh(profileIntervalStack.slab)
    {
      this.threadIndex := threadIndex;
      profileIntervalStack := new SlabStack(depth);
    }

    method PeekParentID() returns (id: nat)
      requires Valid()
      ensures id == ParentOf(Open())
    {
      var parentZone := profileIntervalStack.Peek();
      match parentZone {
        case Some(p) => id := profileIntervalStack.slab[p].id;
        case None => id := 0;
      }
    }

    /** Draws an identifier and fills in what every event carries. */
    method StampEvent(context: ProfileContext, ev: ProfileEvent, reference: nat, now: int)
        returns (stamped: ProfileEvent)
      modifies context`nextMessageID
      ensures context.nextMessageID == old(context.nextMessageID) + 1
      ensures stamped == ev.(id := old(context.nextMessageID), threadID := threadIndex, timestamp := now,
                             frameNumber := context.frameNumber, eventNameRef := reference)
    {
      var id := context.NextEventID();
      stamped := ev.(id := id, threadID := threadIndex, timestamp := now,
                     frameNumber := context.frameNumber, eventNameRef := reference);
    }

    method Zone(context: ProfileContext, reference: nat, now: int)
      requires Valid()
      modifies context`nextMessageID, profileIntervalStack`topIndex, profileIntervalStack.slab
      ensures Valid()
      ensures var t := Timed(ZoneCall(reference), old(context.nextMessageID), now, context.frameNumber);
        Open() == Step(profileIntervalStack.capacity, threadIndex, old(Open()), t).0
      ensures context.nextMessageID == old(context.nextMessageID)
        + (if |old(Open())| == profileIntervalStack.capacity then 0 else 1)
    {
      var parentRef := PeekParentID();
      var slot := profileIntervalStack.Push();
      if slot.None? {
        return;
      }
      var slab := profileIntervalStack.slab;
      var stamped := StampEvent(context, slab[slot.value], reference, now);
      slab[slot.value] := stamped.(eventType := EV_ZONE_INTERVAL, parentEventRef := parentRef);
    }

    /** The innermost zone ends; its event is enqueued unless the queue is full. */
    method End(context: ProfileContext, now: int) returns (enqueued: bool)
      requires Valid() && context.eventQueue.Valid() && Apart(context)
      modifies profileIntervalStack`topIndex, profileIntervalStack.slab
      modifies context.eventQueue`front, context.eventQueue`readfront, context.eventQueue`items
      modifies context.eventQueue.buffer
      ensures Valid() && context.eventQueue.Valid()
      ensures enqueued <==>
        old(Open()) != [] && |old(context.eventQueue.Contents())| < context.eventQueue.capacity - 1
      ensures var t := Timed(EndCall, context.nextMessageID, now, context.frameNumber);
        var step := Step(profileIntervalStack.capacity, threadIndex, old(Open()), t);
        && Open() == step.0
        && context.eventQueue.items == old(context.eventQueue.items) + (if enqueued then step.1 else [])
    {
      var slot := profileIntervalStack.Pop();
      if slot.None? {
        return false;
      }
      var slab := profileIntervalStack.slab;
      slab[slot.value] := slab[slot.value].(value := (now - slab[slot.value].timestamp) % U32);
      enqueued := context.eventQueue.TryEnqueue(slab[slot.value]);
    }

    method Sample(context: ProfileContext, kind: ProbeKind, reference: nat, value: nat, now: int)
        returns (enqueued: bool)
      requires Valid() && context.eventQueue.Valid() && Apart(context)
      modifies context`nextMessageID
      modifies context.eventQueue`front, context.eventQueue`readfront, context.eventQueue`items
      modifies context.eventQueue.buffer
      ensures Valid() && context.eventQueue.Valid() && Open() == old(Open())
      ensures enqueued <==> |old(context.eventQueue.Contents())| < context.eventQueue.capacity - 1
      ensures context.nextMessageID == old(context.nextMessageID) + 1
      ensures var t := Timed(SampleCall(kind, reference, value), old(context.nextMessageID), now, context.frameNumber);
        var step := Step(profileIntervalStack.capacity, threadIndex, old(Open()), t);
        context.eventQueue.items == old(context.eventQueue.items) + (if enqueued then step.1 else [])
    {
      var pe := ProfileEvent(Tag(kind), 0, 0, 0, 0, 0, 0, value);
      pe := StampEvent(context, pe, reference, now);
      var parentRef := PeekParentID();
      enqueued := context.eventQueue.TryEnqueue(pe.(parentEventRef := parentRef));
    }
  }
}
