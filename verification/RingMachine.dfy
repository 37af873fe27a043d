/**
  The lock-free ring of src/queue/lockless_ring.h, one atomic action at a time.

  Any number of producers and one consumer share three counters and a slot array.  Each load,
  compare-and-swap, slot access, store and fetch-and-add is a step of its own, and the steps of
  different threads interleave freely (sequentially consistent, counters below their width).

  Three fields record history and steer nothing: `items`, the claimed values in ticket order;
  `written`, the tickets whose slot has been filled; `out`, the values the consumer has taken.
*/
module RingMachine {
  import opened Common

  datatype Producer<T> =
    | Idle
    | HasFront(value: T, f: nat)       // `f` was loaded from front
    | NotFull(value: T, f: nat)        // back was checked; about to compare-and-swap
    | Claimed(value: T, ticket: nat)   // owns slot `ticket`, not yet written
    | Written(ticket: nat)             // slot filled, readfront not yet bumped

  datatype Consumer<T> =
    | Resting
    | SingleLoaded(f: nat)
    | SingleReady(b: nat)
    | SingleHolds(b: nat, x: Option<T>)
    | BulkLoaded(f: nat, maxOut: nat)
    | BulkCopying(n: nat, got: seq<Option<T>>)

  datatype State<T> = State(
    capacity: nat,
    buffer: seq<Option<T>>,
    back: nat,
    front: nat,
    readfront: nat,
    producers: seq<Producer<T>>,
    consumer: Consumer<T>,
    items: seq<T>,
    written: set<nat>,
    out: seq<Option<T>>)

  datatype Step<T> =
    | LoadFront(p: nat, value: T)
    | CheckBack(p: nat)
    | CompareAndSwap(p: nat, spurious: bool)
    | WriteSlot(p: nat)
    | Publish(p: nat)
    | SingleLoad
    | SingleCheck
    | SingleRead
    | SingleStore
    | BulkLoad(maxOut: nat)
    | BulkCheck
    | BulkCopy
    | BulkCommit

  /** A new ring: the slots hold nothing the queue has written. */
  function Init<T>(capacity: nat, producers: nat): State<T> {
    State(capacity, seq(capacity + 1, _ => None), 0, 0, 0, seq(producers, _ => Idle), Resting, [], {}, [])
  }

  predicate Enabled<T>(s: State<T>, step: Step<T>) {
    match step
    case LoadFront(p, _) => p < |s.producers| && s.producers[p].Idle?
    case CheckBack(p) => p < |s.producers| && s.producers[p].HasFront? && 0 < s.capacity
    case CompareAndSwap(p, _) => p < |s.producers| && s.producers[p].NotFull?
    case WriteSlot(p) => p < |s.producers| && s.producers[p].Claimed? && 0 < s.capacity < |s.buffer|
    case Publish(p) => p < |s.producers| && s.producers[p].Written?
    case SingleLoad => s.consumer.Resting?
    case SingleCheck => s.consumer.SingleLoaded? && 0 < s.capacity
    case SingleRead => s.consumer.SingleReady? && 0 < s.capacity < |s.buffer|
    case SingleStore => s.consumer.SingleHolds?
    case BulkLoad(_) => s.consumer.Resting?
    case BulkCheck => s.consumer.BulkLoaded? && 0 < s.capacity
    case BulkCopy =>
      && s.consumer.BulkCopying? && 0 < s.capacity
      && |s.consumer.got| < s.consumer.n
      && s.back % s.capacity + |s.consumer.got| < |s.buffer|
    case BulkCommit => s.consumer.BulkCopying? && |s.consumer.got| == s.consumer.n
  }

  function WithProducer<T>(s: State<T>, p: nat, q: Producer<T>): State<T>
    requires p < |s.producers|
  {
    s.(producers := s.producers[p := q])
  }

  /** How many elements one bulk dequeue copies: a block that stops at the wrap point. */
  function BlockSize(f: nat, b: nat, capacity: nat, maxOut: nat): nat
    requires 0 < capacity
  {
    var fm, bm := f % capacity, b % capacity;
    var top := if fm < bm then capacity else fm;
    if top - bm > maxOut then maxOut else top - bm
  }

  function Next<T>(s: State<T>, step: Step<T>): State<T>
    requires Enabled(s, step)
  {
    match step
    case LoadFront(p, value) => WithProducer(s, p, HasFront(value, s.front))
    case CheckBack(p) =>
      var q := s.producers[p];
      if (q.f + 1) % s.capacity == s.back % s.capacity
      then WithProducer(s, p, Idle)   // reported full
      else WithProducer(s, p, NotFull(q.value, q.f))
    case CompareAndSwap(p, spurious) =>
      var q := s.producers[p];
      if s.front == q.f && !spurious
      then WithProducer(s, p, Claimed(q.value, q.f)).(front := s.front + 1, items := s.items + [q.value])
      else WithProducer(s, p, HasFront(q.value, s.front))
    case WriteSlot(p) =>
      var q := s.producers[p];
      WithProducer(s, p, Written(q.ticket)).(
        buffer := s.buffer[q.ticket % s.capacity := Some(q.value)],
        written := s.written + {q.ticket})
    case Publish(p) => WithProducer(s, p, Idle).(readfront := s.readfront + 1)
    case SingleLoad => s.(consumer := SingleLoaded(s.readfront))
    case SingleCheck =>
      if s.consumer.f % s.capacity == s.back % s.capacity
      then s.(consumer := Resting)    // reported empty
      else s.(consumer := SingleReady(s.back))
    case SingleRead =>
      s.(consumer := SingleHolds(s.consumer.b, s.buffer[s.consumer.b % s.capacity]))
    case SingleStore =>
      s.(consumer := Resting, back := s.consumer.b + 1, out := s.out + [s.consumer.x])
    case BulkLoad(maxOut) => s.(consumer := BulkLoaded(s.readfront, maxOut))
    case BulkCheck =>
      if s.consumer.f % s.capacity == s.back % s.capacity
      then s.(consumer := Resting)    // returned 0
      else s.(consumer := BulkCopying(BlockSize(s.consumer.f, s.back, s.capacity, s.consumer.maxOut), []))
    case BulkCopy =>
      s.(consumer := BulkCopying(s.consumer.n,
           s.consumer.got + [s.buffer[s.back % s.capacity + |s.consumer.got|]]))
    case BulkCommit =>
      s.(consumer := Resting, back := s.back + s.consumer.n, out := s.out + s.consumer.got)
  }

  // ----- Runs -----

  /** `states` are the states the machine passes through on `steps`, first and last included. */
  ghost predicate Run<T>(states: seq<State<T>>, steps: seq<Step<T>>) {
    && |states| == |steps| + 1
    && forall i :: 0 <= i < |steps| ==> Enabled(states[i], steps[i]) && states[i + 1] == Next(states[i], steps[i])
  }

  ghost predicate RunFromInit<T>(capacity: nat, producers: nat, states: seq<State<T>>, steps: seq<Step<T>>) {
    Run(states, steps) && states[0] == Init(capacity, producers)
  }

  // ----- Index safety: every interleaving -----

  predicate Pending<T>(q: Producer<T>) {
    q.Claimed? || q.Written?
  }

  /** Producers that hold a ticket they have not published. */
  function PendingCount<T>(ps: seq<Producer<T>>): nat {
    if ps == [] then 0 else (if Pending(ps[0]) then 1 else 0) + PendingCount(ps[1..])
  }

  lemma {:induction false} PendingCountUpdate<T>(ps: seq<Producer<T>>, p: nat, q: Producer<T>)
    requires p < |ps|
    ensures PendingCount(ps[p := q]) + (if Pending(ps[p]) then 1 else 0)
         == PendingCount(ps) + (if Pending(q) then 1 else 0)
  {
    if p == 0 {
      assert ps[p := q][1..] == ps[1..];
    } else {
      assert ps[p := q][1..] == ps[1..][p - 1 := q];
      PendingCountUpdate(ps[1..], p - 1, q);
    }
  }

  lemma {:induction false} NothingPending<T>(ps: seq<Producer<T>>)
    requires forall i :: 0 <= i < |ps| ==> !Pending(ps[i])
    ensures PendingCount(ps) == 0
  {
    if ps != [] {
      NothingPending(ps[1..]);
    }
  }

  /** The counters never cross, and the ring never holds more than capacity - 1 tickets. */
  ghost predicate CountersOrdered<T>(s: State<T>) {
    s.back <= s.readfront <= s.front <= s.back + s.capacity - 1
  }

  ghost predicate TicketsDistinct<T>(ps: seq<Producer<T>>) {
    forall i, j :: 0 <= i < j < |ps| && Pending(ps[i]) && Pending(ps[j]) ==> ps[i].ticket != ps[j].ticket
  }

  /** What each producer's stale loads still guarantee. */
  ghost predicate ProducerOk<T>(s: State<T>, q: Producer<T>) {
    match q
    case Idle => true
    case HasFront(_, f) => f <= s.front
    case NotFull(_, f) => f <= s.front && (f == s.front ==> f + 1 <= s.back + s.capacity - 1)
    case Claimed(v, t) => t < s.front && t < |s.items| && t !in s.written && s.items[t] == v
    case Written(t) => t < s.front && t in s.written
  }

  ghost predicate ConsumerOk<T>(s: State<T>) {
    match s.consumer
    case Resting => true
    case SingleLoaded(f) => s.back <= f <= s.readfront
    case SingleReady(b) => b == s.back < s.readfront
    case SingleHolds(b, _) => b == s.back < s.readfront
    case BulkLoaded(f, _) => s.back <= f <= s.readfront
    case BulkCopying(n, got) =>
      |got| <= n && s.back + n <= s.readfront && (0 < s.capacity ==> s.back % s.capacity + n <= s.capacity)
  }

  ghost predicate IndexInv<T>(s: State<T>) {
    && 0 < s.capacity
    && |s.buffer| == s.capacity + 1
    && s.buffer[s.capacity].None?
    && CountersOrdered(s)
    && |s.items| == s.front
    && |s.out| == s.back
    && (forall t :: t in s.written ==> t < s.front)
    && s.front - s.readfront == PendingCount(s.producers)
    && TicketsDistinct(s.producers)
    && (forall i :: 0 <= i < |s.producers| ==> ProducerOk(s, s.producers[i]))
    && ConsumerOk(s)
  }

  lemma InitIndexInv<T>(capacity: nat, producers: nat)
    requires 0 < capacity
    ensures IndexInv(Init<T>(capacity, producers))
  {
    NothingPending(Init<T>(capacity, producers).producers);
  }

  /** A block never reaches past what was published when it was measured, nor past the wrap point. */
  lemma BlockFits(f: nat, b: nat, capacity: nat, maxOut: nat)
    requires 0 < capacity && b < f < b + capacity
    ensures b + BlockSize(f, b, capacity, maxOut) <= f
    ensures b % capacity + BlockSize(f, b, capacity, maxOut) <= capacity
    ensures maxOut > 0 ==> BlockSize(f, b, capacity, maxOut) > 0
    ensures BlockSize(f, b, capacity, maxOut)
         == (if maxOut < f - b && b % capacity + maxOut <= capacity then maxOut
             else if b % capacity + (f - b) <= capacity then f - b
             else capacity - b % capacity)
  {
    var bm, d := b % capacity, f - b;
    assert b == capacity * (b / capacity) + bm;
    if bm + d < capacity {
      RemainderStep(b, d, capacity);
    } else {
      assert f == capacity * (b / capacity + 1) + (bm + d - capacity) by {
        assert capacity * (b / capacity + 1) == capacity * (b / capacity) + capacity;
      }
      RemainderOf(b / capacity + 1, bm + d - capacity, capacity);
    }
  }

  /** A producer without a ticket moves on without one. */
  lemma ProducerMoves<T>(s: State<T>, p: nat, q: Producer<T>)
    requires IndexInv(s) && p < |s.producers| && !Pending(s.producers[p]) && !Pending(q) && ProducerOk(s, q)
    ensures IndexInv(WithProducer(s, p, q))
  {
    PendingCountUpdate(s.producers, p, q);
    var s' := WithProducer(s, p, q);
    forall i | 0 <= i < |s'.producers| ensures ProducerOk(s', s'.producers[i]) {
      assert i != p ==> ProducerOk(s, s.producers[i]);
    }
  }

  lemma LoadFrontKeepsIndices<T>(s: State<T>, step: Step<T>)
    requires IndexInv(s) && Enabled(s, step) && step.LoadFront?
    ensures IndexInv(Next(s, step))
  {
    ProducerMoves(s, step.p, HasFront(step.value, s.front));
  }

  /** What a passed fullness test guarantees. */
  lemma CheckedRoom<T>(s: State<T>, p: nat)
    requires IndexInv(s) && Enabled(s, CheckBack(p))
    ensures var q := s.producers[p];
      (q.f + 1) % s.capacity != s.back % s.capacity ==> ProducerOk(s, NotFull(q.value, q.f))
  {
    var q := s.producers[p];
    assert ProducerOk(s, q);
    if q.f == s.front {
      FullTest(q.f, s.back, s.capacity);
    }
  }

  lemma CheckBackKeepsIndices<T>(s: State<T>, step: Step<T>)
    requires IndexInv(s) && Enabled(s, step) && step.CheckBack?
    ensures IndexInv(Next(s, step))
  {
    hide IndexInv, ProducerOk;
    var q := s.producers[step.p];
    CheckedRoom(s, step.p);
    if (q.f + 1) % s.capacity == s.back % s.capacity {
      IdleOk(s);
      ProducerMoves(s, step.p, Idle);
    } else {
      ProducerMoves(s, step.p, NotFull(q.value, q.f));
    }
  }

  lemma IdleOk<T>(s: State<T>)
    ensures ProducerOk(s, Idle) && forall value :: ProducerOk(s, HasFront(value, s.front))
  {
  }

  /** The swap that succeeds claims the ticket front, for which a passed test has found room. */
  lemma WinKeepsIndices<T>(s: State<T>, step: Step<T>)
    requires IndexInv(s) && Enabled(s, step) && step.CompareAndSwap?
    requires s.front == s.producers[step.p].f && !step.spurious
    ensures IndexInv(Next(s, step))
  {
    var s', q := Next(s, step), s.producers[step.p];
    PendingCountUpdate(s.producers, step.p, s'.producers[step.p]);
    assert ProducerOk(s, q);
    forall i | 0 <= i < |s'.producers| ensures ProducerOk(s', s'.producers[i]) {
      assert i != step.p ==> ProducerOk(s, s.producers[i]);
    }
  }

  lemma CompareAndSwapKeepsIndices<T>(s: State<T>, step: Step<T>)
    requires IndexInv(s) && Enabled(s, step) && step.CompareAndSwap?
    ensures IndexInv(Next(s, step))
  {
    hide IndexInv, ProducerOk;
    var q := s.producers[step.p];
    if s.front == q.f && !step.spurious {
      WinKeepsIndices(s, step);
    } else {
      IdleOk(s);
      ProducerMoves(s, step.p, HasFront(q.value, s.front));
    }
  }

  lemma WriteSlotKeepsIndices<T>(s: State<T>, step: Step<T>)
    requires IndexInv(s) && Enabled(s, step) && step.WriteSlot?
    ensures IndexInv(Next(s, step))
  {
    PendingCountUpdate(s.producers, step.p, Next(s, step).producers[step.p]);
  }

  lemma PublishKeepsIndices<T>(s: State<T>, step: Step<T>)
    requires IndexInv(s) && Enabled(s, step) && step.Publish?
    ensures IndexInv(Next(s, step))
  {
    PendingCountUpdate(s.producers, step.p, Next(s, step).producers[step.p]);
  }

  lemma SingleStepKeepsIndices<T>(s: State<T>, step: Step<T>)
    requires IndexInv(s) && Enabled(s, step)
    requires step.SingleLoad? || step.SingleCheck? || step.SingleRead? || step.SingleStore?
    ensures IndexInv(Next(s, step))
  {
    if step.SingleCheck? {
      RemainderDistinguishes(s.consumer.f, s.back, s.capacity);
    }
  }

  lemma BulkCheckKeepsIndices<T>(s: State<T>, step: Step<T>)
    requires IndexInv(s) && Enabled(s, step) && step.BulkCheck?
    ensures IndexInv(Next(s, step))
  {
    RemainderDistinguishes(s.consumer.f, s.back, s.capacity);
    if s.consumer.f != s.back {
      BlockFits(s.consumer.f, s.back, s.capacity, s.consumer.maxOut);
    }
  }

  lemma BulkStepKeepsIndices<T>(s: State<T>, step: Step<T>)
    requires IndexInv(s) && Enabled(s, step) && (step.BulkLoad? || step.BulkCopy? || step.BulkCommit?)
    ensures IndexInv(Next(s, step))
  {
  }

  lemma StepKeepsIndices<T>(s: State<T>, step: Step<T>)
    requires IndexInv(s) && Enabled(s, step)
    ensures IndexInv(Next(s, step))
  {
    if step.LoadFront? {
      LoadFrontKeepsIndices(s, step);
    } else if step.CheckBack? {
      CheckBackKeepsIndices(s, step);
    } else if step.CompareAndSwap? {
      CompareAndSwapKeepsIndices(s, step);
    } else if step.WriteSlot? {
      WriteSlotKeepsIndices(s, step);
    } else if step.Publish? {
      PublishKeepsIndices(s, step);
    } else if step.BulkCheck? {
      BulkCheckKeepsIndices(s, step);
    } else if step.BulkLoad? || step.BulkCopy? || step.BulkCommit? {
      BulkStepKeepsIndices(s, step);
    } else {
      SingleStepKeepsIndices(s, step);
    }
  }

  lemma {:induction false} RunKeepsIndices<T>(states: seq<State<T>>, steps: seq<Step<T>>, k: nat)
    requires Run(states, steps) && IndexInv(states[0]) && k <= |steps|
    ensures IndexInv(states[k]) && states[k].capacity == states[0].capacity
    ensures |states[k].producers| == |states[0].producers|
  {
    if k > 0 {
      RunKeepsIndices(states, steps, k - 1);
      StepKeepsIndices(states[k - 1], steps[k - 1]);
    }
  }

  /**
    Index safety of every interleaving, although producers test fullness on stale loads: the counters
    keep their order, front - readfront counts exactly the claimed but unpublished tickets, no two
    producers hold one ticket, and the spare slot past the first `capacity` slots is never touched.
  */
  lemma IndexSafety<T>(capacity: nat, producers: nat, states: seq<State<T>>, steps: seq<Step<T>>)
    requires 0 < capacity && RunFromInit(capacity, producers, states, steps)
    ensures forall k :: 0 <= k <= |steps| ==> var s := states[k];
      && s.back <= s.readfront <= s.front <= s.back + capacity - 1
      && s.front - s.readfront == PendingCount(s.producers)
      && TicketsDistinct(s.producers)
      && |s.items| == s.front && |s.out| == s.back
      && |s.buffer| == capacity + 1 && s.buffer[capacity].None?
  {
    InitIndexInv<T>(capacity, producers);
    forall k | 0 <= k <= |steps| ensures IndexInv(states[k]) && states[k].capacity == capacity {
      RunKeepsIndices(states, steps, k);
    }
  }
}
