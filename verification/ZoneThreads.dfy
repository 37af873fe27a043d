/**
  Several threads profiling at once.  They share the event counter (nextMessageID, which starts at 1) and the
  log.  A call is split where other threads can see it: first it draws its identifier, reads clock and frame and
  works on its own stack, and later it enqueues the event it emits, if any; between the two, and between calls,
  the other threads do what they like.
*/
module ZoneThreads {
  import opened Events
  import opened ZoneLog
  import opened ZoneTree
  import opened ZoneIntervals

  /** A call by a thread, with the clock and the frame number it reads; and the enqueue of its oldest open event. */
  datatype Action =
    | Begin(thread: nat, call: Call, time: int, frame: nat)
    | Enqueue(thread: nat)

  /** `pending` are each thread's events on their way to the log; `owner` records who drew each identifier. */
  datatype Program = Program(
    nextId: nat,
    stacks: seq<seq<ProfileEvent>>,
    pending: seq<seq<ProfileEvent>>,
    log: seq<ProfileEvent>,
    owner: seq<nat>)

  function Start(threads: nat): Program {
    Program(1, seq(threads, _ => []), seq(threads, _ => []), [], [])
  }

  /** Whether a call draws an identifier: a probe does, and a zone that finds room on the stack. */
  predicate Draws(capacity: nat, stack: seq<ProfileEvent>, call: Call) {
    call.SampleCall? || (call.ZoneCall? && |stack| != capacity)
  }

  function BeginCall(capacity: nat, s: Program, a: Action): Program
    requires a.Begin? && a.thread < |s.stacks| == |s.pending|
  {
    var stack := s.stacks[a.thread];
    var step := Step(capacity, a.thread, stack, Timed(a.call, s.nextId, a.time, a.frame));
    var draws := Draws(capacity, stack, a.call);
    Program(
      if draws then s.nextId + 1 else s.nextId,
      s.stacks[a.thread := step.0],
      s.pending[a.thread := s.pending[a.thread] + step.1],
      s.log,
      if draws then s.owner + [a.thread] else s.owner)
  }

  function EnqueueOldest(s: Program, t: nat): Program
    requires t < |s.pending|
  {
    if s.pending[t] == [] then s
    else s.(log := s.log + [s.pending[t][0]], pending := s.pending[t := s.pending[t][1..]])
  }

  function Act(capacity: nat, s: Program, a: Action): Program
    requires a.thread < |s.stacks| == |s.pending|
  {
    match a
    case Begin(_, _, _, _) => BeginCall(capacity, s, a)
    case Enqueue(t) => EnqueueOldest(s, t)
  }

  ghost predicate Threads(acts: seq<Action>, threads: nat) {
    forall i :: 0 <= i < |acts| ==> acts[i].thread < threads
  }

  function Execute(capacity: nat, threads: nat, acts: seq<Action>): (s: Program)
    requires Threads(acts, threads)
    ensures |s.stacks| == |s.pending| == threads
  {
    if acts == [] then Start(threads)
    else Act(capacity, Execute(capacity, threads, acts[..|acts| - 1]), acts[|acts| - 1])
  }

  predicate Begins(a: Action, t: nat) {
    a.Begin? && a.thread == t
  }

  /** One thread's calls, in order. */
  function CallsOf(acts: seq<Action>, t: nat): seq<Call> {
    if acts == [] then []
    else
      var last := acts[|acts| - 1];
      CallsOf(acts[..|acts| - 1], t) + (if Begins(last, t) then [last.call] else [])
  }

  /** One thread's calls, each with the counter it found. */
  function TimedOf(capacity: nat, threads: nat, acts: seq<Action>, t: nat): (ts: seq<Timed>)
    requires Threads(acts, threads)
    ensures |ts| == |CallsOf(acts, t)|
  {
    if acts == [] then []
    else
      var before, a := acts[..|acts| - 1], acts[|acts| - 1];
      TimedOf(capacity, threads, before, t)
      + (if Begins(a, t) then [Timed(a.call, Execute(capacity, threads, before).nextId, a.time, a.frame)] else [])
  }

  /** One thread's events. */
  function LogOf(log: seq<ProfileEvent>, t: nat): seq<ProfileEvent> {
    if log == [] then []
    else LogOf(log[..|log| - 1], t) + (if log[|log| - 1].threadID == t then [log[|log| - 1]] else [])
  }

  lemma {:induction false} LogOfConcat(a: seq<ProfileEvent>, b: seq<ProfileEvent>, t: nat)
    ensures LogOf(a + b, t) == LogOf(a, t) + LogOf(b, t)
  {
    if b == [] {
      assert a + b == a;
    } else {
      LogOfConcat(a, b[..|b| - 1], t);
      assert (a + b)[..|a + b| - 1] == a + b[..|b| - 1];
    }
  }

  // ----- What every call keeps -----

  /** An event's identifier was drawn by its own thread, after its parent's, which the same thread drew. */
  ghost predicate EventOk(s: Program, e: ProfileEvent) {
    && |s.owner| == s.nextId - 1
    && 1 <= e.id < s.nextId && s.owner[e.id - 1] == e.threadID
    && e.parentEventRef < e.id
    && (e.parentEventRef != 0 ==> s.owner[e.parentEventRef - 1] == e.threadID)
  }

  ghost predicate OwnEvents(s: Program, events: seq<ProfileEvent>, t: nat) {
    forall k :: 0 <= k < |events| ==> EventOk(s, events[k]) && events[k].threadID == t
  }

  ghost predicate Owned(s: Program) {
    && 1 <= s.nextId && |s.owner| == s.nextId - 1 && |s.stacks| == |s.pending|
    && (forall i :: 0 <= i < |s.log| ==> EventOk(s, s.log[i]))
    && (forall t :: 0 <= t < |s.stacks| ==> OwnEvents(s, s.stacks[t], t))
    && (forall t :: 0 <= t < |s.stacks| ==> OwnEvents(s, s.pending[t], t))
  }

  /** No identifier of one list occurs in the other. */
  ghost predicate Disjoint(a: seq<ProfileEvent>, b: seq<ProfileEvent>) {
    forall i, k :: 0 <= i < |a| && 0 <= k < |b| ==> a[i].id != b[k].id
  }

  /** No identifier occurs twice among the logged events, the pending ones and the open zones. */
  ghost predicate Distinct(s: Program) {
    && |s.stacks| == |s.pending| && DistinctIds(s.log)
    && forall t :: 0 <= t < |s.stacks| ==>
      && DistinctIds(s.stacks[t]) && DistinctIds(s.pending[t]) && Disjoint(s.pending[t], s.stacks[t])
      && Disjoint(s.log, s.stacks[t]) && Disjoint(s.log, s.pending[t])
  }

  lemma OwnEventsGrow(s: Program, s': Program, events: seq<ProfileEvent>, t: nat)
    requires OwnEvents(s, events, t) && s.owner <= s'.owner && |s'.owner| == s'.nextId - 1 && s.nextId <= s'.nextId
    ensures OwnEvents(s', events, t)
  {
  }

  lemma BeginKeepsOwned(capacity: nat, s: Program, a: Action)
    requires Owned(s) && a.Begin? && a.thread < |s.stacks|
    ensures Owned(Act(capacity, s, a))
  {
    var s' := Act(capacity, s, a);
    var t := a.thread;
    var stack := s.stacks[t];
    if stack != [] {
      assert EventOk(s, stack[|stack| - 1]);
    }
    forall u | 0 <= u < |s.stacks| ensures OwnEvents(s', s.stacks[u], u) && OwnEvents(s', s.pending[u], u) {
      OwnEventsGrow(s, s', s.stacks[u], u);
      OwnEventsGrow(s, s', s.pending[u], u);
    }
  }

  lemma EnqueueKeepsOwned(s: Program, t: nat)
    requires Owned(s) && t < |s.stacks|
    ensures Owned(EnqueueOldest(s, t))
  {
    var s' := EnqueueOldest(s, t);
    forall u | 0 <= u < |s.stacks| ensures OwnEvents(s', s.stacks[u], u) && OwnEvents(s', s.pending[u], u) {
      OwnEventsGrow(s, s', s.stacks[u], u);
      OwnEventsGrow(s, s', s.pending[u], u);
    }
  }

  lemma BeginKeepsDistinct(capacity: nat, s: Program, a: Action)
    requires Owned(s) && Distinct(s) && a.Begin? && a.thread < |s.stacks|
    ensures Distinct(Act(capacity, s, a))
  {
    var s' := Act(capacity, s, a);
    var t := a.thread;
    assert OwnEvents(s, s.stacks[t], t) && OwnEvents(s, s.pending[t], t);
    forall u | 0 <= u < |s.stacks| && u != t
      ensures s'.stacks[u] == s.stacks[u] && s'.pending[u] == s.pending[u]
    {
    }
  }

  /** The identifiers of different threads differ: each has one owner. */
  lemma EnqueueKeepsDistinct(s: Program, t: nat)
    requires Owned(s) && Distinct(s) && t < |s.stacks|
    ensures Distinct(EnqueueOldest(s, t))
  {
    if s.pending[t] != [] {
      var e := s.pending[t][0];
      assert OwnEvents(s, s.pending[t], t);
      forall u | 0 <= u < |s.stacks| && u != t ensures Disjoint([e], s.stacks[u]) && Disjoint([e], s.pending[u]) {
        assert OwnEvents(s, s.stacks[u], u) && OwnEvents(s, s.pending[u], u);
      }
    }
  }

  lemma {:induction false} ExecuteOk(capacity: nat, threads: nat, acts: seq<Action>)
    requires Threads(acts, threads)
    ensures Owned(Execute(capacity, threads, acts)) && Distinct(Execute(capacity, threads, acts))
  {
    if acts != [] {
      var before, a := acts[..|acts| - 1], acts[|acts| - 1];
      var s := Execute(capacity, threads, before);
      ExecuteOk(capacity, threads, before);
      hide Owned, Distinct;
      if a.Begin? {
        BeginKeepsOwned(capacity, s, a);
        BeginKeepsDistinct(capacity, s, a);
      } else {
        EnqueueKeepsOwned(s, a.thread);
        EnqueueKeepsDistinct(s, a.thread);
      }
    }
  }

  // ----- A thread does not notice the others -----

  /** What a thread has emitted: its part of the log, and what it is still to enqueue. */
  function EmittedBy(s: Program, t: nat): seq<ProfileEvent>
    requires t < |s.pending|
  {
    LogOf(s.log, t) + s.pending[t]
  }

  lemma EmittedByStep(capacity: nat, s: Program, a: Action, t: nat)
    requires Owned(s) && a.thread < |s.stacks| && t < |s.stacks|
    ensures EmittedBy(Act(capacity, s, a), t) == EmittedBy(s, t)
      + (if Begins(a, t) then Step(capacity, t, s.stacks[t], Timed(a.call, s.nextId, a.time, a.frame)).1 else [])
  {
    if a.Enqueue? && s.pending[a.thread] != [] {
      var e := s.pending[a.thread][0];
      assert OwnEvents(s, s.pending[a.thread], a.thread);
      LogOfConcat(s.log, [e], t);
      assert LogOf([e][..0], t) == [];
      if a.thread == t {
        assert s.pending[t] == [e] + s.pending[t][1..];
      }
    }
  }

  /** Other threads' actions leave a thread's stack and its events alone. */
  lemma {:induction false} Projection(capacity: nat, threads: nat, acts: seq<Action>, t: nat)
    requires Threads(acts, threads) && t < threads
    ensures var s := Execute(capacity, threads, acts);
      Run(capacity, t, [], TimedOf(capacity, threads, acts, t)) == (s.stacks[t], EmittedBy(s, t))
  {
    if acts == [] {
      assert EmittedBy(Start(threads), t) == [];
    } else {
      var before, a := acts[..|acts| - 1], acts[|acts| - 1];
      var s := Execute(capacity, threads, before);
      Projection(capacity, threads, before, t);
      ExecuteOk(capacity, threads, before);
      EmittedByStep(capacity, s, a, t);
      var ts := TimedOf(capacity, threads, before, t);
      if Begins(a, t) {
        var now := Timed(a.call, s.nextId, a.time, a.frame);
        RunConcat(capacity, t, [], ts, [now]);
        RunOne(capacity, t, s.stacks[t], now);
      } else {
        assert ts + [] == ts && EmittedBy(s, t) + [] == EmittedBy(s, t);
      }
    }
  }

  lemma {:induction false} TimedMatches(capacity: nat, threads: nat, acts: seq<Action>, t: nat)
    requires Threads(acts, threads)
    ensures Matches(TimedOf(capacity, threads, acts, t), CallsOf(acts, t))
  {
    if acts != [] {
      TimedMatches(capacity, threads, acts[..|acts| - 1], t);
    }
  }

  lemma {:induction false} LogOfMembers(log: seq<ProfileEvent>, t: nat)
    ensures forall e :: e in LogOf(log, t) ==> e in log && e.threadID == t
  {
    if log != [] {
      LogOfMembers(log[..|log| - 1], t);
    }
  }

  lemma {:induction false} LogOfDistinct(log: seq<ProfileEvent>, t: nat)
    requires DistinctIds(log) && ParentsFirst(log)
    ensures DistinctIds(LogOf(log, t)) && ParentsFirst(LogOf(log, t))
  {
    if log != [] {
      var before := log[..|log| - 1];
      LogOfDistinct(before, t);
      LogOfMembers(before, t);
      forall i | 0 <= i < |LogOf(before, t)| ensures LogOf(before, t)[i].id != log[|log| - 1].id {
        assert LogOf(before, t)[i] in before;
      }
    }
  }

  /** What every execution of every number of threads guarantees about the identifiers in the log. */
  lemma IdentifiersAreSound(capacity: nat, threads: nat, acts: seq<Action>)
    requires Threads(acts, threads)
    ensures var s := Execute(capacity, threads, acts);
      && DistinctIds(s.log) && ParentsFirst(s.log)
      && |s.owner| == s.nextId - 1
      && forall i :: 0 <= i < |s.log| ==>
           && 1 <= s.log[i].id < s.nextId && s.owner[s.log[i].id - 1] == s.log[i].threadID
           && (s.log[i].parentEventRef != 0 ==> s.owner[s.log[i].parentEventRef - 1] == s.log[i].threadID)
  {
    ExecuteOk(capacity, threads, acts);
    var s := Execute(capacity, threads, acts);
    assert forall i :: 0 <= i < |s.log| ==> EventOk(s, s.log[i]);
  }

  /** The i-th action draws an identifier. */
  ghost predicate DrawsAt(capacity: nat, threads: nat, acts: seq<Action>, i: nat)
    requires Threads(acts, threads)
  {
    && i < |acts| && acts[i].Begin?
    && Draws(capacity, Execute(capacity, threads, acts[..i]).stacks[acts[i].thread], acts[i].call)
  }

  /** The identifier an action draws is what the counter shows, and is its thread's from then on. */
  lemma DrawnIsOwned(capacity: nat, threads: nat, acts: seq<Action>, i: nat)
    requires Threads(acts, threads) && DrawsAt(capacity, threads, acts, i)
    ensures var id := Execute(capacity, threads, acts[..i]).nextId;
      var s := Execute(capacity, threads, acts);
      1 <= id < s.nextId && id - 1 < |s.owner| && s.owner[id - 1] == acts[i].thread
  {
    var before, after := acts[..i], acts[..i + 1];
    assert after[..i] == before && after[i] == acts[i];
    ExecuteOk(capacity, threads, before);
    assert Execute(capacity, threads, after) == Act(capacity, Execute(capacity, threads, before), acts[i]);
    CounterGrows(capacity, threads, acts, i + 1);
  }

  lemma {:induction false} CounterGrows(capacity: nat, threads: nat, acts: seq<Action>, k: nat)
    requires Threads(acts, threads) && k <= |acts|
    ensures Execute(capacity, threads, acts[..k]).owner <= Execute(capacity, threads, acts).owner
    ensures Execute(capacity, threads, acts[..k]).nextId <= Execute(capacity, threads, acts).nextId
  {
    if k < |acts| {
      CounterGrows(capacity, threads, acts[..|acts| - 1], k);
      assert acts[..|acts| - 1][..k] == acts[..k];
    } else {
      assert acts[..k] == acts;
    }
  }

  /** Identifiers grow in call order, across threads: whoever draws later draws a larger one. */
  lemma IdentifiersGrow(capacity: nat, threads: nat, acts: seq<Action>, i: nat, j: nat)
    requires Threads(acts, threads) && i < j && j < |acts|
    requires DrawsAt(capacity, threads, acts, i) && DrawsAt(capacity, threads, acts, j)
    ensures Execute(capacity, threads, acts[..i]).nextId < Execute(capacity, threads, acts[..j]).nextId
  {
    var until := acts[..j];
    assert until[..i] == acts[..i] && until[i] == acts[i];
    DrawnIsOwned(capacity, threads, until, i);
  }

  /** The k-th of a thread's calls draws an identifier. */
  ghost predicate CallDraws(capacity: nat, t: nat, ts: seq<Timed>, k: nat) {
    k < |ts| && Draws(capacity, Run(capacity, t, [], ts[..k]).0, ts[k].call)
  }

  lemma {:induction false} DrawnBelow(capacity: nat, threads: nat, acts: seq<Action>, t: nat, k: nat)
    requires Threads(acts, threads) && t < threads
    requires CallDraws(capacity, t, TimedOf(capacity, threads, acts, t), k)
    ensures TimedOf(capacity, threads, acts, t)[k].id < Execute(capacity, threads, acts).nextId
  {
    var before := acts[..|acts| - 1];
    var ts, earlier := TimedOf(capacity, threads, acts, t), TimedOf(capacity, threads, before, t);
    if k < |earlier| {
      assert ts[..k] == earlier[..k];
      DrawnBelow(capacity, threads, before, t, k);
    } else {
      assert ts[..k] == earlier;
      Projection(capacity, threads, before, t);
    }
  }

  /** In one thread as well: each call that draws finds a smaller counter than every later call of the thread. */
  lemma {:induction false} CallsDrawInOrder(capacity: nat, threads: nat, acts: seq<Action>, t: nat, k: nat, l: nat)
    requires Threads(acts, threads) && t < threads && k < l < |TimedOf(capacity, threads, acts, t)|
    requires CallDraws(capacity, t, TimedOf(capacity, threads, acts, t), k)
    ensures TimedOf(capacity, threads, acts, t)[k].id < TimedOf(capacity, threads, acts, t)[l].id
  {
    var before := acts[..|acts| - 1];
    var ts, earlier := TimedOf(capacity, threads, acts, t), TimedOf(capacity, threads, before, t);
    assert ts[..k] == earlier[..k];
    if l < |earlier| {
      CallsDrawInOrder(capacity, threads, before, t, k, l);
    } else {
      DrawnBelow(capacity, threads, before, t, k);
    }
  }

  /** The thread's calls have all returned: nothing is left to enqueue. */
  ghost predicate Returned(capacity: nat, threads: nat, acts: seq<Action>, t: nat)
    requires Threads(acts, threads) && t < threads
  {
    Execute(capacity, threads, acts).pending[t] == []
  }

  /**
    Tree reconstruction.  Whatever the other threads do, if a thread runs a forest no deeper than its stack,
    then following parentEventRef through its part of the flat log rebuilds exactly that forest, and the
    thread ends with no zone open.
  */
  lemma ForestIsRecovered(capacity: nat, threads: nat, acts: seq<Action>, t: nat, f: Forest)
    requires Threads(acts, threads) && t < threads
    requires CallsOf(acts, t) == Calls(f) && Depth(f) <= capacity && Returned(capacity, threads, acts, t)
    ensures var s := Execute(capacity, threads, acts);
      && Rebuild(LogOf(s.log, t)) == f
      && LogOf(s.log, t) == Emitted(f, 0, t, TimedOf(capacity, threads, acts, t))
      && s.stacks[t] == []
  {
    var ts := TimedOf(capacity, threads, acts, t);
    TimedMatches(capacity, threads, acts, t);
    Projection(capacity, threads, acts, t);
    RunForest(capacity, t, [], f, ts);
    IdentifiersAreSound(capacity, threads, acts);
    LogOfDistinct(Execute(capacity, threads, acts).log, t);
    assert LogOf(Execute(capacity, threads, acts).log, t) == Emitted(f, 0, t, ts);
    LogRebuildsForest(f, t, ts);
  }

  /** All of a thread's zones and probes reach the log if and only if its nesting fits the stack. */
  lemma RecordedIffFitsAmongThreads(capacity: nat, threads: nat, acts: seq<Action>, t: nat, f: Forest)
    requires Threads(acts, threads) && t < threads && CallsOf(acts, t) == Calls(f)
    requires Returned(capacity, threads, acts, t)
    ensures |LogOf(Execute(capacity, threads, acts).log, t)| == Size(f) <==> Depth(f) <= capacity
  {
    TimedMatches(capacity, threads, acts, t);
    Projection(capacity, threads, acts, t);
    RecordedIffFits(capacity, t, f, TimedOf(capacity, threads, acts, t));
  }

  /** One clock that never runs backwards. */
  ghost predicate Monotone(acts: seq<Action>, from: int, to: int) {
    && from <= to
    && (forall i :: 0 <= i < |acts| && acts[i].Begin? ==> from <= acts[i].time <= to)
    && forall i, j :: 0 <= i < j < |acts| && acts[i].Begin? && acts[j].Begin? ==> acts[i].time <= acts[j].time
  }

  lemma {:induction false} TimedClocked(capacity: nat, threads: nat, acts: seq<Action>, t: nat, from: int, to: int)
    requires Threads(acts, threads) && Monotone(acts, from, to)
    ensures Clocked(TimedOf(capacity, threads, acts, t), from, to)
    decreases |acts|
  {
    if acts != [] {
      var before, a := acts[..|acts| - 1], acts[|acts| - 1];
      if a.Begin? {
        TimedClocked(capacity, threads, before, t, from, a.time);
      } else {
        TimedClocked(capacity, threads, before, t, from, to);
      }
    }
  }

  /** Under one monotone clock the intervals of each thread's zones are laminar. */
  lemma ThreadIsLaminar(capacity: nat, threads: nat, acts: seq<Action>, t: nat, f: Forest, from: int, to: int)
    requires Threads(acts, threads) && t < threads && Monotone(acts, from, to)
    requires CallsOf(acts, t) == Calls(f) && Depth(f) <= capacity && Returned(capacity, threads, acts, t)
    requires ShortZones(f, TimedOf(capacity, threads, acts, t))
    ensures var log := LogOf(Execute(capacity, threads, acts).log, t);
      Laminar(log) && ChildrenInside(log, 0, |log|) && SiblingsApart(log, 0, |log|) && TotalsFit(log, 0, |log|)
  {
    TimedMatches(capacity, threads, acts, t);
    ForestIsRecovered(capacity, threads, acts, t, f);
    IdentifiersAreSound(capacity, threads, acts);
    LogOfDistinct(Execute(capacity, threads, acts).log, t);
    TimedClocked(capacity, threads, acts, t, from, to);
    LogIsLaminar(f, t, TimedOf(capacity, threads, acts, t), from, to);
  }
}
