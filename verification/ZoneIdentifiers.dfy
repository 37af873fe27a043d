/**
  Which event each identifier of nextMessageID labels, and what the events carry.  Every identifier that was drawn
  belongs to exactly one event, in the log, on its way there, or still open; and every event is stamped with what its
  call found.
*/
module ZoneIdentifiers {
  import opened Common
  import opened Events
  import opened ZoneLog
  import opened ZoneTree
  import opened ZoneThreads

  /** The logged events and those that the first k threads hold: on their way to the log, and open zones. */
  function EventsUpTo(s: Program, k: nat): seq<ProfileEvent>
    requires k <= |s.stacks| == |s.pending|
  {
    if k == 0 then s.log else EventsUpTo(s, k - 1) + (s.pending[k - 1] + s.stacks[k - 1])
  }

  function AllEvents(s: Program): seq<ProfileEvent>
    requires |s.stacks| == |s.pending|
  {
    EventsUpTo(s, |s.stacks|)
  }

  // ----- How many there are -----

  /** A thread's stack and pending events change, and the log. */
  lemma {:induction false} CountUpdate(s: Program, s': Program, t: nat, k: nat)
    requires k <= |s.stacks| == |s.pending| && t < |s.stacks|
    requires |s'.stacks| == |s'.pending| == |s.stacks|
    requires forall u :: 0 <= u < |s.stacks| && u != t ==> s'.stacks[u] == s.stacks[u] && s'.pending[u] == s.pending[u]
    ensures |EventsUpTo(s', k)| - |s'.log| == |EventsUpTo(s, k)| - |s.log|
      + if t < k then |s'.pending[t]| + |s'.stacks[t]| - |s.pending[t]| - |s.stacks[t]| else 0
  {
    if k > 0 {
      CountUpdate(s, s', t, k - 1);
    }
  }

  /** One call adds the event it draws an identifier for, and only that. */
  lemma StepCounts(capacity: nat, thread: nat, stack: seq<ProfileEvent>, t: Timed)
    ensures var r := Step(capacity, thread, stack, t);
      |r.0| + |r.1| == |stack| + if Draws(capacity, stack, t.call) then 1 else 0
  {
  }

  lemma BeginCounts(capacity: nat, s: Program, a: Action)
    requires a.Begin? && a.thread < |s.stacks| == |s.pending| && s.nextId == |AllEvents(s)| + 1
    ensures BeginCall(capacity, s, a).nextId == |AllEvents(BeginCall(capacity, s, a))| + 1
  {
    var s', t := BeginCall(capacity, s, a), a.thread;
    var now := Timed(a.call, s.nextId, a.time, a.frame);
    StepCounts(capacity, t, s.stacks[t], now);
    hide Step, Draws, EventsUpTo;
    CountUpdate(s, s', t, |s.stacks|);
  }

  lemma EnqueueCounts(s: Program, t: nat)
    requires t < |s.stacks| == |s.pending|
    ensures EnqueueOldest(s, t).nextId == s.nextId
    ensures |AllEvents(EnqueueOldest(s, t))| == |AllEvents(s)|
  {
    hide EventsUpTo;
    CountUpdate(s, EnqueueOldest(s, t), t, |s.stacks|);
  }

  lemma {:induction false} NothingYet(s: Program, k: nat)
    requires k <= |s.stacks| == |s.pending|
    requires forall u :: 0 <= u < k ==> s.stacks[u] == [] && s.pending[u] == []
    ensures EventsUpTo(s, k) == s.log
  {
    if k > 0 {
      NothingYet(s, k - 1);
    }
  }

  lemma {:induction false} ExecuteCounts(capacity: nat, threads: nat, acts: seq<Action>)
    requires Threads(acts, threads)
    ensures Execute(capacity, threads, acts).nextId == |AllEvents(Execute(capacity, threads, acts))| + 1
  {
    hide BeginCall, EnqueueOldest, EventsUpTo;
    if acts == [] {
      NothingYet(Start(threads), threads);
    } else {
      var before, a := acts[..|acts| - 1], acts[|acts| - 1];
      var s := Execute(capacity, threads, before);
      ExecuteCounts(capacity, threads, before);
      if a.Begin? {
        BeginCounts(capacity, s, a);
      } else {
        EnqueueCounts(s, a.thread);
      }
    }
  }

  // ----- That they differ -----

  /** A logged event, or one that one of the first k threads holds. */
  ghost predicate From(s: Program, e: ProfileEvent, k: nat) {
    EventOk(s, e) && (e in s.log || e.threadID < k)
  }

  lemma HeldDiffer(s: Program, e: ProfileEvent, t: nat)
    requires Owned(s) && Distinct(s) && t < |s.stacks| && From(s, e, t)
    ensures forall k :: 0 <= k < |s.pending[t]| ==> s.pending[t][k].id != e.id
    ensures forall k :: 0 <= k < |s.stacks[t]| ==> s.stacks[t][k].id != e.id
  {
    assert OwnEvents(s, s.stacks[t], t) && OwnEvents(s, s.pending[t], t);
    if e in s.log {
      var i :| 0 <= i < |s.log| && s.log[i] == e;
      assert Disjoint(s.log, s.stacks[t]) && Disjoint(s.log, s.pending[t]);
    }
  }

  lemma Appended(a: seq<ProfileEvent>, b: seq<ProfileEvent>, c: seq<ProfileEvent>)
    requires DistinctIds(a) && DistinctIds(b) && DistinctIds(c) && Disjoint(b, c)
    requires forall i :: 0 <= i < |a| ==>
      && (forall k :: 0 <= k < |b| ==> b[k].id != a[i].id)
      && (forall k :: 0 <= k < |c| ==> c[k].id != a[i].id)
    ensures DistinctIds(a + (b + c))
  {
  }

  lemma {:induction false} UpToDiffer(s: Program, k: nat)
    requires Owned(s) && Distinct(s) && k <= |s.stacks|
    ensures DistinctIds(EventsUpTo(s, k))
    ensures forall i :: 0 <= i < |EventsUpTo(s, k)| ==> From(s, EventsUpTo(s, k)[i], k)
  {
    if k > 0 {
      var t := k - 1;
      var a := EventsUpTo(s, t);
      UpToDiffer(s, t);
      forall i | 0 <= i < |a|
        ensures forall k :: 0 <= k < |s.pending[t]| ==> s.pending[t][k].id != a[i].id
        ensures forall k :: 0 <= k < |s.stacks[t]| ==> s.stacks[t][k].id != a[i].id
      {
        HeldDiffer(s, a[i], t);
      }
      Appended(a, s.pending[t], s.stacks[t]);
      assert OwnEvents(s, s.stacks[t], t) && OwnEvents(s, s.pending[t], t);
    }
  }

  // ----- The theorems -----

  function IdsOf(events: seq<ProfileEvent>): (ids: seq<nat>)
    ensures |ids| == |events| && forall i :: 0 <= i < |ids| ==> ids[i] == events[i].id
  {
    seq(|events|, i requires 0 <= i < |events| => events[i].id)
  }

  function Numbers(n: nat): (s: set<nat>)
    ensures |s| == n && forall x: nat :: x in s <==> 1 <= x <= n
  {
    if n == 0 then {} else Numbers(n - 1) + {n}
  }

  ghost predicate Labels(id: nat, events: seq<ProfileEvent>) {
    exists i :: 0 <= i < |events| && events[i].id == id
  }

  /** Each of the numbers 1, ..., n is the identifier of exactly one of the n events. */
  ghost predicate Numbered(events: seq<ProfileEvent>) {
    && DistinctIds(events)
    && (forall i :: 0 <= i < |events| ==> 1 <= events[i].id <= |events|)
    && forall id: nat :: 1 <= id <= |events| ==> Labels(id, events)
  }

  /** n distinct identifiers between 1 and n are all of them. */
  lemma AllNumbers(events: seq<ProfileEvent>, id: nat)
    requires DistinctIds(events) && 1 <= id <= |events|
    requires forall i :: 0 <= i < |events| ==> 1 <= events[i].id <= |events|
    ensures Labels(id, events)
  {
    var ids := IdsOf(events);
    var s := Elements(ids);
    Subset(s, Numbers(|events|));
    assert id in s;
    var i :| 0 <= i < |ids| && ids[i] == id;
    assert events[i].id == id;
  }

  lemma Numbering(s: Program)
    requires Owned(s) && Distinct(s) && s.nextId == |AllEvents(s)| + 1
    ensures Numbered(AllEvents(s))
  {
    var events := AllEvents(s);
    UpToDiffer(s, |s.stacks|);
    forall i | 0 <= i < |events| ensures 1 <= events[i].id <= |events| {
      assert From(s, events[i], |s.stacks|);
    }
    hide Owned, Distinct, EventsUpTo, Labels, DistinctIds;
    forall id: nat | 1 <= id <= |events| ensures Labels(id, events) {
      AllNumbers(events, id);
    }
  }

  /**
    In every execution each identifier drawn so far labels exactly one event: the logged ones, the ones on their way
    to the log and the open zones are as many as there are identifiers, and no two have the same.
  */
  lemma EachIdentifierLabelsOneEvent(capacity: nat, threads: nat, acts: seq<Action>)
    requires Threads(acts, threads)
    ensures var s := Execute(capacity, threads, acts);
      s.nextId == |AllEvents(s)| + 1 && Numbered(AllEvents(s))
  {
    hide Numbered, AllEvents;
    ExecuteCounts(capacity, threads, acts);
    ExecuteOk(capacity, threads, acts);
    Numbering(Execute(capacity, threads, acts));
  }

  /** When every call has returned and no zone is open, the identifiers in the log are exactly 1, ..., |log|. */
  lemma QuietLogIsNumbered(capacity: nat, threads: nat, acts: seq<Action>)
    requires Threads(acts, threads)
    requires var s := Execute(capacity, threads, acts);
      forall t :: 0 <= t < threads ==> s.pending[t] == [] && s.stacks[t] == []
    ensures var s := Execute(capacity, threads, acts); s.nextId == |s.log| + 1 && Numbered(s.log)
  {
    hide Numbered;
    EachIdentifierLabelsOneEvent(capacity, threads, acts);
    NothingYet(Execute(capacity, threads, acts), threads);
  }

  // ----- What an event carries -----

  /** The event types of src/Event.h. */
  function TypeOf(call: Call): nat
    requires !call.EndCall?
  {
    match call
    case ZoneCall(_) => 1000
    case SampleCall(kind, _, _) => (match kind case UnsignedProbe => 1 case FloatProbe => 2 case SignedProbe => 3)
  }

  /** The event that a call makes: its type and name, what StampEvent reads, and the value of a probe. */
  ghost predicate MadeBy(e: ProfileEvent, t: Timed, thread: nat) {
    && !t.call.EndCall? && e.eventType == TypeOf(t.call) && e.eventNameRef == t.call.name
    && e.id == t.id && e.threadID == thread && e.timestamp == t.time && e.frameNumber == t.frame
    && (t.call.SampleCall? ==> e.value == t.call.value)
  }

  ghost predicate OpenedBy(e: ProfileEvent, ts: seq<Timed>, thread: nat, k: nat) {
    k < |ts| && ts[k].call.ZoneCall? && MadeBy(e, ts[k], thread)
  }

  /** One of the calls opened the zone. */
  ghost predicate OpenedIn(e: ProfileEvent, ts: seq<Timed>, thread: nat) {
    exists k: nat :: OpenedBy(e, ts, thread, k)
  }

  ghost predicate EndedBy(e: ProfileEvent, ts: seq<Timed>, thread: nat, k: nat, l: nat) {
    && k < l < |ts| && ts[l].call.EndCall? && OpenedBy(e, ts, thread, k)
    && e.value == (ts[l].time - ts[k].time) % 0x1_0000_0000
  }

  ghost predicate SampledBy(e: ProfileEvent, ts: seq<Timed>, thread: nat, k: nat) {
    k < |ts| && ts[k].call.SampleCall? && MadeBy(e, ts[k], thread)
  }

  /** One call opened the zone and a later one ended it, or one call took the sample. */
  ghost predicate MadeIn(e: ProfileEvent, ts: seq<Timed>, thread: nat) {
    || (exists k: nat, l: nat :: EndedBy(e, ts, thread, k, l))
    || (exists k: nat :: SampledBy(e, ts, thread, k))
  }

  lemma StaysOpened(e: ProfileEvent, ts: seq<Timed>, t: Timed, thread: nat)
    requires OpenedIn(e, ts, thread)
    ensures OpenedIn(e, ts + [t], thread)
  {
    var k: nat :| OpenedBy(e, ts, thread, k);
    assert OpenedBy(e, ts + [t], thread, k);
  }

  lemma StaysMade(e: ProfileEvent, ts: seq<Timed>, t: Timed, thread: nat)
    requires MadeIn(e, ts, thread)
    ensures MadeIn(e, ts + [t], thread)
  {
    if k: nat, l: nat :| EndedBy(e, ts, thread, k, l) {
      assert OpenedBy(e, ts + [t], thread, k);
      assert EndedBy(e, ts + [t], thread, k, l);
    } else {
      var k: nat :| SampledBy(e, ts, thread, k);
      assert SampledBy(e, ts + [t], thread, k);
    }
  }

  lemma NowOpened(capacity: nat, thread: nat, stack: seq<ProfileEvent>, ts: seq<Timed>, t: Timed)
    requires t.call.ZoneCall? && |stack| != capacity
    ensures OpenedIn(Opened(thread, stack, t.call.name, t), ts + [t], thread)
  {
    assert (ts + [t])[|ts|] == t;
    assert OpenedBy(Opened(thread, stack, t.call.name, t), ts + [t], thread, |ts|);
  }

  lemma NowEnded(zone: ProfileEvent, ts: seq<Timed>, t: Timed, thread: nat)
    requires t.call.EndCall? && OpenedIn(zone, ts, thread)
    ensures MadeIn(Closed(zone, t.time), ts + [t], thread)
  {
    var k: nat :| OpenedBy(zone, ts, thread, k);
    assert (ts + [t])[|ts|] == t && (ts + [t])[k] == ts[k];
    assert OpenedBy(Closed(zone, t.time), ts + [t], thread, k);
    assert EndedBy(Closed(zone, t.time), ts + [t], thread, k, |ts|);
  }

  lemma NowSampled(capacity: nat, thread: nat, stack: seq<ProfileEvent>, ts: seq<Timed>, t: Timed)
    requires t.call.SampleCall?
    ensures var events := Step(capacity, thread, stack, t).1; |events| == 1 && MadeIn(events[0], ts + [t], thread)
  {
    assert (ts + [t])[|ts|] == t;
    assert SampledBy(Step(capacity, thread, stack, t).1[0], ts + [t], thread, |ts|);
  }

  ghost predicate AllOpened(stack: seq<ProfileEvent>, ts: seq<Timed>, thread: nat) {
    forall i :: 0 <= i < |stack| ==> OpenedIn(stack[i], ts, thread)
  }

  ghost predicate AllMade(events: seq<ProfileEvent>, ts: seq<Timed>, thread: nat) {
    forall i :: 0 <= i < |events| ==> MadeIn(events[i], ts, thread)
  }

  lemma AllStay(stack: seq<ProfileEvent>, events: seq<ProfileEvent>, ts: seq<Timed>, t: Timed, thread: nat)
    requires AllOpened(stack, ts, thread) && AllMade(events, ts, thread)
    ensures AllOpened(stack, ts + [t], thread) && AllMade(events, ts + [t], thread)
  {
    hide OpenedIn, MadeIn;
    forall i | 0 <= i < |stack| ensures OpenedIn(stack[i], ts + [t], thread) {
      StaysOpened(stack[i], ts, t, thread);
    }
    forall i | 0 <= i < |events| ensures MadeIn(events[i], ts + [t], thread) {
      StaysMade(events[i], ts, t, thread);
    }
  }

  lemma StepMakes(capacity: nat, thread: nat, stack: seq<ProfileEvent>, ts: seq<Timed>, t: Timed)
    requires AllOpened(stack, ts, thread)
    ensures var r := Step(capacity, thread, stack, t);
      AllOpened(r.0, ts + [t], thread) && AllMade(r.1, ts + [t], thread)
  {
    hide OpenedIn, MadeIn, Opened, Closed;
    AllStay(stack, [], ts, t, thread);
    match t.call
    case ZoneCall(_) =>
      if |stack| != capacity {
        NowOpened(capacity, thread, stack, ts, t);
      }
    case EndCall =>
      if stack != [] {
        NowEnded(stack[|stack| - 1], ts, t, thread);
      }
    case SampleCall(_, _, _) => NowSampled(capacity, thread, stack, ts, t);
  }

  /** What the stack and the emitted events of one thread carry. */
  lemma {:induction false} RunMakes(capacity: nat, thread: nat, ts: seq<Timed>)
    ensures AllOpened(Run(capacity, thread, [], ts).0, ts, thread)
    ensures AllMade(Run(capacity, thread, [], ts).1, ts, thread)
  {
    hide OpenedIn, MadeIn, Step;
    if ts != [] {
      var before, t := ts[..|ts| - 1], ts[|ts| - 1];
      assert ts == before + [t];
      var r := Run(capacity, thread, [], before);
      RunMakes(capacity, thread, before);
      AllStay(r.0, r.1, before, t, thread);
      StepMakes(capacity, thread, r.0, before, t);
    }
  }

  /**
    Every event of a thread in the log carries what the thread's calls said and found: its zone was opened by one call
    and ended by a later one, whose times give its duration modulo 2^32, or it was sampled by one call.
  */
  lemma EventsCarryTheirCalls(capacity: nat, threads: nat, acts: seq<Action>, t: nat)
    requires Threads(acts, threads) && t < threads
    ensures AllMade(LogOf(Execute(capacity, threads, acts).log, t), TimedOf(capacity, threads, acts, t), t)
  {
    hide MadeIn, OpenedIn;
    var s := Execute(capacity, threads, acts);
    Projection(capacity, threads, acts, t);
    RunMakes(capacity, t, TimedOf(capacity, threads, acts, t));
    var log := LogOf(s.log, t);
    forall i | 0 <= i < |log| ensures MadeIn(log[i], TimedOf(capacity, threads, acts, t), t) {
      assert log[i] == EmittedBy(s, t)[i];
    }
  }
}
