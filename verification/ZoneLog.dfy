/**
  The calls of src/Context.cpp (Zone, End, Sample) and the flat event log they leave.

  A thread keeps a bounded stack of open zones; a zone is emitted when it ends, a probe at once.  Threads
  share only the counter of event identifiers and the log.  What is reconstructed from the log is the
  forest of zones and probes a thread executed.
*/
module ZoneLog {
  import opened Events

  datatype ProbeKind = UnsignedProbe | FloatProbe | SignedProbe

  function Tag(kind: ProbeKind): nat {
    match kind
    case UnsignedProbe => EV_PROBE_UINT
    case FloatProbe => EV_PROBE_FLOAT
    case SignedProbe => EV_PROBE_INT
  }

  function KindOf(tag: nat): ProbeKind {
    if tag == EV_PROBE_UINT then UnsignedProbe else if tag == EV_PROBE_FLOAT then FloatProbe else SignedProbe
  }

  /** A list of sibling zones and probes; names are the references StampEvent obtains for the strings. */
  datatype Forest =
    | Nothing
    | Zone(name: nat, children: Forest, rest: Forest)
    | Probe(kind: ProbeKind, name: nat, value: nat, rest: Forest)

  datatype Call =
    | ZoneCall(name: nat)
    | EndCall
    | SampleCall(kind: ProbeKind, name: nat, value: nat)

  /** A call with what it reads from shared state: the event counter, the clock, the frame number. */
  datatype Timed = Timed(call: Call, id: nat, time: int, frame: nat)

  function Calls(f: Forest): seq<Call> {
    match f
    case Nothing => []
    case Zone(name, children, rest) => [ZoneCall(name)] + Calls(children) + [EndCall] + Calls(rest)
    case Probe(kind, name, value, rest) => [SampleCall(kind, name, value)] + Calls(rest)
  }

  function Depth(f: Forest): nat {
    match f
    case Nothing => 0
    case Zone(_, children, rest) =>
      if Depth(rest) > Depth(children) then Depth(rest) else 1 + Depth(children)
    case Probe(_, _, _, rest) => Depth(rest)
  }

  function Size(f: Forest): nat {
    match f
    case Nothing => 0
    case Zone(_, children, rest) => 1 + Size(children) + Size(rest)
    case Probe(_, _, _, rest) => 1 + Size(rest)
  }

  // ----- One thread -----

  /** PeekParentID: the innermost open zone, 0 when there is none. */
  function ParentOf(stack: seq<ProfileEvent>): nat {
    if stack == [] then 0 else stack[|stack| - 1].id
  }

  /** An open zone as it lies on the stack, its value still to come. */
  function Opened(thread: nat, stack: seq<ProfileEvent>, name: nat, t: Timed): ProfileEvent {
    ProfileEvent(EV_ZONE_INTERVAL, t.id, thread, ParentOf(stack), t.frame, t.time, name, 0)
  }

  /** The 32-bit duration of a zone ending at `time`. */
  function Closed(zone: ProfileEvent, time: int): ProfileEvent {
    zone.(value := (time - zone.timestamp) % U32)
  }

  /** One call: the stack afterwards and the events it emits. */
  function Step(capacity: nat, thread: nat, stack: seq<ProfileEvent>, t: Timed)
      : (seq<ProfileEvent>, seq<ProfileEvent>)
  {
    match t.call
    case ZoneCall(name) =>
      if |stack| == capacity then (stack, []) else (stack + [Opened(thread, stack, name, t)], [])
    case EndCall =>
      if stack == [] then (stack, [])
      else (stack[..|stack| - 1], [Closed(stack[|stack| - 1], t.time)])
    case SampleCall(kind, name, value) =>
      (stack, [ProfileEvent(Tag(kind), t.id, thread, ParentOf(stack), t.frame, t.time, name, value)])
  }

  function Run(capacity: nat, thread: nat, stack: seq<ProfileEvent>, ts: seq<Timed>)
      : (seq<ProfileEvent>, seq<ProfileEvent>)
  {
    if ts == [] then (stack, [])
    else
      var before := Run(capacity, thread, stack, ts[..|ts| - 1]);
      var last := Step(capacity, thread, before.0, ts[|ts| - 1]);
      (last.0, before.1 + last.1)
  }

  lemma {:induction false} RunConcat(capacity: nat, thread: nat, stack: seq<ProfileEvent>, a: seq<Timed>, b: seq<Timed>)
    ensures var first := Run(capacity, thread, stack, a); var second := Run(capacity, thread, first.0, b);
      Run(capacity, thread, stack, a + b) == (second.0, first.1 + second.1)
  {
    var first := Run(capacity, thread, stack, a);
    if b == [] {
      assert a + b == a && first.1 + [] == first.1;
    } else {
      RunConcat(capacity, thread, stack, a, b[..|b| - 1]);
      assert (a + b)[..|a + b| - 1] == a + b[..|b| - 1];
      var inner := Run(capacity, thread, first.0, b[..|b| - 1]);
      var last := Step(capacity, thread, inner.0, b[|b| - 1]);
      assert first.1 + inner.1 + last.1 == first.1 + (inner.1 + last.1);
    }
  }

  lemma RunOne(capacity: nat, thread: nat, stack: seq<ProfileEvent>, t: Timed)
    ensures Run(capacity, thread, stack, [t]) == Step(capacity, thread, stack, t)
  {
    assert [t][..0] == [];
    assert Run(capacity, thread, stack, [t][..0]) == (stack, []);
    var step := Step(capacity, thread, stack, t);
    assert [] + step.1 == step.1;
  }

  ghost predicate Matches(ts: seq<Timed>, calls: seq<Call>) {
    |ts| == |calls| && forall i :: 0 <= i < |ts| ==> ts[i].call == calls[i]
  }

  /** The events of a forest, in the order they are emitted: each zone after everything inside it. */
  function Emitted(f: Forest, parent: nat, thread: nat, ts: seq<Timed>): (events: seq<ProfileEvent>)
    requires |ts| == |Calls(f)|
    ensures |events| == Size(f)
  {
    match f
    case Nothing => []
    case Probe(kind, name, value, rest) =>
      [ProfileEvent(Tag(kind), ts[0].id, thread, parent, ts[0].frame, ts[0].time, name, value)]
      + Emitted(rest, parent, thread, ts[1..])
    case Zone(name, children, rest) =>
      var j := 1 + |Calls(children)|;
      Emitted(children, ts[0].id, thread, ts[1..j])
      + [ProfileEvent(EV_ZONE_INTERVAL, ts[0].id, thread, parent, ts[0].frame, ts[0].time, name,
                      (ts[j].time - ts[0].time) % U32)]
      + Emitted(rest, parent, thread, ts[j + 1..])
  }

  lemma CallsOfZone(f: Forest)
    requires f.Zone?
    ensures |Calls(f)| == |Calls(f.children)| + |Calls(f.rest)| + 2
  {
  }

  /** The three parts of a zone's events. */
  lemma EmittedZone(f: Forest, parent: nat, thread: nat, ts: seq<Timed>)
    requires f.Zone? && |ts| == |Calls(f)|
    ensures var j := 1 + |Calls(f.children)|;
      && j < |ts| && |ts[1..j]| == |Calls(f.children)| && |ts[j + 1..]| == |Calls(f.rest)|
      && Emitted(f, parent, thread, ts) ==
         Emitted(f.children, ts[0].id, thread, ts[1..j])
         + [ProfileEvent(EV_ZONE_INTERVAL, ts[0].id, thread, parent, ts[0].frame, ts[0].time, f.name,
                         (ts[j].time - ts[0].time) % U32)]
         + Emitted(f.rest, parent, thread, ts[j + 1..])
  {
    CallsOfZone(f);
    hide Calls;
  }

  lemma MatchesSlice(ts: seq<Timed>, calls: seq<Call>, lo: nat, hi: nat)
    requires Matches(ts, calls) && lo <= hi <= |ts|
    ensures Matches(ts[lo..hi], calls[lo..hi])
  {
  }

  lemma FourParts<T>(s: seq<T>, a: T, b: seq<T>, c: T, d: seq<T>)
    requires s == [a] + b + [c] + d
    ensures |s| == |b| + |d| + 2 && s[0] == a && s[1..1 + |b|] == b && s[1 + |b|] == c && s[2 + |b|..|s|] == d
  {
  }

  lemma Partition<T>(s: seq<T>, j: nat)
    requires 0 < j < |s|
    ensures s == [s[0]] + s[1..j] + [s[j]] + s[j + 1..]
  {
  }

  /** The three parts of a zone's calls. */
  lemma MatchesZone(ts: seq<Timed>, f: Forest)
    requires f.Zone? && Matches(ts, Calls(f))
    ensures var j := 1 + |Calls(f.children)|;
      && j < |ts| && ts[0].call == ZoneCall(f.name) && ts[j].call == EndCall
      && Matches(ts[1..j], Calls(f.children)) && Matches(ts[j + 1..], Calls(f.rest))
      && ts == [ts[0]] + ts[1..j] + [ts[j]] + ts[j + 1..]
  {
    var calls, c := Calls(f), Calls(f.children);
    var j := 1 + |c|;
    assert calls == [ZoneCall(f.name)] + c + [EndCall] + Calls(f.rest);
    hide Calls;
    FourParts(calls, ZoneCall(f.name), c, EndCall, Calls(f.rest));
    MatchesSlice(ts, calls, 1, j);
    MatchesSlice(ts, calls, j + 1, |ts|);
    Partition(ts, j);
  }

  lemma MatchesProbe(ts: seq<Timed>, f: Forest)
    requires f.Probe? && Matches(ts, Calls(f))
    ensures 0 < |ts| && ts[0].call == SampleCall(f.kind, f.name, f.value)
    ensures Matches(ts[1..], Calls(f.rest)) && ts == [ts[0]] + ts[1..]
  {
    assert Calls(f)[1..] == Calls(f.rest);
    forall i | 0 <= i < |Calls(f.rest)| ensures ts[1..][i].call == Calls(f.rest)[i] {
      assert Calls(f)[1 + i] == Calls(f.rest)[i];
    }
  }

  /** A Zone call, what runs inside it, its End, and what follows. */
  lemma RunZone(capacity: nat, thread: nat, stack: seq<ProfileEvent>,
                open: Timed, inner: seq<Timed>, close: Timed, after: seq<Timed>, name: nat)
    requires open.call == ZoneCall(name) && close.call.EndCall? && |stack| < capacity
    requires var inside := stack + [Opened(thread, stack, name, open)];
      Run(capacity, thread, inside, inner).0 == inside
    ensures var zone := Opened(thread, stack, name, open);
      var rest := Run(capacity, thread, stack, after);
      Run(capacity, thread, stack, [open] + inner + [close] + after)
      == (rest.0, Run(capacity, thread, stack + [zone], inner).1 + [Closed(zone, close.time)] + rest.1)
  {
    var inside := stack + [Opened(thread, stack, name, open)];
    var during := Run(capacity, thread, inside, inner).1;
    RunOne(capacity, thread, stack, open);
    RunConcat(capacity, thread, stack, [open], inner);
    assert [] + during == during;
    RunOne(capacity, thread, inside, close);
    assert inside[..|inside| - 1] == stack;
    RunConcat(capacity, thread, stack, [open] + inner, [close]);
    RunConcat(capacity, thread, stack, [open] + inner + [close], after);
  }

  lemma RunProbe(capacity: nat, thread: nat, stack: seq<ProfileEvent>, t: Timed, after: seq<Timed>)
    requires t.call.SampleCall?
    ensures var rest := Run(capacity, thread, stack, after);
      Run(capacity, thread, stack, [t] + after)
      == (rest.0, [ProfileEvent(Tag(t.call.kind), t.id, thread, ParentOf(stack), t.frame, t.time, t.call.name,
                                t.call.value)] + rest.1)
  {
    RunOne(capacity, thread, stack, t);
    RunConcat(capacity, thread, stack, [t], after);
  }

  lemma RunNothing(capacity: nat, thread: nat, stack: seq<ProfileEvent>, ts: seq<Timed>)
    requires Matches(ts, [])
    ensures ts == [] && Run(capacity, thread, stack, ts) == (stack, [])
  {
  }

  /** Running a forest that fits leaves the stack as it was and emits the forest in post-order. */
  lemma {:induction false} RunForest(capacity: nat, thread: nat, stack: seq<ProfileEvent>, f: Forest, ts: seq<Timed>)
    requires Matches(ts, Calls(f)) && |stack| + Depth(f) <= capacity
    ensures Run(capacity, thread, stack, ts) == (stack, Emitted(f, ParentOf(stack), thread, ts))
    decreases f
  {
    hide Run, Matches, Step;
    match f
    case Nothing =>
      RunNothing(capacity, thread, stack, ts);
    case Probe(kind, name, value, rest) =>
      MatchesProbe(ts, f);
      RunForest(capacity, thread, stack, rest, ts[1..]);
      RunProbe(capacity, thread, stack, ts[0], ts[1..]);
    case Zone(name, children, rest) =>
      MatchesZone(ts, f);
      var j := 1 + |Calls(children)|;
      RunForest(capacity, thread, stack + [Opened(thread, stack, name, ts[0])], children, ts[1..j]);
      RunForest(capacity, thread, stack, rest, ts[j + 1..]);
      RunZone(capacity, thread, stack, ts[0], ts[1..j], ts[j], ts[j + 1..], name);
  }

  // ----- The depth guard is exact -----

  /** How many Zone calls find the stack full. */
  function Dropped(capacity: nat, thread: nat, stack: seq<ProfileEvent>, ts: seq<Timed>): nat {
    if ts == [] then 0
    else
      var before := Run(capacity, thread, stack, ts[..|ts| - 1]).0;
      Dropped(capacity, thread, stack, ts[..|ts| - 1])
      + (if ts[|ts| - 1].call.ZoneCall? && |before| == capacity then 1 else 0)
  }

  /** How many calls start something: a zone or a probe. */
  function Starts(ts: seq<Timed>): nat {
    if ts == [] then 0 else Starts(ts[..|ts| - 1]) + (if ts[|ts| - 1].call.EndCall? then 0 else 1)
  }

  lemma {:induction false} DroppedConcat(capacity: nat, thread: nat, stack: seq<ProfileEvent>,
                                         a: seq<Timed>, b: seq<Timed>)
    ensures Dropped(capacity, thread, stack, a + b)
         == Dropped(capacity, thread, stack, a) + Dropped(capacity, thread, Run(capacity, thread, stack, a).0, b)
  {
    if b == [] {
      assert a + b == a;
    } else {
      DroppedConcat(capacity, thread, stack, a, b[..|b| - 1]);
      RunConcat(capacity, thread, stack, a, b[..|b| - 1]);
      assert (a + b)[..|a + b| - 1] == a + b[..|b| - 1];
    }
  }

  lemma {:induction false} StartsConcat(a: seq<Timed>, b: seq<Timed>)
    ensures Starts(a + b) == Starts(a) + Starts(b)
  {
    if b == [] {
      assert a + b == a;
    } else {
      StartsConcat(a, b[..|b| - 1]);
      assert (a + b)[..|a + b| - 1] == a + b[..|b| - 1];
    }
  }

  /** Every started zone or probe is emitted, still open, or was dropped. */
  lemma {:induction false} Accounting(capacity: nat, thread: nat, stack: seq<ProfileEvent>, ts: seq<Timed>)
    ensures var r := Run(capacity, thread, stack, ts);
      |r.1| + |r.0| + Dropped(capacity, thread, stack, ts) == |stack| + Starts(ts)
  {
    if ts != [] {
      Accounting(capacity, thread, stack, ts[..|ts| - 1]);
    }
  }

  lemma StartsOne(t: Timed)
    ensures Starts([t]) == if t.call.EndCall? then 0 else 1
  {
    assert Starts([t][..0]) == 0;
  }

  lemma NothingStarts(ts: seq<Timed>)
    requires Matches(ts, Calls(Nothing))
    ensures Starts(ts) == 0
  {
  }

  lemma {:induction false} StartsOfForest(f: Forest, ts: seq<Timed>)
    requires Matches(ts, Calls(f))
    ensures Starts(ts) == Size(f)
    decreases f
  {
    hide Matches, Starts, Calls;
    match f
    case Nothing =>
      NothingStarts(ts);
    case Probe(_, _, _, rest) =>
      MatchesProbe(ts, f);
      StartsOfForest(rest, ts[1..]);
      StartsOne(ts[0]);
      StartsConcat([ts[0]], ts[1..]);
    case Zone(_, children, rest) =>
      MatchesZone(ts, f);
      var j := 1 + |Calls(children)|;
      StartsOne(ts[0]);
      StartsOne(ts[j]);
      StartsOfForest(children, ts[1..j]);
      StartsOfForest(rest, ts[j + 1..]);
      StartsConcat([ts[0]], ts[1..j]);
      StartsConcat([ts[0]] + ts[1..j], [ts[j]]);
      StartsConcat([ts[0]] + ts[1..j] + [ts[j]], ts[j + 1..]);
  }

  /** A forest too deep for the stack loses a zone. */
  lemma {:induction false} TooDeepDrops(capacity: nat, thread: nat, stack: seq<ProfileEvent>, f: Forest, ts: seq<Timed>)
    requires Matches(ts, Calls(f)) && |stack| <= capacity < |stack| + Depth(f)
    ensures Dropped(capacity, thread, stack, ts) > 0
    decreases f
  {
    match f
    case Nothing =>
    case Probe(_, _, _, rest) =>
      MatchesProbe(ts, f);
      RunOne(capacity, thread, stack, ts[0]);
      TooDeepDrops(capacity, thread, stack, rest, ts[1..]);
      DroppedConcat(capacity, thread, stack, [ts[0]], ts[1..]);
    case Zone(name, children, rest) =>
      MatchesZone(ts, f);
      var j := 1 + |Calls(children)|;
      RunOne(capacity, thread, stack, ts[0]);
      DroppedConcat(capacity, thread, stack, [ts[0]], ts[1..j]);
      DroppedConcat(capacity, thread, stack, [ts[0]] + ts[1..j], [ts[j]]);
      DroppedConcat(capacity, thread, stack, [ts[0]] + ts[1..j] + [ts[j]], ts[j + 1..]);
      if |stack| == capacity {
        assert [ts[0]][..0] == [];
        assert Dropped(capacity, thread, stack, [ts[0]]) == 1;
      } else {
        var inside := stack + [Opened(thread, stack, name, ts[0])];
        if |inside| + Depth(children) > capacity {
          TooDeepDrops(capacity, thread, inside, children, ts[1..j]);
        } else {
          RunForest(capacity, thread, inside, children, ts[1..j]);
          RunConcat(capacity, thread, stack, [ts[0]], ts[1..j]);
          RunConcat(capacity, thread, stack, [ts[0]] + ts[1..j], [ts[j]]);
          RunOne(capacity, thread, inside, ts[j]);
          assert inside[..|inside| - 1] == stack;
          TooDeepDrops(capacity, thread, stack, rest, ts[j + 1..]);
        }
      }
  }

  /** A thread records all of its zones and probes if and only if its nesting fits the stack. */
  lemma RecordedIffFits(capacity: nat, thread: nat, f: Forest, ts: seq<Timed>)
    requires Matches(ts, Calls(f))
    ensures |Run(capacity, thread, [], ts).1| == Size(f) <==> Depth(f) <= capacity
  {
    if Depth(f) <= capacity {
      RunForest(capacity, thread, [], f, ts);
    } else {
      TooDeepDrops(capacity, thread, [], f, ts);
      Accounting(capacity, thread, [], ts);
      StartsOfForest(f, ts);
    }
  }
}
