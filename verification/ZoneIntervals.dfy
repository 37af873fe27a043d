/**
  Time in the zone log: under a clock that never runs backwards, the intervals a thread emits are laminar.
*/
module ZoneIntervals {
  import opened Events
  import opened ZoneLog
  import opened ZoneTree

  /** The clock readings of successive calls never decrease, and lie between two bounds. */
  ghost predicate Clocked(ts: seq<Timed>, from: int, to: int) {
    && from <= to
    && (forall i :: 0 <= i < |ts| ==> from <= ts[i].time <= to)
    && forall i, j :: 0 <= i < j < |ts| ==> ts[i].time <= ts[j].time
  }

  lemma ClockedZone(ts: seq<Timed>, j: nat, from: int, to: int)
    requires Clocked(ts, from, to) && 0 < j < |ts|
    ensures from <= ts[0].time <= ts[j].time <= to
    ensures Clocked(ts[1..j], ts[0].time, ts[j].time) && Clocked(ts[j + 1..], ts[j].time, to)
  {
  }

  lemma ClockedTail(ts: seq<Timed>, from: int, to: int)
    requires Clocked(ts, from, to) && 0 < |ts|
    ensures from <= ts[0].time <= to && Clocked(ts[1..], ts[0].time, to) && Clocked(ts[1..], from, to)
  {
  }

  /** Every zone lasts less than 2^32 ticks, so its 32-bit value is its duration. */
  ghost predicate ShortZones(f: Forest, ts: seq<Timed>)
    requires |ts| == |Calls(f)|
  {
    match f
    case Nothing => true
    case Probe(_, _, _, rest) => ShortZones(rest, ts[1..])
    case Zone(_, children, rest) =>
      var j := 1 + |Calls(children)|;
      ts[j].time - ts[0].time < U32 && ShortZones(children, ts[1..j]) && ShortZones(rest, ts[j + 1..])
  }

  /** The end of an event's interval; a probe is an instant. */
  function Stop(e: ProfileEvent): int {
    if e.eventType == EV_ZONE_INTERVAL then e.timestamp + e.value else e.timestamp
  }

  ghost predicate Before(a: ProfileEvent, b: ProfileEvent) {
    Stop(a) <= b.timestamp
  }

  ghost predicate Within(a: ProfileEvent, b: ProfileEvent) {
    b.timestamp <= a.timestamp && Stop(a) <= Stop(b)
  }

  /** An event in the log lies inside each later event or entirely before it. */
  ghost predicate Laminar(es: seq<ProfileEvent>) {
    forall i, j :: 0 <= i < j < |es| ==> Before(es[i], es[j]) || Within(es[i], es[j])
  }

  ghost predicate Spans(es: seq<ProfileEvent>, from: int, to: int) {
    forall i :: 0 <= i < |es| ==> from <= es[i].timestamp <= Stop(es[i]) <= to
  }

  /** A closing zone swallows what ran inside it and precedes what follows. */
  lemma LaminarJoin(inner: seq<ProfileEvent>, e: ProfileEvent, after: seq<ProfileEvent>, from: int, to: int)
    requires Laminar(inner) && Spans(inner, e.timestamp, Stop(e))
    requires Laminar(after) && Spans(after, Stop(e), to)
    requires from <= e.timestamp <= Stop(e) <= to
    ensures Laminar(inner + [e] + after) && Spans(inner + [e] + after, from, to)
  {
  }

  lemma EmittedZoneParts(f: Forest, parent: nat, thread: nat, ts: seq<Timed>)
    requires f.Zone? && |ts| == |Calls(f)| && ShortZones(f, ts) && ts[0].time <= ts[1 + |Calls(f.children)|].time
    ensures var j := 1 + |Calls(f.children)|;
      && j < |ts| && |ts[1..j]| == |Calls(f.children)| && |ts[j + 1..]| == |Calls(f.rest)|
      && ShortZones(f.children, ts[1..j]) && ShortZones(f.rest, ts[j + 1..])
      && 0 <= ts[j].time - ts[0].time < U32
      && Emitted(f, parent, thread, ts) ==
         Emitted(f.children, ts[0].id, thread, ts[1..j])
         + [ProfileEvent(EV_ZONE_INTERVAL, ts[0].id, thread, parent, ts[0].frame, ts[0].time, f.name,
                         ts[j].time - ts[0].time)]
         + Emitted(f.rest, parent, thread, ts[j + 1..])
  {
    EmittedZone(f, parent, thread, ts);
    hide Calls, Emitted;
  }

  lemma {:induction false} EmittedLaminar(f: Forest, parent: nat, thread: nat, ts: seq<Timed>, from: int, to: int)
    requires |ts| == |Calls(f)| && Clocked(ts, from, to) && ShortZones(f, ts)
    ensures Laminar(Emitted(f, parent, thread, ts)) && Spans(Emitted(f, parent, thread, ts), from, to)
    decreases f, 1
  {
    hide Laminar, Spans, Clocked;
    match f
    case Nothing =>
      LaminarEmpty(from, to);
    case Probe(kind, name, value, rest) =>
      ClockedTail(ts, from, to);
      EmittedLaminar(rest, parent, thread, ts[1..], ts[0].time, to);
      LaminarEmpty(ts[0].time, ts[0].time);
      var probe := ProfileEvent(Tag(kind), ts[0].id, thread, parent, ts[0].frame, ts[0].time, name, value);
      LaminarJoin([], probe, Emitted(rest, parent, thread, ts[1..]), from, to);
      assert [] + [probe] + Emitted(rest, parent, thread, ts[1..]) == Emitted(f, parent, thread, ts);
    case Zone(_, _, _) =>
      ZoneLaminar(f, parent, thread, ts, from, to);
  }

  lemma {:induction false} ZoneLaminar(f: Forest, parent: nat, thread: nat, ts: seq<Timed>, from: int, to: int)
    requires f.Zone? && |ts| == |Calls(f)| && Clocked(ts, from, to) && ShortZones(f, ts)
    ensures Laminar(Emitted(f, parent, thread, ts)) && Spans(Emitted(f, parent, thread, ts), from, to)
    decreases f, 0
  {
    hide Laminar, Spans, Clocked, Emitted, ShortZones;
    var j := 1 + |Calls(f.children)|;
    ClockedZone(ts, j, from, to);
    EmittedZoneParts(f, parent, thread, ts);
    EmittedLaminar(f.children, ts[0].id, thread, ts[1..j], ts[0].time, ts[j].time);
    EmittedLaminar(f.rest, parent, thread, ts[j + 1..], ts[j].time, to);
    var zone := ProfileEvent(EV_ZONE_INTERVAL, ts[0].id, thread, parent, ts[0].frame, ts[0].time, f.name,
                             ts[j].time - ts[0].time);
    LaminarJoin(Emitted(f.children, ts[0].id, thread, ts[1..j]), zone,
                Emitted(f.rest, parent, thread, ts[j + 1..]), from, to);
  }

  lemma LaminarEmpty(from: int, to: int)
    ensures Laminar([]) && Spans([], from, to)
  {
  }

  /** A child's interval lies inside its parent's. */
  ghost predicate ChildrenInside(log: seq<ProfileEvent>, lo: nat, hi: nat) {
    forall i, j :: 0 <= i < |log| && lo <= j < hi <= |log| && log[i].parentEventRef == log[j].id
      ==> Within(log[i], log[j])
  }

  /** The total of the values of the zones directly below `parent` among positions lo..hi. */
  function ChildrenTotal(log: seq<ProfileEvent>, parent: nat, lo: nat, hi: nat): int
    requires lo <= hi <= |log|
    decreases hi - lo
  {
    if lo == hi then 0
    else
      ChildrenTotal(log, parent, lo, hi - 1)
      + (if log[hi - 1].parentEventRef == parent && log[hi - 1].eventType == EV_ZONE_INTERVAL
         then log[hi - 1].value else 0)
  }

  /** The zones directly below each zone account for no more than its own value. */
  ghost predicate TotalsFit(log: seq<ProfileEvent>, lo: nat, hi: nat) {
    forall j :: lo <= j < hi <= |log| && log[j].eventType == EV_ZONE_INTERVAL ==>
      ChildrenTotal(log, log[j].id, 0, |log|) <= log[j].value
  }

  lemma {:induction false} TotalSplit(log: seq<ProfileEvent>, parent: nat, lo: nat, mid: nat, hi: nat)
    requires lo <= mid <= hi <= |log|
    ensures ChildrenTotal(log, parent, lo, hi)
         == ChildrenTotal(log, parent, lo, mid) + ChildrenTotal(log, parent, mid, hi)
    decreases hi - mid
  {
    if mid < hi {
      TotalSplit(log, parent, lo, mid, hi - 1);
    }
  }

  lemma {:induction false} NoTotal(log: seq<ProfileEvent>, parent: nat, lo: nat, hi: nat)
    requires lo <= hi <= |log| && forall k :: lo <= k < hi ==> log[k].parentEventRef != parent
    ensures ChildrenTotal(log, parent, lo, hi) == 0
    decreases hi - lo
  {
    if lo < hi {
      NoTotal(log, parent, lo, hi - 1);
    }
  }

  lemma {:induction false} SegmentTimes(log: seq<ProfileEvent>, lo: nat, hi: nat, f: Forest, parent: nat,
                                        thread: nat, ts: seq<Timed>, from: int, to: int)
    requires DistinctIds(log) && Segment(log, lo, hi, parent)
    requires Matches(ts, Calls(f)) && log[lo..hi] == Emitted(f, parent, thread, ts)
    requires Clocked(ts, from, to) && ShortZones(f, ts)
    ensures ChildrenInside(log, lo, hi) && TotalsFit(log, lo, hi)
    ensures ChildrenTotal(log, parent, lo, hi) <= to - from
    decreases f
  {
    hide Emitted, Segment, Calls, DistinctIds, Clocked, Matches, Size, Spans, ChildrenInside, TotalsFit;
    match f
    case Nothing =>
      NothingTimes(log, lo, hi, parent, thread, ts, from, to);
    case Probe(_, _, _, rest) =>
      ProbeSegment(log, lo, hi, f, parent, thread, ts);
      ClockedTail(ts, from, to);
      SegmentTimes(log, lo + 1, hi, rest, parent, thread, ts[1..], from, to);
      TotalSplit(log, parent, lo, lo + 1, hi);
      NoChildrenOfProbe(log, lo, hi, f, parent, thread, ts);
      JoinTimes(log, lo, lo, hi);
    case Zone(_, children, rest) =>
      ZoneSegments(log, lo, hi, f, parent, thread, ts);
      var j, mid := 1 + |Calls(children)|, lo + Size(children);
      ClockedZone(ts, j, from, to);
      SegmentTimes(log, lo, mid, children, ts[0].id, thread, ts[1..j], ts[0].time, ts[j].time);
      SegmentTimes(log, mid + 1, hi, rest, parent, thread, ts[j + 1..], ts[j].time, to);
      EmittedLaminar(children, ts[0].id, thread, ts[1..j], ts[0].time, ts[j].time);
      ZoneTimes(log, lo, mid);
      JoinTimes(log, lo, mid, hi);
      TotalSplit(log, parent, lo, mid, hi);
      TotalSplit(log, parent, mid, mid + 1, hi);
      NoTotal(log, parent, lo, mid);
  }

  /** The zone at `mid` contains its children, which lie in lo..mid, and outweighs them. */
  lemma ZoneTimes(log: seq<ProfileEvent>, lo: nat, mid: nat)
    requires lo <= mid < |log| && Segment(log, lo, mid, log[mid].id)
    requires forall k :: 0 <= k < lo ==> log[k].parentEventRef != log[mid].id
    requires Spans(log[lo..mid], log[mid].timestamp, Stop(log[mid]))
    requires ChildrenTotal(log, log[mid].id, lo, mid) <= log[mid].value
    ensures ChildrenInside(log, mid, mid + 1) && TotalsFit(log, mid, mid + 1)
  {
    var id := log[mid].id;
    forall i | 0 <= i < |log| && log[i].parentEventRef == id ensures Within(log[i], log[mid]) {
      assert log[lo..mid][i - lo] == log[i];
    }
    TotalSplit(log, id, 0, lo, |log|);
    TotalSplit(log, id, lo, mid, |log|);
    NoTotal(log, id, 0, lo);
    NoTotal(log, id, mid, |log|);
  }

  lemma JoinTimes(log: seq<ProfileEvent>, lo: nat, mid: nat, hi: nat)
    requires lo <= mid < hi <= |log|
    requires lo < mid ==> ChildrenInside(log, lo, mid) && TotalsFit(log, lo, mid)
    requires ChildrenInside(log, mid, mid + 1) && TotalsFit(log, mid, mid + 1)
    requires ChildrenInside(log, mid + 1, hi) && TotalsFit(log, mid + 1, hi)
    ensures ChildrenInside(log, lo, hi) && TotalsFit(log, lo, hi)
  {
  }

  lemma NothingTimes(log: seq<ProfileEvent>, lo: nat, hi: nat, parent: nat, thread: nat, ts: seq<Timed>,
                     from: int, to: int)
    requires Segment(log, lo, hi, parent) && Matches(ts, Calls(Nothing))
    requires log[lo..hi] == Emitted(Nothing, parent, thread, ts) && Clocked(ts, from, to)
    ensures lo == hi && from <= to && ChildrenInside(log, lo, hi) && TotalsFit(log, lo, hi)
  {
  }

  /** Nothing hangs below a probe. */
  lemma NoChildrenOfProbe(log: seq<ProfileEvent>, lo: nat, hi: nat, f: Forest, parent: nat, thread: nat, ts: seq<Timed>)
    requires f.Probe? && DistinctIds(log) && Segment(log, lo, hi, parent)
    requires Matches(ts, Calls(f)) && log[lo..hi] == Emitted(f, parent, thread, ts)
    ensures ChildrenInside(log, lo, lo + 1) && TotalsFit(log, lo, lo + 1)
  {
    ProbeSegment(log, lo, hi, f, parent, thread, ts);
    InsideOfEmitted(log, lo + 1, hi, f.rest, parent, thread, ts[1..]);
  }

  // ----- Siblings -----

  /** Siblings do not overlap: of two, the later-emitted one starts after the earlier has stopped. */
  ghost predicate SiblingsApart(log: seq<ProfileEvent>, lo: nat, hi: nat) {
    forall i, j :: lo <= i < j < hi <= |log| && log[i].parentEventRef == log[j].parentEventRef ==>
      Before(log[i], log[j])
  }

  /** A zone's descendants, the zone, and what follows it: only the descendants and the zone overlap. */
  lemma JoinSiblings(log: seq<ProfileEvent>, lo: nat, mid: nat, hi: nat, to: int)
    requires lo <= mid < hi <= |log| && SiblingsApart(log, lo, mid) && SiblingsApart(log, mid + 1, hi)
    requires forall k :: lo <= k < mid ==> log[k].parentEventRef != log[mid].parentEventRef
    requires lo < mid ==> Spans(log[lo..mid], log[mid].timestamp, Stop(log[mid]))
    requires Spans(log[mid + 1..hi], Stop(log[mid]), to)
    ensures SiblingsApart(log, lo, hi)
  {
    assert forall k :: lo <= k < mid ==> log[lo..mid][k - lo] == log[k];
    assert forall k :: mid < k < hi ==> log[mid + 1..hi][k - mid - 1] == log[k];
  }

  lemma NoSiblings(log: seq<ProfileEvent>, lo: nat, hi: nat, parent: nat, thread: nat, ts: seq<Timed>)
    requires Segment(log, lo, hi, parent) && Matches(ts, Calls(Nothing))
    requires log[lo..hi] == Emitted(Nothing, parent, thread, ts)
    ensures SiblingsApart(log, lo, hi)
  {
  }

  lemma {:induction false} SegmentSiblings(log: seq<ProfileEvent>, lo: nat, hi: nat, f: Forest, parent: nat,
                                           thread: nat, ts: seq<Timed>, from: int, to: int)
    requires DistinctIds(log) && Segment(log, lo, hi, parent)
    requires Matches(ts, Calls(f)) && log[lo..hi] == Emitted(f, parent, thread, ts)
    requires Clocked(ts, from, to) && ShortZones(f, ts)
    ensures SiblingsApart(log, lo, hi)
    decreases f
  {
    hide Emitted, Segment, Calls, DistinctIds, Clocked, Matches, Size, Spans, SiblingsApart;
    match f
    case Nothing =>
      NoSiblings(log, lo, hi, parent, thread, ts);
    case Probe(_, _, _, rest) =>
      ProbeSegment(log, lo, hi, f, parent, thread, ts);
      ClockedTail(ts, from, to);
      SegmentSiblings(log, lo + 1, hi, rest, parent, thread, ts[1..], ts[0].time, to);
      MatchesSizes(ts[1..], rest);
      EmittedLaminar(rest, parent, thread, ts[1..], ts[0].time, to);
      EmptyStretch(log, lo);
      JoinSiblings(log, lo, lo, hi, to);
    case Zone(_, children, rest) =>
      ZoneSegments(log, lo, hi, f, parent, thread, ts);
      var j, mid := 1 + |Calls(children)|, lo + Size(children);
      ClockedZone(ts, j, from, to);
      SegmentSiblings(log, lo, mid, children, ts[0].id, thread, ts[1..j], ts[0].time, ts[j].time);
      SegmentSiblings(log, mid + 1, hi, rest, parent, thread, ts[j + 1..], ts[j].time, to);
      MatchesSizes(ts[1..j], children);
      MatchesSizes(ts[j + 1..], rest);
      EmittedLaminar(children, ts[0].id, thread, ts[1..j], ts[0].time, ts[j].time);
      EmittedLaminar(rest, parent, thread, ts[j + 1..], ts[j].time, to);
      JoinSiblings(log, lo, mid, hi, to);
  }

  lemma EmptyStretch(log: seq<ProfileEvent>, lo: nat)
    ensures SiblingsApart(log, lo, lo)
  {
  }

  /**
    The zones a thread records form a laminar family: of two events the later-emitted one contains the
    earlier or starts after it has stopped; a child lies inside its parent; siblings do not overlap; and the
    values of a zone's direct children add up to at most its own.
  */
  lemma LogIsLaminar(f: Forest, thread: nat, ts: seq<Timed>, from: int, to: int)
    requires Matches(ts, Calls(f)) && Clocked(ts, from, to) && ShortZones(f, ts)
    requires DistinctIds(Emitted(f, 0, thread, ts)) && ParentsFirst(Emitted(f, 0, thread, ts))
    ensures var log := Emitted(f, 0, thread, ts);
      Laminar(log) && ChildrenInside(log, 0, |log|) && SiblingsApart(log, 0, |log|) && TotalsFit(log, 0, |log|)
  {
    var log := Emitted(f, 0, thread, ts);
    assert log[0..|log|] == log;
    SegmentSiblings(log, 0, |log|, f, 0, thread, ts, from, to);
    EmittedLaminar(f, 0, thread, ts, from, to);
    SegmentTimes(log, 0, |log|, f, 0, thread, ts, from, to);
  }

  /** The 32-bit value of a zone is its duration exactly when the duration is below 2^32. */
  lemma ValueIsDuration(zone: ProfileEvent, time: int)
    requires zone.timestamp <= time
    ensures Closed(zone, time).value == time - zone.timestamp <==> time - zone.timestamp < U32
  {
  }
}
