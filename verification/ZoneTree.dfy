/**
  Rebuilding a forest from the flat log.  A reader of the log has only the events: it collects those with a
  given parentEventRef, in log order, and descends into each zone by its id.
*/
module ZoneTree {
  import opened Events
  import opened ZoneLog

  function MaxId(log: seq<ProfileEvent>): (m: nat)
    ensures forall e :: e in log ==> e.id <= m
  {
    if log == [] then 0
    else
      var m := MaxId(log[..|log| - 1]);
      var id := log[|log| - 1].id;
      if id > m then id else m
  }

  function Below(log: seq<ProfileEvent>, parent: nat): nat {
    if parent <= MaxId(log) then MaxId(log) - parent else 0
  }

  /** The children of `parent` from position i of the log on, each with everything below it. */
  function Children(log: seq<ProfileEvent>, parent: nat, i: nat): Forest
    decreases Below(log, parent), if i <= |log| then |log| - i else 0
  {
    if i >= |log| then Nothing
    else
      var e := log[i];
      if e.parentEventRef != parent then Children(log, parent, i + 1)
      else if e.eventType != EV_ZONE_INTERVAL
      then Probe(KindOf(e.eventType), e.eventNameRef, e.value, Children(log, parent, i + 1))
      else if e.id <= parent then Children(log, parent, i + 1)   // not a log this library writes
      else
        assert e.id <= MaxId(log);
        Zone(e.eventNameRef, Children(log, e.id, 0), Children(log, parent, i + 1))
  }

  function Rebuild(log: seq<ProfileEvent>): Forest {
    Children(log, 0, 0)
  }

  ghost predicate DistinctIds(log: seq<ProfileEvent>) {
    forall i, j :: 0 <= i < j < |log| ==> log[i].id != log[j].id
  }

  /** Identifiers come from a counter that starts at 1, and a parent is opened before its children. */
  ghost predicate ParentsFirst(log: seq<ProfileEvent>) {
    forall i :: 0 <= i < |log| ==> log[i].parentEventRef < log[i].id
  }

  /** Positions lo..hi hold a forest's events: no event elsewhere has its parent there, none after is a sibling. */
  ghost predicate Segment(log: seq<ProfileEvent>, lo: nat, hi: nat, parent: nat) {
    && lo <= hi <= |log|
    && (forall k, m :: 0 <= k < |log| && !(lo <= k < hi) && lo <= m < hi ==> log[k].parentEventRef != log[m].id)
    && (forall k :: hi <= k < |log| ==> log[k].parentEventRef != parent)
    && (forall m :: lo <= m < hi ==> log[m].id != parent)
  }

  ghost predicate HasId(log: seq<ProfileEvent>, lo: nat, hi: nat, id: nat) {
    exists m :: lo <= m < hi <= |log| && log[m].id == id
  }

  /** Positions lo..hi hang below `parent` or below one another. */
  ghost predicate Inside(log: seq<ProfileEvent>, lo: nat, hi: nat, parent: nat) {
    hi <= |log| && forall k :: lo <= k < hi ==>
      log[k].parentEventRef == parent || HasId(log, lo, hi, log[k].parentEventRef)
  }

  lemma HasIdInConcat(a: seq<ProfileEvent>, b: seq<ProfileEvent>, c: seq<ProfileEvent>, id: nat)
    requires HasId(b, 0, |b|, id)
    ensures HasId(a + b + c, 0, |a + b + c|, id)
  {
    var m :| 0 <= m < |b| && b[m].id == id;
    assert (a + b + c)[|a| + m] == b[m];
  }

  /** Descendants of a zone, the zone, and its later siblings with theirs. */
  lemma InsideConcat(a: seq<ProfileEvent>, zone: ProfileEvent, b: seq<ProfileEvent>, parent: nat)
    requires Inside(a, 0, |a|, zone.id) && zone.parentEventRef == parent && Inside(b, 0, |b|, parent)
    ensures var es := a + [zone] + b; Inside(es, 0, |es|, parent)
  {
    hide HasId;
    var es := a + [zone] + b;
    forall k | 0 <= k < |es| ensures es[k].parentEventRef == parent || HasId(es, 0, |es|, es[k].parentEventRef) {
      if k < |a| {
        assert es[k] == a[k];
        if a[k].parentEventRef == zone.id {
          OwnId(zone);
          HasIdInConcat(a, [zone], b, zone.id);
        } else {
          HasIdInConcat([], a, [zone] + b, a[k].parentEventRef);
          assert [] + a + ([zone] + b) == es;
        }
      } else if k > |a| {
        assert es[k] == b[k - |a| - 1];
        if es[k].parentEventRef != parent {
          HasIdInConcat(a + [zone], b, [], es[k].parentEventRef);
          assert a + [zone] + b + [] == es;
        }
      }
    }
  }

  lemma OwnId(e: ProfileEvent)
    ensures HasId([e], 0, 1, e.id)
  {
    assert [e][0].id == e.id;
  }

  lemma {:induction false} EmittedInside(f: Forest, parent: nat, thread: nat, ts: seq<Timed>)
    requires |ts| == |Calls(f)|
    ensures var es := Emitted(f, parent, thread, ts); Inside(es, 0, |es|, parent)
    decreases f
  {
    hide Inside;
    NothingInside(parent);
    match f
    case Nothing =>
    case Probe(kind, name, value, rest) =>
      EmittedInside(rest, parent, thread, ts[1..]);
      var probe := ProfileEvent(Tag(kind), ts[0].id, thread, parent, ts[0].frame, ts[0].time, name, value);
      var after := Emitted(rest, parent, thread, ts[1..]);
      NothingInside(probe.id);
      InsideConcat([], probe, after, parent);
      assert [] + [probe] + after == [probe] + after;
    case Zone(name, children, rest) =>
      var j := 1 + |Calls(children)|;
      EmittedInside(children, ts[0].id, thread, ts[1..j]);
      EmittedInside(rest, parent, thread, ts[j + 1..]);
      var zone := ProfileEvent(EV_ZONE_INTERVAL, ts[0].id, thread, parent, ts[0].frame, ts[0].time, name,
                               (ts[j].time - ts[0].time) % U32);
      InsideConcat(Emitted(children, ts[0].id, thread, ts[1..j]), zone, Emitted(rest, parent, thread, ts[j + 1..]),
                   parent);
  }

  lemma NothingInside(parent: nat)
    ensures Inside([], 0, 0, parent)
  {
  }

  /** Every event of a forest hangs below its parent or below another event of the forest. */
  lemma EmittedParents(f: Forest, parent: nat, thread: nat, ts: seq<Timed>, k: nat)
    requires |ts| == |Calls(f)| && k < |Emitted(f, parent, thread, ts)|
    ensures var es := Emitted(f, parent, thread, ts);
      es[k].parentEventRef == parent || exists m :: 0 <= m < |es| && es[m].id == es[k].parentEventRef
  {
    hide Emitted, Calls;
    EmittedInside(f, parent, thread, ts);
  }

  lemma ChildrenAtZone(log: seq<ProfileEvent>, parent: nat, i: nat)
    requires i < |log| && log[i].parentEventRef == parent < log[i].id && log[i].eventType == EV_ZONE_INTERVAL
    ensures Children(log, parent, i)
         == Zone(log[i].eventNameRef, Children(log, log[i].id, 0), Children(log, parent, i + 1))
  {
  }

  lemma {:induction false} SkipOthers(log: seq<ProfileEvent>, parent: nat, i: nat, j: nat)
    requires i <= j <= |log| && forall k :: i <= k < j ==> log[k].parentEventRef != parent
    ensures Children(log, parent, i) == Children(log, parent, j)
    decreases j - i
  {
    if i < j {
      SkipOthers(log, parent, i + 1, j);
    }
  }

  lemma InsideOfEmitted(log: seq<ProfileEvent>, lo: nat, hi: nat, f: Forest, parent: nat, thread: nat, ts: seq<Timed>)
    requires lo <= hi <= |log| && |ts| == |Calls(f)| && log[lo..hi] == Emitted(f, parent, thread, ts)
    ensures Inside(log, lo, hi, parent)
  {
    var es := log[lo..hi];
    forall k | lo <= k < hi
      ensures log[k].parentEventRef == parent || HasId(log, lo, hi, log[k].parentEventRef)
    {
      EmittedParents(f, parent, thread, ts, k - lo);
      assert es[k - lo] == log[k];
      if m :| 0 <= m < |es| && es[m].id == log[k].parentEventRef {
        assert log[lo + m] == es[m];
      }
    }
  }

  /** What a zone at position `mid` separates: its own descendants before it, its later siblings after it. */
  lemma SplitSegment(log: seq<ProfileEvent>, lo: nat, mid: nat, hi: nat, parent: nat)
    requires DistinctIds(log) && lo <= mid < hi && Segment(log, lo, hi, parent)
    requires log[mid].parentEventRef == parent
    requires Inside(log, lo, mid, log[mid].id) && Inside(log, mid + 1, hi, parent)
    ensures Segment(log, lo, mid, log[mid].id) && Segment(log, mid + 1, hi, parent)
    ensures forall k :: 0 <= k < lo ==> log[k].parentEventRef != log[mid].id
    ensures forall k :: lo <= k < mid ==> log[k].parentEventRef != parent
  {
  }

  lemma ZoneSlices(log: seq<ProfileEvent>, lo: nat, hi: nat, f: Forest, parent: nat, thread: nat, ts: seq<Timed>)
    requires f.Zone? && lo <= hi <= |log|
    requires Matches(ts, Calls(f)) && log[lo..hi] == Emitted(f, parent, thread, ts)
    ensures var j := 1 + |Calls(f.children)|;
      var mid := lo + Size(f.children);
      && j < |ts| && |ts[1..j]| == |Calls(f.children)| && |ts[j + 1..]| == |Calls(f.rest)|
      && mid < hi && log[lo..mid] == Emitted(f.children, ts[0].id, thread, ts[1..j])
      && log[mid] == ProfileEvent(EV_ZONE_INTERVAL, ts[0].id, thread, parent, ts[0].frame, ts[0].time, f.name,
                                  (ts[j].time - ts[0].time) % U32)
      && log[mid + 1..hi] == Emitted(f.rest, parent, thread, ts[j + 1..])
  {
    hide Matches, Calls, Emitted;
    MatchesZone(ts, f);
    MatchesSizes(ts, f);
    var j := 1 + |Calls(f.children)|;
    var inner := Emitted(f.children, ts[0].id, thread, ts[1..j]);
    var after := Emitted(f.rest, parent, thread, ts[j + 1..]);
    var zone := ProfileEvent(EV_ZONE_INTERVAL, ts[0].id, thread, parent, ts[0].frame, ts[0].time, f.name,
                             (ts[j].time - ts[0].time) % U32);
    EmittedZone(f, parent, thread, ts);
    ThreeParts(log, lo, hi, inner, zone, after);
  }

  lemma MatchesSizes(ts: seq<Timed>, f: Forest)
    requires Matches(ts, Calls(f))
    ensures |ts| == |Calls(f)|
    ensures f.Zone? ==> |ts| == |Calls(f.children)| + |Calls(f.rest)| + 2
  {
  }

  lemma ThreeParts<T>(s: seq<T>, lo: nat, hi: nat, a: seq<T>, b: T, c: seq<T>)
    requires lo <= hi <= |s| && s[lo..hi] == a + [b] + c
    ensures lo + |a| < hi && s[lo..lo + |a|] == a && s[lo + |a|] == b && s[lo + |a| + 1..hi] == c
  {
    assert s[lo..hi][|a|] == b && s[lo..hi][..|a|] == a && s[lo..hi][|a| + 1..] == c;
  }

  /** A zone's segment: its descendants, the zone, its later siblings. */
  lemma ZoneSegments(log: seq<ProfileEvent>, lo: nat, hi: nat, f: Forest, parent: nat, thread: nat, ts: seq<Timed>)
    requires f.Zone? && DistinctIds(log) && Segment(log, lo, hi, parent)
    requires Matches(ts, Calls(f)) && log[lo..hi] == Emitted(f, parent, thread, ts)
    ensures var j, mid := 1 + |Calls(f.children)|, lo + Size(f.children);
      && j < |ts| && Matches(ts[1..j], Calls(f.children)) && Matches(ts[j + 1..], Calls(f.rest))
      && mid < hi <= |log| && log[lo..mid] == Emitted(f.children, ts[0].id, thread, ts[1..j])
      && log[mid] == ProfileEvent(EV_ZONE_INTERVAL, ts[0].id, thread, parent, ts[0].frame, ts[0].time, f.name,
                                  (ts[j].time - ts[0].time) % U32)
      && log[mid + 1..hi] == Emitted(f.rest, parent, thread, ts[j + 1..])
      && Segment(log, lo, mid, ts[0].id) && Segment(log, mid + 1, hi, parent)
      && (forall k :: 0 <= k < lo ==> log[k].parentEventRef != ts[0].id)
      && (forall k :: lo <= k < mid ==> log[k].parentEventRef != parent)
  {
    hide Emitted, DistinctIds, Inside, Calls;
    MatchesZone(ts, f);
    ZoneSlices(log, lo, hi, f, parent, thread, ts);
    var j, mid := 1 + |Calls(f.children)|, lo + Size(f.children);
    InsideOfEmitted(log, lo, mid, f.children, ts[0].id, thread, ts[1..j]);
    InsideOfEmitted(log, mid + 1, hi, f.rest, parent, thread, ts[j + 1..]);
    SplitSegment(log, lo, mid, hi, parent);
  }

  lemma ProbeSegment(log: seq<ProfileEvent>, lo: nat, hi: nat, f: Forest, parent: nat, thread: nat, ts: seq<Timed>)
    requires f.Probe? && DistinctIds(log) && Segment(log, lo, hi, parent)
    requires Matches(ts, Calls(f)) && log[lo..hi] == Emitted(f, parent, thread, ts)
    ensures lo < hi <= |log| && 0 < |ts| && Matches(ts[1..], Calls(f.rest))
    ensures log[lo] == ProfileEvent(Tag(f.kind), ts[0].id, thread, parent, ts[0].frame, ts[0].time, f.name, f.value)
    ensures log[lo + 1..hi] == Emitted(f.rest, parent, thread, ts[1..]) && Segment(log, lo + 1, hi, parent)
  {
    MatchesProbe(ts, f);
    assert log[lo..hi][0] == log[lo] && log[lo + 1..hi] == log[lo..hi][1..];
    InsideOfEmitted(log, lo + 1, hi, f.rest, parent, thread, ts[1..]);
  }

  lemma ChildrenAtProbe(log: seq<ProfileEvent>, parent: nat, i: nat)
    requires i < |log| && log[i].parentEventRef == parent && log[i].eventType != EV_ZONE_INTERVAL
    ensures Children(log, parent, i)
         == Probe(KindOf(log[i].eventType), log[i].eventNameRef, log[i].value, Children(log, parent, i + 1))
  {
  }

  lemma NothingAfter(log: seq<ProfileEvent>, parent: nat, lo: nat, hi: nat, thread: nat, ts: seq<Timed>)
    requires Segment(log, lo, hi, parent) && Matches(ts, Calls(Nothing))
    requires log[lo..hi] == Emitted(Nothing, parent, thread, ts)
    ensures Children(log, parent, lo) == Nothing
  {
    SkipOthers(log, parent, lo, |log|);
  }

  lemma {:induction false} ChildrenOfSegment(log: seq<ProfileEvent>, lo: nat, hi: nat, f: Forest, parent: nat,
                                             thread: nat, ts: seq<Timed>)
    requires DistinctIds(log) && ParentsFirst(log) && Segment(log, lo, hi, parent)
    requires Matches(ts, Calls(f)) && log[lo..hi] == Emitted(f, parent, thread, ts)
    ensures Children(log, parent, lo) == f
    decreases f
  {
    hide Emitted, Segment, DistinctIds, Calls, Children, Size;
    match f
    case Nothing =>
      NothingAfter(log, parent, lo, hi, thread, ts);
    case Probe(_, _, _, rest) =>
      ProbeSegment(log, lo, hi, f, parent, thread, ts);
      ChildrenOfSegment(log, lo + 1, hi, rest, parent, thread, ts[1..]);
      ChildrenAtProbe(log, parent, lo);
    case Zone(_, children, rest) =>
      ZoneSegments(log, lo, hi, f, parent, thread, ts);
      var j, mid := 1 + |Calls(children)|, lo + Size(children);
      ChildrenOfSegment(log, lo, mid, children, ts[0].id, thread, ts[1..j]);
      ChildrenOfSegment(log, mid + 1, hi, rest, parent, thread, ts[j + 1..]);
      SkipOthers(log, ts[0].id, 0, lo);
      SkipOthers(log, parent, lo, mid);
      ChildrenAtZone(log, parent, mid);
  }

  /**
    The flat log of a thread determines what it executed: if the events carry distinct identifiers, each
    greater than its parent's, then following parentEventRef from 0 rebuilds exactly the forest.
  */
  lemma LogRebuildsForest(f: Forest, thread: nat, ts: seq<Timed>)
    requires Matches(ts, Calls(f))
    requires DistinctIds(Emitted(f, 0, thread, ts)) && ParentsFirst(Emitted(f, 0, thread, ts))
    ensures Rebuild(Emitted(f, 0, thread, ts)) == f
  {
    var log := Emitted(f, 0, thread, ts);
    assert log[0..|log|] == log;
    ChildrenOfSegment(log, 0, |log|, f, 0, thread, ts);
  }
}
