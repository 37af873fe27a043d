/**
  A whole session, from the calls that profiled threads make to the forests that are rebuilt from the uplifted file:
  the other modules put together.
*/
module Sessions {
  import opened Common
  import opened Events
  import opened StreamCodec
  import opened DrainThread
  import opened ZoneLog
  import opened ZoneTree
  import T = ZoneThreads

  // ----- What the writer leaves can be encoded -----

  /** Names that fit the reader's buffer. */
  ghost predicate ShortNames(names: set<CString>) {
    forall name :: name in names ==> |name.text| < STRING_BUFFER_SIZE && 0 !in name.text
  }

  /** An event apart from its name reference. */
  ghost predicate Storable(offers: seq<(CString, ProfileEvent)>) {
    forall offer :: offer in offers ==> Encodable(EventRecord(offer.1.(eventNameRef := 0)))
  }

  lemma {:induction false} KeptAreOffers<X>(offers: seq<X>, taken: seq<bool>)
    requires |offers| == |taken|
    ensures forall x :: x in Kept(offers, taken) ==> x in offers
  {
    if offers != [] {
      KeptAreOffers(offers[..|offers| - 1], taken[..|offers| - 1]);
    }
  }

  lemma {:induction false} RecordsEncodable(file: seq<Record>)
    requires forall e :: e in EventsOf(file) ==> Encodable(EventRecord(e))
    requires forall s :: s in StringsOf(file) ==> Encodable(StringRecord(s.0, s.1))
    ensures forall r :: r in file ==> Encodable(r)
  {
    hide Encodable;
    if file != [] {
      var k := |file| - 1;
      assert forall e :: e in EventsOf(file[..k]) ==> e in EventsOf(file);
      assert forall s :: s in StringsOf(file[..k]) ==> s in StringsOf(file);
      RecordsEncodable(file[..k]);
      match file[k] {
        case EventRecord(e) => assert e in EventsOf(file);
        case StringRecord(id, text) => assert (id, text) in StringsOf(file);
      }
      assert file == file[..k] + [file[k]];
    }
  }

  lemma QueueEncodable(w: RawEventWriter)
    requires w.Taken() && w.Named() && !w.refused && |w.interned| < MAX_STRING_QUEUE && Storable(w.offered)
    ensures forall e :: e in w.contextQueue.items ==> Encodable(EventRecord(e))
  {
    KeptAreOffers(w.offered, w.taken);
    forall i | 0 <= i < |w.contextQueue.items| ensures Encodable(EventRecord(w.contextQueue.items[i])) {
      assert w.entries[i] in w.offered;
      assert RefersTo(w.contextQueue.items[i], w.entries[i].0, w.interned);
    }
  }

  lemma NamesEncodable(w: RawEventWriter)
    requires w.Named() && !w.refused && |w.interned| < MAX_STRING_QUEUE && ShortNames(w.Vocabulary())
    ensures forall s :: s in FileStrings(w.stringQueue.items) ==> Encodable(StringRecord(s.0, s.1))
  {
    forall i | 0 <= i < |w.interned|
      ensures var s := FileStrings(w.stringQueue.items)[i]; Encodable(StringRecord(s.0, s.1))
    {
      assert w.interned[i] in w.Vocabulary();
    }
  }

  lemma FewInterned(w: RawEventWriter)
    requires w.Named() && |w.Vocabulary()| < MAX_STRING_QUEUE
    ensures !w.refused && |w.interned| < MAX_STRING_QUEUE
  {
    Subset(Elements(w.interned), w.Vocabulary());
  }

  /** What is in the file can be read back: fewer names than string queue slots, short ones, and storable events. */
  lemma FileEncodable(w: RawEventWriter)
    requires w.Taken() && w.Named() && |w.Vocabulary()| < MAX_STRING_QUEUE
    requires ShortNames(w.Vocabulary()) && Storable(w.offered)
    requires w.checked <= |w.contextQueue.items| && EventsOf(w.file) == w.contextQueue.items[..w.checked]
    requires StringsOf(w.file) == FileStrings(w.stringQueue.items)
    ensures forall r :: r in w.file ==> Encodable(r)
  {
    hide Encodable, Storable, ShortNames, RawEventWriter.Taken, RawEventWriter.Named, FileStrings;
    FewInterned(w);
    QueueEncodable(w);
    NamesEncodable(w);
    RecordsEncodable(w.file);
  }

  // ----- The whole way -----

  /** The bytes of the file, whatever lies in the padding of its events, and what is uplifted from them. */
  method Store(file: seq<Record>) returns (bytes: seq<Byte>, uplifted: seq<Record>)
    requires forall r :: r in file ==> Encodable(r)
    ensures uplifted == file
  {
    hide Encodable, Encode;
    var paddings: seq<seq<Byte>> := [];
    for i := 0 to |file|
      invariant |paddings| == i && forall k :: 0 <= k < i ==> |paddings[k]| == 4
    {
      var a: Byte, b: Byte, c: Byte, d: Byte := *, *, *, *;
      paddings := paddings + [[a, b, c, d]];
    }
    bytes := EncodeAll(file, paddings);
    uplifted := UpliftSession(file, paddings, bytes);
  }

  /** A thread that profiles a forest no deeper than its stack, its calls returned. */
  ghost predicate Profiled(capacity: nat, threads: nat, acts: seq<T.Action>, t: nat, f: Forest) {
    && T.Threads(acts, threads) && t < threads && T.CallsOf(acts, t) == Calls(f) && Depth(f) <= capacity
    && T.Returned(capacity, threads, acts, t)
  }

  // ----- Forests with their names -----

  /** A forest with the text of each name in place of its reference. */
  datatype Spelled =
    | NothingMore
    | SpelledZone(name: seq<Byte>, children: Spelled, rest: Spelled)
    | SpelledProbe(kind: ProbeKind, name: seq<Byte>, value: nat, rest: Spelled)

  function NameAt(table: seq<seq<Byte>>, n: nat): seq<Byte> {
    if n < |table| then table[n] else []
  }

  function Spell(f: Forest, table: seq<seq<Byte>>): Spelled {
    match f
    case Nothing => NothingMore
    case Zone(name, children, rest) => SpelledZone(NameAt(table, name), Spell(children, table), Spell(rest, table))
    case Probe(kind, name, value, rest) => SpelledProbe(kind, NameAt(table, name), value, Spell(rest, table))
  }

  function Texts(names: seq<CString>): (table: seq<seq<Byte>>)
    ensures |table| == |names|
  {
    seq(|names|, i requires 0 <= i < |names| => names[i].text)
  }

  /** The texts of a file's string records, in order. */
  function TableOf(file: seq<Record>): (table: seq<seq<Byte>>) {
    var strings := StringsOf(file);
    seq(|strings|, i requires 0 <= i < |strings| => strings[i].1)
  }

  /** The events b are the events a except that they may refer to the same names elsewhere. */
  ghost predicate SameButNames(a: seq<ProfileEvent>, aTable: seq<seq<Byte>>,
                               b: seq<ProfileEvent>, bTable: seq<seq<Byte>>) {
    |a| == |b| && forall i :: 0 <= i < |a| ==>
      b[i] == a[i].(eventNameRef := b[i].eventNameRef) &&
      NameAt(aTable, a[i].eventNameRef) == NameAt(bTable, b[i].eventNameRef)
  }

  lemma {:induction false} SameParts(a: seq<ProfileEvent>, aTable: seq<seq<Byte>>,
                                     b: seq<ProfileEvent>, bTable: seq<seq<Byte>>, t: nat)
    requires SameButNames(a, aTable, b, bTable)
    ensures SameButNames(T.LogOf(a, t), aTable, T.LogOf(b, t), bTable)
  {
    if a != [] {
      SameParts(a[..|a| - 1], aTable, b[..|b| - 1], bTable, t);
    }
  }

  lemma SameAt(a: seq<ProfileEvent>, aTable: seq<seq<Byte>>, b: seq<ProfileEvent>, bTable: seq<seq<Byte>>, i: nat)
    requires SameButNames(a, aTable, b, bTable) && i < |a|
    ensures |b| == |a| && b[i].parentEventRef == a[i].parentEventRef && b[i].eventType == a[i].eventType
    ensures b[i].id == a[i].id && b[i].value == a[i].value
    ensures NameAt(aTable, a[i].eventNameRef) == NameAt(bTable, b[i].eventNameRef)
  {
  }

  lemma {:induction false} ChildrenSpelled(a: seq<ProfileEvent>, aTable: seq<seq<Byte>>,
                                           b: seq<ProfileEvent>, bTable: seq<seq<Byte>>, parent: nat, i: nat)
    requires SameButNames(a, aTable, b, bTable)
    ensures Spell(Children(a, parent, i), aTable) == Spell(Children(b, parent, i), bTable)
    decreases Below(a, parent), if i <= |a| then |a| - i else 0
  {
    assert |a| == |b|;
    if i < |a| {
      SameAt(a, aTable, b, bTable, i);
      hide SameButNames, MaxId;
      ChildrenSpelled(a, aTable, b, bTable, parent, i + 1);
      if a[i].parentEventRef == parent && a[i].eventType == EV_ZONE_INTERVAL && a[i].id > parent {
        assert a[i].id <= MaxId(a);
        ChildrenSpelled(a, aTable, b, bTable, a[i].id, 0);
      }
    }
  }

  // ----- What was offered is what is in the file -----

  /** The offers are the events of the log, each with its name. */
  ghost predicate OffersOfLog(offered: seq<(CString, ProfileEvent)>, log: seq<ProfileEvent>, names: seq<CString>) {
    |offered| == |log| && forall i :: 0 <= i < |log| ==>
      log[i].eventNameRef < |names| && offered[i] == (names[log[i].eventNameRef], log[i])
  }

  ghost predicate AllTaken(taken: seq<bool>) {
    forall i :: 0 <= i < |taken| ==> taken[i]
  }

  lemma {:induction false} KeptAll<X>(offers: seq<X>, taken: seq<bool>)
    requires |offers| == |taken| && AllTaken(taken)
    ensures Kept(offers, taken) == offers
  {
    if offers != [] {
      var k := |offers| - 1;
      KeptAll(offers[..k], taken[..k]);
      assert offers == offers[..k] + [offers[k]];
    }
  }

  /** The events that were taken refer to the interned names as the log refers to its own. */
  lemma QueueIsLog(w: RawEventWriter, log: seq<ProfileEvent>, names: seq<CString>)
    requires w.Taken() && w.Named() && !w.refused
    requires AllTaken(w.taken) && OffersOfLog(w.offered, log, names)
    ensures SameButNames(log, Texts(names), w.contextQueue.items, Texts(w.interned))
  {
    KeptAll(w.offered, w.taken);
    forall i | 0 <= i < |log|
      ensures var e := w.contextQueue.items[i];
        && e == log[i].(eventNameRef := e.eventNameRef)
        && NameAt(Texts(names), log[i].eventNameRef) == NameAt(Texts(w.interned), e.eventNameRef)
    {
      assert RefersTo(w.contextQueue.items[i], w.entries[i].0, w.interned);
    }
  }

  lemma FileHasNames(w: RawEventWriter)
    requires w.Named() && !w.refused && StringsOf(w.file) == FileStrings(w.stringQueue.items)
    ensures TableOf(w.file) == Texts(w.interned)
  {
    var strings := FileStrings(Announcements(w.interned));
    assert forall i :: 0 <= i < |strings| ==> strings[i].1 == w.interned[i].text;
  }

  /** When the script has no more offers, none is made. */
  lemma NoneOffered(a: Snapshot, b: Snapshot)
    requires Ahead(a, b) && OffersIn(a.script) == []
    requires |a.taken| == |a.offered| && |b.taken| == |b.offered|
    ensures b.offered == a.offered && b.taken == a.taken
  {
    hide OffersIn;
    assert b.offered + OffersIn(b.script) == a.offered;
    assert b.offered == a.offered[..|b.offered|];
  }

  /** Each thread's forest is rebuilt from the events and the names in the file. */
  lemma ForestsFromFile(w: RawEventWriter, capacity: nat, threads: nat, acts: seq<T.Action>, names: seq<CString>)
    requires w.Taken() && w.Named() && !w.refused && T.Threads(acts, threads)
    requires AllTaken(w.taken) && OffersOfLog(w.offered, T.Execute(capacity, threads, acts).log, names)
    requires EventsOf(w.file) == w.contextQueue.items && StringsOf(w.file) == FileStrings(w.stringQueue.items)
    ensures AllRebuilt(w.file, capacity, threads, acts, names)
  {
    hide RawEventWriter.Taken, RawEventWriter.Named, OffersOfLog, AllTaken, SameButNames, TableOf, Texts;
    var log := T.Execute(capacity, threads, acts).log;
    QueueIsLog(w, log, names);
    FileHasNames(w);
    forall t, f | Profiled(capacity, threads, acts, t, f)
      ensures Spell(Rebuild(T.LogOf(EventsOf(w.file), t)), TableOf(w.file)) == Spell(f, Texts(names))
    {
      T.ForestIsRecovered(capacity, threads, acts, t, f);
      SameParts(log, Texts(names), EventsOf(w.file), TableOf(w.file), t);
      ChildrenSpelled(T.LogOf(log, t), Texts(names), T.LogOf(EventsOf(w.file), t), TableOf(w.file), 0, 0);
    }
  }

  /** From the records each thread's forest can be rebuilt, every zone and probe with the text of its name. */
  ghost predicate AllRebuilt(file: seq<Record>, capacity: nat, threads: nat, acts: seq<T.Action>,
                             names: seq<CString>) {
    forall t, f :: Profiled(capacity, threads, acts, t, f) ==>
      Spell(Rebuild(T.LogOf(EventsOf(file), t)), TableOf(file)) == Spell(f, Texts(names))
  }

  /**
    The drain thread runs to its end, and its file is stored and uplifted.  The uplifted records are the file, and
    every event in it has its name there.  If the events offered before the call are those that the threads' calls
    emit, none was refused, no more are to come, and the thread looks again or has drained them, then each thread's
    forest is rebuilt from the uplifted records, with the names its calls were given.
  */
  method RecordAndUplift(w: RawEventWriter, ghost capacity: nat, ghost threads: nat, ghost acts: seq<T.Action>,
                         ghost names: seq<CString>)
      returns (uplifted: seq<Record>)
    requires w.Valid() && w.NamesWritten() && w.writeBufferUsed < WRITE_BUFFER_THRESHOLD
    requires !w.stillBusy ==> w.contextQueue.back == w.checked
    requires |w.Vocabulary()| < MAX_STRING_QUEUE && ShortNames(w.Vocabulary())
    requires Storable(w.offered + OffersIn(w.script)) && T.Threads(acts, threads)
    modifies w`file, w`writeBufferUsed, w`stillBusy, w`checked, w.writeBuffer
    modifies w.stringQueue`back, w.contextQueue`back
    modifies w`script, w`finished, w`interned, w`refused, w`runThread
    modifies w`entries, w`offered, w`taken
    modifies w.stringQueue`front, w.stringQueue`readfront, w.stringQueue`items, w.stringQueue.buffer
    modifies w.contextQueue`front, w.contextQueue`readfront, w.contextQueue`items, w.contextQueue.buffer
    ensures uplifted == w.file && w.checked <= |w.contextQueue.items|
    ensures w.writeBufferUsed == 0 && EventsOf(uplifted) == w.contextQueue.items[..w.checked] && w.EverythingDefined()
    ensures w.offered == old(w.offered) ==>
      (EventsOf(uplifted) == w.contextQueue.items <==>
       old(w.LooksAgain()) || old(w.contextQueue.back == w.contextQueue.front))
    ensures old(OffersIn(w.script)) == [] && AllTaken(old(w.taken)) &&
            OffersOfLog(old(w.offered), T.Execute(capacity, threads, acts).log, names) &&
            (old(w.LooksAgain()) || old(w.contextQueue.back == w.contextQueue.front)) ==>
      AllRebuilt(uplifted, capacity, threads, acts, names)
  {
    hide RawEventWriter.EverythingDefined, Storable, ShortNames, Rebuild, Kept, NamesIn, OffersIn, OffersOfLog;
    hide AllTaken, Ahead, RawEventWriter.Objects, RawEventWriter.Named, AllRebuilt;
    ghost var start := w.Now();
    w.DrainLoop();
    VocabularyStays(w, start);
    FewInterned(w);
    FileEncodable(w);
    var bytes;
    bytes, uplifted := Store(w.file);
    if OffersIn(start.script) == [] && AllTaken(start.taken) &&
       OffersOfLog(start.offered, T.Execute(capacity, threads, acts).log, names) &&
       EventsOf(w.file) == w.contextQueue.items {
      NoneOffered(start, w.Now());
      ForestsFromFile(w, capacity, threads, acts, names);
    } else if OffersIn(start.script) == [] {
      NoneOffered(start, w.Now());
    }
  }

  lemma VocabularyStays(w: RawEventWriter, start: Snapshot)
    requires Ahead(start, w.Now())
    requires |Words(start.interned, start.script)| < MAX_STRING_QUEUE
    requires ShortNames(Words(start.interned, start.script)) && Storable(start.offered + OffersIn(start.script))
    ensures |w.Vocabulary()| < MAX_STRING_QUEUE && ShortNames(w.Vocabulary()) && Storable(w.offered)
  {
    Subset(w.Vocabulary(), Words(start.interned, start.script));
    forall offer | offer in w.offered ensures Encodable(EventRecord(offer.1.(eventNameRef := 0))) {
      assert offer in w.offered + OffersIn(w.script);
    }
  }
}
