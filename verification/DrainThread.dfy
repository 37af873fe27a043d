/**
  The drain thread: EventStreamConsumer (src/Comms.cpp) and RawEventWriter (src/EventStreamIO.cpp).

  The other threads of the program run between the drain thread's accesses to shared state.  What they do
  is a script: at every interleaving point the next batch of their actions happens.  A script may hold any
  batches at all, so a theorem for every script covers every schedule.  When it runs out, the producers
  finish what they began and shutdown is requested.
*/
module DrainThread {
  import opened Common
  import opened Events
  import opened RingQueues
  import opened RingMachine

  /**
    An action of another thread: StampEvent's interning of a name (one atomic step); an enqueue up to its
    slot write; its publication; ShutdownAndWait.
  */
  datatype Action =
    | Intern(name: CString)
    | Enqueue(name: CString, event: ProfileEvent)
    | Publish
    | Shutdown

  /** The name reference of an event whose name could not be interned: (uint32_t) -1. */
  const NO_REFERENCE: nat := 0xffff_ffff

  /** The string records as they sit in the string queue when none was refused. */
  function Announcements(names: seq<CString>): (refs: seq<RuntimeStringReference>)
    ensures |refs| == |names|
  {
    seq(|names|, i requires 0 <= i < |names| => RuntimeStringReference(i, names[i]))
  }

  /** String references as WriteString puts them in the file: identifier, then the bytes before the NUL. */
  function FileStrings(refs: seq<RuntimeStringReference>): (records: seq<(nat, seq<Byte>)>)
    ensures |records| == |refs|
  {
    seq(|refs|, i requires 0 <= i < |refs| => (refs[i].id, refs[i].ptr.text))
  }

  // ----- What a script holds -----

  /** The names that a batch of actions mentions. */
  function NamesOf(batch: seq<Action>): set<CString> {
    set a | a in batch && (a.Intern? || a.Enqueue?) :: a.name
  }

  function NamesIn(script: seq<seq<Action>>): set<CString> {
    if script == [] then {} else NamesOf(script[0]) + NamesIn(script[1..])
  }

  /** The events that a batch of actions tries to enqueue, in order, with their names. */
  function OffersOf(batch: seq<Action>): seq<(CString, ProfileEvent)> {
    if batch == [] then []
    else
      var last := batch[|batch| - 1];
      OffersOf(batch[..|batch| - 1]) + if last.Enqueue? then [(last.name, last.event)] else []
  }

  function OffersIn(script: seq<seq<Action>>): seq<(CString, ProfileEvent)> {
    if script == [] then [] else OffersOf(script[0]) + OffersIn(script[1..])
  }

  /** The offers that were taken, in order. */
  function Kept<T>(offers: seq<T>, taken: seq<bool>): (kept: seq<T>)
    requires |offers| == |taken|
    ensures |kept| <= |offers|
  {
    if offers == [] then []
    else
      var k := |offers| - 1;
      Kept(offers[..k], taken[..k]) + if taken[k] then [offers[k]] else []
  }

  lemma KeptAppend<T>(offers: seq<T>, taken: seq<bool>, x: T, ok: bool)
    requires |offers| == |taken|
    ensures Kept(offers + [x], taken + [ok]) == Kept(offers, taken) + if ok then [x] else []
  {
    assert (offers + [x])[..|offers|] == offers && (taken + [ok])[..|taken|] == taken;
  }

  /** The state of the rest of the program, and what it has put into the queues. */
  datatype Snapshot = Snapshot(
    script: seq<seq<Action>>,
    finished: bool,
    runThread: bool,
    refused: bool,
    interned: seq<CString>,
    offered: seq<(CString, ProfileEvent)>,
    taken: seq<bool>,
    events: seq<ProfileEvent>,
    strings: seq<RuntimeStringReference>,
    stringsTaken: nat)

  /** Every name interned so far or still to come. */
  function Words(interned: seq<CString>, script: seq<seq<Action>>): set<CString> {
    (set name | name in interned) + NamesIn(script)
  }

  /** From a to b the rest of the program has moved forward and skipped nothing. */
  ghost predicate Ahead(a: Snapshot, b: Snapshot) {
    && b.offered + OffersIn(b.script) == a.offered + OffersIn(a.script)
    && a.taken <= b.taken && Words(b.interned, b.script) <= Words(a.interned, a.script)
    && a.events <= b.events && a.strings <= b.strings && a.stringsTaken <= b.stringsTaken
    && (a.refused ==> b.refused) && (b.runThread ==> a.runThread)
    && (a.finished ==> b.finished && b.events == a.events && b.strings == a.strings)
    && StillLeft(b) <= StillLeft(a)
  }

  /** How much of the rest of the program is still to come. */
  function StillLeft(s: Snapshot): nat {
    |s.script| + if s.finished then 0 else 1
  }

  lemma BatchStep(batch: seq<Action>, i: nat)
    requires i < |batch|
    ensures OffersOf(batch[..i + 1]) == OffersOf(batch[..i]) + OffersOf([batch[i]])
    ensures NamesOf(batch[..i + 1]) == NamesOf(batch[..i]) + NamesOf([batch[i]])
  {
    var next := batch[..i + 1];
    assert next[..i] == batch[..i] && next[i] == batch[i];
    assert OffersOf([batch[i]][..0]) == [];
    assert next == batch[..i] + [batch[i]];
  }

  /** A batch that was done. */
  lemma BatchAhead(a: Snapshot, b: Snapshot, batch: seq<Action>)
    requires a.script != [] && batch == a.script[0] && b.script == a.script[1..] && b.finished == a.finished == false
    requires b.offered == a.offered + OffersOf(batch) && a.taken <= b.taken
    requires forall name :: name in b.interned ==> name in a.interned || name in NamesOf(batch)
    requires a.events <= b.events && a.strings <= b.strings && a.stringsTaken == b.stringsTaken
    requires (a.refused ==> b.refused) && (b.runThread ==> a.runThread)
    ensures Ahead(a, b) && StillLeft(b) < StillLeft(a)
  {
    assert b.offered + OffersIn(b.script) == a.offered + (OffersOf(batch) + OffersIn(b.script));
  }

  lemma ProgramEnds(a: Snapshot, b: Snapshot)
    requires a.script == [] && !a.finished && b == a.(finished := true, runThread := false)
    ensures Ahead(a, b) && StillLeft(b) < StillLeft(a)
  {
  }

  lemma AheadItself(a: Snapshot)
    ensures Ahead(a, a)
  {
  }

  lemma AheadTwice(a: Snapshot, b: Snapshot, c: Snapshot)
    requires Ahead(a, b) && Ahead(b, c)
    ensures Ahead(a, c)
  {
  }

  lemma StringTaken(a: Snapshot, b: Snapshot)
    requires a.stringsTaken <= b.stringsTaken && b == a.(stringsTaken := b.stringsTaken)
    ensures Ahead(a, b)
  {
  }

  /** Names announced when a block was taken are in the file once the string queue has been emptied. */
  lemma NamesCarried(a: Snapshot, b: Snapshot, back: nat, announced: nat)
    requires Ahead(a, b) && back <= |a.events| && announced <= |a.strings| && b.stringsTaken == |b.strings|
    requires !a.refused ==> forall i :: 0 <= i < back ==> a.events[i].eventNameRef < announced
    ensures back <= |b.events|
    ensures !b.refused ==> forall i :: 0 <= i < back ==> b.events[i].eventNameRef < b.stringsTaken
  {
  }

  lemma AheadFacts(a: Snapshot, b: Snapshot)
    requires Ahead(a, b)
    ensures a.events <= b.events && a.strings <= b.strings && a.stringsTaken <= b.stringsTaken
    ensures (a.refused ==> b.refused) && (b.runThread ==> a.runThread) && StillLeft(b) <= StillLeft(a)
    ensures a.finished ==> b.finished && b.events == a.events && b.strings == a.strings
  {
  }

  ghost predicate RefersTo(event: ProfileEvent, name: CString, names: seq<CString>) {
    event.eventNameRef < |names| && names[event.eventNameRef] == name
  }

  /** The items are the offers that were taken, each with some name reference. */
  ghost predicate AreTaken(offered: seq<(CString, ProfileEvent)>, taken: seq<bool>,
                           entries: seq<(CString, ProfileEvent)>, items: seq<ProfileEvent>) {
    && |taken| == |offered| && entries == Kept(offered, taken) && |entries| == |items|
    && forall i :: 0 <= i < |entries| ==> items[i] == entries[i].1.(eventNameRef := items[i].eventNameRef)
  }

  /** Each item refers to its own name. */
  ghost predicate AllRefer(items: seq<ProfileEvent>, entries: seq<(CString, ProfileEvent)>, interned: seq<CString>)
    requires |entries| == |items|
  {
    forall i :: 0 <= i < |entries| ==> RefersTo(items[i], entries[i].0, interned)
  }

  lemma AreTakenAppend(offered: seq<(CString, ProfileEvent)>, taken: seq<bool>, entries: seq<(CString, ProfileEvent)>,
                       items: seq<ProfileEvent>, name: CString, event: ProfileEvent, reference: nat, ok: bool)
    requires AreTaken(offered, taken, entries, items)
    ensures AreTaken(offered + [(name, event)], taken + [ok], if ok then entries + [(name, event)] else entries,
                     if ok then items + [event.(eventNameRef := reference)] else items)
  {
    KeptAppend(offered, taken, (name, event), ok);
    hide Kept;
  }

  lemma AllReferAppend(items: seq<ProfileEvent>, entries: seq<(CString, ProfileEvent)>, interned: seq<CString>,
                       name: CString, event: ProfileEvent, offer: ProfileEvent)
    requires |entries| == |items| && AllRefer(items, entries, interned) && RefersTo(event, name, interned)
    ensures AllRefer(items + [event], entries + [(name, offer)], interned)
  {
  }

  lemma NoRepeatsGrows(interned: seq<CString>, name: CString)
    requires NoRepeats(interned)
    ensures name !in interned ==> NoRepeats(interned + [name])
  {
  }

  lemma AllReferGrows(items: seq<ProfileEvent>, entries: seq<(CString, ProfileEvent)>, interned: seq<CString>,
                      name: CString)
    requires |entries| == |items|
    ensures AllRefer(items, entries, interned) ==> AllRefer(items, entries, interned + [name])
  {
  }

  lemma AnnouncementsGrow(interned: seq<CString>, name: CString)
    ensures Announcements(interned + [name]) == Announcements(interned) + [RuntimeStringReference(|interned|, name)]
  {
  }

  lemma Refers(event: ProfileEvent, name: CString, names: seq<CString>)
    requires event.eventNameRef < |names| && names[event.eventNameRef] == name
    ensures RefersTo(event, name, names)
  {
  }

  /** When a file that holds the first `checked` items holds all of the first ones, and when all of them. */
  lemma CompleteExactly(first: seq<ProfileEvent>, items: seq<ProfileEvent>, back: nat, checked: nat, looks: bool)
    requires first <= items && back <= |first| && checked <= |items|
    requires if looks then |first| <= checked else checked == back
    ensures first <= items[..checked] <==> looks || back == |first|
    ensures items == first ==> (items[..checked] == items <==> looks || back == |first|)
  {
    assert items[..|items|] == items && first == items[..|first|];
    if |first| <= checked {
      assert items[..checked][..|first|] == first;
    }
  }

  /** Part of the buffer moves to the file. */
  lemma BlockWritten(file: seq<Record>, block: seq<ProfileEvent>, rest: seq<ProfileEvent>)
    ensures EventsOf(file + EventRecords(block)) + rest == EventsOf(file) + (block + rest)
    ensures StringsOf(file + EventRecords(block)) == StringsOf(file)
  {
    hide EventsOf, StringsOf, EventRecords;
    EventRecordsOnly(block);
    EventsOfConcat(file, EventRecords(block));
    StringsOfConcat(file, EventRecords(block));
    assert EventsOf(file) + block + rest == EventsOf(file) + (block + rest);
    assert StringsOf(file) + [] == StringsOf(file);
  }

  /** A block moves from the queue to the buffer. */
  lemma Moved(file: seq<ProfileEvent>, buffered: seq<ProfileEvent>, items: seq<ProfileEvent>, lo: nat, hi: nat)
    requires lo <= hi <= |items| && file + buffered == items[..lo]
    ensures file + (buffered + items[lo..hi]) == items[..hi]
  {
    assert items[..hi] == items[..lo] + items[lo..hi];
  }

  class RawEventWriter {
    const contextQueue: RingQueue<ProfileEvent>
    const stringQueue: RingQueue<RuntimeStringReference>
    const writeBuffer: array<ProfileEvent>
    var writeBufferUsed: nat
    var file: seq<Record>
    var runThread: bool
    var stillBusy: bool

    // The rest of the program.
    var script: seq<seq<Action>>
    var finished: bool
    var interned: seq<CString>
    /** Whether a name could not be interned, or its record found the string queue full. */
    var refused: bool

    /** The events that were offered, in order, with their names; which were taken; and those, in ticket order. */
    ghost var offered: seq<(CString, ProfileEvent)>
    ghost var taken: seq<bool>
    ghost var entries: seq<(CString, ProfileEvent)>
    /** How many event tickets had been claimed when the last emptiness check looked. */
    ghost var checked: nat

    ghost predicate Objects()
      reads contextQueue, contextQueue.buffer, stringQueue, stringQueue.buffer
    {
      && contextQueue as object != stringQueue as object
      && contextQueue.buffer as object != stringQueue.buffer as object
      && writeBuffer as object != contextQueue.buffer as object
      && writeBuffer as object != stringQueue.buffer as object
      && writeBuffer.Length == WRITE_BUFFER_SIZE && stringQueue.capacity == MAX_STRING_QUEUE
      && contextQueue.Valid() && stringQueue.Valid()
    }

    /** The queued events are the offers that were taken, each with some name reference. */
    ghost predicate Taken()
      reads this`offered, this`taken, this`entries, contextQueue`items
    {
      AreTaken(offered, taken, entries, contextQueue.items)
    }

    /**
      The string queue announced every interned string in order, and every event refers to its name, unless a name
      was refused; and that takes as many names as the string queue has slots.
    */
    ghost predicate Named()
      reads this`refused, this`interned, this`entries, contextQueue`items, stringQueue`items
    {
      && NoRepeats(interned)
      && |entries| == |contextQueue.items|
      && (refused ==> |interned| >= MAX_STRING_QUEUE)
      && (!refused ==>
            stringQueue.items == Announcements(interned) && AllRefer(contextQueue.items, entries, interned))
    }

    ghost function Vocabulary(): set<CString>
      reads this`interned, this`script
    {
      Words(interned, script)
    }

    /** A program with fewer names than the string queue has slots is never refused one. */
    lemma FewNames()
      requires Named() && |Vocabulary()| < MAX_STRING_QUEUE
      ensures !refused
    {
      Subset(Elements(interned), Vocabulary());
    }

    /** What holds between any two actions of any thread. */
    ghost predicate Shared()
      reads this`refused, this`interned, this`finished, this`script, this`runThread
      reads this`entries, this`offered, this`taken
      reads contextQueue, contextQueue.buffer, stringQueue, stringQueue.buffer
    {
      && Objects() && Named() && Taken()
      && stringQueue.readfront == stringQueue.front
      && (finished ==> script == [] && !runThread && contextQueue.readfront == contextQueue.front)
    }

    /**
      Every event that left its queue is in the file or in the buffer from `written` on, and every string
      reference that left its queue is in the file: each once, in order.
    */
    ghost predicate Conserved(written: nat)
      reads this`file, this`writeBufferUsed, writeBuffer
      reads contextQueue`items, contextQueue`back, stringQueue`items, stringQueue`back
    {
      && written <= writeBufferUsed <= writeBuffer.Length
      && contextQueue.back <= |contextQueue.items| && stringQueue.back <= |stringQueue.items|
      && EventsOf(file) + writeBuffer[written..writeBufferUsed] == contextQueue.items[..contextQueue.back]
      && StringsOf(file) == FileStrings(stringQueue.items[..stringQueue.back])
    }

    ghost predicate Valid()
      reads this, contextQueue, contextQueue.buffer, stringQueue, stringQueue.buffer, writeBuffer
    {
      Shared() && Conserved(0)
    }

    /** Every event in the buffer or the file has its string record in the file. */
    ghost predicate NamesWritten()
      reads this`refused, contextQueue`items, contextQueue`back, stringQueue`back
    {
      !refused && contextQueue.back <= |contextQueue.items| ==>
        forall i :: 0 <= i < contextQueue.back ==> contextQueue.items[i].eventNameRef < stringQueue.back
    }

    ghost function Left(): nat
      reads this`script, this`finished
    {
      |script| + if finished then 0 else 1
    }

    constructor ()
      ensures Valid() && writeBufferUsed == 0 && file == [] && !runThread && !stillBusy
      ensures script == [] && !finished && interned == [] && !refused && checked == 0
      ensures contextQueue.items == [] && contextQueue.back == contextQueue.readfront == contextQueue.front == 0
      ensures stringQueue.items == []
      ensures offered == [] && taken == []
      ensures contextQueue.capacity == MAX_EVENT_BUFFER && stringQueue.capacity == MAX_STRING_QUEUE
      ensures fresh(contextQueue) && fresh(contextQueue.buffer)
      ensures fresh(stringQueue) && fresh(stringQueue.buffer) && fresh(writeBuffer)
    {
      contextQueue := new RingQueue(MAX_EVENT_BUFFER);
      stringQueue := new RingQueue(MAX_STRING_QUEUE);
      writeBuffer := new ProfileEvent[WRITE_BUFFER_SIZE];
      writeBufferUsed, file := 0, [];
      runThread, stillBusy := false, false;
      script, finished, interned, refused, checked := [], false, [], false, 0;
      offered, taken, entries := [], [], [];
    }

    // ----- The other threads -----

    /** Whether a name not interned before finds no room in the intern table or in the string queue. */
    ghost predicate Refuses(name: CString)
      requires stringQueue.Valid()
      reads this`interned, stringQueue, stringQueue.buffer
    {
      name !in interned
      && (|interned| >= STRING_TABLE_SIZE || |stringQueue.Contents()| == stringQueue.capacity - 1)
    }

    /** A new name is interned unless the table is full, and announced unless the string queue is. */
    method MapStringToReference(name: CString)
      requires Shared() && !finished
      modifies this`interned, this`refused
      modifies stringQueue`front, stringQueue`readfront, stringQueue`items, stringQueue.buffer
      ensures Shared()
      ensures refused == (old(refused) || old(Refuses(name)))
      ensures interned == old(interned) + if name in old(interned) || |old(interned)| >= STRING_TABLE_SIZE then []
                                          else [name]
      ensures stringQueue.items == old(stringQueue.items) + if name in old(interned) || old(Refuses(name)) then []
                                                            else [RuntimeStringReference(|old(interned)|, name)]
      ensures !refused ==> name in interned
    {
      hide AreTaken, AllRefer, Announcements, NoRepeats;
      NoRepeatsGrows(interned, name);
      AllReferGrows(contextQueue.items, entries, interned, name);
      AnnouncementsGrow(interned, name);
      if name in interned {
        return;
      }
      if |interned| >= STRING_TABLE_SIZE {
        refused := true;
        return;
      }
      var ok := stringQueue.TryEnqueue(RuntimeStringReference(|interned|, name));
      interned := interned + [name];
      if !ok {
        refused := true;
      }
    }

    /** The reference of an interned name, and (uint32_t) -1 for one that found the table full. */
    ghost function ReferenceOf(name: CString): nat
      reads this`interned
    {
      if name in interned then IndexOf(interned, name) else NO_REFERENCE
    }

    /** A producer's call up to its slot write: the name is interned before the event is enqueued. */
    method StampAndClaim(name: CString, event: ProfileEvent) returns (ok: bool)
      requires Shared() && !finished
      modifies this`interned, this`refused, this`entries, this`offered, this`taken
      modifies stringQueue`front, stringQueue`readfront, stringQueue`items, stringQueue.buffer
      modifies contextQueue`front, contextQueue`items, contextQueue.buffer
      ensures Shared()
      ensures refused == (old(refused) || old(Refuses(name)))
      ensures interned == old(interned) + if name in old(interned) || |old(interned)| >= STRING_TABLE_SIZE then []
                                          else [name]
      ensures old(stringQueue.items) <= stringQueue.items
      ensures ok <==> |old(contextQueue.Contents())| < contextQueue.capacity - 1
      ensures contextQueue.items ==
        old(contextQueue.items) + if ok then [event.(eventNameRef := ReferenceOf(name))] else []
      ensures offered == old(offered) + [(name, event)] && taken == old(taken) + [ok]
    {
      hide Shared, Taken, Named, Objects, Refuses;
      MapStringToReference(name);
      ok := ClaimStamped(name, event, if name in interned then IndexOf(interned, name) else NO_REFERENCE);
    }

    /** The enqueue of a stamped event, up to its slot write. */
    method ClaimStamped(name: CString, event: ProfileEvent, reference: nat) returns (ok: bool)
      requires Shared() && !finished && reference == ReferenceOf(name) && (!refused ==> name in interned)
      modifies this`entries, this`offered, this`taken
      modifies contextQueue`front, contextQueue`items, contextQueue.buffer
      ensures Shared()
      ensures ok <==> |old(contextQueue.Contents())| < contextQueue.capacity - 1
      ensures contextQueue.items == old(contextQueue.items) + if ok then [event.(eventNameRef := reference)] else []
      ensures offered == old(offered) + [(name, event)] && taken == old(taken) + [ok]
    {
      hide Kept, Announcements, AreTaken, AllRefer, RefersTo;
      ReferenceKnown(name);
      var stamped := event.(eventNameRef := reference);
      ghost var items := contextQueue.items;
      ok := contextQueue.Claim(stamped);
      AreTakenAppend(offered, taken, entries, items, name, event, reference, ok);
      if ok {
        if !refused {
          Refers(stamped, name, interned);
          AllReferAppend(items, entries, interned, name, stamped, event);
        }
        entries := entries + [(name, event)];
      }
      offered, taken := offered + [(name, event)], taken + [ok];
    }

    lemma ReferenceKnown(name: CString)
      ensures name in interned ==>
        ReferenceOf(name) < |interned| && interned[ReferenceOf(name)] == name
    {
    }

    method Do(action: Action)
      requires Shared() && !finished
      modifies this`interned, this`refused, this`entries, this`offered, this`taken, this`runThread
      modifies stringQueue`front, stringQueue`readfront, stringQueue`items, stringQueue.buffer
      modifies contextQueue`front, contextQueue`readfront, contextQueue`items, contextQueue.buffer
      ensures Shared()
      ensures old(contextQueue.items) <= contextQueue.items && old(stringQueue.items) <= stringQueue.items
      ensures old(refused) ==> refused
      ensures runThread == (old(runThread) && !action.Shutdown?)
      ensures offered == old(offered) + OffersOf([action])
      ensures taken == old(taken) + if action.Enqueue? then [|old(contextQueue.Contents())| < contextQueue.capacity - 1]
                                    else []
      ensures forall name :: name in interned ==> name in old(interned) || name in NamesOf([action])
      ensures contextQueue.readfront == old(contextQueue.readfront)
        + if action.Publish? && old(contextQueue.readfront < contextQueue.front) then 1 else 0
    {
      assert OffersOf([action][..0]) == [];
      match action {
        case Intern(name) =>
          MapStringToReference(name);
        case Enqueue(name, event) =>
          var _ := StampAndClaim(name, event);
        case Publish =>
          if contextQueue.readfront < contextQueue.front {
            contextQueue.Publish();
          }
        case Shutdown =>
          runThread := false;
      }
    }

    /** Queued events and string records. */
    ghost function Pending(): nat
      reads contextQueue`front, contextQueue`back, stringQueue`front, stringQueue`back
    {
      (if contextQueue.back <= contextQueue.front then contextQueue.front - contextQueue.back else 0)
      + (if stringQueue.back <= stringQueue.front then stringQueue.front - stringQueue.back else 0)
    }

    ghost function Now(): Snapshot
      reads this`script, this`finished, this`refused, this`runThread, this`interned, this`offered, this`taken
      reads contextQueue`items, stringQueue`items, stringQueue`back
    {
      Snapshot(script, finished, runThread, refused, interned, offered, taken,
               contextQueue.items, stringQueue.items, stringQueue.back)
    }

    /** A batch of actions, one after the other. */
    method RunBatch(batch: seq<Action>)
      requires Shared() && !finished
      modifies this`interned, this`refused, this`runThread, this`entries, this`offered, this`taken
      modifies stringQueue`front, stringQueue`readfront, stringQueue`items, stringQueue.buffer
      modifies contextQueue`front, contextQueue`readfront, contextQueue`items, contextQueue.buffer
      ensures Shared()
      ensures old(contextQueue.items) <= contextQueue.items && old(stringQueue.items) <= stringQueue.items
      ensures offered == old(offered) + OffersOf(batch) && old(taken) <= taken
      ensures forall name :: name in interned ==> name in old(interned) || name in NamesOf(batch)
      ensures (old(refused) ==> refused) && runThread == (old(runThread) && Shutdown !in batch)
    {
      hide Shared, Named, Taken, Objects, RingQueue.Valid;
      for i := 0 to |batch|
        invariant Shared()
        invariant old(contextQueue.items) <= contextQueue.items && old(stringQueue.items) <= stringQueue.items
        invariant offered == old(offered) + OffersOf(batch[..i]) && old(taken) <= taken
        invariant forall name :: name in interned ==> name in old(interned) || name in NamesOf(batch[..i])
        invariant (old(refused) ==> refused) && runThread == (old(runThread) && Shutdown !in batch[..i])
      {
        BatchStep(batch, i);
        Do(batch[i]);
      }
      assert batch[..|batch|] == batch;
    }

    /** The producers finish what they began, and shutdown is requested. */
    method FinishPublishing()
      requires Shared() && !finished && script == []
      modifies this`runThread, this`finished, contextQueue`readfront
      ensures Shared() && finished && !runThread
    {
      while contextQueue.readfront < contextQueue.front
        invariant Shared() && !finished && script == []
        decreases contextQueue.front - contextQueue.readfront
      {
        contextQueue.Publish();
      }
      runThread, finished := false, true;
    }

    /** What has left the queues does not change when more is put into them. */
    twostate lemma StillConserved(written: nat)
      requires old(Conserved(written))
      requires file == old(file) && writeBufferUsed == old(writeBufferUsed) && writeBuffer[..] == old(writeBuffer[..])
      requires contextQueue.back == old(contextQueue.back) && stringQueue.back == old(stringQueue.back)
      requires old(contextQueue.items) <= contextQueue.items && old(stringQueue.items) <= stringQueue.items
      ensures Conserved(written)
      ensures contextQueue.items[..contextQueue.back] == old(contextQueue.items[..contextQueue.back])
    {
      hide EventsOf, StringsOf;
      assert writeBuffer[written..writeBufferUsed] == writeBuffer[..][written..writeBufferUsed];
      assert old(writeBuffer[written..writeBufferUsed]) == old(writeBuffer[..][written..writeBufferUsed]);
    }

    /** Whether the thread is still meant to run after the next batch. */
    ghost predicate RunsOn()
      reads this`runThread, this`script
    {
      runThread && script != [] && Shutdown !in script[0]
    }

    /** One interleaving point of the drain thread. */
    method Interleave(ghost written: nat)
      requires Shared() && Conserved(written)
      modifies this`script, this`finished, this`interned, this`refused, this`runThread
      modifies this`entries, this`offered, this`taken
      modifies stringQueue`front, stringQueue`readfront, stringQueue`items, stringQueue.buffer
      modifies contextQueue`front, contextQueue`readfront, contextQueue`items, contextQueue.buffer
      ensures Shared() && Conserved(written) && Ahead(old(Now()), Now())
      ensures !old(finished) ==> Left() < old(Left())
      ensures runThread == old(RunsOn())
      ensures contextQueue.items[..contextQueue.back] == old(contextQueue.items[..contextQueue.back])
      ensures old(NamesWritten()) ==> NamesWritten()
      ensures old(finished) ==> Pending() == old(Pending())
    {
      hide Conserved, Ahead, Taken, Named, RingQueue.Valid;
      ghost var before := Now();
      AheadItself(before);
      QueuesValid();
      if script != [] {
        var batch := script[0];
        script := script[1..];
        RunBatch(batch);
        BatchAhead(before, Now(), batch);
      } else if !finished {
        FinishPublishing();
        ProgramEnds(before, Now());
      }
      QueuesValid();
      AheadFacts(before, Now());
      StillConserved(written);
    }

    // ----- Writing -----

    /** fwrite of n buffered events: it accepts some of them, at least one when there are any. */
    method WriteEvents(written: nat, n: nat) returns (count: nat)
      requires Conserved(written) && written + n == writeBufferUsed
      modifies this`file
      ensures 0 < n ==> 0 < count
      ensures count <= n && Conserved(written + count)
    {
      count :| 0 <= count <= n && (0 < n ==> 0 < count);
      hide *;
      WriteIsConserved(written, count);
      file := file + EventRecords(writeBuffer[written..written + count]);
      ConservedFrom(written, count);
    }

    /** What fwrite puts into the file is what leaves the buffer. */
    lemma WriteIsConserved(written: nat, count: nat)
      requires Conserved(written) && written + count <= writeBufferUsed
      ensures writeBufferUsed <= writeBuffer.Length
      ensures contextQueue.back <= |contextQueue.items| && stringQueue.back <= |stringQueue.items|
      ensures var after := file + EventRecords(writeBuffer[written..written + count]);
        && EventsOf(after) + writeBuffer[written + count..writeBufferUsed] == contextQueue.items[..contextQueue.back]
        && StringsOf(after) == FileStrings(stringQueue.items[..stringQueue.back])
    {
      hide EventsOf, StringsOf, FileStrings, EventRecords;
      var block, rest := writeBuffer[written..written + count], writeBuffer[written + count..writeBufferUsed];
      BlockWritten(file, block, rest);
      assert writeBuffer[written..writeBufferUsed] == block + rest;
    }

    lemma ConservedFrom(written: nat, count: nat)
      requires written + count <= writeBufferUsed <= writeBuffer.Length
      requires contextQueue.back <= |contextQueue.items| && stringQueue.back <= |stringQueue.items|
      requires EventsOf(file) + writeBuffer[written + count..writeBufferUsed] == contextQueue.items[..contextQueue.back]
      requires StringsOf(file) == FileStrings(stringQueue.items[..stringQueue.back])
      ensures Conserved(written + count)
    {
    }

    method WriteString(ref: RuntimeStringReference)
      requires Objects() && 0 < stringQueue.back && ref == stringQueue.items[stringQueue.back - 1]
      requires StringsOf(file) == FileStrings(stringQueue.items[..stringQueue.back - 1])
      modifies this`file
      ensures StringsOf(file) == FileStrings(stringQueue.items[..stringQueue.back])
      ensures EventsOf(file) == old(EventsOf(file))
    {
      file := file + [StringRecord(ref.id, ref.ptr.text)];
    }

    /** One string reference goes from its queue to the file, if there is one. */
    method MoveString(ghost written: nat) returns (moved: bool)
      requires Shared() && Conserved(written)
      modifies this`file, stringQueue`back
      ensures Shared() && Conserved(written) && Ahead(old(Now()), Now())
      ensures moved <==> old(stringQueue.back) < stringQueue.front
      ensures stringQueue.back == old(stringQueue.back) + if moved then 1 else 0
    {
      hide Named, Taken, EventsOf, StringsOf, Ahead, Announcements;
      ghost var before := Now();
      AheadItself(before);
      var reference := stringQueue.TryDequeue();
      if reference.None? {
        return false;
      }
      WriteString(reference.value);
      StringTaken(before, Now());
      return true;
    }

    method FlushStrings(ghost written: nat)
      requires Shared() && Conserved(written)
      modifies this`file, stringQueue`back
      modifies this`script, this`finished, this`interned, this`refused, this`runThread
      modifies this`entries, this`offered, this`taken
      modifies stringQueue`front, stringQueue`readfront, stringQueue`items, stringQueue.buffer
      modifies contextQueue`front, contextQueue`readfront, contextQueue`items, contextQueue.buffer
      ensures Shared() && Conserved(written) && Ahead(old(Now()), Now())
      ensures stringQueue.back == stringQueue.front
    {
      hide Shared, Conserved, Ahead, RingQueue.Valid;
      AheadItself(Now());
      while true
        invariant Shared() && Conserved(written) && Ahead(old(Now()), Now())
        decreases Left(), stringQueue.front - stringQueue.back
      {
        ghost var before := Now();
        QueuesValid();
        Interleave(written);
        AheadTwice(old(Now()), before, Now());
        AheadFacts(before, Now());
        QueuesValid();
        before := Now();
        var moved := MoveString(written);
        AheadTwice(old(Now()), before, Now());
        if !moved {
          break;
        }
      }
      QueuesValid();
    }

    /** One round of the loop: fwrite, and the other threads. */
    method WriteSome(written: nat, n: nat) returns (count: nat)
      requires Shared() && Conserved(written) && written + n == writeBufferUsed
      modifies this`file
      modifies this`script, this`finished, this`interned, this`refused, this`runThread
      modifies this`entries, this`offered, this`taken
      modifies stringQueue`front, stringQueue`readfront, stringQueue`items, stringQueue.buffer
      modifies contextQueue`front, contextQueue`readfront, contextQueue`items, contextQueue.buffer
      ensures 0 < n ==> 0 < count
      ensures count <= n && Shared() && Conserved(written + count) && Ahead(old(Now()), Now())
    {
      hide Named, Taken, EventsOf, StringsOf, FileStrings, NamesWritten, Pending, RingQueue.Valid, Ahead, Conserved;
      count := WriteEvents(written, n);
      Interleave(written + count);
    }

    method WriteOut()
      requires Valid()
      modifies this`file, this`writeBufferUsed
      modifies this`script, this`finished, this`interned, this`refused, this`runThread
      modifies this`entries, this`offered, this`taken
      modifies stringQueue`front, stringQueue`readfront, stringQueue`items, stringQueue.buffer
      modifies contextQueue`front, contextQueue`readfront, contextQueue`items, contextQueue.buffer
      ensures Valid() && Ahead(old(Now()), Now()) && writeBufferUsed == 0
    {
      hide Named, Taken, EventsOf, StringsOf, FileStrings, NamesWritten, Pending, RingQueue.Valid, Ahead, Now;
      var toWrite, written := writeBufferUsed, 0;
      AheadItself(Now());
      while true
        invariant Shared() && written + toWrite == writeBufferUsed && Conserved(written) && Ahead(old(Now()), Now())
        decreases toWrite
      {
        ghost var before := Now();
        var thisWrite := WriteSome(written, toWrite);
        written := written + thisWrite;
        toWrite := toWrite - thisWrite;
        AheadTwice(old(Now()), before, Now());
        if !(toWrite > 0) {
          break;
        }
      }
      writeBufferUsed := 0;
    }

    method Flush()
      requires Valid()
      modifies this`file, this`writeBufferUsed, stringQueue`back
      modifies this`script, this`finished, this`interned, this`refused, this`runThread
      modifies this`entries, this`offered, this`taken
      modifies stringQueue`front, stringQueue`readfront, stringQueue`items, stringQueue.buffer
      modifies contextQueue`front, contextQueue`readfront, contextQueue`items, contextQueue.buffer
      ensures Valid() && Ahead(old(Now()), Now()) && writeBufferUsed == 0
      ensures stringQueue.back == stringQueue.front
    {
      hide Ahead, Now, Shared, Conserved;
      WriteOut();
      ghost var before := Now();
      FlushStrings(0);
      AheadTwice(old(Now()), before, Now());
    }

    // ----- Draining -----

    /**
      The file defines strings 0, 1, 2, ... in order, and the reference of each event in the file or the buffer
      leads to its own name there.
    */
    ghost predicate EverythingDefined()
      requires writeBufferUsed <= writeBuffer.Length
      reads this`file, this`entries, this`writeBufferUsed, writeBuffer
    {
      var events := EventsOf(file) + writeBuffer[..writeBufferUsed];
      && (forall i :: 0 <= i < |StringsOf(file)| ==> StringsOf(file)[i].0 == i)
      && |events| <= |entries|
      && forall i :: 0 <= i < |events| ==>
           var reference := events[i].eventNameRef;
           reference < |StringsOf(file)| && StringsOf(file)[reference].1 == entries[i].0.text
    }

    /** File, buffer and queue hold every accepted event, in order. */
    ghost predicate NothingLost()
      requires writeBufferUsed <= writeBuffer.Length && contextQueue.Valid()
      reads this`file, this`writeBufferUsed, writeBuffer, contextQueue, contextQueue.buffer
    {
      EventsOf(file) + writeBuffer[..writeBufferUsed] + contextQueue.Contents() == contextQueue.items
    }

    lemma InOrder()
      requires Valid()
      ensures contextQueue.Valid() && NothingLost()
    {
      hide EventsOf;
      assert contextQueue.items == contextQueue.items[..contextQueue.back] + contextQueue.Contents();
    }

    lemma NamesDefined()
      requires Valid() && NamesWritten()
      ensures !refused ==> EverythingDefined()
    {
    }

    /** The block dequeue: there is always room for at least one event below the threshold. */
    method TakeBlock()
      requires Valid() && writeBufferUsed < WRITE_BUFFER_THRESHOLD
      modifies this`writeBufferUsed, writeBuffer, contextQueue`back
      ensures Valid() && old(contextQueue.back) <= contextQueue.back
      ensures writeBufferUsed == old(writeBufferUsed) + contextQueue.back - old(contextQueue.back)
      ensures contextQueue.back == old(contextQueue.back) ==> contextQueue.back == contextQueue.readfront
    {
      hide EventsOf, StringsOf, FileStrings, Named;
      var n := contextQueue.TryDequeueBlock(writeBuffer, writeBufferUsed, WRITE_BUFFER_SIZE - writeBufferUsed);
      ghost var was := old(writeBuffer[..writeBufferUsed]);
      ghost var block := contextQueue.items[old(contextQueue.back)..contextQueue.back];
      assert writeBuffer[..writeBufferUsed + n] == was + block;
      Moved(EventsOf(file), was, contextQueue.items, old(contextQueue.back), contextQueue.back);
      writeBufferUsed := writeBufferUsed + n;
    }

    lemma QueuesValid()
      requires Shared()
      ensures contextQueue.Valid() && contextQueue.back <= contextQueue.front == |contextQueue.items|
      ensures stringQueue.Valid() && stringQueue.back <= stringQueue.front == |stringQueue.items|
      ensures finished ==> contextQueue.readfront == contextQueue.front
    {
    }

    method CheckStrings() returns (empty: bool)
      requires Valid() && NamesWritten()
      modifies this`script, this`finished, this`interned, this`refused, this`runThread
      modifies this`entries, this`offered, this`taken
      modifies stringQueue`front, stringQueue`readfront, stringQueue`items, stringQueue.buffer
      modifies contextQueue`front, contextQueue`readfront, contextQueue`items, contextQueue.buffer
      ensures Valid() && NamesWritten() && Ahead(old(Now()), Now())
      ensures empty <==> stringQueue.back == stringQueue.front
    {
      Interleave(0);
      empty := stringQueue.Empty();
    }

    /** Whether both queues are found empty; the second one is looked at only if the first is empty. */
    method CheckQueues() returns (idle: bool, ghost seen: nat)
      requires Valid() && NamesWritten()
      modifies this`script, this`finished, this`interned, this`refused, this`runThread
      modifies this`entries, this`offered, this`taken
      modifies stringQueue`front, stringQueue`readfront, stringQueue`items, stringQueue.buffer
      modifies contextQueue`front, contextQueue`readfront, contextQueue`items, contextQueue.buffer
      ensures Valid() && NamesWritten() && Ahead(old(Now()), Now())
      ensures seen == old(contextQueue.front) && contextQueue.back <= seen
      ensures idle <==> contextQueue.back == seen && stringQueue.back == stringQueue.front
    {
      QueuesValid();
      hide Shared, Conserved, NamesWritten, RingQueue.Valid;
      seen := contextQueue.front;
      idle := contextQueue.Empty();
      if idle {
        idle := CheckStrings();
      }
    }

    /** The emptiness check at the end of Drain. */
    method CheckBusy()
      requires Valid() && NamesWritten()
      modifies this`stillBusy, this`checked
      modifies this`script, this`finished, this`interned, this`refused, this`runThread
      modifies this`entries, this`offered, this`taken
      modifies stringQueue`front, stringQueue`readfront, stringQueue`items, stringQueue.buffer
      modifies contextQueue`front, contextQueue`readfront, contextQueue`items, contextQueue.buffer
      ensures Valid() && NamesWritten() && Ahead(old(Now()), Now())
      ensures checked == old(contextQueue.front) && contextQueue.back <= checked
      ensures stillBusy <==> contextQueue.back < checked || stringQueue.back != stringQueue.front
    {
      hide Shared, Conserved, NamesWritten, RingQueue.Valid;
      var idle;
      ghost var seen;
      idle, seen := CheckQueues();
      checked, stillBusy := seen, !idle;
    }

    /** The checking half of Drain. */
    method LookForMore()
      requires Valid() && NamesWritten()
      modifies this`stillBusy, this`checked
      modifies this`script, this`finished, this`interned, this`refused, this`runThread
      modifies this`entries, this`offered, this`taken
      modifies stringQueue`front, stringQueue`readfront, stringQueue`items, stringQueue.buffer
      modifies contextQueue`front, contextQueue`readfront, contextQueue`items, contextQueue.buffer
      ensures Valid() && NamesWritten() && Ahead(old(Now()), Now())
      ensures |old(contextQueue.items)| <= checked <= |contextQueue.items| && contextQueue.back <= checked
      ensures stillBusy <==> contextQueue.back < checked || stringQueue.back != stringQueue.front
      ensures old(finished) ==> Pending() == old(Pending()) && (Pending() == 0 ==> !stillBusy)
    {
      hide Shared, Conserved, Ahead, NamesWritten, RingQueue.Valid;
      ghost var start := Now();
      QueuesValid();
      Interleave(0);
      ghost var next := Now();
      QueuesValid();
      CheckBusy();
      AheadFacts(start, next);
      AheadFacts(next, Now());
      AheadTwice(start, next, Now());
      QueuesValid();
    }

    /** A name is announced before any event that uses it is enqueued. */
    lemma NamesAnnounced()
      requires Shared() && contextQueue.back <= |contextQueue.items|
      ensures !refused ==>
        forall i :: 0 <= i < contextQueue.back ==> contextQueue.items[i].eventNameRef < stringQueue.front
    {
    }

    /** The writing half of Drain. */
    method FlushIfFull()
      requires Valid()
      modifies this`file, this`writeBufferUsed, stringQueue`back
      modifies this`script, this`finished, this`interned, this`refused, this`runThread
      modifies this`entries, this`offered, this`taken
      modifies stringQueue`front, stringQueue`readfront, stringQueue`items, stringQueue.buffer
      modifies contextQueue`front, contextQueue`readfront, contextQueue`items, contextQueue.buffer
      ensures Valid() && Ahead(old(Now()), Now())
      ensures writeBufferUsed == if old(writeBufferUsed) >= WRITE_BUFFER_THRESHOLD then 0 else old(writeBufferUsed)
      ensures stringQueue.back == stringQueue.front
    {
      hide Shared, Conserved, Ahead, Now;
      ghost var start := Now();
      AheadItself(start);
      if writeBufferUsed >= WRITE_BUFFER_THRESHOLD {
        Flush();
      }
      ghost var next := Now();
      FlushStrings(0);
      AheadTwice(start, next, Now());
    }

    lemma NamesKnown()
      requires NamesWritten() && contextQueue.back <= |contextQueue.items|
      ensures !refused ==> forall i :: 0 <= i < contextQueue.back ==>
        contextQueue.items[i].eventNameRef < stringQueue.back
    {
    }

    lemma NamesOfTaken()
      requires contextQueue.back <= |contextQueue.items|
      requires !refused ==> forall i :: 0 <= i < contextQueue.back ==>
        contextQueue.items[i].eventNameRef < stringQueue.back
      ensures NamesWritten()
    {
    }

    /** Drain up to its emptiness check. */
    method DrainQueues()
      requires Valid() && NamesWritten() && writeBufferUsed < WRITE_BUFFER_THRESHOLD
      modifies this`file, this`writeBufferUsed, writeBuffer, stringQueue`back, contextQueue`back
      modifies this`script, this`finished, this`interned, this`refused, this`runThread
      modifies this`entries, this`offered, this`taken
      modifies stringQueue`front, stringQueue`readfront, stringQueue`items, stringQueue.buffer
      modifies contextQueue`front, contextQueue`readfront, contextQueue`items, contextQueue.buffer
      ensures Valid() && NamesWritten() && Ahead(old(Now()), Now())
      ensures writeBufferUsed < WRITE_BUFFER_THRESHOLD
      ensures contextQueue.back >= old(contextQueue.back)
      ensures var used := old(writeBufferUsed) + contextQueue.back - old(contextQueue.back);
        writeBufferUsed == if used >= WRITE_BUFFER_THRESHOLD then 0 else used
      ensures !old(finished) ==> Left() < old(Left())
      ensures old(finished) ==> Pending() < old(Pending()) || Pending() == old(Pending()) == 0
    {
      hide Shared, Conserved, Ahead, NamesWritten, RingQueue.Valid;
      ghost var start := Now();
      QueuesValid();
      Interleave(0);
      ghost var next := Now();
      TakeBlock();
      AheadItself(next);
      AheadTwice(start, next, Now());
      next := Now();
      ghost var announced := stringQueue.front;
      QueuesValid();
      NamesAnnounced();
      FlushIfFull();
      AheadFacts(next, Now());
      AheadTwice(start, next, Now());
      AheadFacts(start, Now());
      QueuesValid();
      NamesCarried(next, Now(), contextQueue.back, announced);
      NamesOfTaken();
    }

    /**
      One Drain.  Afterwards what is in the file, then in the used part of the buffer, then in the queue is
      every event ever accepted, in order; every name the first two use is defined in the file; and unless
      the rest of the program is still moving, the queues have become shorter or the thread is idle.
    */
    method Drain()
      requires Valid() && NamesWritten() && writeBufferUsed < WRITE_BUFFER_THRESHOLD
      modifies this`file, this`writeBufferUsed, this`stillBusy, this`checked, writeBuffer
      modifies stringQueue`back, contextQueue`back
      modifies this`script, this`finished, this`interned, this`refused, this`runThread
      modifies this`entries, this`offered, this`taken
      modifies stringQueue`front, stringQueue`readfront, stringQueue`items, stringQueue.buffer
      modifies contextQueue`front, contextQueue`readfront, contextQueue`items, contextQueue.buffer
      ensures Valid() && NamesWritten() && Ahead(old(Now()), Now())
      ensures writeBufferUsed < WRITE_BUFFER_THRESHOLD
      ensures NothingLost() && (!refused ==> EverythingDefined())
      ensures |old(Vocabulary())| < MAX_STRING_QUEUE ==> !refused
      ensures |old(contextQueue.items)| <= checked <= |contextQueue.items| && contextQueue.back <= checked
      ensures stillBusy <==> contextQueue.back < checked || stringQueue.back != stringQueue.front
      ensures old(contextQueue.back) <= contextQueue.back
      ensures var used := old(writeBufferUsed) + contextQueue.back - old(contextQueue.back);
        writeBufferUsed == if used >= WRITE_BUFFER_THRESHOLD then 0 else used
      ensures !old(finished) ==> Left() < old(Left())
      ensures old(finished) ==> Pending() < old(Pending()) || (Pending() == old(Pending()) == 0 && !stillBusy)
    {
      hide Shared, Conserved, Ahead, NamesWritten, RingQueue.Valid, EverythingDefined, NothingLost, Pending;
      ghost var start := Now();
      DrainQueues();
      ghost var drained := Now();
      LookForMore();
      AheadFacts(start, drained);
      AheadFacts(drained, Now());
      AheadTwice(start, drained, Now());
      InOrder();
      NamesDefined();
      FewNamesStay(start);
    }

    method StartDrainThread()
      modifies this`runThread
      ensures runThread
    {
      if !runThread {
        runThread := true;   // and the thread starts in DrainLoop
      }
    }

    /** ShutdownAndWait, up to the join. */
    method RequestShutdown()
      modifies this`runThread
      ensures !runThread
    {
      if runThread {
        runThread := false;
      }
    }

    /** A producer's whole call, run between two actions of the drain thread. */
    method AcceptEvent(name: CString, event: ProfileEvent) returns (ok: bool)
      requires Valid() && !finished && contextQueue.readfront == contextQueue.front
      modifies this`interned, this`refused, this`entries, this`offered, this`taken
      modifies stringQueue`front, stringQueue`readfront, stringQueue`items, stringQueue.buffer
      modifies contextQueue`front, contextQueue`readfront, contextQueue`items, contextQueue.buffer
      ensures Valid() && contextQueue.readfront == contextQueue.front
      ensures ok <==> |old(contextQueue.Contents())| < contextQueue.capacity - 1
      ensures contextQueue.items ==
        old(contextQueue.items) + if ok then [event.(eventNameRef := ReferenceOf(name))] else []
    {
      hide Taken, Named, Conserved, Refuses;
      ok := StampAndClaim(name, event);
      if ok {
        contextQueue.Publish();
      }
      StillConserved(0);
    }

    /** Whether the loop of DrainLoop is entered: its flags are read after one more batch of the others' actions. */
    ghost predicate LooksAgain()
      reads this`stillBusy, this`runThread, this`script
    {
      stillBusy || RunsOn()
    }

    /** One round of the loop of DrainLoop. */
    method DrainOnce()
      requires Valid() && NamesWritten() && writeBufferUsed < WRITE_BUFFER_THRESHOLD
      modifies this`file, this`writeBufferUsed, this`stillBusy, this`checked, writeBuffer
      modifies stringQueue`back, contextQueue`back
      modifies this`script, this`finished, this`interned, this`refused, this`runThread
      modifies this`entries, this`offered, this`taken
      modifies stringQueue`front, stringQueue`readfront, stringQueue`items, stringQueue.buffer
      modifies contextQueue`front, contextQueue`readfront, contextQueue`items, contextQueue.buffer
      ensures Valid() && NamesWritten() && writeBufferUsed < WRITE_BUFFER_THRESHOLD
      ensures Ahead(old(Now()), Now())
      ensures |old(contextQueue.items)| <= checked && (!stillBusy ==> contextQueue.back == checked)
      ensures !old(finished) ==> Left() < old(Left())
      ensures old(finished) ==> finished && Left() == old(Left())
      ensures old(finished) ==> Pending() < old(Pending()) || (Pending() == old(Pending()) && !stillBusy && !runThread)
    {
      hide *;
      ghost var start := Now();
      NowIs();
      Drain();
      NowIs();
      ghost var next := Now();
      AheadFacts(start, next);
      Interleave(0);
      IsValid();
      NowIs();
      AheadFacts(next, Now());
      AheadTwice(start, next, Now());
    }

    lemma IsValid()
      requires Shared() && Conserved(0)
      ensures Valid()
    {
    }

    lemma NowIs()
      requires Valid()
      ensures Shared() && Conserved(0)
      ensures Now().finished == finished && Now().events == contextQueue.items && StillLeft(Now()) == Left()
      ensures finished ==> !runThread && Left() == 0
    {
    }

    lemma NoMoreRuns()
      requires Shared()
      ensures finished ==> script == [] && !runThread
    {
    }

    /** The loop of DrainLoop. */
    method DrainUntilIdle()
      requires Valid() && NamesWritten() && writeBufferUsed < WRITE_BUFFER_THRESHOLD
      requires !stillBusy ==> contextQueue.back == checked
      modifies this`file, this`writeBufferUsed, this`stillBusy, this`checked, writeBuffer
      modifies stringQueue`back, contextQueue`back
      modifies this`script, this`finished, this`interned, this`refused, this`runThread
      modifies this`entries, this`offered, this`taken
      modifies stringQueue`front, stringQueue`readfront, stringQueue`items, stringQueue.buffer
      modifies contextQueue`front, contextQueue`readfront, contextQueue`items, contextQueue.buffer
      ensures Valid() && NamesWritten() && !runThread && contextQueue.back == checked
      ensures Ahead(old(Now()), Now())
      ensures if old(LooksAgain()) then |old(contextQueue.items)| <= checked else checked == old(checked)
    {
      hide Shared, Conserved, Ahead, NamesWritten, RingQueue.Valid, Pending;
      ghost var start := Now();
      Interleave(0);
      AheadFacts(start, Now());
      ghost var entered := runThread || stillBusy;
      while runThread || stillBusy
        invariant Valid() && NamesWritten() && writeBufferUsed < WRITE_BUFFER_THRESHOLD
        invariant Ahead(start, Now()) && |start.events| <= |contextQueue.items|
        invariant !stillBusy ==> contextQueue.back == checked
        invariant entered ==> |start.events| <= checked || runThread || stillBusy
        invariant !entered ==> !runThread && !stillBusy && checked == old(checked)
        decreases Left(), Pending(), if stillBusy then 1 else 0
      {
        ghost var before := Now();
        NoMoreRuns();
        DrainOnce();
        AheadFacts(before, Now());
        AheadTwice(start, before, Now());
      }
    }

    /** The final flush. */
    method FinishFile()
      requires Valid() && NamesWritten()
      modifies this`file, this`writeBufferUsed, stringQueue`back
      modifies this`script, this`finished, this`interned, this`refused, this`runThread
      modifies this`entries, this`offered, this`taken
      modifies stringQueue`front, stringQueue`readfront, stringQueue`items, stringQueue.buffer
      modifies contextQueue`front, contextQueue`readfront, contextQueue`items, contextQueue.buffer
      ensures Valid() && NamesWritten() && writeBufferUsed == 0 && Ahead(old(Now()), Now())
      ensures contextQueue.back <= |contextQueue.items|
      ensures EventsOf(file) == contextQueue.items[..contextQueue.back]
      ensures StringsOf(file) == FileStrings(stringQueue.items)
      ensures !refused ==> EverythingDefined()
    {
      hide Shared, Ahead, NamesWritten, RingQueue.Valid, EverythingDefined, EventsOf, StringsOf, FileStrings;
      ghost var before := Now();
      QueuesValid();
      NamesKnown();
      ghost var announced := stringQueue.back;
      Flush();
      AheadFacts(before, Now());
      QueuesValid();
      NamesStillWritten(before, announced);
      NamesDefined();
      assert stringQueue.items[..stringQueue.back] == stringQueue.items;
    }

    /** What was announced when the flush began is in the file when it has ended. */
    lemma NamesStillWritten(before: Snapshot, announced: nat)
      requires contextQueue.back <= |before.events| && announced == before.stringsTaken <= |before.strings|
      requires Ahead(before, Now()) && stringQueue.back == |stringQueue.items|
      requires !before.refused ==> forall i :: 0 <= i < contextQueue.back ==>
        before.events[i].eventNameRef < announced
      ensures NamesWritten()
    {
      NamesCarried(before, Now(), contextQueue.back, announced);
    }

    /**
      The thread's main loop.  It ends for every script, and then the buffer is empty and the file holds
      exactly the events whose tickets had been claimed when the last emptiness check looked, and every
      string record up to the final flush.  All events accepted before the call are among them if and only if
      the thread looks again or had drained them already; and that is all events there are when no more are
      offered.  Every event's name is defined in the file unless the program has as many names as the string
      queue has slots.
    */
    method DrainLoop()
      requires Valid() && NamesWritten() && writeBufferUsed < WRITE_BUFFER_THRESHOLD
      requires !stillBusy ==> contextQueue.back == checked
      modifies this`file, this`writeBufferUsed, this`stillBusy, this`checked, writeBuffer
      modifies stringQueue`back, contextQueue`back
      modifies this`script, this`finished, this`interned, this`refused, this`runThread
      modifies this`entries, this`offered, this`taken
      modifies stringQueue`front, stringQueue`readfront, stringQueue`items, stringQueue.buffer
      modifies contextQueue`front, contextQueue`readfront, contextQueue`items, contextQueue.buffer
      ensures Valid() && NamesWritten() && writeBufferUsed == 0 && !runThread
      ensures Ahead(old(Now()), Now())
      ensures checked <= |contextQueue.items| && EventsOf(file) == contextQueue.items[..checked]
      ensures if old(LooksAgain()) then |old(contextQueue.items)| <= checked else checked == old(contextQueue.back)
      ensures old(contextQueue.items) <= EventsOf(file) <==>
        old(LooksAgain()) || old(contextQueue.back == contextQueue.front)
      ensures offered == old(offered) ==>
        (EventsOf(file) == contextQueue.items <==> old(LooksAgain()) || old(contextQueue.back == contextQueue.front))
      ensures StringsOf(file) == FileStrings(stringQueue.items)
      ensures !refused ==> EverythingDefined()
      ensures |old(Vocabulary())| < MAX_STRING_QUEUE ==> !refused
    {
      hide Ahead, NamesWritten, Conserved, RingQueue.Valid, Pending, EverythingDefined;
      hide EventsOf, StringsOf, FileStrings;
      ghost var start := Now();
      QueuesValid();
      DrainUntilIdle();
      ghost var next := Now();
      FinishFile();
      AheadFacts(start, next);
      AheadFacts(next, Now());
      AheadTwice(start, next, Now());
      QueuesValid();
      FewNamesStay(start);
      NoMoreOffers(start);
      CompleteExactly(start.events, contextQueue.items, old(contextQueue.back), checked, old(LooksAgain()));
    }

    /** When nothing more was offered, nothing more was accepted. */
    twostate lemma NoMoreOffers(start: Snapshot)
      requires old(Taken()) && Taken() && start == old(Now()) && Ahead(start, Now())
      ensures offered == old(offered) ==> contextQueue.items == old(contextQueue.items)
    {
      hide Kept;
      assert start.events <= contextQueue.items && start.taken <= taken;
      if offered == old(offered) {
        assert taken == start.taken;
        assert entries == old(entries);
      }
    }

    lemma FewNamesStay(start: Snapshot)
      requires Shared() && Ahead(start, Now())
      ensures |Words(start.interned, start.script)| < MAX_STRING_QUEUE ==> !refused
    {
      Subset(Vocabulary(), Words(start.interned, start.script));
      if |Words(start.interned, start.script)| < MAX_STRING_QUEUE {
        FewNames();
      }
    }
  }

  /** A session of one event, up to the request of its shutdown; the drain thread has not got to run yet. */
  method OneEventSession(name: CString, event: ProfileEvent) returns (w: RawEventWriter, accepted: bool)
    ensures accepted && fresh(w) && fresh(w.writeBuffer)
    ensures fresh(w.contextQueue) && fresh(w.contextQueue.buffer) && fresh(w.stringQueue) && fresh(w.stringQueue.buffer)
    ensures w.Valid() && w.NamesWritten() && w.writeBufferUsed == 0 && !w.stillBusy && !w.LooksAgain()
    ensures w.contextQueue.back == w.checked == 0
  {
    hide RawEventWriter.Taken, RawEventWriter.Named, RawEventWriter.Objects, RawEventWriter.Conserved;
    w := new RawEventWriter();
    w.StartDrainThread();
    accepted := w.AcceptEvent(name, event);
    w.RequestShutdown();
  }

  /**
    The shutdown promise fails: an event accepted before shutdown is requested never reaches the file when
    the drain thread gets to look at its flags only afterwards.  (With a script, the same happens to any
    event enqueued between the thread's last emptiness check and the shutdown request.)
  */
  method ShutdownLosesAnEvent(name: CString, event: ProfileEvent) returns (accepted: bool, file: seq<Record>)
    ensures accepted && EventsOf(file) == []
  {
    hide RawEventWriter.Valid, RawEventWriter.NamesWritten, RawEventWriter.LooksAgain, Ahead;
    hide RawEventWriter.EverythingDefined, RawEventWriter.Now;
    var w;
    w, accepted := OneEventSession(name, event);
    w.DrainLoop();
    file := w.file;
  }
}
