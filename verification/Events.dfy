/** The record layouts of src/Event.h and the sizes of src/ESPConfig.h. */
module Events {
  import opened Common

  const EV_PROBE_UINT: nat := 1
  const EV_PROBE_FLOAT: nat := 2
  const EV_PROBE_INT: nat := 3
  const EV_ZONE_INTERVAL: nat := 1000
  const EV_NEW_STRING: nat := 0xffff_ffff

  const U32: nat := 0x1_0000_0000

  const MAX_EVENT_BUFFER: nat := 512 * 1024
  const MAX_STRING_QUEUE: nat := 4096
  const STRING_TABLE_SIZE: nat := 16384
  const WRITE_BUFFER_SIZE: nat := 16 * 1024
  const WRITE_BUFFER_THRESHOLD: nat := WRITE_BUFFER_SIZE - 2048

  /** A ProfileEvent: header and data, the 32-bit value as a word. */
  datatype ProfileEvent = ProfileEvent(
    eventType: nat,
    id: nat,
    threadID: nat,
    parentEventRef: nat,
    frameNumber: nat,
    timestamp: int,
    eventNameRef: nat,
    value: nat)

  /** A NUL-terminated string in stable storage; its address is its identity. */
  datatype CString = CString(address: nat, text: seq<Byte>)

  datatype RuntimeStringReference = RuntimeStringReference(id: nat, ptr: CString)

  /** One record of the raw stream file. */
  datatype Record =
    | EventRecord(event: ProfileEvent)
    | StringRecord(id: nat, text: seq<Byte>)

  function EventsOf(file: seq<Record>): seq<ProfileEvent> {
    if file == [] then []
    else
      EventsOf(file[..|file| - 1])
      + (match file[|file| - 1] case EventRecord(e) => [e] case StringRecord(_, _) => [])
  }

  function StringsOf(file: seq<Record>): seq<(nat, seq<Byte>)> {
    if file == [] then []
    else
      StringsOf(file[..|file| - 1])
      + (match file[|file| - 1] case EventRecord(_) => [] case StringRecord(id, text) => [(id, text)])
  }

  lemma {:induction false} EventsOfConcat(a: seq<Record>, b: seq<Record>)
    ensures EventsOf(a + b) == EventsOf(a) + EventsOf(b)
  {
    if b == [] {
      assert a + b == a;
    } else {
      EventsOfConcat(a, b[..|b| - 1]);
      assert (a + b)[..|a + b| - 1] == a + b[..|b| - 1];
    }
  }

  lemma {:induction false} StringsOfConcat(a: seq<Record>, b: seq<Record>)
    ensures StringsOf(a + b) == StringsOf(a) + StringsOf(b)
  {
    if b == [] {
      assert a + b == a;
    } else {
      StringsOfConcat(a, b[..|b| - 1]);
      assert (a + b)[..|a + b| - 1] == a + b[..|b| - 1];
    }
  }

  /** A block of events as file records. */
  function EventRecords(events: seq<ProfileEvent>): (records: seq<Record>)
    ensures |records| == |events|
  {
    seq(|events|, i requires 0 <= i < |events| => EventRecord(events[i]))
  }

  lemma {:induction false} EventRecordsOnly(events: seq<ProfileEvent>)
    ensures EventsOf(EventRecords(events)) == events && StringsOf(EventRecords(events)) == []
  {
    if events != [] {
      var k := |events| - 1;
      EventRecordsOnly(events[..k]);
      assert EventRecords(events)[..k] == EventRecords(events[..k]);
      assert events == events[..k] + [events[k]];
    }
  }
}
