/**
  The raw stream file as bytes: what RawEventWriter writes (src/EventStreamIO.cpp, with the layouts of
  src/Event.h on a little-endian 64-bit machine) and what the uplift tool reads back (src/uplift/uplift.cpp).

  An event is 8 bytes of header and 32 of data, four of them padding with arbitrary contents.  A string is
  the header, a 32-bit length and that many bytes.
*/
module StreamCodec {
  import opened Common
  import opened Events

  const U64: int := 0x1_0000_0000_0000_0000
  const I63: int := 0x8000_0000_0000_0000

  const HEADER_SIZE: nat := 8
  const EVENT_SIZE: nat := 40
  const STRING_HEADER_SIZE: nat := 12
  const STRING_BUFFER_SIZE: nat := 4096

  // ----- Words -----

  function Word(x: nat): (bytes: seq<Byte>)
    requires x < U32
    ensures |bytes| == 4
  {
    [x % 256, x / 256 % 256, x / 65536 % 256, x / 16777216]
  }

  function Unword(bytes: seq<Byte>): (x: nat)
    requires |bytes| == 4
    ensures x < U32
  {
    var b0: int, b1: int, b2: int, b3: int := bytes[0], bytes[1], bytes[2], bytes[3];
    b0 + 256 * b1 + 65536 * b2 + 16777216 * b3
  }

  lemma WordRoundTrip(x: nat)
    requires x < U32
    ensures Unword(Word(x)) == x
  {
    assert x == x % 256 + 256 * (x / 256);
    assert x / 256 == x / 256 % 256 + 256 * (x / 65536);
    assert x / 65536 == x / 65536 % 256 + 256 * (x / 16777216);
  }

  /** A signed 64-bit number in two's complement, low word first. */
  function Long(t: int): (bytes: seq<Byte>)
    requires -I63 <= t < I63
    ensures |bytes| == 8
  {
    var u: nat := t % U64;
    assert u / U32 < U32;
    Word(u % U32) + Word(u / U32)
  }

  function Unlong(bytes: seq<Byte>): int
    requires |bytes| == 8
  {
    var u := Unword(bytes[..4]) + U32 * Unword(bytes[4..]);
    if u < I63 then u else u - U64
  }

  lemma LongRoundTrip(t: int)
    requires -I63 <= t < I63
    ensures Unlong(Long(t)) == t
  {
    var u: nat := t % U64;
    assert u == if t >= 0 then t else t + U64;
    WordRoundTrip(u % U32);
    WordRoundTrip(u / U32);
    assert Long(t)[..4] == Word(u % U32) && Long(t)[4..] == Word(u / U32);
  }

  // ----- Writing -----

  /** The records a run of the library can put in the file. */
  ghost predicate Encodable(r: Record) {
    match r
    case EventRecord(e) =>
      && e.eventType < U32 && e.eventType != EV_NEW_STRING && e.id < U32 && e.threadID < U32
      && e.parentEventRef < U32 && e.frameNumber < U32 && -I63 <= e.timestamp < I63
      && e.eventNameRef < U32 && e.value < U32
    case StringRecord(id, text) =>
      id < U32 && |text| < STRING_BUFFER_SIZE && 0 !in text
  }

  /** A record's bytes; `padding` is what happens to lie in the padding of an event. */
  function Encode(r: Record, padding: seq<Byte>): (bytes: seq<Byte>)
    requires Encodable(r) && |padding| == 4
    ensures |bytes| == if r.EventRecord? then EVENT_SIZE else STRING_HEADER_SIZE + |r.text|
  {
    match r
    case EventRecord(e) =>
      Word(e.eventType) + Word(e.id) + Word(e.threadID) + Word(e.parentEventRef) + Word(e.frameNumber)
      + padding + Long(e.timestamp) + Word(e.eventNameRef) + Word(e.value)
    case StringRecord(id, text) =>
      Word(EV_NEW_STRING) + Word(id) + Word(|text|) + text
  }

  /** A 32-bit little-endian number at a byte offset. */
  ghost predicate WordAt(bytes: seq<Byte>, offset: nat, x: int) {
    && offset + 4 <= |bytes|
    && var b0: int, b1: int := bytes[offset], bytes[offset + 1];
       var b2: int, b3: int := bytes[offset + 2], bytes[offset + 3];
       x == b0 + 0x100 * b1 + 0x1_0000 * b2 + 0x100_0000 * b3
  }

  lemma WordBytes(x: nat, bytes: seq<Byte>, offset: nat)
    requires x < U32 && offset + 4 <= |bytes| && bytes[offset..offset + 4] == Word(x)
    ensures WordAt(bytes, offset, x)
  {
    hide Word;
    WordRoundTrip(x);
    var four := bytes[offset..offset + 4];
    assert four[0] == bytes[offset] && four[1] == bytes[offset + 1];
    assert four[2] == bytes[offset + 2] && four[3] == bytes[offset + 3];
  }

  /** Where the fields of an event lie, as a C compiler lays the structures out: the timestamp is 8-byte aligned. */
  lemma EventLayout(e: ProfileEvent, padding: seq<Byte>)
    requires Encodable(EventRecord(e)) && |padding| == 4
    ensures var bytes := Encode(EventRecord(e), padding);
      && |bytes| == 40
      && WordAt(bytes, 0, e.eventType) && WordAt(bytes, 4, e.id)
      && WordAt(bytes, 8, e.threadID) && WordAt(bytes, 12, e.parentEventRef) && WordAt(bytes, 16, e.frameNumber)
      && bytes[20..24] == padding
      && WordAt(bytes, 24, e.timestamp % U64 % U32) && WordAt(bytes, 28, e.timestamp % U64 / U32)
      && WordAt(bytes, 32, e.eventNameRef) && WordAt(bytes, 36, e.value)
  {
    hide Word, WordAt;
    var bytes := Encode(EventRecord(e), padding);
    assert e.timestamp % U64 / U32 < U32;
    WordBytes(e.eventType, bytes, 0);
    WordBytes(e.id, bytes, 4);
    WordBytes(e.threadID, bytes, 8);
    WordBytes(e.parentEventRef, bytes, 12);
    WordBytes(e.frameNumber, bytes, 16);
    WordBytes(e.timestamp % U64 % U32, bytes, 24);
    WordBytes(e.timestamp % U64 / U32, bytes, 28);
    WordBytes(e.eventNameRef, bytes, 32);
    WordBytes(e.value, bytes, 36);
  }

  /** A string record: the tag 0xffffffff, the identifier, the length and the text. */
  lemma StringLayout(id: nat, text: seq<Byte>, padding: seq<Byte>)
    requires Encodable(StringRecord(id, text)) && |padding| == 4
    ensures var bytes := Encode(StringRecord(id, text), padding);
      WordAt(bytes, 0, 0xffff_ffff) && WordAt(bytes, 4, id) && WordAt(bytes, 8, |text|) && bytes[12..] == text
  {
    hide Word, WordAt;
    var bytes := Encode(StringRecord(id, text), padding);
    WordBytes(EV_NEW_STRING, bytes, 0);
    WordBytes(id, bytes, 4);
    WordBytes(|text|, bytes, 8);
  }

  ghost predicate AllEncodable(records: seq<Record>, paddings: seq<seq<Byte>>) {
    && |paddings| == |records|
    && forall i :: 0 <= i < |records| ==> Encodable(records[i]) && |paddings[i]| == 4
  }

  function EncodeAll(records: seq<Record>, paddings: seq<seq<Byte>>): (bytes: seq<Byte>)
    requires AllEncodable(records, paddings)
  {
    if records == [] then [] else Encode(records[0], paddings[0]) + EncodeAll(records[1..], paddings[1..])
  }

  // ----- Reading -----

  datatype ReadResult = Stop | Got(record: Record, length: nat)

  function DecodeEvent(s: seq<Byte>): ProfileEvent
    requires |s| >= EVENT_SIZE
  {
    ProfileEvent(Unword(s[0..4]), Unword(s[4..8]), Unword(s[8..12]), Unword(s[12..16]), Unword(s[16..20]),
                 Unlong(s[24..32]), Unword(s[32..36]), Unword(s[36..40]))
  }

  /** One call of ReadRecord on the rest of the file. */
  function ReadOne(s: seq<Byte>): (r: ReadResult)
    ensures r.Got? ==> HEADER_SIZE < r.length <= |s|
  {
    if |s| < HEADER_SIZE then Stop
    else if Unword(s[0..4]) == EV_NEW_STRING then
      if |s| < STRING_HEADER_SIZE then Stop
      else
        var length := Unword(s[8..12]);
        var read := if length > |s| - STRING_HEADER_SIZE then |s| - STRING_HEADER_SIZE else length;
        Got(StringRecord(Unword(s[4..8]), UpToNul(s[STRING_HEADER_SIZE..STRING_HEADER_SIZE + read])),
            STRING_HEADER_SIZE + read)
    else
      if |s| < EVENT_SIZE then Stop else Got(EventRecord(DecodeEvent(s)), EVENT_SIZE)
  }

  function ReadAll(s: seq<Byte>): seq<Record>
    decreases |s|
  {
    match ReadOne(s)
    case Stop => []
    case Got(record, length) => [record] + ReadAll(s[length..])
  }

  // ----- Round trip -----

  lemma ReadEncodedEvent(r: Record, padding: seq<Byte>, rest: seq<Byte>)
    requires Encodable(r) && |padding| == 4 && r.EventRecord?
    ensures ReadOne(Encode(r, padding) + rest) == Got(r, EVENT_SIZE)
  {
    var e := r.event;
    var s := Encode(r, padding) + rest;
    assert s[0..4] == Word(e.eventType);
    assert s[4..8] == Word(e.id);
    assert s[8..12] == Word(e.threadID);
    assert s[12..16] == Word(e.parentEventRef);
    assert s[16..20] == Word(e.frameNumber);
    assert s[24..32] == Long(e.timestamp);
    assert s[32..36] == Word(e.eventNameRef);
    assert s[36..40] == Word(e.value);
    WordRoundTrip(e.eventType);
    WordRoundTrip(e.id);
    WordRoundTrip(e.threadID);
    WordRoundTrip(e.parentEventRef);
    WordRoundTrip(e.frameNumber);
    LongRoundTrip(e.timestamp);
    WordRoundTrip(e.eventNameRef);
    WordRoundTrip(e.value);
  }

  /** A string record cut off after `kept` bytes of its text, or followed by anything. */
  lemma ReadEncodedString(r: Record, padding: seq<Byte>, kept: nat, rest: seq<Byte>)
    requires Encodable(r) && |padding| == 4 && r.StringRecord? && kept <= |r.text|
    requires kept < |r.text| ==> rest == []
    ensures ReadOne(Encode(r, padding)[..STRING_HEADER_SIZE + kept] + rest)
         == Got(StringRecord(r.id, r.text[..kept]), STRING_HEADER_SIZE + kept)
  {
    hide Word, Unword;
    var e := Encode(r, padding);
    assert e == Word(EV_NEW_STRING) + Word(r.id) + Word(|r.text|) + r.text;
    StringParts(Word(EV_NEW_STRING), Word(r.id), Word(|r.text|), r.text, kept, rest);
    WordRoundTrip(EV_NEW_STRING);
    WordRoundTrip(r.id);
    WordRoundTrip(|r.text|);
  }

  lemma StringParts(tag: seq<Byte>, id: seq<Byte>, length: seq<Byte>, text: seq<Byte>, kept: nat, rest: seq<Byte>)
    requires |tag| == |id| == |length| == 4 && kept <= |text|
    ensures var s := (tag + id + length + text)[..STRING_HEADER_SIZE + kept] + rest;
      && |s| == STRING_HEADER_SIZE + kept + |rest|
      && s[0..4] == tag && s[4..8] == id && s[8..12] == length && s[12..12 + kept] == text[..kept]
  {
    var s := (tag + id + length + text)[..STRING_HEADER_SIZE + kept] + rest;
    assert s == tag + (id + (length + (text[..kept] + rest)));
  }

  lemma ReadEncoded(r: Record, padding: seq<Byte>, rest: seq<Byte>)
    requires Encodable(r) && |padding| == 4
    ensures ReadOne(Encode(r, padding) + rest) == Got(r, |Encode(r, padding)|)
  {
    if r.EventRecord? {
      ReadEncodedEvent(r, padding, rest);
    } else {
      ReadEncodedString(r, padding, |r.text|, rest);
      assert Encode(r, padding)[..STRING_HEADER_SIZE + |r.text|] == Encode(r, padding);
      assert r.text[..|r.text|] == r.text;
    }
  }

  lemma {:induction false} ReadAllEncoded(records: seq<Record>, paddings: seq<seq<Byte>>, rest: seq<Byte>)
    requires AllEncodable(records, paddings)
    ensures ReadAll(EncodeAll(records, paddings) + rest) == records + ReadAll(rest)
  {
    hide ReadOne, Encode, Encodable;
    if records == [] {
      assert EncodeAll(records, paddings) + rest == rest;
    } else {
      var head, tail := Encode(records[0], paddings[0]), EncodeAll(records[1..], paddings[1..]);
      assert head + tail + rest == head + (tail + rest);
      ReadEncoded(records[0], paddings[0], tail + rest);
      assert (head + (tail + rest))[|head|..] == tail + rest;
      ReadAllEncoded(records[1..], paddings[1..], rest);
    }
  }

  /** Reading back what was written gives exactly the records written, whatever the padding bytes are. */
  lemma RoundTrip(records: seq<Record>, paddings: seq<seq<Byte>>)
    requires AllEncodable(records, paddings)
    ensures ReadAll(EncodeAll(records, paddings)) == records
  {
    ReadAllEncoded(records, paddings, []);
    assert EncodeAll(records, paddings) + [] == EncodeAll(records, paddings);
  }

  /** The two-length format is self-delimiting: no bytes are two different record sequences. */
  lemma FormatIsUnambiguous(a: seq<Record>, pa: seq<seq<Byte>>, b: seq<Record>, pb: seq<seq<Byte>>)
    requires AllEncodable(a, pa) && AllEncodable(b, pb) && EncodeAll(a, pa) == EncodeAll(b, pb)
    ensures a == b
  {
    RoundTrip(a, pa);
    RoundTrip(b, pb);
  }

  // ----- Truncation -----

  /** What reading a proper prefix of one record's bytes yields: for a string its text so far, otherwise nothing. */
  lemma ReadCutRecord(r: Record, padding: seq<Byte>, k: nat)
    requires Encodable(r) && |padding| == 4 && k < |Encode(r, padding)|
    ensures ReadAll(Encode(r, padding)[..k]) ==
      if r.StringRecord? && k >= STRING_HEADER_SIZE then [StringRecord(r.id, r.text[..k - STRING_HEADER_SIZE])] else []
  {
    var s := Encode(r, padding)[..k];
    if r.StringRecord? && k >= STRING_HEADER_SIZE {
      ReadEncodedString(r, padding, k - STRING_HEADER_SIZE, []);
      assert s + [] == s && s[k..] == [];
      assert ReadAll([]) == [];
    } else if k >= HEADER_SIZE {
      var tag := if r.EventRecord? then r.event.eventType else EV_NEW_STRING;
      assert s[0..4] == Word(tag);
      WordRoundTrip(tag);
    }
  }

  /**
    Reading a stream cut off after k bytes yields its first m records, where m is how many fit in k bytes;
    if the cut falls in the text of a string record, that record follows with its text cut short; and then
    the reader stops.
  */
  lemma {:induction false} TruncatedStream(records: seq<Record>, paddings: seq<seq<Byte>>, k: nat) returns (m: nat)
    requires AllEncodable(records, paddings) && k <= |EncodeAll(records, paddings)|
    ensures m <= |records|
    ensures var whole := |EncodeAll(records[..m], paddings[..m])|;
      && whole <= k
      && (m < |records| ==> k < whole + |Encode(records[m], paddings[m])|)
      && ReadAll(EncodeAll(records, paddings)[..k]) == records[..m]
           + (if m < |records| && records[m].StringRecord? && k - whole >= STRING_HEADER_SIZE
              then [StringRecord(records[m].id, records[m].text[..k - whole - STRING_HEADER_SIZE])] else [])
  {
    hide ReadOne, Encode, Encodable;
    if records == [] {
      m := 0;
      assert EncodeAll(records, paddings)[..k] == [];
      NothingToRead();
    } else {
      var head, tail := Encode(records[0], paddings[0]), EncodeAll(records[1..], paddings[1..]);
      if k < |head| {
        m := 0;
        assert (head + tail)[..k] == head[..k];
        ReadCutRecord(records[0], paddings[0], k);
      } else {
        var n := TruncatedStream(records[1..], paddings[1..], k - |head|);
        m := n + 1;
        assert (head + tail)[..k] == head + tail[..k - |head|];
        ReadEncoded(records[0], paddings[0], tail[..k - |head|]);
        assert (head + tail[..k - |head|])[|head|..] == tail[..k - |head|];
        FirstAndRest(records, paddings, n);
      }
    }
  }

  lemma FirstAndRest(records: seq<Record>, paddings: seq<seq<Byte>>, n: nat)
    requires AllEncodable(records, paddings) && n < |records|
    ensures records[..n + 1] == [records[0]] + records[1..][..n]
    ensures |EncodeAll(records[..n + 1], paddings[..n + 1])| ==
            |Encode(records[0], paddings[0])| + |EncodeAll(records[1..][..n], paddings[1..][..n])|
  {
    hide Encode, Encodable;
    assert records[..n + 1][1..] == records[1..][..n] && paddings[..n + 1][1..] == paddings[1..][..n];
  }

  lemma NothingToRead()
    ensures ReadAll([]) == []
  {
  }

  // ----- The uplift tool -----

  /** What the 4096-byte string buffer of the reader asks of a file: no longer string, and its NUL fits. */
  ghost predicate FitsBuffer(s: seq<Byte>) {
    var r := ReadOne(s);
    r.Got? && r.record.StringRecord? ==> r.length - STRING_HEADER_SIZE < STRING_BUFFER_SIZE
  }

  ghost predicate AllFit(s: seq<Byte>)
    decreases |s|
  {
    FitsBuffer(s) && (ReadOne(s).Got? ==> AllFit(s[ReadOne(s).length..]))
  }

  class InFile {
    const bytes: seq<Byte>
    var pos: nat

    ghost predicate Valid()
      reads this
    {
      pos <= |bytes|
    }

    function Rest(): seq<Byte>
      requires Valid()
      reads this
    {
      bytes[pos..]
    }

    constructor (bytes: seq<Byte>)
      ensures Valid() && Rest() == bytes
    {
      this.bytes := bytes;
      pos := 0;
    }

    /** fread of one item of `size` bytes: all of it, or the file is exhausted. */
    method ReadItem(size: nat) returns (ok: bool, item: seq<Byte>)
      requires Valid()
      modifies this
      ensures Valid()
      ensures ok <==> size <= |old(Rest())|
      ensures if ok then item == old(Rest())[..size] && Rest() == old(Rest())[size..] else Rest() == []
    {
      ok := size <= |bytes| - pos;
      if ok {
        item := bytes[pos..pos + size];
        pos := pos + size;
      } else {
        item := [];
        pos := |bytes|;
      }
    }

    /** fread of up to n single bytes into a buffer. */
    method ReadBytes(buffer: array<Byte>, n: nat) returns (read: nat)
      requires Valid() && (if n < |Rest()| then n else |Rest()|) <= buffer.Length
      modifies this, buffer
      ensures Valid()
      ensures read == if n < |old(Rest())| then n else |old(Rest())|
      ensures buffer[..read] == old(Rest())[..read] && Rest() == old(Rest())[read..]
    {
      read := 0;
      while read < n && pos < |bytes|
        invariant Valid() && read <= n && read <= buffer.Length && pos == old(pos) + read
        invariant buffer[..read] == old(Rest())[..read]
      {
        buffer[read] := bytes[pos];
        read, pos := read + 1, pos + 1;
      }
    }
  }

  /** The session database, as the sequence of records handed to it. */
  class SessionFileStore {
    var records: seq<Record>

    constructor ()
      ensures records == []
    {
      records := [];
    }

    method WriteString(id: nat, buffer: array<Byte>, ghost read: nat)
      requires read < buffer.Length && buffer[read] == 0
      modifies this
      ensures records == old(records) + [StringRecord(id, UpToNul(buffer[..read]))]
    {
      var length := 0;
      while buffer[length] != 0
        invariant length <= read
        invariant 0 !in buffer[..length]
        decreases read - length
      {
        length := length + 1;
      }
      UpToFirstNul(buffer[..read], length);
      assert buffer[..read][..length] == buffer[..length];
      records := records + [StringRecord(id, buffer[..length])];
    }

    method WriteEvent(event: ProfileEvent)
      modifies this
      ensures records == old(records) + [EventRecord(event)]
    {
      records := records + [EventRecord(event)];
    }
  }

  lemma {:induction false} UpToFirstNul(bytes: seq<Byte>, length: nat)
    requires length <= |bytes| && 0 !in bytes[..length] && (length < |bytes| ==> bytes[length] == 0)
    ensures UpToNul(bytes) == bytes[..length]
  {
    if length > 0 {
      assert bytes[0] == bytes[..length][0];
      assert bytes[1..][..length - 1] == bytes[..length][1..];
      UpToFirstNul(bytes[1..], length - 1);
    }
  }

  /** The bytes that follow a string record's header: as many as it announces, if the file has them. */
  function TextLength(s: seq<Byte>): (n: nat)
    requires |s| >= STRING_HEADER_SIZE
    ensures STRING_HEADER_SIZE + n <= |s|
  {
    if Unword(s[8..12]) < |s| - STRING_HEADER_SIZE then Unword(s[8..12]) else |s| - STRING_HEADER_SIZE
  }

  /** What is read of a string record whose first eight bytes are there. */
  lemma ReadOneString(s: seq<Byte>, read: nat)
    requires HEADER_SIZE <= |s| && FitsBuffer(s) && Unword(s[0..4]) == EV_NEW_STRING
    ensures |s| < STRING_HEADER_SIZE ==> ReadOne(s).Stop?
    ensures |s| >= STRING_HEADER_SIZE ==> TextLength(s) < STRING_BUFFER_SIZE
    ensures |s| >= STRING_HEADER_SIZE && read == TextLength(s) ==>
      ReadOne(s) == Got(StringRecord(Unword(s[4..8]), UpToNul(s[STRING_HEADER_SIZE..STRING_HEADER_SIZE + read])),
                        STRING_HEADER_SIZE + read)
  {
  }

  /** The EV_NEW_STRING case of ReadRecord; the header has been read. */
  method ReadStringRecord(file: InFile, store: SessionFileStore, header: seq<Byte>, ghost s: seq<Byte>)
      returns (more: bool)
    requires |header| == HEADER_SIZE <= |s| && header == s[..8] && FitsBuffer(s) && Unword(s[0..4]) == EV_NEW_STRING
    requires file.Valid() && file.Rest() == s[8..]
    modifies file, store
    ensures file.Valid() && (more <==> ReadOne(s).Got?)
    ensures ReadOne(s).Stop? ==> store.records == old(store.records)
    ensures ReadOne(s).Got? ==>
      store.records == old(store.records) + [ReadOne(s).record] && file.Rest() == s[ReadOne(s).length..]
  {
    hide ReadOne, UpToNul, Unword;
    var ok, length := file.ReadItem(4);
    if !ok {
      ReadOneString(s, 0);
      return false;
    }
    assert length == s[8..12] && file.Rest() == s[STRING_HEADER_SIZE..];
    assert header[4..8] == s[4..8];
    ReadOneString(s, 0);
    ghost var file0 := file.Rest();
    var stringBuffer := new Byte[STRING_BUFFER_SIZE];
    var read := file.ReadBytes(stringBuffer, Unword(length));
    stringBuffer[read] := 0;
    ReadOneString(s, read);
    assert stringBuffer[..read] == file0[..read] == s[STRING_HEADER_SIZE..STRING_HEADER_SIZE + read];
    store.WriteString(Unword(header[4..8]), stringBuffer, read);
    return true;
  }

  method ReadRecord(file: InFile, store: SessionFileStore) returns (more: bool)
    requires file.Valid() && FitsBuffer(file.Rest())
    modifies file, store
    ensures file.Valid()
    ensures more <==> ReadOne(old(file.Rest())).Got?
    ensures var r := ReadOne(old(file.Rest()));
      && (r.Stop? ==> store.records == old(store.records))
      && (r.Got? ==> store.records == old(store.records) + [r.record] && file.Rest() == old(file.Rest())[r.length..])
  {
    ghost var s := file.Rest();
    var ok, header := file.ReadItem(HEADER_SIZE);
    if !ok {
      return false;
    }
    assert header[0..4] == s[0..4];
    if Unword(header[0..4]) == EV_NEW_STRING {
      more := ReadStringRecord(file, store, header, s);
      return;
    }
    var data;
    ok, data := file.ReadItem(EVENT_SIZE - HEADER_SIZE);
    if !ok {
      return false;
    }
    DataOfEvent(s, header, data);
    store.WriteEvent(DecodeEvent(header + data));
    return true;
  }

  lemma DataOfEvent(s: seq<Byte>, header: seq<Byte>, data: seq<Byte>)
    requires EVENT_SIZE <= |s| && header == s[..8] && data == s[8..][..32]
    ensures |header + data| == EVENT_SIZE && DecodeEvent(header + data) == DecodeEvent(s)
  {
    var t := header + data;
    assert t == s[..EVENT_SIZE];
    assert t[0..4] == s[0..4] && t[4..8] == s[4..8] && t[8..12] == s[8..12] && t[12..16] == s[12..16];
    assert t[16..20] == s[16..20] && t[24..32] == s[24..32] && t[32..36] == s[32..36] && t[36..40] == s[36..40];
  }

  lemma ReadAllStep(s: seq<Byte>)
    requires AllFit(s)
    ensures FitsBuffer(s)
    ensures ReadOne(s).Stop? ==> ReadAll(s) == []
    ensures var r := ReadOne(s); r.Got? ==>
      0 < r.length <= |s| && AllFit(s[r.length..]) && ReadAll(s) == [r.record] + ReadAll(s[r.length..])
  {
  }

  /** The loop of main: everything the file holds, up to the first record that cannot be read. */
  method Uplift(file: InFile, store: SessionFileStore)
    requires file.Valid() && AllFit(file.Rest())
    modifies file, store
    ensures store.records == old(store.records) + ReadAll(old(file.Rest()))
  {
    hide AllFit, FitsBuffer, ReadOne, ReadAll;
    var more := true;
    while more
      invariant file.Valid()
      invariant more ==> AllFit(file.Rest())
      invariant old(store.records) + ReadAll(old(file.Rest()))
             == store.records + (if more then ReadAll(file.Rest()) else [])
      decreases more, |file.Rest()|
    {
      ReadAllStep(file.Rest());
      more := ReadRecord(file, store);
    }
  }

  lemma CutRecordFits(r: Record, padding: seq<Byte>, k: nat)
    requires Encodable(r) && |padding| == 4 && k < |Encode(r, padding)|
    ensures AllFit(Encode(r, padding)[..k])
  {
    var s := Encode(r, padding)[..k];
    if r.StringRecord? && k >= STRING_HEADER_SIZE {
      ReadEncodedString(r, padding, k - STRING_HEADER_SIZE, []);
      assert s + [] == s && s[k..] == [];
      assert AllFit([]);
    } else if k >= HEADER_SIZE {
      var tag := if r.EventRecord? then r.event.eventType else EV_NEW_STRING;
      assert s[0..4] == Word(tag);
      WordRoundTrip(tag);
    }
  }

  /** Every prefix of what the library writes suits the reader's buffer. */
  lemma {:induction false} EncodedFits(records: seq<Record>, paddings: seq<seq<Byte>>, k: nat)
    requires AllEncodable(records, paddings) && k <= |EncodeAll(records, paddings)|
    ensures AllFit(EncodeAll(records, paddings)[..k])
  {
    hide ReadOne, Encode;
    if records == [] {
      assert EncodeAll(records, paddings)[..k] == [];
      EmptyFits();
    } else {
      var head, tail := Encode(records[0], paddings[0]), EncodeAll(records[1..], paddings[1..]);
      if k < |head| {
        assert (head + tail)[..k] == head[..k];
        CutRecordFits(records[0], paddings[0], k);
      } else {
        var rest := tail[..k - |head|];
        assert (head + tail)[..k] == head + rest && (head + rest)[|head|..] == rest;
        ReadEncoded(records[0], paddings[0], rest);
        EncodedFits(records[1..], paddings[1..], k - |head|);
      }
    }
  }

  lemma EmptyFits()
    ensures AllFit([])
  {
  }

  /** A session written by the library and uplifted whole arrives whole. */
  method UpliftSession(ghost records: seq<Record>, ghost paddings: seq<seq<Byte>>, bytes: seq<Byte>)
      returns (uplifted: seq<Record>)
    requires AllEncodable(records, paddings) && bytes == EncodeAll(records, paddings)
    ensures uplifted == records
  {
    var file := new InFile(bytes);
    var store := new SessionFileStore();
    assert bytes[..|bytes|] == bytes;
    EncodedFits(records, paddings, |bytes|);
    RoundTrip(records, paddings);
    Uplift(file, store);
    uplifted := store.records;
  }
}
