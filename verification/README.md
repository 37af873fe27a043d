# The core of libesp, verified

This project models the profiling pipeline of libesp and two pieces of code that its repository carries along,
and proves what each promises. `dafny verify dfyconfig.toml` checks all of it.

## What is modelled

**The ring queue** (`src/queue/lockless_ring.h`). `RingMachine` splits every operation at its atomic accesses and
interleaves any number of producers with one consumer, sequentially consistently. Index facts hold for all
interleavings. `readfront` counts publications without marking slots, so payload facts need the publication order;
`RingFifo` proves them under a condition on publications and proves that condition exact. `RingCalls` follows
single calls through any run: how they can end, and that a lost swap loses no value. `RingReads` says when the
condition holds in terms of what producers do, and that what the consumer takes is right exactly if the slots it
reads have been written, in whatever order they were published. `RingRuns` shows which runs are ordered, when a
report of "full" can be believed, and two short runs in which the ring surprises its callers. `RingQueue` is the
same ring as an object, used by the modules below; as in the source, the fullness test is a remainder test, and a
ring of capacity n holds n - 1 items.

**The drain thread** (`src/EventStreamIO.cpp`, `src/Comms.cpp`). `DrainThread.RawEventWriter` runs the real loops.
At each point where the thread touches shared state, the next batch of a script of other threads' actions happens:
interning a name, enqueuing an event up to its slot write, publishing, requesting shutdown. The theorems hold for
every script, so for every schedule; when a script runs out, the producers finish and shutdown is requested. How
many events fwrite accepts at a time is arbitrary, but at least one. The library's README.md (lines 150-151) says
that esp_shutdown flushes all pending events. The code does not do that: `stillBusy` reflects an emptiness check
that may lie before an event was enqueued, and starts out false. `DrainLoop` states exactly which events are
written, and when that is all events accepted before the call: if and only if the thread is still to look at its
queues (its flags, after the other threads' next actions, let it enter the loop) or they were drained already.
`ShutdownLosesAnEvent` is a run that loses one. A name can only be refused once 4096 names have been interned; with
fewer, `DrainLoop` proves every name defined outright.

**Zones** (`src/Context.cpp`, `src/stack/slabstack.h`). A thread executes a forest of zones and probes; the log
holds the events in the order they are emitted. `ZoneLog` and `ZoneTree` recover the forest from the flat log,
`ZoneThreads` does so with any number of threads sharing the counter and the log, a call's draw of an identifier
and its enqueue being separate steps, `ZoneIdentifiers` says which event each identifier labels and what the events
carry, `ZoneIntervals` proves the intervals laminar, and `ThreadContexts` ties the methods on the slab to the steps
these theorems are about.

**The stream format** (`src/Event.h`, `src/EventStreamIO.cpp`, `src/uplift/uplift.cpp`). Records are encoded to
little-endian bytes with a 64-bit timestamp at offset 24 after four bytes of padding, and read back by the uplift
tool's loop; a prefix of the file is read as far as it goes.

**The intern table** (`src/map/pointer_hash.h`). `HashInteger` is the hash on 64-bit words. `PointerHash` is the
table used by one thread at a time, which refines a list of distinct pointers. `PointerTable` splits Put and Get at
every atomic access and interleaves any number of threads; the weak compare-and-swap may fail although the slot is
empty. Put then probes on, and if it wins a later slot while the one it passed over is still empty, its pointer
cannot be found. `PointerReach` proves that this is the only way to lose a pointer, and `PointerCalls` what an
answer of Put or Get says about the table, and that neither ever waits. Overlapping Puts of one pointer can both
succeed: the one that loses a swap to its own pointer probes on as well. `PointerAgreement` proves that a pointer
is in the table twice exactly when a Put wins a slot past its own pointer, that everybody is given the same index
otherwise, and has runs for every pointer in which either thing goes wrong.

**The SQLite shell** (`src/sqlite3/shell.c`). `Csv` and `CsvShell` are the CSV printer and the CSV reader (section
2 of RFC 4180, with a separator of one's choice), `CStrings` and `DotCommands` are the C string printer and the
command line splitter and unescaper, which work in place; `CommandLines` has the lines a user may write. A char is
signed, so the reader never recognises a separator above 127. A quote followed by CR LF inside a field ends it
early. `CsvForeign` is about the files of other programs: in lines that end in CR LF, an empty unquoted last field
reads as a carriage return. `CsvImport` is the row loop of the import command, on lines of any number of fields.
Its message about missing columns promises to fill the rest with nulls; the code counts parameters from 1 but
passes the index counted from 0, so the nulls begin at the last field read and the last column keeps the value of
the row before (`FilledExactly`, `ShortRow`). A newline as separator makes the loop take the first row's end for
one more separator and swallow the rest, and a separator of byte 255, which a signed char makes equal to EOF, keeps
the loop over extra fields from ending (`ImportRounds`); for all others `Import` says exactly which tables arrive
whole.

The unescaper of command lines takes the character after a backslash whatever it is. When that is the NUL that ends
a token, it runs on over the rest of the line; `DotCommands` models that on the memory (`Unescaped`, `Args`). It
stays within each token exactly if no unescaped one ends in a lone backslash (`WithinIffTokenizable`), and then the
arguments are the tokens (`PlainArgs`); otherwise `LoneBackslash` says what it leaves of the line.

**The SCons job scheduler** (`scons_local/scons-local-2.3.0/SCons/Job.py`). `JobScheduler` is the dispatcher, the
two queues and the workers as a step machine with the interrupt flag; the k-th task handed out is called k, and
next_task may answer None at any time. `JobCounts` and `JobTasks` hold its theorems, and `JobExecutions` says which
tasks are executed and what an interrupt does to the others. `ParallelJobs` is the code of `Parallel.start` and the
pool with their nested loops, the other threads acting in between as they like; its runs are proved to be runs of
the step machine, and to end.

**The timestamp thread** (`src/Timing.cpp`, the Windows loop). The frequency is a parameter and the counter's
samples are a sequence; the first is read before the loop and each further one in a round of it.

**A session** (`Sessions`) puts the pieces together: the drain thread's file, encoded, uplifted and rebuilt into
the forests that the threads profiled.

In all step machines, fields that only record what happened (written slots, enqueued items, indices given out,
places of tasks, verdicts) steer nothing.

### Main results

- The ring is a bounded FIFO for every number of producers when no publication overtakes an unwritten ticket, which
  is exactly when no unwritten slot becomes readable; what the consumer takes is right exactly when the slots it
  reads have been written (`FifoSafety`, `PublicationOrderIsExact`, `OrderedMeansNoneHolds`, `ReadsAreExact`). In any
  run a value that a call holds is enqueued once or refused, never dropped (`EnqueueOutcome`, `LostSwapRetries`).
- The drain thread ends for every schedule, and its file holds exactly the events seen by its last check, with the
  exact condition for that to be all of them (`DrainLoop`).
- A flat log written by any number of threads determines each thread's forest, and its intervals are laminar
  (`ForestIsRecovered`, `ThreadIsLaminar`), also by way of the file (`RoundTrip`, `TruncatedStream`,
  `RecordAndUplift`); each identifier labels exactly one event (`EachIdentifierLabelsOneEvent`).
- Every stored pointer can be found exactly when no Put wins behind a hole; then the table keeps its pointers distinct
  exactly when no Put wins past its own pointer, and everybody is given one index for one pointer
  (`ReachableIffNoHoleWin`, `DistinctIffNoRepeatedWin`, `LateGetAgreesWithPut`). Put gives up only on a pointer that
  is there or a table without a slot it could take, and calls are wait-free (`PutOutcome`, `CallsAreWaitFree`).
- CSV fields, tables and imports come back, each with its exact condition (`FieldReadsBack`, `TableReadsBack`,
  `Import`); a command line is split into its tokens exactly when the unescaper stays within them, and printed C
  strings come back (`WithinIffTokenizable`, `PrintAndSplit`).
- The job scheduler settles each task once and ends, in the code's own loops, and executes a task only if it needs to
  be and no interrupt came first (`EachTaskSettlesOnce`, `Start`, `ExecuteWasCleared`, `InterruptFails`).

## Model

| member | source | states |
|---|---|---|
| RingMachine.IndexSafety | src/queue/lockless_ring.h:65-112 | In every interleaving of any number of producers with one consumer: back <= readfront <= front <= back + capacity - 1, front - readfront is the number of claimed unpublished tickets, tickets are distinct, and the slot past the first `capacity` slots is never touched |
| RingMachine.StepKeepsIndices | src/queue/lockless_ring.h:65-112 | Each load, swap, slot write, publication, copy and store keeps those index facts, stale loads included |
| RingMachine.CheckBackKeepsIndices | src/queue/lockless_ring.h:69-73 | A fullness test, on a stale front or a current one, keeps those facts, among them that a swap which then succeeds finds room |
| RingMachine.BlockFits | src/queue/lockless_ring.h:98-108 | The block of a bulk dequeue is never empty for a nonempty queue and positive limit, stays within what is published and does not run past the last slot |
| RingFifo.FifoSafety | src/queue/lockless_ring.h:65-112 | In every run whose publications are ordered: taken items followed by queued items are the enqueued items in ticket order, at most capacity - 1 are queued, and every published slot still holds the value enqueued under its ticket |
| RingFifo.OrderedStepKeepsFifo | src/queue/lockless_ring.h:65-112 | Each ordered step keeps slots, items being copied and items already taken equal to what was enqueued |
| RingFifo.StepRefinesFifo | src/queue/lockless_ring.h:65-112 | Each ordered step is invisible or one atomic step of a FIFO of capacity - 1 with the values that producers are still trying to enqueue: the first load makes a value wait, the winning swap enqueues it at the end, a failed fullness test refuses it, the store of back dequeues from the front; a lost swap leaves the value waiting |
| RingFifo.PublicationOrderIsExact | src/queue/lockless_ring.h:74-77 | No slot becomes readable before it is written if and only if each publication of the run finds the slot of ticket readfront written |
| RingReads.OrderedMeansNoneHolds | src/queue/lockless_ring.h:74-77 | The same condition in terms of producers: a run has ordered publications if and only if none happens while some producer still holds the oldest unpublished ticket unwritten |
| RingReads.ReadsAreExact | src/queue/lockless_ring.h:81-112 | For any order of publications: if each slot the consumer reads had been written when it was read, then everything it holds and takes is the value enqueued under that ticket; and only then, in runs with distinct values |
| RingReads.StepKeepsReads | src/queue/lockless_ring.h:65-112 | Each step that reads only written slots keeps slots, items being copied and items taken equal to what was enqueued, although publications may overtake each other |
| RingRuns.OneProducerIsOrdered | src/queue/lockless_ring.h:65-79 | Every run with one producer has ordered publications |
| RingRuns.ClaimOrderIsOrdered | src/queue/lockless_ring.h:74-77 | Publishing in claim order is ordered, for any number of producers |
| RingRuns.BulkEqualsSingles | src/queue/lockless_ring.h:81-112 | A bulk dequeue, across the wrap point or not, reaches exactly the state that as many single dequeues reach, and says how many that is |
| RingRuns.FullReport | src/queue/lockless_ring.h:69-73 | A fullness test on a current front is exact; on a stale one a report of full is right exactly when front has since moved by a multiple of the capacity |
| RingRuns.SoloEnqueue | src/queue/lockless_ring.h:65-79 | An uninterrupted TryEnqueue reports full exactly when capacity - 1 items are queued and otherwise appends and publishes its value |
| RingCalls.EnqueueOutcome | src/queue/lockless_ring.h:65-79 | In every interleaving a TryEnqueue ends by publishing after exactly one won swap, and then its value has a ticket claimed during the call whose slot is written; or by a fullness test that said full on a load of front made during the call, and then it has won none. Lock-free: each swap lost to a moved front is paid for by another claim during the call |
| RingCalls.LostSwapRetries | src/queue/lockless_ring.h:67-79 | After a lost swap, spurious or not, a producer that is not disturbed again appends and publishes its value whenever fewer than capacity - 1 are queued, and reports full otherwise |
| RingCalls.DequeueOutcome | src/queue/lockless_ring.h:81-112 | In every interleaving a dequeue is decided by its first load: it takes nothing exactly if nothing was published then or a bulk dequeue may take nothing, else one value, or the block that was published then up to the wrap point; in at most 3 further steps of its own, or capacity + 2 |
| RingCalls.NobodyWaits | src/queue/lockless_ring.h:65-112 | Wherever the other threads stand, every producer and the consumer have a next step |
| RingRuns.SpuriousFull | src/queue/lockless_ring.h:67-73 | A concrete run after which a concurrent TryEnqueue reports an empty ring full |
| RingRuns.OvertakingReadsUnwritten | src/queue/lockless_ring.h:74-77 | A concrete run with publications out of claim order in which the consumer takes a slot that nobody has written |
| RingRuns.EmptyReport | src/queue/lockless_ring.h:41-46 | The consumer's emptiness test answers for the moment of its first load, whatever producers do in between |
| RingQueues.RingQueue.Empty | src/queue/lockless_ring.h:41-46 | True exactly when every claimed value has been taken |
| RingQueues.RingQueue.Full | src/queue/lockless_ring.h:52-58 | True exactly when capacity - 1 values are queued |
| RingQueues.RingQueue.Claim | src/queue/lockless_ring.h:65-74 | Refused exactly when capacity - 1 values are queued; otherwise the value is appended and no queued slot is overwritten |
| RingQueues.RingQueue.TryEnqueue | src/queue/lockless_ring.h:65-79 | The same with the publication; a refusal changes nothing |
| RingQueues.RingQueue.TryDequeue | src/queue/lockless_ring.h:81-94 | The oldest published value, or none exactly when nothing is published |
| RingQueues.RingQueue.TryDequeueBlock | src/queue/lockless_ring.h:96-112 | Copies the oldest published values in order into the buffer, no more than asked for, none only if none is published or none asked for, and leaves the rest of the buffer alone |
| DrainThread.RawEventWriter.MapStringToReference | src/Context.cpp:158-180 | A new name is interned once, in first-use order, unless the table is full, and its string record is queued with that index unless the string queue is; a name is refused exactly in those two cases, and that takes at least 4096 names |
| DrainThread.RawEventWriter.StampAndClaim | src/Context.cpp:29-42 | The event that is appended is the given one with the reference of its own name; refused exactly when the queue is full; the name is announced before the event is enqueued |
| DrainThread.RawEventWriter.Interleave | src/EventStreamIO.cpp:60-73 | Whatever the other threads do at an interleaving point, conservation and the naming of written events hold after it, every event of theirs is offered in order and no name appears that the script does not have |
| DrainThread.RawEventWriter.WriteEvents | src/EventStreamIO.cpp:49-51 | Whatever count fwrite returns, file events followed by the unwritten part of the buffer are unchanged |
| DrainThread.RawEventWriter.FlushStrings | src/EventStreamIO.cpp:35-42 | Terminates with the string queue empty; every string record taken is in the file once, in order, and no event moved |
| DrainThread.RawEventWriter.WriteOut | src/EventStreamIO.cpp:44-55 | Terminates with the buffer empty and all of its events in the file, in order, for every sequence of partial counts |
| DrainThread.RawEventWriter.Flush | src/EventStreamIO.cpp:44-58 | Both of the above |
| DrainThread.RawEventWriter.TakeBlock | src/EventStreamIO.cpp:63 | Below the threshold the buffer always has room: events leave the queue whenever one is published, and land in the buffer in order |
| DrainThread.RawEventWriter.CheckBusy | src/EventStreamIO.cpp:71 | The check looks at the tickets claimed at that moment, and at the string queue if they had all been drained: the verdict is busy if and only if they had not, or the string queue holds a record when it is looked at |
| DrainThread.RawEventWriter.Drain | src/EventStreamIO.cpp:60-73 | File events, then the used buffer, then the queue are every accepted event in order; the buffer is written out exactly when it has come to the threshold; every name that the file or the buffer uses is defined in the file, without exception in a program with fewer than 4096 names; the final check sees everything accepted before the call, and says busy exactly when one of the queues holds something it looked for; once the program is finished the queues get shorter or the thread goes idle |
| DrainThread.RawEventWriter.DrainUntilIdle | src/Comms.cpp:15-17 | The loop ends for every schedule, with nothing left of what the last check saw; that includes every event accepted before the call exactly if the loop is entered |
| DrainThread.RawEventWriter.DrainLoop | src/Comms.cpp:13-19 | Ends for every schedule; the file holds exactly the events whose tickets had been claimed when the last check looked, in order. It holds all events accepted before the call if and only if the flags let the thread look again or nothing was left to drain; and when no more are offered that is all events there are, under the same condition. String records are complete, numbered 0, 1, 2, ..., and in a program with fewer than 4096 names each event's reference leads to its own name |
| DrainThread.ShutdownLosesAnEvent | src/Comms.cpp:13-42 | A run in which an event accepted before shutdown is requested never reaches the file |
| Sessions.RecordAndUplift | src/Comms.cpp:13-42 | The whole way: the drain thread runs to its end, its file is written as bytes with any padding and uplifted record for record with every name defined. If the events offered before are those that the threads' interleaved calls emit, none was refused, no more are to come, and the thread looks again or had drained them, then each thread's forest is rebuilt from the uplifted records, every zone and probe with the text of its own name |
| Sessions.ChildrenSpelled | src/Context.cpp:158-180 | Rebuilding does not depend on where a name is interned: logs that refer to the same names by different references give the same forest of names |
| Sessions.FileEncodable | src/EventStreamIO.cpp:24-58 | Everything the writer has put in the file can be encoded and fits the reader, given names that fit its buffer and storable events |
| ZoneLog.RunForest | src/Context.cpp:45-120 | Running a forest that fits leaves the zone stack as it was and emits zones and probes in post-order with the right parents, identifiers and durations |
| ZoneLog.Accounting | src/Context.cpp:45-120 | Every zone or probe started was emitted, is still open, or was dropped on a full stack |
| ZoneLog.TooDeepDrops | src/Context.cpp:51-55 | A forest deeper than the stack loses a zone |
| ZoneLog.RecordedIffFits | src/Context.cpp:45-75 | A thread records all of its zones and probes if and only if its nesting fits the stack |
| ZoneTree.LogRebuildsForest | src/Context.cpp:45-120 | The flat post-order log determines the forest: following parentEventRef from 0 rebuilds it |
| ZoneTree.EmittedParents | src/Context.cpp:18-27 | The parent of each event is a zone of the same forest or the one around the forest |
| ZoneIntervals.LogIsLaminar | src/Context.cpp:29-75 | Under a monotone clock and durations below 2^32 a thread's events are laminar: of two, the later emitted contains the earlier or begins after it; siblings do not overlap; children lie inside parents and their values add up to no more than the parent's |
| ZoneIntervals.ValueIsDuration | src/Context.cpp:72 | The 32-bit value is the duration exactly when the duration is below 2^32 |
| ZoneThreads.Projection | src/Context.cpp:45-120 | What one thread has logged, has still to enqueue and keeps open is its own calls run alone on the counter values they met, whatever other threads interleave |
| ZoneThreads.IdentifiersAreSound | src/Context.cpp:182-185 | For every number of threads: identifiers in the log are distinct and below the counter, each belongs to the thread that drew it, every parent is smaller than its child and of the same thread |
| ZoneIdentifiers.EachIdentifierLabelsOneEvent | src/Context.cpp:182-185 | In every execution each number from 1 up to the counter is the identifier of exactly one event: logged, on its way to the log, or an open zone; no call draws one without making an event |
| ZoneIdentifiers.QuietLogIsNumbered | src/Context.cpp:182-185 | When every call has returned and no zone is open, the identifiers in the log are exactly 1, ..., /log/ |
| ZoneIdentifiers.EventsCarryTheirCalls | src/Context.cpp:29-120 | Each event of a thread in the log was sampled by one of its calls, or opened by one and ended by a later one: it carries the type of src/Event.h, the name, the time and frame its call found, and the value sampled or the duration modulo 2^32 |
| ZoneThreads.IdentifiersGrow | src/Context.cpp:182-185 | Of two calls of any threads that draw an identifier, the later one draws the larger |
| ZoneThreads.DrawnIsOwned | src/Context.cpp:182-185 | The identifier that a call draws is below the counter from then on and recorded as its thread's |
| ZoneThreads.CallsDrawInOrder | src/Context.cpp:29-42 | The identifiers that one thread's calls draw grow strictly in the order of the calls |
| ZoneThreads.ForestIsRecovered | src/Context.cpp:18-120 | If one of any number of interleaved threads has run a forest no deeper than its stack, its part of the log rebuilds exactly that forest and no zone stays open |
| ZoneThreads.RecordedIffFitsAmongThreads | src/Context.cpp:45-75 | The exact depth condition among any number of threads |
| ZoneThreads.ThreadIsLaminar | src/Context.cpp:29-75 | Laminarity of each thread's part of a log shared by all, siblings apart |
| ThreadContexts.SlabStack.Push | src/stack/slabstack.h:63-70 | None exactly when full, else the slot above the top, which becomes the top |
| ThreadContexts.SlabStack.Pop | src/stack/slabstack.h:77-85 | None exactly when empty, else the top slot, which is given up |
| ThreadContexts.ThreadContext.PeekParentID | src/Context.cpp:18-27 | The innermost open zone's identifier, 0 when none is open |
| ThreadContexts.ThreadContext.Zone | src/Context.cpp:45-59 | On the slab: exactly the zone step of the log model; a zone that finds the stack full draws no identifier |
| ThreadContexts.ThreadContext.End | src/Context.cpp:61-75 | On the slab and the queue: exactly the end step of the log model, the event enqueued unless the queue is full |
| ThreadContexts.ThreadContext.Sample | src/Context.cpp:77-120 | On the queue: exactly the probe step of the log model, the stack untouched |
| StreamCodec.RoundTrip | src/EventStreamIO.cpp:24-58 | Reading back what was written gives exactly the records written, whatever the padding bytes are |
| StreamCodec.ReadAllEncoded | src/EventStreamIO.cpp:24-58 | The same in front of any further bytes: the format is self-delimiting |
| StreamCodec.FormatIsUnambiguous | src/Event.h:36-121 | No byte string is two different record sequences |
| StreamCodec.LongRoundTrip | src/Event.h:73-77 | The 64-bit timestamp survives its eight bytes, negative values included |
| StreamCodec.EventLayout | src/Event.h:36-97 | The byte offset of every field of an event, little-endian, the timestamp aligned to 8 bytes |
| StreamCodec.StringLayout | src/EventStreamIO.cpp:24-33 | A string record is the tag 0xffffffff, the identifier, the length and the text, at offsets 0, 4, 8 and 12 |
| StreamCodec.ReadCutRecord | src/uplift/uplift.cpp:15-43 | A record cut short yields nothing, or for a string whose header is whole the text so far |
| StreamCodec.TruncatedStream | src/uplift/uplift.cpp:7-44 | Decoding any byte prefix of a stream yields the records that fit, at most one string with its text cut short, and stops |
| StreamCodec.InFile.ReadItem | src/uplift/uplift.cpp:15 | fread of one item: all of it, leaving what follows, or none and the input is exhausted |
| StreamCodec.InFile.ReadBytes | src/uplift/uplift.cpp:21 | fread of single bytes: as many as asked for or as there are, in order |
| StreamCodec.SessionFileStore.WriteString | src/uplift/uplift.cpp:22-23 | The store receives the bytes before the first NUL |
| StreamCodec.ReadStringRecord | src/uplift/uplift.cpp:18-29 | The string case reads the record that ReadOne describes and advances past it |
| StreamCodec.ReadRecord | src/uplift/uplift.cpp:7-44 | One call hands on the next record and advances past it, or answers false exactly when no record can be read |
| StreamCodec.Uplift | src/uplift/uplift.cpp:67 | The loop hands on every readable record, in order, and ends |
| StreamCodec.EncodedFits | src/uplift/uplift.cpp:9-22 | No prefix of what the library writes overruns the reader's string buffer |
| StreamCodec.UpliftSession | src/uplift/uplift.cpp:46-72 | A session file of the library arrives in the store record for record |
| HashInteger.HashIsBijective | src/map/pointer_hash.h:17-28 | HashInteger64 has a two-sided inverse on 64-bit words |
| HashInteger.FoldHighTwice | src/map/pointer_hash.h:21 | h ^= h >> 33 undoes itself |
| HashInteger.InverseFactors | src/map/pointer_hash.h:22-24 | Both multipliers have an inverse modulo 2^64 |
| HashInteger.CollisionsComeFromReduction | src/map/pointer_hash.h:56-57 | Distinct pointers hash apart; they share a slot only through the reduction modulo the capacity |
| HashInteger.HashOfOne | src/map/pointer_hash.h:17-28 | The hash of 1 is 0xb456bcfc34c2cb2c |
| PointerHashes.ProbeCycle | src/map/pointer_hash.h:81-83 | The probe loop returns to its start after exactly `capacity` steps |
| PointerHashes.ProbeReaches | src/map/pointer_hash.h:56-83 | Probing meets every slot |
| PointerHashes.PointerHash.NotSkipped | src/map/pointer_hash.h:54-106 | A pointer in the table cannot hide behind probed slots that hold others |
| PointerHashes.PointerHash.FullIffNoHole | src/map/pointer_hash.h:83-85 | The table holds `capacity` pointers exactly when no slot is empty |
| PointerHashes.PointerHash.Get | src/map/pointer_hash.h:88-106 | The pointer's position in the list of distinct pointers in first-use order; -1 exactly when it is absent |
| PointerHashes.PointerHash.Claim | src/map/pointer_hash.h:71-75 | Taking the first empty slot probed appends the pointer to that list |
| PointerHashes.PointerHash.Put | src/map/pointer_hash.h:54-86 | -1 exactly when the pointer is present or the table is full, else its new position at the end of the list; wrap-around probes included |
| PointerHashes.PointerHash.Lookup | src/map/pointer_hash.h:108-115 | The pointer's position, appended first if new and there is room |
| PointerTable.TableSafety | src/map/pointer_hash.h:54-106 | In every interleaving, spurious failures of the weak swap included, claimed slots get distinct indices below the capacity |
| PointerTable.SlotsOnlyFill | src/map/pointer_hash.h:71 | Along every run slots only change from empty to a key |
| PointerTable.ValueIsIndexUnlessOwned | src/map/pointer_hash.h:71-74 | The value read from a taken slot is its index exactly when no Put still has a nonzero index to store there |
| PointerTable.StepKeeps | src/map/pointer_hash.h:54-106 | Each step of any thread, a spurious failure of the swap too, keeps the table invariant |
| PointerCalls.CallsAreWaitFree | src/map/pointer_hash.h:54-106 | Whatever the other threads do, a Put takes at most 2 * capacity + 2 actions and a Get at most capacity + 1 |
| PointerCalls.PutOutcome | src/map/pointer_hash.h:61-86 | In every run, what a returned Put has done: with an index it has won exactly one slot, which holds its pointer under that index; with -1 it has won none, and the pointer is in the table or no slot is empty except ones at which its own swap failed spuriously |
| PointerCalls.StrongPutGivesUp | src/map/pointer_hash.h:61-86 | If no swap fails spuriously a Put returns -1 only if its pointer is in the table or the table is full |
| PointerCalls.MissIsTrue | src/map/pointer_hash.h:88-106 | As long as no Put wins behind a hole, a Get that answers -1 does so only if its pointer was absent at some moment of the call |
| PointerCalls.NobodyWaits | src/map/pointer_hash.h:54-106 | Wherever the other threads stand, every thread has a next action |
| PointerReach.ReachableIffNoHoleWin | src/map/pointer_hash.h:54-106 | In every run, spurious failures included: every stored key is reached from its home slot over taken slots at all times if and only if no Put wins a slot while one that it probed before is still empty |
| PointerReach.LateGetNeverMisses | src/map/pointer_hash.h:54-106 | Under that condition a Get that begins after a Put of its pointer returned an index never reports it absent, racing duplicates included |
| PointerReach.StrongRunsHaveNoHoles | src/map/pointer_hash.h:71 | If no swap fails while its slot is empty the condition holds |
| PointerReach.HoleWinHides | src/map/pointer_hash.h:71-81 | A Put that wins behind a hole leaves its key where no Get finds it |
| PointerAgreement.DistinctIffNoRepeatedWin | src/map/pointer_hash.h:71-81 | In every run in which no Put wins behind a hole: no pointer is in the table twice if and only if no slot was won by a Put that had probed past its own pointer |
| PointerAgreement.DistinctIffNoLoserWins | src/map/pointer_hash.h:71-81 | In every run without spurious failures: no pointer is in the table twice if and only if no slot was won by a Put that, in the same call, had lost a swap to a slot with its own pointer |
| PointerAgreement.LateGetAgreesWithPut | src/map/pointer_hash.h:54-106 | As long as no Put wins behind a hole or past its own pointer, a Get that begins after the Put returned gives the same index, whatever else interleaves, overlapping Puts of the pointer included |
| PointerAgreement.TwoWinnersDisagree | src/map/pointer_hash.h:71-81 | Two Puts of one pointer that both return an index return different ones, and then some Put has won behind a hole or past its own pointer |
| PointerAgreement.ExclusivePutsAgree | src/map/pointer_hash.h:54-106 | If no two Puts of one pointer overlap and none wins behind a hole, a Get that begins after the Put returned gives the same index |
| PointerAgreement.RacingPutsDisagree | src/map/pointer_hash.h:71-81 | For every pointer and every capacity from 2 on: a run without spurious failures in which two overlapping Puts both succeed and a later Get disagrees with one of them |
| PointerAgreement.SpuriousFailureLosesAKey | src/map/pointer_hash.h:71-81 | For every pointer and every capacity from 2 on: a run in which a spurious failure of the weak swap makes a later Get report a stored pointer absent |
| Csv.FieldReadsBack | src/sqlite3/shell.c:652-685 | A printed field and its terminator are read back, leaving what follows, exactly when the field has no quote directly followed by CR LF and, unless the terminator is a newline, the separator is a plain char and a quote only if the field is printed bare; otherwise text or terminator differ |
| Csv.PrintedAsIs | src/sqlite3/shell.c:632-685 | A field is printed without quotes exactly if it is nonempty and made of ASCII characters from ! to ~ other than the two quotes and the separator |
| Csv.TableReadsBack | src/sqlite3/shell.c:1842-1895 | A printed table of any shape, read field by field to the end of the input, gives its fields and terminators exactly when each of its fields reads back |
| Csv.PlainSeparator | src/sqlite3/shell.c:848-861 | For every one-byte separator below 128 other than a quote that means: exactly when no field has a quote directly followed by CR LF |
| Csv.ReadBody | src/sqlite3/shell.c:1852-1880 | The doubled body of a quoted field is read up to its closing quote |
| Csv.ReadBrokenBody | src/sqlite3/shell.c:1862-1866 | A quote followed by CR LF inside the body cuts the field short |
| Csv.ReadClosing | src/sqlite3/shell.c:1859-1868 | The closing quote and the terminator end the field, unless the separator is a quote or above 127 |
| CsvShell.CsvPrinter.OutputCsv | src/sqlite3/shell.c:656-685 | Writes the field as PrintField has it, and the separator if asked |
| CsvShell.CsvPrinter.OutputRow | src/sqlite3/shell.c:857-860 | Writes one row of the printed table |
| CsvShell.CsvPrinter.ShellCallback | src/sqlite3/shell.c:848-861 | What is written is always the printed table of all rows so far, headed by the column names if asked for |
| CsvShell.CSVReader.AppendChar | src/sqlite3/shell.c:1814-1824 | Appends one byte, growing the buffer when needed and keeping what it holds |
| CsvShell.CSVReader.BackUpToQuote | src/sqlite3/shell.c:1866 | The text before the last quote remains |
| CsvShell.CSVReader.ReadQuotedField | src/sqlite3/shell.c:1850-1883 | Text, terminator and rest of the input are those of ReadQuoted, and each newline passed counts a line |
| CsvShell.CSVReader.ReadUnquotedField | src/sqlite3/shell.c:1884-1893 | Text, terminator and rest of the input are those of ReadUnquoted, and a newline passed counts a line |
| CsvShell.CSVReader.ReadOneField | src/sqlite3/shell.c:1842-1896 | Text, NUL, terminator, rest of the input and line count are those of ReadField; null only at the end of the input or when no byte was ever kept |
| CsvForeign.QuotedField | src/sqlite3/shell.c:1850-1883 | A quoted field of any other program reads as its text whether the separator, LF, CR LF or the end of the file follows it, unless it holds a quote directly followed by CR LF |
| CsvForeign.UnquotedField | src/sqlite3/shell.c:1884-1893 | So does an unquoted one, exactly unless it is empty before CR LF, where it reads as a carriage return, or has at least two bytes and ends in a carriage return before LF, which it loses |
| CsvImport.FilledExactly | src/sqlite3/shell.c:2239-2252 | The message says that missing columns are filled with nulls: that and every field kept holds if and only if no column is missing, or the last field was null anyway and so was the last column of the row before |
| CsvImport.ReadColumns | src/sqlite3/shell.c:2239-2252 | The column loop on any line: its fields are bound as BoundBy has it, a null first field binds nothing, and the counter is one past the columns if some were missing |
| CsvImport.ReadRow | src/sqlite3/shell.c:2239-2269 | Any line at all: the parameters, the counter that decides on the insert, the terminator and the rest of the input are those of RowOf, too few and too many fields included |
| CsvImport.SkipExtras | src/sqlite3/shell.c:2253-2261 | Terminates past the fields up to the first that the separator does not follow, and counts them |
| CsvImport.ShortRow | src/sqlite3/shell.c:2245-2251 | A printed row of too few fields: the line is read to its end, its last field becomes null, the last column stays as in the row before, and the promise of the message is never kept |
| CsvImport.ExtrasIgnored | src/sqlite3/shell.c:2253-2261 | A printed row of too many fields: the columns get the first ones, the others are skipped and counted, and the next row starts behind them |
| CsvImport.PrintedLine | src/sqlite3/shell.c:848-861 | A printed row is read as its fields up to its newline, leaving what follows, exactly when all of them read back; otherwise the line has too few fields or a wrong one |
| CsvImport.ImportRounds | src/sqlite3/shell.c:2253-2261 | With a separator of byte 255 the import does not end, whatever the file: no number of rounds of the loop over extra fields is enough; with any other one, as many as the file has bytes and one more are |
| CsvImport.Import | src/sqlite3/shell.c:2239-2270 | Ends at the end of the file for every other separator; a printed table of as many columns is inserted row for row, value for value, if and only if each of its fields reads back and the separator is not a newline, or is one and there is at most one row |
| CsvImport.ExportAndImport | src/sqlite3/shell.c:848-861 | Rows printed by one shell in CSV mode and imported by another with the same separator are the same rows under exactly that condition |
| CsvShell.PrintedFieldAllocates | src/sqlite3/shell.c:1842-1896 | The result is not null for a printed field |
| CStrings.OutputCString | src/sqlite3/shell.c:566-592 | The loop writes the quoted, escaped string |
| CStrings.EscapedIsPrintable | src/sqlite3/shell.c:566-592 | Everything written is printable, so the string stays on one line |
| CStrings.ResolveEscaped | src/sqlite3/shell.c:1641-1670 | Unescaping an escaped string gives it back, octal escapes followed by digits and bytes above 127 included |
| CStrings.FirstQuotedToken | src/sqlite3/shell.c:1917-1926 | A printed string is one token, up to its closing quote |
| CStrings.PrintedArgsTokenize | src/sqlite3/shell.c:1914-1932 | Printed strings with any white space or none between them are split into exactly those strings |
| CStrings.DotCommandReadsBack | src/sqlite3/shell.c:1903-1932 | A dot command with any printed strings as arguments is split into the command word and those strings, as far as the 50 arguments go |
| CommandLines.WhatIsEscaped | src/sqlite3/shell.c:566-592 | Which bytes are printed as they are, which with a letter and which as three octal digits, by number |
| CommandLines.OctalEscape | src/sqlite3/shell.c:1655-1664 | An octal escape takes as many octal digits as follow, up to three, and stands for their value modulo 256 |
| CommandLines.LetterEscape | src/sqlite3/shell.c:1645-1654 | Any other escape stands for LF, TAB or CR, or for the character itself |
| CommandLines.LineTokenizes | src/sqlite3/shell.c:1914-1932 | A line of arguments in any mixture of double quotes with escapes, single quotes and bare words, with any white space around them, is split into exactly their texts, as far as there is room |
| DotCommands.ReadEscape | src/sqlite3/shell.c:1646-1666 | One escape is read as Escape has it, three octal digits modulo 256 |
| DotCommands.ResolveBackslashes | src/sqlite3/shell.c:1641-1670 | In place: at the string lies what Unescaped says, then a NUL, and no other byte has changed; the unescaper may run over the end of its string, as long as it ends inside the memory |
| DotCommands.StaysWithinExactly | src/sqlite3/shell.c:1641-1670 | The unescaper reads exactly its string, up to its NUL, if and only if the string does not end in a lone backslash |
| DotCommands.UnescapedWithin | src/sqlite3/shell.c:1641-1670 | A string that does not end in a lone backslash is unescaped within itself: the unescaper writes its resolved form and reads no further than its NUL |
| DotCommands.NulStays | src/sqlite3/shell.c:1641-1670 | However far it runs, the result is a C string no longer than the one it started from |
| DotCommands.ReadToken | src/sqlite3/shell.c:1917-1931 | In place: the token is cut off and unescaped and the line goes on where After says; nothing before it changes |
| DotCommands.Tokenize | src/sqlite3/shell.c:1908-1932 | The argument array points, in order, at the C strings of Args, whatever the line, as long as no unescaping leaves the memory |
| DotCommands.WithinIffTokenizable | src/sqlite3/shell.c:1914-1932 | For every line whose unescaping ends in memory: the unescaper stays within each token if and only if no unescaped token ends in a lone backslash |
| DotCommands.PlainArgs | src/sqlite3/shell.c:1914-1932 | If no unescaped token of a line ends in a lone backslash its arguments are the tokens of the line, whatever lies behind it in memory |
| DotCommands.LoneBackslash | src/sqlite3/shell.c:1917-1931 | Any token that ends in a lone backslash, whatever precedes and follows it: its argument is the token without it, unescaped; the line goes on with what was behind the token, unescaped early and less as many first bytes as the token became shorter, or as it was if that leaves nothing |
| DotCommands.PrintAndSplit | src/sqlite3/shell.c:566-592 | What one shell prints as a command word and C strings is split in place by another into that word and those strings, as far as the 50 arguments go |
| JobCounts.JobsIsInFlight | scons_local/scons-local-2.3.0/SCons/Job.py:383-426 | In every interleaving jobs is the number of queued requests, executing tasks and queued results, up to the one being moved, between 0 and the number of workers; cleaning up starts only when all three are zero |
| JobCounts.SentinelsStopEachWorker | scons_local/scons-local-2.3.0/SCons/Job.py:311-339 | Sentinels in the queue plus stopped workers are the sentinels put; when all are put and taken every worker has stopped |
| JobCounts.StoppedStays | scons_local/scons-local-2.3.0/SCons/Job.py:248-252 | A worker stops once |
| JobCounts.StepDecreases | scons_local/scons-local-2.3.0/SCons/Job.py:369-429 | Every step of any thread decreases one measure |
| JobCounts.RunsEnd | scons_local/scons-local-2.3.0/SCons/Job.py:369-429 | Over a finite supply of tasks every interleaving ends within 19 * tasks + 2 * workers + 5 steps |
| JobTasks.EachTaskSettlesOnce | scons_local/scons-local-2.3.0/SCons/Job.py:383-426 | Each task handed out gets, at any time, nothing, one of executed and failed, or that one followed by one postprocess; when cleaning up begins all have got both |
| JobTasks.VerdictHasCause | scons_local/scons-local-2.3.0/SCons/Job.py:254-264 | Executed is called only for a task that was up to date or whose run raised nothing, Failed only after a failed preparation, a failed run or a look at the flag after an interrupt |
| JobExecutions.ExecuteWasCleared | scons_local/scons-local-2.3.0/SCons/Job.py:254-258 | In every run a worker that executes a task has looked at the flag for that task before, while nothing had interrupted the build |
| JobExecutions.ClearedBeforeInterrupt | scons_local/scons-local-2.3.0/SCons/Job.py:254-258 | What is executed after an interrupt had been cleared before it |
| JobExecutions.InterruptFails | scons_local/scons-local-2.3.0/SCons/Job.py:254-264 | Every task that is about to be queued, queued, or with a worker that has not looked at the flag for it when the build is interrupted goes badly: it is told nothing but Failed and then Postprocess, and both by the time cleaning up begins |
| JobExecutions.ExecutedAtMostOnce | scons_local/scons-local-2.3.0/SCons/Job.py:244-264 | No task is executed twice, by the same worker or by two |
| JobExecutions.ExecuteWasNeeded | scons_local/scons-local-2.3.0/SCons/Job.py:388-402 | Whatever is executed was prepared before, and its preparation said that it needs executing |
| JobExecutions.NotNeededNotExecuted | scons_local/scons-local-2.3.0/SCons/Job.py:388-402 | A task that is up to date, or whose preparation fails, is never executed |
| JobExecutions.NeededIsRunOrDropped | scons_local/scons-local-2.3.0/SCons/Job.py:254-264 | A task that needs executing has been executed when cleaning up begins, with the outcome its callback reports, or a worker has dropped it after an interrupt |
| JobTasks.TasksKeep | scons_local/scons-local-2.3.0/SCons/Job.py:369-429 | Each step keeps every task in exactly one place: the dispatcher, one queue entry or one worker |
| ParallelJobs.Parallel.Others | scons_local/scons-local-2.3.0/SCons/Job.py:244-264 | Whatever any number of worker actions and the interrupt do between two accesses of the dispatcher extends the recorded run of the step machine without a step of the dispatcher; callbacks stay, results are only added at the end |
| ParallelJobs.Parallel.Act | scons_local/scons-local-2.3.0/SCons/Job.py:244-264 | A worker takes its next step, which extends the recorded run: it takes the oldest request, or looks at the flag and then executes its task or, if interrupted, reports a failure, or executes it, or delivers its result |
| ParallelJobs.Parallel.NextTask | scons_local/scons-local-2.3.0/SCons/Job.py:383-386 | The next task by number, which has had no callback yet and is below the total, or none |
| ParallelJobs.Parallel.Dispatch | scons_local/scons-local-2.3.0/SCons/Job.py:388-402 | By how the preparation went, the dispatcher's own steps are exactly: settle the task at once with Executed or Failed and then postprocess, or queue it without a callback and add 1 to jobs; other tasks' callbacks stay |
| ParallelJobs.Parallel.BatchRound | scons_local/scons-local-2.3.0/SCons/Job.py:383-402 | One round: a task is asked for and, if there is one, dispatched; it is a new one with the callbacks of how it went, and jobs grows by one exactly if it was queued |
| ParallelJobs.Parallel.StartBatch | scons_local/scons-local-2.3.0/SCons/Job.py:383-402 | The batch loop only extends the recorded run and ends with no task to be had and fewer than maxjobs under way, or with at least maxjobs |
| ParallelJobs.Parallel.Put | scons_local/scons-local-2.3.0/SCons/Job.py:301-303 | The task is appended to the request queue and jobs grows by one; the dispatcher does nothing else meanwhile |
| ParallelJobs.Parallel.Get | scons_local/scons-local-2.3.0/SCons/Job.py:305-307 | Waiting for a result ends; the result taken is the oldest in the queue, the one at its head before the call if there was one |
| ParallelJobs.Parallel.Settle | scons_local/scons-local-2.3.0/SCons/Job.py:408-422 | The task's callbacks become the old ones, then executed or failed by how it went, then postprocess; no other task's change |
| ParallelJobs.Parallel.Collect | scons_local/scons-local-2.3.0/SCons/Job.py:406-422 | One result: get, subtract 1 from jobs, executed or failed for that result's task, postprocess, and nothing else by the dispatcher |
| ParallelJobs.Parallel.CollectResults | scons_local/scons-local-2.3.0/SCons/Job.py:406-425 | The results loop ends with the result queue found empty and fewer jobs than before, having only extended the recorded run |
| ParallelJobs.Parallel.Cleanup | scons_local/scons-local-2.3.0/SCons/Job.py:312-323 | The dispatcher's steps are one sentinel for each worker and the end; no callback |
| ParallelJobs.Parallel.Start | scons_local/scons-local-2.3.0/SCons/Job.py:369-429 | For every schedule and every taskmaster: the nested loops end, the recorded run of the step machine was only extended, every task handed out was settled exactly once, no result is left, and sentinels plus stopped workers are all workers |
| JobTasks.NeverStuck | scons_local/scons-local-2.3.0/SCons/Job.py:369-429 | No interleaving gets stuck before the dispatcher is done, the queues are empty and all workers have stopped; in particular waiting for a result never blocks for ever |
| Timing.TimestampThread.UpdateTimestamp | src/Timing.cpp:24-60 | The loop computes the clock of After; a counter below 1 MHz is refused |
| Timing.UpdateRounds | src/Timing.cpp:53-57 | An update adds at least a microsecond and loses less than one |
| Timing.TimestampTracksCounter | src/Timing.cpp:48-60 | For every run of samples: the timestamp never runs ahead, consumed plus waiting ticks are all ticks, and at most a microsecond's ticks wait |
| Timing.WithinFactorTwo | src/Timing.cpp:48-60 | t * F <= 10^6 * T < 2 * t * F after the first update |
| Timing.NearlyHalfSpeed | src/Timing.cpp:48-60 | The factor two is approached for ever by a counter just above 1 MHz sampled every second tick |

## Left out

- C++ memory orders weaker than sequential consistency, and the wrap-around of the int and uint32_t counters.
- File opening, fwrite or fread errors without progress, and all terminal output.
- ThreadContexts.ThreadContext.StampEvent: the name reference, the clock reading and the frame number are parameters; DrainThread models how a reference is obtained, with the whole interning as one step.
- ThreadContexts.ThreadContext.Zone: pausing between Zone and End, a missing context and threads without a context are not modelled.
- RingQueues.RingQueue.TryEnqueue: runs without interruption, so its retry loop runs once; RingMachine has the loop with its failures.
- DrainThread.RawEventWriter.RequestShutdown: does not wait for the thread; DrainLoop is the thread.
- DrainThread.RawEventWriter.DrainLoop: from 4096 names on, names are proved defined only if none was refused by a full intern table or string queue.
- Sessions.RecordAndUplift: the threads' calls carry name numbers, and that their events have been offered under those names before the drain thread runs is a hypothesis; what happens to events offered while it runs is in DrainThread.
- DrainThread.RawEventWriter.Flush: events and string records are kept as records; StreamCodec turns them into bytes.
- StreamCodec.RoundTrip: requires strings of at most 4095 bytes and event tags other than EV_NEW_STRING; a longer string does not fit the reader's buffer.
- CsvShell.CsvPrinter.OutputCsv: null values and separators of more than one character, which the reader refuses, are not modelled.
- CsvShell.CSVReader.ReadOneField: messages about unescaped quotes, the interrupt flag and running out of memory are not modelled.
- CsvImport.Import: creating the table from a header line, transactions and insert errors are not modelled.
- Everything else that talks to SQLite.
- DotCommands.Tokenize: requires that unescaping ends inside the buffer that holds the line; a last token with a lone backslash runs on into what lies behind the line.
- ParallelJobs.Parallel.Cleanup: does not wait for the workers, as the join gives up after a second.
- ParallelJobs.Parallel.NextTask: tasks, their dependencies and the taskmaster's stop are abstract, and callbacks do not raise.
- ZoneThreads.ForestIsRecovered: the log has room for every event; the queue that may be full is in ThreadContexts.
- Timing.TimestampThread.UpdateTimestamp: integers are unbounded; the Linux clock loop is not modelled.
- The other output modes of the shell, the serial job class, the signal handlers and the rest of SCons.
