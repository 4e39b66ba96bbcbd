# ticklog, modelled and proved in Dafny

ticklog is a logger. Each producing thread encodes records into a lock-free
ring of its own; one drain thread parses the records, renders lines and hands
them to a sink. This project models the logic that decides whether a record
arrives, once, whole and in order, and whether the line it becomes says what
was logged.

| file | what it holds |
|---|---|
| `Bits.dfy`, `Layout.dfy` | bit masks as arithmetic, little-endian words, slot rounding, header constants |
| `RingFrames.dfy`, `RingProtocol.dfy` | the single-producer single-consumer ring as interleaved atomic steps, one byte store or load at a time |
| `RingRefinement.dfy` | the byte-level protocol seen as one ring of the system model |
| `RingBuffer.dfy` | the ring object: reserve, publish, drain and rewind on the storage array, with masked indices |
| `Handoff.dfy`, `Waiting.dfy` | `reserve_with_policy` and its handoff loop; which records get through the loops that wait |
| `RingSync.dfy` | the registry and the drain's list of rings: `register_ring`, `sync_rings` |
| `LoggerSystem.dfy`, `LoggerSafety.dfy` | the whole logger: any number of threads, registry, segment pool, drain, shutdown |
| `ThreadOrder.dfy`, `DrainCycle.dfy`, `Retirement.dfy`, `DrainEnds.dfy`, `KeepRace.dfy` | order within a thread, what one turn of the drain delivers and which rings it takes out, that turns and the shutdown end, what the repeated liveness checks can cost |
| `Wire.dfy`, `ManyArgs.dfy` | the record format: assembler, argument encodings, bounded cursor, decoder; calls with too many arguments |
| `FormatSpecs.dfy`, `FormatStrings.dfy`, `Templates.dfy`, `Lines.dfy` | three spec readers, two format-string walkers, line patterns, the whole line |
| `Decimal.dfy`, `Calendar.dfy`, `Iso8601.dfy` | fixed-width digits, civil dates from day numbers, the timestamp |
| `Rtrb.dfy` | the chunked byte-ring backend and the FIFO drain pass |

`dafny verify dfyconfig.toml` checks everything.

## Where the code does not do what its documentation says

- `sync_rings` asks whether a ring is kept up to five times, and a producer may
  exit in between. The comment at `src/drain.rs:445` speaks of a single check.
  `RingSync.ForgottenExactlyWhen` proves exactly when a registered ring is
  forgotten by everyone, with its unread records: its flag was set when the
  finalize filter looked and clear when the local list was brought up to date.
  In the system, with threads at work between the looks at the flag, a sync
  loses a registered ring exactly then (`KeepRace.TornSyncLosesIff`), its unread
  records are in no later sink of any run (`KeepRace.LostForGood`), and
  `KeepRace.LosingRun` is a run that loses a record. The other system theorems
  therefore take "the flag is stable while one sync scans" as a hypothesis:
  `Scan` is one step.
- The argument count is cast to u8 (`src/macros.rs:199`), while
  `src/encode.rs:95` promises no ceiling. `Wire.RoundTripIff`: the record gives
  the arguments back if and only if there are at most 255. Beyond that the tags
  overwrite payloads, and a call of 258 arguments panics the drain thread
  (`ManyArgs.LongCallPanicsDrain`, `ManyArgs.LongCallExists`). The macro that
  lists the arguments recurses once per argument, so such a call needs a raised
  recursion limit to compile.
- Under the segmented policies a record whose aligned size reaches the segment
  capacity is refused by every new segment (`RingProtocol.FreshSegmentAccepts`),
  and under the unbounded one no number of turns of the handoff loop finds it a
  slot, while any smaller record has one in the first or second turn
  (`Handoff.HandoffReturnsIff`). Segments of 64 bytes, which the configuration
  allows, never take even a record without arguments
  (`Handoff.SmallestSegmentsTakeNothing`). Under Block and Drop a record may be
  refused by an empty ring, depending on the write position, exactly when twice
  its aligned size exceeds the capacity (`RingProtocol.FitsEverywhereIff`).
- Block is said to spin until space frees up (`src/builder.rs:44`). A record
  that needs the whole storage or more at its write position, filler included,
  waits until shutdown, however often the drain empties the ring
  (`Waiting.HopelessWait`); any other is granted at the first look after one
  pass (`Waiting.ServedAfterPassIff`). `Waiting.HangingRun` and
  `Waiting.SmallestRingsHang` give inputs. In the chunked backend the staged
  bytes count too, and nobody flushes them during the wait
  (`Waiting.RoomAfterPassesIff`): `Waiting.StagedRun` ends before an empty ring
  that will never have room.
- The FIFO drain means to resync behind a corrupt byte (`src/drain.rs:924`). The
  version that a record starts with is also the code of a filler, so a record
  right behind any stray byte is taken for a filler and stepped over or waited
  for, and is not found (`Rtrb.ResyncMisses`).
- Timestamps sort as instants only on one side of the i64 limit, and parse back
  only for offsets of whole minutes (`Iso8601.TextsSortAsInstants`,
  `Iso8601.TextParsesBack`): an offset in seconds is shown cut to minutes. At an
  offset of 90 seconds, which the configuration accepts, the epoch reads back as
  thirty seconds past it (`Iso8601.OddOffsetMisreads`); at offset zero the text
  of instant 2^63 sorts before that of 2^63 - 1 (`Iso8601.LimitMissorts`).

## Model

| member | source | states |
|---|---|---|
| `Layout.AlignUpRounds` | src/ring.rs:57-63 | the masked wrapping addition of `align_up` is rounding up to the next multiple, for every power of two and every sum that does not overflow |
| `RingProtocol.ValidSetupGeometry` | src/ring.rs:293-300 | a power-of-two capacity of at least a slot is a whole number of slots |
| `RingProtocol.StepKeepsInv` | src/ring.rs:609-781 | every atomic step of producer or drain keeps the invariant: indices ordered, slot-aligned and a slot apart, unread positions tiled by intact frames, published = delivered + unread |
| `RingProtocol.RunKeepsInv` | src/ring.rs:609-781 | the invariant holds in every state of every interleaving |
| `RingProtocol.NeverOverlaps` | src/ring.rs:646-663 | in every run, no byte granted to the producer, filler or record, shares a storage index with a byte in `[tail, head)`, and occupancy leaves one slot free |
| `RingProtocol.StoresAreGranted` | src/ring.rs:646-675 | every byte store of a run goes to a granted position and changes nothing else |
| `RingProtocol.DeliveredInOrder` | src/drain.rs:734-869 | in every run the delivered records are a prefix of the published ones, which are the granted ones in order, bar the one being written |
| `RingProtocol.NeverCorrupt` | src/drain.rs:759-830 | the drain never meets an empty slot or a corrupt frame, so its recovery branches are never taken |
| `RingProtocol.RecoveryFromNoFrame` | src/drain.rs:759-790 | those branches, for any bytes in any state: rest on a size of nought, else go on at the loaded head and deliver nothing |
| `RingProtocol.CachedGrantIsRealGrant` | src/ring.rs:710-735 | the cached tail never passes the real one, so every grant on it, with or without `fast-tail-cache`, is one the uncached test makes |
| `RingProtocol.PassTarget` | src/drain.rs:734-869 | throughout a pass, delivered plus still-to-read records are what was published when the pass loaded `head` |
| `RingProtocol.PassDeliversSnapshot` | src/drain.rs:734-869 | a pass ends exactly at the head it loaded with all those records delivered, whatever the producer does meanwhile; then tail equals the cached head |
| `RingProtocol.FinalPassEmpties` | src/drain.rs:444-462 | one pass over a ring whose producer is gone consumes everything |
| `RingProtocol.SkippedPassMeansEmpty` | src/drain.rs:734-758 | between passes the cached head equals the tail, and a pass is skipped only when nothing is unread |
| `RingProtocol.PassMakesProgress` | src/drain.rs:759-869 | each drain step in a pass lowers a natural number that producer steps leave alone |
| `RingProtocol.PassNeverStuck` | src/drain.rs:759-869 | in a pass some drain step is always possible |
| `RingProtocol.WrittenFrames` | src/ring.rs:654-703 | filler and record of a completed reservation tile the positions up to the new head, so every published head is a frame boundary |
| `RingProtocol.FramedUndisturbed` | src/ring.rs:646-652 | stores past the unread frames and within a lap leave all of them intact |
| `RingProtocol.FitsEverywhereIff` | src/ring.rs:618-645 | a record fits an emptied ring at every slot offset if and only if twice its aligned size is at most the capacity |
| `RingProtocol.FreshSegmentAccepts` | src/ring.rs:710-735 | the capacity test on an empty segment succeeds if and only if the record's aligned size is below the capacity |
| `Handoff.HandoffReturnsIff` | src/thread_buf.rs:312-346 | from every state of the current segment the handoff loop finds a slot, in its first or second turn, if and only if the record's aligned size is below the capacity; otherwise no number of turns does |
| `Handoff.SmallestSegmentsTakeNothing` | src/thread_buf.rs:312-346 | a concrete configuration: with segments of 64 bytes not even a 25-byte record ever gets a slot |
| `Handoff.ReserveWithPolicy` | src/thread_buf.rs:297-349 | under every policy, the handoff loop cut off after any number of turns: when it grants, in which turn, on which segment, with the first segment's records kept and the segment marked handed off exactly if the loop moved on |
| `Waiting.ServedAfterPassIff` | src/ring.rs:737-781 | a producer waiting through a drain pass is granted its record at the next look if and only if the record, filler included, needs less than the capacity; otherwise it waits on under Block while live, and gives up else |
| `Waiting.HopelessWait` | src/ring.rs:737-781 | in every run, a blocked record that needs the capacity or more at its write position keeps its thread in the loop until shutdown, whatever the drain does |
| `Waiting.HangingRun` | src/ring.rs:737-781 | a run of two steps into such a wait, for every configuration and every record whose aligned size reaches the capacity |
| `Waiting.SmallestRingsHang` | src/builder.rs:191-193 | an accepted configuration and a record without arguments that hang so |
| `Waiting.RoomAfterPassesIff` | src/rtrb_backend.rs:271-306 | while a producer of the chunked backend waits, drain passes make room if and only if record and staged bytes together stay below the capacity |
| `Waiting.StagedRun` | src/rtrb_backend.rs:271-306 | a run that ends with the ring empty and no room ever for the record that would flush the staged ones |
| `RingRefinement.RunRefines` | src/drain.rs:702-869 | in every run of the byte-level protocol each step is, to the system model, a publish, a drain of the whole ring, a mark or nothing |
| `RingRefinement.SystemFollows` | src/drain.rs:619-644 | a system ring that mirrors the protocol state, in its first or any later incarnation, goes on mirroring it: through the system's drain step when a pass loads the head, its publish step on publication, its marks when the ring is marked dead, and unchanged otherwise |
| `RingRefinement.MarksAreMarks` | src/guard.rs:39-51 | a thread's exit and the guard's mark are such marks |
| `RingRefinement.RewindBegins` | src/segments.rs:262-283 | a rewound segment, all of whose records were delivered, mirrors a fresh protocol state again, its past records being those of earlier incarnations |
| `RingRefinement.FreshBegins` | src/segments.rs:262-283 | a ring just made mirrors a fresh protocol state, with no earlier records |
| `RingRefinement.SinkCatchesUp` | src/drain.rs:734-869 | the real sink is a prefix of what the system counts as delivered, and equal to it between passes |
| `RingProtocol.FillerSpanFitsU16` | src/ring.rs:655-663 | a filler's span survives the cast to u16, at every head and size |
| `RingProtocol.FitsIsOccupancy` | src/ring.rs:717-753 | below 2^64 the wrapping capacity test is the plain one |
| `RingBuffers.RingBuffer.constructor` | src/ring.rs:293-300 | a new ring is valid, live and empty |
| `RingBuffers.RingBuffer.TryEnsureCapacity` | src/ring.rs:710-781 | granted exactly when the space is free behind the real tail; refused or retried by policy |
| `RingBuffers.RingBuffer.WriteEob` | src/ring.rs:784-803 | four header bytes are stored and no unread frame changes |
| `RingBuffers.RingBuffer.Reserve` | src/ring.rs:609-676 | the slot and new head of a grant, the filler written, unread frames kept, both directions of the grant condition |
| `RingBuffers.RingBuffer.Publish` | src/ring.rs:678-703 | what was written joins the contents, at the end |
| `RingBuffers.RingBuffer.Log` | src/macros.rs:79-97 | reserve, write, publish: the record is appended exactly when space was granted, otherwise the contents are unchanged |
| `RingBuffers.RingBuffer.DrainLoop` | src/drain.rs:759-869 | the loop delivers exactly the records framed between tail and head and stops exactly at the head |
| `RingBuffers.RingBuffer.DrainRing` | src/drain.rs:702-869 | the ring is emptied into the sink, in order, and tail, cached head and head meet |
| `RingBuffers.RingBuffer.ResetForReuse` | src/ring.rs:476-495 | a rewound ring is valid, live and empty |
| `RingSync.Registry.Register` | src/thread_buf.rs:262-280 | a fresh serial, and the ring added unless present, so the registry keeps no duplicates |
| `RingSync.Drain.Reconcile` | src/drain.rs:408-425 | the in-place walk with swap-remove keeps exactly the registered and kept entries, with current serials |
| `RingSync.Drain.AddNew` | src/drain.rs:427-435 | registered, kept and unlisted rings are appended, once each |
| `RingSync.Drain.SyncRings` | src/drain.rs:370-439 | what registry, local list and finalize list hold after a sync, for any five answers to "is it kept" |
| `RingSync.ForgottenExactlyWhen` | src/drain.rs:389-439 | a sync forgets a registered ring if and only if its flag is cleared between the finalize filter and the list update |
| `RingSync.LossWitness` | src/drain.rs:389-439 | a concrete sync that forgets a ring |
| `RingSync.FixedKeepSync` | src/drain.rs:370-462 | with fixed answers, list and registry end equal and without duplicates; a registered ring is kept in both or finalized once and in neither; a ring that was only listed leaves the list and is finalized exactly if it is not kept (a kept one of that kind would be in no list, which `LoggerSafety.RingOk` rules out in every run) |
| `LoggerSystem.DeliveredTag` | src/drain.rs:619-644 | a drain pass adds the ring's unread records to what the sink has from that ring, and nothing to any other |
| `LoggerSafety.StepKeepsInv` | src/drain.rs:286-604 | every step of any thread, the drain or the guard keeps the system invariant |
| `LoggerSafety.NothingLost` | src/drain.rs:370-604 | in every run, for any number of producers, delivered then unread records equal the published ones ring by ring, and before the mark a ring with unread records is in the registry, the drain's list or the rings being closed |
| `LoggerSafety.ShutdownDelivers` | src/guard.rs:39-62 | when the drain has ended, every record published before the guard's mark, on rings synced or never synced, has been delivered, in order and once |
| `ThreadOrder.ThreadOrderKept` | src/thread_buf.rs:297-311 | under Drop and Block, in every run, before and after the mark and after the thread's exit: what the sink has from a thread's ring, then what is unread there, is what the thread logged, in its own order |
| `ThreadOrder.WritersStayApart` | src/thread_buf.rs:262-280 | under Drop and Block no two threads ever log to the same ring, before or after the mark |
| `DrainCycle.TurnDelivers` | src/drain.rs:303-329 | while the guard is up, one turn of the drain with a sync delivers on every ring every record published before the turn began, whatever the threads do meanwhile |
| `Retirement.TurnRetires` | src/drain.rs:568-604 | every registered segment that was handed off when a whole turn began has, at some moment of the turn, left the registry and the drain's list, and is a spare again if it is the pool's, whatever the threads do meanwhile |
| `Retirement.TurnCloses` | src/drain.rs:370-462 | the same for every registered or listed ring whose thread had exited |
| `Retirement.AtWorkStaysRegistered` | src/drain.rs:370-604 | no step takes a live ring that was not handed off out of the registry |
| `Retirement.TurnKeeps` | src/drain.rs:370-604 | a ring at work throughout a whole turn is registered and in the drain's list when it ends |
| `Retirement.ThreadStepsMarkRings` | src/thread_buf.rs:297-346 | logging appends to what is unread and published, handing off and exiting mark the ring as what `TurnRetires` and `TurnCloses` take out, and nobody holds it then |
| `Retirement.TakenFromTheTop` | src/segments.rs:262-266 | in every run a thread takes the spare returned last, rewound and its own, or else a new ring |
| `Retirement.ReturnedToTheTop` | src/segments.rs:268-273 | a segment comes back on top of the spares, once |
| `Retirement.SerialsTellApart` | src/thread_buf.rs:262-280 | in every run no two registered rings have the same serial, and the next one is higher than all |
| `Retirement.RegistrationTakesNext` | src/thread_buf.rs:262-280 | every registration takes the next serial |
| `Retirement.SegmentComesRound` | src/segments.rs:262-283 | a run in which the only segment of a pool is filled, handed off, drained, returned and taken again |
| `DrainEnds.TurnMakesProgress` | src/drain.rs:370-604 | in every state of every run, before and after the guard: within a turn every drain step lowers a well-founded measure and no thread step changes it |
| `DrainEnds.ShutdownMakesProgress` | src/guard.rs:53-57 | after the guard's signal every drain step, the loop's top included, lowers a well-founded measure that nothing else changes, so the drain ends and the join returns |
| `DrainEnds.DrainNeverStuck` | src/drain.rs:303-355 | in every state of every run some drain step is possible until the drain has ended |
| `KeepRace.TornSyncLosesIff` | src/drain.rs:389-439 | whatever the threads do while a sync scans, it loses a registered ring if and only if the ring's flag was set for the finalize filter and clear for the list update |
| `KeepRace.LostForGood` | src/drain.rs:370-604 | once lost, a ring's unread records are in no later sink of any run, torn syncs included |
| `KeepRace.LosingRun` | src/thread_buf.rs:55-72 | a concrete run that ends with a published record lost |
| `KeepRace.NeverDelivered` | src/drain.rs:389-439 | however that run goes on, the record never reaches the sink |
| `LoggerSafety.PoolPartition` | src/segments.rs:262-283 | in bounded-pool runs every segment is in exactly one of: spares, one thread's use, handed off and registered, left by an exited thread, being closed |
| `LoggerSafety.RewindLosesNothing` | src/segments.rs:262-283 | a segment is rewound only when everything ever published on it has been delivered |
| `LoggerSafety.OneWriterPerRing` | src/thread_buf.rs:312-346 | no two threads use the same ring |
| `Wire.FixedRoundTrip` | src/encode.rs:142-229 | every fixed-width value is its own encoding decoded, with the size the table gives |
| `Wire.TagCodes` | src/encode.rs:15-66 | the twelve type tags and the widths behind them, number by number |
| `Wire.PayloadIs` | src/encode.rs:123-262 | numbers in two's complement, a bool as one or nought, a string behind its length |
| `Wire.BoolsRead` | src/drain.rs:231-233 | any byte but nought reads as true |
| `Wire.LeBytesCons` | src/encode.rs:5-7 | words are stored lowest byte first |
| `Wire.ArgRoundTrip` | src/drain.rs:1228-1248 | every value is read back whole and the cursor stops right behind it |
| `Wire.ArgsRoundTrip` | src/encode.rs:123-140 | a whole argument list is read back, in order, to its last byte |
| `Wire.PackedBytes` | src/record.rs:145-154 | the shifted and or-ed header word has every field at its documented byte |
| `Wire.FixedDecodes` | src/drain.rs:993-1093 | whatever follows the fixed part, level, flags, timestamp and site come back exactly |
| `Wire.FixedFrames` | src/record.rs:127-154 | the assembled record passes the drain's frame check: its u16 size is its length |
| `Wire.FixedIs` | src/record.rs:126-168 | the fixed part byte by byte: version 2, type 1, size, level, flags, pad, timestamp, the site if the lowest flag bit is set, the count |
| `Wire.LevelCodes` | src/level.rs:6-56 | levels 1 to 5, and any other code read as an error |
| `Wire.FlagBits` | src/record.rs:58-67 | each flag is its own bit |
| `Wire.OldRecordsDecode` | src/drain.rs:1012-1093 | a record with any of the five sections, older ones included, is read as its layout says |
| `Wire.ShortReads` | src/drain.rs:993-1093 | a word cut off reads as nought and takes nothing, a string cut off gives what there is |
| `Wire.RoundTrip` | src/record.rs:117-174 | up to 255 arguments and 65535 bytes: every field and value comes back and the cursor ends at the record's end |
| `Wire.RoundTripIff` | src/macros.rs:196-226 | for any number of arguments, the arguments come back if and only if there are at most 255; the fixed fields always do |
| `ManyArgs.TagsOverwrite` | src/encode.rs:131-139 | tags written beyond the room for them replace the payload bytes there |
| `ManyArgs.LongCallPanicsDrain` | src/macros.rs:196-226 | a validated call with an empty string, a number and 256 more empty strings, or a larger multiple within its string length, is framed and published, and rendering it panics the drain |
| `ManyArgs.LongCallExists` | src/macros.rs:196-226 | such a call exists: 258 arguments in 549 bytes |
| `Wire.AssembledIsWire` | src/record.rs:137-173 | up to 255 arguments every byte of the slot is overwritten: nothing of its old contents shows |
| `Wire.AssembledFrames` | src/record.rs:137-173 | with any number of arguments the header survives and the record stays framed |
| `Wire.WriteArgs` | src/encode.rs:131-139 | the two cursors write tags and payloads as specified store by store, also when they overlap |
| `Wire.Assemble` | src/record.rs:117-174 | the slot ends up as the header, site, count and argument stores leave it, which `AssembledIsWire` identifies with the layout |
| `Wire.Encode` | src/macros.rs:39-97 | a record is dropped exactly when it exceeds 65535 bytes; otherwise it is framed and, up to 255 arguments, has the documented layout |
| `Wire.Cursor.ReadRecord` | src/drain.rs:993-1093 | on any bytes, header, flagged sections, count and tags as laid out, clamped at the record's end, the cursor left at the payloads |
| `Wire.Cursor.ReadArg` | src/drain.rs:1228-1248 | one argument, or an unknown tag with the cursor untouched, or the panic on a short payload |
| `Calendar.CivilIsValid` | src/timestamp.rs:311-340 | every day number gives a real date |
| `Calendar.CivilSteps` | src/timestamp.rs:311-340 | day d+1 is the calendar day after day d, over month ends, leap days and era boundaries |
| `Calendar.CivilIsTheCalendar` | src/timestamp.rs:311-340 | the date of day a+n is reached from that of day a by walking the calendar n days |
| `Calendar.EpochIsDayZero` | src/timestamp.rs:304-305 | day zero is 1970-01-01 |
| `Calendar.CivilRoundTrip` | src/timestamp.rs:311-340 | day numbers and valid dates correspond one to one, both ways |
| `Calendar.CivilOrder` | src/timestamp.rs:311-340 | dates sort as day numbers and are equal only for equal days |
| `Iso8601.TimeRoundTrip` | src/timestamp.rs:343-350 | the time of day is valid and gives back the nanoseconds |
| `Iso8601.LocalNsWraps` | src/timestamp.rs:363-364 | the cast and the wrapping addition are the plain sum below the i64 limit and 2^64 less beyond it |
| `Iso8601.YearHasFourDigits` | src/timestamp.rs:366-370 | every i64 local time falls in a year of four digits |
| `Iso8601.EveryTextIsShaped` | src/timestamp.rs:361-437 | every text is a date-time of section 5.6 of RFC 3339, byte by byte: dashes, the T, colons, the point, digits elsewhere, then Z or a sign and hh:mm |
| `Iso8601.EpochText` | src/timestamp.rs:361-437 | the text of the epoch, letter by letter |
| `Iso8601.TextsSortAsInstants` | src/timestamp.rs:361-437 | for one offset, texts sort as their instants if and only if both lie on the same side of the i64 limit |
| `Iso8601.TextParsesBack` | src/timestamp.rs:361-437 | the text is 30 or 35 bytes and reads back as its instant if and only if the offset is whole minutes and the local time fits |
| `Iso8601.TextReadsBackAs` | src/timestamp.rs:361-437 | what any text reads back as: the local time less the offset cut to minutes |
| `Iso8601.OddOffsetMisreads` | src/builder.rs:186-188 | at an accepted offset of 90 seconds the text of the epoch reads back as another instant |
| `Iso8601.LimitMissorts` | src/timestamp.rs:363-368 | two instants, one past the i64 limit, whose texts sort the wrong way round |
| `Iso8601.PushDigits` | src/timestamp.rs:380-396 | the backward digit loop appends exactly the zero-padded number |
| `Iso8601.FormatIso8601` | src/timestamp.rs:361-437 | the text of the instant's local reading is appended |
| `FormatSpecs.ReadersAgree` | src/format.rs:421-504 | in front of any body without closing brace the compile-time reader answers as the run-time reader, error for error, and stops behind the brace |
| `FormatSpecs.AcceptedIffPrinted` | src/format.rs:242-323 | a body is accepted if and only if it is the printed form of a canonical spec, and then of one only |
| `FormatSpecs.FirstFault` | src/format.rs:242-323 | the verdict on any body, from the parts it is made of: the first of bad fill, point without digits, sign, bad letter, trailing bytes, or none |
| `FormatSpecs.ScanIsGreedy` | src/format.rs:242-323 | what a reader leaves over continues none of the parts before it |
| `FormatSpecs.MeaningIs` | src/format.rs:559-632 | every field of a canonical spec is what is written there, byte by byte, numbers held at 65535 |
| `FormatSpecs.PrintInvertsScan` | src/format.rs:559-632 | reading any body loses no byte: parts printed, then the rest, are the body |
| `FormatSpecs.BodyInvertsPrint` | src/format.rs:559-632 | the extracting reader gives a canonical spec's meaning back |
| `Decimal.NumberIs` | src/format.rs:595-602 | numerals are read in base ten |
| `FormatSpecs.FoldDigits` | src/format.rs:595-602 | the saturating digit fold is the number, held at 65535 |
| `FormatSpecs.ParseSpecConst` | src/format.rs:421-504 | run inside a longer string, it stops where the grammar's spec ends, or gives the grammar's first error; `ReadersAgree` ties that to the run-time reader |
| `FormatSpecs.ValidateSpecRt` | src/format.rs:242-323 | accepts exactly the bodies of `AcceptedIffPrinted`, and otherwise names the first fault |
| `FormatSpecs.ParseSpecBody` | src/format.rs:559-632 | on any input, valid or not, the fields are the meaning of the parts that `PrintInvertsScan` shows to make up the body |
| `FormatStrings.WalkersAgree` | src/drain.rs:1168-1224 | on every accepted format string the drain's walker sees the validator's items |
| `FormatStrings.PlaceEndsAtBrace` | src/format.rs:343-381 | a placeholder accepted by the validator ends at the first closing brace, where the walker ends it |
| `FormatStrings.ValidateInvertsPrint` | src/format.rs:331-396 | every list of well-formed items, printed with doubled braces, is accepted as those items |
| `FormatStrings.PrintInvertsValidate` | src/format.rs:331-396 | every accepted string is the printed form of well-formed items |
| `FormatStrings.FirstBadItem` | src/format.rs:331-396 | behind well-formed items the error is that of what follows |
| `FormatStrings.PlaceFaults` | src/format.rs:343-381 | a name of digits is a position, and otherwise the fault of the spec is the placeholder's |
| `FormatStrings.SpecFaults` | src/format.rs:343-381 | which error a bad or unclosed spec gives |
| `FormatStrings.EndlessName` | src/format.rs:343-381 | which error a name without end gives |
| `FormatStrings.BrokenStrings` | src/drain.rs:1168-1224 | a lone closing brace and an unclosed placeholder, as the validator and as the walker treat them |
| `FormatStrings.PlaceholderSpec` | src/format.rs:538-557 | a placeholder with any name and any canonical spec is read as that spec, field by field |
| `FormatStrings.ContentSpecIsAskedFor` | src/format.rs:538-557 | every placeholder of an accepted string is read as what its author asks for, the plain spec if there is no colon |
| `FormatStrings.FillReports` | src/drain.rs:1168-1224 | for any number of arguments and any tags behind them: arguments shown once and in order under the specs asked for, unknown tags reported, missing arguments said to be missing, and what stays unread |
| `FormatStrings.FillShowsAll` | src/drain.rs:1194-1204 | with as many arguments as placeholders each argument is shown once, in order, under the spec its placeholder asks for, none missing |
| `FormatStrings.LineIsFaithful` | src/drain.rs:993-1027 | end to end: a record of a validated call is rendered as the items of the format string at the site it carries, with the call's arguments, and read to its last byte |
| `FormatStrings.NoSiteNoMessage` | src/drain.rs:1012-1027 | a record without a site renders an empty message and leaves its arguments unread |
| `FormatStrings.ValidateFmt` | src/format.rs:331-396 | the placeholder count, or the first error |
| `FormatStrings.Interleave` | src/drain.rs:1168-1224 | for any string and any tags: every literal, escape, shown argument, missing argument, unknown tag and stray brace in order, the payload left, and the panic on a short payload |
| `Lines.DrawIsLine` | src/drain.rs:1115-1164 | with one message field at most, the line is the pattern with every field and the message in place, and the argument cursor is moved by that field alone |
| `Lines.DrawReads` | src/drain.rs:1115-1164 | any line that is drawn, from any record, comes apart into what each segment shows: timestamp, level, file, line, thread name and id each at its own field with the spec there, nothing where a place is unknown, and nothing else |
| `Lines.LineReads` | src/drain.rs:1115-1164 | the same for the expected line, with the message at its field |
| `Lines.SecondMessageCrashes` | src/drain.rs:1158-1160 | a second message field would read past the arguments and panic, for any call whose first argument has a fixed width |
| `Lines.WholeLine` | src/drain.rs:1115-1164 | for every accepted pattern and checked call the whole line is as the pattern says, the message the call's own, the arguments walked once if the message is shown and not at all otherwise |
| `Lines.RenderPattern` | src/drain.rs:1115-1164 | for any segments, record and cursor: the pieces of the line in order, the payload left, and the panic |
| `Lines.CheckedLine` | src/drain.rs:981-1109 | the record of a checked call under an accepted pattern gives the line from which the call's own level, file, line and message and the ring's thread are read back field by field, without a panic |
| `Lines.OldLine` | src/drain.rs:1012-1093 | what an older record shows: its source section before the site's, an unreadable name as `<file>`, its own thread, the ring's name if it carries none that can be read |
| `Lines.DecodeAndFormat` | src/drain.rs:981-1109 | on any record bytes, legacy sections included: the timestamp text, the line the pattern draws from the decoded fields, or the panic |
| `Templates.ParseInvertsPrint` | src/format.rs:128-236 | parsing a printed pattern gives it back, literals unmerged |
| `Templates.AcceptedIsPrinted` | src/format.rs:128-236 | every accepted pattern string is the printed form of a good pattern |
| `Templates.HoleSpec` | src/format.rs:191-206 | a field's spec is the one written there, or the plain one |
| `Templates.FirstBadPiece` | src/format.rs:128-236 | behind a good pattern the error is that of what follows |
| `Templates.NameFaults` | src/format.rs:155-189 | which error each bad name gives, in the order they are found |
| `Templates.NameFaultsReported` | src/format.rs:155-189 | the parser reports it |
| `Templates.EndlessPieces` | src/format.rs:150-218 | unclosed names and specs, and lone closing braces |
| `Templates.SpecFault` | src/format.rs:191-203 | the fault of a spec is the pattern's |
| `Templates.AtMostOneMessage` | src/format.rs:177-185 | an accepted pattern has at most one message field, and none if one was seen before |
| `Templates.ParseTemplate` | src/format.rs:128-236 | the segments, spread out into single literals, are the pattern of `ParseInvertsPrint`, or the first error is given |
| `Rtrb.ByteRing.WriteChunk` | src/rtrb_backend.rs:336-348 | a chunk written in two slices is appended |
| `Rtrb.ByteRing.PopAvailable` | src/rtrb_backend.rs:140-176 | everything readable is moved out, oldest first |
| `Rtrb.CommitAppends` | src/rtrb_backend.rs:325-375 | on the direct, batched and flushing path alike a commit appends to the stream, and after a successful reserve it fits |
| `Rtrb.CommitMoves` | src/rtrb_backend.rs:325-375 | a record that leaves its batch short is staged and moves nothing; one that fills it takes the whole batch to the ring |
| `Rtrb.BatchMoves` | src/rtrb_backend.rs:325-504 | in every run, with the chunk size changing at any time: what is staged is the last records committed, fewer than a chunk after each commit, and whole batches move |
| `Rtrb.WholeBatches` | src/rtrb_backend.rs:325-504 | with a fixed chunk size n, exactly the last committed mod n records are staged and all others are in the ring or popped |
| `Rtrb.RingProducer.Reserve` | src/rtrb_backend.rs:271-306 | one turn: room is granted exactly when ring, staging and record together stay below the capacity; otherwise Drop refuses and the other policies ask again while live |
| `Rtrb.RingProducer.Commit` | src/rtrb_backend.rs:325-375 | ring and staging afterwards, on every path |
| `Rtrb.RingProducer.WriteRecord` | src/rtrb_backend.rs:393-504 | in place, through the scratch buffer or staged, the outcome is that of `commit` |
| `Rtrb.RingProducer.SetChunkSize` | src/rtrb_backend.rs:256-260 | only the chunk size changes, and not to zero |
| `Rtrb.ParseWhole` | src/drain.rs:907-969 | a stream of whole records parses into them with nothing left over |
| `Rtrb.ParseCases` | src/drain.rs:907-969 | fillers stepped over, incomplete frames kept, other bytes skipped one by one, in literal codes |
| `Rtrb.ResyncMisses` | src/drain.rs:907-930 | for any stray byte in front of any record: what the loop does instead of finding the record |
| `Rtrb.DrainFifo` | src/drain.rs:882-970 | on any bytes: the whole records in order, the incomplete tail kept, corrupt bytes skipped one by one, and the loop that a zero-sized filler would never leave |
| `Rtrb.StreamConserved` | src/rtrb_backend.rs:271-504 | in every run, with the chunk size changing at any time, popped, ring and staged bytes are the committed records, and every flush finds room |
| `Rtrb.PassesLoseNothing` | src/drain.rs:453-503 | in every run a pass never hangs and uses up all it popped, so clearing the staging buffer loses nothing |

## Left out

- Pool exhaustion under the bounded pool (the producer formatting its own segment, `src/segments.rs:231-257`, `src/segments.rs:302-319`): handoffs of the model find a spare.
- Records published after the guard's mark, and producers of the bounded pool still running then.
- Record order across the segments of one thread: swap-removal may put a newer segment first.
- Weak memory order: steps are sequentially consistent. Raw pointers, alignment and allocation.
- `watermark-head`, the r3 arena and the thin wrappers over other queue crates.
- Positions reach at most 2^64 - 1: the drain compares them without wrapping, and so does the model (`BeginStep`, `Reserve`).
- The system model works on values: `poll_once`, `maybe_retire`, the segment pool and `Guard::drop` are steps of a state machine, not methods. A drain pass over one ring is one step there, which `RingRefinement` justifies. Helper reservations, which only the exhausted pool uses, are not part of `keep`.
- RingBuffers.RingBuffer.TryEnsureCapacity: one turn of the blocking loop; waiting is the caller asking again, and where that leads is proved on interleaved runs, in `Waiting`.
- Rtrb.RingProducer.Reserve: one turn of its loop, likewise; the rtrb crate is modelled by what its chunks promise, as its source is not part of this model.
- Staged records of the chunked backend at thread exit: nothing flushes them, and nothing is claimed.
- How a value is formatted under its spec, padding, tick calibration, sinks, colours, files, affinity and error texts. Floats are carried as bits and strings as bytes.
- Following a site's address is a table lookup (`FormatStrings.Sites`), the text behind a legacy section's file address and the UTF-8 test are parameters (`Lines.Surroundings`), and the tick calibration is a function (`Lines.DecodeAndFormat`).
- Handoff.ReserveWithPolicy: a spare of the bounded pool is a new object of the same shape there, not the old one rewound (`RingBuffers.RingBuffer.ResetForReuse`); the exhausted pool and the registration of the next segment are not part of the method.
- Calendar.CivilSteps: over unbounded integers; the i32 year is exact on every i64 instant, by `Iso8601.YearHasFourDigits`.
- 64-bit overflow of argument sizes: sizes are unbounded, as no address space holds arguments that would overflow.
