# Verified model of `wiring`

`wiring` serialises Rust values onto byte streams and lets channels travel inside the values: a
channel becomes a numbered stream, multiplexed with all others over one connection.  This project
models its four core parts and proves what they are for.

**The stream multiplexer** (`wiring/src/core/wired.rs`).  `WiredSystem` is the global state of two
endpoints: per end a writer task with its map of outgoing queues, a reader task, a helper task with
its map of incoming queues, two internal FIFO queues, and one direction of the wire.  Steps
interleave freely; the two sends of `poll_flush` are separate steps, so are the wire and helper
halves of a removal, and an event is encoded one channel at a time.  `WiredStream` is what a single
stream sees of this, with an inductive invariant over both ends; `WiredProjection` proves that the
system seen through one stream moves exactly like that (isolation), `WiredSafety` draws the
conclusions for every reachable state, `WiredTermination` proves that closing drains, and
`WiredHistory` restates what matters to the users in terms of the steps they took alone.
`WiredTasks` and `WiredReads` are the objects themselves, with their maps, counters, buffers and
queues updated in place, proved to carry out the steps of the system.

**The codec and its fast paths** (`unwire.rs`, `wire.rs`).  `WireTypes` is a universe of types with
the constants `FIXED_SIZE` and `MIXED` that encoder and decoder attach to each, which differ.
`Codec` is the plain encoding, and `WireBytes` says byte by byte where what stands.  `Reader` holds the checked slice reader, the unchecked
`UnsafeReader`, the `bytes_length` pre-scan in u64 arithmetic and the guarded slots of partially
decoded vectors and arrays.  An unchecked read outside the buffer is recorded as straying, and
`FastReader` and `LaterReads` prove exactly when none happens.  `Capacity` is what the allocator adds
to this: `reserve_exact` ends the run before the elements of too long a vector are read.  `Writer` holds the growing buffer, the single
reservation and the raw copies of `Unchecked`, each of which must be proved to stay within the
allocation; `RawCopies` and `Containment` prove exactly for which slices and types it does.
`ConcatArray` writes values into byte slices.

**The derive macro** (`wiring-derive/src/lib.rs`).  `Derive` is the pass over the fields with its
countdown and pending calls, proved equal to a plan of spans; `DeriveRuns`, `DeriveMeaning` and
`DeriveAsync` give the emitted statements a meaning and compare it with the field-by-field encoding.

**Events, frames and headers.**  `Events` writes channels as stream ids inline and reads them back,
frame by frame; `WiredEvents` ties that to the steps of the system.  `Headers` are the four ways to
start a connection (`wire.rs`, `listener.rs`).

## Where the code does less than it promises

Several laws do not hold for every type the code accepts.  Each comes with the condition under which
it holds, both directions proved, and with a concrete input on which it fails.

- An enum with a `u8` tag may have up to 65535 variants, because the check compares with
  `u16::MAX`; the default `u16` is not checked at all.  Values come back exactly if all tags
  can number their variants (`RoundTripExactlyWhenTagsFit`, `OverfullTagExample`, `TagFitsExactlyWhen`).
- Any nonzero byte is `true`, so decoding is canonical exactly without `bool`
  (`CanonicalExactlyWhenBoolFree`, `TrueHasManyEncodings`).
- Floats are not `MIXED` for the decoder but have `FIXED_SIZE` 0, and a tuple is `MIXED` only if
  all of its fields are.  Vectors of such types are scanned too short, and the fast reader then
  relies on bytes the scan did not cover (`ScanExactlyWhenScannable`, `RefinesExactlyWhenScannable`,
  `FloatVecIsScannedShort`).
- The products of the scan wrap around in release builds.  A vector whose elements need no memory
  may have any length, so 2^63 pairs of units are counted as none, the guard passes with nothing
  but the length in the buffer, and the first read leaves it (`WrappedCountStrays`).  Values that
  are returned are right all the same (`FreshReaderAgrees`).  No read leaves the buffer exactly for
  scannable types of which no product wraps around for any vector that can be allocated
  (`RefinesExactlyWhenScannable`).  In an address space of 2^63 bytes that concerns elements
  without a size, and never those that occupy at least half of the bytes counted for them
  (`WrapsWithoutSize`).
- The pre-scan always starts at the front of the buffer.  So a second value is refused if it is
  shorter than the first (`SecondUnwireExactlyWhen`, `SecondUnwireFails`), and where other bytes
  follow, a second read may leave the buffer although the first one was fine
  (`SecondUnwireStrays`).  Reads at every position of every buffer stay inside exactly for types
  whose values are all equally long and of which no product wraps around
  (`StaysInsideExactlyWhenSteady`, `SteadyExactlyWhenEquallyLong`).  They also return the right
  values exactly if no tag has an unused number, as such a tag at the front stops every later read
  (`RefinesAnywhereExactlyWhen`, `UnusedTagExample`).
- A pair counts as `MIXED` only if its first field does, for the encoder, so the one reservation
  for a slice may be too small and a raw copy end outside the allocation (`PairOverrun`).  All raw
  copies of all slices stay inside exactly for types whose values take `FIXED_SIZE` bytes and for
  types that make no raw copy (`SliceFitsExactlyWhen`, `ContainedExactlyWhenReservable`).
- `concat_array` writes a unit struct as 1 although its encoding is 0, and skips `()` and variants
  with data (`ExactExactlyWhenEligible`, `MeaningKeptExactlyWhenEligible`, `GroupedUnitStruct`).
- The async forms of a fixed group put a length in front of it (`TwoGroupedBytes`).  Where the
  grouped types are eligible, they write the plain encoding exactly if there is no group
  (`AsyncExactlyWhenUngrouped`).  For all accepted placements they write it, whatever the values,
  exactly if no group has a size, groups hold nothing but units, and the eight zeros for each come
  out where the zeros of the fields should, as for eight units (`AsyncExactlyWhenLengthsLand`,
  `EightGroupedUnits`).
- A read half never fetches a message after the first one that is not empty, so all bytes can be
  read exactly if at most one message is not empty (`OnlyOneMessageIsRead`,
  `AllCanBeReadExactlyWhen`, `SecondMessageIsLost`).  "Delivered" below means handed over by the helper task.

## Model

| member | source | states |
|---|---|---|
| `WiredSafety.DeliveredIsPrefixOfFlushed` | wiring/src/core/wired.rs:273-311 | in every reachable state, what the helper handed to a read half is a prefix of what was flushed on the peer's write half of the same stream: in order, not duplicated, not from another stream of the same number |
| `WiredSafety.MapsAgreeWhenQuiet` | wiring/src/core/wired.rs:899-923 | with all queues and wires empty, a stream is in all four maps or in none, whatever drops were interleaved |
| `WiredHistory.GoneExactlyWhenClosed` | wiring/src/core/wired.rs:502-514 | once a run has drained, an opened stream is in all four maps if the run has no shutdown or drop of a half of it at either end, and in none otherwise |
| `WiredHistory.DroppedHalfIsGone` | wiring/src/core/wired.rs:502-514 | a stream with a dropped half is in none of the four maps of a quiet system |
| `WiredSafety.DroppedStreamsLeaveNoEntry` | wiring/src/core/wired.rs:502-514 | the same as the first, by what the ends have recorded |
| `WiredHistory.UserStepsExactlyWhen` | wiring/src/core/wired.rs:273-328 | which steps the users can take, from the steps before: a known write half can be used until it is dropped, except in the middle of a flush, which can then be completed, and a known read half can be dropped once |
| `WiredHistory.DeliveredIsPrefixOfWritten` | wiring/src/core/wired.rs:273-311 | what was handed over is a prefix of the messages in the peer's flush steps |
| `WiredHistory.OpenStreamDeliversAll` | wiring/src/core/wired.rs:925-941 | once a run has drained, all messages flushed in it were handed over, if nobody closed the stream and no flush is half done |
| `WiredHistory.MessageGetsThrough` | wiring/src/core/wired.rs:273-311 | from every reachable state in which a write half of an open stream can be used, a message flushed there is handed over at the other end, behind those before it, by steps of the tasks alone |
| `WiredHistory.EveryChannelIsAStream` | wiring/src/core/wired.rs:889-894 | once a run has drained, the streams opened are as many as the events sent had channels, and the peer has accepted exactly these |
| `WiredSafety.TokensPairWithData` | wiring/src/core/wired.rs:286-308 | queued data of a live stream is one item per pending token, plus one in the middle of a flush, and continues what was sent |
| `WiredSafety.TokenFindsMessage` | wiring/src/core/wired.rs:925-928 | the `try_recv` for a token always finds a message |
| `WiredSafety.AbsentMeansClosed` | wiring/src/core/wired.rs:895-928 | an event about a stream without an entry, at the writer or the helper, is about one that had an entry and lost it: registration precedes use |
| `WiredSafety.WriteHalvesAreFresh` | wiring/src/core/wired.rs:895-898 | inserting a registered write half never overwrites an entry nor revives a closed one |
| `WiredSafety.ReadHalvesAreFresh` | wiring/src/core/wired.rs:1011-1014 | neither does inserting a read half in the helper's map |
| `WiredSafety.NewIdsAreFresh` | wiring/src/core/wired.rs:157-176 | the next id is new in every map, queue and wire of both ends |
| `WiredSafety.AtMostOneDrop` | wiring/src/core/wired.rs:899-915 | over any run, at most one Drop frame per stream and direction |
| `WiredSafety.DropFollowsFlushed` | wiring/src/core/wired.rs:899-941 | exactly the messages flushed before the first local drop precede the Drop frame |
| `WiredSafety.NothingFlushedIsLost` | wiring/src/core/wired.rs:1001-1022 | if the peer did not drop the stream, all of them were handed over when its helper entry goes |
| `WiredSafety.QuietDeliversAll` | wiring/src/core/wired.rs:925-941 | once quiet, a stream that nobody dropped has delivered every flushed message |
| `WiredSafety.StepKeeps` | wiring/src/core/wired.rs:882-1041 | every step of any party at either end keeps the invariant of every stream |
| `WiredProjection.MoveFollows` | wiring/src/core/wired.rs:882-944 | a step seen through one stream is a step of that stream alone or nothing: other streams do not interfere |
| `WiredProjection.ReceiveFollows` | wiring/src/core/wired.rs:953-990 | the same for a frame taken off the wire |
| `WiredTermination.TaskStepDecreases` | wiring/src/core/wired.rs:899-923 | every step not taken by a user decreases a weight over queued events and frames, from any state |
| `WiredTermination.TaskRunsAreBounded` | wiring/src/core/wired.rs:1015-1032 | so a run without user steps is no longer than that weight: drops do not ping-pong |
| `WiredTermination.QuietIffNoTaskStep` | wiring/src/core/wired.rs:882-1041 | the tasks are stuck exactly when everything is drained |
| `WiredTermination.TasksDrain` | wiring/src/core/wired.rs:975-983 | from every reachable state they drain, and the four maps then agree |
| `WiredTasks.Channel.Send` | wiring/src/core/wired.rs:296-301 | sending appends the message, or fails and queues nothing, exactly when the receiver is gone |
| `WiredTasks.Wired.Connect` | wiring/src/core/wired.rs:157-198 | increments the counter, inserts a new receiver under the new local key, registers the read half and writes the id |
| `WiredTasks.Wired.Handle` | wiring/src/core/wired.rs:882-944 | an event takes maps, queues and wire to exactly the state of the system's steps for it |
| `WiredTasks.Wired.WireEvent` | wiring/src/core/wired.rs:889-894 | writing an event with n channels raises the counter by n, writes the event and the next n ids, inserts exactly their keys and registers their read halves, in order |
| `WiredTasks.EventOpens` | wiring/src/core/wired.rs:157-198 | an event with n channels puts itself and the next n ids on the wire, and opens and registers exactly those streams, in order |
| `WiredTasks.Wired.RemoveStream` | wiring/src/core/wired.rs:899-923 | removes the entry and kills its receiver, tells the wire if asked to, and always the helper, but only if there was an entry |
| `WiredTasks.Wired.ForwardMessage` | wiring/src/core/wired.rs:925-941 | takes the oldest queued message and writes it with the flag flipped, or does nothing without an entry or a message |
| `WiredTasks.Unwired.Connect` | wiring/src/core/wired.rs:92-130 | registers both halves of a stream the peer opened, under the flipped flag |
| `WiredTasks.Unwired.Handle` | wiring/src/core/wired.rs:953-990 | passes a frame on to the helper as the system's step does |
| `WiredTasks.Helper.Handle` | wiring/src/core/wired.rs:1001-1032 | delivers to, registers and removes exactly the stream named |
| `WiredTasks.Helper.RemoveStream` | wiring/src/core/wired.rs:1015-1032 | removes the entry, ends its channel and tells the writer only for a drop from the wire |
| `WiredTasks.InternalWriteHalf.PollWrite` | wiring/src/core/wired.rs:329-336 | appends to the message under construction |
| `WiredTasks.InternalWriteHalf.PollFlush` | wiring/src/core/wired.rs:273-311 | takes the buffer and sends it, then its token; without a receiver it fails and sends no token |
| `WiredTasks.InternalWriteHalf.Close` | wiring/src/core/wired.rs:312-328 | queues a drop that is to be broadcast |
| `WiredReads.InternalReadHalf.PollRead` | wiring/src/core/wired.rs:472-491 | one read, as a function of buffer, position, queue and whether the sender is alive |
| `WiredReads.PollReturnsWhatFits` | wiring/src/core/wired.rs:472-491 | with a message at hand a read returns as many of its unread bytes as fit, and nothing exactly if it is used up; without one it waits, or returns nothing if the sender is gone |
| `WiredReads.ReadsReturnWhatFits` | wiring/src/core/wired.rs:479-489 | after the messages have arrived, any series of reads returns as much of the first one that is not empty as it has room for, after one read for each empty one before it |
| `WiredReads.OnlyOneMessageIsRead` | wiring/src/core/wired.rs:479-489 | any series of reads, with messages arriving in between, returns a prefix of the first message that is not empty |
| `WiredReads.AllCanBeReadExactlyWhen` | wiring/src/core/wired.rs:472-491 | everything handed over can be read by some series of reads exactly if at most one message is not empty |
| `WiredReads.SecondMessageIsLost` | wiring/src/core/wired.rs:472-491 | of two messages of one byte each the second is never read |
| `WiredEvents.LeafsOpen` | wiring/src/core/wired.rs:157-198 | encoding n channels gives out the next n ids, writes them and registers their keys, in order |
| `WiredEvents.AcceptsRegister` | wiring/src/core/wired.rs:92-130 | reading ids registers exactly those, both halves, in order, as opened by the peer |
| `WiredEvents.IdsAreNew` | wiring/src/core/wired.rs:157-176 | the ids given out are those right behind the last one, in order, so all distinct and larger than any before |
| `WiredEvents.EventOpensSameStreams` | wiring-derive/src/lib.rs:641-680 | taking an event with channels off its queue, writing it and reading its bytes yields the same event, the same consecutive ids in field order, and opposite flags at the two ends |
| `Events.EventRoundTrip` | wiring-derive/src/lib.rs:1239-1249 | an event of any nesting is read back with the ids its channels were given |
| `Events.FrameRoundTrip` | wiring/src/core/wired.rs:535-650 | every frame is read back as written and nothing behind it is touched |
| `Events.ConnectionRoundTrip` | wiring/src/core/wired.rs:953-983 | any sequence of frames is read back as written, with ids consecutive throughout |
| `EventCanonical.EventWasWritten` | wiring-derive/src/lib.rs:1239-1249 | what is read as an event of bool-free types has the type and as many ids as channels, and if the ids are consecutive the bytes are its encoding |
| `EventCanonical.FrameIsNumbered` | wiring/src/core/wired.rs:619-650 | the first byte of a frame is the number of its kind, and numbers above 2 are refused |
| `EventCanonical.FlagIsNonZero` | wiring/src/core/wired.rs:631-640 | any flag but 0 is read as local |
| `WireBytes.FrameBytes` | wiring/src/core/wired.rs:535-590 | the bytes of a message and of a drop of stream 5 |
| `WireBytes.EventBytes` | wiring/src/core/wired.rs:543-546 | the bytes of an event of a channel, a byte and another channel |
| `Codec.RoundTrip` | wiring/src/core/wire.rs:991-1012 | decoding an encoding with any bytes behind it gives the value and stops just behind it |
| `Codec.PrefixFree` | wiring/src/core/wire.rs:908-930 | no encoding of a type is a prefix of another one |
| `Codec.RoundTripExactlyWhenTagsFit` | wiring-derive/src/lib.rs:849-892 | a type the macros accept round-trips exactly if its reachable enums number their variants within their tags |
| `Codec.OverfullTagExample` | wiring-derive/src/lib.rs:857-859 | variant 256 of 257 under a u8 tag is read back as variant 0 |
| `WireBytes.IntegerBytes` | wiring/src/core/wire.rs:1718-1722 | byte i of an integer or float is its digit to the base 256, the most significant first |
| `WireBytes.IntegerRead` | wiring/src/core/unwire.rs:54-62 | what is read is the sum of the bytes by their place |
| `WireBytes.LengthBytes` | wiring/src/core/wire.rs:908-916 | so are the eight bytes of length in front of vectors and strings |
| `WireBytes.TagBytes` | wiring-derive/src/lib.rs:641-680 | and the number of a variant, in the width of its tag |
| `WireBytes.ScalarBytes` | wiring/src/core/wire.rs:1570-1622 | the bytes of 258 as a u16, of -2 as an i32, of 1.0 as an f32, of the booleans and the units |
| `WireBytes.OptionBytes` | wiring/src/core/wire.rs:2131-2170 | the bytes of a string of one letter, of a missing and of a present value |
| `WireBytes.CompoundBytes` | wiring/src/core/wire.rs:908-930 | two bytes as a vector, an array, a pair and a struct |
| `WireBytes.VariantBytes` | wiring-derive/src/lib.rs:641-680 | two bytes as the second variant of an enum with a u16 tag |
| `Utf8.ValidExactlyWhenScalars` | wiring/src/core/unwire.rs:103-112 | a string is accepted exactly if it is the UTF-8 encoding of some Unicode scalar values |
| `MissingBytes.EofExactlyWhenBytesAreMissing` | wiring/src/core/unwire.rs:370-385 | decoding reports the end of the buffer exactly if some bytes behind it would have changed the result |
| `Derive.GetTag` | wiring-derive/src/lib.rs:849-892 | the loop computes the tag width or the panic: the last name wins, the default is u16 |
| `Derive.TagFitsExactlyWhen` | wiring-derive/src/lib.rs:855-868 | an accepted tag is wide enough unless it is u8 with more than 256 variants, or the default with more than 65536 |
| `Derive.TagExactlyWhen` | wiring-derive/src/lib.rs:849-892 | a tag is accepted exactly if all names are known and none is exceeded by the macro's count, and it has the bits of the last one, or the default width |
| `Canonical.DecodeIsCanonical` | wiring/src/core/unwire.rs:1393-1437 | without bool, the consumed bytes are the encoding of the result, which has the type |
| `Canonical.CanonicalExactlyWhenBoolFree` | wiring/src/core/unwire.rs:852-865 | among types that round-trip, canonical decoding holds exactly without a reachable bool |
| `Canonical.TrueHasManyEncodings` | wiring/src/core/unwire.rs:862-863 | 2 is read as true |
| `Canonical.NonZeroIsTrue` | wiring/src/core/unwire.rs:862-863 | so is every other byte but 0 |
| `Sets.SetRoundTrip` | wiring/src/core/wire.rs:2117-2129 | a set written in any iteration order is read back as the same set |
| `Sets.UnwiringSet` | wiring/src/core/unwire.rs:1268-1281 | the countdown loop inserts exactly the decoded elements and fails where one fails |
| `Sets.WiringSet` | wiring/src/core/wire.rs:2117-2129 | writes the size and the elements in the given order, if each element keeps its raw copies inside |
| `PreScan.RigidCovers` | wiring/src/core/unwire.rs:1230-1249 | skipping count times `FIXED_SIZE` ends where decoding so many values does, and with so many bytes there decoding does not run out, for rigid types |
| `PreScan.ScanReaches` | wiring/src/core/unwire.rs:492-499 | for scannable types the scan ends where decoding succeeds, on every slice of less than 2^64 bytes, wrap-around or not |
| `PreScan.ScanCovers` | wiring/src/core/unwire.rs:492-499 | if no product wraps around and the vectors can be allocated, decoding never runs out of bytes after a successful scan, also on bad data |
| `PreScan.ScanIsExact` | wiring/src/core/unwire.rs:1086-1099 | the scan of n encoded values in a slice of less than 2^64 bytes ends just behind them |
| `ScanLimits.SizeOfEncoding` | wiring/src/core/unwire.rs:963-964 | every encoding has at least `FIXED_SIZE` bytes, and exactly so many for rigid types only |
| `ScanLimits.UnscannableIsShort` | wiring/src/core/unwire.rs:1441-1469 | every type that is not scannable, or of which a product wraps around, has a value that can be allocated and is scanned too short |
| `ScanLimits.ScanExactlyWhenScannable` | wiring/src/core/unwire.rs:1230-1249 | the scan, in u64 arithmetic, measures every encoded value whose vectors can be allocated correctly exactly for scannable types of which no product wraps around |
| `ScanLimits.ScanCoversExactlyWhenScannable` | wiring/src/core/unwire.rs:223-240 | the scan covers the decoder on every buffer whose vectors can be allocated exactly for these types |
| `ScanLimits.FloatVecIsScannedShort` | wiring/src/core/unwire.rs:963-964 | a vector of one f32 decodes to 12 bytes but is scanned as 8 |
| `ScanLimits.ScanRefusesTagsOnly` | wiring/src/core/unwire.rs:1086-1099 | apart from tags the scan refuses no bytes, decodable or not |
| `ScanLimits.WrapsWithoutSize` | wiring/src/core/unwire.rs:558-559 | with an address space of 2^63 bytes, elements without a size wrap around exactly if two or more are counted for each, and elements that occupy at least half of what is counted never do |
| `ScanLimits.UnitPairsWrap` | wiring/src/core/unwire.rs:1138-1144 | the length 2^63 of a vector of `[(); 2]`, alone in the buffer, is scanned to its end although no element is there |
| `ScanLimits.UnitStructPairsWrap` | wiring/src/core/unwire.rs:1240-1243 | so it is for a vector of pairs of unit structs, which are skipped by their `FIXED_SIZE` |
| `Reader.Reader.ReadExact` | wiring/src/core/unwire.rs:316-330 | both forms return the bytes; behind the end of the buffer the checked form reports it and the unchecked one strays |
| `Reader.Reader.AdvancePosition` | wiring/src/core/unwire.rs:338-349 | advances on a checked slice or reports its end |
| `Reader.Reader.Unwiring` | wiring/src/core/unwire.rs:816-1145 | both readers return what plain decoding returns, at the same position, and the unchecked one strays exactly where plain decoding runs out of bytes |
| `Reader.Reader.UnwiringElements` | wiring/src/core/unwire.rs:502-594 | decoded elements are returned, or each dropped once in order when a later one fails; the guard is dropped on both exits and then drops nothing that was returned |
| `Reader.SafeInit.Put` | wiring/src/core/unwire.rs:584-587 | fills the next slot and counts it |
| `Reader.SafeInit.Drop` | wiring/src/core/unwire.rs:515-526 | the destructor drops exactly what the guard still owns, and reads no slot once the storage was taken out |
| `Reader.SafeInit.Take` | wiring/src/core/unwire.rs:567-593 | takes the storage out and moves all values, reading no uninitialised slot; the guard owns nothing afterwards although its count stays |
| `Reader.BuiltUpToTheFailure` | wiring/src/core/unwire.rs:528-534 | the elements kept until a failure are a decoding of their own, all of them or up to the one whose error is reported |
| `Reader.Reader.BytesLength` | wiring/src/core/unwire.rs:492-499 | in u64 arithmetic that wraps around, the length of count values is how far the scan moves, for every type, errors included |
| `Reader.Reader.LoopLength` | wiring/src/core/unwire.rs:1086-1099 | the loops that add head sizes up front and bodies one by one compute how far the scan moves, although the running total may wrap around |
| `Reader.Reader.BodyLength` | wiring-derive/src/lib.rs:1251-1269 | one pass of them, for strings, options, vectors, tuples, structs and enums |
| `Capacity.DecodeArrays` | wiring/src/core/unwire.rs:1138-1144 | count arrays of n elements are decoded like n times count elements, which is what the scan counts |
| `Reader.BufUnWire.Unwire` | wiring/src/core/unwire.rs:223-240 | at any position of any buffer: scan from the front, bounds check at the position, unchecked decoding; it strays exactly if the guard passes and checked decoding would run out of bytes |
| `Truncation.TruncationIsEof` | wiring/src/core/unwire.rs:370-385 | decoding a proper prefix of an encoding reports the end of the buffer, never another value |
| `FastReader.FreshReaderAgrees` | wiring/src/core/unwire.rs:123-140 | on every slice of less than 2^64 bytes, a fresh buffer reader of a scannable type succeeds exactly like checked decoding, with the same value and position |
| `FastReader.FreshReaderRefines` | wiring/src/core/unwire.rs:123-140 | if moreover no product wraps around for vectors that can be allocated, and those in the buffer can be, no read leaves the buffer |
| `FastReader.RefinesExactlyWhenScannable` | wiring/src/core/unwire.rs:223-240 | both hold on every buffer whose vectors can be allocated exactly for scannable types of which no product wraps around, whatever the machine allocates |
| `FastReader.WrappedCountStrays` | wiring/src/core/unwire.rs:1230-1249 | for vectors of two units each, as arrays or as tuples of unit structs, the length 2^63 passes the guard, no machine that allocates so many refuses it, and the first read leaves the buffer |
| `FastReader.BufferRoundTrip` | wiring/src/core/wire.rs:2340-2358 | what is written to a buffer the buffer reader gives back |
| `FastReader.SecondUnwireExactlyWhen` | wiring/src/core/unwire.rs:228-231 | of two values in a row the second comes back exactly if it is at least as long as the first, and is refused otherwise |
| `FastReader.LaterUnwireExactlyWhen` | wiring/src/core/unwire.rs:227-238 | at any position a value that stands there comes back exactly if the scan of the front fits behind that position |
| `FastReader.SecondUnwireFails` | wiring/src/core/unwire.rs:228 | a vector of one byte followed by an empty one: the second is refused |
| `LaterReads.SteadyTakes` | wiring/src/core/unwire.rs:502-594 | on any bytes, the decoder of a steady type ends after its one length, and with so many bytes there it does not run out |
| `LaterReads.SteadyScan` | wiring/src/core/unwire.rs:492-499 | so does its scan if no product wraps around, and without unused tag numbers it is a skip of that length |
| `LaterReads.SteadyExactlyWhenEquallyLong` | wiring/src/core/unwire.rs:1230-1249 | the values of a type are all equally long exactly if it is steady |
| `LaterReads.UnsteadyIsUneven` | wiring/src/core/unwire.rs:1230-1249 | every other type has two values of different length |
| `LaterReads.CutSecondStrays` | wiring/src/core/unwire.rs:227-238 | a value followed by a longer one cut to its length: the guard passes the second read and it leaves the buffer |
| `LaterReads.SecondUnwireStrays` | wiring/src/core/unwire.rs:137-139 | so it does for the two vector lengths 0 and 5 |
| `LaterReads.StaysInsideExactlyWhenSteady` | wiring/src/core/unwire.rs:223-240 | reads at every position of every buffer whose vectors can be allocated stay inside exactly for steady types of which no product wraps around |
| `LaterReads.SteadyLaterReadRefines` | wiring/src/core/unwire.rs:223-240 | where the scan of the front succeeds, a steady type is read anywhere exactly like by checked decoding |
| `LaterReads.RefinesAnywhereExactlyWhen` | wiring/src/core/unwire.rs:223-240 | they also return what checked decoding returns exactly if every number of every reachable tag is that of a variant |
| `LaterReads.UnusedTagExample` | wiring/src/core/unwire.rs:227-238 | an enum of one variant: 9 at the front keeps the reader from the value behind it |
| `WireTypes.ConstantsDiffer` | wiring/src/core/unwire.rs:1440-1441 | the encoder and the decoder give a pair of a u16 and a bool the sizes 3 and 2, an f64 8 and 0 with opposite `MIXED`, a unit 0 twice and a unit struct 1 twice |
| `Reserve.SizeOfValue` | wiring/src/core/wire.rs:816-823 | an encoding has at least the encoder's `FIXED_SIZE` bytes, and exactly so many where that size holds |
| `Reserve.EnoughExactlyWhenSizeHolds` | wiring/src/core/wire.rs:917-922 | the reservation is as large as the whole encoding for all slices exactly if the size holds for the element type |
| `Reserve.PairOverflows` | wiring/src/core/wire.rs:2217-2220 | a pair of a byte and a unit takes one byte more than is reserved for it |
| `RawCopies.FitExactlyWhenLastRawDoes` | wiring/src/core/wire.rs:253-272 | with an allocation that grows no more than it must, a series of checked and raw writes stays inside exactly if its last raw copy does |
| `RawCopies.SizeIsEncoding` | wiring/src/core/wire.rs:186-206 | the writes of a value amount to its encoding |
| `RawCopies.CheckedHasNoRaw` | wiring/src/core/wire.rs:184-198 | values made of i32, u64, f32 and vectors of them, outside of groups, are written without any raw copy |
| `RawCopies.ScalarWrites` | wiring/src/core/wire.rs:184-206 | every scalar is one write, and a raw one but for i32, u64 and f32 |
| `RawCopies.BytesAreOneWrite` | wiring/src/core/wire.rs:1618-1674 | slices and arrays of bytes, and arrays of u32, are one write |
| `RawCopies.RawValue` | wiring/src/core/wire.rs:200-206 | every other type has a value with a raw copy |
| `RawCopies.SliceFitsExactlyWhen` | wiring/src/core/wire.rs:908-930 | all raw copies of every slice end within its reservation exactly if the size holds for the element type or it makes none |
| `Containment.ContainedExactlyWhenReservable` | wiring/src/core/wire.rs:917-927 | every value of a type is written with all raw copies inside exactly if each vector in it that reserves holds such elements |
| `Containment.PairOverrun` | wiring/src/core/wire.rs:2217-2220 | one pair of a byte and a unit reserves one byte, and the raw copy of the unit ends at the second |
| `Containment.CheckedPairIsReservable` | wiring/src/core/wire.rs:1851-1877 | a pair of a u64 and a vector of u64 outgrows its size but makes no raw copy |
| `Containment.GroupedPairIsNotReservable` | wiring-derive/src/lib.rs:227 | where the second is a struct that groups two u64 in front of the vector, the group is a raw copy and the pair not safe in vectors |
| `Writer.VecBuf.Clear` | wiring/src/core/wire.rs:2345-2353 | a buffer is emptied and its allocation kept |
| `Writer.VecBuf.Reserve` | wiring/src/core/wire.rs:269-272 | makes room and keeps the contents |
| `Writer.VecBuf.SyncWireAll` | wiring/src/core/wire.rs:253-268 | both forms append the bytes; the unchecked copy must stay within the allocation, and each write is logged |
| `Writer.VecBuf.Wiring` | wiring/src/core/wire.rs:122-207 | a value appends exactly its encoding, on an `Unchecked` wire by exactly the writes of `RawCopies`, and no raw copy leaves the allocation if the last one fits or, unwrapped, each slice keeps to its reservation |
| `Writer.VecBuf.WiringGroup` | wiring-derive/src/lib.rs:213-250 | a group of eligible fields appends their encodings in one write |
| `ConcatArray.GroupBytes` | wiring-derive/src/lib.rs:213-227 | filling a buffer of zeros with the fields of such a group gives their encodings |
| `Writer.VecBuf.WiringSlice` | wiring/src/core/wire.rs:908-930 | a slice appends its length and elements, with one reservation for types that are not MIXED |
| `Writer.VecBuf.WiringFixed` | wiring/src/core/wire.rs:917-927 | after the single reservation all raw copies fit, for each slice whose last one ends within it |
| `ConcatArray.EligibleIsExact` | wiring/src/core/wire.rs:1116-1123 | for eligible types `concat_array` writes the encoding to the front and leaves the rest, and the encoding has `FIXED_SIZE` bytes |
| `ConcatArray.ExactExactlyWhenEligible` | wiring-derive/src/lib.rs:763-795 | this holds on all slices, or on all zeroed ones, exactly for the eligible types |
| `ConcatArray.ConcatSkips` | wiring/src/core/wire.rs:1574-1592 | of units, strings, options, vectors and variants with fields nothing is written |
| `ConcatArray.ConcatUnits` | wiring-derive/src/lib.rs:582-584 | a unit struct is written as 1, a variant without fields as its tag |
| `ConcatArray.ConcatTouchesFront` | wiring/src/core/wire.rs:2245-2249 | for every type, bytes behind `FIXED_SIZE` are left alone |
| `ConcatArray.ConcatInto` | wiring/src/core/wire.rs:1574-1988 | in place, only the given slice changes, and to exactly that |
| `ConcatArray.ConcatElements` | wiring/src/core/wire.rs:1116-1123 | the moving offsets cover the slice of each array element once |
| `ConcatArray.ConcatFieldsInto` | wiring-derive/src/lib.rs:108-112 | so do the splits of tuples and derived structs |
| `Derive.ReadAttrs` | wiring-derive/src/lib.rs:75-106 | the attributes of a field open a group, change nothing, or panic for the first reason that applies |
| `Derive.FixedPass` | wiring-derive/src/lib.rs:54-251 | the pass with its countdown, flags and pending calls emits exactly the planned statements, and panics exactly where the plan does |
| `DeriveMarks.GroupedExactlyWhenMarked` | wiring-derive/src/lib.rs:75-106 | of an accepted placement two neighbouring fields are in one group exactly if a field up to the first one carries a `fixed(n)` that counts the second one in, or a bare `fixed` |
| `DeriveMarks.AcceptedExactlyWhen` | wiring-derive/src/lib.rs:75-106 | a placement is accepted exactly if no field has two such attributes, each asks for two fields at least and for no more than there are, and none stands inside a group |
| `DeriveMarks.PanicHasReason` | wiring-derive/src/lib.rs:80-104 | every panic has its reason in the marks |
| `DeriveMarks.TwoOfThree` | wiring-derive/src/lib.rs:83-91 | `fixed(2)` on the first of three fields leaves the third alone |
| `DeriveRuns.FieldsOnceInOrder` | wiring-derive/src/lib.rs:213-250 | an accepted placement covers every field once, in order, with no group left open |
| `DeriveRuns.RunBlock` | wiring-derive/src/lib.rs:213-250 | start, mid and end calls stay in their buffer and together write each field into its own zeroed slice |
| `DeriveMeaning.GroupingPreservesMeaning` | wiring-derive/src/lib.rs:213-295 | for every accepted placement, also several groups, the sync statements write exactly the concatenated field encodings, if grouped types are eligible |
| `DeriveMeaning.MeaningKeptExactlyWhenEligible` | wiring-derive/src/lib.rs:316-512 | and for all field values exactly if they are |
| `DeriveMeaning.GroupedUnitStruct` | wiring-derive/src/lib.rs:582-584 | a grouped unit struct is written as 1 and cannot be decoded |
| `DeriveAsync.AsyncExactlyWhenUngrouped` | wiring-derive/src/lib.rs:144-211 | with eligible groups, the async statements write the plain encoding exactly if there is no group |
| `DeriveAsync.AsyncExactlyWhenLengthsLand` | wiring-derive/src/lib.rs:144-211 | for every accepted placement in a struct whose size is a usize, they do so for all values exactly if no group has a size, all grouped fields have a single encoding of zeros, and wherever more or fewer zeros were written than expected there are only zeros, which even out at the end |
| `DeriveAsync.TwoGroupedBytes` | wiring-derive/src/lib.rs:144-211 | two grouped bytes 1 and 2: the async form is not their encoding |
| `DeriveAsync.AsyncNeedsMissingBytes` | wiring-derive/src/lib.rs:144-211 | with any groups, they can only do so if the sync statements leave out eight bytes per group |
| `DeriveAsync.EightGroupedUnits` | wiring-derive/src/lib.rs:158 | eight grouped units, which are not eligible: their async form is the plain encoding |
| `Headers.HeaderIsTwoOptions` | wiring/src/core/wire.rs:443-472 | whatever shortcut a side takes, it writes the two options of the intended pair |
| `Headers.HeadersAgree` | wiring/src/core/wire.rs:752-759 | each of the four headers is read back to the intended pair, and the bytes behind it are left |
| `Headers.HeadersArePrefixFree` | wiring/src/core/wire.rs:752-759 | different connections have headers of which none starts another |
| `Headers.HeaderBytes` | wiring/src/core/wire.rs:957-986 | the bytes of the four headers, for small ids and keys and an address of one letter |
| `Headers.WriteClient` | wiring/src/core/wire.rs:740 | the header of a plain client |
| `Headers.WriteOneWay` | wiring/src/core/wire.rs:466-472 | the header of a nested one-way connection |
| `Headers.OutgoingWire` | wiring/src/core/listener.rs:39-61 | the header a listener writes, with or without a parent |
| `Headers.ReadHeader` | wiring/src/core/wire.rs:758-759 | reads the two options, or reports the first error |

## Left out

- The tokio runtime, sockets, wakers and spawning: queues are FIFO sequences, tasks are interleaved steps.
- Failing wire writes, endpoint shutdown and abort: they end the run.
- Wrap-around of `stream_id`: numbers are unbounded outside the pre-scan, except that ids and lengths that are written must fit a u64.  Builds with overflow checks, which panic where products wrap around, are left out.
- The two queue sends in accepting a stream, and the insertion, registration and id in opening one, are single steps: no other party can tell the difference.
- `WiredTasks.Wired.Handle`: says nothing about the endless loop around it, which is the step `Take` of the system, nor about a receiver it is asked to register that is already in the map.
- `WiredTasks.Unwired.Handle`: an event's own content is not handed to a handler; its channels are the FOpen frames that follow.
- `Reader.Reader.Unwiring`: after an error nothing is said about the position; here every vector can be allocated, and `Capacity` says which a machine allocates.
- `FastReader.RefinesExactlyWhenScannable`: says nothing of buffers with a vector that cannot be allocated, where the run ends before its elements are read.
- `Reader.BufUnWire.Unwire`: nothing is defined about a run behind a read outside the buffer, so the model records the first one and ends the call there with the error of the checked reader.
- `Containment.ContainedExactlyWhenReservable`: assumes that `FIXED_SIZE` of vector elements is a usize below its largest value.
- `DeriveAsync.AsyncExactlyWhenUngrouped`: covers eligible groups, value by value; `AsyncExactlyWhenLengthsLand` covers all groups, for all values at once.
- `RawCopies.SliceFitsExactlyWhen`: groups in types hold eligible fields only, as others are not written as their encoding (`DeriveMeaning.MeaningKeptExactlyWhenEligible`).
- `FastReader.FreshReaderRefines`: errors are compared as errors, not by kind, as the scan may meet another one first.
- `Derive.FixedPass`: `fixed(0)` is the arithmetic panic of a build with overflow checks.
- `Headers.HeadersAgree`: a URL is its text; that parsing the text yields the same URL is a fact of another crate.
- Tuples under the feature `generic_const_exprs`, which write through `concat_array`.
- `Box`, `Arc`, `Url`, maps and ordered sets: what there is of encoding and decoding follows the vector or the content.  Their pre-scan does not, being the default one, which counts sizes in memory, and that of `Box<[T]>` counts elements without a length; so nothing about the fast reader applies to them, nor to the sets of `Sets`.  A `char` is only written.
- Float values are their bits, signed integers their bit patterns.
- Async decoding of a string on a stream that ends early.
- The wiring of each kind of channel on top of a stream, the listener's table of wires, random ids and keys, TLS and URL parsing, generics and where-clauses of the macro.
