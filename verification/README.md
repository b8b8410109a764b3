# Protocol gateway: verified model

A Dafny model of the parts of the industrial protocol gateway whose behaviour depends on more than one
function: batched Modbus and S7 access, OPC UA load shaping and session sharing, the MQTT publisher's buffer
and topic record, the write-command handler and the health checker. `dafny verify dfyconfig.toml` checks
everything.

Code that updates arrays, maps and fields is modelled by methods and classes with the same branches and
constants, each tied to a specification function; code whose difficulty is interleaving is modelled as a step
system, one step per atomic load, add, channel operation or call, and the theorems quantify over whole runs.

| module | what it models |
|---|---|
| `Domain`, `Sorting`, `Grouping`, `Merging`, `Bytes`, `SharedBuffer` | values; the in-place sort; grouping; greedy merging of spans; byte orders and bits; several decoders reordering windows of one buffer |
| `ModbusConversion`, `ModbusRanges`, `ModbusCoils`, `ModbusClient`, `ModbusReadTags` | the Modbus read path from tags to data points, and the conversions it and the writes use |
| `S7Batch`, `S7Read`, `S7Write` | S7 range building, optimized reads and batched writes |
| `LoadShaping`, `LoadDecisions` | admission, priority queues, workers and brownout as a step system; what an operation met on its way to each decision |
| `OpcuaSession`, `OpcuaPool` | reconnect backoff; the two-way device/session index of the pool |
| `MqttBuffer`, `TopicTracker` | the publisher's drop-oldest buffer (step system) and its bounded topic record |
| `CommandHandler` | command callbacks, queue and processor as a step system |
| `HealthChecker` | flapping protection and the service state |

## Main results

- **Modbus reads.** For every list of tags, failure and cancellation, `ReadTags` returns one point per tag, and each
  point is exactly what the request made for the tag's range gives. For validated tags that is the tag read alone, or
  the error of that very request. Because a tag's byte order is applied in place to the shared range buffer this
  needs a condition, which is exact for integer and floating-point tags: one tag's value is right for every memory if
  and only if its bytes are in their places when it is decoded (`PointAgreesExactly`), all values of a list if and
  only if no tag moves a byte that a later tag of its range reads (`GroupAgreesExactly`). Bits and overlapping
  big-endian tags are always fine; `OverlapExample` shows two little-endian tags on one register going wrong.
- **Decoding.** What each data type, byte order and bit position makes of the bytes is stated byte by byte, for Modbus
  (`OrdersBytes`, `ParsesRegisters`) and S7 (`ParsesExactly`), next to the round trips.
- **S7 reads and writes.** Result i is tag i read alone unless the item of the very range that holds it failed, and the
  read as a whole fails exactly with the first reason met. A write reports no error exactly if its own request and
  the item at its own place had none (`OutcomesMean`).
- **Greedy merging is optimal** for both size rules and for every gap and size limit, also when a later span ends
  before an earlier one.
- **Load shaping.** In every interleaving the global and per-session counters equal the number of admitted,
  unfinished operations; each admitted operation is decremented exactly once; its function runs at most once and never
  after a refusal; no worker blocks on an answer; telemetry is never queued. An operation runs at once only if its
  last load found less than the hard limit, is queued only if it found at least that, and is refused exactly for one
  of the listed reasons (`RunsAtOnceBelowLimit`, `QueuedAtLimit`, `RefusedExactly`); each queue is first in, first
  out.
- **Session sharing.** After any sequence of pool operations the two indexes agree and the session limit holds, and
  consecutive failed attempts on a session are spaced by at least the sum of the delays in between. How long a get
  answers that backoff is active is stated in seconds (`PoolWaits`). Delays lie
  between 5 seconds and 5 minutes, and never shrink over failures of one class, exactly when 64 times the configured
  delay fits 63 bits.
- **MQTT buffer.** Each accepted message is in exactly one place in every state, the oldest always leaves first, and
  without putting back the order of acceptance is the order of publishing. It is not true that nothing is
  dropped while the messages waiting and held fit the buffer: a producer that finds it full drops the oldest one
  (`OneTooMany`, for every capacity). Counting also the messages being placed, the safe loads are exactly those up
  to the capacity (`SafeLoads`).
- **Topic record.** The record holds exactly the most recent topics of the whole history, never more than 10000,
  and at least 9001 of them once any was forgotten, so listings of up to 9001 topics equal those of an unbounded
  record.
- **Commands.** Every command received is accounted for in every state of every run with one start; processing is
  in queue order; a device is written at most once per command and only for a writable tag; each processed or
  turned-away command has exactly one response; the rate-limit branch is dead.
- **Health.** A check is reported unhealthy exactly while its trailing failures reach the threshold, and from any state
  the service is running after every further round exactly when it was starting, running or recovering and no
  critical or warning check has such a run of failures.

## Where code and documentation differ

- `docs/pages/observability_infrastructure.md:359` promises two consecutive successes before a check is healthy. The
  code never reads `RecoveryThreshold`: one success makes a check healthy. The two-round rule exists only for the
  service state, between recovering and running. The model follows the code.
- A boolean register tag with a bit position above 0 does not read back what was written, because the encoder always
  writes bit 0 (`BoolRoundTripExact`).
- Reading a single coil tag alone without a bit position reports whether any of the first eight coils it covers is
  set, while the batched path reports the coil at the tag's address (`SingleCoilReadExactly`).
- Registering a health check again keeps its failure count although its status starts over.

## Model

| member | source | states |
|---|---|---|
| `Sorting.InsertionSort` | internal/adapter/modbus/client.go:409-417 | the array ends up as the stable sort of what it was |
| `Sorting.StableSortedIsSorted` | internal/adapter/modbus/client.go:409-417 | the result is sorted by the key and has the same elements |
| `Sorting.SortKeepsOrder` | internal/adapter/modbus/client.go:409-417 | elements with equal keys keep their order |
| `Sorting.StableSortIsUnique` | internal/adapter/modbus/client.go:409-417 | being sorted with equal keys in order determines the result |
| `Sorting.SortedIsUnique` | internal/adapter/mqtt/publisher.go:149-151 | with keys that tell elements apart there is one sorted arrangement, so the library's sort gives it too |
| `Grouping.GroupBy` | internal/adapter/modbus/client.go:343-355 | each group holds exactly the list's elements with its key, in list order |
| `Grouping.AllGrouped` | internal/adapter/modbus/client.go:343-355 | the groups together are the list as a multiset |
| `Grouping.GroupKeepsOrder` | internal/adapter/modbus/client.go:343-355 | two elements of a group stand in the list in the same order, at different places |
| `Merging.GreedyStaysAhead` | internal/adapter/s7/batch.go:97-141 | the m-th run of any admissible partition starts no later than the m-th greedy run |
| `Merging.GreedyIsOptimal` | internal/adapter/s7/batch.go:84-146 | no admissible partition into consecutive runs has fewer runs than the greedy one, for both size rules and any limits |
| `Merging.CutsAreFewest` | internal/adapter/modbus/client.go:363-405 | the cuts a builder makes are as few as those of any admissible partition |
| `Bytes.BigEndianRoundTrip` | internal/adapter/modbus/conversion.go:154-239 | reading back the n big-endian bytes of a number below 256^n gives the number |
| `Bytes.BitIsDigit` | internal/adapter/modbus/client.go:690-709 | bit k of a value is the parity of its quotient by 2^k |
| `Bytes.OrdersBytes` | internal/adapter/modbus/conversion.go:77-104 | little-endian reverses the bytes, mid-big swaps each full pair, mid-little the halves of each full group of four, the rest and the other orders keep every byte |
| `Bytes.ReorderInvolution` | internal/adapter/modbus/conversion.go:77-104 | every byte order applied twice restores data of any length |
| `Bytes.ReorderBytes` | internal/adapter/modbus/conversion.go:77-104 | in place, the window becomes reversed, pairwise swapped, half-swapped or stays, by order and byte by byte, and no byte outside changes |
| `SharedBuffer.GivenOwnExactly` | internal/adapter/modbus/client.go:515-543 | one decoder gets its original bytes, for every buffer, if and only if each of them is in its place when it is read |
| `SharedBuffer.OwnBytesExactly` | internal/adapter/modbus/client.go:515-543 | decoders that reorder their windows one after the other all get the original bytes, for every buffer, if and only if no window moves a byte of a later one |
| `ModbusConversion.ParseInPlace` | internal/adapter/modbus/conversion.go:13-73 | the result is that of the pure decoder on the window's old bytes, and only the reordered window changes |
| `ModbusConversion.ParsesRegisters` | internal/adapter/modbus/conversion.go:33-73 | from the tag's bytes put in order: 16, 32 and 64-bit integers as byte sums with their sign, floats as the bits read, a boolean as the named bit of either byte or any bit set |
| `ModbusConversion.ParsesOther` | internal/adapter/modbus/conversion.go:13-36 | no data or too little is refused; a bit tag gets the named bit of the first byte, or whether any is set |
| `ModbusConversion.KnownValues` | internal/adapter/modbus/conversion.go:77-104 | the bytes of 0x12345678 in each of the four orders decode to it, four bytes FF to -1 |
| `ModbusConversion.IntegerRoundTrip` | internal/adapter/modbus/conversion.go:154-239 | decoding inverts encoding for every in-range value of every integer type and byte order |
| `ModbusConversion.FloatRoundTrip` | internal/adapter/modbus/conversion.go:211-237 | the bits of a floating-point value come back through either float type and any byte order |
| `ModbusConversion.EncodesExactly` | internal/adapter/modbus/conversion.go:154-175 | which values cannot be written and with which error, and what a value becomes as a boolean |
| `ModbusConversion.WrapsAround` | internal/adapter/modbus/conversion.go:174-209 | integers equal modulo the type's width are written alike |
| `ModbusConversion.DecodeInjective` | internal/adapter/modbus/conversion.go:13-73 | different bytes decode to different values, for integers and floating-point numbers of exact width |
| `ModbusConversion.BoolRoundTripExact` | internal/adapter/modbus/conversion.go:163-172 | a boolean register tag reads back what was written if and only if it was false or the tag reads bit 0 |
| `ModbusRanges.BuildRanges` | internal/adapter/modbus/client.go:358-406 | the ranges are those of the merge over the stably sorted tags, so the caller's list determines them |
| `ModbusRanges.MergeKeepsTags` | internal/adapter/modbus/client.go:371-405 | the ranges' tags in order are the sorted tags, whatever they are |
| `ModbusRanges.RangesHoldTags` | internal/adapter/modbus/client.go:371-405 | the ranges hold exactly the tags, in stable address order, whatever they are |
| `ModbusRanges.MergesExactly` | internal/adapter/modbus/client.go:363-405 | a next tag joins exactly if at most 10 registers or 32 coils lie between and the joined range is at most 100 registers or 1000 coils; then the range becomes the hull of both |
| `ModbusRanges.AcceptsExactly` | internal/adapter/modbus/client.go:303-340 | validation accepts exactly counts from 1 to 125 registers or 2000 coils that end by address 65535 |
| `ModbusRanges.NoWrap` | internal/adapter/modbus/client.go:303-340 | within the protocol limits no 16-bit operation of the builders wraps |
| `ModbusRanges.GroupRanges` | internal/adapter/modbus/client.go:608-648 | under the default limits every range is the exact hull of its tags and asks for 1 to 125 registers or 1 to 2000 coils |
| `ModbusRanges.RequestsAreMinimal` | internal/adapter/modbus/client.go:358-406 | no other way to cut the sorted tags under the same limits needs fewer requests |
| `ModbusCoils.PackCoils` | internal/adapter/modbus/client.go:1128-1135 | bit k of the bytes is value k, the rest of the last byte is zero |
| `ModbusCoils.PackingIsUnique` | internal/adapter/modbus/client.go:1128-1135 | values have one packing |
| `ModbusCoils.UnpackingIsUnique` | internal/adapter/modbus/client.go:690-709 | packed bytes of a known length stand for one list of values |
| `ModbusClient.ReadRegisterRange` | internal/adapter/modbus/client.go:469-546 | one point per tag of the range from the shared buffer as the earlier tags left it, or the first error that applies |
| `ModbusClient.ReadCoilRange` | internal/adapter/modbus/client.go:653-716 | one point per tag of the range from its bit of the reply, or the first error that applies |
| `ModbusClient.PointDecodesWindow` | internal/adapter/modbus/client.go:515-543 | in an exact hull the out-of-range branch is never taken |
| `ModbusClient.RangeRefinesAlone` | internal/adapter/modbus/client.go:469-546 | a tag whose bytes are in their places gets what reading it alone from the same memory gives |
| `ModbusClient.PointAgreesExactly` | internal/adapter/modbus/client.go:521-523 | for an integer or floating-point tag of exact width this holds for every memory if and only if its bytes are in their places |
| `ModbusClient.RangeAgreesExactly` | internal/adapter/modbus/client.go:521-523 | for a range of such tags all values are right for every memory if and only if no tag moves a later tag's bytes |
| `ModbusClient.OverlapExample` | internal/adapter/modbus/conversion.go:34 | two validated tags that the builder puts into one range, and a memory for which the first value is right and the second wrong |
| `ModbusClient.CoilRangeRefinesAlone` | internal/adapter/modbus/client.go:653-716 | each bit tag gets the coil at its own address |
| `ModbusReadTags.ReadTagGroup` | internal/adapter/modbus/client.go:421-466 | cancelled exactly if the context was found done before one of the group's ranges; otherwise each range's points or the error of its own request, in order; coil groups go the same way |
| `ModbusReadTags.ReadTags` | internal/adapter/modbus/client.go:221-244 | the points are, group by group, exactly what the requests made for the group's ranges give; they carry exactly the requested identifiers; and each validated, undisturbed group is read as each tag alone |
| `ModbusReadTags.GroupsByType` | internal/adapter/modbus/client.go:343-355 | every tag is in the group of its own register type and each group holds that type only |
| `ModbusReadTags.AloneMeans` | internal/adapter/modbus/client.go:246-300 | reading a tag alone gives the coil at its address, or its own registers' bytes decoded |
| `ModbusReadTags.ShortReplies` | internal/adapter/modbus/client.go:515-543 | a reply that ends before a tag's bytes or bit gives an error for that tag |
| `ModbusReadTags.AnswersCarryIds` | internal/adapter/modbus/client.go:221-244 | whatever fails, the points' identifiers are the requested ones as a multiset |
| `ModbusReadTags.TagReadIsExact` | internal/adapter/modbus/client.go:469-546 | a validated tag whose bytes are in their places gets its value read alone, or exactly the error of its own range's request |
| `ModbusReadTags.GroupReadsAreExact` | internal/adapter/modbus/client.go:421-466 | the same for all tags of a group at once, cancellation included |
| `ModbusReadTags.QuietReadsAreExact` | internal/adapter/modbus/client.go:421-466 | if the requests made for a group succeed, its points are its tags in address order, each read alone |
| `ModbusReadTags.GroupAgreesExactly` | internal/adapter/modbus/client.go:421-546 | for integer and floating-point tags of exact width the batched values of a list are right for every memory if and only if no tag of one of its ranges moves bytes of a later one |
| `ModbusReadTags.UndisturbingIsEnough` | internal/adapter/modbus/client.go:421-546 | bit tags, and register tags that move none of each other's bytes, meet the condition whatever ranges they end up in |
| `ModbusReadTags.BigEndianOverlapsAreFine` | internal/adapter/modbus/conversion.go:77-104 | register tags whose overlaps are all big-endian move none of each other's bytes |
| `ModbusReadTags.SingleCoilReadExactly` | internal/adapter/modbus/conversion.go:18-31 | the single-tag path agrees with the batched one on a bit tag if and only if it names bit 0, or names none and covers one coil |
| `S7Batch.MergeGroup` | internal/adapter/s7/batch.go:84-141 | sorts one group by offset and yields the ranges of the merge over it |
| `S7Batch.MergesExactly` | internal/adapter/s7/batch.go:97-141 | a next tag joins exactly if its gap and the extended range are within the limits, and gets its offset from the range's start; otherwise a new range starts at it |
| `S7Batch.MergeKeepsTags` | internal/adapter/s7/batch.go:97-141 | merging loses and moves no tag, and every tag fits its range |
| `S7Batch.BuildRanges` | internal/adapter/s7/batch.go:69-149 | the ranges are the merges of the groups, each sorted by offset and taken once; they place every parsed tag exactly once, at its own area, block and offset, inside its range |
| `S7Batch.RangesAreMinimal` | internal/adapter/s7/batch.go:84-146 | no other way to cut a group under the same limits uses fewer ranges |
| `S7Batch.AllRangesAreMinimal` | internal/adapter/s7/batch.go:69-149 | over all groups no other way to cut the sorted tags under the same limits needs fewer ranges |
| `S7Read.ParsesExactly` | internal/adapter/s7/conversion.go:17-82 | every type from the bytes: integers as big-endian sums with their sign, floats as the bits read, a boolean as the addressed bit of the first byte; too few bytes and unknown types are refused |
| `S7Read.ParsesEncoded` | internal/adapter/s7/conversion.go:17-82 | decoding inverts big-endian encoding for every in-range number of every integer type |
| `S7Read.EnoughBytes` | internal/adapter/s7/conversion.go:237-250 | the bytes requested for a supported type are enough to decode it |
| `S7Read.AnswerMeans` | internal/adapter/s7/client.go:375-395 | a tag's answer is the error of its range's item, or its own device bytes decoded |
| `S7Read.RangePointAnswers` | internal/adapter/s7/client.go:375-395 | the slice of range k decodes to what the tag read alone gives, or carries the error of item k |
| `S7Read.ReadChunk` | internal/adapter/s7/client.go:312-399 | fails with the first reason that applies, or records for every tag of the chunk its own answer; the buffer-overrun branch is never taken |
| `S7Read.ReadAllChunks` | internal/adapter/s7/client.go:278-297 | fails exactly with the first reason met going through the chunks |
| `S7Read.FailsExactly` | internal/adapter/s7/client.go:278-297 | there is a failure exactly if some chunk of 20 ranges is not fine, and then it is the reason of the first such chunk |
| `S7Read.ReadTagsOptimized` | internal/adapter/s7/client.go:248-309 | for distinct identifiers: the first address error, or the first reason a chunk fails, or result i is tag i read alone unless the item of the range that holds it failed; no tag is missing |
| `S7Write.ItemMeans` | internal/adapter/s7/client.go:756-800 | the item carries the write's own address and encoded value; a write has none exactly for a bad address, an unsupported area or a value that cannot be encoded, with that error |
| `S7Write.RankCounts` | internal/adapter/s7/client.go:756-800 | an item's place is the number of encodable writes before it in its chunk |
| `S7Write.WriteTagBatch` | internal/adapter/s7/client.go:737-836 | outcome i is empty exactly if write i became an item, the client is attached, the request had no error and the item at its place had none; otherwise it is the first of these errors that applies |
| `S7Write.EveryWriteOnce` | internal/adapter/s7/client.go:674-690 | every writable write is in exactly one of the two lists, once, each list in the order given |
| `S7Write.WriteTags` | internal/adapter/s7/client.go:659-734 | errs[i] is the outcome of write i for every mix of writes, chunking and cancellation point: the answer at its own place in the request its rank puts it into |
| `S7Write.OutcomesMean` | internal/adapter/s7/client.go:659-734 | in terms of device and writes: the r-th batchable write tells what request r / 20 and the item at its place came to, or is cancelled exactly if the context was found done before that request; a boolean write tells its own poll and its own write |
| `S7Write.ReportIsComplete` | internal/adapter/s7/client.go:659-734 | that leaves no entry of the result open |
| `S7Write.ModifyBit` | internal/adapter/s7/client.go:946-992 | the addressed bit takes the new value and its neighbours keep theirs |
| `LoadShaping.InvAlways` | internal/adapter/opcua/loadshaping.go:38-239 | the invariant over operations, queues and counters holds in every state of every run |
| `LoadShaping.CountersAreExact` | internal/adapter/opcua/loadshaping.go:159-238 | the global and session counters equal the admitted unfinished operations and are never negative |
| `LoadShaping.DecrementedExactlyOnce` | internal/adapter/opcua/loadshaping.go:68-108 | an operation that ran or was answered was taken off the global counter and its session's exactly once by the time it is over; any other one has given back exactly what it took, on both alike |
| `LoadShaping.RunsAtMostOnce` | internal/adapter/opcua/loadshaping.go:100-108 | a function runs at most once, and exactly once by the end unless refused |
| `LoadShaping.RefusedNeverRuns` | internal/adapter/opcua/loadshaping.go:120-238 | after a rejection or a failed deadline or breaker check the function never runs |
| `LoadShaping.OnlyTelemetryIsShed` | internal/adapter/opcua/loadshaping.go:120-238 | an operation above telemetry is refused only for an expired context, an open breaker, a closed pool, or because its queue held as many requests as fit when it was sent |
| `LoadShaping.AnswerNeverBlocks` | internal/adapter/opcua/loadshaping.go:72-104 | a worker about to answer finds the result channel unused |
| `LoadShaping.ThresholdWithinLimit` | internal/adapter/opcua/loadshaping.go:159-175 | a brownout fraction in (0, 1] puts the threshold at or below the global limit |
| `LoadShaping.TelemetryNeverQueued` | internal/adapter/opcua/loadshaping.go:159-238 | the telemetry queue is empty in every state of every run |
| `LoadDecisions.PassedEveryCheck` | internal/adapter/opcua/loadshaping.go:120-157 | an admitted operation found its context live, its breaker not open and, if telemetry, no brownout and its session below the endpoint limit |
| `LoadDecisions.RunsAtOnceBelowLimit` | internal/adapter/opcua/loadshaping.go:159-238 | an operation run at once had its last load of the global count find less than the hard limit and, if telemetry, less than the threshold |
| `LoadDecisions.QueuedAtLimit` | internal/adapter/opcua/loadshaping.go:175-199 | an operation sent to a queue had its last load find at least the hard limit, in a pool not closed |
| `LoadDecisions.RefusedExactly` | internal/adapter/opcua/loadshaping.go:120-218 | a step refuses an operation exactly for an expired context, an open breaker, telemetry in brownout, at the endpoint limit or at a loaded count not below the threshold, a closed pool at the hard limit, or a full queue |
| `LoadDecisions.WhyRefused` | internal/adapter/opcua/loadshaping.go:120-218 | every refused operation met such a step, its loaded count being that of its last load and its queue having been full |
| `LoadDecisions.WorkerChecked` | internal/adapter/opcua/loadshaping.go:72-98 | a worker runs a queued operation only after it found its context live and its breaker not open |
| `LoadDecisions.BrownoutExactly` | internal/adapter/opcua/loadshaping.go:163-258 | brownout is entered exactly by telemetry or the monitor at the threshold, left exactly below half of it, and else unchanged |
| `LoadDecisions.ServedInOrder` | internal/adapter/opcua/loadshaping.go:199-218 | what was sent to a queue is what was received from it followed by what waits in it |
| `OpcuaSession.DelaysInBoundsExactly` | internal/adapter/opcua/session.go:101-141 | all delays are within 5 seconds and 5 minutes if and only if 64 times the configured delay stays below 2^63 |
| `OpcuaSession.DelaysGrow` | internal/adapter/opcua/session.go:128-138 | delays never shrink over failures of one class if and only if 64 times the configured delay stays below 2^63 |
| `OpcuaSession.FailuresAreSpaced` | internal/adapter/opcua/session.go:97-141 | n allowed attempts in a row that fail span at least the n-1 delays between them |
| `OpcuaSession.NextAttemptIs` | internal/adapter/opcua/session.go:97-141 | after n failures in a row the next attempt is allowed exactly from the last one plus min(300 s, base * 2^min(n-1, 6)), base 60 s for too many sessions, 30 s for an end of file, else the larger of 5 s and the configured delay |
| `OpcuaSession.KnownWaits` | internal/adapter/opcua/session.go:111-141 | some of these waits in seconds |
| `OpcuaSession.FailureCount` | internal/adapter/opcua/session.go:101-109 | the failure count is the number of failures since the last success |
| `OpcuaPool.ListedExactlyOnce` | internal/adapter/opcua/pool.go:309-414 | with agreeing indexes a bound device is listed by exactly its binding's session, any other by none |
| `OpcuaPool.GetBinds` | internal/adapter/opcua/pool.go:270-307 | the device ends up bound to the endpoint exactly if a session is there or can be made; no other device changes |
| `OpcuaPool.RemoveRemoves` | internal/adapter/opcua/pool.go:996-1035 | only the device's binding goes, and its session exactly if it was the last device there |
| `OpcuaPool.ReapSessions` | internal/adapter/opcua/health.go:374-414 | exactly the picked sessions that are idle or expired go, the others stay as they are |
| `OpcuaPool.ReapDevices` | internal/adapter/opcua/health.go:374-414 | exactly the bindings of their devices go with them |
| `OpcuaPool.AfterOk` | internal/adapter/opcua/pool.go:270-414 | every operation keeps the indexes in agreement, the session limit and the backoff history |
| `OpcuaPool.AlwaysOk` | internal/adapter/opcua/pool.go:270-414 | so these hold after any sequence of operations |
| `OpcuaPool.PoolAttemptsAreSpaced` | internal/adapter/opcua/pool.go:336-353 | the last n attempts on a session, if all failed, span at least the delays set between them |
| `OpcuaPool.ConnectionPool.GetClient` | internal/adapter/opcua/pool.go:270-414 | new state and exact outcome from the old state: stopped exactly if closed, exhausted exactly for a new session at the limit, in backoff exactly for a disconnected session before its next attempt; otherwise rejected, failed, or a connected client |
| `OpcuaPool.PoolWaits` | internal/adapter/opcua/pool.go:336-353 | on a disconnected session after n failures in a row a get answers backoff exactly before that time, and otherwise what its attempt gives |
| `OpcuaPool.GetAttempts` | internal/adapter/opcua/pool.go:270-414 | a get makes exactly one attempt, for a new session within the limit or a disconnected one out of backoff, and else none |
| `OpcuaPool.GetTimes` | internal/adapter/opcua/pool.go:270-414 | which times of a session a get sets and which it keeps |
| `OpcuaPool.AttemptMeans` | internal/adapter/opcua/session.go:97-141 | a success connects and clears the backoff, a failure disconnects and adds one failure; devices and other times stay |
| `OpcuaPool.ConnectionPool.RemoveClient` | internal/adapter/opcua/pool.go:996-1035 | new state; not found exactly if the device had no binding |
| `OpcuaPool.ConnectionPool.FindIdle` | internal/adapter/opcua/health.go:338-366 | the candidates are exactly the sessions without recent activity or past their lifetime |
| `OpcuaPool.ReapableMeans` | internal/adapter/opcua/health.go:338-366 | a session stays exactly if it was used or published within the idle time and is within its lifetime |
| `OpcuaPool.ConnectionPool.ReapIdle` | internal/adapter/opcua/health.go:374-414 | of any candidates, those present and still idle or expired are dropped with their bindings |
| `OpcuaPool.ConnectionPool.ReapIdleSessions` | internal/adapter/opcua/health.go:337-415 | exactly the sessions idle or expired at both looks go, which with a clock that does not run back are those found at the first, with exactly their devices' bindings |
| `OpcuaPool.ConnectionPool.CheckSessionHealth` | internal/adapter/opcua/health.go:236-283 | attempts only when the breaker is not open, the client is down and the backoff allows it |
| `OpcuaPool.HealthCheckMeans` | internal/adapter/opcua/health.go:236-283 | it adds one attempt exactly for a disconnected session with its breaker not open and its backoff over, and otherwise changes nothing |
| `OpcuaPool.ConnectionPool.Close` | internal/adapter/opcua/pool.go:1039-1081 | no client is handed out any more and both indexes end up empty |
| `MqttBuffer.Conservation` | internal/adapter/mqtt/publisher.go:394-541 | in every state an accepted message is in exactly one place and no other message anywhere; the counts sum to the counter and what is not counted yet; the buffer keeps its bound |
| `MqttBuffer.HandedOnOnce` | internal/adapter/mqtt/publisher.go:457-467 | a message is handed on at most once, only if accepted, and then is neither waiting nor lost |
| `MqttBuffer.OldestLeaves` | internal/adapter/mqtt/publisher.go:414-424 | the message a producer drops or the processor takes entered before all that stay |
| `MqttBuffer.HandedOnInOrder` | internal/adapter/mqtt/publisher.go:457-467 | as long as nothing had to be put back, messages are handed on in the order in which the buffer accepted them |
| `MqttBuffer.HandedOnWhenConnected` | internal/adapter/mqtt/publisher.go:457-467 | a message is handed on only if the last look at the connection, with that message in hand, found it up |
| `MqttBuffer.WhereItGoes` | internal/adapter/mqtt/publisher.go:442-541 | the message in hand goes to the publisher, back to the end of the buffer if that has room and else among the dropped, or is abandoned while draining without a connection, by exactly these steps |
| `MqttBuffer.PutBackWhenDown` | internal/adapter/mqtt/publisher.go:457-487 | a message is put back only if the last look at the connection, with that message in hand, found it down |
| `MqttBuffer.DrainsAfterDisconnect` | internal/adapter/mqtt/publisher.go:491-541 | the buffer is drained only after a disconnect |
| `MqttBuffer.ProducersExactly` | internal/adapter/mqtt/publisher.go:394-436 | each producer step: placed exactly if there is room, else one dropped from the front and a second try, refused if still full; counted once placed |
| `MqttBuffer.DropsExactly` | internal/adapter/mqtt/publisher.go:420-433 | which steps drop a message, and that putting back drops one exactly if waiting and held exceed the capacity |
| `MqttBuffer.NothingLostWithinCapacity` | internal/adapter/mqtt/publisher.go:394-487 | while the load fits the capacity nothing is dropped or refused and no producer finds the buffer full |
| `MqttBuffer.OneTooMany` | internal/adapter/mqtt/publisher.go:414-433 | for every capacity a run drops a message although waiting and held never exceed it |
| `MqttBuffer.SafeLoads` | internal/adapter/mqtt/publisher.go:394-541 | the loads under which no run drops or refuses a message are exactly those up to the capacity |
| `TopicTracker.PublishedTopics` | internal/adapter/mqtt/publisher.go:160-180 | the unbounded reference lists exactly the topics ever published |
| `TopicTracker.RankedAlways` | internal/adapter/mqtt/publisher.go:149-151 | it lists each once, by strictly falling time of last publish |
| `TopicTracker.EvictOldest` | internal/adapter/mqtt/publisher.go:184-213 | exactly the given number of least recent topics goes, the others keep their statistics |
| `TopicTracker.TrackedAreNewest` | internal/adapter/mqtt/publisher.go:160-213 | at most 10000 topics are tracked and each is more recent than every forgotten one |
| `TopicTracker.Tracker.RecordPublish` | internal/adapter/mqtt/publisher.go:160-180 | the record stays the most recent topics of the longer history, with times, sizes and counts |
| `TopicTracker.Tracker.ActiveTopics` | internal/adapter/mqtt/publisher.go:138-158 | for limits up to 9001 the result is the most recent topics of the whole history in order; otherwise of the tracked ones |
| `CommandHandler.Conservation` | internal/service/command_handler.go:245-458 | received equals succeeded, failed, rejected, queued, in process and in callbacks, in every state of every run |
| `CommandHandler.ProcessedInOrder` | internal/service/command_handler.go:245-278 | the commands taken are the first ones enqueued, each once, and all but the one in hand are done |
| `CommandHandler.OneResponseEach` | internal/service/command_handler.go:379-458 | one response per processed or turned-away command, reporting success exactly if it succeeded; none for a discarded one |
| `CommandHandler.OneWriteEach` | internal/service/command_handler.go:402-458 | a device is written at most once per command and only for a writable tag, and the outcome counted is that of the write or of the failed lookup |
| `CommandHandler.NoResponsesWithoutAcknowledgement` | internal/service/command_handler.go:461-464 | with acknowledgement off nothing is ever published |
| `CommandHandler.NeverRateLimited` | internal/service/command_handler.go:382-400 | the rate-limit branch is unreachable for every configured number of slots |
| `CommandHandler.DiscardedExactly` | internal/service/command_handler.go:282-365 | a message is discarded exactly if its topic has too few levels or, for a whole-device write, its payload does not parse |
| `CommandHandler.QueuedExactly` | internal/service/command_handler.go:282-376 | a command enters the end of the queue exactly if that is below its capacity |
| `CommandHandler.TurnedAwayAtCapacity` | internal/service/command_handler.go:282-376 | every command turned away met a queue at its capacity, 1000 unless configured |
| `CommandHandler.CountersAreExact` | internal/service/command_handler.go:245-458 | each counter is the number of commands that ended in its way |
| `CommandHandler.ShutDownOnlyAfterStop` | internal/service/command_handler.go:222-278 | commands are refused for shutting down only after a Stop |
| `HealthChecker.TrailingFailures` | internal/health/checker.go:307-327 | the result is the length of the maximal run of failures at the end |
| `HealthChecker.ReportedGrows` | internal/health/checker.go:288-351 | what the history-based report says after one more outcome, in terms of the report before |
| `HealthChecker.UnhealthyExactly` | internal/health/checker.go:307-327 | with outcomes present and a threshold of at least 1, unhealthy if and only if the trailing failures reach it |
| `HealthChecker.StatusExactly` | internal/health/checker.go:288-351 | the status from the outcomes alone: unhealthy at the threshold, degraded for fewer failures when there was no success yet, unknown without outcomes, otherwise healthy |
| `HealthChecker.ReportMeans` | internal/health/checker.go:288-351 | what one outcome changes in the report, the time of the last change included |
| `HealthChecker.StateExactly` | internal/health/checker.go:354-394 | the service state's moves: any round not healthy degrades it, a healthy one recovers it and then runs it, shutting down and offline stay |
| `HealthChecker.OverallMeans` | internal/health/checker.go:232-270 | the round is unhealthy exactly if a critical check is, degraded exactly if no critical but some warning check is |
| `HealthChecker.HealthChecker.UpdateCheckStatus` | internal/health/checker.go:288-351 | the status returned and stored is the one the check's whole history determines |
| `HealthChecker.HealthChecker.UpdateOperationalState` | internal/health/checker.go:354-394 | the state stays the one determined by the base state and the last two rounds |
| `HealthChecker.HealthChecker.RunChecks` | internal/health/checker.go:211-285 | every registered check gets one more outcome, the round's status is unhealthy, degraded or healthy exactly by the unhealthy checks' severities, and the cached result reports both |
| `HealthChecker.HealthChecker.CheckLoop` | internal/health/checker.go:191-208 | over any rounds from any state, running after every one if and only if it could run before and no critical or warning check ever had a run of failures of the threshold's length |
| `HealthChecker.RunsAgainAfterTwo` | internal/health/checker.go:354-394 | after a round that was not healthy the service runs exactly when the last two rounds were healthy |
| `HealthChecker.StaysRunningExactly` | internal/health/checker.go:354-394 | after each of any later rounds the service is running if and only if it was starting, running or recovering and all those rounds are healthy |
| `HealthChecker.RunningExactlyWithoutBursts` | internal/health/checker.go:211-394 | from any state on, running after every later round if and only if it was starting, running or recovering and no critical or warning check fails as often in a row as the threshold |
| `HealthChecker.HealthChecker.AddCheckWithSeverity` | internal/health/checker.go:453-468 | the check's status starts over, its failure count does not |
| `HealthChecker.HealthChecker.RemoveCheck` | internal/health/checker.go:471-483 | everything about the check is forgotten, nothing about the others |

## Left out

- ModbusReadTags.ReadTags: the batched path does not itself call `validateProtocolLimits`, so reading as each tag alone is stated for groups that pass it; what is answered in general needs only that the decoder does not index past its slice, which tag validation ensures.
- ModbusReadTags.SingleCoilReadExactly: compares the decoders only; the retries around the single-tag path are not modelled.
- ModbusConversion.IntegerRoundTrip: unscaled tags only; scaling is floating-point arithmetic, and conversions from floating-point arguments are parameters.
- LoadShaping.InvAlways: workers may receive from any queue, which includes every order the polling by priority allows; the order itself is not stated.
- LoadShaping.TelemetryNeverQueued: the threshold is computed over real numbers where the code rounds a double; sends after the pool was closed are not part of this model.
- OpcuaPool.AlwaysOk: session objects are values inside the pool's map, so an attempt made through a pointer to a session that was removed meanwhile is not captured; attempts a client makes on its own outside the pool appear as client changes.
- OpcuaPool.ConnectionPool.ReapIdleSessions: other calls between its passes are not part of this method; `ReapIdle` allows any candidates and any activity before the last pass.
- OpcuaSession.FailuresAreSpaced: clocks are integers and adding a delay to a time does not overflow.
- TopicTracker.Tracker.RecordPublish: publish times are strictly increasing, as the claim about recency needs; the counts are exact as long as no topic was forgotten and a lower bound of the publishes later, since a returning topic starts at one.
- MqttBuffer.Conservation: one buffer processor at a time; a second Connect while one is running is not modelled, and neither is what the broker does with a message that was handed on.
- CommandHandler.Conservation: one successful Start; a Start whose subscription failed leaves a processor behind, and a second one is not modelled.
- HealthChecker.HealthChecker.RunChecks: a round is one step; checks of a round touch disjoint entries, so their order does not matter, but registering or removing a check during a round is not modelled.
- Identifiers (devices, endpoints, topics, commands, messages, checks) are numbers where they are only compared.
- Network clients, brokers and circuit breakers: their answers are parameters or step labels.
- The S7 fallback path, symbolic S7 addresses, timers and counters: addresses are parsed before the model starts.
- Quality codes, timestamps of data points, retries, metrics and logging.
- The direct MQTT publish path while connected, the polling service and OPC UA subscriptions.
- HTTP handlers, configuration files, trust store, Docker and NTP helpers: plumbing, with easy members only.
