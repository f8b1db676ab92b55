# Verification of JARVIS_OS host-side protocols, readers and decision rules

Proofs in Dafny 4.11 about the parts of JARVIS_OS whose correctness does not show in any one function:
a lock-free ring shared by two threads, the telemetry and control pipeline between the box and its
console, the readers of on-disk structures, and four whole-run state machines. Each module models one
component in the form the component has: classes with updated fields and loops where the program
changes state, functions where it only computes, and a system of single steps where threads interleave.

To check everything: `dafny verify dfyconfig.toml`.

## Modules

- **Ring, RingThreads, RingProgress**: the single-producer single-consumer ring. `RingBuffer` is the
  structure run alone; `RingThreads` interleaves every load, every byte of either copy and every index
  store of the two threads under sequential consistency; `RingProgress` adds fairness and proves that
  both threads return.
- **Hub, HubRuns**: the locked fan-out of records to browsers with bounded queues. A browser may take
  a record between any two offers of one publish.
- **Sender, SenderRuns**: the control sender's sequence allocator and frame, and any number of threads
  sending under any clock. HMAC-SHA256 (section 2 of RFC 2104) is any function.
- **Reply**: the authenticated reply, version 2. CRC-32 (section 8 of RFC 1952) and HMAC are any functions.
- **Wire, Fixture**: the five append-only packet layouts, the decoder that tells them apart by length,
  and the packer. Formats and field orders are written out on both sides and proved to agree.
- **Framing, Pcap**: the capture walker and builder (sections 4 and 5 of draft-ietf-opsawg-pcap).
- **Checksum, CircularLog, StoreLayout, StoreFormats** and **EpisodicStore, AuditStore, VectorStore,
  SemanticStore, NvmeLog**: the five readers of circular stores. The writer is the append that the readers document:
  write at the cursor, advance it modulo the slots, count. A region is any byte string that carries
  that log; what the slots held before is arbitrary.
- **Gguf, GgufFile, GgufRoundTrip**: the two GGUF walkers over a file cursor ('File Structure' section
  of the GGUF specification in ggml).
- **Shield, ShieldFramework, ShieldRuns**: the SHIELD learn, escalate and shadow loop, in thousandths.
- **Queue, QueueRuns, Verdict**: the resumable benchmark queue and its decision rules.
- **CopyGate, CopyGateProofs**: the source-copy gate from the parsed copies and lists on.
- **Console, ConsoleRuns**: the console's telemetry state and the receiver's drop reports.
- **Router, RouterProofs**: the agent router.
- **Bytes, Bits, Digests, Strings, Newest, Sets, Modulo, Options**: integers in bytes, masks, the
  uninterpreted CRC-32 and HMAC, substring and stripping, the newest items of a list, sizes of sets,
  remainders, a value that may be absent.

All lemmas are marked `{:induction false}`: every induction is written out.

## Where the code does less, or more, than it says

- An NVMe log payload is read for as many bytes as its length field says, past the end of its sector.
  The reader returns a record's own payload exactly if those bytes are NUL or missing
  (`NvmeLog.PayloadIsOwnIff`), so for every length up to 496 (`NvmeLog.ReadsTheLastRecords`);
  `NvmeLog.SpilledPayload` is a file on which it does not.
- A text field of a packet comes back as given exactly if it fits, is ASCII without NUL, and neither
  starts nor ends with white space (`Wire.TextRoundTripsIff`).
- The key dump loses its place in a non-empty array of arrays, and only there
  (`Gguf.PrintConsumesValueIff`); the keys up to and with that one are still shown right
  (`GgufRoundTrip.KeysOfFile`).
- The console counts drops against the newest packet, the receiver against the boot's newest packet. With
  the packets of two boots interleaved the console can show less (`ConsoleRuns.InterleavedBootsDisagree`);
  exactly when the two agree is `ConsoleRuns.DroppedIsReportedIff`.
- The operating key is documented as always one of the keys passed. It is exactly if both states were
  measured or the chosen key was itself passed (`Verdict.AnswerWasPassedIff`).
- A resumed queue equals an uninterrupted one exactly if the arms write the schema hash the queue was
  told to expect (`QueueRuns.ResumesIff`); by default it is told the hash of the tree, so they do.
- The `snapshot_id` of a validation goes stale with the next validation once ten snapshots are held
  (`ShieldRuns.SnapshotIdNamesItsOwnIff`).
- The readers' branches that skip or stop at a slot outside the buffer are never taken: the slots are
  counted from the buffer.

## Model

| member | source | states |
|---|---|---|
| `Ring.IncrementIsAdvance` | phase0/experiments/ipc_latency_benchmark.c:67 | on every index the 64-bit increment followed by the mask is the increment modulo the ring's size |
| `Bits.MaskIsModulo` | phase0/experiments/ipc_latency_benchmark.c:67 | the bitwise and of any number with one less than a power of two is its remainder by that power |
| `Bits.AndBits` | phase0/experiments/ipc_latency_benchmark.c:67 | a bit of a bitwise and is set exactly where both operands have it |
| `Ring.RingBuffer.constructor` | phase0/experiments/ipc_latency_benchmark.c:58-62 | both indices zero, every slot zeroed, the queue empty |
| `Ring.RingBuffer.Push` | phase0/experiments/ipc_latency_benchmark.c:65-81 | a push run alone is the enqueue of a 1023-place queue: appended, or refused and unchanged when full |
| `Ring.RingBuffer.Pop` | phase0/experiments/ipc_latency_benchmark.c:84-101 | a pop run alone is the dequeue: the oldest message, or nothing from an empty queue |
| `RingThreads.StepKeepsInv` | phase0/experiments/ipc_latency_benchmark.c:65-101 | every single load, copied byte and index store of either thread keeps the invariant: indices are the counters modulo 1024, unread slots are whole, partial copies agree with what they copy, stale indices are still safe |
| `RingThreads.FifoInEveryInterleaving` | phase0/experiments/ipc_latency_benchmark.c:65-101 | in every interleaving the messages popped are a whole, ordered prefix of those pushed, at most 1023 are in flight, and `head` and `tail` are the counters modulo 1024 |
| `RingThreads.StepsRefineTheQueue` | phase0/experiments/ipc_latency_benchmark.c:65-101 | the two index stores are the enqueue and dequeue of the abstract queue, no other step changes it, and "full" and "empty" are true of the queue at the load that decides them |
| `RingThreads.ProducerWritesOnlyFreeSlots` | phase0/experiments/ipc_latency_benchmark.c:66-78 | a copying producer changes no slot but its own, which holds no unread message and is not the one being read |
| `RingThreads.LatencyOfStampedMessage` | phase0/experiments/ipc_latency_benchmark.c:206-236 | a time stamp survives its trip, so a recorded latency is the difference of the two clock readings modulo 2^64 |
| `RingThreads.SomeThreadCanSucceed` | phase0/experiments/ipc_latency_benchmark.c:193-249 | a thread that has not returned always has a step, and push and pop never both have to fail |
| `RingThreads.AtTheEnd` | phase0/experiments/ipc_latency_benchmark.c:220-249 | when both threads have returned the ring is empty and each of the first n latencies was written from its own message; the rest of the array is untouched |
| `RingProgress.ProducerStepRanks` | phase0/experiments/ipc_latency_benchmark.c:193-217 | each producer step on a ring that is not full pushes or comes strictly nearer to pushing |
| `RingProgress.ConsumerStepRanks` | phase0/experiments/ipc_latency_benchmark.c:220-249 | each consumer step on a ring that is not empty pops or comes strictly nearer to popping |
| `RingProgress.FairExecutionsFinish` | phase0/experiments/ipc_latency_benchmark.c:193-249 | for any message count, every execution that starves neither thread for ever finishes, with every message popped |
| `Hub.ClientQueue.PutNowait` | phase3/scripts/telemetry_receiver.py:1039-1043 | a record is appended to a queue of at most 256, or dropped when it is full |
| `Hub.TelemetryHub.Subscribe` | phase3/scripts/telemetry_receiver.py:1025-1029 | a fresh empty queue joins the clients and the newest telemetry record is returned with it |
| `Hub.TelemetryHub.Unsubscribe` | phase3/scripts/telemetry_receiver.py:1031-1034 | exactly that queue leaves; the others keep their order |
| `Hub.TelemetryHub.Publish` | phase3/scripts/telemetry_receiver.py:1036-1043 | `latest` becomes the record and every client is offered it once |
| `Hub.TelemetryHub.PublishEvent` | phase3/scripts/telemetry_receiver.py:1045-1057 | every client is offered the event once and `latest` is untouched |
| `HubRuns.StreamsAreSubsequences` | phase3/scripts/telemetry_receiver.py:1025-1057 | in every interleaving a subscriber's stream is an ordered selection, nothing twice, from what was published after it joined |
| `HubRuns.LatestIsTheNewestTelemetry` | phase3/scripts/telemetry_receiver.py:1025-1057 | `latest` is the newest telemetry record, and every initial record handed out the newest there was when its subscriber joined; neither is ever a reply |
| `HubRuns.WithoutOverflowTelemetryHasNoGap` | phase3/scripts/telemetry_receiver.py:1025-1043 | if its queue never overflowed, the initial record followed by its telemetry is a gap-free run of the telemetry history up to the last record offered |
| `HubRuns.OnlyAFullQueueDrops` | phase3/scripts/telemetry_receiver.py:1025-1057 | over every run the records missing from a stream are exactly those offered while its queue held 256, and the stream is shorter by their number |
| `Sender.FrameIsTheLayout` | phase3/scripts/telemetry_receiver.py:603-636 | a frame is built exactly for a 32-byte key and a query of at most 172 bytes, and is then the one byte string that reads back as the fields given, with a tag over everything before it; ranges and nonce length are no more than the layout asks |
| `Sender.FrameReadsBack` | phase3/scripts/telemetry_receiver.py:603-636 | every field of a frame reads back at its documented big-endian offset, and the tag covers exactly what precedes it |
| `Sender.NextSeq` | phase3/scripts/telemetry_receiver.py:783-795 | the allocated number is above the last one and not below the clock |
| `Sender.ControlSender.AllocateSeq` | phase3/scripts/telemetry_receiver.py:783-795 | allocates that number and remembers it |
| `Sender.ControlSender.Send` | phase3/scripts/telemetry_receiver.py:797-840 | a number is consumed exactly when the locked section is reached; a frame goes out exactly when everything succeeds and carries that number |
| `SenderRuns.WireOrderIsSequenceOrder` | phase3/scripts/telemetry_receiver.py:783-840 | with any number of threads, any clock and any failures, frames reach the wire in strictly increasing order, and a receiver with a replay floor accepts all of them exactly if the first is above it |
| `SenderRuns.AboveTheFloorAllAccepted` | phase3/scripts/telemetry_receiver.py:818-822 | a strictly increasing wire is accepted whole exactly if it is empty or starts above the floor |
| `SenderRuns.RejectionsAreAPrefix` | phase3/scripts/telemetry_receiver.py:818-822 | what such a receiver rejects is exactly the leading run at or below its floor |
| `SenderRuns.LockIsExclusiveAndReleased` | phase3/scripts/telemetry_receiver.py:823-840 | at most one thread is inside the locked section, and one that is can always go on to leave it |
| `Reply.DecodeOfEncode` | phase3/scripts/telemetry_receiver.py:639-697 | every reply of up to 1426 text bytes decodes to itself, whatever bytes follow it |
| `Reply.EncodeOfDecode` | phase3/scripts/telemetry_receiver.py:639-697 | the first 46 + tlen bytes of every accepted payload are the encoding of what was decoded |
| `Reply.AcceptedIffStartsWithEncoding` | phase3/scripts/telemetry_receiver.py:639-697 | a payload is accepted as a reply exactly if it starts with that reply's encoding under the receiver's key |
| `Reply.TrailingBytesAreIgnored` | phase3/scripts/telemetry_receiver.py:639-697 | bytes after the declared end never change a verdict other than "short" or "truncated" |
| `Wire.WireSizes` | phase3/scripts/telemetry_receiver.py:108-122 | the five layouts take 246, 254, 262, 270 and 276 bytes, so length tells them apart |
| `Wire.UnpackOfPack` | phase3/scripts/telemetry_fixture.py:92-125 | unpacking a packing returns each number, and each byte field cut or padded to its width |
| `Wire.TextRoundTripsIff` | phase3/scripts/telemetry_receiver.py:245-247 | a text comes back through a fixed field as given exactly if it fits, is ASCII without NUL, and has no white space at either end |
| `Fixture.OrderIsNaming` | phase3/scripts/telemetry_fixture.py:75-90 | the packer's list of fields and the decoder's tuple name the same fields in the same places, with codes that suit them |
| `Fixture.DecodeOfBuild` | phase3/scripts/telemetry_receiver.py:250-426 | for every wire version and every values that fit, decoding a built packet returns each field the version carries and None for exactly the newer ones; it is refused exactly if its magic was overridden; and `crc_ok` holds exactly if it was finalized or given the right checksum |
| `Fixture.TextFieldsRoundTripIff` | phase3/scripts/telemetry_fixture.py:56-130 | the two text fields of a packet come back as given exactly if they survive their field |
| `Fixture.OlderBodyIsPrefix` | phase3/scripts/telemetry_fixture.py:92-130 | with the same field values, what a version's checksum covers starts what the next version's covers, and the next packet is longer |
| `Fixture.PacketStartsWithMagic` | phase3/scripts/telemetry_fixture.py:75-130 | a built packet starts with the four magic bytes the capture walker looks for |
| `Pcap.WalkFrames` | phase3/scripts/telemetry_receiver.py:573-588 | the offset loop ends on arbitrary bytes and yields what the walk by offsets specifies |
| `Pcap.IterPcapTelemetry` | phase3/scripts/telemetry_receiver.py:556-588 | a capture that is too short or has an unknown magic is refused; otherwise its records are walked in its own byte order and time unit |
| `Pcap.BuildPcapMany` | phase3/scripts/telemetry_fixture.py:139-153 | the global header and one record for each frame, in order; an error exactly if some value does not fit its header field |
| `Framing.WalkOfCut` | phase3/scripts/telemetry_receiver.py:573-588 | a stream of self-delimiting records cut anywhere yields what its leading whole records yield |
| `Framing.WholePartsIsGreatest` | phase3/scripts/telemetry_receiver.py:573-588 | the whole records are as many as the cut has room for |
| `Pcap.CutCaptureYieldsWholeFrames` | phase3/scripts/telemetry_receiver.py:556-588 | a capture in any byte order and time unit, cut at any byte from 24 on, yields what its leading whole frames yield, and nothing for the frame the cut falls in |
| `Pcap.CutCaptureOfCurrentWire` | phase3/scripts/telemetry_receiver.py:556-588 | for any list of current-wire packets, any byte order and time unit, and any cut, the walk yields exactly the frames wholly inside it, in order, each with its time stamp and its decoded packet |
| `CircularLog.SlotsAfter` | phase3/scripts/parse_episodic.py:133-141 | after any number of appends at the cursor, each of the last records is in the slot of its number and slots not reached are untouched |
| `CircularLog.ConventionsAgreeIff` | phase3/scripts/parse_embed_store.py:101-109 | the `total > slots` and `total < slots` conventions differ on exactly one kind of header, a full log whose cursor is not at a multiple of the slots |
| `CircularLog.OrdersOfReachable` | phase3/scripts/parse_episodic.py:133-141 | on every header appends reach, total equal to slots included, both conventions list the slots of the last min(total, slots) records, oldest first |
| `StoreLayout.ParseHeader` | phase3/scripts/parse_episodic.py:110-130 | a header shorter than a sector raises; otherwise the five words are decoded and the checksum is compared without being judged |
| `StoreLayout.HeaderChecksumOkIff` | phase3/scripts/parse_episodic.py:116-120 | `checksum_ok` holds exactly if the first sixteen words XOR to zero |
| `StoreLayout.HeaderChangeIsRejected` | phase3/scripts/parse_episodic.py:116-120 | bytes changed within one of the sixteen words of a good header always break its checksum |
| `StoreLayout.RegionReads` | phase3/scripts/parse_episodic.py:133-160 | for any appends, any capacity and any decoder that stays inside its record, decoding the slots in either order gives the last records appended |
| `StoreLayout.DecodeSlots` | phase3/scripts/parse_episodic.py:144-160 | the reading loop decodes exactly the slots whose sector is in the buffer |
| `EpisodicStore.IterRecords` | phase3/scripts/parse_episodic.py:144-198 | raises on a short buffer; otherwise decodes every slot of the wrap order, none of which is ever outside the buffer |
| `EpisodicStore.EpisodeIsLocal` | phase3/scripts/parse_episodic.py:154-198 | an episode is decoded from its own 512 bytes, whatever its length fields say |
| `EpisodicStore.ReadsTheLastRecords` | phase3/scripts/parse_episodic.py:133-198 | the whole region reads as exactly the last min(total, slots) records appended, oldest to newest |
| `AuditStore.IterRecords` | phase3/scripts/parse_action_audit.py:70-99 | raises on a short buffer; otherwise decodes every slot of the wrap order |
| `AuditStore.ReadsTheLastRecords` | phase3/scripts/parse_action_audit.py:61-99 | the whole region reads as exactly the last min(total, slots) records appended, oldest to newest |
| `Checksum.XorWords` | phase3/scripts/parse_embed_store.py:58-71 | the loop folds exactly the words counted and not skipped |
| `Checksum.XorBits` | phase3/scripts/parse_embed_store.py:70 | a bit of the fold is set exactly where its two operands differ |
| `Checksum.MatchesIffAllXorToZero` | phase3/scripts/parse_embed_store.py:58-71 | for any word count and skip index, a stored checksum matches exactly if all the words involved, itself included, XOR to zero |
| `Checksum.ChangeOfOneWordIsRejected` | phase3/scripts/parse_embed_store.py:112-121 | a change confined to one covered word, or to the checksum, is rejected |
| `Checksum.ReorderingIsAccepted` | phase3/scripts/parse_embed_store.py:112-121 | any reordering of the covered words keeps a match and keeps a mismatch |
| `VectorStore.ParseRecord` | phase3/scripts/parse_embed_store.py:112-139 | a record is decoded, its norm included, with its checksum compared over its other 255 words |
| `VectorStore.RecordMatchesIff` | phase3/scripts/parse_embed_store.py:112-121 | a record's checksum holds exactly if its 256 words XOR to zero |
| `VectorStore.RecordChangeIsRejected` | phase3/scripts/parse_embed_store.py:112-121 | bytes changed within one word of a good record always break its checksum |
| `VectorStore.IterRecords` | phase3/scripts/parse_embed_store.py:142-150 | raises on a short buffer; otherwise yields each record of the wrap order with its logical index |
| `VectorStore.ReadsTheLastRecords` | phase3/scripts/parse_embed_store.py:101-150 | the whole region of two-sector records reads as exactly the last min(total, slots) appended, oldest to newest |
| `StoreFormats.ViewShowsUnpacked` | phase3/scripts/parse_episodic.py:154-172 | reading a record at the offsets of a format gives the numbers unpacking it gives, for every format |
| `StoreFormats.HeaderShows` | phase3/scripts/parse_episodic.py:110-130 | the header's fields are those its five-word format unpacks to, in order |
| `StoreFormats.EpisodeShows` | phase3/scripts/parse_episodic.py:154-165 | an episode's numbers are those its declared format unpacks to, in order |
| `StoreFormats.RecallShows` | phase3/scripts/parse_episodic.py:166-172 | each packed, unaligned recall block shows what its declared format unpacks to |
| `StoreFormats.AuditShows` | phase3/scripts/parse_action_audit.py:29-30 | an audit record's numbers are those its declared format unpacks to, in order |
| `StoreFormats.FactShows` | phase3/scripts/parse_semantic.py:40-41 | a fact's numbers are those its declared format unpacks to, in order |
| `StoreFormats.EntryShows` | phase3/scripts/parse_nvme_log.py:25-27 | a log entry's fixed fields are those its declared format unpacks to, in order |
| `StoreFormats.FormatSizes` | phase3/scripts/parse_episodic.py:28-34 | the formats take the header bytes the readers assume before the text fields |
| `SemanticStore.IterRecords` | phase3/scripts/parse_semantic.py:45-103 | any length but the whole region raises; a header the box would not accept gives nothing; otherwise each fact comes with its slot |
| `SemanticStore.ClampIsIdle` | phase3/scripts/parse_semantic.py:83-86 | clamping the cursor never changes which slots are read |
| `SemanticStore.OrderIsOfTheLast` | phase3/scripts/parse_semantic.py:83-87 | a reachable header lists the slots of the last min(total, 4096) facts, oldest first |
| `SemanticStore.ReadsTheLastRecords` | phase3/scripts/parse_semantic.py:71-103 | the region reads as exactly the last min(total, 4096) facts appended if the box accepts its header, and as nothing if not |
| `NvmeLog.ParseLogHeader` | phase3/scripts/parse_nvme_log.py:30-55 | unlike the other readers it raises on a bad magic |
| `NvmeLog.IterRecords` | phase3/scripts/parse_nvme_log.py:76-94 | raises on a short buffer or a bad magic; otherwise decodes every slot of the wrap order |
| `NvmeLog.PayloadIsOwnIff` | phase3/scripts/parse_nvme_log.py:83-94 | a payload is the record's own exactly if whatever its length declares beyond the sector is NUL or beyond the buffer |
| `NvmeLog.SpilledPayload` | phase3/scripts/parse_nvme_log.py:76-94 | a whole file the reader accepts, of two records, whose first payload is empty and is shown as 497 bytes ending in a byte of the second |
| `NvmeLog.ReadsTheLastRecords` | phase3/scripts/parse_nvme_log.py:58-94 | the whole region reads as one entry for each of the last min(total, slots) records, oldest to newest, with its fixed fields, with its payload exactly under the condition above, and so with its payload for every length up to 496 |
| `Gguf.Skip` | phase3/scripts/dump_gguf_tensors.py:16-25 | skipping ends on every file and never moves the cursor back or past the end |
| `Gguf.SkipConsumesValue` | phase3/scripts/dump_gguf_tensors.py:16-25 | skipping consumes exactly the encoding of every well-formed value, however deeply its arrays nest, and fails exactly on a string too long for one read |
| `Gguf.PrintConsumesLikeSkipIff` | phase3/scripts/dump_gguf_keys.py:58-76 | printing an array that can be skipped consumes the same bytes exactly if it is empty, or its elements are not arrays and, if scalars, are all in the file |
| `Gguf.PrintConsumesValueIff` | phase3/scripts/dump_gguf_keys.py:53-79 | the key dump consumes exactly the encoding of every well-formed value but the non-empty arrays of arrays |
| `GgufFile.GgufFile.Read` | phase3/scripts/dump_gguf_tensors.py:6 | a read returns what there is up to the count and moves the cursor past it, and raises on a count of 2^63 or more |
| `GgufFile.GgufFile.SkipValue` | phase3/scripts/dump_gguf_tensors.py:16-25 | the recursive skipper leaves the cursor where the specification says, or raises as it says |
| `GgufFile.GgufFile.SkipAllKeys` | phase3/scripts/dump_gguf_tensors.py:27-31 | the key loop leaves the cursor where reading the keys one after the other ends |
| `GgufFile.GgufFile.ReadTensorInfos` | phase3/scripts/dump_gguf_tensors.py:34-43 | the tensor loop grows its list by one info after the other |
| `GgufFile.GgufFile.DumpTensors` | phase3/scripts/dump_gguf_tensors.py:4-43 | the whole script builds the list its header, keys and tensor section specify |
| `GgufFile.GgufFile.PrintArray` | phase3/scripts/dump_gguf_keys.py:58-76 | all of up to ten elements are read; of more, three, a skipped middle, and the last |
| `GgufFile.DisplayEndsLikePrint` | phase3/scripts/dump_gguf_keys.py:53-79 | displaying a value leaves the cursor, or fails, as the print path's function of positions says |
| `GgufFile.GgufFile.DumpKeys` | phase3/scripts/dump_gguf_keys.py:9-79 | the whole script shows the keys its header and key section specify, with their types and what is displayed of their values |
| `GgufRoundTrip.TensorsOfFile` | phase3/scripts/dump_gguf_tensors.py:4-43 | on every well-formed file the tensor dump starts at the tensor section and lists exactly its names, dimensions and types; it fails exactly if some string is too long for one read |
| `GgufRoundTrip.ValueDisplayed` | phase3/scripts/dump_gguf_keys.py:53-79 | every well-formed value is displayed as it is: the bytes of a scalar or string; of an array its element type, its count, and all of up to ten elements or the first three and the last |
| `GgufRoundTrip.KeysOfFile` | phase3/scripts/dump_gguf_keys.py:9-79 | on every well-formed file whose keys before the last hold no non-empty array of arrays, the key dump shows exactly the keys, their types and their values' displays |
| `ShieldFramework.ShadowEnvironment.ExecuteShadow` | phase0/experiments/shield_safety_framework.py:75-125 | the sandbox fails exactly for the actions that raise, and otherwise holds the state after the action |
| `ShieldFramework.FailureLearningSystem.RecordFailure` | phase0/experiments/shield_safety_framework.py:253-272 | the failure is recorded and its type's adjustment raised by 0.1 up to 0.5 |
| `ShieldFramework.RollbackManager.CreateSnapshot` | phase0/experiments/shield_safety_framework.py:293-311 | the newest snapshot is kept and the oldest beyond ten dropped |
| `ShieldFramework.RollbackManager.RollbackToSnapshot` | phase0/experiments/shield_safety_framework.py:313-318 | Python's indexing into the snapshots, negative indices included, and an error outside them |
| `ShieldFramework.SHIELDFramework.ValidateAction` | phase0/experiments/shield_safety_framework.py:338-398 | the objects' combined state and the verdict are those of the pipeline's function |
| `ShieldRuns.OnlyDeletesAreLearned` | phase0/experiments/shield_safety_framework.py:253-272 | over every run only deletions are recorded as failures, and exactly the first four that fail; the cap of 0.5 is never reached |
| `ShieldRuns.AdjustmentIsTenthPerFailure` | phase0/experiments/shield_safety_framework.py:253-276 | each type's adjustment is 0.1 times its recorded failures, at most 0.4 |
| `ShieldRuns.VerdictInClosedForm` | phase0/experiments/shield_safety_framework.py:338-398 | the risk and mode of every validation of every run, from its type and the earlier failing deletions alone |
| `ShieldRuns.RiskNeverDecreases` | phase0/experiments/shield_safety_framework.py:338-364 | the risk of a type never decreases as a run goes on |
| `ShieldRuns.BaseRisks` | phase0/experiments/shield_safety_framework.py:134-203 | the base risk of each type: hardware severity and irreversibility together |
| `ShieldRuns.SandboxStaysWithinCharge` | phase0/experiments/shield_safety_framework.py:75-156 | a sandboxed action changes nothing outside the hardware its risk is charged for, and there takes off what it says: 10 of memory down to none, the number of files asked for while that leaves no fewer than none, one service, or the network |
| `ShieldRuns.SnapshotsAreTheLast` | phase0/experiments/shield_safety_framework.py:293-311 | the rollback manager holds the snapshots of the last ten validations, in order |
| `ShieldRuns.SnapshotIdNamesItsOwnIff` | phase0/experiments/shield_safety_framework.py:386-396 | the snapshot number a validation returned still names its own snapshot exactly if none has been dropped or it is the newest |
| `Queue.ResultsDir.RunQueue` | phase7/memory/bench_ms1b.py:1120-1195 | refuses a wrong schema hash before anything else; otherwise leaves the files and returns the lists the run's function specifies |
| `QueueRuns.RunOnlyAdds` | phase7/memory/bench_ms1b.py:1140-1195 | a run changes no existing result, and each it adds is what that key's arm writes |
| `QueueRuns.ResumeIsUninterrupted` | phase7/memory/bench_ms1b.py:1120-1195 | after any number of crashes between arms, re-running reaches the same files and the same done, skipped and stopped as an uninterrupted run |
| `QueueRuns.ProgressStaysWithin` | phase7/memory/bench_ms1b.py:1120-1195 | a run that finds part of another run's results leaves no more than that run would, whatever schema hash is expected |
| `QueueRuns.ResumesIff` | phase7/memory/bench_ms1b.py:1125-1167 | a run resumed after any number of crashes is the uninterrupted one exactly if the arms write the schema hash the queue was told to expect, or none had finished before the crashes |
| `QueueRuns.NothingAfterAStop` | phase7/memory/bench_ms1b.py:1155-1167 | the keys gone through are the leading ones, no result is overwritten, and the keys from a stop on leave no trace |
| `QueueRuns.ListsMeanWhatTheySay` | phase7/memory/bench_ms1b.py:1142-1195 | in every run each done key has a result of this contract and build, each skipped key has none and its reason holds, and a stop is at a result that may not be overwritten or at a render mismatch |
| `Verdict.ChosenIsBest` | phase7/memory/bench_ms1b.py:803-818 | the rule chooses exactly the first of the best runs at validity 0.99 and F1 0.60 or more, and nothing exactly if there is none |
| `Verdict.OperatingKey` | phase7/memory/bench_ms1b.py:1017-1075 | OFF operates unless ON beats it by more than the band; the chosen key if one state was measured; an error on two runs of one state |
| `Verdict.AnswerWasPassedIff` | phase7/memory/bench_ms1b.py:1017-1075 | the answer is one of the keys passed exactly if both states were measured or the chosen key was passed itself |
| `Verdict.AnswerNobodyRan` | phase7/memory/bench_ms1b.py:1020-1028 | a run list on which the answer is a key that was not passed |
| `CopyGate.RunChecks` | phase3/scripts/check_copy_orphans.py:308-441 | the number of failures the four checks and the floors report |
| `CopyGateProofs.PassesIff` | phase3/scripts/check_copy_orphans.py:308-441 | the gate passes exactly if the flag and floors hold, every allowlist entry has a reason, each application's uncompiled copies are exactly its allowlist with no name shared with a compiled source, what it compiles is copied or excused, and header names on its include path are unique |
| `CopyGateProofs.PassingIsDisjointUnion` | phase3/scripts/check_copy_orphans.py:346-398 | with no excuses, a passing application's copies are the disjoint union of its compiled sources and its allowlist |
| `CopyGateProofs.RedirectIsCaught` | phase3/scripts/check_copy_orphans.py:452-481 | for every passing tree, redirecting the copy of any unexcused compiled source to an uncompiled path of the same name makes CHECK 1 report exactly the new path and CHECK 3 exactly the old one |
| `CopyGateProofs.DoubledHeaderIsCaught` | phase3/scripts/check_copy_orphans.py:483-504 | for every passing tree, a second copy of an on-path header elsewhere on the path makes CHECK 4 report its name |
| `Console.Telemetry.Ingest` | phase4/console/telemetry.js:82-111 | one packet changes the whole state as the step function says, corrupt or valid |
| `Console.Telemetry.IngestReply` | phase4/console/telemetry.js:76-80 | a reply enters its own ring and changes nothing else |
| `Console.Telemetry.Watchdog` | phase4/console/telemetry.js:119-124 | a live console turns stale exactly when its last valid packet is older than the limit |
| `Console.RunLiveStdout` | phase3/scripts/telemetry_receiver.py:1389-1417 | the drop reports of the loop are those of the fold over the decoded packets |
| `ConsoleRuns.RingsAreTheNewest` | phase4/console/telemetry.js:76-116 | the feed, the rate buffer and the reply ring are exactly the newest 60, 30 and 30 items, whatever is interleaved |
| `ConsoleRuns.LatestIsValid` | phase4/console/telemetry.js:82-101 | the displayed record is always one whose checksum held, and the newest of them |
| `ConsoleRuns.DroppedCountsMissingIff` | phase4/console/telemetry.js:92-98 | within a boot the dropped count is last less first plus one less the valid packets, exactly if the sequence numbers strictly increased; else it is more |
| `ConsoleRuns.NothingReportedIff` | phase3/scripts/telemetry_receiver.py:1396-1412 | the receiver has reported nothing for a boot exactly if none of its packets skipped a number after the boot's packet before it, whatever is between them |
| `ConsoleRuns.DroppedIsReportedIff` | phase3/scripts/telemetry_receiver.py:1396-1412 | the console's count is at most the sum of the receiver's reports for the boot, and equal to it exactly if none of the boot's packets up to where the console last began to count skipped a number after the boot's packet before it; so whenever a boot's packets are not interleaved with another's |
| `ConsoleRuns.InterleavedBootsDisagree` | phase3/scripts/telemetry_receiver.py:1396-1412 | three packets of two interleaved boots on which the console shows 0 dropped and the receiver has reported 3 |
| `ConsoleRuns.ConnIsOfNewest` | phase4/console/telemetry.js:82-124 | over every history the connection shown depends on the newest packet or end of the stream alone: a corrupt packet is a CRC failure, a valid one is live until some later tick found it too old |
| `Router.MainOrchestrator.ProcessUserQuery` | phase0/experiments/multi_agent_orchestration.py:345-391 | one query is counted and remembered, routed as the selection's function says, and counted as a conflict exactly if it was one |
| `RouterProofs.DeferralIsAnswered` | phase0/experiments/multi_agent_orchestration.py:252-289 | whenever the user agent defers, some specialist answers with confidence at least 0.85 |
| `RouterProofs.HandledIsAnswered` | phase0/experiments/multi_agent_orchestration.py:345-391 | for every query and state, a handled query has an answer and the 0.10 deferral is never selected |
| `RouterProofs.HelpGoesToTheUser` | phase0/experiments/multi_agent_orchestration.py:345-411 | any query containing "help" goes to the user agent, whichever specialists claim it |
| `RouterProofs.UnhandledIff` | phase0/experiments/multi_agent_orchestration.py:345-366 | a query goes unhandled exactly if no specialist claims it and it is, stripped, shorter than two characters or all digits |
| `RouterProofs.FirstBestIsBest` | phase0/experiments/multi_agent_orchestration.py:393-411 | nothing outranks what a selection picks |

## Left out

- Weak-memory behaviour of the ring: sequential consistency is assumed. The latency statistics and printing.
- Sockets, threads as operating-system objects, the HTTP server and its request handler, scapy, and files:
  they are byte strings, step sequences and a map from key to result file.
- The internals of CRC-32, HMAC-SHA256 and SHA-256, which stay uninterpreted.
- The box-side C writers and `decision_cache.h`: the writers are not part of this model beyond the append
  their readers document, so a `total` that no longer fits its 32-bit header field is outside it.
- Partial store dumps after a wrap, which the readers document as reordered; the store theorems are about
  whole regions. The `main` programs and the names shown for codes and recall blocks.
- Text decoding: UTF-8 with replacement is left out and texts are carried as bytes; the packet's ASCII
  fields are decoded. Floats of vectors are carried as bit patterns, and their norm is any function of them.
- The sixth word of the vector store's header, its dimension, which its reader only passes on.
- Float rounding: risks, confidences, F1 and validity are whole thousandths, hundredths and ten-thousandths.
  No threshold of the tables is reached through a rounded sum.
- Wall-clock time: clock readings are parameters. The time stamp of a replayed packet is kept as its
  seconds and fraction, not as their quotient.
- Replay of captures older than the current wire: the walker keeps only payloads of at least its size.
- Numbers given to the packer and the capture builder are natural; negative ones, which `struct.pack`
  refuses, are not represented.
- Python's recursion limit: a GGUF array nested about a thousand deep raises in the original.
- How the GGUF key dump formats the bytes it displays, and the tensor listing's filters. A string length
  below 2^63 that is too much for the memory raises in the original and is a short read here.
- SHIELD snapshots share the service table of the system state they were taken from; snapshots are values
  here, so a later change of that table is not seen in them. Unhashable action types, and a deletion count that is
  infinite or not a number.
- Result files that are not JSON objects, a crash in the middle of writing one, and the inside of a
  benchmark arm beyond its build check, how it ends and what of its result the queue reads.
- Parsing of the build script and of the CMake lists, and the error exits of those parsers. An allowlist
  reason counts as blank if it is ASCII white space.
- Unicode lower-casing and character classes of the router, which are parameters; only that the letters of
  "help" are neither white space nor digits is used. The action names of responses and latencies.
- The console's simulator, event source, subscribers and queries-per-second display; the rest of a record
  is an opaque number.
- All React screens, launchers, model benchmarks and tables of test cases.
