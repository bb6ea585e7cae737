# StreamScope verification model

StreamScope diagnoses RTSP, RTP and H.264 streams from captures and live sessions. Beneath its I/O and
its interface sit algorithms that keep state over unbounded input. This project models the hardest of
them and proves what they promise over every input and every run:

- `tcp_reassembly.dfy`, `tcp_offsets.dfy`, `tcp_window.dfy`, `tcp_coverage.dfy`, `tcp_losses.dfy`: TCP
  segment reassembly, its three limits and skipped holes, and what it may and may not lose. For any
  arrivals the emitted chunks are pieces of received segments in increasing positions. In a stream of any
  length every segment lands where its sender put it exactly as long as each arrives within half the
  sequence space of the position reached, and it does when arrivals stay within 2 MiB of the furthest
  byte. After a SYN, and while no limit fires, what is delivered depends only on which bytes arrived.
- `tcp_decoder.dfy`, `tcp_stream.dfy`, `tcp_connection.dfy`, `tcp_messages.dfy`: the interleaved-frame and
  RTSP decoder (section 10.12 of RFC 2326) and both parts wired together. A captured direction yields
  exactly the messages that were sent, however it was segmented, reordered and retransmitted; with loss,
  no message spans a hole.
- `complex_field.dfy`, `fft.dfy`: the in-place radix-2 Fourier transform in exact arithmetic.
- `depacketizer.dfy`, `depacketizer_fates.dfy`: RTP depacketisation of single NAL units, STAP-A and FU-A
  (sections 5.6, 5.7.1 and 5.8 of RFC 6184), its round trips, what it never does under loss, duplication
  and reordering, and the issue it records for each unit it loses.
- `annexb.dfy`, `annexb_round_trip.dfy`: three Annex B readers, exactly when they agree, and how they read
  back what an encoder writes.
- `rtp_spool.dfy`: the record codec, the bounded cache of append writers, sequence extension, the sort.
- `bits.dfy`, `hrd_syntax.dfy`: the bit reader against its writer, emulation prevention, the slice header,
  and the HRD parameters of an SPS.
- `frames.dfy`, `frame_meaning.dfy`, `hrd_simulation.dfy`, `hrd_report.dfy`: the partition of NALUs into
  frames and access units, the join that numbers NALUs, and the coded picture buffer simulation.
- `plugin_planner.dfy`: the plugin install planner and the install loop that relies on its order.
- `calls.dfy`, `call_meaning.dfy`: the SIP test-call engine's session table, retransmission timer and RTP
  counters.
- `wrappers.dfy`: `Option`, `Result`, bytes, and the functions the components share.

Code that changes state is modelled as classes and methods with loops. Each such method is proved
against functions on values that define one transition, and the theorems about whole runs are lemmas
about those functions. `dafny verify dfyconfig.toml` checks everything.

Four results are exact conditions rather than plain promises:

- The streaming Annex B iterator and the whole-buffer splitter yield the same list if and only if no
  start code but the first is preceded by four or more zero bytes (`AnnexB.StreamingIsSplitting`). On the
  bytes 0 0 1 9 0 0 0 0 1 they differ (`AnnexB.LongCodeDiffers`).
- The bits of all access units and of the pending prefix add up to the bytes seen if and only if no
  slice precedes the first frame start, that is, if the first slice starts a frame, and no 64-bit counter
  saturates (`Frames.BitsConserved`, `Frames.FirstSliceStarts`). Slices before the first start are dropped
  from the count; a stream of one slice that begins behind its first macroblock shows it
  (`Frames.LoneSliceDropped`).
- The ranged reader's unit numbers are those of the streaming list if and only if no unit behind a start
  code is empty (`AnnexB.RangedNumbering`); two adjacent start codes shift them (`AnnexB.EmptyUnitShifts`).
- Segments land where their sender put them if and only if each one is in reach when it arrives
  (`TcpOffsets.RunPlaces`).

## Model

| member | source | states |
|---|---|---|
| TcpReassembly.Unwrap | crates/capture/src/tcp.rs:31-39 | the position is congruent to the distance from the anchor and lies in the window of 2^32 positions around the reference |
| TcpReassembly.UnwrapUnique | crates/capture/src/tcp.rs:31-39 | no other position in that window is congruent, so the unwrap is determined |
| TcpOffsets.RunPlaces | crates/capture/src/tcp.rs:28-149 | every run, holes skipped or not, of a stream of any length: each segment is at its offset from the first arrival if and only if each arrival started within half the sequence space of the position reached when it came |
| TcpWindow.NearReaches | crates/capture/src/tcp.rs:31-39 | arrivals are in reach if none is further than half the sequence space from any before it |
| TcpWindow.Lag | crates/capture/src/tcp.rs:85-140 | with at most 256 chunks waiting and no long stretch between them, the position reached stays within 772 strides of 2 MiB of the furthest byte |
| TcpWindow.SteadyReaches | crates/capture/src/tcp.rs:28-140 | a capture of any length, lossy or not, is in reach throughout if every arrival starts within 2 MiB of the furthest byte that arrived before it and carries at most 2 MiB |
| TcpReassembly.DrainSound | crates/capture/src/tcp.rs:98-124 | draining keeps every pending chunk a piece of one received segment and the byte count their sum |
| TcpReassembly.DrainChain | crates/capture/src/tcp.rs:98-124 | draining emits one gapless, unflagged run from the old `expected` to the new one |
| TcpReassembly.DrainConserves | crates/capture/src/tcp.rs:98-124 | bytes emitted, still pending and counted as retransmitted add up over a drain |
| TcpReassembly.SkipInv | crates/capture/src/tcp.rs:126-140 | skipping a hole counts one gap, flags exactly the first chunk behind it and keeps the invariant |
| TcpReassembly.FinishInv | crates/capture/src/tcp.rs:142-149 | finishing keeps the invariant |
| TcpReassembly.PushInv | crates/capture/src/tcp.rs:28-96 | every push keeps the invariant, whatever arrives |
| TcpReassembly.RunInv | crates/capture/src/tcp.rs:27-149 | every run, SYN or not: chunks are pieces of received segments in strictly increasing positions, adjacent unless flagged, and `gaps` counts the flags |
| TcpReassembly.PushBound | crates/capture/src/tcp.rs:89-94 | at most 256 segments wait after any push; the byte limit only triggers a skip and is no such bound |
| TcpReassembly.EmittedInOrder | crates/capture/src/tcp.rs:98-148 | emitted byte positions strictly increase over a whole run |
| TcpReassembly.PushConserves | crates/capture/src/tcp.rs:28-96 | received bytes are emitted, pending or counted as retransmitted, except those of a shorter chunk that a longer one at its position supersedes |
| TcpLosses.PushKeeps | crates/capture/src/tcp.rs:28-149 | a push loses no byte that waited or that it brings, from `expected` on: it is emitted or waits |
| TcpLosses.RunLosesNothing | crates/capture/src/tcp.rs:27-149 | every run: a byte that arrived is emitted or waits, unless the stream had passed its position when it came or a SYN fixed the start behind it |
| TcpLosses.NothingMissing | crates/capture/src/tcp.rs:80-124 | without a SYN and a skipped hole, every byte received from the first emitted one on is emitted or waits |
| TcpLosses.PushBegins | crates/capture/src/tcp.rs:77-88 | without a SYN nothing is emitted until 16 chunks or 64 KiB wait or one comes 200 ms after the oldest; then the first chunk emitted is the whole one at the least position waiting |
| TcpLosses.PushGivesUp | crates/capture/src/tcp.rs:77-96 | a push emits what is contiguous; a hole is given up exactly when then more than 64 KiB or 256 chunks wait, or anything does and the arrival came two seconds after the oldest that waited: one gap, and the next chunk is the first that waits, flagged |
| TcpLosses.DuplicateIgnored | crates/capture/src/tcp.rs:68-74 | a chunk no longer than the one waiting at its position changes nothing but a counter |
| TcpLosses.LateCounted | crates/capture/src/tcp.rs:48-59 | bytes below `expected` are counted as late exactly once a hole has been skipped |
| TcpReassembly.Reassembly.Push | crates/capture/src/tcp.rs:28-96 | the push on fields is the modelled transition: new state and output |
| TcpReassembly.Reassembly.Insert | crates/capture/src/tcp.rs:62-79 | a chunk is kept unless an at least as long one waits at its position; the byte count follows |
| TcpReassembly.Reassembly.Drain | crates/capture/src/tcp.rs:98-124 | the loop computes the drain transition |
| TcpReassembly.Reassembly.SkipGap | crates/capture/src/tcp.rs:126-140 | the method computes the skip transition |
| TcpReassembly.Reassembly.Finish | crates/capture/src/tcp.rs:142-149 | the loop skips holes until nothing is pending |
| TcpCoverage.DrainTracking | crates/capture/src/tcp.rs:98-124 | after a drain, `expected` is the least position not received and `pending` holds exactly the received bytes beyond it |
| TcpCoverage.PushCalm | crates/capture/src/tcp.rs:28-96 | an arrival after the SYN that fires no limit continues the stream without a hole up to the new frontier and keeps that tracking |
| TcpCoverage.CaptureDelivers | crates/capture/src/tcp.rs:28-88 | repeated SYNs, data on a SYN and empty segments leave what the plain delivery of the same segments behind the SYN leaves |
| TcpCoverage.ArrivalOrder | crates/capture/src/tcp.rs:28-124 | a capture that begins with its SYN and skips no hole: frontier, pending bytes and emitted stream are those of the set of received bytes, in whatever order they came, however often the SYN is repeated and whether or not it carries data |
| TcpCoverage.GapsGrow | crates/capture/src/tcp.rs:126-134 | the gap counter never decreases along a delivery |
| TcpCoverage.NoLimitFires | crates/capture/src/tcp.rs:89-94 | a condition on the arrivals alone (256 segments, 64 KiB, two seconds behind an open hole) under which no hole is ever skipped |
| TcpCoverage.CaughtUpEmpty | crates/capture/src/tcp.rs:98-124 | once the frontier reaches the last received byte nothing is pending |
| TcpDecoder.StartsRtspStable | crates/capture/src/tcp.rs:311-327 | fourteen bytes decide whether an RTSP method or status line starts here |
| TcpDecoder.HeaderEndStable | crates/capture/src/tcp.rs:216-228 | a header end once found stays the same when more bytes follow |
| TcpDecoder.FirstCandidateStable | crates/capture/src/tcp.rs:253-264 | no later byte can create a resynchronisation point before the first one |
| TcpDecoder.ResyncStable | crates/capture/src/tcp.rs:253-264 | dropping garbage in steps equals dropping it at once |
| TcpDecoder.DecodeExtends | crates/capture/src/tcp.rs:171-267 | decoding a part and then the rest behind what was left over equals decoding the whole, garbage included |
| TcpDecoder.DecodeConserves | crates/capture/src/tcp.rs:171-287 | every byte is framed, discarded or left over |
| TcpDecoder.DecodeOrder | crates/capture/src/tcp.rs:171-267 | frames are non-empty, disjoint and in order, and end before what is left over |
| TcpDecoder.DecodeSlices | crates/capture/src/tcp.rs:206-252 | every frame is the slice of the input at its position |
| TcpDecoder.DecodeRest | crates/capture/src/tcp.rs:171-287 | what is left over is the end of the input |
| TcpDecoder.DropSpansBytes | crates/capture/src/tcp.rs:269-283 | discarding shortens the spans by exactly the bytes discarded |
| TcpDecoder.ParseConsistent | crates/capture/src/tcp.rs:171-283 | span lengths sum to the buffer length after any push |
| TcpDecoder.Decoder.Push | crates/capture/src/tcp.rs:171-267 | a push is clearing at a discontinuity, taking in the chunk and decoding all of it; the state and messages are those of the specification |
| TcpDecoder.Decoder.Discard | crates/capture/src/tcp.rs:269-283 | removes exactly the first bytes from buffer and spans |
| TcpMessages.NamedExactly | crates/capture/src/tcp.rs:311-327 | the decoder recognises exactly the eleven names |
| TcpMessages.EncodedSays | crates/capture/src/tcp.rs:206-252 | a sent message, encoded and taken off the stream, has the channel and payload or the text that were sent |
| TcpMessages.GarbageSkipped | crates/capture/src/tcp.rs:253-264 | garbage in front of messages is dropped and counted byte for byte and costs none of them |
| TcpMessages.GarbageWaits | crates/capture/src/tcp.rs:253-264 | of bytes in which no message can begin the last 15 are kept |
| TcpMessages.BadFrameDropped | crates/capture/src/tcp.rs:191-205 | a frame header with a length below 4 or another version is stepped over by one byte |
| TcpMessages.OverlongCleared | crates/capture/src/tcp.rs:221-247 | a header beyond 64 KiB without a blank line, and a message beyond 256 KiB, clear the buffer |
| TcpMessages.BufferCleared | crates/capture/src/tcp.rs:179-184 | a buffer beyond 256 KiB is cleared unread |
| TcpMessages.HeaderAwaited | crates/capture/src/tcp.rs:216-228 | up to 64 KiB a header without a blank line is waited for |
| TcpMessages.BufferRead | crates/capture/src/tcp.rs:179-190 | up to 256 KiB everything in the buffer is decoded |
| TcpStream.NoFrameSpansAHole | crates/capture/src/tcp.rs:171-176 | over any chunks with flagged holes every message is one contiguous slice of the true stream, and messages are disjoint and increasing |
| TcpMessages.MessagesCut | crates/capture/src/tcp.rs:206-252 | over any chunks, every message handed over re-encodes to the bytes of its frame |
| TcpMessages.FeedConserves | crates/capture/src/tcp.rs:171-287 | every byte handed to the decoder is in a message, discarded or buffered, through holes, garbage and cleared buffers |
| TcpStream.CaptureNeverFabricates | crates/capture/src/lib.rs:744-752 | reassembly and decoder together under any loss, duplication and reordering, for a stream of any length whose arrivals are in reach: from the bytes the sender put at each offset, every message is one contiguous slice of the sender's stream, in order and disjoint |
| TcpMessages.LossyMessages | crates/capture/src/lib.rs:744-752 | and each message, re-encoded, is that slice of the sender's stream |
| TcpStream.ChunkingIndependence | crates/capture/src/tcp.rs:171-287 | without a hole or a size limit, messages, discarded bytes, buffer and spans depend only on the concatenated bytes, garbage included |
| TcpStream.WellFormedTakes | crates/capture/src/tcp.rs:190-252 | a complete interleaved frame of version 2 or RTSP message is taken off the front as it is |
| TcpStream.UnfinishedWaits | crates/capture/src/tcp.rs:190-247 | an unfinished message is waited for, not discarded |
| TcpStream.DecodeBeginning | crates/capture/src/tcp.rs:171-267 | any beginning of a well-formed stream decodes to every message that is whole in it, and what is left over is shorter than the next message |
| TcpStream.MessagesLabelled | crates/capture/src/tcp.rs:209-252 | every message carries the metadata of the chunk that brought its first byte |
| TcpStream.WholeStreamCalm | crates/capture/src/tcp.rs:179-184 | no size limit clears the buffer while each message plus one chunk fits |
| TcpStream.EndToEnd | crates/capture/src/lib.rs:744-752 | SYN first, any order, overlap and retransmission, SYNs repeated or carrying data, no hole skipped: decoded messages are exactly those whole in the contiguous part, and the buffer is shorter than the next one |
| TcpMessages.SentSoFar | crates/capture/src/lib.rs:744-752 | in terms of what was sent: the messages so far are the first ones sent, channel, payload and text |
| TcpConnection.Direction.OnSegment | crates/capture/src/lib.rs:744-752 | one segment through reassembly and decoder extends the run by its transition |
| TcpConnection.Direction.OnClose | crates/capture/src/lib.rs:764-772 | closing flushes reassembly into the decoder |
| TcpConnection.Replay | crates/capture/src/lib.rs:744-772 | messages, gaps and discarded bytes of a capture are those of its run |
| TcpConnection.CaptureRecoversMessages | crates/capture/src/lib.rs:744-772 | a captured direction that begins with its SYN, repeated or carrying data or not, and holds every byte of a well-formed stream yields exactly its messages; nothing is skipped, discarded or left over |
| TcpMessages.CaptureRecoversSent | crates/capture/src/lib.rs:744-772 | in terms of what was sent: a captured direction that holds every byte yields exactly the messages sent, each with its channel and payload or its text and the metadata of the chunk with its first byte |
| Fft.RevInvolutive | crates/audio/src/lib.rs:1351-1363 | reversing the bits of an index twice gives it back |
| Fft.NextReversed | crates/audio/src/lib.rs:1353-1358 | the reversed-carry increment steps from the reversal of `index - 1` to that of `index` |
| Fft.Permute | crates/audio/src/lib.rs:1351-1363 | for every power-of-two length the swap loop applies exactly the bit-reversal permutation to both arrays |
| Fft.DftSplit | crates/audio/src/lib.rs:1364-1387 | a transform of even length is its even half plus the twiddled odd half |
| Fft.DftPeriodic | crates/audio/src/lib.rs:1364-1387 | the transform is periodic when the root's order divides its length |
| Fft.RootHalf | crates/audio/src/lib.rs:1366-1367 | each stage's root, up to the size of the transform, raised to half the block is -1 |
| Fft.Combine | crates/audio/src/lib.rs:1371-1380 | one butterfly turns the half transforms of a block into two entries of its transform |
| Fft.Butterfly | crates/audio/src/lib.rs:1374-1380 | in place, the pair becomes sum and difference with the twiddled value and nothing else changes |
| Fft.Block | crates/audio/src/lib.rs:1369-1384 | the inner loop applies every butterfly of one block with running powers of the step |
| Fft.Stage | crates/audio/src/lib.rs:1365-1386 | one stage transforms all blocks |
| Fft.StageTransforms | crates/audio/src/lib.rs:1365-1386 | a stage carries block transforms of 2^s points to block transforms of 2^(s+1) points |
| Fft.FftInPlace | crates/audio/src/lib.rs:1349-1388 | the arrays end up holding exactly the discrete Fourier transform of their input |
| RtpDepacketizer.HeaderBits | crates/h264/src/packetization.rs:112-114 | FU indicator and header give back start, end and the original NAL header |
| RtpDepacketizer.AggregateReads | crates/h264/src/packetization.rs:77-105 | reading an aggregation body gives back its units, from any cursor |
| RtpDepacketizer.PlanRoundTrip | crates/h264/src/packetization.rs:77-186 | single, aggregated or fragmented units sent in order from any sequence number, wrap included, come back complete with the right first and last sequence and no issue |
| RtpDepacketizer.StreamRoundTrip | crates/h264/src/packetization.rs:28-186 | the same for a whole stream of such packets |
| RtpDepacketizer.NeverFabricates | crates/h264/src/packetization.rs:107-186 | under any loss, duplication and reordering of at most 65536 consecutive packets every complete unit is one that was sent, byte for byte |
| RtpDepacketizer.LossyChannel | crates/h264/src/packetization.rs:28-75 | the same on the packets of a packetised stream, finishing included |
| RtpDepacketizer.AuditPush | crates/h264/src/packetization.rs:28-53 | a push keeps the account of losses: every incomplete unit so far has its own issue, and the open assembly is made of packets that arrived and has its issue as soon as it is broken |
| RtpDepacketizer.EveryLossReported | crates/h264/src/packetization.rs:28-186 | over any packets whatsoever every incomplete unit is made of packets that arrived and has an issue of its own, later than those of the units before it and recorded no later than by the packet that handed that unit over: its end never came, or one of its own packets broke it |
| RtpFates.EveryPacketAccounted | crates/h264/src/packetization.rs:28-186 | any packets: at any moment every packet pushed has an issue under its own sequence number and timestamp, is handed over with all it carries, or is in the unit being assembled |
| RtpFates.NothingVanishes | crates/h264/src/packetization.rs:28-186 | at the end of the input every packet is handed over or has such an issue |
| RtpFates.RefusedReported | crates/h264/src/packetization.rs:28-53 | an empty packet, an unsupported type, a missing FU header and a fragment without a start are each reported under their own numbers and change nothing else |
| RtpFates.AggregateHandedOver | crates/h264/src/packetization.rs:77-105 | an aggregation packet hands over its units and is reported exactly when what follows them is no unit |
| RtpFates.SingleHandedOver | crates/h264/src/packetization.rs:34-42 | a single NAL unit is handed over as it is |
| RtpDepacketizer.Depacketizer.Push | crates/h264/src/packetization.rs:28-53 | the method computes the modelled transition and output |
| RtpDepacketizer.Depacketizer.Finish | crates/h264/src/packetization.rs:55-75 | gives up an open assembly and reports it |
| RtpDepacketizer.Depacketizer.ParseStapA | crates/h264/src/packetization.rs:77-105 | the cursor loop computes the aggregated units and reports a bad length |
| RtpDepacketizer.Depacketizer.PushFuA | crates/h264/src/packetization.rs:107-186 | the method computes the fragment transition |
| AnnexB.AnnexBNalus.Next | crates/analyzer/src/lib.rs:166-224 | yields the first unit still to come, none at the end |
| AnnexB.AnnexBNalus.ReadChunk | crates/analyzer/src/lib.rs:195-222 | consumes one buffer, or its beginning up to the end of a unit, without changing what is to come |
| AnnexB.Collect | crates/analyzer/src/lib.rs:166-224 | over every partition of the input into buffers the iterator yields the same list |
| AnnexB.SplitAnnexB | crates/h264/src/analyze.rs:385-419 | the splitter returns the non-empty pieces between start codes |
| AnnexB.FindCodes | crates/h264/src/analyze.rs:385-399 | the index loop finds the start codes of the left-to-right scan |
| AnnexB.SplitRefinesScan | crates/h264/src/analyze.rs:385-419 | lists of splitter and iterator differ by exactly the excess zero bytes |
| AnnexB.StreamingIsSplitting | crates/analyzer/src/lib.rs:166-224 | the two lists are equal if and only if no start code but the first is preceded by four or more zero bytes |
| AnnexB.LongCodeDiffers | crates/analyzer/src/lib.rs:166-224 | on an input with four zero bytes before its second start code the two lists differ |
| AnnexBRoundTrip.IteratorRoundTrip | crates/analyzer/src/lib.rs:166-224 | units an encoder writes behind start codes, with any number of extra zero bytes and anything in front, are read back |
| AnnexBRoundTrip.SplitterRoundTrip | crates/h264/src/analyze.rs:385-419 | and by the splitter exactly when there is no long code |
| AnnexBRoundTrip.RangedRoundTrip | crates/analyzer/src/video_syntax.rs:32-78 | and by the ranged reader, each where it stands in the input |
| AnnexB.RangedLocated | crates/analyzer/src/video_syntax.rs:32-78 | every ranged unit lies in the input at its offset and numbers count up |
| AnnexB.RangedIsStreaming | crates/analyzer/src/video_syntax.rs:32-78 | the non-empty units of the ranged scan are those of the iterator |
| AnnexB.RangedNumbering | crates/analyzer/src/video_syntax.rs:32-78 | unit k of the ranged reader is the k-th of the iterator, for all k, if and only if no unit behind a start code is empty |
| AnnexB.EmptyUnitShifts | crates/analyzer/src/video_syntax.rs:32-78 | on an input with two adjacent start codes the numbers differ |
| AnnexB.ReadRange | crates/analyzer/src/video_syntax.rs:32-78 | for any buffer partition the result is the non-empty units first..last with offsets, or an error exactly when they exceed the limit |
| AnnexB.RangeIsStreaming | crates/analyzer/src/video_syntax.rs:32-78 | without an empty unit behind a start code the result is units first..last of the streaming list, each with its number and its place in the input, or an error if and only if these units together exceed the limit |
| RtpSpool.RecordRoundTrip | crates/capture/src/lib.rs:211-248 | a record reads back identically, with what follows untouched, exactly when its payload is at most 65535 bytes |
| RtpSpool.RecordLayout | crates/capture/src/lib.rs:212-221 | where each field stands in the 36 bytes, least significant byte first, and the payload behind them |
| RtpSpool.TruncatedRecord | crates/capture/src/lib.rs:222-248 | a record cut short anywhere is an error |
| RtpSpool.FileRoundTrip | crates/capture/src/lib.rs:1279-1297 | a file of such records reads back as exactly those records, in order |
| RtpSpool.Spools.Oldest | crates/capture/src/lib.rs:260-265 | the writer with the least tick |
| RtpSpool.Spools.Write | crates/capture/src/lib.rs:256-281 | keeps disk plus buffer of every stream equal to the encodings of its records, at most 128 writers open, and those the most recently used |
| RtpSpool.Spools.Finish | crates/capture/src/lib.rs:283-288 | every file holds the encodings of its stream's records and reads back as them |
| RtpSpool.RecentWrite | crates/capture/src/lib.rs:258-279 | after evicting the least recently used of 128 writers the open ones are again the most recently used |
| RtpSpool.ExtensionIsTrueIndex | crates/capture/src/lib.rs:1157-1159 | while each true index stays in the signed 16-bit window around the highest before it, the extended number is the true index plus a constant, over any number of wraps |
| RtpSpool.Numbering.Observe | crates/capture/src/lib.rs:1157-1159 | one packet: the extended number is its true index plus the offset, and the running maximum follows |
| RtpSpool.SortIsStable | crates/capture/src/lib.rs:1299 | the sort orders by key, keeps every entry, and keeps arrival order among equal keys |
| RtpSpool.SortRestoresSendOrder | crates/capture/src/lib.rs:1299 | sorting by extended number lists whatever arrived in send order |
| Bits.BitReader.ReadBit | crates/h264/src/bit.rs:23-31 | the next bit of the byte string, most significant first, or the end |
| Bits.BitsOfByte | crates/h264/src/bit.rs:23-31 | the bits of a byte, most significant first |
| Bits.BitReader.ReadBits | crates/h264/src/bit.rs:33-42 | the number the next bits spell, within 32 bits; overflow above 32; the position in every case |
| Bits.BitReader.ReadUe | crates/h264/src/bit.rs:44-56 | an Exp-Golomb code read as n zeros and n+1 bits, with both errors and the position |
| Bits.BitReader.ReadSe | crates/h264/src/bit.rs:58-66 | the signed mapping of the code, within 32 bits |
| Bits.UeExact | crates/h264/src/bit.rs:44-56 | a code is read as a value up to a position if and only if it is that value's printed code |
| Bits.FirstCodes | crates/h264/src/bit.rs:44-66 | the first codes of the standard and their signed values, bit by bit |
| Bits.FieldsRoundTrip | crates/h264/src/bit.rs:33-66 | any list of fixed-width, unsigned and signed elements reads back identically from wherever it stands |
| Bits.PackExact | crates/h264/src/parameter.rs:527-540 | packing whole bytes and reading their bits gives the bit string back |
| Bits.BitWriter.Bits | crates/h264/src/parameter.rs:512-516 | appends the low bits of the value, most significant first |
| Bits.BitWriter.Ue | crates/h264/src/parameter.rs:518-525 | appends the Exp-Golomb code of any value below 2^32 - 1; for the last value the original's addition overflows |
| Bits.BitWriter.Finish | crates/h264/src/parameter.rs:527-540 | closes with a one bit, pads and packs |
| Bits.WriterRoundTrip | crates/h264/src/parameter.rs:507-541 | what the writer produced, closed and packed, reads back as written |
| Bits.EbspToRbsp | crates/h264/src/bit.rs:69-85 | the loop removes a 3 behind two zeros, counting afresh after it |
| Bits.EscapeRoundTrip | crates/h264/src/bit.rs:69-85 | removal inverts emulation-prevention insertion on every byte string |
| Bits.UnescapeInvertible | crates/h264/src/bit.rs:69-85 | insertion inverts removal exactly on escaped strings: after two zeros no byte below 3, and a 3 only before a byte up to 3 |
| Bits.ParseSliceHeader | crates/h264/src/parameter.rs:191-206 | the parser computes the specified header or error |
| Bits.SliceHeaderRoundTrip | crates/h264/src/parameter.rs:191-206 | every encoded slice header, escaped and with anything behind it, is parsed as encoded |
| HrdSyntax.ParseHrd | crates/h264/src/parameter.rs:329-366 | the parser computes the specified parameters or error and leaves the reader behind them |
| HrdSyntax.ParsedIsWellFormed | crates/h264/src/parameter.rs:329-366 | accepted parameters have 1 to 32 CPBs with an entry each, attained maxima, rates below 2^53 and delay widths of 1 to 32 bits |
| HrdSyntax.HrdRoundTrip | crates/h264/src/parameter.rs:329-366 | parameters written element by element are parsed as written |
| HrdSyntax.DeclaredRoundTrip | crates/h264/src/parameter.rs:329-366 | rates, sizes, flags and the four field lengths an encoder declares are parsed as declared, scaled by their exponents |
| HrdSyntax.TooManyCpbs | crates/h264/src/parameter.rs:330-333 | more than 32 CPBs are refused |
| Frames.FrameIsHull | crates/h264/src/analyze.rs:824-885 | frame k runs from the slice that starts it to the last slice before the next start, holds exactly its own slices, is complete when all are and IDR when one is |
| Frames.HullsOrdered | crates/h264/src/analyze.rs:849-885 | intervals of different frames are disjoint and increasing |
| Frames.DecideStart | crates/h264/src/analyze.rs:815-823 | the decision taken with the timestamp set is the one defined on the NALUs before |
| FrameMeaning.StartsExactly | crates/h264/src/analyze.rs:790-823 | from bytes: a frame starts exactly at a slice of type 1 or 5 with first macroblock 0, or with an unreadable header and no timestamp or a new one |
| FrameMeaning.EncodedStarts | crates/h264/src/analyze.rs:815-823 | an encoder's NALU starts a frame exactly when its type is 1 or 5 and its first macroblock 0 |
| Frames.FramesContinue | crates/h264/src/analyze.rs:878-885 | a slice beyond the cap of 50,000 frames leaves the kept ones as they are |
| Frames.Analyze | crates/h264/src/analyze.rs:640-954 | the scan yields the first 50,000 frames, one access unit per frame in order with exactly what it owns as saturating 64-bit counters show it, and the naive search's number for every NALU |
| FrameMeaning.OnePicture | crates/h264/src/analyze.rs:640-954 | other NALUs and the slices of one picture give one frame over the slices, IDR exactly when one is of type 5, and one access unit over all of them |
| FrameMeaning.PictureEpoch | crates/h264/src/analyze.rs:706-722 | its epoch and timing are those of the last SEI NALU in front of the slices |
| FrameMeaning.OneSlice | crates/h264/src/analyze.rs:790-885 | one encoded slice from the first macroblock on is one frame and one access unit |
| FrameMeaning.FrameSequence | crates/h264/src/analyze.rs:878-881 | a frame's last sequence number is that of the last of its slices that has one |
| FrameMeaning.FirstListed | crates/h264/src/analyze.rs:667-683 | the NALUs listed are the first 100,000 that are not empty |
| FrameMeaning.FramesKept | crates/h264/src/analyze.rs:848-877 | the first 50,000 frames are kept |
| Frames.SatAbsorbed | crates/h264/src/analyze.rs:696-721 | counting a NALU with saturating additions shows what counting it exactly would show, capped |
| Frames.OwnedComplete | crates/h264/src/analyze.rs:696-700 | an access unit is complete when every NALU it owns is |
| Frames.OwnedEpoch | crates/h264/src/analyze.rs:716-718 | it carries the HRD epoch its own SEI NALUs brought last |
| Frames.OwnedTiming | crates/h264/src/analyze.rs:719-721 | it carries the picture timing its own SEI NALUs brought last |
| Frames.BitsOwned | crates/h264/src/analyze.rs:696-700 | every bit belongs to exactly one access unit, the pending prefix, or the slices before the first frame |
| Frames.BitsConserved | crates/h264/src/analyze.rs:824-838 | access units and prefix never hold more than 8 times the bytes seen, and hold exactly that if and only if no slice precedes the first frame start and no counter saturates |
| Frames.ShortStreamFits | crates/h264/src/analyze.rs:696-700 | no counter saturates in a stream below 2^64 bits |
| Frames.FirstSliceStarts | crates/h264/src/analyze.rs:886-889 | that condition holds exactly when the first slice starts a frame |
| Frames.LoneSliceDropped | crates/h264/src/analyze.rs:824-838 | the bits of a slice that begins behind its first macroblock, alone in its stream, are counted nowhere |
| Frames.Join | crates/h264/src/analyze.rs:937-951 | the single pass with a cursor equals the naive search for every NALU |
| Frames.SliceNumbered | crates/h264/src/analyze.rs:937-951 | a slice gets its own frame's number exactly when that frame is among the first 50,000, otherwise none |
| HrdSimulation.SimulatedStep | crates/h264/src/analyze.rs:229-288 | a unit is simulated exactly when a usable epoch starts at or before it and every unit since is complete and timed |
| HrdReport.SimulatedExactly | crates/h264/src/analyze.rs:232-288 | a unit is simulated exactly when it is complete and timed and brings a single-CPB constant-rate epoch with a clock, or brings none and follows a simulated unit |
| HrdReport.DeltaExact | crates/h264/src/analyze.rs:293-295 | the ticks between two removal delays carry the first to the second modulo the field width |
| HrdReport.FirstFullness | crates/h264/src/analyze.rs:271-276 | the first unit of an epoch sees rate times initial delay over 90000 |
| HrdReport.NextFullness | crates/h264/src/analyze.rs:290-308 | a later unit sees what was left and the bits of the ticks its removal delay advanced, and repeats exactly when that is 0 |
| HrdReport.EvenInflow | crates/h264/src/analyze.rs:290-304 | a run whose delays advance evenly receives the same bits between any two removals |
| HrdSimulation.BucketConserves | crates/h264/src/analyze.rs:290-308 | without saturation, fullness before a removal is what arrived less what was removed plus exactly the underflow shortfalls |
| HrdSimulation.BalanceIff | crates/h264/src/analyze.rs:290-308 | it is the plain balance exactly when no earlier unit of the epoch underflowed |
| HrdSimulation.NoSilentStop | crates/h264/src/analyze.rs:230-288 | a limitation is recorded exactly for a unit that brings an epoch or follows a simulated one and is not simulated |
| HrdSimulation.Simulate | crates/h264/src/analyze.rs:214-353 | counts, extremes, overflows, underflows and repeats range over all simulated units; points are the first 50,000 |
| HrdReport.PointMeans | crates/h264/src/analyze.rs:305-338 | a point shows both levels; overflow is a level above the buffer size, underflow one below the bits of the unit |
| HrdReport.ReportMeans | crates/h264/src/analyze.rs:309-341 | the report counts exactly the simulated units, shows the first 50,000, and lists exactly those that overflow, underflow or repeat |
| HrdReport.ReasonMeans | crates/h264/src/analyze.rs:232-288 | which reason a unit is given |
| HrdReport.ExampleRun | crates/h264/src/analyze.rs:1150-1206 | two units worked out: 90,000 bits, then 100,000 and an underflow |
| PluginPlanner.OrderHasNoCycle | apps/desktop/src/pluginInstallPlan.ts:45-46 | a planned order rules out every dependency cycle |
| PluginPlanner.ActiveCycle | apps/desktop/src/pluginInstallPlan.ts:26 | meeting a plugin still being visited exhibits a dependency cycle through it |
| PluginPlanner.GrownReachable | apps/desktop/src/pluginInstallPlan.ts:29-40 | every selected plugin is reachable from a root |
| PluginPlanner.Planner.Child | apps/desktop/src/pluginInstallPlan.ts:30-38 | a dependency's range is submitted to the resolver either way; a selected plugin is given as it is, a new child is the resolver's answer to the call recorded for it; an error is caused by the last answer |
| PluginPlanner.CallEvidence | apps/desktop/src/pluginInstallPlan.ts:30-38 | a call for a dependency of a selected plugin either keeps selection and answers in agreement or stops the planner with the error its answer causes |
| PluginPlanner.ChoiceEvidence | apps/desktop/src/pluginInstallPlan.ts:35-38 | selecting what the resolver found for a dependency keeps every selected plugin a root or the resolver's answer |
| PluginPlanner.Planner.Visit | apps/desktop/src/pluginInstallPlan.ts:24-44 | terminates and puts a plugin behind all its dependencies, or fails on a cycle through the plugin named or on the last answer of the resolver |
| PluginPlanner.TakeRoots | apps/desktop/src/pluginInstallPlan.ts:13-19 | conflicts exactly when two roots ask for different versions of one plugin, and names that plugin |
| PluginPlanner.PlanInstallation | apps/desktop/src/pluginInstallPlan.ts:9-47 | a plan has distinct ids, every root in its version, only reachable plugins, at most 100, each a root or the resolver's answer to a recorded call for a selected plugin's dependency, each dependency strictly earlier with its range submitted, and no cycle; an error names a conflict of roots, a cycle, too many plugins, or the answer that caused it |
| PluginPlanner.FinishedPlan | apps/desktop/src/pluginInstallPlan.ts:45-46 | the state after the last visit is such a plan, tied to roots and resolver |
| PluginPlanner.HundredPlugins | apps/desktop/src/pluginInstallPlan.ts:20-38 | a plan has at most 100 plugins; the planner stops at a new one when 100 are selected, and at once when the roots are more |
| PluginPlanner.ChangesExactly | apps/desktop/src/PluginManager.tsx:140-140 | what is installed is, in the order of the plan, exactly its plugins that need a change |
| PluginPlanner.InstallStep | apps/desktop/src/PluginManager.tsx:152-171 | one turn of the loop blocks none of the earlier changes and keeps the outcome exact |
| PluginPlanner.InstallAll | apps/desktop/src/PluginManager.tsx:151-171 | over a planned order a plugin is attempted exactly when none of its dependencies failed or was skipped |
| Calls.LifeCounts | apps/sip-engine/src/call.rs:275-291 | sequence, timestamp, packet and octet counts are the start plus the packets sent, modulo their widths, and packets are numbered consecutively |
| Calls.LifeReports | apps/sip-engine/src/call.rs:292-309 | each sender report counts exactly the packets sent before it, of which there is at least one |
| Calls.NoMediaBeforeAck | apps/sip-engine/src/call.rs:264-274 | no RTP and no report before an acknowledgement |
| Calls.LifeRetransmits | apps/sip-engine/src/call.rs:261-274 | at most ten retransmissions of the 200 OK before the 32 s expiry (section 13.3.1.4 of RFC 3261), on any ticks |
| Calls.TenAttained | apps/sip-engine/src/call.rs:265-274 | ticks at the earliest moments do send ten |
| Calls.LifePaced | apps/sip-engine/src/call.rs:275-291 | at most one packet per 20 ms since the last acknowledgement, plus the first |
| CallMeaning.PacketDue | apps/sip-engine/src/call.rs:275-291 | a tick at or after the time sends exactly one packet, counts it, and makes the next due 20 ms later |
| CallMeaning.PacketNotDue | apps/sip-engine/src/call.rs:275-291 | before that time, or when the send fails, none |
| CallMeaning.ReportDue | apps/sip-engine/src/call.rs:292-309 | a report goes out exactly when due behind the packets, with the counters behind them; the next is due 5 s later |
| CallMeaning.MediaOnTime | apps/sip-engine/src/call.rs:275-291 | ticked every 20 ms a call sends one packet per tick |
| CallMeaning.AnswerRepeated | apps/sip-engine/src/call.rs:264-274 | an unacknowledged call repeats its answer when due and then waits twice as long, at most 4 s |
| Calls.InviteIdempotent | apps/sip-engine/src/call.rs:86-94 | as long as a call is in the table, a repeated INVITE gets its first answer and changes nothing, table full or not |
| Calls.DialogFound | apps/sip-engine/src/call.rs:173-207 | as long as a call is in the table, the acknowledgement of the answer and a BYE with a greater number find it, other BYEs do not |
| CallMeaning.InviteAnswered | apps/sip-engine/src/call.rs:70-120 | which INVITE gets which answer: the first one again, 486, 488, an error or a new call |
| CallMeaning.RequestsMatch | apps/sip-engine/src/call.rs:86-92 | acknowledgement, BYE and CANCEL are for a call exactly when Call-ID, tags, peer and number agree |
| CallMeaning.CallBegins | apps/sip-engine/src/call.rs:128-161 | what a new call starts with |
| CallMeaning.AckStarts | apps/sip-engine/src/call.rs:181-185 | an acknowledgement makes packet and report due at once |
| CallMeaning.KeptInOrder | apps/sip-engine/src/call.rs:260-263 | a tick keeps, in order, exactly the calls acknowledged or not yet expired |
| CallMeaning.SentInOrder | apps/sip-engine/src/call.rs:264-309 | a tick sends call by call, in the order of the table, what each has due |
| Calls.CallEngine.Invite | apps/sip-engine/src/call.rs:70-162 | every branch's answer, and a table that keeps at most 16 calls with distinct Call-IDs |
| Calls.CallEngine.Acknowledge | apps/sip-engine/src/call.rs:164-186 | starts the media of exactly the session it matches |
| Calls.CallEngine.Bye | apps/sip-engine/src/call.rs:188-225 | removes exactly the session it names, or answers 481 |
| Calls.CallEngine.Cancel | apps/sip-engine/src/call.rs:227-258 | answers 200 exactly when the INVITE is known, and changes nothing |
| Calls.CallEngine.TickSession | apps/sip-engine/src/call.rs:264-309 | one session's part of a tick is the modelled step, failing sends included |
| Calls.CallEngine.TickAll | apps/sip-engine/src/call.rs:260-311 | drops exactly the expired unacknowledged calls and serves the others in order until a send fails; each life grows by the step taken |
| Calls.EverySession | apps/sip-engine/src/call.rs:260-311 | every session of every reachable table has these properties |

## Left out

- File, socket, process and thread I/O, cancellation flags and clocks: time is a parameter, files are byte strings, `fill_buf` is a list of non-empty chunks, and whether a send succeeds is an input.
- Content-Length parsing and UTF-8 text: the length is an arbitrary function of the header bytes and messages stay raw bytes.
- Stream positions, byte and packet counters of the capture, and extended sequence numbers are unbounded integers; 64-bit overflow of them is not modelled.
- The ordered map of pending segments is a map with its least key.
- A byte conservation law for reassembly from its counters alone: the source does not count the bytes of a superseded shorter chunk, so `TcpReassembly.PushConserves` carries them as an extra term.
- `TcpCoverage.ArrivalOrder` and what builds on it are about captures whose first arrival is the SYN. A bare SYN that arrives after data fixes `expected` and returns without draining; `TcpReassembly.RunInv` and `TcpOffsets.RunPlaces` cover that order with weaker conclusions.
- TcpWindow.SteadyReaches: speaks of captures in which nothing arrives after the connection was finished; `TcpOffsets.RunPlaces` does not need that.
- `finish_partial_rtsp` and the loose per-segment decoder: best-effort heuristics without the contiguity guarantee.
- Two directions per connection, connection replacement on a new SYN, and RTP routing: a direction is modelled on its own.
- Fft: sine and cosine. The step of each stage is a parameter, a square root of the step before starting at -1, in exact real arithmetic; rounding is not modelled.
- Spools: which bytes a buffered writer has written through is left open; records before the analysis window's limits only.
- RTP restart detection and duplicate filtering: they rest on `RtpTracker`, which is not part of this model. Sequence extension is stated for the packets that reach it.
- SPS, PPS and VUI parsing other than the HRD parameters, the walk over SEI messages, parameter-change and missing-marker issues, GOP statistics: an SEI NALU's last epoch and timing are given with the NALU.
- HrdSimulation.BucketConserves: speaks of runs whose inflow stays below 2^64; saturated fullness has no closed form.
- The simulation follows the code, which takes the removal delay difference between consecutive access units; conformance to Annex C of ITU-T H.264 is not claimed.
- Report labels (SPS id, schedule name) and warning texts.
- The resolver's choice of versions is an arbitrary function; consent, package checks and the registry are outside the model.
- SIP and SDP parsing, response building and socket binding: a message is its header values, the chosen media address and the available resources are inputs.
- PCAP and IP headers, RTCP parsing, H.265, audio metrics, G.711, Ogg, reports, the user interface and the command line: they would add easy members.
