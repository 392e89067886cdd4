# Verified models of a Zig networking library and its transfer benchmarks

The repository is a networking library (`src/`) with transfer benchmarks
(`examples/`) and interoperability tools (`tools/`). This project models its most
stateful parts in Dafny and proves what they promise for all inputs, all runs and all
interleavings. Check it with `dafny verify dfyconfig.toml`.

| file | models |
|---|---|
| `RecvStream.dfy`, `Reassembly.dfy`, `StreamWindow.dfy` | receive half of a QUIC stream: one frame, then every run of frames and reads, and the window that moves with the reads |
| `Preflight.dfy` | transactional validation of a packet's STREAM frames without copying buffers |
| `AckRanges.dfy`, `PacketTracker.dfy` | ACK frames (section 19.3.1 of RFC 9000) and the bounded record of received packets |
| `RecoveryQueue.dfy`, `RecoveryRuns.dfy` | payloads awaiting acknowledgment, their indexes and counters; whole histories; the even/odd ACK benchmark |
| `Partition.dfy`, `TransferSender.dfy`, `TransferEndToEnd.dfy` | QUIC upload: batch scheduler, lossy network, server loop, completion |
| `FaultInjectors.dfy` | lock-free loss, reorder and corruption injectors under arbitrary interleaving |
| `UploadSender.dfy`, `Receivers.dfy`, `UploadEndToEnd.dfy` | HTTP/3 upload and download: two-level round robin, event-driven receivers, their composition |
| `CountingAllocator.dfy` | allocation accounting against the live blocks |
| `MqttPublish.dfy`, `MqttBarrier.dfy`, `MqttFraming.dfy` | MQTT load driver and packet framing |
| `WebTransport.dfy`, `WebTransportDelivery.dfy` | WebTransport writer loop, reset arithmetic, terminal events, whole deliveries |
| `Chunks.dfy` | the two HTTP/1 chunk generators |
| `Base.dfy` | shared vocabulary |

Code that updates fields or arrays is a class or a method with loops, proved against a
function or predicate that says what it means; the theorems are about those functions.

Conventions. Byte counts and packet numbers are unbounded naturals; the 64-bit limit is
written out where the program tests it (`MAX_U64`, `MAX_PACKET_NUMBER`). Calls into code
outside a module are inputs chosen by an adversary: transport outcomes, arriving packets,
socket pieces, broker deliveries, allocator answers, clock readings. Atomic operations
are single steps of a transition system; each shared counter is one location, so the
relaxed orderings of the program change nothing that is stated here. Where the program
allocates, allocation succeeds.

Three results go against a reading of the source. The recovery queue says its candidates
carry the newest packet number of a payload (src/quic/recovery.zig:21, 341-344);
swap-removal of a middle copy followed by removal of the last copy makes it report an
older one. `RecoveryRuns.NewestGoesWrong` gives the history and
`RecoveryRuns.NewestAlwaysRightIffSafe` the exact condition over all histories. And
`mergeForward` (src/quic/packet_space.zig:292-305) never has anything to merge
(`PacketTracker.NothingToMergeForward`). And reading everything that can be read does not
always open a whole window: the window starts behind the consumed bytes that are still
held, which are dropped only past half of the buffer or half of the limit
(src/quic/stream.zig:284-288), so a byte buffered behind a gap can hold it back
(`StreamWindow.GapHoldsTheWindowBack`). `StreamWindow.RefusedExactlyBeyondWindow` gives
the exact bound and `StreamWindow.WholeWindowIsOpenAfterDrain` the case without a gap.

## Model

| member | source | states |
|---|---|---|
| `RecvStream.RecvState.InsertTracked` | src/quic/stream.zig:162-255 | with its fast paths and cached cursors, accepting a frame overlays its bytes on the window, counts only bytes not held before, and a refusal changes nothing; the refusal reason has the program's priority (conflict before a shrinking FIN) |
| `RecvStream.RefusalExactly` | src/quic/stream.zig:162-220 | the verdict on a frame as tests on offsets, sizes and retained bytes, in the program's order, and nothing else |
| `RecvStream.RecvState.CheckDuplicate` | src/quic/stream.zig:187-197 | the fast path answers exactly for frames inside the contiguous prefix; the slice comparison finds a conflict exactly when one exists, and otherwise the frame adds nothing |
| `RecvStream.RecvState.CountFresh` | src/quic/stream.zig:198-215 | the overlap scan refuses exactly the conflicting frames and counts exactly the unfilled cells |
| `RecvStream.RecvState.Write` | src/quic/stream.zig:223-243 | storing bytes is one overlay, and the contiguous end lands on the first unfilled cell |
| `RecvStream.RecvState.ConsumeBytes` | src/quic/stream.zig:267-272 | reading moves the application cursor by exactly the bytes asked for, refuses to pass the contiguous end, and drops the consumed prefix when the thresholds say so (`ConsumeExactly` spells the new state out) |
| `RecvStream.RecvState.CompactConsumedPrefix` | src/quic/stream.zig:279-301 | compaction drops exactly the consumed bytes, unless fewer than half the buffer and half the limit are consumed |
| `RecvStream.ConsumeExactly` | src/quic/stream.zig:267-301 | the whole effect of a read: verdict, cursor, window start (unchanged only while the consumed bytes held are below half the buffer and half the limit) and the bytes kept |
| `RecvStream.RecvState.IsComplete` | src/quic/stream.zig:274-277 | complete means: final size known, all bytes contiguous, all bytes read |
| `RecvStream.AcceptKeepsWellFormed` | src/quic/stream.zig:162-255 | every accepted frame keeps the window invariant; the byte count grows by exactly the new bytes; the contiguous end never shrinks |
| `RecvStream.CompactKeeps` | src/quic/stream.zig:279-301 | dropping a consumed prefix changes no derived quantity |
| `RecvStream.KnownOverlay` | src/quic/stream.zig:198-252 | writing a span fills exactly the cells that were not filled before |
| `Reassembly.ReceivedIsUnionOfFrames` | src/quic/stream.zig:116-301 | after any run, an offset has been received exactly when some accepted frame covers it |
| `Reassembly.FinalSizeKnownIffFinAccepted` | src/quic/stream.zig:166-169 | the final size is known exactly when a frame with FIN was accepted |
| `Reassembly.OrderDoesNotMatter` | src/quic/stream.zig:162-272 | the contiguous extent depends only on which frames were accepted, not on order, repetition or reads |
| `Reassembly.ContiguousIsFirstGap` | src/quic/stream.zig:126-127 | the cached contiguous end is the least offset not received |
| `Reassembly.ApplicationReadsAPrefix` | src/quic/stream.zig:158-277 | in-order, exactly-once delivery: for frames cut from one body in any order, overlap and repetition, what the application read is exactly the first `read` bytes of the body |
| `Reassembly.CompleteIffAllDelivered` | src/quic/stream.zig:274-277 | the stream is complete if and only if the accepted frames cover the body, one carried FIN and everything contiguous was read; the application has then read the whole body |
| `Reassembly.LargeWindowRefusesNothing` | src/quic/stream.zig:185 | with a window as large as the stream, no frame cut from it is ever refused, after any run |
| `StreamWindow.SlackIsAlwaysSmall` | src/quic/stream.zig:279-301 | after any run the consumed bytes still held are none, or fewer than half the buffer and half the limit |
| `StreamWindow.RefusedExactlyBeyondWindow` | src/quic/stream.zig:170-220 | after any run over a body of any length, a frame cut from it is refused exactly when it ends beyond the window, and then as too large |
| `StreamWindow.HalfTheWindowIsOpen` | src/quic/stream.zig:185 | for a body of any length, a frame within half a limit of the read position is never refused |
| `StreamWindow.WholeWindowIsOpenAfterDrain` | src/quic/stream.zig:185 | once everything received has been read, a frame within a whole limit of the read position is never refused |
| `StreamWindow.GapHoldsTheWindowBack` | src/quic/stream.zig:284-288 | a reachable state in which everything readable was read and a frame within the limit is still refused, because of a byte behind a gap |
| `StreamWindow.AnyBodyFitsAnyWindow` | src/quic/stream.zig:162-301 | a body of any length passes through any window in pieces no larger than it, and the application reads it exactly |
| `StreamWindow.FeedingCompletes` | src/quic/stream.zig:274-277 | such a transfer ends complete |
| `StreamWindow.FinalSizeIsFixed` | src/quic/stream.zig:166-169 | once known, the final size never changes, and no frame beyond it is accepted |
| `Preflight.PreflightState.InsertTracked` | src/quic/stream.zig:435-531 | the shadow's nested scan over borrowed bytes and earlier frames gives the shadow verdict and keeps the shadow up to date |
| `Preflight.SameVerdict` | src/quic/stream.zig:303-531 | a shadow that agrees with a receive state refuses exactly the same frames for the same reason, and credits the same bytes |
| `Preflight.AcceptKeepsSimulation` | src/quic/stream.zig:303-531 | accepting a frame on both sides keeps shadow and state in agreement without copying a byte |
| `Preflight.PreflightIsExact` | src/quic/stream.zig:303-531 | validating any packet over any streams gives, frame by frame, the same credit or refusal as applying it: a packet that passes is applied without refusal |
| `AckRanges.AckFrameInto` | src/quic/packet_space.zig:170-193 | the gaps and lengths written are those of the frame acknowledging exactly the ranges; its range error never happens on tracker ranges |
| `AckRanges.DecodeAckRanges` | src/quic/packet_space.zig:1035-1067 | the decoder accepts exactly the frames that never fall below zero |
| `AckRanges.DecodeInvertsEncode` | src/quic/packet_space.zig:170-193 | decoding the frame of normal ranges gives those ranges back |
| `AckRanges.EncodeInvertsDecode` | src/quic/packet_space.zig:1035-1067 | every decodable frame decodes to normal ranges and is the frame of them: a bijection |
| `AckRanges.DecodedAt` | src/quic/packet_space.zig:1035-1067 | the decoded ranges spelled out from gaps and lengths, as section 19.3.1 of RFC 9000 defines them |
| `PacketTracker.ReceivedPacketTracker.RecordFresh` | src/quic/packet_space.zig:93-153 | fast paths, scan, growth, merge and eviction together record one number; the retained count stays the size of the ranges and never saturates |
| `PacketTracker.ReceivedPacketTracker.WouldRecordFresh` | src/quic/packet_space.zig:61-87 | foretells the verdict of recording, in every state |
| `PacketTracker.ReceivedPacketTracker.PruneAckedRanges` | src/quic/packet_space.zig:240-259 | popping and shortening from the old end keeps exactly the numbers above the acknowledged one, and forgets through exactly that number (`PruneEffect`) |
| `PacketTracker.PruneEffect` | src/quic/packet_space.zig:240-259 | after pruning through n exactly the covered numbers above n are covered, and exactly the numbers up to n join those below the floor |
| `PacketTracker.RecordFloor` | src/quic/packet_space.zig:261-290 | recording raises the floor exactly when a range must be given up, and exactly to its end |
| `PacketTracker.BelowFloorIffForgotten` | src/quic/packet_space.zig:240-290 | after any history a number is below the floor exactly if some ACK passed it or some evicted range reached it |
| `PacketTracker.FreshIffFirstReceipt` | src/quic/packet_space.zig:61-153 | with room for every receipt, in terms of the operations alone: invalid, a repetition or passed by an ACK, or else processed |
| `PacketTracker.ReceivedPacketTracker.InsertRange` | src/quic/packet_space.zig:261-283 | a new range at its place, evicting the oldest when full; a new oldest range is forgotten instead |
| `PacketTracker.NothingToMergeForward` | src/quic/packet_space.zig:292-305 | at the point of the scan where a range grows upwards, it never touches a newer range: the merge branch is unreachable |
| `PacketTracker.ReceivedPacketTracker.MergeBackward` | src/quic/packet_space.zig:307-322 | joins with the older range exactly when they touch |
| `PacketTracker.AddCovers` | src/quic/packet_space.zig:93-153 | adding a number adds that number and nothing else |
| `PacketTracker.AddIsNormal` | src/quic/packet_space.zig:93-153 | ranges stay sorted, disjoint and separated by a gap |
| `PacketTracker.FreshExactlyWhen` | src/quic/packet_space.zig:89-93 | a packet is processed exactly when it is valid, not seen, and not below all ranges of a full tracker |
| `PacketTracker.FreshAtMostOnce` | src/quic/packet_space.zig:89-92 | over any history of receipts, evictions and prunings no packet number is processed twice, and the ranges hold exactly the processed numbers above the floor |
| `PacketTracker.AckNamesWhatWasReceived` | src/quic/packet_space.zig:170-193 | after any history the peer decodes from our ACK exactly the numbers processed and not yet forgotten |
| `RecoveryQueue.Queue.TrackSent` | src/quic/recovery.zig:185-230 | appends a new group under a number that is not outstanding, or fails for one of three reasons and changes nothing; both indexes and all counters stay exact |
| `RecoveryQueue.CountersMean` | src/quic/recovery.zig:129-184 | in every consistent state the counters are the number of distinct outstanding packet numbers, of retransmitted copies and of payload bytes held |
| `RecoveryQueue.Queue.RecordRetransmission` | src/quic/recovery.zig:294-309 | adds a number to a payload exactly if the number is not outstanding anywhere |
| `RecoveryQueue.Queue.AcknowledgePacketNumber` | src/quic/recovery.zig:311-317 | an ACK of any copy removes that payload and no other |
| `RecoveryQueue.Queue.ForgetPacketNumber` | src/quic/recovery.zig:319-354 | removes one number, and the payload with its last number; the `unreachable` at the end is never reached |
| `RecoveryQueue.Queue.ApplyAck` | src/quic/recovery.zig:356-373 | a malformed frame is refused untouched; otherwise exactly the groups with an acknowledged number go, order kept, and their number is returned |
| `RecoveryQueue.Queue.CompactPending` | src/quic/recovery.zig:375-395 | the in-place compaction is a filter, and the saturating counters never saturate |
| `RecoveryQueue.EntryAcked` | src/quic/recovery.zig:397-410 | walking the gaps without decoding finds a group acknowledged exactly when a decoded range holds one of its numbers, with no underflow |
| `RecoveryQueue.Queue.RemoveGroupOrdered` | src/quic/recovery.zig:425-436 | removing a group shifts the list and both indexes follow; every key that is refreshed is present |
| `RecoveryQueue.Queue.RefreshIndexesFrom` | src/quic/recovery.zig:466-482 | from indexes that are one too high from some place on, the loop restores exact ones |
| `RecoveryQueue.Queue.RebuildIndexes` | src/quic/recovery.zig:484-496 | rebuilds exact indexes, and puts no key twice |
| `RecoveryQueue.Queue.PacketThresholdCandidate` | src/quic/recovery.zig:261-280 | returns the first group whose newest copy lies at least the threshold below the largest acknowledged number, and none only if there is none |
| `RecoveryQueue.RetainIsFilter` | src/quic/recovery.zig:375-395 | what survives an ACK is exactly what has no acknowledged number |
| `RecoveryQueue.NewestRightIffSafe` | src/quic/recovery.zig:333-350 | one forgotten copy leaves the recorded newest number right if and only if the copy is not newest in the middle, and when last the copy before it is the largest left |
| `RecoveryQueue.ResendRightIff` | src/quic/recovery.zig:294-309 | one resend leaves it right if and only if its number is larger than the recorded newest |
| `RecoveryQueue.ForgetOriginalStaysRight` | src/quic/recovery.zig:328-334 | forgetting the first sending of several is always safe |
| `RecoveryQueue.AscendingIsSafe` | src/quic/recovery.zig:333-350 | while copies stand in sending order forgetting is safe, and keeps that order exactly at the last two places |
| `RecoveryRuns.NewestAlwaysRightIffSafe` | src/quic/recovery.zig:185-354 | for every history from the empty queue, the newest number of every payload is right at every moment if and only if every event passed a test on the state before it; the first event that does not makes it wrong at once |
| `RecoveryRuns.RisingHistoriesFailOnlyByForgetting` | src/quic/recovery.zig:185-354 | with rising packet numbers it is right at every moment if and only if every forgetting was safe |
| `RecoveryRuns.NewestGoesWrong` | src/quic/recovery.zig:333-350 | a rising history from the empty queue (sent as 4, resent as 5 to 8, then 5 and 7 forgotten) after which 8 is outstanding and 6 is recorded as newest |
| `RecoveryRuns.QueueRefinesReference` | src/quic/recovery.zig:129-497 | after any history of sends, resends, ACKs and forgets the queue holds exactly the payloads of a plain map from ids to outstanding numbers, in sending order |
| `RecoveryRuns.DropIsRetain` | src/quic/recovery.zig:311-317 | acknowledging one number through the index is the same as an ACK range of that number |
| `RecoveryRuns.EvenAndOddPartition` | examples/bench_quic_ack_ranges.zig:86-103 | for every count and base the even and odd frames decode without underflow to two disjoint sets whose union is exactly the tracked packets |
| `RecoveryRuns.MeasureRecoveryAckRanges` | examples/bench_quic_ack_ranges.zig:80-119 | every iteration ends with nothing pending; the checksum is the number of packets; no error branch is taken |
| `Partition.SharesSumToTotal` | examples/bench_quic_handshake_stream.zig:984-988 | the per-stream shares add up to the total |
| `Partition.SharesArePositive` | examples/bench_http3_handshake_transfer.zig:845-849 | with at least as many bytes as streams no share is empty |
| `TransferSender.SendTransfer` | examples/bench_quic_handshake_stream.zig:802-909 | for every batch size and every sequence of backpressure, errors and partly taken batches, result and wire are those of a run over the schedule that takes one outcome at a time; what went out is a prefix of the round robin, all of it when the sender is done; the empty-batch error is unreachable |
| `TransferSender.RecoveryChangesNothing` | examples/bench_quic_handshake_stream.zig:865-886 | a backpressure from which the connection recovers changes neither result nor wire, wherever it happens |
| `TransferSender.NextOutcomeDecides` | examples/bench_quic_handshake_stream.zig:819-909 | the first outcome that ends a running transfer fixes its result: deadline, server failure, failed wait, transport error, send error or partial send |
| `TransferSender.CleanScriptsFinish` | examples/bench_quic_handshake_stream.zig:865-909 | recovered backpressure and clean submissions never fail the transfer, and with as many submissions as packets it is done with the whole schedule on the wire |
| `TransferSender.SendRunSendsAPrefix` | examples/bench_quic_handshake_stream.zig:819-909 | every run puts a prefix of the schedule on the wire, all of it when done |
| `TransferSender.NextPendingStream` | examples/bench_quic_handshake_stream.zig:964-978 | the first stream with bytes left, scanning once around from the cursor |
| `TransferSender.PlanBatch` | examples/bench_quic_handshake_stream.zig:827-863 | a batch planned on a copy is what the one-packet sender would send next, and is never empty while bytes remain |
| `TransferSender.CommitBatch` | examples/bench_quic_handshake_stream.zig:897-902 | replaying the taken prefix on the real progress ends where the one-packet sender would |
| `TransferSender.ScheduleTilesEveryStream` | examples/bench_quic_handshake_stream.zig:839-861 | each stream's packets tile its share without gap or overlap, none is empty, FIN is on exactly the last, all others are full |
| `TransferSender.ScheduleIsRoundRobin` | examples/bench_quic_handshake_stream.zig:827-863 | packets come by offset and at one offset by stream; with the tiles this fixes the schedule |
| `TransferSender.StreamAppearsIffNonEmpty` | examples/bench_quic_handshake_stream.zig:839-861 | a stream is scheduled exactly when it has bytes |
| `TransferSender.UnfinishedStreamsAreClose` | examples/bench_quic_handshake_stream.zig:964-978 | in every reachable state two unfinished streams differ by at most one packet |
| `TransferSender.NoPendingMeansAllSent` | examples/bench_quic_handshake_stream.zig:964-978 | the scan finds nothing only when everything is sent |
| `TransferSender.BytesLeftMeansPending` | examples/bench_quic_handshake_stream.zig:831-863 | bytes remain exactly when some stream is pending |
| `TransferEndToEnd.ServeTransfer` | examples/bench_quic_handshake_stream.zig:424-457 | for any lossy, repeated, reordered arrival of scheduled packets the server refuses no frame; once every packet arrived it finishes with exactly the total if there are at least as many bytes as streams, and reports an incomplete stream exactly if there are fewer |
| `TransferEndToEnd.DrainReceivedStreams` | examples/bench_quic_handshake_stream.zig:641-658 | the running total is the sum of what was read on all streams, and everything contiguous is read |
| `TransferEndToEnd.FindStream` | examples/bench_quic_handshake_stream.zig:424-450 | a frame is routed by its stream id, to the first stream with that id |
| `TransferEndToEnd.RoutedRight` | examples/bench_quic_handshake_stream.zig:424-450 | the stream found by id is the one the packet was scheduled on |
| `TransferEndToEnd.FullyReadIsComplete` | examples/bench_quic_handshake_stream.zig:453-457 | having read every byte of a stream implies having received its FIN |
| `TransferEndToEnd.ArrivalIsAccepted` | examples/bench_quic_handshake_stream.zig:424-450 | a scheduled packet is never refused, whatever arrived before |
| `TransferEndToEnd.EmptyStaysIncomplete` | examples/bench_quic_handshake_stream.zig:453-457 | a stream without bytes is never complete, since no FIN is sent on it; the argument check at line 1124 is therefore needed |
| `TransferEndToEnd.Upload` | examples/bench_quic_handshake_stream.zig:604-625 | sender, network and server composed: the sender's part is its run over the schedule; a finished transfer has received exactly the bytes asked for, and a complete send of which every packet arrives finishes if and only if there are at least as many bytes as streams |
| `FaultInjectors.LossIsExact` | examples/bench_quic_handshake_stream.zig:218-253 | for any threads, schedule and spurious exchange failures: once all calls returned, each packet considered took one draw, the draws are the first ones of the generator, and the drops are the hits among them (which calls are considered: `LossAfterEnable`) |
| `FaultInjectors.BenchmarkLossIsExact` | examples/bench_quic_handshake_stream.zig:210-253 | the same for the xorshift generator, the percentage test and the two seeds of the benchmarks |
| `FaultInjectors.OffUntilEnabled` | examples/bench_quic_handshake_stream.zig:218-220 | in a schedule that never switches the injector on, every state is the initial one |
| `FaultInjectors.RunStartsAtEnable` | examples/bench_quic_handshake_stream.zig:600-600 | calls before the switch leave no trace: the run is that of a fresh injector from the switch on |
| `FaultInjectors.LossAfterEnable` | examples/bench_quic_handshake_stream.zig:218-253 | packets considered are exactly the calls begun after the switch, and drops, draws and state are those of as many first draws |
| `FaultInjectors.CallsAreCounted` | examples/bench_quic_handshake_stream.zig:220-233 | at every moment the calls begun while on are those counted and those about to be |
| `FaultInjectors.CallAloneReturns` | examples/bench_quic_handshake_stream.zig:218-253 | a call of an idle thread on an injector that is on, left alone, returns after five or six steps, with one packet considered, one draw taken and a drop counted exactly if the draw is a hit |
| `FaultInjectors.FirstDraws` | examples/bench_quic_handshake_stream.zig:236-250 | the first draws from both seeds, and which percentages drop the first packet |
| `FaultInjectors.ExtremePercentages` | examples/bench_quic_handshake_stream.zig:249-251 | zero percent drops nothing at any moment, a hundred percent every packet |
| `FaultInjectors.LossIsScheduleIndependent` | examples/bench_webtransport_stream.zig:19-42 | the drops depend on the number of packets alone |
| `FaultInjectors.NextKeepsInv` | examples/bench_quic_handshake_stream.zig:233-251 | every atomic step keeps: state is an iterate of the seed, counters differ from their final values by exactly the calls in flight |
| `FaultInjectors.StateNeverZero` | examples/bench_quic_handshake_stream.zig:236-239 | the xorshift state is never zero, at any moment of any schedule |
| `FaultInjectors.HeldIsExact` | examples/bench_quic_handshake_stream.zig:262-288 | once all calls returned exactly floor(considered / every) packets were held or corrupted, whatever the interleaving |
| `FaultInjectors.EveryOffUntilEnabled` | examples/bench_quic_handshake_stream.zig:262-264 | a schedule without the switch leaves the counting injectors as they were |
| `FaultInjectors.HeldAfterEnable` | examples/bench_quic_handshake_stream.zig:262-288 | tickets are exactly the calls begun after the switch, and every `every`-th of them is held |
| `FaultInjectors.EveryCallAloneReturns` | examples/bench_quic_handshake_stream.zig:262-288 | a call left alone takes the next ticket and returns |
| `FaultInjectors.ZeroIsOff` | examples/bench_webtransport_stream.zig:51-53 | with `every` zero nothing but the switch ever changes |
| `FaultInjectors.NextEveryKeepsInv` | examples/bench_webtransport_stream.zig:51-58 | every atomic step keeps the ticket accounting, including the injector that is switched off |
| `UploadSender.SendUploadBodies` | examples/bench_http3_handshake_transfer.zig:596-743 | the nested loops terminate and hand over exactly the batches of one common level rising by paces within rounds; the id lookup never fails |
| `UploadSender.ClosedForm` | examples/bench_http3_handshake_transfer.zig:631-709 | after k rounds and j passes stream i has sent exactly min(len, k * round + min(round, j * pace)) |
| `UploadSender.EveryStreamSentInFull` | examples/bench_http3_handshake_transfer.zig:671-688 | each stream is sent in full in non-empty chunks, FIN on exactly its last one |
| `UploadSender.OneChunkPerStream` | examples/bench_http3_handshake_transfer.zig:671-690 | no batch holds two chunks of one stream |
| `UploadSender.BatchesInOrder` | examples/bench_http3_handshake_transfer.zig:671-690 | no batch is empty, and its chunks are in the order of the streams |
| `Receivers.ReceiveUploadBodies` | examples/bench_http3_handshake_transfer.zig:391-482 | for every event sequence: a refusal names the first event not acceptable in terms of the events alone; success means exactly `streams` distinct streams, each heard in full, announcing and carrying exactly the body; at the end the totals are wrong only if the announced lengths fall short of the body |
| `Receivers.UploadStepKeepsInv` | examples/bench_http3_handshake_transfer.zig:415-476 | every accepted event keeps: distinct streams, bytes within what was announced and that within the body, finished streams stay exactly full |
| `Receivers.ReadWithinExpected` | examples/bench_http3_handshake_transfer.zig:444-449 | total read never exceeds total announced; they are equal exactly when every stream is full |
| `Receivers.StepIsAcceptable` | examples/bench_http3_handshake_transfer.zig:418-476 | the tests on the arrays and totals accept exactly the events that are acceptable given what was heard |
| `Receivers.TracksStep` | examples/bench_http3_handshake_transfer.zig:418-476 | after every accepted event the arrays and totals are exactly what the events say |
| `Receivers.StopExplained` | examples/bench_http3_handshake_transfer.zig:478-480 | when the loop stops every stream was seen and is full; the final test fails exactly when the announced lengths miss the body size |
| `Receivers.UploadExit` | examples/bench_http3_handshake_transfer.zig:478-480 | pigeonhole: as many finished streams as expected means all were seen and all are full |
| `Receivers.ReceiveDownloadBodies` | examples/bench_http3_handshake_transfer.zig:778-843 | for every event sequence: the only refusal is the first event not acceptable in terms of the events alone; a completed download reports status 200 per stream and the whole body, over distinct streams each heard in full; every whole delivery completes |
| `Receivers.DownloadStepIsAcceptable` | examples/bench_http3_handshake_transfer.zig:805-838 | the tests on the arrays and totals accept exactly the events that are acceptable given what was heard |
| `Receivers.DownloadTracksStep` | examples/bench_http3_handshake_transfer.zig:805-838 | after every accepted event the arrays and totals are exactly what the events say |
| `Receivers.DeliveryCompletes` | examples/bench_http3_handshake_transfer.zig:778-843 | any delivery ordered per stream, of a head 200 with the right length, pieces adding up to it and the end, ends with status 200 per stream and the whole body |
| `Receivers.DownloadExit` | examples/bench_http3_handshake_transfer.zig:841-842 | at the exit every stream had one head and all its bytes, so the final test never fails |
| `UploadEndToEnd.UploadOutcome` | examples/bench_http3_handshake_transfer.zig:391-482 | for all streams and lengths, empty ones included, and any per-stream-ordered, interleaved, refragmented delivery of the heads and the sender's batches: the server returns a permutation of the client's ids |
| `UploadEndToEnd.WireOfStream` | src/http3/runtime.zig:9134-9144 | every stream is sent in full and closed: an empty one by its head, any other by its last chunk |
| `UploadEndToEnd.UploadTransfer` | examples/bench_http3_handshake_transfer.zig:550-573 | sender and receiver programs composed: every body over any streams is received in full |
| `UploadEndToEnd.NeverInvalidFrame` | examples/bench_http3_handshake_transfer.zig:411-480 | no event of such a delivery is refused, at any point |
| `UploadEndToEnd.Chosen` | examples/bench_http3_handshake_transfer.zig:423-431 | distinct known streams announce at most the whole body, and all of it exactly when they are a permutation of all streams |
| `CountingAllocator.Allocator.Alloc` | examples/bench_http3_handshake_transfer.zig:953-962 | a granted block becomes live and is counted in exactly its size class, a failure changes nothing; counters stay exact against live blocks and history |
| `CountingAllocator.Allocator.Resize` | examples/bench_http3_handshake_transfer.zig:964-970 | a granted resize changes one block's length and adds its growth or shrinkage to the totals, a refusal nothing |
| `CountingAllocator.Allocator.Remap` | examples/bench_http3_handshake_transfer.zig:972-978 | a granted remap may move the block; totals move by its growth or shrinkage and counters stay exact |
| `CountingAllocator.Allocator.Free` | examples/bench_http3_handshake_transfer.zig:980-986 | the block is no longer live and its bytes are added to those freed; the saturating subtraction never saturates |
| `CountingAllocator.Allocator.RecordAllocBucket` | examples/bench_http3_handshake_transfer.zig:988-992 | exactly the size class that admits the length grows, by one request and by its bytes; so the classes add up to the requests |
| `CountingAllocator.Allocator.RecordResize` | examples/bench_http3_handshake_transfer.zig:1004-1015 | growth and shrinkage keep current = live bytes = allocated - freed, and the peak |
| `CountingAllocator.HighestIsMaximum` | examples/bench_http3_handshake_transfer.zig:960-960 | the value tracked as peak is an upper bound of every past amount and was attained |
| `CountingAllocator.TotalWithout` | examples/bench_http3_handshake_transfer.zig:980-986 | removing any one block lowers the live bytes by exactly its length |
| `CountingAllocator.BucketIndex` | examples/bench_http3_handshake_transfer.zig:994-1002 | the chosen class admits the length: at most 64 times a power of four, and more than the class below |
| `CountingAllocator.AdmitsExactly` | examples/bench_http3_handshake_transfer.zig:994-1002 | no other class admits it |
| `MqttPublish.PublishWindowed` | examples/bench_mqtt_broker.zig:478-526 | for all windows, publishers, counts and packet ids, the place of every operation in the trace: batches as wide as all windows together, all writes of a batch before its completions; message m goes to publisher m % P as its (m / P)-th, at most `window` are ever outstanding per publisher, all are drained, each latency slot is written once with the times of its own message |
| `MqttPublish.WriteStep` | examples/bench_mqtt_broker.zig:501-513 | a write in an open row keeps every publisher within its window at every moment |
| `MqttPublish.CompleteStep` | examples/bench_mqtt_broker.zig:514-522 | a completion takes the publisher's oldest outstanding message |
| `MqttPublish.AllPlacedStep` | examples/bench_mqtt_broker.zig:499-525 | one more batch puts each of its messages where the closed form says and moves none before it |
| `MqttBarrier.BarrierSeparatesPhases` | examples/bench_mqtt_broker.zig:49-84 | in every interleaving of main and workers, with any delivery order: nothing measured is published before all warmup deliveries are taken, no delivery is taken in the wrong phase, and at the end every worker took exactly the deliveries of both phases |
| `MqttBarrier.BeginWaitsForEveryone` | examples/bench_mqtt_broker.zig:221-262 | `begin` is set only when every worker has counted itself ready, and until then nothing was published or taken |
| `MqttBarrier.WorkerKeepsInv` | examples/bench_mqtt_broker.zig:49-84 | every worker step keeps the accounting of what the broker owes and of the two counters |
| `MqttBarrier.MainKeepsInv` | examples/bench_mqtt_broker.zig:221-262 | every step of the main thread keeps it |
| `MqttBarrier.SomeoneCanMove` | examples/bench_mqtt_broker.zig:221-262 | no reachable state before the end is a deadlock |
| `MqttBarrier.StepsCountDown` | examples/bench_mqtt_broker.zig:221-262 | every effective step brings the end exactly one step closer, so every run that keeps moving ends |
| `MqttBarrier.EveryRunCanFinish` | examples/bench_mqtt_broker.zig:221-262 | every run, wherever it stands, can be continued to the end |
| `MqttFraming.Socket.RecvExact` | tools/interop/mqtt_mosquitto_vectors.py:54-61 | returns exactly the next bytes whatever the pieces, or fails exactly when there are too few |
| `MqttFraming.Socket.ReadPacket` | tools/interop/mqtt_mosquitto_vectors.py:37-51 | reads what `Parse` says for the bytes, independent of the pieces |
| `MqttFraming.Socket.ExpectUnordered` | tools/interop/mqtt_mosquitto_vectors.py:72-84 | succeeds if and only if the next packets equal the expected ones as a multiset |
| `MqttFraming.ParseManyInvertsConcat` | tools/interop/mqtt_mosquitto_vectors.py:37-51 | any list of well-formed packets comes back exactly, in order |
| `MqttFraming.LengthRoundTrip` | tools/interop/mqtt_mosquitto_vectors.py:39-50 | reading inverts the encoding of section 1.5.5 of MQTT Version 5.0 |
| `MqttFraming.FourDigits` | tools/interop/mqtt_mosquitto_vectors.py:48-50 | four length bytes suffice exactly up to 268,435,455 |
| `MqttFraming.DecodedIsBounded` | tools/interop/mqtt_mosquitto_vectors.py:42-50 | an accepted length uses at most the allowed bytes and stays in range |
| `MqttFraming.LengthExactly` | tools/interop/mqtt_mosquitto_vectors.py:42-50 | the value of every one- to four-byte length, more digits than needed included; four continuation bits are malformed, fewer bytes than the digits need a closed connection |
| `MqttFraming.ParseExactly` | tools/interop/mqtt_mosquitto_vectors.py:37-51 | what a packet is, and exactly when the reader finds the connection closed or the length malformed |
| `WebTransport.WriteAll` | examples/bench_webtransport_stream.zig:280-316 | under any behaviour of `writeStreams`: every successful call moves every stream by what was committed; the loop ends with all written, at the first failing call, at the first call without progress, or waiting, and says which; at most one call more than there are bytes; the counter of unfinished streams never underflows |
| `WebTransport.Advance` | examples/bench_webtransport_stream.zig:311-315 | offsets move by what was committed and the counter drops once per stream that completes |
| `WebTransport.ExpectedIsSum` | examples/bench_webtransport_stream.zig:479-488 | the expected byte count is the sum over streams of what each delivers, and the reset count is the number of streams reset |
| `WebTransport.ResetsCounted` | examples/bench_webtransport_stream.zig:474-482 | among the first n streams exactly n / reset_every are reset |
| `WebTransport.StreamIndexIsBijection` | examples/bench_webtransport_stream.zig:490-493 | ids 4, 8, 12, ... correspond one to one to 0, 1, 2, ... |
| `WebTransport.Serve` | examples/bench_webtransport_stream.zig:144-207 | a refusal names the first unacceptable event and the error it gets; otherwise the loop stops at the first moment when each stream ended once by FIN or reset, and reports completion if and only if bytes and resets are as announced; every flag access is in bounds |
| `WebTransport.ErrorMeans` | examples/bench_webtransport_stream.zig:144-200 | an unexpected stream is one not opened by the peer or with an id other than 4, 8, 12, ...; every other fault is an unexpected event |
| `WebTransportDelivery.ServeBenchmark` | examples/bench_webtransport_stream.zig:144-207 | with the announced totals, every whole delivery (bytes in any pieces and any interleaving, FIN or reset as arranged) is complete after its last event |
| `WebTransportDelivery.TotalsAreExpected` | examples/bench_webtransport_stream.zig:474-488 | a whole delivery carries exactly the bytes and resets the arithmetic announces |
| `Chunks.ChunkStream.PollNext` | tools/hyper_http1_body/src/main.rs:207-215 | each poll yields the next piece and moves on; the end is reported exactly at the end of the payload |
| `Chunks.PollAll` | tools/hyper_http1_body/src/main.rs:198-216 | polling ends, and the pieces join to the payload |
| `Chunks.ChunkSlices` | examples/bench_http1_body.zig:252-264 | entry i is the i-th full slice, always in bounds |
| `Chunks.GeneratorsAgree` | examples/bench_http1_body.zig:32-36 | the two generators yield the same boundaries if and only if the chunk size divides the payload length: the guard is exact |
| `Chunks.PiecesTile` | tools/hyper_http1_body/src/main.rs:207-215 | for every chunk size the pieces tile the payload, none empty or too long |
| `Chunks.PiecesAreFull` | tools/hyper_http1_body/src/main.rs:207-215 | all pieces but the last have the full size |

## Left out

- RecvStream: `clone`, `receivedByteCount` and the send half of src/quic/stream.zig; the saturation of `received_total` cannot occur below the 64-bit offset limit that is modelled.
- Preflight: `applyFinalSize` and the choice between stack and heap storage for pending frames.
- PacketTracker: ECN counters and statistics getters.
- AckRanges: ACK delay and ECN fields, which do not affect the ranges; the overflow test on `gap + 2`, which no frame within the packet-number range reaches.
- RecoveryQueue: the payload cache (allocation reuse) and the candidate getters other than the packet-threshold one.
- Loss detection, congestion control, RTT and the sent-packet tracker of the QUIC recovery code.
- TransferSender.SendTransfer: what the connection does between calls (retransmission, pacing waits) is an arbitrary outcome per call; liveness of the sender under endless backpressure is not claimed.
- UploadSender.SendUploadBodies: an error raised by the connection ends the transfer and is not modelled; trace printing is omitted; a chunk carries its length, not its bytes, since the program always sends the same prefix of one buffer.
- Receivers: `skipRequestData` is an input; the response phase after the upload. The program answers the same error to a refused event and to wrong totals; the model tells them apart.
- FaultInjectors: the busy wait that delays packets, and the flipped bit of `CorruptState`.
- CountingAllocator: the multi-threaded allocator of examples/support, and printing.
- MqttBarrier: runs in which a worker or the main thread fails, and the checksum; the broker is assumed to deliver each publish once per subscriber.
- MqttPublish.PublishWindowed: a failing write or completion ends the driver and is not modelled.
- WebTransport.Serve: the byte checksum; direction and initiator of a stream are one flag, since the program tests them together.
- WebTransport.WriteAll: the reset and finish calls around the loop, which only hand over to the connection.
- MqttFraming: the scripted broker exchanges beyond framing and matching.
- Percentiles, throughput statistics, argument parsing, printing, sockets, TLS, HPACK, QPACK, HTTP parsing, the MQTT broker itself and the WebTransport registry.
