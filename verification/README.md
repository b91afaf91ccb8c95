# Verified models of uquic

uquic is a QUIC implementation in Go with a configurable first flight. This project models the parts of it that are
hardest to get right, in Dafny, and proves what they promise: that no byte of a stream or of the handshake is lost,
duplicated or invented, that searches terminate with the accuracy they claim, and that two endpoints that follow the
code never see each other's frames as errors.

`dafny verify dfyconfig.toml` checks everything. Classes of the source that update their fields are classes here, with
the same fields; loops stay loops. Ghost fields record what the code forgets (the bytes sent so far, the numbers ever
announced) so that whole-run properties can be invariants.

| file | module | what it models |
|---|---|---|
| Protocol.dfy, Chunks.dfy | `Protocol`, `Chunks` | constants; counting the bytes of chunks by offset and value |
| Varint.dfy | `Varint` | variable-length integers (section 16 of RFC 9000) |
| FrameSorter.dfy | `FrameSorting` | reassembly of a stream from overlapping frames |
| MtuDiscovery.dfy | `MtuDiscovery` | the search for the path MTU, with lost and stale probes |
| InitialLayout.dfy | `InitialLayout` | random layouts of handshake data in PING, CRYPTO and PADDING frames |
| InitialStaging.dfy | `InitialStaging` | preparing Initial packets: staging, layout, commit |
| Datagram.dfy | `DatagramPacking` | the sizes of a datagram of coalesced packets |
| SendStream.dfy, StreamCodec.dfy | `SendStreams`, `StreamCodec` | the sending side of a stream; STREAM frames on the wire |
| Framer.dfy | `Framing` | filling a packet with control and STREAM frames |
| StreamLink.dfy | `StreamLinking` | a sending stream and a frame sorter with a lossy network between them |
| ConnIdManager.dfy, ConnIdPair.dfy | `ConnIdManaging`, `ConnIdPairing` | connection IDs: the receiving side, the issuing side, and both together |
| SentPacketHistory.dfy, ReceivedPacketHistory.dfy | `SentPackets`, `ReceivedPackets` | packet number bookkeeping |
| IncomingStreams.dfy | `IncomingStreaming` | streams opened by the peer |
| Ecn.dfy | `EcnTracking` | ECN validation (section 13.4 of RFC 9000) |

Random choices (crypto/rand, math/rand), time, and the outcome of sending (acknowledged, lost, reordered, repeated)
are parameters or arbitrary choices, so every result holds for all of them. A panic of the source is a result value
(`PushPanicked`, `panicked`), and so is an error return.

The main results:

- **Reassembly.** `FrameSorting.Run`: for every sequence of pushes of slices of one stream, in any order and with any
  overlap, mixed with pops, what is popped is the stream up to the first byte that did not arrive, and every callback
  was called once or is still stored. A run can only fail for too many gaps.
- **Initial packets.** `InitialStaging.InitialPacker` keeps `Accounted`: over every run of writes, sends, losses and
  acknowledgements, each handshake byte is in exactly one place. `Prepare` carries exactly the bytes it records, within
  the budget, and fails only for the reasons in `MayFail`. `InitialLayout.BuildAtWithLimit` lays out the longest prefix
  that fits, which its binary search finds because of `PrefixSizeIncreasing`.
- **Streams end to end.** `StreamLinking.StreamLink.ReadAll`: over every run of writes, sends, losses, repeats and
  acknowledgements, what is read is a prefix of what was written, and all of it once the sender reports completion
  without having been cancelled.
- **Path MTU.** `RankDecreases` and `RunTerminates` bound the number of probes; `Accuracy` says how far below the path
  MTU a finished search can stop if fewer than three smaller probes were lost by accident.
- **Connection IDs.** `ConnIdPairing`: if both sides run the code and no path is probed, no NEW_CONNECTION_ID or
  RETIRE_CONNECTION_ID frame is ever an error, and both agree about the numbers in use.

## Model

| member | source | states |
|---|---|---|
| `Varint.LenMinimal` | quicvarint/varint.go:145-164 | the length chosen is the shortest of the four that holds the value |
| `Varint.ParseEncodeIn` | quicvarint/varint.go:73-94 | parsing undoes encoding in any length that holds the value, whatever follows |
| `Varint.ParseEncode` | quicvarint/varint.go:97-114 | parsing undoes Append |
| `Varint.EncodeInParse` | quicvarint/varint.go:73-94 | encoding undoes parsing: the bytes read are the value in that many bytes |
| `Varint.AppendWithLen` | quicvarint/varint.go:117-142 | panics exactly for a length that is not 1, 2, 4 or 8 or is too short; otherwise appends the value in that length |
| `Varint.LongerEncoding` | quicvarint/varint.go:117-142 | a longer encoding is the length bits, zeros, and the shortest big-endian digits |
| `FrameSorting.FrameSorter.constructor` | frame_sorter.go:36-43 | everything up to the largest offset is one gap |
| `FrameSorting.FrameSorter.FindStartGap` | frame_sorter.go:180-190 | the first gap that reaches the offset; none exactly beyond the largest offset |
| `FrameSorting.FrameSorter.FindEndGap` | frame_sorter.go:192-202 | the gap that holds the end, or the one before it; none exactly from the largest offset on |
| `FrameSorting.FrameSorter.DeleteConsecutive` | frame_sorter.go:205-218 | removes exactly the chunks of the region, and every callback removed is called once |
| `FrameSorting.FrameSorter.ReplaceFrom` | frame_sorter.go:85-112 | the replaced chunks cover the frame so far; a duplicate changes nothing; a cut frame is covered to its end |
| `FrameSorting.FrameSorter.EditGaps` | frame_sorter.go:120-160 | the gaps afterwards are the gaps before without the frame's bytes, and the chunks between are gone |
| `FrameSorting.FrameSorter.Insert` | frame_sorter.go:56-178 | reports a duplicate only if no byte was missing and too many gaps exactly if the list is full and the frame splits one; otherwise exactly the frame's bytes stop missing, and the stored chunks hold only bytes of the frame or of chunks before |
| `FrameSorting.SubtractRemoves` | frame_sorter.go:120-160 | editing the gap list is set difference on the missing bytes |
| `FrameSorting.SubtractValid` | frame_sorter.go:120-160 | it keeps the gaps sorted, non-empty and apart |
| `FrameSorting.SubtractLength` | frame_sorter.go:120-160 | there is one gap more exactly if the frame lies strictly inside one, otherwise not more than before |
| `FrameSorting.StoreKeepsPartition` | frame_sorter.go:162-178 | after storing, chunks and gaps partition the bytes from the read position on |
| `FrameSorting.FrameSorter.Push` | frame_sorter.go:45-54 | panics exactly if a non-empty frame ends at or beyond the largest offset; fails exactly if the gap list is full and the frame lies strictly inside a gap; otherwise exactly the frame's bytes stop missing and its callback is called or stored, once |
| `FrameSorting.LastBytePanics` | frame_sorter.go:192-202 | one byte at the last offset makes Push panic |
| `FrameSorting.FrameSorter.Pop` | frame_sorter.go:220-232 | hands out the chunk at the read position, nothing exactly if that byte is missing, and never panics |
| `FrameSorting.Step` | frame_sorter.go:45-54 | one push or pop of a run keeps the delivered bytes equal to the stream and the callbacks accounted for |
| `FrameSorting.Drain` | frame_sorter.go:220-232 | popping until nothing comes out stops at the first missing byte |
| `FrameSorting.Run` | frame_sorter.go:28-232 | for every run, delivered bytes are the stream up to the first byte that did not arrive; every callback given is called once or stored; a run fails only after at least 1000 operations |
| `MtuDiscovery.ProbeInside` | mtu_discoverer.go:164-177 | a probe lies between the two ends, strictly above the lower one after an acknowledgement |
| `MtuDiscovery.AckedValid` | mtu_discoverer.go:198-230 | an acknowledgement keeps the losses sorted and the upper end |
| `MtuDiscovery.LostValid` | mtu_discoverer.go:232-250 | a loss keeps the losses sorted and never raises the upper end, which stays while fewer than three losses are known |
| `MtuDiscovery.NextValid` | mtu_discoverer.go:198-250 | over one outcome the lower end never falls and the upper end never rises |
| `MtuDiscovery.RankDecreases` | mtu_discoverer.go:137-177 | every outcome of a probe lowers a non-negative measure |
| `MtuDiscovery.RunTerminates` | mtu_discoverer.go:84-88 | a search sends at most as many probes as its initial measure |
| `MtuDiscovery.UpperEndNeedsLosses` | mtu_discoverer.go:29-32 | the upper end falls below a size only after three losses below it |
| `MtuDiscovery.LowerEndAtMost` | mtu_discoverer.go:198-230 | the lower end never exceeds the largest size acknowledged |
| `MtuDiscovery.Accuracy` | mtu_discoverer.go:23-33 | a finished search that lost at most two smaller probes by accident is at most 21 bytes below the path MTU and never above it |
| `MtuDiscovery.ToleranceIsTight` | mtu_discoverer.go:29-32 | three accidental losses can push the upper end below a size the path carries |
| `MtuDiscovery.FindAbove` | mtu_discoverer.go:211-217 | the array search finds the first loss above a size |
| `MtuDiscovery.DropUpTo` | mtu_discoverer.go:210-226 | shifting in place removes exactly the losses at or below the acknowledged size |
| `MtuDiscovery.InsertLoss` | mtu_discoverer.go:243-249 | inserting in place keeps the three smallest losses, sorted |
| `MtuDiscovery.MtuFinder.constructor` | mtu_discoverer.go:112-135 | starts the search with the maximum as the only loss |
| `MtuDiscovery.MtuFinder.MaxSize` | mtu_discoverer.go:141-148 | the largest recorded loss is the upper end of the search |
| `MtuDiscovery.MtuFinder.IsDone` | mtu_discoverer.go:137-139 | done exactly when the ends are at most 21 apart |
| `MtuDiscovery.MtuFinder.Start` | mtu_discoverer.go:150-152 | probes can become due from now on, and the search is unchanged |
| `MtuDiscovery.MtuFinder.ShouldSendProbe` | mtu_discoverer.go:154-162 | a probe is due exactly if started, none in flight, not done, and five RTTs have passed |
| `MtuDiscovery.MtuFinder.GetPing` | mtu_discoverer.go:164-177 | sends the search's next probe with the current generation |
| `MtuDiscovery.MtuFinder.Reset` | mtu_discoverer.go:183-189 | starts over with the next generation, modulo 256 |
| `MtuDiscovery.MtuFinder.OnAcked` | mtu_discoverer.go:198-230 | panics exactly for a current generation with nothing in flight; otherwise the search moves on, or a stale report changes nothing |
| `MtuDiscovery.MtuFinder.OnLost` | mtu_discoverer.go:232-250 | the same for a loss |
| `MtuDiscovery.WorldStep` | mtu_discoverer.go:183-250 | while fewer than 256 resets pass during a probe's flight, a report counts exactly if no reset came between, never panics, and moves the search by the outcome of its own last probe |
| `MtuDiscovery.WorldRun` | mtu_discoverer.go:183-250 | so over every such run of probes, resets and reports |
| `MtuDiscovery.StaleIffWrapped` | mtu_discoverer.go:183-189 | over every run, the report of a probe counts exactly if a multiple of 256 resets, perhaps none, came since it was sent |
| `MtuDiscovery.ResetTimesGeneration` | mtu_discoverer.go:183-189 | n resets advance the generation by n modulo 256 and leave nothing in flight |
| `MtuDiscovery.WrapAroundPanics` | mtu_discoverer.go:198-206 | after 256 resets the report of an old probe is accepted with nothing in flight, which panics |
| `InitialLayout.ParseLayout` | u_quic_frames.go:45-89 | parsing a serialised layout gives back its frames, whatever their order |
| `InitialLayout.ShuffleKeeps` | u_quic_frames.go:409-416 | shuffling changes neither the length nor the CRYPTO frames |
| `InitialLayout.SplitCrypto` | u_quic_frames.go:302-325 | the drawn CRYPTO frames tile the data; each has a byte if there are enough |
| `InitialLayout.SplitPadding` | u_quic_frames.go:378-407 | the drawn PADDING frames have the wanted total |
| `InitialLayout.Shuffle` | u_quic_frames.go:409-412 | the result is a permutation |
| `InitialLayout.Build` | u_quic_frames.go:45-89 | serialises the frames, with offsets relative to the lowest CRYPTO frame |
| `InitialLayout.BuildPlain` | u_packet_packer.go:405-412 | the default layout carries the data in consecutive pieces and is as long as its frames |
| `InitialLayout.TrimMonotone` | u_quic_frames.go:337-354 | a longer prefix gives every piece at least as many bytes, and as many more are used |
| `InitialLayout.HeadersMonotone` | u_quic_frames.go:337-354 | the headers of a longer prefix are not shorter |
| `InitialLayout.PrefixSizeIncreasing` | u_quic_frames.go:332-366 | the size grows by at least one per byte, so that halving is a valid search |
| `InitialLayout.TrimTo` | u_quic_frames.go:337-354 | the loop computes the trimmed frames and their exact size |
| `InitialLayout.LongestPrefix` | u_quic_frames.go:355-366 | the binary search finds the longest prefix that fits; none exactly if not even one byte fits |
| `InitialLayout.Fit` | u_quic_frames.go:327-376 | a layout over the budget is trimmed to the longest prefix, at least one byte, or nothing fits |
| `InitialLayout.RoomSuffices` | u_quic_frames.go:355-358 | a budget of MaxPING + 10 MaxCRYPTO + 1 bytes always holds a byte |
| `InitialLayout.Pad` | u_quic_frames.go:378-416 | padding fills up to the configured length or the budget, and the data is carried in consecutive pieces |
| `InitialLayout.BuildAtWithLimit` | u_quic_frames.go:248-417 | rejects exactly bad bounds; otherwise carries the longest prefix that fits in consecutive pieces and pads to the configured length; fails only if no byte fits, never with enough room |
| `InitialStaging.MaxDataLenFits` | internal/wire/crypto_frame.go:54-66 | data of the computed length fits, and a frame that is too long is cut |
| `InitialStaging.MaybeSplit` | internal/wire/crypto_frame.go:73-97 | the head fits, and head and rest are the frame's bytes at their offsets |
| `InitialStaging.TakeRetransmissions` | packet_packer.go:545-564 | frames taken and left hold what the queue held, contiguously, within the budget; nothing is taken only without room |
| `InitialStaging.SortByOffset` | u_packet_packer.go:216-218 | a sorted permutation |
| `InitialStaging.FirstRun` | u_packet_packer.go:214-227 | the frames from the lowest offset that follow one another, and the others, hold the queue's bytes |
| `InitialStaging.ContiguousCuts` | u_packet_packer.go:386-412 | contiguous frames tile their reassembled data |
| `InitialStaging.PlainLength` | u_packet_packer.go:405-412 | the default layout takes as many bytes as the frames it is made from, so staged frames always fit |
| `InitialStaging.LayCrypto` | u_packet_packer.go:397-430 | the layout fits and carries a prefix of the data, not empty unless control frames go alone; it fails only for lack of room or bad bounds |
| `InitialStaging.Marshal` | u_packet_packer.go:352-432 | ACK, control frames, then the layout, within the budget; why it can fail or defer the CRYPTO data |
| `InitialStaging.Settle` | u_packet_packer.go:260-286 | cuts the frames at the end of what was laid out: no byte lost, none on both sides |
| `InitialStaging.RecordedSent` | u_packet_packer.go:260-286 | the recorded frames hold exactly the bytes that were laid out |
| `InitialStaging.NothingRecorded` | u_packet_packer.go:294-297 | with no frame recorded nothing was laid out |
| `InitialStaging.CommitQueue` | u_packet_packer.go:288-293 | unsent frames at the front, deferred frames at the end: the queue and the packet hold what was held |
| `InitialStaging.CommitStream` | u_packet_packer.go:266-287 | the stream resumes at the first byte that was not sent |
| `InitialStaging.PadShort` | u_packet_packer.go:252-255 | padded to four bytes with the packet number, and only then |
| `InitialStaging.InitialPacker.Stage` | u_packet_packer.go:196-237 | copies are staged without touching the originals; nothing is staged only if room is tight |
| `InitialStaging.InitialPacker.Commit` | u_packet_packer.go:260-293 | after the commit every byte is held or recorded, as often as before |
| `InitialStaging.InitialPacker.Send` | u_packet_packer.go:247-299 | lays out and commits; an error commits nothing |
| `InitialStaging.InitialPacker.Prepare` | u_packet_packer.go:196-299 | an error changes nothing and has one of the reasons in `MayFail`; otherwise every CRYPTO byte is held or recorded as often as before, the payload fits and carries exactly the recorded bytes, and waiting data is sent unless room is tight |
| `InitialStaging.InitialPacker.constructor` | crypto_stream.go:21-23 | nothing written, stream and queue empty |
| `InitialStaging.InitialPacker.Write` | crypto_stream.go:67-70 | written bytes wait at the end of the stream, and each stays in one place |
| `InitialStaging.InitialPacker.Transmit` | u_packet_packer.go:196-299 | sending a packet keeps each byte in exactly one place |
| `InitialStaging.InitialPacker.OnAcked` | retransmission_queue.go:163 | so does an acknowledgement |
| `InitialStaging.InitialPacker.OnLost` | retransmission_queue.go:164-166 | so does a loss, which queues the frame again, CRYPTO or control |
| `DatagramPacking.CoalesceRest` | u_packet_packer.go:73-130 | the packets of all levels together fit; never a 0-RTT and a 1-RTT packet |
| `DatagramPacking.PadLaidOut` | u_packet_packer.go:174-189 | a datagram below the configured minimum is padded to it, inside the 1-RTT packet or else behind the last packet; any other stays as it is |
| `DatagramPacking.PadPlain` | packet_packer.go:318-327 | a client's Initial packet without a layout fills the budget |
| `DatagramPacking.PackInitial` | u_packet_packer.go:48-71 | the Initial packet fits; an error changes nothing |
| `DatagramPacking.PackCoalesced` | u_packet_packer.go:40-191 | a datagram fits its budget and reaches its minimum; every CRYPTO byte is held or in it; with waiting data and none of the reasons in `MayFail` there is a laid-out Initial packet |
| `SendStreams.MaxDataLenFits` | internal/wire/stream_frame.go:136-154 | data of the computed length fits with its length field |
| `SendStreams.MaybeSplit` | internal/wire/stream_frame.go:161-187 | split exactly if too long; head and rest are the frame, the FIN stays with the rest, the head fits |
| `SendStreams.ConservesSend` | send_stream.go:220-235 | a new frame extends the bytes sent and keeps each byte in one place |
| `SendStreams.ConservesAck` | send_stream.go:541-559 | an acknowledged frame moves from under way to delivered |
| `SendStreams.ConservesLoss` | send_stream.go:561-577 | a lost frame moves from under way to the retransmission queue |
| `SendStreams.ConservesRetransmit` | send_stream.go:340-348 | a retransmitted frame moves back |
| `SendStreams.ConservesSplit` | send_stream.go:340-348 | so does the head of a split one, and the rest stays queued |
| `SendStreams.Connection.IsNewlyBlocked` | internal/flowcontrol/base_flow_controller.go:38-44 | a limit is reported only when reached, and at most once |
| `SendStreams.Connection.UpdateSendWindow` | internal/flowcontrol/base_flow_controller.go:51-57 | the limit never falls |
| `SendStreams.SendStream.constructor` | send_stream.go:71-86 | an empty stream |
| `SendStreams.SendStream.BeginWrite` | send_stream.go:106-208 | what a returning Write reports as written is what the stream took over; less than all only with an error |
| `SendStreams.SendStream.ContinueWrite` | send_stream.go:133-208 | the same for a Write that waited, whatever was sent meanwhile |
| `SendStreams.SendStream.EndWrite` | send_stream.go:158-208 | the count returned is the argument without what is left of it |
| `SendStreams.SendStream.Close` | send_stream.go:398-422 | the stream is finished, or was shut down; an error is returned exactly for a cancelled stream closed for the first time |
| `SendStreams.SendStream.CancelWrite` | send_stream.go:431-469 | a RESET_STREAM with the number of bytes sent is queued once, and nothing is retransmitted |
| `SendStreams.SendStream.CloseForShutdown` | send_stream.go:519-527 | Write fails from now on, unless the stream was finished; an earlier error is kept |
| `SendStreams.SendStream.UpdateSendWindow` | send_stream.go:471-482 | the limit never falls |
| `SendStreams.SendStream.IsNewlyCompleted` | send_stream.go:373-396 | completion is reported once, and as soon as the FIN was sent and nothing is under way or queued, or the reset was acknowledged and the cancellation is known; without cancellation every byte and the FIN were acknowledged once |
| `SendStreams.SendStream.CompletedDelivered` | send_stream.go:373-396 | a completed stream that was not cancelled has delivered everything |
| `SendStreams.SendStream.OnAcked` | send_stream.go:541-559 | the frame is delivered; the counter of frames under way is not negative |
| `SendStreams.SendStream.OnLost` | send_stream.go:561-577 | the frame is queued, unless the stream was cancelled |
| `SendStreams.SendStream.GetControlFrame` | send_stream.go:488-502 | the RESET_STREAM is handed out once per queueing |
| `SendStreams.SendStream.OnResetAcked` | send_stream.go:583-595 | one reset under way becomes acknowledged |
| `SendStreams.SendStream.OnResetLost` | send_stream.go:597-603 | one reset under way is queued again |
| `SendStreams.SendStream.NewData` | send_stream.go:293-338 | the data popped is the front of what waits, within window and size; none only if not one byte fits |
| `SendStreams.SendStream.Retransmit` | send_stream.go:340-348 | the front of the retransmission queue, whole or its head, fits; none only if not one byte fits |
| `SendStreams.SendStream.PopFin` | send_stream.go:254-265 | a due FIN goes out, alone, at the final offset |
| `SendStreams.SendStream.PopData` | send_stream.go:267-290 | new data continues the stream within both windows; none only without credit or room |
| `SendStreams.SendStream.PopStreamFrame` | send_stream.go:220-291 | a popped frame is new and next, within both windows, or the front of the retransmission queue, and fits; no frame only if the stream failed, has nothing to send, or lacks credit or room; without more data nothing waits |
| `StreamCodec.ParseFirst` | internal/wire/stream_frame.go:22-87 | parsing undoes Append, whatever follows a frame with a length field |
| `StreamCodec.ParseSerialised` | internal/wire/stream_frame.go:22-115 | the peer parses the frames of a packet that were packed |
| `Framing.TakeStreamFrames` | framer.go:171-192 | frames taken and left are each stream's frames, in order, within the budget; some are left only if room for the largest is lacking |
| `Framing.TakeLast` | framer.go:194-203 | frames are taken from the end while they fit, and the next would not |
| `Framing.Framer.AddActiveStream` | framer.go:217-224 | a stream waits for its turn once |
| `Framing.Framer.RemoveActiveStream` | framer.go:235-242 | a removed stream's place in the queue is skipped later |
| `Framing.Framer.PopPathResponse` | framer.go:160-169 | at most one PATH_RESPONSE, the oldest, exactly if it fits |
| `Framing.Framer.AppendControlFrames` | framer.go:153-206 | sent and waiting control frames are what waited before; they fit; frames wait only for lack of room or behind the one PATH_RESPONSE |
| `Framing.ShortFits` | framer.go:253-257 | a frame popped for a budget inflated by its length field fits without it |
| `Framing.Framer.PopFrom` | framer.go:253-262 | the frame fits without its length field; none only if the stream failed, is idle or lacks credit; a blocked stream reports exactly the offset it has sent up to |
| `Framing.Framer.NextStreamFrame` | framer.go:244-267 | the front stream has its turn and goes to the end, or leaves because it has nothing to send or failed |
| `Framing.Framer.AppendStreamFrames` | framer.go:99-125 | every stream has its turn, unless fewer than 128 bytes are left |
| `Framing.Framer.ReportBlocked` | framer.go:127-138 | DATA_BLOCKED is due only with no credit left, once per limit |
| `Framing.Framer.Append` | framer.go:85-151 | the packet fits and its length is exact; no control frame is lost, sent twice, or left waiting while there is room; each stream handed out exactly its frames in the packet, in order; the queue rotates fairly; the peer parses the packet; every active stream had its turn unless the packet is full |
| `Framing.SerialisedLength` | framer.go:143-150 | the length computed is the length on the wire |
| `Framing.PacketParses` | framer.go:143-150 | only the last frame lacks its length field, so the packet parses |
| `StreamLinking.OutstandingSlice` | send_stream.go:220-291 | every frame under way is a slice of the bytes sent |
| `StreamLinking.ArrivedMissing` | frame_sorter.go:45-54 | the gaps are exactly what has not arrived |
| `StreamLinking.AckedCovers` | send_stream.go:541-559 | if every byte was acknowledged, every byte arrived |
| `StreamLinking.StreamLink.constructor` | send_stream.go:71-86 | nothing sent, nothing read |
| `StreamLinking.StreamLink.Send` | send_stream.go:220-291 | sending keeps the link |
| `StreamLinking.StreamLink.Arrive` | frame_sorter.go:45-54 | a frame that arrives, perhaps again, keeps it; it fails exactly if the gap list is full and the frame splits a gap, and panics only on a stream of the largest possible size |
| `StreamLinking.StreamLink.Acknowledge` | send_stream.go:541-559 | so does an acknowledgement of what arrived |
| `StreamLinking.StreamLink.Lose` | send_stream.go:561-577 | so does a loss |
| `StreamLinking.StreamLink.Apply` | send_stream.go:92-469 | so do Write, Close and CancelWrite |
| `StreamLinking.StreamLink.Read` | frame_sorter.go:220-232 | a read continues the bytes read, and yields nothing exactly if the next byte has not arrived |
| `StreamLinking.StreamLink.CompleteArrived` | send_stream.go:373-396 | once the sender completed uncancelled, everything written has arrived |
| `StreamLinking.StreamLink.ReadAll` | send_stream.go:373-396 | what is read is a prefix of what was written, and all of it once the sender completed uncancelled |
| `ConnIdManaging.RetireQueue` | conn_id_manager.go:109-124 | exactly the entries below the bound leave the queue, and each is retired |
| `ConnIdManaging.Insert` | conn_id_manager.go:142-173 | the queue stays sorted with the entry in it; an error exactly if another entry has its number |
| `ConnIdManaging.RetireProbing` | conn_id_manager.go:99-108 | exactly the path entries below the bound leave, and each is retired |
| `ConnIdManaging.ConnIdManager.constructor` | conn_id_manager.go:47-59 | number 0 is active; the limit is the chosen one or the default |
| `ConnIdManaging.ConnIdManager.Rotate` | conn_id_manager.go:175-192 | the next number becomes active and the old one is retired; exactly the active ID's token is registered |
| `ConnIdManaging.ConnIdManager.Get` | conn_id_manager.go:239-245 | the active ID changes exactly if it should, and the queue is not empty then |
| `ConnIdManaging.ConnIdManager.Accept` | conn_id_manager.go:99-140 | nothing below retirePriorTo is held, the new number is; only numbers below it are retired; an error exactly for a conflicting entry |
| `ConnIdManaging.ConnIdManager.Add` | conn_id_manager.go:65-140 | every number ever announced is held or retired; errors exactly for zero-length IDs, conflicts and a full queue; nothing below retirePriorTo stays held, except exactly as `EarlyExact` says; no number serves twice, except exactly for a number that a path uses |
| `ConnIdManaging.ConnIdManager.Close` | conn_id_manager.go:194-199 | no reset token stays registered, also after a second Close |
| `ConnIdManaging.ConnIdManager.SetHandshakeComplete` | conn_id_manager.go:247-249 | the invariant survives the end of the handshake |
| `ConnIdManaging.ConnIdManager.SentPacket` | conn_id_manager.go:220-222 | counts modulo 2 to the 32 |
| `ConnIdManaging.ConnIdManager.GetForPath` | conn_id_manager.go:255-276 | a path keeps its ID or gets the next of the queue; none exactly if the queue is empty |
| `ConnIdManaging.ConnIdManager.RetireForPath` | conn_id_manager.go:278-293 | the path's number is retired and no other changes |
| `ConnIdManaging.ConnIdManager.EarlyExact` | conn_id_manager.go:92-97 | an early frame leaves nothing below its retirePriorTo exactly if nothing below was active or probing before |
| `ConnIdManaging.ConnIdManager.EarlyUnprobed` | conn_id_manager.go:92-97 | unless a path was probed, that is always so |
| `ConnIdManaging.ConnIdManager.EarlyHeld` | conn_id_manager.go:92-97 | an early frame retires a number in use exactly if it is active below the highest number probed, or a path uses it |
| `ConnIdManaging.DuplicateRetiresActive` | conn_id_manager.go:92-97 | a run after which the active number was retired |
| `ConnIdManaging.DuplicateServesTwice` | conn_id_manager.go:255-276 | a run after which two paths use one number |
| `ConnIdManaging.EarlyKeepsRetired` | conn_id_manager.go:92-97 | a run after which a number below retirePriorTo is still held |
| `ConnIdPairing.ConnIdGenerator.constructor` | conn_id_generator.go:26-50 | number 0 is active |
| `ConnIdPairing.ConnIdGenerator.Issue` | conn_id_generator.go:97-111 | the next number, announced in a frame |
| `ConnIdPairing.ConnIdGenerator.SetMaxActive` | conn_id_generator.go:52-68 | as many IDs as the peer's limit allows, at most six, are active |
| `ConnIdPairing.ConnIdGenerator.Retire` | conn_id_generator.go:70-95 | an error exactly for a number never issued or the ID in use; a retired number other than 0 is replaced |
| `ConnIdPairing.QueueSmaller` | conn_id_manager.go:65-81 | the queue is smaller than the set of numbers in use |
| `ConnIdPairing.ConnIdPair.HeldActive` | conn_id_manager.go:65-140 | every number one side holds is active on the other, with the same ID, and the queue stays below the limit |
| `ConnIdPairing.ConnIdPair.SetMaxActive` | conn_id_generator.go:52-68 | announcing IDs keeps the agreement |
| `ConnIdPairing.ConnIdPair.DeliverNew` | conn_id_manager.go:65-140 | a NEW_CONNECTION_ID frame, reordered or repeated, is never an error |
| `ConnIdPairing.ConnIdPair.Get` | conn_id_manager.go:239-245 | changing the active ID keeps the agreement |
| `ConnIdPairing.ConnIdPair.SendRetire` | conn_id_manager.go:175-192 | a RETIRE_CONNECTION_ID frame goes out in a packet to another ID |
| `ConnIdPairing.ConnIdPair.NotInUse` | conn_id_generator.go:70-95 | a packet that retires a number is not sent to its ID, and the number is not held |
| `ConnIdPairing.ConnIdPair.DeliverRetire` | conn_id_generator.go:70-95 | a RETIRE_CONNECTION_ID frame, reordered or repeated, is never an error and retires nothing in use |
| `SentPackets.CleanupStart` | internal/ackhandler/sent_packet_history.go:197-205 | only empty slots leave the front, and the first one left is not empty |
| `SentPackets.DropSkipped` | internal/ackhandler/sent_packet_history.go:133-141 | exactly the skipped numbers directly before are emptied |
| `SentPackets.SentPacketHistory.constructor` | internal/ackhandler/sent_packet_history.go:19-29 | nothing sent |
| `SentPackets.SentPacketHistory.SkippedPacket` | internal/ackhandler/sent_packet_history.go:40-46 | the number is found as skipped and no other changes |
| `SentPackets.SentPacketHistory.SentNonAckElicitingPacket` | internal/ackhandler/sent_packet_history.go:48-53 | the number is known and has no packet |
| `SentPackets.SentPacketHistory.SentAckElicitingPacket` | internal/ackhandler/sent_packet_history.go:55-61 | the packet is found under its number and counted |
| `SentPackets.SentPacketHistory.SentPathProbePacket` | internal/ackhandler/sent_packet_history.go:63-70 | the probe is kept apart, in order |
| `SentPackets.SentPacketHistory.FirstOutstanding` | internal/ackhandler/sent_packet_history.go:96-106 | the lowest outstanding packet; none exactly if none is outstanding |
| `SentPackets.SentPacketHistory.GetIndex` | internal/ackhandler/sent_packet_history.go:173-186 | the slot of a number is its distance from the first; none exactly outside the slots |
| `SentPackets.SentPacketHistory.Remove` | internal/ackhandler/sent_packet_history.go:120-149 | removes exactly the packet and the skipped numbers directly before it; every other number is found as before; the counter equals the outstanding packets |
| `SentPackets.SentPacketHistory.DeclareLost` | internal/ackhandler/sent_packet_history.go:214-230 | removes exactly the packet |
| `SentPackets.SentPacketHistory.RemovePathProbe` | internal/ackhandler/sent_packet_history.go:154-170 | removes the probe with the number, the others keep their order; none exactly if there is none |
| `ReceivedPackets.AddToRanges` | internal/ackhandler/received_packet_history.go:45-81 | the ranges hold one more number, stay sorted and apart, and grow in number exactly if it touches none |
| `ReceivedPackets.AddCapped` | internal/ackhandler/received_packet_history.go:30-43 | the lowest range is dropped exactly if there would be more than 32 |
| `ReceivedPackets.LosesNothing` | internal/ackhandler/received_packet_history.go:30-43 | nothing is forgotten exactly if there are fewer than 32 ranges or the number touches one |
| `ReceivedPackets.CutBelow` | internal/ackhandler/received_packet_history.go:84-108 | exactly the numbers from the cutoff on stay |
| `ReceivedPackets.ReceivedPacketHistory.constructor` | internal/ackhandler/received_packet_history.go:25-27 | nothing received |
| `ReceivedPackets.ReceivedPacketHistory.ReceivedPacket` | internal/ackhandler/received_packet_history.go:30-43 | new exactly if from the cutoff on and in no range; the ranges are exactly what was received from the cutoff on, unless one was dropped |
| `ReceivedPackets.ReceivedPacketHistory.DeleteBelow` | internal/ackhandler/received_packet_history.go:84-108 | forgets exactly what is below |
| `ReceivedPackets.ReceivedPacketHistory.AppendAckRanges` | internal/ackhandler/received_packet_history.go:111-116 | the same numbers, highest range first, as an ACK frame needs them |
| `ReceivedPackets.ReceivedPacketHistory.IsPotentiallyDuplicate` | internal/ackhandler/received_packet_history.go:127-141 | exactly what was received or is below the cutoff, unless a range was dropped |
| `ReceivedPackets.ForgetsDropped` | internal/ackhandler/received_packet_history.go:30-43 | a run in which number 0, received before and not below the cutoff, is reported as new |
| `IncomingStreaming.IncomingStreams.constructor` | streams_map_incoming.go:40-57 | no stream; the limit is the configured one |
| `IncomingStreaming.IncomingStreams.Accept` | streams_map_incoming.go:59-99 | every stream once, in order, even if it is done already, in which case the peer's limit grows as in Delete; waits exactly if there is none |
| `IncomingStreaming.IncomingStreams.Delete` | streams_map_incoming.go:148-185 | a stream not accepted yet is kept; otherwise the limit grows so that exactly the configured number of streams is open or may be opened, while that is a valid stream count |
| `IncomingStreaming.IncomingStreams.GetOrOpen` | streams_map_incoming.go:101-139 | an error exactly beyond the limit; opens exactly the streams up to the number; a stream that is gone does not come back |
| `IncomingStreaming.IncomingStreams.CloseWithError` | streams_map_incoming.go:187-195 | every stream that exists is shut down, and Accept reports the error from now on |
| `EcnTracking.CountedEnough` | internal/ackhandler/ecn.go:276-289 | every packet sent with ECT(0) is counted as such, but the last one of the test |
| `EcnTracking.EcnTracker.constructor` | internal/ackhandler/ecn.go:54-63 | no packet sent, no counts |
| `EcnTracking.EcnTracker.Mode` | internal/ackhandler/ecn.go:103-118 | packets are marked only while testing or once capable |
| `EcnTracking.EcnTracker.SentPacket` | internal/ackhandler/ecn.go:65-101 | the test ends with the tenth marked packet; the counts are exact |
| `EcnTracking.EcnTracker.LostPacket` | internal/ackhandler/ecn.go:120-142 | lost testing packets are counted; once all were sent, validation fails exactly if all were lost, or lost or marked CE |
| `EcnTracking.EcnTracker.Check` | internal/ackhandler/ecn.go:152-226 | accepts exactly plausible counts: not decreasing, not above what was sent, covering what is newly acknowledged |
| `EcnTracking.EcnTracker.HandleNewlyAcked` | internal/ackhandler/ecn.go:147-262 | counts are taken over exactly if plausible, otherwise validation fails; a path becomes capable only with raised ECT counts; congestion is reported exactly on a capable path with a raised CE count |
| `EcnTracking.CeExceedsSent` | internal/ackhandler/ecn.go:228-231 | a run with an accepted CE count above the number of packets sent |

## Findings

Properties that a reader might expect and that fail, each with a run or input that shows it and the exact condition.

| member | what fails | exactly when |
|---|---|---|
| `FrameSorting.LastBytePanics` | a frame that the parser admits is stored or rejected with an error | `Push`: it panics if and only if the frame is not empty and ends at or beyond the largest offset; the parser admits an end equal to it, but flow control must have granted the whole range of offsets before such a frame arrives here |
| `MtuDiscovery.WrapAroundPanics` | a report of an outdated probe is ignored | the one-byte generation takes it for a current one if and only if a multiple of 256 resets came between (`StaleIffWrapped`) |
| `ConnIdManaging.DuplicateRetiresActive` | a repeated NEW_CONNECTION_ID frame retires nothing in use | `EarlyHeld`: it does if and only if its number is active below the highest number probed, or a path uses it |
| `ConnIdManaging.DuplicateServesTwice` | an ID given to a path is not given to another | `Add`: a frame makes a number serve twice if and only if it is accepted, not the active one, and a path uses it |
| `ConnIdManaging.EarlyKeepsRetired` | after an accepted frame nothing below its RetirePriorTo is held | `EarlyExact`: for an early frame, if and only if neither the active number nor a path's number is below it |
| `ReceivedPackets.ForgetsDropped` | a number received before is a duplicate | `LosesNothing`: unless 32 ranges are full and a number starts another one; the cutoff is not raised then |
| `EcnTracking.CeExceedsSent` | accepted ECN counts do not exceed the packets sent | the ECT counts never do; the CE count does if and only if the one in the ACK frame does |

Where comments and code disagree, the model follows the code:

- mtu_discoverer.go:25 speaks of a packet 10 bytes below the MTU; with a difference of 20 and integer halving the bound is 21.
- u_quic_frames.go:200-222 asks for upper bounds above the lower ones; equal bounds are accepted.
- conn_id_manager.go:251-254 says that an ID given to a path is not used for another; see `DuplicateServesTwice`.
- internal/ackhandler/ecn.go:276-289 takes the last testing packet for an unmarked one, so that it is not counted.
- internal/ackhandler/ecn.go rejects missing counts with a test of its own, which rejects nothing the other tests accept.

## Left out

- Errors of crypto/rand in u_quic_frames.go: random choices are arbitrary values within their bounds.
- User-supplied non-empty `QUICFrames` and other frame builders: their layouts come from outside.
- `MaybePackPTOProbePacket`, connection close packets, header and payload encryption.
- EcnTracking.EcnTracker.SentPacket: requires a marking that `Mode` allows, or an unsupported one once validation has failed; the source counts ECT markings in the other states too, which `Mode` never asks for, and panics for an unsupported marking before.
- SentPackets.SentPacketHistory.Append: requires sequential packet numbers, as do the methods that call it; the source panics otherwise.
- ConnIdManaging.ConnIdManager.Get: requires that the manager is not closed, as do the other methods that the source makes panic then.
- `AddFromPreferredAddress`, `ChangeInitialConnID` and `SetStatelessResetToken` of the connection ID manager.
- Failures of a user's connection ID generator; removal and replacement of IDs when a connection closes.
- Budgets above 16383 bytes for frames and packets, where the length fields assumed by MaxDataLen are too short.
- Control frames are kept as their bytes; how each is built is not modelled. Popping an ACK frame has no effect here.
- DatagramPacking.PackCoalesced: the payload lengths of the Handshake, 0-RTT and 1-RTT packets come from a function that is assumed to fit its budget; errors of the sealers are not modelled.
- DatagramPacking.CoalesceRest: the same assumption.
- MtuDiscovery.MtuFinder.GetPing: requires an unfinished search; the source relies on its caller, which asks ShouldSendProbe first (connection.go:2051).
- InitialLayout.Build: requires frames inside the data, as the builders here make them; a layout from outside may reach beyond it.
- The wake-up signals of Write, AcceptStream and their deadlines: a waiting call may continue at any time.
- The receiving side of streams beyond reassembly (flow control, RESET_STREAM, STOP_SENDING), `HasMoreData` and `GetHighestAckRange`.
- The connection loop, congestion control, loss detection timers, TLS, sockets, HTTP/3, logging and object pools.
