# A verified model of the multipath QUIC core

This project models the transport core of a multipath fork of quic-go and proves what it promises: that a stream
arrives as it was written although several paths send stretches of it out of order, that acknowledgements never lie,
how the congestion controllers move their windows and where their arithmetic fails, and that the bookkeeping of streams
and of the utility controller's requests holds in every run.

The model keeps the program's form. What the program updates in place is a class with the same fields, loops and
branches; what it computes is a function. Every such method is proved equal to a short function on values, and the
properties are lemmas about those functions, most of them about all reachable states of a state machine.

| file | what it models |
|---|---|
| `Stms.dfy`, `StmsStream.dfy` | the send buffer of a stream, from which the fastest path takes the front and slower paths the back; arrays, slices that share them, and the copy that moves bytes down in place |
| `Framer.dfy` | splitting frames for retransmission |
| `FrameSorter.dfy`, `FrameQueue.dfy` | the receiver's list of gaps and its map of blocks |
| `Reassembly.dfy`, `Delivery.dfy`, `DeliveryCases.dfy` | runs of the receiver, and of sender, network and receiver together |
| `AckFrames.dfy`, `ReceivedHistory.dfy`, `ReceivedHandler.dfy` | the received packet numbers and the ACK frames made of them |
| `PacketLists.dfy`, `SentHandler.dfy`, `SentEffects.dfy`, `SentPacketHandler.dfy`, `StopWaiting.dfy`, `PacketNumbers.dfy` | the sent packets: history, retransmission queue, bytes in flight, skipped numbers, STOP_WAITING |
| `AckProtocol.dfy`, `SkippedNumbers.dfy` | sender, lossy network and honest receiver of one path together, and which ACKs for numbers never sent are caught |
| `OliaEpsilon.dfy`, `OliaWindow.dfy`, `OliaSender.dfy`, `OliaLaws.dfy` | OLIA: how the paths share one increase, and the window of one path |
| `Cubic.dfy`, `CubicWindow.dfy`, `CubicFriendly.dfy`, `CubicRuns.dfy`, `CubicSender.dfy` | CUBIC in 64-bit fixed-point arithmetic, its epochs and the Reno estimate beside it |
| `Simplex.dfy` | projecting three utility weights onto the simplex |
| `IncomingStreams.dfy` | streams opened by the peer in the IETF version, with a moving limit |
| `StreamsMap.dfy`, `RoundRobin.dfy`, `SessionStreams.dfy` | the session's streams and the round-robin over them |
| `Trigger.dfy`, `Requests.dfy`, `UtilityController.dfy` | when a path counts as deteriorated, and the requests for new coefficients |

Times are integers and floating-point numbers are real numbers. Clocks, randomness, the file system, round-trip times
and what a callback answers are parameters. Integer widths are modelled where they can matter: OLIA's 64-bit and 8-bit
arithmetic and CUBIC's 64-bit arithmetic wrap around in the model as they do in the program.

## What turned out different from what the code says of itself

* `packet_number_generator.go` describes numbers that are skipped from time to time. The constructor never draws the
  first one, so no number is ever skipped (`NeverSkips`); a run skips only a number that was drawn before it
  (`SkipsIffDrawn`, `DrawnAhead`). The sender's handling of skipped numbers is proved for any numbers nevertheless.
* Numbers are skipped so that an ACK for a packet that was never sent is rejected. When such an ACK gets as far as the
  check, it is rejected if and only if it acknowledges one of the ten latest skipped numbers that has not been forgotten
  after an earlier ACK (`CaughtExactly`); a short run leads to one that is accepted (`UnnoticedReached`).
* In `getDataForWritingSTMS`, the case for a path without a measured round-trip time (gap -2) is right if and only if no
  hole is open (`AloneExact`); with a hole, which a run reaches, it labels bytes with the wrong
  offset (`AloneFails`, `AloneFailureReached`). All other cases are
  right, and the runs of `Delivery` contain this case only where it is right.
* `Write` replaces the buffer; this is right if and only if nothing was pending, which a write deadline can violate
  (`WriteExact`, `WriteFailureReached`, `Stream.Write`).
* The framer marks a frame as the last one when the buffer becomes empty. Such a frame ends where the stream ends if
  and only if no hole was open (`Stms.FinExact`, `FinFailureReached`); an empty last frame carries the right offset
  under the condition in `EmptyFinExact` (`EmptyFinFailureReached`).
* `GetStopWaitingFrame` has a branch for a lost first frame. It is never taken.
* The gain and the OLIA step: with any gain between 0.8 and 1.2 and a step of one packet, rounding makes the gain have
  no effect in congestion avoidance (`GainNeutral`).
* CUBIC's product of 410 and the third power of the offset leaves the signed 64-bit range about 275 seconds after the
  origin, and at the start of an epoch more than 8388679 packets below it. Within 24 days of an origin below 2^63
  packets, the target is wrong exactly there (`OverflowExact`, `OverflowHappens`, `DropExact`, `DropHappens`).
* CUBIC records when the sender became application-limited but does not clear this when an epoch begins. The next
  shift then moves the epoch past the clock, and the target can wrap to nearly 2^64 (`ShiftExact`, `ShiftHappens`).
* On a client, `openRemoteStream` compares the counter of the client's own streams with the limit for the peer's, so
  the limit limits nothing there (`ClientUnlimited`, `AnswerExactly`). On a server the limit holds. `openStreamImpl`
  mixes the counters up the other way: a client may open any number of its own streams until the peer has as many open
  as the client may have, and none from then on (`LocalExactly`, `ClientOpens`).
* `GetOrOpenStream` reports the stream that this side would open next as closed, although it never was open
  (`ClosedExactly`).
* In both maps of streams, a stream that is closed before it was accepted makes `AcceptStream` wait forever
  (`AcceptsExactly`, `WaitsForever`, `WaitingHappens`, in `IncomingStreams` and in `StreamsMap`).
* `RoundRobinIterate` promises fairness, but its index moves by the streams served and not by the places passed. With
  streams 1 and 3 in the list, a stream that was served last is served again (`TurnExact`, `NextExact`, `ServedAgain`).

## Model

| member | source | states |
|---|---|---|
| Stms.SendTiles | quic-go43DMAP/stream.go:402-587 | every permitted send takes bytes that were not sent before, labelled with the offset the framer computes, and afterwards exactly these are sent in addition; what was sent stays one prefix and one stretch behind a hole |
| Stms.FrontTaken | quic-go43DMAP/stream.go:411-515 | the fastest path and the only path take from the front of what is pending, and those bytes are the ones written at the offset of the frame |
| Stms.SlowerTaken | quic-go43DMAP/stream.go:516-587 | a slower path leaves the hole to the fast one, takes at most the permitted bytes behind it, and the rest stays pending in order |
| Stms.NothingPending | quic-go43DMAP/stream.go:368-376 | the buffer is empty exactly when every written byte has been sent |
| Stms.FastestDrains | quic-go43DMAP/stream.go:413-498 | repeated sends on the fastest path alone drain the buffer, hole and tail |
| Stms.AloneExact | quic-go43DMAP/stream.go:499-515 | a send with gap -2 accounts for exactly the bytes of its frame if and only if no hole is open |
| Stms.AloneFails | quic-go43DMAP/stream.go:499-515 | with a hole open, a concrete frame with gap -2 does not hold the bytes written at its offset |
| Stms.WriteExact | quic-go43DMAP/stream.go:306-366 | replacing the buffer by the new bytes is right if and only if nothing was pending |
| Stms.FinExact | quic-go43DMAP/stream_framer.go:715-723 | the frame that empties the buffer ends where the stream ends if and only if no hole was open |
| Stms.EmptyFinExact | quic-go43DMAP/stream_framer.go:668-681 | an empty last frame is labelled with the end of the stream exactly for the stated gaps |
| StmsStream.Stream.constructor | quic-go43DMAP/stream.go:94-117 | a new stream has sent and holds nothing |
| StmsStream.Stream.TakeFront | quic-go43DMAP/stream.go:413-515 | the front of the buffer is given out as a slice that shares the array, outside what stays in use; frames given out before keep their bytes |
| StmsStream.Stream.TakeBack | quic-go43DMAP/stream.go:535-550 | the same for the back of the buffer |
| StmsStream.Stream.TakeMiddle | quic-go43DMAP/stream.go:525-587 | a copy is given out, the bytes behind move down in the same array, and no frame given out before changes |
| StmsStream.Stream.Write | quic-go43DMAP/stream.go:306-366 | the written bytes grow by p, and the buffer holds what is pending afterwards if and only if it was nil or p is empty |
| StmsStream.Stream.TakeFastest | quic-go43DMAP/stream.go:413-498 | the fastest path's case moves the offsets as specified, closes the hole when it is filled, and never reaches its error branch |
| StmsStream.Stream.TakeAlone | quic-go43DMAP/stream.go:499-515 | the case gap -2 moves all offsets by the bytes taken, which is the specified advance when no hole is open |
| StmsStream.Stream.TakeSlower | quic-go43DMAP/stream.go:516-587 | the slower path's case takes exactly the specified stretch, or nothing when the gap covers the buffer |
| StmsStream.Stream.GetDataForWritingSTMS | quic-go43DMAP/stream.go:402-587 | all three cases follow the specification: the new offsets, the bytes returned and what remains, also for gap -2 with a hole open; the branches that log errors are dead |
| StmsStream.Stream.EmitFrame | quic-go43DMAP/stream_framer.go:668-730 | the frame's offset, chosen before its data is taken, is where that data was written, and every earlier frame stays intact |
| StmsStream.Stream.PopFrame | quic-go43DMAP/stream_framer.go:659-748 | one stream's turn within the room left by header and send window |
| Framer.SplitKeeps | quic-go43DMAP/stream_framer.go:937-954 | a split frame and its remainder carry the same bytes at the same offsets and the same single FIN |
| Framer.SplitSame | quic-go43DMAP/stream_framer.go:937-954 | the same, for what a list of frames carries in total |
| Framer.IDLengthExact | quic-go43DMAP/internal/wire/stream_frame.go:155-164 | an identifier takes the fewest bytes in which it can be written |
| Framer.OffsetLengthExact | quic-go43DMAP/internal/wire/stream_frame.go:166-190 | an offset takes none if it is zero, and otherwise the fewest, at least two |
| Framer.StreamFramer.MaybeSplitOffFrame | quic-go43DMAP/stream_framer.go:937-954 | splits the first queued frame exactly when it is longer than n, into a piece of n bytes and the rest |
| Framer.StreamFramer.MaybePopFramesForRetransmission | quic-go43DMAP/stream_framer.go:182-216 | popped and still queued frames together carry what the queue carried; the pieces fit, and popping stops only when the queue is empty or the next frame's header leaves no room |
| FrameSorter.PushGaps | lal-43DMAP/quic-go@v0.10.9/frame_sorter.go:37-148 | a push removes exactly its bytes from what is missing, whatever it overlaps, keeps the gaps ascending and apart, and sets the final offset exactly with a FIN |
| FrameSorter.PushKeeps | lal-43DMAP/quic-go@v0.10.9/frame_sorter.go:37-148 | following the queued blocks leads from the read position and from each gap's end exactly to the next gap, and no block reaches into a gap |
| FrameSorter.PushFailsExactly | lal-43DMAP/quic-go@v0.10.9/frame_sorter.go:37-148 | a push fails exactly when it reaches the largest offset without being covered by the block at its own, or when it brings a byte that was missing and more stretches than the maximum remain of the gaps without it |
| FrameSorter.GapsCanonical | lal-43DMAP/quic-go@v0.10.9/frame_sorter.go:37-148 | the missing bytes determine the list of gaps, so its length is the number of stretches that are missing |
| FrameSorter.PushTrue | lal-43DMAP/quic-go@v0.10.9/frame_sorter.go:37-148 | if the frame holds the stream's bytes, so does every queued block |
| FrameSorter.PopKeeps | lal-43DMAP/quic-go@v0.10.9/frame_sorter.go:150-158 | a pop gives the stream's next bytes, gives none exactly when the next byte is missing, and reports the end exactly when the final offset is reached |
| ReceiveQueue.FrameQueue.FindGap | lal-43DMAP/quic-go@v0.10.9/frame_sorter.go:58-72 | the search over the list finds the gap the frame begins in or before, or tells that it is a duplicate or beyond the last gap |
| ReceiveQueue.FrameQueue.BridgeGaps | lal-43DMAP/quic-go@v0.10.9/frame_sorter.go:82-98 | the walk over the gaps removes those the frame covers and the block that begins where each bridged gap ended; at the largest offset it gives up with only the first and the last gap reached left |
| ReceiveQueue.FrameQueue.AdjustGaps | lal-43DMAP/quic-go@v0.10.9/frame_sorter.go:100-134 | what remains of the first and the last gap replaces them, in all cases of where the frame begins and ends |
| ReceiveQueue.FrameQueue.Push | lal-43DMAP/quic-go@v0.10.9/frame_sorter.go:37-148 | the loops over list and map compute exactly the specified state and error, for all data and offsets |
| ReceiveQueue.FrameQueue.Pop | lal-43DMAP/quic-go@v0.10.9/frame_sorter.go:150-158 | the same for pop |
| Reassembly.RunGood | lal-43DMAP/quic-go@v0.10.9/frame_sorter.go:29-158 | for any sequence of true frames, in any order, overlapping or repeated, what was popped is a prefix of the stream, and the run fails only by too many gaps |
| Reassembly.FinExact | lal-43DMAP/quic-go@v0.10.9/frame_sorter.go:150-158 | a pop reports the end exactly when a FIN has arrived and everything has been popped |
| Reassembly.TakesDrain | lal-43DMAP/quic-go@v0.10.9/frame_sorter.go:150-158 | repeated pops give everything up to the first byte that has not arrived |
| Reassembly.OrderIrrelevant | lal-43DMAP/quic-go@v0.10.9/frame_sorter.go:37-158 | two receivers that got the same bytes, in whatever frames and order, deliver the same |
| Reassembly.AllDelivered | lal-43DMAP/quic-go@v0.10.9/frame_sorter.go:37-158 | when every byte has arrived, pops deliver the whole stream |
| Delivery.ReachedInv | quic-go43DMAP/stream.go:306-587 | in every run of writes, sends, splits, deliveries and reads, the first transmissions never overlap, cover exactly what the sender counts as sent, and everything in the network is a true slice of the stream |
| Delivery.NeverWrong | quic-go43DMAP/stream.go:402-587 | in every run, over a network that drops, repeats and reorders, the receiver's output is a prefix of what was written |
| Delivery.NothingLost | quic-go43DMAP/stream.go:402-587 | when nothing is pending and every frame has arrived in some form, reading delivers exactly what was written |
| DeliveryCases.FramerSplits | quic-go43DMAP/stream_framer.go:937-954 | the framer's two frames are the two pieces of a split in a run, and true slices of the stream |
| DeliveryCases.AloneFailureReached | quic-go43DMAP/stream.go:499-515 | a run of one write and one send by a slower path reaches a state in which gap -2 labels bytes wrongly |
| DeliveryCases.WriteFailureReached | quic-go43DMAP/stream.go:306-366 | a second write while the first is pending loses the first byte from the buffer |
| DeliveryCases.FinFailureReached | quic-go43DMAP/stream_framer.go:715-723 | a run in which the frame that empties the buffer ends at byte 1 of 3 |
| DeliveryCases.EmptyFinFailureReached | quic-go43DMAP/stream_framer.go:668-681 | a run after which an empty last frame of a slower path is labelled with byte 2 of 1 |
| AckFrames.Located | quic-go43DMAP/ackhandler/sent_packet_handler.go:314-350 | in ranges that descend, the range found by the walk decides whether a number is acknowledged |
| ReceivedHistory.Canonical | quic-go43DMAP/ackhandler/received_packet_history.go:28-76 | a set of numbers has exactly one list of separated ranges |
| ReceivedHistory.ReceivedPacketHistory.ReceivedPacket | quic-go43DMAP/ackhandler/received_packet_history.go:28-76 | adds exactly this number to the set the ranges stand for, merging where needed, or refuses when there are too many ranges |
| ReceivedHistory.ReceivedPacketHistory.DeleteUpTo | quic-go43DMAP/ackhandler/received_packet_history.go:78-94 | removes exactly the numbers up to p, cutting the range p lies in |
| ReceivedHistory.ReceivedPacketHistory.GetAckRanges | quic-go43DMAP/ackhandler/received_packet_history.go:96-108 | gives the ranges from the highest to the lowest |
| ReceivedHistory.DescendingMembers | quic-go43DMAP/ackhandler/received_packet_history.go:96-108 | those ranges acknowledge exactly the recorded numbers |
| ReceivedHistory.DescendingDescends | quic-go43DMAP/internal/wire/ack_frame.go:392-430 | and they pass the validation of ACK ranges |
| ReceivedHandler.ReceiveSound | quic-go43DMAP/ackhandler/received_packet_handler.go:70-97 | the largest observed number is the largest recorded one after every packet |
| ReceivedHandler.LimitSound | quic-go43DMAP/ackhandler/received_packet_handler.go:99-102 | a lower limit keeps the largest number recorded if and only if it is below it |
| ReceivedHandler.FrameBuilt | quic-go43DMAP/ackhandler/received_packet_handler.go:152-175 | the frame made of the ranges is consistent and acknowledges exactly the recorded numbers |
| ReceivedHandler.ReceivedPacketHandler.ReceivedPacket | quic-go43DMAP/ackhandler/received_packet_handler.go:70-97 | records the number unless it is 0, below the limit or one range too many, and says which; a packet that asks for it leads to an ACK that is queued or timed |
| ReceivedHandler.ReceivedPacketHandler.SetLowerLimit | quic-go43DMAP/ackhandler/received_packet_handler.go:99-102 | forgets exactly the numbers up to the limit |
| ReceivedHandler.ReceivedPacketHandler.MaybeQueueAck | quic-go43DMAP/ackhandler/received_packet_handler.go:104-150 | exactly when an ACK is queued at once and when it is only timed |
| ReceivedHandler.ReceivedPacketHandler.GetAckFrame | quic-go43DMAP/ackhandler/received_packet_handler.go:152-175 | an ACK is given exactly when it is queued or due, and it acknowledges exactly what is recorded |
| StopWaiting.StopWaitingManager.GetStopWaitingFrame | quic-go43DMAP/ackhandler/stop_waiting_manager.go:16-37 | a frame never announces 0 nor more than is settled, announcements never go down, and the branch for a lost first frame is dead |
| StopWaiting.AnnouncesExactly | quic-go43DMAP/ackhandler/stop_waiting_manager.go:16-50 | in every run, an unforced call gives a frame if and only if a number was settled that no frame announced yet, and the frame announces everything up to the largest number settled |
| SentHandler.ExactlyOnePlace | quic-go43DMAP/ackhandler/sent_packet_handler.go:166-622 | a tracked packet is in exactly one of history, acknowledged, queued for retransmission and dequeued |
| SentHandler.SendKeeps | quic-go43DMAP/ackhandler/sent_packet_handler.go:166-222 | sending keeps bytes in flight equal to the history's total, the lists ascending, and the skipped numbers free of packets |
| SentHandler.ReceiveAckKeeps | quic-go43DMAP/ackhandler/sent_packet_handler.go:224-272 | so does an ACK, whatever it holds |
| SentHandler.AlarmKeeps | quic-go43DMAP/ackhandler/sent_packet_handler.go:492-524 | so does the alarm: early loss detection, a probe or a timeout |
| SentHandler.LoseInflightKeeps | quic-go43DMAP/ackhandler/sent_packet_handler.go:469-490 | so does giving up everything up to the largest acknowledged number |
| SentHandler.DequeueKeeps | quic-go43DMAP/ackhandler/sent_packet_handler.go:537-549 | so does taking a packet for retransmission |
| SentEffects.AckOutcomes | quic-go43DMAP/ackhandler/sent_packet_handler.go:224-256 | exactly when an ACK gets each of its outcomes, and that no packet moves unless it gets past the check for skipped numbers |
| SentEffects.AckEffect | quic-go43DMAP/ackhandler/sent_packet_handler.go:224-272 | every accepted ACK is processed: a packet stays outstanding exactly when it is neither acknowledged nor overdue, is newly acknowledged exactly when it was outstanding and the frame covers it, and is queued exactly when it was outstanding, overdue and not covered |
| SentEffects.AckCounters | quic-go43DMAP/ackhandler/sent_packet_handler.go:530-535 | the counters of probes and timeouts start over exactly when an outstanding packet is acknowledged, and the peer need not wait for anything up to the largest acknowledged number |
| SentEffects.SettledExactly | quic-go43DMAP/ackhandler/sent_packet_handler.go:155-160 | what counts as settled is everything below the lowest outstanding number, or up to the largest acknowledged one |
| SentEffects.NoLossExact | quic-go43DMAP/ackhandler/sent_packet_handler.go:434-458 | no time of loss is recorded exactly when no packet up to the largest acknowledged number is left that is not overdue |
| SentEffects.NextLossExact | quic-go43DMAP/ackhandler/sent_packet_handler.go:434-458 | otherwise it is the time at which the first such packet will be overdue |
| SentEffects.NextLossEarliest | quic-go43DMAP/ackhandler/sent_packet_handler.go:434-458 | which is the earliest such time when packets are in the order they were sent |
| SentEffects.AckLossTime | quic-go43DMAP/ackhandler/sent_packet_handler.go:253-266 | after an accepted ACK the time of loss is that of the packets still outstanding |
| SentEffects.AlarmEffect | quic-go43DMAP/ackhandler/sent_packet_handler.go:492-524 | which packets the alarm lets go: with a time of loss on record exactly the overdue ones, then twice the one with the highest number, then the two with the lowest or all; they queue up, the counters move accordingly, and without a time of loss fewer packets are outstanding afterwards |
| SentEffects.AlarmLossTime | quic-go43DMAP/ackhandler/sent_packet_handler.go:492-505 | the time of loss after the alarm is that of the packets still outstanding |
| SentEffects.AlarmIdle | quic-go43DMAP/ackhandler/sent_packet_handler.go:492-498 | without anything retransmittable outstanding the alarm does nothing |
| SentEffects.LoseEffect | quic-go43DMAP/ackhandler/sent_packet_handler.go:469-490 | giving up a path queues exactly the packets up to the largest acknowledged number |
| SentEffects.DequeueEffect | quic-go43DMAP/ackhandler/sent_packet_handler.go:537-549 | what has been queued longest is taken, and nothing else changes |
| SentEffects.SendEffect | quic-go43DMAP/ackhandler/sent_packet_handler.go:166-222 | exactly when a packet is refused, and that one that is not refused is outstanding exactly if it is tracked, with the highest number |
| SentPackets.SentPacketHandler.NoteSkipped | quic-go43DMAP/ackhandler/sent_packet_handler.go:178-184 | the latest skipped numbers, up to the maximum, are kept in order |
| SentPackets.SentPacketHandler.SentPacket | quic-go43DMAP/ackhandler/sent_packet_handler.go:166-222 | the fields change as specified, or not at all with the error |
| SentPackets.SentPacketHandler.DetermineNewlyAckedPackets | quic-go43DMAP/ackhandler/sent_packet_handler.go:314-350 | the walk along list and ranges finds exactly the outstanding packets that the frame acknowledges, without its error case |
| SentPackets.SentPacketHandler.RemoveAcked | quic-go43DMAP/ackhandler/sent_packet_handler.go:258-263 | removing them one by one leaves exactly the others, and takes off their bytes |
| SentPackets.SentPacketHandler.DetectLostPackets | quic-go43DMAP/ackhandler/sent_packet_handler.go:434-467 | exactly the packets below the largest acknowledged one that are overdue move to the retransmission queue; the alarm is set for the first that is not |
| SentPackets.SentPacketHandler.SkippedPacketsAcked | quic-go43DMAP/ackhandler/sent_packet_handler.go:651-658 | finds out whether the frame acknowledges a skipped number |
| SentPackets.SentPacketHandler.GarbageCollectSkippedPackets | quic-go43DMAP/ackhandler/sent_packet_handler.go:669-679 | drops exactly the skipped numbers below the first outstanding packet, or up to the largest acknowledged one if nothing is outstanding |
| SentPackets.SentPacketHandler.ReceivedAck | quic-go43DMAP/ackhandler/sent_packet_handler.go:224-272 | the whole effect of an ACK and its error, in every case |
| SentPackets.SentPacketHandler.DequeuePacketForRetransmission | quic-go43DMAP/ackhandler/sent_packet_handler.go:537-549 | takes the packet that has been queued longest, if there is one |
| SentPackets.SentPacketHandler.SetInflightAsLost | quic-go43DMAP/ackhandler/sent_packet_handler.go:469-490 | queues exactly the packets up to the largest acknowledged number |
| SentPackets.SentPacketHandler.RetransmitTLP | quic-go43DMAP/ackhandler/sent_packet_handler.go:578-582 | queues the latest packet |
| SentPackets.SentPacketHandler.OnAlarm | quic-go43DMAP/ackhandler/sent_packet_handler.go:492-524 | which of the three reactions takes place, and the state after it |
| AckProtocol.ReachedInv | quic-go43DMAP/session.go:836-851 | the joint invariant of sender, network and receiver in every reachable state |
| AckProtocol.AcknowledgedWasRecorded | quic-go43DMAP/ackhandler/sent_packet_handler.go:224-272 | in every run, a packet the sender takes for acknowledged was recorded by the receiver |
| AckProtocol.NoFalseAlarm | quic-go43DMAP/ackhandler/sent_packet_handler.go:224-256 | in every run, no ACK of an honest receiver is ever rejected as invalid, delayed or repeated as it may be |
| AckProtocol.DeliveredAck | quic-go43DMAP/ackhandler/sent_packet_handler.go:253-266 | in every run, an ACK of an honest receiver that is not out of date moves exactly the packets it covers to the acknowledged ones and exactly the overdue ones among the others to the queue |
| AckProtocol.FiredAlarm | quic-go43DMAP/ackhandler/sent_packet_handler.go:492-524 | in every run, the alarm lets exactly the packets go that it is for |
| AckProtocol.RemovesExactly | quic-go43DMAP/ackhandler/sent_packet_handler.go:253-265 | processing an ACK removes exactly the acknowledged packets and the overdue ones |
| AckProtocol.NeverEmptied | quic-go43DMAP/session.go:559-562 | in every run, STOP_WAITING frames never make the receiver forget its largest number, and the subtraction of one never underflows |
| AckProtocol.ArriveSound | quic-go43DMAP/path.go:263-276 | recording a packet before the STOP_WAITING frame inside it is what makes that so |
| AckProtocol.InFlightExact | quic-go43DMAP/ackhandler/sent_packet_handler.go:166-622 | in every run, bytes in flight are the bytes of the outstanding packets and each packet is in one place |
| SkippedNumbers.ReachedAccounted | quic-go43DMAP/ackhandler/sent_packet_handler.go:178-184 | in every run, the numbers noted as left out are exactly those that no packet ever had, and what is kept of them is the ten latest without those forgotten |
| SkippedNumbers.CaughtExactly | quic-go43DMAP/ackhandler/sent_packet_handler.go:224-256 | in every run, a frame that gets as far as the check for skipped numbers is rejected if and only if it acknowledges a number never sent that is among the ten latest and not forgotten |
| SkippedNumbers.UnnoticedReached | quic-go43DMAP/ackhandler/sent_packet_handler.go:669-679 | a run after which a frame that acknowledges the number 2, which no packet had, is accepted, and would be rejected without the garbage collection |
| PacketNumbers.NoTwoSkipsInARow | quic-go43DMAP/packet_number_generator.go:45-58 | whatever is drawn, two skipped numbers never follow each other |
| PacketNumbers.NeverSkips | quic-go43DMAP/packet_number_generator.go:20-25 | as constructed, the numbers are 1, 2, 3, ... without a skip |
| PacketNumbers.DrawnAhead | quic-go43DMAP/packet_number_generator.go:31-58 | a drawn number is left out exactly when the run gets to it, and nothing before it is |
| PacketNumbers.SkipsIffDrawn | quic-go43DMAP/packet_number_generator.go:31-43 | some run of a generator leaves out a number if and only if one ahead of it had been drawn before the run |
| PacketNumbers.DrawsBalance | quic-go43DMAP/packet_number_generator.go:45-58 | draws lie evenly around the period: two that are as far from the middle add up to twice the period less one, rounding aside |
| OliaEpsilon.OliaSenders.GetMaxCwnd | quic-go43DMAP/congestion/olia_sender.go:162-169 | finds the largest window |
| OliaEpsilon.OliaSenders.FindBest | quic-go43DMAP/congestion/olia_sender.go:203-210 | the pairwise comparison without division ends at a path that no other beats, as long as the products fit 64 bits |
| OliaEpsilon.OliaSenders.CountSets | quic-go43DMAP/congestion/olia_sender.go:213-225 | the 8-bit counters hold the sizes of the two sets modulo 256 |
| OliaEpsilon.OliaSenders.GetEpsilon | quic-go43DMAP/congestion/olia_sender.go:188-249 | every path gets its share: minus for the largest windows, plus for the best of the others, none for the rest or when there are no such others |
| OliaEpsilon.ZeroSum | quic-go43DMAP/congestion/olia_sender.go:188-249 | the shares of all paths add up to zero, for every number of paths that a path identifier allows |
| OliaEpsilon.SharesExact | quic-go43DMAP/congestion/olia_sender.go:188-249 | where nothing overflows, a path gains exactly when no path has a better ratio and it does not have the largest window, pays exactly when it has the largest window and some path gains, and gains and payments are shared out equally |
| OliaEpsilon.SmoothedExact | quic-go43DMAP/congestion/olia.go:49-61 | in every run of ACKs and losses, a path is measured by the larger of the bytes acknowledged since the last loss and between the last two |
| OliaWindow.OliaStepSmall | quic-go43DMAP/congestion/olia.go:63-92 | whatever wraps around, a step changes the window by at most one packet and not to zero, and the counter stays within bounds |
| OliaLaws.StepDirection | quic-go43DMAP/congestion/olia.go:83-91 | the window rises exactly when the count reaches 1023 and falls exactly when it reaches -1023, except below one packet; then the count starts over |
| OliaLaws.StepMono | quic-go43DMAP/congestion/olia.go:83-91 | a larger increment never leads to a smaller window |
| OliaLaws.IncrementExact | quic-go43DMAP/congestion/olia.go:63-82 | where nothing wraps around, the increment is 1024 times the sum of the path's own part and its share of the rate, divided by den times window times rate and rounded towards zero; it is negative only for a share of -1 that outweighs the own part |
| OliaLaws.EpsilonOrders | quic-go43DMAP/congestion/olia.go:63-82 | the same path gets no less with a positive share than without one, and no less without one than with a negative share, whatever the denominators |
| OliaLaws.StepOrders | quic-go43DMAP/congestion/olia.go:63-92 | and so does its window |
| OliaLaws.OnlyLargestShrink | quic-go43DMAP/congestion/olia.go:63-92 | an ACK never lowers the window of a path whose share is not negative |
| OliaLaws.LimitedExact | quic-go43DMAP/congestion/olia_sender.go:152-160 | the window limits what is sent when all but three packets of it are in flight, or more than half of it during slow start |
| OliaLaws.BetaKept | quic-go43DMAP/congestion/olia_sender.go:333-343 | a loss leaves the share of n - 0.3 of n connections times the backoff, and at most everything |
| OliaLaws.BetaGrows | quic-go43DMAP/congestion/olia_sender.go:333-343 | which never shrinks with more connections or a larger backoff |
| OliaLaws.CutExact | quic-go43DMAP/congestion/olia_sender.go:333-351 | the window after a cut is the whole packets of that share, and at least the minimum |
| OliaLaws.OneForEachPacket | quic-go43DMAP/congestion/olia_sender.go:307-318 | with large reductions, further losses take off exactly one packet for every whole packet lost |
| OliaWindow.GainNeutral | quic-go43DMAP/congestion/olia_sender.go:273-281 | a gain within its bounds does not change a step of at most one packet |
| OliaWindow.GrowthExact | quic-go43DMAP/congestion/olia_sender.go:251-269 | over any run of ACKs, window and accumulator together grow by exactly the gains that took effect below threshold and maximum, and no whole packet is held back below the maximum |
| OliaWindow.AllEffective | quic-go43DMAP/congestion/olia_sender.go:251-269 | while slow start lasts, every gain takes effect |
| OliaWindow.OneCutPerFlight | quic-go43DMAP/congestion/olia_sender.go:304-358 | between two cuts without a timeout, the packet whose loss makes the second cut was sent after the first |
| OliaSenderClass.OliaSender.SetUtilityControl | quic-go43DMAP/congestion/olia_sender.go:94-106 | gain and backoff are the permitted values nearest to what is asked for, and 1 when that is not finite |
| OliaSenderClass.OliaSender.OnPacketSent | quic-go43DMAP/congestion/olia_sender.go:119-131 | only retransmittable packets count as sent |
| OliaSenderClass.OliaSender.OnPacketAcked | quic-go43DMAP/congestion/olia_sender.go:251-302 | the window stays within its bounds; it grows only outside recovery and when the window limits, by the fractional or the OLIA step |
| OliaSenderClass.OliaSender.OnPacketLost | quic-go43DMAP/congestion/olia_sender.go:304-358 | a loss of something sent after the last cut cuts window and threshold to the specified size and marks the flight; another one leaves them, or takes one packet more when large reductions are on |
| OliaSenderClass.OliaSender.OnRetransmissionTimeout | quic-go43DMAP/congestion/olia_sender.go:372-382 | a timeout resets the window to the minimum and the threshold to half of it before |
| OliaSenderClass.OliaSender.OnConnectionMigration | quic-go43DMAP/congestion/olia_sender.go:384-398 | a migration starts over |
| Cubic.CubeRoot | quic-go43DMAP/congestion/cubic.go:167-168 | the time to the origin is the integer cube root |
| Cubic.IdealBounds | quic-go43DMAP/congestion/cubic.go:156-200 | the curve starts no lower than the window the epoch begins with and does not exceed the origin until it is reached |
| Cubic.TargetIdeal | quic-go43DMAP/congestion/cubic.go:185-200 | while the product fits, the target in 64-bit arithmetic is that of unlimited arithmetic, without underflow |
| Cubic.TargetMono | quic-go43DMAP/congestion/cubic.go:185-200 | the target never decreases as time goes on |
| Cubic.OverflowExact | quic-go43DMAP/congestion/cubic.go:187-199 | on either side of an origin below 2^63 and within 24 days of it, the target is right if and only if the offset is at most 282294 |
| Cubic.OverflowHappens | quic-go43DMAP/congestion/cubic.go:187-199 | at 282295, a target of 1000 packets becomes one of nearly 2^64 |
| Cubic.DropExact | quic-go43DMAP/congestion/cubic.go:167-168 | the product fits from the start of an epoch on if and only if it begins at most 8388679 packets below its origin |
| Cubic.DropHappens | quic-go43DMAP/congestion/cubic.go:167-199 | one packet more, and the first target of the epoch is twice the origin |
| CubicWindow.Reno | quic-go43DMAP/congestion/cubic.go:203-212 | the estimate grows until the acknowledged packets no longer pay for the next step |
| CubicWindow.SettlesExact | quic-go43DMAP/congestion/cubic.go:203-212 | it is exactly the largest estimate they pay for |
| CubicFriendly.BetaExact | quic-go43DMAP/congestion/cubic.go:102-108 | a loss takes three tenths off one connection's share of the window |
| CubicFriendly.FriendlyExact | quic-go43DMAP/congestion/cubic.go:94-100 | between two losses the estimate sends as much as one of n Reno connections that share its mean window, whatever the window, if and only if the factor is Alpha |
| CubicFriendly.AlphaClosed | quic-go43DMAP/congestion/cubic.go:94-108 | the factor in terms of the number of connections alone |
| CubicFriendly.RequiredExact | quic-go43DMAP/congestion/cubic.go:205 | the ACKs for one more packet are the whole number of windows per alpha |
| CubicFriendly.GrowsSlowly | quic-go43DMAP/congestion/cubic.go:203-212 | with one or two connections, every packet the estimate grows by has cost at least a window of ACKs |
| CubicFriendly.ReducedExact | quic-go43DMAP/congestion/cubic.go:130-140 | the window after a loss is the whole packets of what is left when one connection is cut |
| CubicFriendly.WindowIsFaster | quic-go43DMAP/congestion/cubic.go:215-222 | the window given is the larger of target and estimate |
| CubicRuns.ReachedInv | quic-go43DMAP/congestion/cubic.go:112-223 | what holds of epochs, positions and windows in every run of acknowledgements, losses, limited periods and resets |
| CubicRuns.NeverBelowStart | quic-go43DMAP/congestion/cubic.go:146-223 | in every run in which the arithmetic fits, the target is the ideal one and the window is at least the one the epoch began with |
| CubicRuns.NeverInFuture | quic-go43DMAP/congestion/cubic.go:112-184 | in every run of a new sender with a clock that does not run backwards and no epoch begun while a limited period is on record, no acknowledgement finds the epoch in the future |
| CubicRuns.TimelyNeverBelow | quic-go43DMAP/congestion/cubic.go:112-223 | in every such run, as long as the numbers fit, the target is the ideal one and the window at least the one the epoch began with |
| CubicRuns.EstimateExact | quic-go43DMAP/congestion/cubic.go:146-223 | in every run, whether the arithmetic fits or not, the estimate is the largest that the ACKs since the epoch began pay for, starting from the window of that time |
| CubicRuns.EpochStartsLevel | quic-go43DMAP/congestion/cubic.go:156-212 | with one or two connections, the estimate right after an epoch begins is the window |
| CubicRuns.FirstAnswer | quic-go43DMAP/congestion/cubic.go:146-223 | the first answer of a new sender is the window it has |
| CubicRuns.ComputesExactly | quic-go43DMAP/congestion/cubic.go:146-155 | an ACK computes nothing exactly when the window is the same and the last computation is at most 30 ms old; otherwise the target is that of the present position |
| CubicRuns.ShiftForgets | quic-go43DMAP/congestion/cubic.go:170-184 | after a limited period only the time before it counts, however long the period was |
| CubicRuns.AckNeverLowers | quic-go43DMAP/congestion/cubic.go:146-223 | an acknowledgement further along the curve never lowers the window |
| CubicRuns.LevelsOffAtLoss | quic-go43DMAP/congestion/cubic.go:130-169 | after a loss at a new maximum, the next epoch starts below it and levels off exactly there; its arithmetic is right from the start if and only if the cut is at most 8388679 packets |
| CubicRuns.GivesWayBelowMax | quic-go43DMAP/congestion/cubic.go:130-140 | after a loss below the old maximum, the next epoch of two connections starts at its own origin |
| CubicRuns.ShiftExact | quic-go43DMAP/congestion/cubic.go:156-179 | an epoch begun with an older limited period on record is shifted past the clock, by exactly the difference |
| CubicRuns.ShiftHappens | quic-go43DMAP/congestion/cubic.go:156-200 | a run of two acknowledgements in which this makes the target wrap |
| CubicSender.CubicState.GrowEstimate | quic-go43DMAP/congestion/cubic.go:203-212 | the loop ends, with the largest estimate paid for |
| CubicSender.CubicState.CongestionWindowAfterAck | quic-go43DMAP/congestion/cubic.go:146-223 | the fields follow the specified curve and the larger of target and estimate is returned |
| Simplex.CutNearest | quic-go43DMAP/weight_projector.go:35-39 | cutting at a threshold that makes the weights sum to one gives the nearest weights, and any others are further away by their distance from these |
| Simplex.NearestOnce | quic-go43DMAP/weight_projector.go:8-40 | the nearest weights are unique |
| Simplex.NearestToItself | quic-go43DMAP/weight_projector.go:8-53 | weights that are valid already are not moved |
| Simplex.Threshold | quic-go43DMAP/weight_projector.go:16-35 | the two loops find a threshold that makes the weights sum to exactly one |
| Simplex.ProjectUnitSimplex3 | quic-go43DMAP/weight_projector.go:10-40 | the result is the Euclidean projection onto the unit simplex, for all inputs |
| Simplex.ProjectToBoundedSimplex3 | quic-go43DMAP/weight_projector.go:43-53 | the result is the Euclidean projection onto the weights with the floor, and with 0.05 when the floor is outside [0, 1/3) |
| IncomingStreams.LimitHolds | lal-43DMAP/quic-go@v0.10.9/streams_map_incoming_generic.go:49-119 | in every run at most the maximum are open, the peer opened at most one more for each that was closed, every identifier is opened once and in order, and accepted in the same order |
| IncomingStreams.RoomExactly | lal-43DMAP/quic-go@v0.10.9/streams_map_incoming_generic.go:105-119 | open streams and those the peer may still open always make up the maximum, once a stream was opened |
| IncomingStreams.RefusedExactly | lal-43DMAP/quic-go@v0.10.9/streams_map_incoming_generic.go:69-74 | a stream is refused if and only if it is beyond the maximum plus the closed ones |
| IncomingStreams.DeleteKeeps | lal-43DMAP/quic-go@v0.10.9/streams_map_incoming_generic.go:105-119 | closing a stream raises the limit by exactly one stream |
| IncomingStreams.ReachedInv | lal-43DMAP/quic-go@v0.10.9/streams_map_incoming_generic.go:49-119 | the invariant of every run, and that the limit never goes back |
| IncomingStreams.NeverReopened | lal-43DMAP/quic-go@v0.10.9/streams_map_incoming_generic.go:75-82 | a closed stream is never opened again |
| IncomingStreams.WaitsForever | lal-43DMAP/quic-go@v0.10.9/streams_map_incoming_generic.go:49-67 | once the next stream to accept is closed, no stream is accepted in any continuation |
| IncomingStreams.AcceptsExactly | lal-43DMAP/quic-go@v0.10.9/streams_map_incoming_generic.go:49-67 | in every run, accepting succeeds if and only if a stream is left to accept and the first such one has not been closed |
| IncomingStreams.WaitingHappens | lal-43DMAP/quic-go@v0.10.9/streams_map_incoming_generic.go:49-119 | opening one stream and closing it at once leads there, for every kind of stream and every limit |
| IncomingStreams.IncomingStreamsMap.GetOrOpenStream | lal-43DMAP/quic-go@v0.10.9/streams_map_incoming_generic.go:69-103 | refuses, finds, or opens everything up to the identifier |
| IncomingStreams.IncomingStreamsMap.DeleteStream | lal-43DMAP/quic-go@v0.10.9/streams_map_incoming_generic.go:105-119 | removes the stream, moves the limit and queues a MAX_STREAM_ID frame with it |
| StreamsMap.AlwaysCoherent | quic-go43DMAP/streams_map.go:46-323 | in every run, list and map hold the same streams once each, the counters count odd and even identifiers and never underflow, no identifier is opened twice even when opening stops half-way, and on a server the peer's streams stay within the limit |
| StreamsMap.AnswerExactly | quic-go43DMAP/streams_map.go:70-149 | when a request for a new stream is refused: on a server, when the peer would have too many; on a client, when the client itself has |
| StreamsMap.ClientUnlimited | quic-go43DMAP/streams_map.go:128-149 | on a client any number of the peer's streams can be opened, whatever the limit |
| StreamsMap.UpToServer | quic-go43DMAP/streams_map.go:110-149 | how many streams a server opens for one request |
| StreamsMap.RemoveKeeps | quic-go43DMAP/streams_map.go:296-323 | removing a stream keeps list, map and counters in agreement |
| StreamsMap.RemoteKeeps | quic-go43DMAP/streams_map.go:128-149 | so does opening a stream of the peer |
| StreamsMap.LocalKeeps | quic-go43DMAP/streams_map.go:151-167 | so does opening a stream of this side |
| StreamsMap.AcceptsExactly | quic-go43DMAP/streams_map.go:201-218 | in every run, AcceptStream finds its stream if and only if it was opened and has not been closed |
| StreamsMap.WaitsForever | quic-go43DMAP/streams_map.go:201-218 | once the next stream to accept is closed, nothing is accepted in any continuation |
| StreamsMap.WaitingHappens | quic-go43DMAP/streams_map.go:70-218 | opening one stream of the peer and closing it at once leads there |
| StreamsMap.ClosedExactly | quic-go43DMAP/streams_map.go:70-107 | in every run, a request is answered that the stream is closed if and only if it was closed or is the one this side would open next |
| StreamsMap.LocalExactly | quic-go43DMAP/streams_map.go:151-167 | a stream of this side is opened exactly when fewer streams with even numbers are open than it may have |
| StreamsMap.ClientOpens | quic-go43DMAP/streams_map.go:151-167 | on a client this lets any number of its own streams be opened until the peer has as many open, and none from then on |
| RoundRobin.OrderOnce | quic-go43DMAP/streams_map.go:241-274 | the order of a round holds every open stream exactly once and nothing else, from any index |
| RoundRobin.AroundTurns | quic-go43DMAP/streams_map.go:258-259 | the indices modulo the length walk the list once around |
| RoundRobin.UntilPrefix | quic-go43DMAP/streams_map.go:241-274 | a stopped round served a prefix of that order, and only the last callback asked to stop |
| RoundRobin.TurnExact | quic-go43DMAP/streams_map.go:258-272 | how far the index moves when a round stops; it ends up right after the last stream served if and only if neither 1 nor 3 was passed on the way |
| RoundRobin.NextExact | quic-go43DMAP/streams_map.go:241-272 | the next round serves in the order that begins right after the last stream served if and only if neither 1 nor 3 was passed, or all streams but 1 and 3 lie in the places by which the index fell short |
| RoundRobin.StoppedRound | quic-go43DMAP/streams_map.go:241-274 | what a round serves that the callback stops at a given place, and that the index moves by as many places as it served others |
| RoundRobin.FailedRound | quic-go43DMAP/streams_map.go:241-274 | the same for a round in which the callback fails: the stream it failed at does not move the index |
| RoundRobin.ServedAgain | quic-go43DMAP/streams_map.go:241-274 | on a server, the peer's request for stream 7 leads to a round that is stopped after 5 and followed by one that serves 5 again |
| RoundRobin.RemoveKeepsOrder | quic-go43DMAP/streams_map.go:308-320 | removing a stream, wherever the index is, takes it out of the order of the next round and changes nothing else |
| SessionStreams.SessionStreamsMap.GetOrOpenStream | quic-go43DMAP/streams_map.go:70-126 | finds, reports closed, rejects, or opens everything up to the identifier until one is refused |
| SessionStreams.SessionStreamsMap.RemoveStream | quic-go43DMAP/streams_map.go:296-323 | removes the stream from map and list, and adjusts counter and index |
| SessionStreams.SessionStreamsMap.RoundRobinIterate | quic-go43DMAP/streams_map.go:241-274 | serves streams 1 and 3 first and then the others from the index on, as far as the callback lets it, and moves the index by the streams served |
| Trigger.MedianHalves | quic-go43DMAP/qaccess_objective_trigger.go:55-66 | at least half of the samples are at or below the reference and at least half at or above it |
| Trigger.MedianExact | quic-go43DMAP/qaccess_objective_trigger.go:55-66 | the reference is the middle between the least number with half of the samples at or below it and the greatest with half at or above it |
| Trigger.StreaksExact | quic-go43DMAP/qaccess_objective_trigger.go:215-244 | for every history of comparisons, the counters compute the hysteresis defined on the history alone, and a request is pending only while triggered |
| Trigger.TriggersOnly | quic-go43DMAP/qaccess_objective_trigger.go:220-233 | a path is triggered only by enough deteriorated samples in a row |
| Trigger.ClearsOnly | quic-go43DMAP/qaccess_objective_trigger.go:234-244 | it is cleared only by enough recovered samples in a row |
| Trigger.ObservedStreaks | quic-go43DMAP/qaccess_objective_trigger.go:184-246 | for every sequence of samples, the path's flags are the hysteresis over the comparisons that took place |
| Trigger.ReferenceIsMedian | quic-go43DMAP/qaccess_objective_trigger.go:198-213 | after samples inside the window, the reference is the median of all of them and nothing was compared |
| Trigger.ReferenceStays | quic-go43DMAP/qaccess_objective_trigger.go:204-213 | after the window the reference stays, and a late path's first sample becomes its reference |
| Trigger.WorseIsWorse | quic-go43DMAP/qaccess_objective_trigger.go:166-182 | for delay and loss, a value worse than a deteriorated one is deteriorated too, and delay deteriorates only upwards |
| Trigger.ThroughputEitherWay | quic-go43DMAP/qaccess_objective_trigger.go:166-182 | a rise in throughput counts like a fall of the same size |
| Trigger.ThroughputExact | quic-go43DMAP/qaccess_objective_trigger.go:166-175 | throughput is deteriorated exactly when it is off by at least the amount, or by at least the share of a reference that is not near zero |
| Trigger.DelayExact | quic-go43DMAP/qaccess_objective_trigger.go:166-177 | delay, exactly when it has risen by at least one of the two |
| Trigger.LossExact | quic-go43DMAP/qaccess_objective_trigger.go:166-179 | loss, exactly when it has risen by at least the amount |
| Trigger.DriftDecides | quic-go43DMAP/qaccess_objective_trigger.go:166-182 | in every mode, a value that went at least as far the wrong way as a deteriorated one is deteriorated |
| Trigger.UnmovedIsFine | quic-go43DMAP/qaccess_objective_trigger.go:166-182 | with positive thresholds, a value that has not moved the wrong way is not |
| Trigger.QuietThroughout | quic-go43DMAP/qaccess_objective_trigger.go:184-246 | for every sequence of samples, a path that is within the thresholds at every comparison is never triggered and asks for nothing |
| Trigger.StaysQuiet | quic-go43DMAP/qaccess_objective_trigger.go:184-246 | the same for samples that stay within the thresholds of the median of the window |
| Trigger.GoesOff | quic-go43DMAP/qaccess_objective_trigger.go:184-246 | samples that are all outside trigger the path exactly when there are enough of them |
| Trigger.PendingExact | quic-go43DMAP/qaccess_objective_trigger.go:215-244 | a request becomes pending exactly when a path is triggered, and stays so exactly while the path stays triggered |
| Trigger.BeforeWindow | quic-go43DMAP/qaccess_objective_trigger.go:198-213 | samples before the window change nothing |
| Requests.ProtocolHolds | quic-go43DMAP/qaccess_phase2.go:453-512 | in every run at most one request is out, identifiers differ, requests are at least the cooldown apart, and every activation of a path has led to one request, still waits for it or was over before |
| Requests.ReachedInv | quic-go43DMAP/qaccess_phase2.go:624-683 | the invariant behind it, including that the request that is out is the last one written |
| Requests.WritesExactly | quic-go43DMAP/qaccess_objective_trigger.go:248-289 | a turn writes a request exactly when nothing is out, the cooldown is over, no request is waiting, the disk works and some path is pending with enough samples; it is for the lowest such path, which then is no longer pending |
| Requests.AnsweredExactly | quic-go43DMAP/qaccess_phase2.go:624-683 | a controller goes idle exactly when the answer to the request that is out has come |
| Requests.CoolsAfterAnswer | quic-go43DMAP/qaccess_phase2.go:657-664 | after an answer nothing is written until the cooldown is over |
| UtilityController.Phase2Controller.ObserveObjectiveTrigger | quic-go43DMAP/qaccess_objective_trigger.go:184-246 | one sample's effect on reference, streaks and flags |
| UtilityController.Phase2Controller.WritePerPathTrigger | quic-go43DMAP/qaccess_phase2.go:461-512 | when a request is written, and that a failure changes nothing but the serial number |
| UtilityController.Phase2Controller.MaybeTriggerObjectiveUpdate | quic-go43DMAP/qaccess_objective_trigger.go:248-289 | asks for the lowest pending path and clears its flag if the request was written |
| UtilityController.Phase2Controller.MaybeTriggerCoefficientUpdate | quic-go43DMAP/qaccess_phase2.go:685-699 | a turn: first the answer, then the next request |

## Left out

- Sockets, TLS, timers, goroutines, locks, logging, statistics and parsing of packets and frames.
- Flow control appears only as the window that limits a frame; the flow controller itself is not modelled.
- STMS and the older getDataForWriting on the same stream: not modelled together, since the older function does not keep the three offsets.
- Where the FIN goes in STMS is stated as found (`Stms.FinExact`, `Stms.EmptyFinExact`); the runs of `Delivery` therefore carry no FIN. The receiver's runs in `Reassembly` do.
- Zero-length frames with a FIN in `stream_frame_sorter.go`; its handling of other frames is the same algorithm with another maximum of gaps, which is a parameter here.
- Discard, FindIframe, the byte patterns for video frames, maybePopData, assign_streamoff, sendPacketMooo and NewPopFramesFromBuffer.
- ReceiveQueue.FrameQueue.Push: does not model the wrap-around of offset plus length at 2^64, because a frame that ends beyond the largest offset is refused when it is parsed. The largest offset is a parameter: it is 2^62 - 1 in the version cited and 2^64 - 1 in `quic-go43DMAP`.
- ReceivedClosePath and DuplicatePacket in the sent packet handler, and the computation of round-trip times, timeouts and the congestion callbacks it makes.
- The linked list of packets is a sequence.
- OLIA's getRate (a parameter), PRR, hybrid slow start and SmoothedBytesBetweenLosses as an input of the rate; the traces of `OneCutPerFlight` contain no connection migration, which numbers packets anew.
- Rounding of float32 and float64, also in CUBIC's factors and in the projection; not-a-number and infinity.
- CubicRuns.NeverBelowStart: does not cover acknowledgements for which the program's arithmetic is wrong, because there the property fails: the product overflows (`OverflowExact`), an epoch begins more than 8388679 packets below its origin (`DropExact`), or the epoch has been shifted past the clock (`ShiftExact`); nor durations of 285 years and windows of 2^63 packets.
- SetNumConnections, which only sets the number of connections; that number is arbitrary here.
- The blocking of AcceptStream, OpenStreamSync and Write: a call that has to wait is one that is not possible yet.
- Closing a streams map with an error, and Iterate, which visits the list in order.
- The callback of RoundRobinIterate is a function of the stream; a callback that opens or closes streams meanwhile is not modelled.
- Legacy triggers (full buffer, periodic, throughput drop) in the controller: they end in the same WritePerPathTrigger. A controller whose configuration forbids changes does nothing and is not modelled.
- Request identifiers as text: the run's name is the same in all of them, so the pair of millisecond and serial number stands for the text.
- Schedulers other than the gap they pass, h2quic, qerr, dialling, RTMP, and the Python parts.
