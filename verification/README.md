# Sponge TCP in Dafny

A model of the Sponge TCP implementation (the C++ sources under `libsponge/`) and proofs about it:
sequence numbers, the byte stream, the stream reassembler, the receiver, the sender, the connection
that joins the two, two connections joined by an unreliable network, and the TCP and IPv4 formats on
the wire.

`dafny verify dfyconfig.toml` checks the whole project.

## How it is built

Each stateful C++ class appears twice. A value-level module (`Reassembly`, `Receivers`, `Senders`,
`Connections`) gives the meaning of every operation as a function on an immutable state. A Dafny class
(`ByteStream`, `StreamReassembler`, `TCPReceiver`, `TCPSender`, `TCPConnection`, `InternetChecksum`,
`NetParser`) keeps the fields the C++ class keeps, runs its loops in place, and is proved to compute
that function: `ensures Model() == F(old(Model()))`. The two differ most for the reassembler, where the
function works on a map from stream index to byte and the class on an ordered list of disjoint
segments that is changed while it is walked. All theorems are then about the functions.

Whole runs come in two kinds.

* `EndpointRuns.After(cfg, evs)` is one connection after any list of events: the application connects,
  writes, ends its stream or reads, the clock ticks, or a segment arrives. The segments may be anything
  at all, including ones no correct peer would send.
* `EndToEnd.Reach(x, y, moves)` is a pair of connections after any list of moves. A segment that one end
  has ever sent may arrive at the other any number of times, in any order, or never.

Integers are unbounded in Dafny. Where the C++ relies on 16, 32 or 64 bits the model cuts explicitly
(`%`, `Low64`, `Sub64`); `## Left out` names the counters for which it does not.

## Main results

* **Safety between two ends** (`EndToEnd.Safety`): in every run, each end has assembled a prefix of what
  the other has written, and exactly all of it once it has seen the end. It holds for each direction as
  long as its stream and the receiver's capacity together stay within one turn of the 32-bit sequence
  numbers, and `Network.StaleSegmentIsTaken` shows that past that limit an old segment can be taken for
  new data.
* **Sound acknowledgments** (`EndToEnd.AcksAreSound`): what a sender takes for acknowledged its peer has
  assembled, and whatever the peer lacks is kept for retransmission.
* **Clean close** (`EndToEnd.CleanCloseDelivers`, `Closing.CleanClose`): a connection that is over without an
  error has delivered and read everything, provided the peer's window was open.
* **The sender in every run**: sequence space is conserved, outstanding segments tile the unacknowledged
  stretch, every segment ever sent is a true slice of the stream, the timer follows rules 5.1, 5.2, 5.4
  and 5.6 in section 5 of RFC 6298, and a connection gives up only after segments have been outstanding
  for 511 initial timeouts without one being retired (`EndpointRuns`).
* **Exactly what is sent** (`Traffic.SentExactly`): every event of every run makes a connection send the fresh
  segments in order, then a bare acknowledgment if one is called for, or what an expired timer sends, and
  nothing else. `Traffic.AckEffect` says the same of what acknowledgments do, and `Timing.TicksAddUp` of
  how ticks add up to a timeout.
* **Progress, exactly** (`EndToEnd.DeliveryAdvances`, `EndToEnd.RetransmissionAdvances`, `Stalls.SilentIff`):
  when a segment that the peer waits for moves it forward (the peer must be active, have room and
  recognize the number), and when a connection has fallen silent for good unless its peer speaks.
* **The reassembler does not depend on order** (`OrderIndependence`): after any list of arrivals and reads
  the output is determined by which indices arrived inside the window. Its segment map is a refinement of
  a byte map (`StreamReassemblers`).
* **Round trips on the wire** for TCP segments, IPv4 datagrams and one inside the other; a segment that has
  gone through the wire acts on the peer as the segment itself (`Wired`).

## Where the code does less than it promises

Each of these is a proved statement about the code as it is, with the exact condition under which the
promise holds.

* `unwrap` is documented to return the number closest to the checkpoint. It answers 2^32 instead of 0
  when the distance is 0 and the checkpoint lies in 1..2^31, and the bare 32-bit distance when the next
  candidate above the checkpoint does not fit 64 bits. On all other inputs it is the closest
  (`Wrapping.UnwrapClosestIff`, `Wrapping.RoundTripIff`).
* Because of the first of these, a SYN that arrives again while the checkpoint lies in 1..2^32 + 2^31, which
  is where data past the first segment takes it, shifts the checkpoint by a turn. From then on no segment
  numbered below 2^31 - 1 is assembled any more, however the application reads meanwhile, unless the
  window reaches as far as the checkpoint. While the checkpoint is still 0, or 2^64 - 1 after an earlier
  repetition, a repeated SYN is harmless to a stream of less than a turn
  (`Receivers.DuplicateSynHarmlessIff`, `Receivers.ShiftedIsStalled`, `EndToEnd.StalledForGood`,
  `PairRuns.RepeatedSynStalls`).
* The end of a stream that is announced while the output is full is not signalled then. It is signalled
  by the next fragment that finds room, if one arrives (`OrderIndependence.EndedIff`,
  `OrderIndependence.FullOutputMissesEnd`, `OrderIndependence.LateEndIsSignalled`); with capacity to
  spare it is signalled at once (`OrderIndependence.EndsWithRoom`).
* Rule 5.3 in section 5 of RFC 6298 restarts the timer on every acknowledgment of new data. The code does
  so only when a whole segment is acknowledged (`EndpointRuns.RestartsIff`,
  `ConcreteRuns.HalfAckKeepsTimer`). Rule 5.5, the doubling of the timeout, is skipped for segments that
  probe a closed window (`Timing.BacksOffUnlessProbing`).
* A closed window is probed once per acknowledgment that closes it. If there is nothing to send at that
  moment, what the application writes later is neither sent nor probed for until the peer speaks
  (`Stalls.SilentIff`, `ConcreteRuns.WritesAreNeverSent`).
* A connection can be over, without an error, although it never sent its FIN: this needs a closed peer
  window (`ConcreteRuns.ClosesWithoutFin`, and the exact condition in `Closing.CleanClose`).
* An error does not end a connection whose two streams have both finished (`Closing.FailedYetActiveIff`,
  `ConcreteRuns.ResetWhileLingering`).
* `TCPSegment::parse` and `IPv4Datagram::parse` ignore the verdict of the header parser, although the header
  parsers document it. A segment with a data offset below 5 and a datagram with a wrong header
  checksum are accepted (`AgainstVerdictIff` in `TcpWire` and `Ipv4Wire`, `TcpWire.NoOffsetIsAccepted`,
  `Ipv4Wire.NoChecksumIsAccepted`).

## Model

| member | source | states |
|---|---|---|
| `Wrapping.UnwrapCongruent` | libsponge/wrapping_integers.cc:27-48 | for every checkpoint up to 2^64 - 1, wrapping the unwrapped number gives the 32-bit number back |
| `Wrapping.UnwrapClosestIff` | libsponge/wrapping_integers.cc:17-48 | for every input, unwrap is the closest 64-bit candidate (the lower of two equally close) if and only if neither named family applies, and what it answers on those families |
| `Wrapping.RoundTripIff` | libsponge/wrapping_integers.cc:11-48 | for every 64-bit number and checkpoint, exactly when unwrapping undoes wrapping |
| `Wrapping.UnwrapAtTop` | libsponge/wrapping_integers.cc:33-47 | the answer at checkpoint 2^64 - 1, where the 64-bit sums overflow |
| `ByteStreams.ByteStream.constructor` | libsponge/byte_stream.cc:12 | an empty open stream of the given capacity |
| `ByteStreams.ByteStream.Write` | libsponge/byte_stream.cc:14-23 | appends exactly the prefix that fits, nothing once ended, and returns its length |
| `ByteStreams.ByteStream.PeekOutput` | libsponge/byte_stream.cc:26-29 | the next bytes of all input ever taken, from the read position on |
| `ByteStreams.ByteStream.PopOutput` | libsponge/byte_stream.cc:32-36 | moves the read position by at most what is buffered |
| `ByteStreams.ByteStream.Read` | libsponge/byte_stream.cc:41-45 | returns what peeking shows and moves past it |
| `ByteStreams.ByteStream.EndInput` | libsponge/byte_stream.cc:47 | ends the input and changes nothing else |
| `ByteStreams.ByteStream.SetError` | libsponge/byte_stream.hh:49 | flags an error and changes nothing else |
| `ByteStreams.ByteStream.RemainingCapacity` | libsponge/byte_stream.cc:61 | the capacity less what was taken and not read |
| `ByteStreams.ByteStream.Eof` | libsponge/byte_stream.cc:55 | true exactly when the input has ended and all of it is read |
| `ByteStreams.WriteTwice` | libsponge/byte_stream.cc:14-23 | writing two pieces in turn is writing their concatenation, also when they do not fit |
| `ByteStreams.HowMany` | libsponge/byte_stream.cc:14-36 | how many bytes a write takes, a look shows and a pop removes, and that a write takes a prefix of what is offered |
| `ByteStreams.ReadTwice` | libsponge/byte_stream.cc:26-45 | reading in pieces is reading at once: the bytes come out in order, each of them once |
| `Reassembly.Overlay` | libsponge/stream_reassembler.cc:36-80 | exactly which bytes are held after new data is laid over the held ones: held bytes stay, free places inside the window take the new byte, nothing else appears |
| `Reassembly.GapFrom` | libsponge/stream_reassembler.cc:93-102 | the end of the maximal run of held bytes |
| `Reassembly.DrainKeeps` | libsponge/stream_reassembler.cc:93-107 | draining hands over exactly the run in front of the first gap and leaves a gap at the next index |
| `Reassembly.PushKeeps` | libsponge/stream_reassembler.cc:19-34 | every push keeps the invariant and takes nothing back: the output only grows, the window's end never moves back |
| `Reassembly.PushEof` | libsponge/stream_reassembler.cc:19-34 | a push records an announced end, and signals it if and only if the output had room, everything up to the end is assembled, and nothing waits |
| `Reassembly.PushAdds` | libsponge/stream_reassembler.cc:19-80 | inside the window an index is known after a push if and only if it was known before or the data has it |
| `Reassembly.PushPlaces` | libsponge/stream_reassembler.cc:19-107 | every byte pushed to a free place of the window ends up at that place of the output or of the waiting bytes |
| `Reassembly.PushSignals` | libsponge/stream_reassembler.cc:93-107 | an empty or old fragment marked last that ends at the next index ends the output |
| `Reassembly.PushBeyond` | libsponge/stream_reassembler.cc:36-80 | data past the window changes neither what is assembled nor what waits |
| `Reassembly.PushAgrees` | libsponge/stream_reassembler.cc:19-107 | a push that does not contradict a stream keeps everything assembled or waiting part of that stream |
| `Reassembly.Take` | libsponge/byte_stream.cc:32-36 | reading keeps the invariant and moves the end of the window forward only |
| `Chunks.TotalIsSize` | libsponge/stream_reassembler.cc:126-132 | the lengths of the segments add up to the number of distinct waiting bytes, at most the window |
| `Chunks.FullRange` | libsponge/stream_reassembler.cc:57-74 | no free space left means that no index of the window is missing, so stopping early loses nothing |
| `Chunks.InsertInGap` | libsponge/stream_reassembler.cc:82-91 | inserting into a gap keeps segments ordered and disjoint and adds exactly its own bytes |
| `Chunks.BytesInsert` | libsponge/stream_reassembler.cc:82-91 | the byte map after an insertion in order |
| `Chunks.BytesOfRest` | libsponge/stream_reassembler.cc:93-102 | erasing the first segment leaves exactly the bytes from its end on |
| `Chunks.GapOfChunks` | libsponge/stream_reassembler.cc:93-102 | when the first segment is due, the run goes on with the rest |
| `StreamReassemblers.Resize` | libsponge/stream_reassembler.cc:109-119 | the slot is exactly the part of the data inside the bounds, and empty when the end of the data passes 2^64 |
| `StreamReassemblers.FillGap` | libsponge/stream_reassembler.cc:57-70 | one step of the walk extends the overlay to the end of the current segment |
| `StreamReassemblers.FillTail` | libsponge/stream_reassembler.cc:75-79 | the insertion behind the last segment completes the overlay |
| `StreamReassemblers.StreamReassembler.constructor` | libsponge/stream_reassembler.cc:13-14 | an empty reassembler of the given capacity |
| `StreamReassemblers.StreamReassembler.UnassembledBytes` | libsponge/stream_reassembler.cc:126-132 | counts every waiting byte once, however often it was pushed |
| `StreamReassemblers.StreamReassembler.UpdateFreeSpace` | libsponge/stream_reassembler.cc:121-124 | the free space never goes below zero and is zero only when the output is full |
| `StreamReassemblers.StreamReassembler.InsertInReassembler` | libsponge/stream_reassembler.cc:82-91 | truncates to the free space and inserts under the index unless it is occupied |
| `StreamReassemblers.StreamReassembler.WalkAndInsert` | libsponge/stream_reassembler.cc:57-79 | the walk that inserts into the map it iterates over computes the overlay |
| `StreamReassemblers.StreamReassembler.FitInReassembler` | libsponge/stream_reassembler.cc:36-80 | the segment map afterwards stands for the overlay, for every index and overlap |
| `StreamReassemblers.StreamReassembler.DrainSegments` | libsponge/stream_reassembler.cc:94-102 | the loop hands over segment by segment exactly the bytes up to the first gap |
| `StreamReassemblers.StreamReassembler.PushIntoOutput` | libsponge/stream_reassembler.cc:93-107 | refines draining the byte map |
| `StreamReassemblers.StreamReassembler.StoreAndDrain` | libsponge/stream_reassembler.cc:31-33 | refines storing and then draining |
| `StreamReassemblers.StreamReassembler.PushSubstring` | libsponge/stream_reassembler.cc:19-34 | refines the push on the byte map, for every data, index and end mark |
| `OrderIndependence.PushGathers` | libsponge/stream_reassembler.cc:16-34 | a push of a piece makes known exactly the indices it brings while they are inside the window, for streams of any length |
| `OrderIndependence.RunGathers` | libsponge/stream_reassembler.cc:16-34 | after any list of arrivals and reads, exactly the indices that arrived inside the window are assembled or waiting |
| `OrderIndependence.OutputIsStream` | libsponge/stream_reassembler.cc:16-34 | after any list of arrivals and reads the output is the longest prefix of the stream that was received, and the whole stream if and only if all of it was |
| `OrderIndependence.OrderDoesNotMatter` | libsponge/stream_reassembler.cc:16-34 | two runs that received the same indices have the same output and the same waiting bytes |
| `OrderIndependence.ShortStreamIsInTime` | libsponge/stream_reassembler.cc:36-46 | a stream that fits the capacity is received wherever its pieces cover it, in every order and with any reads in between |
| `OrderIndependence.EndedIff` | libsponge/stream_reassembler.cc:19-34 | after any list of arrivals and reads, the end is signalled if and only if some fragment found room and by then everything was received and some fragment marked last |
| `OrderIndependence.EndsWithRoom` | libsponge/stream_reassembler.cc:93-107 | with capacity to spare: signalled if and only if the pieces cover the stream and one was marked last |
| `OrderIndependence.FullOutputMissesEnd` | libsponge/stream_reassembler.cc:25-27 | a run of two fragments after which all of the stream and its end have arrived and the end is not signalled |
| `OrderIndependence.LateEndIsSignalled` | libsponge/stream_reassembler.cc:93-107 | the same run, continued by a read and the announcement once more, signals it |
| `Receivers.ReceiveKeeps` | libsponge/tcp_receiver.cc:8-45 | any segment keeps the invariant, and the acknowledged number never decreases |
| `Receivers.AppReadsKeeps` | libsponge/tcp_receiver.cc:36-47 | reading moves the right edge of the window forward only |
| `Receivers.WindowNeverShrinks` | libsponge/tcp_receiver.cc:36-47 | no segment moves the right edge of the window back, even when cut to 16 bits |
| `Receivers.IndexCongruent` | libsponge/tcp_receiver.cc:28-33 | the pushed index stands for the segment's true number modulo 2^32, for every checkpoint |
| `Receivers.ReceivePlaces` | libsponge/tcp_receiver.cc:8-34 | every payload byte of a recognized segment, or of the first SYN, that falls on a free place of the window lands at that place, and an end mark is noted where it is |
| `Receivers.DuplicateSynHarmlessIff` | libsponge/tcp_receiver.cc:14-33 | for every checkpoint and every segment number: where a repeated SYN leaves the checkpoint, and exactly when the next segment is still placed right |
| `Receivers.ShiftedIndex` | libsponge/tcp_receiver.cc:28-33 | under a shifted checkpoint a segment is placed a whole turn too far |
| `Receivers.ShiftedIsStalled` | libsponge/tcp_receiver.cc:8-34 | once the checkpoint is ahead, no list of segments of the stream and application reads adds a byte to the output, as long as the reads cannot move the window a turn ahead |
| `Receivers.RepeatedSynShifts` | libsponge/tcp_receiver.cc:28-33 | a repeated SYN moves every checkpoint in 1..2^32 + 2^31 ahead and adds nothing, and exactly when no reads can undo this |
| `Receivers.TwoBytesThenSyn` | libsponge/tcp_receiver.cc:8-34 | four segments that leave a receiver with a shifted checkpoint |
| `Receivers.TCPReceiver.constructor` | libsponge/tcp_receiver.hh:30 | listening, with nothing received |
| `Receivers.TCPReceiver.SegmentReceived` | libsponge/tcp_receiver.cc:8-34 | refines the receive function for every segment, SYN or not, first or not |
| `Receivers.TCPReceiver.Ackno` | libsponge/tcp_receiver.cc:36-45 | nothing before the SYN, then the wrapped number of what is assembled, one more after the end |
| `Receivers.TCPReceiver.WindowSize` | libsponge/tcp_receiver.cc:47 | the room left in the output |
| `Senders.Unacked` | libsponge/tcp_sender.cc:152-162 | what is left is a suffix of what was outstanding, and its first segment is not fully acknowledged |
| `SenderInvariant.SendKeeps` | libsponge/tcp_sender.cc:134-147 | sending a segment keeps the sender's invariant |
| `SenderInvariant.EmitKeeps` | libsponge/tcp_sender.cc:60-78 | a segment cut from the stream carries the bytes at its number, and the next number moves by its length |
| `SenderInvariant.SendLoopKeeps` | libsponge/tcp_sender.cc:60-78 | the loop uses up its budget exactly unless it runs out of things to send |
| `SenderInvariant.FillWindowKeeps` | libsponge/tcp_sender.cc:31-79 | sends all it can and no more than the window allows, but for one number per licence to probe |
| `SenderInvariant.RetireKeeps` | libsponge/tcp_sender.cc:83-103 | an accepted acknowledgment moves the right edge to the offered one; only retiring a segment resets timer and count |
| `SenderInvariant.AckKeeps` | libsponge/tcp_sender.cc:83-105 | an acknowledgment beyond what was sent changes nothing; an accepted one keeps the invariant, fills the window and probes a closed one |
| `SenderInvariant.TimeoutKeeps` | libsponge/tcp_sender.cc:179-198 | a timeout keeps the sender's invariant |
| `SenderInvariant.TickKeeps` | libsponge/tcp_sender.cc:108-119 | a tick keeps the invariant and touches only timer, count and queue |
| `SenderInvariant.BackedOffNext` | libsponge/tcp_sender.cc:194-197 | doubling in 32 bits follows the closed form with a power of two |
| `SenderInvariant.InFlightIsStretch` | libsponge/tcp_sender.cc:23-29 | what is in flight is the stretch from the oldest outstanding segment to the next number |
| `TcpSenders.TCPSender.constructor` | libsponge/tcp_sender.cc:17-21 | a closed sender with the given numbers |
| `TcpSenders.TCPSender.BytesInFlight` | libsponge/tcp_sender.cc:23-29 | the sum over the outstanding segments |
| `TcpSenders.TCPSender.SendSegment` | libsponge/tcp_sender.cc:134-147 | refines sending one segment |
| `TcpSenders.TCPSender.SendWithin` | libsponge/tcp_sender.cc:60-78 | the loop refines the recursive form that the lemmas are about |
| `TcpSenders.TCPSender.FillWindow` | libsponge/tcp_sender.cc:31-79 | refines filling the window, with the probe of a closed one |
| `TcpSenders.TCPSender.PopAcknowledged` | libsponge/tcp_sender.cc:152-162 | drops exactly the fully acknowledged front, and says whether anything was dropped |
| `TcpSenders.TCPSender.RemoveOutstandingSegments` | libsponge/tcp_sender.cc:149-177 | refines retiring, with the reset of timer, timeout and count |
| `TcpSenders.TCPSender.AckReceived` | libsponge/tcp_sender.cc:83-105 | refines acting on an acknowledgment, including the ignored ones |
| `TcpSenders.TCPSender.TimeoutRetransmission` | libsponge/tcp_sender.cc:179-198 | requeues the oldest segment; backs off unless it is a probe |
| `TcpSenders.TCPSender.Tick` | libsponge/tcp_sender.cc:108-119 | refines the tick in 32-bit milliseconds |
| `TcpSenders.TCPSender.SendEmptySegment` | libsponge/tcp_sender.cc:123-126 | queues a bare segment and keeps nothing for retransmission |
| `TcpConnections.TCPConnection.constructor` | libsponge/tcp_connection.hh:12-24 | a closed sender and a listening receiver |
| `TcpConnections.TCPConnection.StampOne` | libsponge/tcp_connection.cc:132-140 | acknowledgment and window as the receiver reports them |
| `TcpConnections.TCPConnection.DrainQueue` | libsponge/tcp_connection.cc:131-141 | every queued segment is stamped and handed over in order |
| `TcpConnections.TCPConnection.PopAndSendSegments` | libsponge/tcp_connection.cc:127-142 | refines handing over the queue |
| `TcpConnections.TCPConnection.Active` | libsponge/tcp_connection.cc:67-83 | the connection's liveness, with finished streams taking precedence over errors |
| `TcpConnections.TCPConnection.Connect` | libsponge/tcp_connection.cc:111-114 | refines opening and keeps the whole-connection invariant |
| `TcpConnections.TCPConnection.Write` | libsponge/tcp_connection.cc:85-92 | refines writing, keeps the invariant, and returns how much was taken |
| `TcpConnections.TCPConnection.EndInputStream` | libsponge/tcp_connection.cc:105-109 | refines ending the stream and keeps the invariant |
| `TcpConnections.TCPConnection.FlagErrors` | libsponge/tcp_connection.cc:34-35 | flags both streams and changes nothing else |
| `TcpConnections.TCPConnection.PositiveUncleanShutdown` | libsponge/tcp_connection.cc:144-156 | discards the queue, sends a reset, flags both streams |
| `TcpConnections.TCPConnection.TickSender` | libsponge/tcp_connection.cc:96-99 | refines the tick of the sender, with the abort after too many retransmissions |
| `TcpConnections.TCPConnection.Tick` | libsponge/tcp_connection.cc:95-103 | refines the tick and keeps the invariant |
| `TcpConnections.TCPConnection.TakeSegment` | libsponge/tcp_connection.cc:39-48 | refines taking in a segment and its acknowledgment |
| `TcpConnections.TCPConnection.AnswerSegment` | libsponge/tcp_connection.cc:50-62 | refines the answer to keep-alives and to anything that takes up sequence numbers |
| `TcpConnections.TCPConnection.SegmentReceived` | libsponge/tcp_connection.cc:24-65 | refines the reaction to any segment and keeps the invariant |
| `Endpoints.FlushGood` | libsponge/tcp_connection.cc:127-142 | handing over the queue keeps every sent segment a true slice that acknowledges only what was taken in |
| `Endpoints.TakeInGood` | libsponge/tcp_connection.cc:24-65 | any segment keeps the invariant, moves the sender only as its acknowledgment allows, and is answered when it calls for an answer |
| `Endpoints.TickGood` | libsponge/tcp_connection.cc:95-103 | a tick keeps the invariant, and sets an error only after too many retransmissions |
| `Endpoints.HandleGood` | libsponge/tcp_connection.cc:24-142 | every event keeps the invariant of sender, receiver and everything ever sent |
| `EndpointRuns.StepKeeps` | libsponge/tcp_connection.cc:24-142 | the invariant with an observer's bookkeeping of time and offered windows |
| `EndpointRuns.SequenceSpaceConserved` | libsponge/tcp_sender.cc:23-29 | in every run the next number counts SYN, bytes and FIN, the outstanding segments lie end to end without a gap, and what is in flight is what is not yet retired |
| `EndpointRuns.NothingForgotten` | libsponge/tcp_sender.cc:134-177 | in every run each number that was sent and is not acknowledged lies in an outstanding segment |
| `EndpointRuns.FaithfulSlices` | libsponge/tcp_sender.cc:60-78 | in every run each segment ever sent carries the application's bytes at its number, at most 1000, with FIN only at the end |
| `EndpointRuns.TimerDiscipline` | libsponge/tcp_sender.cc:108-198 | in every run the timer is on exactly while something is outstanding, and the timeout is the initial one times a power of two (rules 5.1 and 5.2 in section 5 of RFC 6298) |
| `EndpointRuns.RestartsIff` | libsponge/tcp_sender.cc:149-177 | in every run an acknowledgment of new data restarts the timer if and only if it covers the oldest segment as a whole or the timer stood at 0 (rule 5.3 asks for more) |
| `EndpointRuns.MinimumPatience` | libsponge/tcp_connection.cc:95-103 | a connection that gives up by itself has had segments outstanding for at least 511 initial timeouts without one being retired |
| `EndpointRuns.WindowRespected` | libsponge/tcp_sender.cc:31-79 | in every run the sender is ahead of the furthest offered window by at most one number per acknowledgment that closed it |
| `EndpointRuns.WindowUsedUp` | libsponge/tcp_sender.cc:31-79 | in every run, between events, the window is full or nothing is left to send |
| `EndpointRuns.EverySegmentReports` | libsponge/tcp_connection.cc:50-64 | in every run, what an event makes the connection send carries the current acknowledgment and window, and what calls for an answer gets one |
| `EndpointRuns.RetransmitsEarliest` | libsponge/tcp_sender.cc:179-198 | in every run an expired timer sends the earliest unacknowledged segment and nothing else, starts over, and doubles the timeout unless that segment is a probe (rules 5.4 to 5.6) |
| `EndpointRuns.ClosedWindowIsProbed` | libsponge/tcp_sender.cc:46-58 | in every run an acknowledgment that closes the window is followed by one number marked as a probe, if anything is left to send |
| `Traffic.SentExactly` | libsponge/tcp_connection.cc:24-156 | in every run, exactly what each event makes the connection send, segment by segment and in order, with every header field; which segments are kept; that they are full; and that they probe if and only if the event closed the window |
| `Traffic.AckEffect` | libsponge/tcp_sender.cc:83-101 | in every run, exactly which events move the last acknowledgment and the window, and to what, window updates included |
| `Traffic.BareAcksAreNotAnswered` | libsponge/tcp_connection.cc:50-62 | in every run a segment with nothing in it is answered if and only if it sits just below what is expected |
| `Traffic.ArrivalPlaces` | libsponge/tcp_connection.cc:24-48 | in every run, what a segment brings to a live connection lands at its place |
| `Timing.TimerAddsUp` | libsponge/tcp_sender.cc:108-119 | in every run the timer shows the tick time since it was last started or restarted, in 32 bits |
| `Timing.TicksAddUp` | libsponge/tcp_sender.cc:108-119 | in every run, ticks that together reach the timeout send the oldest segment again, or at the ninth time the reset, however they are divided, and nothing before |
| `Timing.ProbeOrigin` | libsponge/tcp_sender.cc:53-77 | in every run an outstanding segment is a probe if and only if the event that sent it first closed the window |
| `Timing.BacksOffUnlessProbing` | libsponge/tcp_sender.cc:187-197 | in every run an expired timer doubles the timeout and counts, unless the segment was first sent by an acknowledgment that closed the window (rule 5.5) |
| `StateSummary.SummaryIsTrue` | libsponge/tcp_helpers/tcp_state.cc:94-110 | in every run the summary computed from counters names exactly which of SYN and FIN were sent and acknowledged |
| `Closing.CleanClose` | libsponge/tcp_connection.cc:67-83 | over without an error: the peer's stream is read to its end, nothing is outstanding, and the FIN is acknowledged if and only if it was sent, which an open window guarantees |
| `Closing.WindowOnlyGrows` | libsponge/tcp_receiver.cc:36-47 | over any stretch of any run neither the acknowledgment nor the right edge of the window moves back |
| `Closing.FailedYetActiveIff` | libsponge/tcp_connection.cc:67-83 | in every run, exactly when a connection with an error is still active, in terms of the streams, what is outstanding and the silence so far |
| `Closing.ResetEndsIt` | libsponge/tcp_connection.cc:24-37 | in every run a reset at a live connection is not answered, flags both streams, and ends the connection if and only if it had not finished both streams or has nothing to wait for |
| `Closing.FailedIff` | libsponge/tcp_connection.cc:24-156 | in every run an error is flagged if and only if a reset reached the live connection or more than 8 retransmissions in a row were counted |
| `Closing.GivesUpWithReset` | libsponge/tcp_connection.cc:95-156 | in every run, more than 8 retransmissions in a row flag both streams and send one reset at the next number and nothing else |
| `Closing.WritesAreRecorded` | libsponge/tcp_connection.cc:85-109 | in every run the outgoing stream grows by what a write adds and by nothing else, and ends exactly when the application ends it |
| `Closing.SilenceIsMeasured` | libsponge/tcp_connection.cc:22-103 | in every run the counter is the tick time since a segment last reached the live connection |
| `Closing.LingersTenTimeouts` | libsponge/tcp_connection.cc:67-83 | in every run a finished connection is active if and only if it lingers and the silence is below ten initial timeouts |
| `Closing.LingersIff` | libsponge/tcp_connection.cc:39-42 | in every run a connection lingers if and only if the peer never ended its stream before the application did |
| `Stalls.SilentIff` | libsponge/tcp_sender.cc:31-79 | in every run: no list of writes, ends, reads and ticks makes the connection send anything if and only if nothing is outstanding and the FIN is out or the window is closed |
| `ConcreteRuns.ClosesWithoutFin` | libsponge/tcp_connection.cc:67-83 | a run of three events that ends without an error and without a FIN |
| `ConcreteRuns.ResetWhileLingering` | libsponge/tcp_connection.cc:67-83 | a run of five events that ends with an error and an active connection |
| `ConcreteRuns.WritesAreNeverSent` | libsponge/tcp_sender.cc:53-58 | after a peer that closes its window with nothing left to send, whatever the application does sends nothing |
| `ConcreteRuns.HalfAckKeepsTimer` | libsponge/tcp_sender.cc:149-177 | a run in which new data is acknowledged and the timer does not restart |
| `Network.AckReadRight` | libsponge/tcp_sender.cc:87-95 | an acknowledgment of the peer that is acted on, however old, is never read as more than the peer has assembled |
| `Network.AckReadExactly` | libsponge/tcp_sender.cc:84-95 | an acknowledgment of the peer is accepted and read as the number meant, unless it is more than 2^31 behind, when it is ignored |
| `Network.PushIsHarmless` | libsponge/tcp_receiver.cc:28-33 | wherever the checkpoint places a segment of the stream, it agrees with the stream or falls outside the window |
| `Network.ReceiveLinked` | libsponge/tcp_receiver.cc:8-34 | any segment of the sender, at any time and any number of times, keeps the link between the two ends |
| `Network.SenderStep` | libsponge/tcp_connection.cc:24-142 | every event at the sending end keeps the link |
| `Network.ReceiverStep` | libsponge/tcp_connection.cc:24-142 | every event at the receiving end keeps the link |
| `Network.AwaitedSegmentAdvances` | libsponge/tcp_receiver.cc:8-45 | the segment the receiver waits for moves its acknowledgment forward if and only if the receiver waits for the SYN, or has room and a checkpoint that recognizes it; otherwise the acknowledgment stays |
| `Network.StaleSegmentIsTaken` | libsponge/tcp_receiver.cc:28-33 | where a window reaches a whole turn past an old segment, that segment is taken for new data |
| `EndToEnd.MoveKeeps` | libsponge/tcp_connection.cc:24-142 | every move keeps both ends and each direction coherent, whatever the other direction does |
| `EndToEnd.Safety` | libsponge/tcp_connection.cc:24-142 | in every run each end has assembled a prefix of what the other wrote, and all of it once it has seen the end, under a bound on that direction alone |
| `EndToEnd.AcksAreSound` | libsponge/tcp_sender.cc:83-105 | in every run what is taken for acknowledged has been assembled by the peer, and what the peer lacks is kept for retransmission, under a bound on that direction alone |
| `EndToEnd.AckDelivery` | libsponge/tcp_sender.cc:83-95 | in every run and both directions: a delivered acknowledgment, however old, is read as what the peer meant by it |
| `EndToEnd.CleanCloseDelivers` | libsponge/tcp_connection.cc:67-83 | in every run an end that is over without an error, with an open peer window, has delivered all it wrote and read all the peer wrote |
| `EndToEnd.RetransmissionAdvances` | libsponge/tcp_sender.cc:108-198 | in every run and both directions: the timer expires, the oldest outstanding segment is sent, and its delivery moves a waiting peer if and only if the peer is active and can take it in |
| `EndToEnd.DeliveryAdvances` | libsponge/tcp_connection.cc:24-48 | in every run and both directions: the delivery of any segment ever sent that carries what the peer waits for moves the peer if and only if it is active and can take it in |
| `EndToEnd.StalledForGood` | libsponge/tcp_receiver.cc:28-33 | in every run and both directions: once a checkpoint is shifted, no continuation with a short stream assembles one more byte |
| `EndToEnd.EndsAreRuns` | libsponge/tcp_connection.cc:24-142 | either end of a two-ended run is a run of one connection, so all theorems about those hold at both ends |
| `EndToEnd.MirrorReach` | libsponge/tcp_connection.cc:24-142 | exchanging the two ends gives the same run |
| `PairRuns.InactivePeerDrops` | libsponge/tcp_connection.cc:24-27 | a run in which the peer has given up and the segment it waits for moves nothing |
| `PairRuns.RepeatedSynStalls` | libsponge/tcp_receiver.cc:28-33 | a run of eight moves after which no continuation with a short stream assembles one more byte |
| `EndToEnd.HeardAllIsAwaited` | libsponge/tcp_sender.cc:149-192 | in every run the oldest outstanding segment of an end that has heard all acknowledgments is the one its peer waits for |
| `Checksums.WordSumSplit` | libsponge/util/util.cc:89-98 | the sum over a concatenation is the sum over its parts, with the byte parity carried over |
| `Checksums.ChecksToZeroIff` | libsponge/util/util.cc:100-108 | the checksum is 0 if and only if the sum is positive and a multiple of 65535 |
| `Checksums.ComplementChecks` | libsponge/util/util.cc:100-108 | adding its checksum makes any sum check |
| `Checksums.FieldMakesItCheck` | libsponge/util/util.cc:89-108 | writing the checksum into a zeroed field at an even offset makes the whole check |
| `Checksums.InternetChecksum.constructor` | libsponge/util/util.cc:87 | starts from the given sum with no bytes |
| `Checksums.InternetChecksum.Add` | libsponge/util/util.cc:89-98 | adding pieces is adding their concatenation, however they are split |
| `Checksums.InternetChecksum.Value` | libsponge/util/util.cc:100-108 | the folding loop gives the closed form modulo 65535, without changing the object |
| `Parsers.EncodeRoundTrip` | libsponge/util/parser.cc:26-60 | decoding the bytes of a number gives the number, for every width |
| `Parsers.ReadBack` | libsponge/util/parser.cc:26-60 | reading off the front of what was written gives the number and leaves the rest |
| `Parsers.NetworkOrder` | libsponge/util/parser.cc:26-43 | the most significant byte comes first, spelled out for 1, 2 and 4 bytes |
| `Parsers.Encode32` | libsponge/util/parser.cc:53-60 | the four bytes of a number, spelled out |
| `Parsers.NetParser.constructor` | libsponge/util/parser.hh:38 | all of the buffer is to be read, no error |
| `Parsers.NetParser.CheckSize` | libsponge/util/parser.cc:20-24 | too little data sets the error |
| `Parsers.NetParser.ParseInt` | libsponge/util/parser.cc:26-43 | the big-endian number and the rest, or 0 and nothing consumed after an error |
| `Parsers.NetParser.U8` | libsponge/util/parser.cc:66 | one byte |
| `Parsers.NetParser.U16` | libsponge/util/parser.cc:64 | two bytes |
| `Parsers.NetParser.U32` | libsponge/util/parser.cc:62 | four bytes |
| `Parsers.NetParser.RemovePrefix` | libsponge/util/parser.cc:45-51 | skips exactly the given number of bytes or sets the error |
| `Parsers.UnparseInt` | libsponge/util/parser.cc:53-60 | appends the big-endian bytes of a number |
| `TcpWire.HeaderRoundTrip` | libsponge/tcp_helpers/tcp_header.cc:17-78 | a serialized header followed by anything parses to itself and leaves what followed |
| `TcpWire.SealedChecks` | libsponge/tcp_helpers/tcp_segment.cc:30-45 | the filled-in checksum makes the whole segment check under the same pseudo-header sum |
| `TcpWire.SegmentRoundTrip` | libsponge/tcp_helpers/tcp_segment.cc:12-45 | a serialized segment parses without error to the same payload and header, with the checksum filled in |
| `TcpWire.FieldPositions` | libsponge/tcp_helpers/tcp_header.cc:17-48 | every field is read from the bytes and bits that section 3.1 of RFC 793 gives it |
| `TcpWire.SegmentAcceptedIff` | libsponge/tcp_helpers/tcp_segment.cc:12-23 | exactly which buffers are accepted as segments |
| `TcpWire.SegmentVerdict` | libsponge/tcp_helpers/tcp_segment.cc:12-23 | the verdict and the payload for every buffer, and that a bad checksum leaves the old segment in place |
| `TcpWire.HeaderBytes` | libsponge/tcp_helpers/tcp_header.cc:51-78 | length, reserved bits and options of a serialized header |
| `TcpWire.SerializesIff` | libsponge/tcp_helpers/tcp_header.cc:51-55 | serializing fails exactly on a data offset that is too small |
| `TcpWire.AgainstVerdictIff` | libsponge/tcp_helpers/tcp_segment.cc:12-23 | for every buffer, exactly when it is accepted although the header parser objects |
| `TcpWire.NoOffsetIsAccepted` | libsponge/tcp_helpers/tcp_header.cc:36-38 | twenty bytes with data offset 0 that are accepted as a segment |
| `TcpCodec.DecodeHeader` | libsponge/tcp_helpers/tcp_header.cc:17-48 | field-by-field parsing computes the specified header, verdict and rest |
| `TcpCodec.EncodeHeader` | libsponge/tcp_helpers/tcp_header.cc:51-78 | field-by-field appending computes the specified layout, or fails where the source throws |
| `TcpCodec.DecodeSegment` | libsponge/tcp_helpers/tcp_segment.cc:12-23 | the parser behind the round trip and the acceptance condition |
| `TcpCodec.EncodeSegment` | libsponge/tcp_helpers/tcp_segment.cc:30-45 | the serializer behind the round trip |
| `Ipv4Wire.SealedChecks` | libsponge/tcp_helpers/ipv4_datagram.cc:28-35 | the filled-in checksum makes the header check |
| `Ipv4Wire.DatagramRoundTrip` | libsponge/tcp_helpers/ipv4_datagram.cc:11-41 | a serialized datagram parses without error to the same payload and header, with the checksum filled in |
| `Ipv4Wire.EncapsulatedRoundTrip` | libsponge/tcp_helpers/ipv4_header.cc:112-131 | a segment inside a datagram comes back whole, under the pseudo-header sum the receiver computes for itself |
| `Ipv4Wire.FieldPositions` | libsponge/tcp_helpers/ipv4_header.cc:23-47 | every field is read from the bytes and bits that section 3.1 of RFC 791 gives it |
| `Ipv4Wire.DatagramAcceptedIff` | libsponge/tcp_helpers/ipv4_datagram.cc:11-21 | exactly which buffers are accepted as datagrams |
| `Ipv4Wire.Verdict` | libsponge/tcp_helpers/ipv4_header.cc:49-74 | which error each malformed header gets, in terms of the bytes |
| `Ipv4Wire.PseudoSumIsSum` | libsponge/tcp_helpers/ipv4_header.cc:114-131 | the sum a segment starts from is that over the pseudo-header of section 3.1 of RFC 793 |
| `Ipv4Wire.ChecksWithPseudoHeader` | libsponge/tcp_helpers/tcp_segment.cc:29-45 | pseudo-header and serialized segment together check |
| `Ipv4Wire.HeaderBytes` | libsponge/tcp_helpers/ipv4_header.cc:78-110 | length, reserved bit and options of a serialized header |
| `Ipv4Wire.SerializesIff` | libsponge/tcp_helpers/ipv4_datagram.cc:23-30 | serializing fails exactly on a wrong version, a short header or a wrong length |
| `Ipv4Wire.AgainstVerdictIff` | libsponge/tcp_helpers/ipv4_datagram.cc:11-21 | for every buffer, exactly when it is accepted although the header parser objects |
| `Ipv4Wire.NoChecksumIsAccepted` | libsponge/tcp_helpers/ipv4_header.cc:68-72 | twenty bytes with a wrong header checksum that are accepted as a datagram |
| `Ipv4Codec.DecodeFields` | libsponge/tcp_helpers/ipv4_header.cc:31-47 | field-by-field parsing computes the specified fixed fields |
| `Ipv4Codec.DecodeHeader` | libsponge/tcp_helpers/ipv4_header.cc:23-75 | the specified header, verdict and rest, with the checks in the source's order |
| `Ipv4Codec.EncodeHeader` | libsponge/tcp_helpers/ipv4_header.cc:78-110 | field-by-field appending computes the specified layout, or fails where the source throws |
| `Ipv4Codec.DecodeDatagram` | libsponge/tcp_helpers/ipv4_datagram.cc:11-21 | the parser behind the round trip and the acceptance condition |
| `Ipv4Codec.EncodeDatagram` | libsponge/tcp_helpers/ipv4_datagram.cc:23-41 | the serializer behind the round trip |
| `Wired.SentSurvives` | libsponge/tcp_helpers/tcp_segment.cc:12-45 | in every run each segment ever sent serializes, to at most 1020 bytes, and parses to itself but for the checksum |
| `Wired.ChecksumIgnored` | libsponge/tcp_connection.cc:24-65 | no connection looks at the checksum field |
| `Wired.WireIsTransparent` | libsponge/tcp_helpers/tcp_segment.cc:12-45 | what one end has sent has the same effect on any run of the other when it comes off the wire as when it is handed over |
| `Wired.DatagramIsTransparent` | libsponge/tcp_helpers/ipv4_datagram.cc:11-41 | the same through a whole IPv4 datagram, under the sum the receiving end computes for itself |

## Left out

- The network interface (`network_interface.cc`), whose operations are stubs, and the ARP and Ethernet formats, which would only repeat the technique of the TCP and IPv4 ones.
- Sockets, TUN/TAP devices, adapters, the event loop and the thread of `tcp_sponge_socket.cc`: input, output and scheduling.
- Reference-counted buffers: bytes are values, so sharing and copying do not appear.
- Printing, the receiver's state summary and the official TCP state names: one-line views of the modelled fields.
- Random initial sequence numbers: the initial number is a parameter, so every theorem holds for all of them.
- The destructor and move operations of `TCPConnection`. Its abort is modelled where a tick calls it.
- The owner's popping of a connection's output queue: the queue is kept as the list of everything ever put into it, which is what the theorems about sent segments need.
- Overflow of the implementation's own 64-bit counters (next sequence number, byte counters, next index plus capacity, time since the last segment): it takes about 2^64 bytes or milliseconds. Indices and checkpoints computed from segments are cut to 64 bits.
- The 32-bit overflow of the retransmission counter, which takes 2^32 timeouts of one segment.
- `std::map` and `std::deque`: modelled as sequences, the map in the order of its keys.
- Fields that the source stores and never reads.
- Liveness: that data is delivered in the end under a fair network is not stated; progress is proved for one delivery at a time.
- Receivers.ShiftedIsStalled: speaks of segments numbered below 2^31 - 1; later ones are recognized again, as DuplicateSynHarmlessIff says. StalledForGood has the same bound.
- EndToEnd.Safety: needs, for each direction by itself, the stream and the receiver's capacity to stay within one turn of the sequence numbers; StaleSegmentIsTaken shows why. The same bound is in AcksAreSound, DeliveryAdvances and RetransmissionAdvances; CleanCloseDelivers speaks of both streams and needs it for both.
- EndToEnd.RetransmissionAdvances: one timeout and one delivery; that they come about is up to the clock and the network.
- TcpWire.SegmentRoundTrip: for segments of at most 65535 bytes, which is what an IPv4 datagram can hold, and a pseudo-header sum below 2^20, which every pseudo-header has.
