/**
 Runs that show where a promise is broken: each is a concrete list of events.
 */
module ConcreteRuns {
  import opened Words
  import opened Wrapping
  import opened ByteStreams
  import opened Reassembly
  import opened TcpSegments
  import opened Receivers
  import opened Senders
  import opened SenderInvariant
  import opened Connections
  import opened Endpoints
  import opened EndpointRuns
  import opened Closing
  import opened Stalls

  const PLAIN_CONFIG: Config := Config(10, 10, 1000, 0)

  /** A peer that opens and ends its stream in one segment, with a closed window. */
  const CLOSED_WINDOW: Segment :=
    Segment(BLANK.(syn := true, fin := true, ack := true, ackno := 1), [])

  /** The segment that opens a connection. */
  const OPENER: Segment := Segment(BLANK.(syn := true, win := 10), [])

  lemma AfterOpen(c: Connection)
    requires c == Opening(10, 10, 1000, 0)
    ensures var c' := Handle(c, Open);
            && c'.receiver == c.receiver && c'.linger && c'.sender.queue == []
            && c'.sender.stream == Fresh(10) && c'.sender.isn == 0
            && c'.sender.next == 1 && c'.sender.lastAck == 0 && !c'.sender.finSent && !c'.sender.mayProbe
            && |c'.sender.outstanding| == 1 && c'.sender.outstanding[0].End() == 1
            && c'.Streams() && c'.timeout == 1000
            && c'.sent == [OPENER] && !c'.sender.outstanding[0].probe
            && c'.sender.elapsed == 0 && c'.sender.retransmissions == 0
  {
  }

  lemma AfterPeer(s: Sender)
    requires s.stream == Fresh(10) && s.isn == 0 && s.next == 1 && s.lastAck == 0 && !s.finSent
    requires |s.outstanding| == 1 && s.outstanding[0].End() == 1
    ensures var t := AckReceived(s, 1, 0);
            && t.stream == s.stream && t.outstanding == [] && t.next == 1 && t.lastAck == 1
            && t.window == 0 && !t.mayProbe && !t.finSent && t.queue == s.queue
  {
    assert AckValue(s, 1) == 1;
    var n := NoteAck(s, 1, 0);
    assert Unacked(n.outstanding, 1) == [];
    var r := Retire(n);
    assert SendLoop(r.(mayProbe := false), 1, true) == r.(mayProbe := false);
  }

  lemma PeerEnds(r: Receiver)
    requires r == Listening(10)
    ensures var r' := Receive(r, CLOSED_WINDOW);
            r'.Output().Eof() && !r'.Output().error
  {
    hide Push;
    PushSignals(r.reassembler, [], 0);
    PushNothing(r.reassembler);
  }

  lemma PushNothing(m: Reassembler)
    requires m == Empty(10)
    ensures Push(m, [], 0, true).output.input == [] && !Push(m, [], 0, true).output.error
    ensures Push(m, [], 0, true).output.read == 0
  {
    PushKeeps(m, [], 0, true);
  }

  /** Waiting for its application to finish: everything acknowledged, no window, peer gone. */
  predicate Waiting(c: Connection) {
    && c.Streams() && !Failed(c) && c.receiver.Output().Eof() && !c.linger
    && c.sender.stream == Fresh(10) && c.sender.outstanding == []
    && c.sender.next == 1 && c.sender.lastAck == 1 && c.sender.window == 0
    && !c.sender.finSent && !c.sender.mayProbe
  }

  lemma AfterArrival(c: Connection)
    requires c.Streams() && c.receiver == Listening(10) && c.sender.queue == []
    requires c.sender.stream == Fresh(10) && c.sender.isn == 0 && c.sender.next == 1
    requires c.sender.lastAck == 0 && !c.sender.finSent
    requires |c.sender.outstanding| == 1 && c.sender.outstanding[0].End() == 1
    ensures Waiting(SegmentReceived(c, CLOSED_WINDOW))
  {
    hide Receive, AckReceived, StampAll, Answer, SendEmpty, Follows;
    AfterPeer(c.sender);
    PeerEnds(c.receiver);
    ReceiveKeeps(c.receiver, CLOSED_WINDOW);
    var t := AckReceived(c.sender, 1, 0);
    OnlyAcknowledges(t, Receive(c.receiver, CLOSED_WINDOW));
  }

  lemma OnlyAcknowledges(s: Sender, r: Receiver)
    requires s.stream.Valid() && s.queue == [] && !s.mayProbe && s.next == s.lastAck == 1 && s.window == 0
    ensures var t := Answer(s, r, CLOSED_WINDOW);
            t == s.(queue := t.queue)
  {
    assert FillWindow(s) == s;
  }

  lemma AfterFinish(c: Connection)
    requires Waiting(c)
    ensures var c' := EndInput(c);
            && !Failed(c') && !Active(c')
            && c'.sender.window == 0 && !c'.sender.finSent && !AllAcknowledged(c'.sender)
  {
    hide StampAll;
  }

  /** The promise that a finished connection has sent and had acknowledged its FIN fails when the
      peer's window is closed: this run ends without an error and without a FIN. */
  lemma ClosesWithoutFin()
    ensures var c := After(PLAIN_CONFIG, [Open, Arrive(CLOSED_WINDOW), Finish]).conn;
            && !Failed(c) && !Active(c)
            && c.sender.window == 0 && !c.sender.finSent && !AllAcknowledged(c.sender)
  {
    hide Invariant, Good, SegmentReceived, Connect, EndInput, Waiting, Failed, Active;
    var e1, e2, e3 := [Open], [Open, Arrive(CLOSED_WINDOW)], [Open, Arrive(CLOSED_WINDOW), Finish];
    assert e1[..0] == [] && e2[..1] == e1 && e3[..2] == e2;
    AfterOpen(After(PLAIN_CONFIG, []).conn);
    AfterArrival(After(PLAIN_CONFIG, e1).conn);
    AfterFinish(After(PLAIN_CONFIG, e2).conn);
  }

  /** The promise to keep probing a closed window fails once a probe was due with nothing to send: after
      this peer's segment nothing that the application writes is ever sent, unless the peer speaks. */
  lemma WritesAreNeverSent(more: seq<Event>)
    ensures var evs := [Open, Arrive(CLOSED_WINDOW)];
            NoArrivals(more) ==> After(PLAIN_CONFIG, evs + more).conn.sent == After(PLAIN_CONFIG, evs).conn.sent
  {
    hide Invariant, Good, SegmentReceived, Connect, EndInput, Failed, Active;
    var e1, e2 := [Open], [Open, Arrive(CLOSED_WINDOW)];
    assert e1[..0] == [] && e2[..1] == e1;
    AfterOpen(After(PLAIN_CONFIG, []).conn);
    AfterArrival(After(PLAIN_CONFIG, e1).conn);
    SilentIff(PLAIN_CONFIG, e2);
  }

  /** The peer accepts the connection and offers a window of 10. */
  const SYN_ACK: Segment := Segment(BLANK.(syn := true, ack := true, ackno := 1, win := 10), [])

  const FIN_ACK: Segment := Segment(BLANK.(seqno := 1, fin := true, ack := true, ackno := 2, win := 10), [])

  const RESET: Segment := Segment(BLANK.(rst := true), [])

  /** The connection is open both ways and nothing has been written. */
  ghost predicate Established(c: Connection) {
    && Good(c) && c.Streams() && !Failed(c) && c.linger && c.timeout == 1000
    && c.receiver == Receiver(Empty(10), true, 0, 0)
    && c.sender.stream.input == [] && !c.sender.stream.ended && c.sender.stream.capacity == 10
    && c.sender.isn == 0 && c.sender.next == 1 && c.sender.lastAck == 1 && c.sender.window == 10
    && !c.sender.finSent && c.sender.outstanding == []
  }

  lemma Values()
    ensures Unwrap(1, 0, 0) == 1 && Unwrap(2, 0, 1) == 2
  {
    hide Unwrap, Above;
    RoundTripIff(1, 0, 0);
    RoundTripIff(2, 0, 1);
  }

  lemma PushEmpty()
    ensures Push(Empty(10), [], 0, false) == Empty(10)
  {
    assert Overlay(map[], [], 0, 0, 10) == map[];
    var none: seq<Byte> := [];
    assert none + none == none;
  }

  /** With nothing written, the next number only counts SYN and FIN. */
  lemma EmptyStream(s: Sender)
    requires Steady(s) && s.stream.input == [] && s.next > 0
    ensures s.stream.Valid() && s.stream.read == 0
    ensures s.next == if s.finSent then 2 else 1
    ensures s.finSent ==> s.stream.ended
    ensures s.next >= s.lastAck + s.window || (s.stream.ended ==> s.finSent)
  {
    hide Faithful, Tiled, Timed;
  }

  lemma NothingOut(s: Sender)
    requires Steady(s)
    ensures s.outstanding == [] <==> s.lastAck == s.next
    ensures s.outstanding == [] ==> s.Front() == s.next && s.elapsed == 0
  {
    hide Faithful;
    TiledEnd(s.outstanding, s.next);
  }

  /** What the connection is after an arrival that it acts on, in terms of what it was. */
  lemma ArrivalMoves(c: Connection, seg: Segment)
    requires Good(c) && c.Streams() && Active(c) && !seg.header.rst
    requires seg.header.ack && Accepts(c.sender, seg.header.ackno)
    ensures var c', s, t := Handle(c, Arrive(seg)), c.sender, Handle(c, Arrive(seg)).sender;
            && Good(c') && c'.Streams() && Failed(c') == Failed(c) && c'.timeout == c.timeout
            && c'.receiver == Receive(c.receiver, seg)
            && c'.linger == (c.linger && (s.stream.ended || !seg.header.fin))
            && t.isn == s.isn && t.base == s.base && (s.finSent ==> t.finSent)
            && t.lastAck == Max(s.lastAck, AckValue(s, seg.header.ackno))
            && t.lastAck + t.window == Max(t.lastAck, Offer(s, seg))
            && t.stream == s.stream.(read := t.stream.read) && t.next >= s.next
  {
    hide Steady, Handle, History, Receive, Active, AckValue, Follows;
    HandleGood(c, Arrive(seg));
    HandleGood(Handle(c, Arrive(seg)), Open);
    HandleStream(c, Arrive(seg));
    HandleOutput(c, Arrive(seg));
    StepLinger(c, Arrive(seg));
    ArriveIs(c, seg);
    TakeInGood(c, seg);
    assert Handle(c, Arrive(seg)).sender.stream.input + [] == Handle(c, Arrive(seg)).sender.stream.input;
  }

  lemma Accepted(c: Connection)
    requires Good(c) && c.Streams() && c.timeout == 1000 && !Failed(c)
    requires c.receiver == Listening(10) && c.linger
    requires c.sender.stream == Fresh(10) && c.sender.isn == 0
    requires c.sender.next == 1 && c.sender.lastAck == 0 && !c.sender.finSent
    ensures Established(Handle(c, Arrive(SYN_ACK)))
  {
    hide Steady, Handle, History, Receive, Push, Unwrap;
    Values();
    assert AckValue(c.sender, 1) == 1;
    ArrivalMoves(c, SYN_ACK);
    SynTaken();
    var t := Handle(c, Arrive(SYN_ACK)).sender;
    EmptyStream(t);
    NothingOut(t);
  }

  lemma SynTaken()
    ensures Receive(Listening(10), SYN_ACK) == Receiver(Empty(10), true, 0, 0)
  {
    hide Push;
    PushEmpty();
    WrapZero(0);
    RoundTripIff(0, 0, 0);
  }

  /** Our stream is ended and its FIN is out. */
  ghost predicate Finished(c: Connection) {
    && Good(c) && c.Streams() && !Failed(c) && c.linger && c.timeout == 1000
    && c.receiver == Receiver(Empty(10), true, 0, 0)
    && c.sender.stream.input == [] && c.sender.stream.ended
    && c.sender.isn == 0 && c.sender.next == 2 && c.sender.lastAck == 1 && c.sender.window == 10 && c.sender.finSent
  }

  lemma Finishes(c: Connection)
    requires Established(c)
    ensures Finished(Handle(c, Finish))
  {
    hide Steady, Handle, History, Active;
    HandleGood(c, Finish);
    HandleGood(Handle(c, Finish), Open);
    HandleStream(c, Finish);
    HandleOutput(c, Finish);
    FinishReceiver(c);
    EmptyStream(Handle(c, Finish).sender);
  }

  lemma FinishReceiver(c: Connection)
    requires c.Streams()
    ensures var c' := Handle(c, Finish);
            c'.receiver == c.receiver && c'.linger == c.linger && c'.timeout == c.timeout
  {
    hide FillWindow, StampAll;
  }

  /** Both streams have finished and everything is acknowledged, but the connection lingers. */
  ghost predicate Lingering(c: Connection) {
    && Good(c) && c.Streams() && !Failed(c) && c.linger && c.timeout == 1000
    && c.sender.stream.Eof() && c.receiver.Output().Eof() && c.sender.outstanding == []
  }

  lemma PeerFinishes(c: Connection)
    requires Finished(c)
    ensures Lingering(Handle(c, Arrive(FIN_ACK)))
  {
    hide Steady, Handle, History, Receive, Push, Unwrap;
    Values();
    assert AckValue(c.sender, 2) == 2;
    ArrivalMoves(c, FIN_ACK);
    FinTaken();
    var t := Handle(c, Arrive(FIN_ACK)).sender;
    EmptyStream(t);
    NothingOut(t);
  }

  lemma FinTaken()
    ensures Receive(Receiver(Empty(10), true, 0, 0), FIN_ACK).Output().Eof()
  {
    hide Push, Unwrap;
    Values();
    PushSignals(Empty(10), [], 0);
    PushNothing(Empty(10));
  }

  /** The promise that an error ends a connection fails here: a reset arrives at a connection that has
      finished and lingers. */
  lemma ResetWhileLingering()
    ensures var c := After(PLAIN_CONFIG, [Open, Arrive(SYN_ACK), Finish, Arrive(FIN_ACK), Arrive(RESET)]).conn;
            Failed(c) && Active(c)
  {
    hide After, Step, Good, Handle, Active, Established, Finished;
    var e2 := [Open] + [Arrive(SYN_ACK)];
    var e3 := e2 + [Finish];
    var e4 := e3 + [Arrive(FIN_ACK)];
    HandshakeRun();
    AfterOneMore(PLAIN_CONFIG, e2, Finish);
    Finishes(After(PLAIN_CONFIG, e2).conn);
    AfterOneMore(PLAIN_CONFIG, e3, Arrive(FIN_ACK));
    PeerFinishes(After(PLAIN_CONFIG, e3).conn);
    var c := After(PLAIN_CONFIG, e4).conn;
    StillActive(After(PLAIN_CONFIG, e3).conn);
    ResetEndsIt(PLAIN_CONFIG, e4, RESET);
    assert e4 + [Arrive(RESET)] == [Open, Arrive(SYN_ACK), Finish, Arrive(FIN_ACK), Arrive(RESET)];
  }

  lemma StillActive(c: Connection)
    requires Finished(c) && Lingering(Handle(c, Arrive(FIN_ACK)))
    ensures Active(Handle(c, Arrive(FIN_ACK)))
  {
    hide Steady, Handle, History;
    StepSilence(c, Arrive(FIN_ACK));
  }

  lemma HandshakeRun()
    ensures Established(After(PLAIN_CONFIG, [Open] + [Arrive(SYN_ACK)]).conn)
  {
    hide After, Step, Good, Handle, Established;
    OpenRun();
    AfterOneMore(PLAIN_CONFIG, [Open], Arrive(SYN_ACK));
    Accepted(After(PLAIN_CONFIG, [Open]).conn);
  }

  lemma OpenRun()
    ensures var c := After(PLAIN_CONFIG, [Open]).conn;
            && c.receiver == Listening(10) && c.linger && c.timeout == 1000 && !Failed(c)
            && c.sender.stream == Fresh(10) && c.sender.isn == 0
            && c.sender.next == 1 && c.sender.lastAck == 0 && !c.sender.finSent
  {
    hide Invariant, Good, Connect;
    var e1 := [Open];
    assert e1[..0] == [];
    AfterOpen(After(PLAIN_CONFIG, []).conn);
  }

  const TWO_BYTES: seq<Byte> := [7, 7]

  /** The peer acknowledges the SYN and the first of the two bytes. */
  const HALF_ACK: Segment := Segment(BLANK.(seqno := 1, ack := true, ackno := 2, win := 10), [])

  /** The two bytes are on their way in one segment, and the timer stands at elapsed. */
  ghost predicate Waits(c: Connection, elapsed: nat) {
    && Good(c) && c.Streams() && !Failed(c) && c.receiver == Receiver(Empty(10), true, 0, 0)
    && !c.sender.stream.ended && c.sender.isn == 0 && c.sender.next == 3 && c.sender.lastAck == 1
    && c.sender.outstanding != [] && c.sender.outstanding[0].End() == 3
    && c.sender.elapsed == elapsed && c.sender.rto == 1000 && c.sender.retransmissions == 0
  }

  lemma SendsTwo(c: Connection)
    requires Established(c)
    ensures Waits(Handle(c, Send(TWO_BYTES)), 0)
  {
    hide Steady, Handle, History, Active;
    HandleGood(c, Send(TWO_BYTES));
    HandleGood(Handle(c, Send(TWO_BYTES)), Open);
    HandleStream(c, Send(TWO_BYTES));
    HandleOutput(c, Send(TWO_BYTES));
    EmptyStream(c.sender);
    NothingOut(c.sender);
    OneSegment(c.sender);
    NotProbing(c.sender);
    SendIs(c);
    TimerFirst(Handle(c, Send(TWO_BYTES)).sender);
  }

  lemma NotProbing(s: Sender)
    requires Steady(s) && !s.finSent
    ensures !s.mayProbe && (s.outstanding == [] ==> s.retransmissions == 0)
  {
  }

  lemma TimerFirst(s: Sender)
    requires Steady(s)
    ensures s.retransmissions == 0 ==> s.rto == s.base
    ensures s.timerOn <==> s.outstanding != []
  {
    hide Faithful, Tiled, BackedOff;
    BackedOffZero(s.base);
  }

  lemma SendIs(c: Connection)
    requires c.Streams()
    ensures var c' := Handle(c, Send(TWO_BYTES));
            && c'.receiver == c.receiver && c'.timeout == c.timeout
            && c'.sender == FillWindow(c.sender.(stream := c.sender.stream.Write(TWO_BYTES))).(queue := [])
  {
    hide FillWindow, StampAll;
  }

  lemma OneSegment(s: Sender)
    requires s.stream.input == [] && s.stream.read == 0 && s.stream.capacity == 10 && !s.stream.ended
    requires s.next == 1 && s.lastAck == 1 && s.window == 10 && !s.finSent && s.outstanding == []
    ensures var t := FillWindow(s.(stream := s.stream.Write(TWO_BYTES)));
            t.next == 3 && t.outstanding != [] && t.outstanding[0].End() == 3
  {
    hide SendLoop, Emit;
    var u := s.(stream := s.stream.Write(TWO_BYTES));
    assert u.stream.input == TWO_BYTES;
    EmitsBoth(u);
    LoopEnds(Emit(u, 10, false, false), 8);
    LoopsOnce(u);
  }

  lemma LoopEnds(u: Sender, budget: nat)
    requires u.stream.Valid() && u.stream.Buffered() == 0 && !u.stream.ended
    ensures SendLoop(u, budget, false) == u
  {
  }

  lemma LoopsOnce(u: Sender)
    requires u.stream.Valid() && u.stream.Peek(10) == TWO_BYTES && !u.stream.ended
    ensures SendLoop(u, 10, false) == SendLoop(Emit(u, 10, false, false), 8, false)
  {
    hide Emit;
  }

  lemma EmitsBoth(u: Sender)
    requires u.stream.Valid() && u.stream.input == TWO_BYTES && u.stream.read == 0 && u.next == 1 && u.outstanding == []
    ensures u.stream.Peek(10) == TWO_BYTES
    ensures var t := Emit(u, 10, false, false);
            && t.next == 3 && t.outstanding != [] && t.outstanding[0].End() == 3
            && t.stream == u.stream.(read := 2)
  {
    hide Wrap;
  }

  lemma FiveTicks(c: Connection)
    requires Waits(c, 0)
    ensures Waits(Handle(c, Elapse(5)), 5)
  {
    hide Steady, Handle, History, Active;
    HandleGood(c, Elapse(5));
    HandleGood(Handle(c, Elapse(5)), Open);
    TimerFirst(c.sender);
    assert Tick(c.sender, 5) == c.sender.(elapsed := 5);
    TickIs(c);
  }

  lemma TickIs(c: Connection)
    requires Waits(c, 0) && Tick(c.sender, 5) == c.sender.(elapsed := 5)
    ensures Handle(c, Elapse(5)) == c.(sender := c.sender.(elapsed := 5), sinceReceived := c.sinceReceived + 5)
  {
    hide Steady, History, Tick;
    ElapseIs(c, 5);
  }

  /** Rule 5.3 in section 5 of RFC 6298 fails here: one of two bytes is newly acknowledged, 5
      milliseconds after they were sent together, and the timer goes on from 5. */
  lemma HalfAckKeepsTimer()
    ensures var evs := [Open, Arrive(SYN_ACK), Send(TWO_BYTES), Elapse(5)];
            var s, t := After(PLAIN_CONFIG, evs).conn.sender, After(PLAIN_CONFIG, evs + [Arrive(HALF_ACK)]).conn.sender;
            s.lastAck == 1 && t.lastAck == 2 && s.elapsed == t.elapsed == 5
  {
    hide After, Step, Good, Handle, Established, Unwrap;
    var e2 := [Open] + [Arrive(SYN_ACK)];
    var e3 := e2 + [Send(TWO_BYTES)];
    var e4 := e3 + [Elapse(5)];
    HandshakeRun();
    AfterOneMore(PLAIN_CONFIG, e2, Send(TWO_BYTES));
    SendsTwo(After(PLAIN_CONFIG, e2).conn);
    AfterOneMore(PLAIN_CONFIG, e3, Elapse(5));
    FiveTicks(After(PLAIN_CONFIG, e3).conn);
    Values();
    RestartsIff(PLAIN_CONFIG, e4, HALF_ACK);
    assert e4 == [Open, Arrive(SYN_ACK), Send(TWO_BYTES), Elapse(5)];
  }
}
