/**
 How a connection ends, and what the receiving side promises over time.
 */
module Closing {
  import opened Words
  import opened Wrapping
  import opened ByteStreams
  import opened Reassembly
  import opened TcpSegments
  import opened Receivers
  import opened Senders
  import opened SenderInvariant
  import opened Connections
  import opened Endpoints
  import opened EndpointRuns

  predicate Failed(c: Connection) {
    c.sender.stream.error || c.receiver.Output().error
  }

  /** SYN, every byte of the finished stream and FIN are acknowledged. */
  predicate AllAcknowledged(s: Sender) {
    s.lastAck == |s.stream.input| + 2
  }

  /** What it takes for a connection to be over without an error. */
  lemma GoodClose(c: Connection)
    requires Good(c) && !Failed(c) && !Active(c)
    ensures && c.receiver.Output().ended && c.receiver.Output().read == |c.receiver.Output().input|
            && c.sender.stream.ended && c.sender.stream.read == |c.sender.stream.input|
            && c.sender.outstanding == []
            && (AllAcknowledged(c.sender) <==> c.sender.finSent)
            && (c.sender.window > 0 ==> AllAcknowledged(c.sender))
  {
    hide Faithful, Timed, History;
    SoundBounds(c.sender);
    InFlightIsStretch(c.sender.outstanding, c.sender.next);
    TiledEnd(c.sender.outstanding, c.sender.next);
  }

  /** A connection that is over without an error has read the peer's stream to its end and has
      everything it sent acknowledged. Its own FIN is among that if the peer's window was open. */
  lemma CleanClose(cfg: Config, evs: seq<Event>)
    ensures var c := After(cfg, evs).conn;
            !Failed(c) && !Active(c) ==>
              && c.receiver.Output().ended && c.receiver.Output().read == |c.receiver.Output().input|
              && c.sender.stream.ended && c.sender.stream.read == |c.sender.stream.input|
              && c.sender.outstanding == []
              && (AllAcknowledged(c.sender) <==> c.sender.finSent)
              && (c.sender.window > 0 ==> AllAcknowledged(c.sender))
  {
    hide After, Active;
    var c := After(cfg, evs).conn;
    if !Failed(c) && !Active(c) {
      GoodClose(c);
    }
  }

  lemma StepRightEdge(c: Connection, ev: Event)
    requires Good(c) && c.Streams()
    ensures RightEdge(c.receiver) <= RightEdge(Handle(c, ev).receiver)
    ensures c.receiver.AbsAck() <= Handle(c, ev).receiver.AbsAck()
  {
    hide Sound, History, FillWindow, Answer, TakeAck, Tick, SendReset, StampAll, Receive, Active;
    match ev
    case Fetch(len) => AppReadsKeeps(c.receiver, len);
    case Arrive(seg) =>
      WindowNeverShrinks(c.receiver, seg);
      ReceiveKeeps(c.receiver, seg);
    case _ =>
  }

  /** Over any stretch of a run, whatever arrives and however the application reads, neither the
      acknowledgment nor the right edge of the advertised window moves back. */
  lemma {:induction false} WindowOnlyGrows(cfg: Config, evs: seq<Event>, more: seq<Event>)
    ensures var r, r' := After(cfg, evs).conn.receiver, After(cfg, evs + more).conn.receiver;
            RightEdge(r) <= RightEdge(r') && r.AbsAck() <= r'.AbsAck()
    decreases |more|
  {
    hide Invariant, Handle, Good;
    if more == [] {
      assert evs + more == evs;
    } else {
      var n := |more| - 1;
      WindowOnlyGrows(cfg, evs, more[..n]);
      var all := evs + more;
      assert all[..|all| - 1] == evs + more[..n];
      var o := After(cfg, evs + more[..n]);
      StepKeeps(o, more[n]);
      assert Good(o.conn) by { InvariantGood(o); }
      StepRightEdge(o.conn, more[n]);
    }
  }

  lemma InvariantGood(o: Observed)
    requires Invariant(o)
    ensures Good(o.conn)
  {
  }

  /** What keeps a connection active although an error was flagged: both streams have finished, and
      something is unacknowledged or the lingering time is not over. */
  ghost predicate GoesOn(c: Connection, silence: nat) {
    && c.sender.stream.Eof() && c.receiver.Output().Eof()
    && (c.sender.outstanding != [] || (c.linger && silence < 10 * c.timeout))
  }

  lemma ActiveAfterError(c: Connection)
    requires Good(c) && Failed(c)
    ensures Active(c) <==> GoesOn(c, c.sinceReceived)
  {
    hide Faithful, Timed, History;
    InFlightIsStretch(c.sender.outstanding, c.sender.next);
    TiledEnd(c.sender.outstanding, c.sender.next);
  }

  /** In every run, an error has ended the connection unless both streams had finished: then it goes on
      until everything is acknowledged and the lingering time is over. */
  lemma FailedYetActiveIff(cfg: Config, evs: seq<Event>)
    ensures var c := After(cfg, evs).conn;
            Failed(c) ==> (Active(c) <==> GoesOn(c, Silence(cfg, evs)))
  {
    hide After, Silence, Active;
    var c := After(cfg, evs).conn;
    SilenceIsMeasured(cfg, evs);
    if Failed(c) {
      ActiveAfterError(c);
    }
  }

  /** In every run a reset that reaches a live connection is not answered, and ends it exactly if not
      both streams had finished, or nothing is outstanding and it does not linger. */
  lemma ResetEndsIt(cfg: Config, evs: seq<Event>, seg: Segment)
    ensures var c, c' := After(cfg, evs).conn, After(cfg, evs + [Arrive(seg)]).conn;
            Active(c) && seg.header.rst ==>
              && c'.sent == c.sent
              && c'.sender.stream.error && c'.receiver.Output().error
              && (Active(c') <==> GoesOn(c, 0))
  {
    hide After, Good, Step, Active, SegmentReceived;
    var c := After(cfg, evs).conn;
    AfterOneMore(cfg, evs, Arrive(seg));
    AfterOneMore(cfg, evs + [Arrive(seg)], Open);
    ArriveIs(c, seg);
    if Active(c) && seg.header.rst {
      ResetFlags(c, seg);
      ActiveAfterError(SegmentReceived(c, seg));
    }
  }

  lemma ResetFlags(c: Connection, seg: Segment)
    requires c.Streams() && Active(c) && seg.header.rst
    ensures var c' := SegmentReceived(c, seg);
            && c'.sent == c.sent && c'.sinceReceived == 0 && c'.linger == c.linger && c'.timeout == c.timeout
            && c'.sender == c.sender.(stream := c.sender.stream.(error := true))
            && c'.receiver == Flagged(c.receiver)
  {
    hide Active;
  }

  /** Both streams are flagged, and one reset has been sent, at the next sequence number of c. */
  predicate Aborted(c: Connection, c': Connection) {
    && c'.sender.stream.error && c'.receiver.Output().error
    && |c'.sent| == |c.sent| + 1
    && c'.sent[|c.sent|].header.rst && c'.sent[|c.sent|].payload == []
    && c'.sent[|c.sent|].header.seqno == Wrap(c.sender.next, c.sender.isn)
  }

  /** After more than 8 retransmissions in a row a connection gives up: both streams are flagged,
      and the peer is told by a reset that takes the next sequence number. */
  lemma GivesUpWithReset(cfg: Config, evs: seq<Event>, ms: nat)
    ensures var c, c' := After(cfg, evs).conn, After(cfg, evs + [Elapse(ms)]).conn;
            c'.sender.retransmissions > 8 ==> Aborted(c, c')
  {
    hide After, Handle, Good, Step, Aborted;
    var c := After(cfg, evs).conn;
    AfterOneMore(cfg, evs, Elapse(ms));
    ElapseIs(c, ms);
    if TickBy(c, ms).sender.retransmissions > MAX_RETX_ATTEMPTS {
      TickAborts(c, ms);
    }
  }

  lemma TickAborts(c: Connection, ms: nat)
    requires Good(c) && TickBy(c, ms).sender.retransmissions > MAX_RETX_ATTEMPTS
    ensures Aborted(c, TickBy(c, ms))
  {
    hide Tick, Sound, History, Wrap;
    TickKeeps(c.sender, ms);
    var reset := Segment(BLANK.(rst := true, seqno := Wrap(c.sender.next, c.sender.isn)), []);
    var c1 := c.(sender := Tick(c.sender, ms));
    assert SendReset(c1.sender.(queue := [])).queue == [reset];
    StampSingle(reset, c.receiver);
    FlushTwice(c1.(sender := SendReset(c1.sender.(queue := []))));
  }

  /** The outgoing stream is what the application has written and nothing else: a write adds the
      bytes that fit, finishing ends it, and no other event changes it. */
  lemma WritesAreRecorded(cfg: Config, evs: seq<Event>, ev: Event)
    ensures var s, t := After(cfg, evs).conn.sender.stream, After(cfg, evs + [ev]).conn.sender.stream;
            && t.input == s.input + (if ev.Send? then ev.data[..s.Room(|ev.data|)] else [])
            && (t.ended <==> s.ended || ev.Finish?)
  {
    hide After, Handle, Good, Step;
    var c := After(cfg, evs).conn;
    assert c.sender.stream.Valid() by { AfterOneMore(cfg, evs, ev); }
    AfterOneMore(cfg, evs, ev);
    HandleStream(c, ev);
  }

  /** The event makes the connection fail: a reset reaches it alive, or the sender gives up. */
  predicate Fails(c: Connection, ev: Event) {
    match ev
    case Arrive(seg) => Active(c) && seg.header.rst
    case Elapse(ms) => GivesUp(c.sender, ms)
    case _ => false
  }

  /** The sender counts more than 8 retransmissions in a row: it has before, or its timer expires once
      more on a segment that does not probe a closed window. */
  predicate GivesUp(s: Sender, ms: nat) {
    || s.retransmissions > 8
    || (s.retransmissions == 8 && Expires(s, ms) && s.outstanding != [] && !s.outstanding[0].probe)
  }

  lemma GivesUpIs(s: Sender, ms: nat)
    requires Sound(s)
    ensures GivesUp(s, ms) <==> Tick(s, ms).retransmissions > MAX_RETX_ATTEMPTS
  {
    hide Faithful, Tiled, BackedOff;
  }

  ghost predicate FailsAt(cfg: Config, evs: seq<Event>, k: int) {
    0 <= k < |evs| && Fails(After(cfg, evs[..k]).conn, evs[k])
  }

  /** In every run a connection has failed exactly if some event made it fail. */
  lemma {:induction false} FailedIff(cfg: Config, evs: seq<Event>)
    ensures Failed(After(cfg, evs).conn) <==> exists k :: FailsAt(cfg, evs, k)
  {
    hide Handle, Step, Good, Fails, Invariant;
    if evs == [] {
      NotFailedAtFirst(cfg);
    } else {
      var n := |evs| - 1;
      FailedIff(cfg, evs[..n]);
      assert evs[..n] + [evs[n]] == evs;
      AfterOneMore(cfg, evs[..n], evs[n]);
      var c := After(cfg, evs[..n]).conn;
      HandleStream(c, evs[n]);
      HandleOutput(c, evs[n]);
      hide After;
      forall k | 0 <= k < n
        ensures FailsAt(cfg, evs[..n], k) <==> FailsAt(cfg, evs, k)
      {
        assert evs[..n][..k] == evs[..k];
      }
      assert Failed(After(cfg, evs).conn) <==> Failed(c) || FailsAt(cfg, evs, n);
    }
  }

  lemma NotFailedAtFirst(cfg: Config)
    ensures !Failed(After(cfg, []).conn)
  {
  }

  lemma HandleOutput(c: Connection, ev: Event)
    requires Good(c) && c.Streams()
    ensures var s, t := c.receiver.Output(), Handle(c, ev).receiver.Output();
            t.error <==> s.error || Fails(c, ev)
  {
    hide Sound, History, FillWindow, Answer, TakeAck, StampAll, Receive, Active, Tick;
    match ev
    case Arrive(seg) =>
      ReceiveError(c.receiver, seg);
    case Elapse(ms) =>
      GivesUpIs(c.sender, ms);
    case _ =>
  }

  lemma ReceiveError(r: Receiver, seg: Segment)
    requires r.Valid()
    ensures Receive(r, seg).Output().error == r.Output().error
  {
    hide Push;
    if r.synReceived || seg.header.syn {
      ReceiveKeeps(r, seg);
    }
  }

  lemma HandleStream(c: Connection, ev: Event)
    requires Good(c) && c.Streams()
    ensures var s, t := c.sender.stream, Handle(c, ev).sender.stream;
            && t.input == s.input + (if ev.Send? then ev.data[..s.Room(|ev.data|)] else [])
            && (t.ended <==> s.ended || ev.Finish?)
            && (t.error <==> s.error || Fails(c, ev)) && t.capacity == s.capacity
  {
    hide Sound, History, FillWindow, StampAll, SegmentReceived, TickBy, Active, Reports;
    var s := c.sender;
    assert s.stream.input + [] == s.stream.input;
    match ev
    case Open => FillStream(s, s.stream);
    case Send(data) => FillStream(s, s.stream.Write(data));
    case Finish => FillStream(s, s.stream.(ended := true));
    case Elapse(ms) => TickStream(c, ms);
    case Fetch(len) =>
    case Arrive(seg) => ArriveStream(c, seg);
  }

  lemma TickStream(c: Connection, ms: nat)
    requires Good(c)
    ensures var s, t := c.sender.stream, TickBy(c, ms).sender.stream;
            && t.input == s.input && t.ended == s.ended
            && (t.error <==> s.error || Fails(c, Elapse(ms))) && t.capacity == s.capacity
  {
    hide Sound, History, Tick, StampAll, SendReset;
    TickKeeps(c.sender, ms);
    GivesUpIs(c.sender, ms);
    ResetStream(Tick(c.sender, ms).(queue := []));
  }

  lemma ArriveStream(c: Connection, seg: Segment)
    requires Good(c) && c.Streams()
    ensures var s, t := c.sender.stream, SegmentReceived(c, seg).sender.stream;
            && t.input == s.input && t.ended == s.ended
            && (t.error <==> s.error || Fails(c, Arrive(seg))) && t.capacity == s.capacity
  {
    hide Sound, History, FillWindow, Answer, StampAll, AckReceived, Receive, Active;
    if Active(c) && !seg.header.rst {
      AnswerStream(c.sender, Receive(c.receiver, seg), seg);
    }
  }

  lemma ResetStream(s: Sender)
    ensures SendReset(s).stream == s.stream
  {
  }

  lemma FillStream(s: Sender, stream: Stream)
    requires Steady(s) && stream.Valid()
    requires s.stream.input <= stream.input && stream.read == s.stream.read
    requires s.stream.ended ==> stream.ended && stream.input == s.stream.input
    ensures var t := FillWindow(s.(stream := stream));
            t.stream == stream.(read := t.stream.read)
  {
    hide Sound, FillWindow;
    StreamKeeps(s, stream);
    FillSteady(s.(stream := stream));
  }

  lemma AnswerStream(s: Sender, r: Receiver, seg: Segment)
    requires Steady(s) && s.stream.Valid()
    ensures var t := Answer(TakeAck(s, seg), r, seg);
            t.stream == s.stream.(read := t.stream.read)
  {
    hide Sound, Answer, FillWindow, WindowUsed;
    if seg.header.ack {
      AckKeeps(s, seg.header.ackno, seg.header.win);
      AckStream(s, seg.header.ackno, seg.header.win);
    }
    AnswerSteady(TakeAck(s, seg), r, seg);
  }

  lemma AckStream(s: Sender, ackno: U32, win: U16)
    requires Steady(s) && s.stream.Valid()
    ensures var t := AckReceived(s, ackno, win);
            t.stream == s.stream.(read := t.stream.read)
  {
    hide Sound, FillWindow, AckValue, Unacked;
    if Accepts(s, ackno) {
      var r := Retire(NoteAck(s, ackno, win));
      RetireKeeps(s, ackno, win);
      FillWindowKeeps(r);
    }
  }

  /** The tick time since a segment last reached the connection while it was alive. */
  ghost function Silence(cfg: Config, evs: seq<Event>): nat {
    if evs == [] then 0
    else
      var before, ev := evs[..|evs| - 1], evs[|evs| - 1];
      if ev.Elapse? then Silence(cfg, before) + ev.ms
      else if ev.Arrive? && Active(After(cfg, before).conn) then 0
      else Silence(cfg, before)
  }

  lemma {:induction false} SilenceIsMeasured(cfg: Config, evs: seq<Event>)
    ensures After(cfg, evs).conn.sinceReceived == Silence(cfg, evs)
  {
    hide Handle, Step, Good, Active, Invariant;
    if evs == [] {
      SilentAtFirst(cfg);
    } else {
      var n := |evs| - 1;
      SilenceIsMeasured(cfg, evs[..n]);
      assert evs[..n] + [evs[n]] == evs;
      AfterOneMore(cfg, evs[..n], evs[n]);
      StepSilence(After(cfg, evs[..n]).conn, evs[n]);
      hide After;
    }
  }

  lemma SilentAtFirst(cfg: Config)
    ensures After(cfg, []).conn.sinceReceived == 0
  {
  }

  lemma StepSilence(c: Connection, ev: Event)
    requires c.Streams()
    ensures Handle(c, ev).sinceReceived ==
            if ev.Elapse? then c.sinceReceived + ev.ms
            else if ev.Arrive? && Active(c) then 0
            else c.sinceReceived
  {
    hide Active, FillWindow, Answer, TakeAck, Tick, SendReset, StampAll, Receive;
  }

  /** A connection with both streams finished and everything acknowledged stays on for ten times its
      initial timeout of silence, in case its last acknowledgment was lost, and no longer; and
      not at all if the peer was the first to end its stream. */
  lemma LingersTenTimeouts(cfg: Config, evs: seq<Event>)
    ensures var c := After(cfg, evs).conn;
            c.sender.stream.Eof() && c.receiver.Output().Eof() && c.sender.outstanding == [] ==>
              (Active(c) <==> c.linger && Silence(cfg, evs) < 10 * c.timeout)
  {
    hide After, Silence;
    SilenceIsMeasured(cfg, evs);
  }

  /** The peer ends its stream while ours is still open. */
  predicate PeerEndsFirst(c: Connection, ev: Event) {
    ev.Arrive? && Active(c) && !ev.seg.header.rst && ev.seg.header.fin && !c.sender.stream.ended
  }

  ghost predicate PeerFirstAt(cfg: Config, evs: seq<Event>, k: int) {
    0 <= k < |evs| && PeerEndsFirst(After(cfg, evs[..k]).conn, evs[k])
  }

  lemma StepLinger(c: Connection, ev: Event)
    requires c.Streams()
    ensures Handle(c, ev).linger <==> c.linger && !PeerEndsFirst(c, ev)
  {
    hide Active, FillWindow, Answer, TakeAck, Tick, SendReset, StampAll, Receive;
  }

  /** A connection lingers after both streams have finished unless the peer was the first to end its
      stream, in every run. */
  lemma {:induction false} LingersIff(cfg: Config, evs: seq<Event>)
    ensures After(cfg, evs).conn.linger <==> !exists k :: PeerFirstAt(cfg, evs, k)
  {
    hide After, Handle, PeerEndsFirst, Step, Good, Invariant;
    if evs == [] {
      LingersAtFirst(cfg);
    } else {
      var n := |evs| - 1;
      LingersIff(cfg, evs[..n]);
      assert evs[..n] + [evs[n]] == evs;
      AfterOneMore(cfg, evs[..n], evs[n]);
      StepLinger(After(cfg, evs[..n]).conn, evs[n]);
      forall k | 0 <= k < n
        ensures PeerFirstAt(cfg, evs[..n], k) <==> PeerFirstAt(cfg, evs, k)
      {
        assert evs[..n][..k] == evs[..k];
      }
      assert After(cfg, evs).conn.linger <==> After(cfg, evs[..n]).conn.linger && !PeerFirstAt(cfg, evs, n);
    }
  }

  lemma LingersAtFirst(cfg: Config)
    ensures After(cfg, []).conn.linger
  {
  }
}
