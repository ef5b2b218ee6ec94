/**
 Every run of one endpoint. The application, the clock and the network drive the connection
 with any events in any order; the segments that arrive may be anything at all.
 */
module Endpoints {
  import opened Words
  import opened Wrapping
  import opened ByteStreams
  import opened Reassembly
  import opened TcpSegments
  import opened Receivers
  import opened Senders
  import opened SenderInvariant
  import opened Connections

  datatype Event =
    | Open
    | Send(data: seq<Byte>)
    | Finish
    | Elapse(ms: nat)
    | Fetch(len: nat)
    | Arrive(seg: Segment)

  function Handle(c: Connection, ev: Event): Connection
    requires c.Streams()
  {
    match ev
    case Open => Connect(c)
    case Send(data) => Write(c, data)
    case Finish => EndInput(c)
    case Elapse(ms) => TickBy(c, ms)
    case Fetch(len) => c.(receiver := AppReads(c.receiver, len))
    case Arrive(seg) => SegmentReceived(c, seg)
  }

  /** A segment acknowledges only what the receiver has taken in. */
  ghost predicate Acknowledges(seg: Segment, r: Receiver) {
    seg.header.ack ==>
      r.synReceived && exists a: nat :: 1 <= a <= r.AbsAck() && seg.header.ackno == Wrap(a, r.isn)
  }

  /** Every segment ever handed to the network is a faithful piece of the outgoing stream and
      acknowledges only what was taken in. */
  ghost predicate History(sent: seq<Segment>, s: Sender, r: Receiver) {
    forall seg :: seg in sent ==> Emitted(seg, s) && Acknowledges(seg, r)
  }

  /** What holds of a connection between events. */
  ghost predicate Good(c: Connection) {
    && Steady(c.sender) && c.sender.queue == []
    && c.receiver.Valid()
    && c.timeout == c.sender.base
    && History(c.sent, c.sender, c.receiver)
  }

  /** What a receiver never takes back. */
  ghost predicate Later(r: Receiver, r': Receiver) {
    && r'.Valid()
    && (r.synReceived ==> r'.synReceived && r'.isn == r.isn)
    && r.AbsAck() <= r'.AbsAck()
    && r'.Output().capacity == r.Output().capacity
  }

  lemma AcknowledgesLater(seg: Segment, r: Receiver, r': Receiver)
    requires Acknowledges(seg, r) && Later(r, r')
    ensures Acknowledges(seg, r')
  {
    if seg.header.ack {
      var a: nat :| 1 <= a <= r.AbsAck() && seg.header.ackno == Wrap(a, r.isn);
      assert 1 <= a <= r'.AbsAck() && seg.header.ackno == Wrap(a, r'.isn);
    }
  }

  lemma HistoryLater(sent: seq<Segment>, s: Sender, s': Sender, r: Receiver, r': Receiver)
    requires History(sent, s, r) && Grows(s, s') && Later(r, r')
    ensures History(sent, s', r')
  {
    hide Emitted, Acknowledges, Grows, Later;
    forall seg | seg in sent
      ensures Emitted(seg, s') && Acknowledges(seg, r')
    {
      EmittedLater(seg, s, s');
      AcknowledgesLater(seg, r, r');
    }
  }

  lemma StampKeeps(seg: Segment, s: Sender, r: Receiver)
    requires Plain(seg) && Emitted(seg, s)
    ensures Emitted(Stamp(seg, r), s) && Acknowledges(Stamp(seg, r), r)
  {
    var x: nat :| Carries(seg, x, s.isn, s.stream, s.next);
    assert Carries(Stamp(seg, r), x, s.isn, s.stream, s.next);
    assert r.synReceived ==> 1 <= r.AbsAck() <= r.AbsAck();
  }

  /** The segment tells the peer what the receiver expects next and how much it can take. */
  predicate Stamped(seg: Segment, r: Receiver) {
    && (seg.header.ack <==> r.synReceived)
    && (r.synReceived ==> seg.header.ackno == Wrap(r.AbsAck(), r.isn))
    && seg.header.win == Advertised(r)
  }

  /** Segments are only added, and every added one is stamped by r. */
  ghost predicate Reports(before: seq<Segment>, after: seq<Segment>, r: Receiver) {
    && before <= after
    && forall k :: |before| <= k < |after| ==> Stamped(after[k], r)
  }

  lemma FlushReports(sent: seq<Segment>, s: Sender, r: Receiver)
    requires Faithful(s) && r.Valid()
    ensures Reports(sent, sent + StampAll(s.queue, r), r)
  {
    hide Carries, Emitted;
    var after := sent + StampAll(s.queue, r);
    forall k | |sent| <= k < |after|
      ensures Stamped(after[k], r)
    {
      assert s.queue[k - |sent|] in s.queue;
      assert after[k] == Stamp(s.queue[k - |sent|], r);
    }
  }

  /** Handing over what the sender has queued. */
  lemma FlushGood(c: Connection, s: Sender, r: Receiver)
    requires History(c.sent, c.sender, c.receiver) && c.timeout == c.sender.base
    requires Steady(s) && Grows(c.sender, s) && Later(c.receiver, r)
    ensures Good(Flush(c.(sender := s, receiver := r)))
    ensures Reports(c.sent, Flush(c.(sender := s, receiver := r)).sent, r)
  {
    FlushReports(c.sent, s, r);
    hide Reports;
    var f := Flush(c.(sender := s, receiver := r));
    assert f.sent == c.sent + StampAll(s.queue, r);
    HistoryLater(c.sent, c.sender, s, c.receiver, r);
    forall seg | seg in f.sent
      ensures Emitted(seg, f.sender) && Acknowledges(seg, r)
    {
      if seg !in c.sent {
        var k :| 0 <= k < |s.queue| && StampAll(s.queue, r)[k] == seg;
        StampKeeps(s.queue[k], s, r);
      }
      EmittedLater(seg, s, f.sender);
    }
    QueueEmptied(s);
  }

  lemma QueueEmptied(s: Sender)
    requires Steady(s)
    ensures Steady(s.(queue := [])) && Grows(s, s.(queue := []))
  {
    hide Carries, BackedOff, Tiled;
    FaithfulLater(s, s.(queue := []));
  }

  /** The sender moved without hearing from its peer: it may have sent what the window allows. */
  ghost predicate Calm(s: Sender, t: Sender) {
    && Grows(s, t)
    && t.Front() == s.Front() && t.elapsed == s.elapsed && t.retransmissions == s.retransmissions
    && t.lastAck == s.lastAck && t.window == s.window
    && t.next <= Max(s.next, s.lastAck + s.window)
  }

  lemma SameReceiver(r: Receiver)
    requires r.Valid()
    ensures Later(r, r)
  {
  }

  /** The application connects, writes or ends its stream. */
  lemma FillGood(c: Connection, stream: Stream)
    requires Good(c) && stream.Valid()
    requires c.sender.stream.input <= stream.input && stream.read == c.sender.stream.read
    requires c.sender.stream.ended ==> stream.ended && stream.input == c.sender.stream.input
    ensures var c' := Flush(c.(sender := FillWindow(c.sender.(stream := stream))));
            && Good(c') && Calm(c.sender, c'.sender) && c'.sender.stream.input == stream.input
            && Reports(c.sent, c'.sent, c'.receiver)
  {
    hide History, Sound, FillWindow, StampAll, Reports;
    var s := c.sender.(stream := stream);
    StreamKeeps(c.sender, stream);
    FillSteady(s);
    SameReceiver(c.receiver);
    assert Calm(c.sender, FillWindow(s));
    FlushGood(c, FillWindow(s), c.receiver);
    assert Flush(c.(sender := FillWindow(s))) == Flush(c.(sender := FillWindow(s), receiver := c.receiver));
  }

  lemma AnswerSteady(s: Sender, r: Receiver, seg: Segment)
    requires Steady(s)
    ensures var t := Answer(s, r, seg);
            Steady(t) && OnlySends(s, t) && t.next <= Max(s.next, s.lastAck + s.window)
  {
    hide Sound, FillWindow, IsKeepAlive, SendSegment;
    var bare := Segment(BLANK, []);
    var s1 := if IsKeepAlive(r, seg) then SendEmpty(s) else s;
    BareSteady(s, bare);
    SoundBounds(s);
    NothingSent(s);
    if seg.Length() != 0 {
      FillSteady(s1);
      OnlySendsTwice(s, s1, FillWindow(s1));
      BareSteady(FillWindow(s1), bare);
      OnlySendsTwice(s, FillWindow(s1), SendEmpty(FillWindow(s1)));
    }
  }

  /** The acknowledgment in a segment that arrives is acted on. */
  predicate Heeds(c: Connection, seg: Segment) {
    Active(c) && !seg.header.rst && seg.header.ack && Accepts(c.sender, seg.header.ackno)
  }

  /** The right edge of the window that a segment offers. */
  function Offer(s: Sender, seg: Segment): nat {
    AckValue(s, seg.header.ackno) + seg.header.win
  }

  /** The segment leaves the sender without a window. */
  predicate Closes(s: Sender, seg: Segment) {
    Offer(s, seg) <= Max(s.lastAck, AckValue(s, seg.header.ackno))
  }

  /** The sender moved after an acknowledgment it heeded. */
  ghost predicate Heeded(s: Sender, t: Sender, seg: Segment) {
    && Grows(s, t) && TimerKept(s, t) && (t.Front() > s.Front() <==> Retires(s, t.lastAck))
    && t.lastAck == Max(s.lastAck, AckValue(s, seg.header.ackno))
    && t.lastAck + t.window == Max(t.lastAck, Offer(s, seg))
    && t.next <= Max(s.next, Offer(s, seg)) + (if Closes(s, seg) then 1 else 0)
  }

  lemma AckThenAnswer(s: Sender, r: Receiver, seg: Segment)
    requires Steady(s)
    ensures var t := Answer(TakeAck(s, seg), r, seg);
            && Steady(t)
            && (if seg.header.ack && Accepts(s, seg.header.ackno) then Heeded(s, t, seg) else Calm(s, t))
  {
    hide Sound, AckReceived, AckValue, WindowUsed;
    SoundBounds(s);
    var a := TakeAck(s, seg);
    if seg.header.ack {
      AckKeeps(s, seg.header.ackno, seg.header.win);
    }
    AnswerSteady(a, r, seg);
    SoundBounds(a);
    hide Answer;
    AnswerMoves(s, a, Answer(a, r, seg), seg);
  }

  lemma AnswerMoves(s: Sender, a: Sender, t: Sender, seg: Segment)
    requires OnlySends(a, t) && t.next <= Max(a.next, a.lastAck + a.window)
    requires Grows(s, a) && TimerKept(s, a) && a.lastAck <= s.next
    ensures Heeded(s, a, seg) ==> Heeded(s, t, seg)
    ensures a == s ==> Calm(s, t)
  {
    hide AckValue;
  }

  /** A segment that is not a reset arrives at a live connection. */
  lemma TakeInGood(c: Connection, seg: Segment)
    requires Good(c) && Active(c) && !seg.header.rst
    ensures var c' := SegmentReceived(c, seg);
            && Good(c') && c'.receiver == Receive(c.receiver, seg)
            && Reports(c.sent, c'.sent, c'.receiver)
            && (seg.Length() > 0 || IsKeepAlive(c'.receiver, seg) ==> |c'.sent| > |c.sent|)
            && (if Heeds(c, seg) then Heeded(c.sender, c'.sender, seg) else Calm(c.sender, c'.sender))
  {
    hide Sound, History, StampAll, Active, Answer, TakeAck, Receive, Reports, IsKeepAlive;
    assert c.Streams() by { SoundBounds(c.sender); }
    var r := Receive(c.receiver, seg);
    var t := Answer(TakeAck(c.sender, seg), r, seg);
    ReceiveLater(c.receiver, seg);
    AckThenAnswer(c.sender, r, seg);
    AnswerSpeaks(TakeAck(c.sender, seg), r, seg);
    FlushGood(c.(sinceReceived := 0, linger := TakeIn(c, seg).linger), t, r);
  }

  lemma AnswerSpeaks(s: Sender, r: Receiver, seg: Segment)
    requires s.stream.Valid()
    ensures seg.Length() > 0 || IsKeepAlive(r, seg) ==> Answer(s, r, seg).queue != []
  {
    hide IsKeepAlive, FillWindow;
  }

  lemma ReceiveLater(r: Receiver, seg: Segment)
    requires r.Valid()
    ensures Later(r, Receive(r, seg))
  {
    ReceiveKeeps(r, seg);
  }

  lemma FailGood(c: Connection)
    requires Good(c)
    ensures Good(Fail(c)) && Calm(c.sender, Fail(c).sender) && Later(c.receiver, Fail(c).receiver)
  {
    hide Sound, History, Follows;
    SoundBounds(c.sender);
    StreamKeeps(c.sender, c.sender.stream.(error := true));
    HistoryLater(c.sent, c.sender, Fail(c).sender, c.receiver, Fail(c).receiver);
  }

  lemma FetchGood(c: Connection, len: nat)
    requires Good(c)
    ensures Good(c.(receiver := AppReads(c.receiver, len)))
  {
    hide Sound, History;
    var r := AppReads(c.receiver, len);
    AppReadsKeeps(c.receiver, len);
    SoundBounds(c.sender);
    NothingSent(c.sender);
    HistoryLater(c.sent, c.sender, c.sender, c.receiver, r);
  }

  /** The clock moved the timer and nothing else. */
  ghost predicate Ticked(s: Sender, t: Sender, ms: nat) {
    && Grows(s, t)
    && t.Front() == s.Front() && t.next == s.next && t.lastAck == s.lastAck && t.window == s.window
    && t.elapsed == Tick(s, ms).elapsed && t.retransmissions == Tick(s, ms).retransmissions
  }

  lemma TickTicks(s: Sender, ms: nat)
    requires Steady(s)
    ensures Ticked(s, Tick(s, ms), ms)
  {
    hide Sound, Tick;
    TickKeeps(s, ms);
  }

  /** Discarding the queue and sending a reset. */
  lemma ResetSteady(s: Sender)
    requires Steady(s)
    ensures var t := SendReset(s.(queue := []));
            Steady(t) && Grows(s, t) && t == s.(queue := t.queue)
  {
    var q := s.(queue := []);
    QueueEmptied(s);
    BareSteady(q, Segment(BLANK.(rst := true), []));
    hide Sound;
  }

  lemma FlushTwice(c: Connection)
    ensures Flush(Flush(c)) == Flush(c)
    ensures Flush(Fail(Flush(c))) == Fail(Flush(c))
  {
    assert Flush(c).sent + [] == Flush(c).sent;
  }

  lemma FlaggedReports(before: seq<Segment>, after: seq<Segment>, r: Receiver)
    requires Reports(before, after, r)
    ensures Reports(before, after, Flagged(r))
  {
  }

  lemma TickGood(c: Connection, ms: nat)
    requires Good(c)
    ensures Good(TickBy(c, ms)) && Ticked(c.sender, TickBy(c, ms).sender, ms)
    ensures Later(c.receiver, TickBy(c, ms).receiver)
    ensures Reports(c.sent, TickBy(c, ms).sent, TickBy(c, ms).receiver)
    ensures TickBy(c, ms).sender.stream.error ==>
              c.sender.stream.error || TickBy(c, ms).sender.retransmissions > MAX_RETX_ATTEMPTS
  {
    hide Sound, History, StampAll, Tick, SendReset, Follows, Reports;
    var s := Tick(c.sender, ms);
    SameReceiver(c.receiver);
    TickSteady(c.sender, ms);
    TickTicks(c.sender, ms);
    TickKeeps(c.sender, ms);
    if s.retransmissions > MAX_RETX_ATTEMPTS {
      ResetSteady(s);
      var t := SendReset(s.(queue := []));
      FlushGood(c, t, c.receiver);
      var f := Flush(c.(sender := t));
      assert f == Flush(c.(sender := t, receiver := c.receiver));
      FailGood(f);
      FlaggedReports(c.sent, f.sent, c.receiver);
      FlushTwice(c.(sender := t));
    } else {
      FlushGood(c, s, c.receiver);
      assert Flush(c.(sender := s)) == Flush(c.(sender := s, receiver := c.receiver));
    }
  }

  ghost predicate Moved(c: Connection, c': Connection, ev: Event) {
    match ev
    case Elapse(ms) => Ticked(c.sender, c'.sender, ms)
    case Arrive(seg) => if Heeds(c, seg) then Heeded(c.sender, c'.sender, seg) else Calm(c.sender, c'.sender)
    case _ => Calm(c.sender, c'.sender)
  }

  /** Every event keeps a connection good, and moves the sender only as that event may. */
  lemma HandleGood(c: Connection, ev: Event)
    requires Good(c)
    ensures c.Streams()
    ensures var c' := Handle(c, ev);
            && Good(c') && Moved(c, c', ev)
            && Later(c.receiver, c'.receiver)
            && Reports(c.sent, c'.sent, c'.receiver)
  {
    hide Sound, History, Follows, StampAll, FillWindow, Answer, TakeAck, Receive, Tick, SendReset, Active;
    SoundBounds(c.sender);
    SameReceiver(c.receiver);
    match ev
    case Open =>
      assert c.sender == c.sender.(stream := c.sender.stream);
      FillGood(c, c.sender.stream);
    case Send(data) => FillGood(c, c.sender.stream.Write(data));
    case Finish => FillGood(c, c.sender.stream.(ended := true));
    case Elapse(ms) => TickGood(c, ms);
    case Fetch(len) =>
      FetchGood(c, len);
      AppReadsKeeps(c.receiver, len);
      NothingSent(c.sender);
    case Arrive(seg) =>
      NothingSent(c.sender);
      if Active(c) {
        if seg.header.rst {
          FailGood(c);
        } else {
          TakeInGood(c, seg);
          ReceiveLater(c.receiver, seg);
        }
      }
  }
}
