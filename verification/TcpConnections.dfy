/** The connection as the class that drives its sender and receiver in place. */
module TcpConnections {
  import opened Words
  import opened TcpSegments
  import opened Receivers
  import opened SenderInvariant
  import opened TcpSenders
  import opened Connections
  import opened Endpoints

  class TCPConnection {
    const timeout: U16
    const sender: TCPSender
    const receiver: TCPReceiver
    var sent: seq<Segment>
    var linger: bool
    var sinceReceived: nat

    /** The parts are in order, and the two streams are not the same object. */
    ghost predicate Whole()
      reads this, sender, sender.stream, receiver, receiver.reassembler, receiver.reassembler.output
    {
      sender.stream.Valid() && receiver.Valid() && sender.stream != receiver.reassembler.output
    }

    ghost predicate Valid()
      reads this, sender, sender.stream, receiver, receiver.reassembler, receiver.reassembler.output
    {
      Whole() && Good(Model())
    }

    ghost function Model(): Connection
      reads this, sender, sender.stream, receiver, receiver.reassembler, receiver.reassembler.output
    {
      Connection(sender.Model(), receiver.Model(), sent, linger, sinceReceived, timeout)
    }

    constructor (sendCapacity: nat, receiveCapacity: nat, timeout: U16, isn: U32)
      ensures Valid() && Model() == Opening(sendCapacity, receiveCapacity, timeout, isn)
    {
      this.timeout := timeout;
      sender := new TCPSender(sendCapacity, timeout, isn);
      receiver := new TCPReceiver(receiveCapacity);
      sent, linger, sinceReceived := [], true, 0;
    }

    method PopAndSendSegments()
      requires Whole()
      modifies this`sent, sender`queue
      ensures Whole() && Model() == Flush(old(Model()))
    {
      hide StampAll, Stamp;
      var ackno := receiver.Ackno();
      var size := receiver.WindowSize();
      DrainQueue(ackno, Min(size, 0xffff), receiver.Model());
    }

    /** The loop of pop_and_send_segments. */
    method DrainQueue(ackno: Option<U32>, win: U16, ghost r: Receiver)
      requires ackno == r.Ackno() && win == Advertised(r)
      modifies this`sent, sender`queue
      ensures sender.queue == [] && sent == old(sent) + StampAll(old(sender.queue), r)
    {
      hide StampAll, Stamp;
      while |sender.queue| > 0
        invariant sent + StampAll(sender.queue, r) == old(sent) + StampAll(old(sender.queue), r)
        decreases |sender.queue|
      {
        StampFirst(sender.queue, r);
        var seg := StampOne(sender.queue[0], ackno, win, r);
        ghost var rest := StampAll(sender.queue[1..], r);
        assert sent + ([seg] + rest) == sent + [seg] + rest;
        sender.queue := sender.queue[1..];
        sent := sent + [seg];
      }
      StampNone(r);
      assert sent + [] == sent;
    }

    method StampOne(seg: Segment, ackno: Option<U32>, win: U16, ghost r: Receiver) returns (out: Segment)
      requires ackno == r.Ackno() && win == Advertised(r)
      ensures out == Stamp(seg, r)
    {
      out := seg;
      if ackno.Some? && !out.header.ack {
        out := out.(header := out.header.(ackno := ackno.value, ack := true));
      }
      if out.header.win == BLANK.win {
        out := out.(header := out.header.(win := win));
      }
    }

    method Active() returns (b: bool)
      requires Valid()
      ensures b <==> Connections.Active(Model())
    {
      var outEof := sender.stream.Eof();
      var inEof := receiver.reassembler.output.Eof();
      if outEof && inEof {
        var flight := sender.BytesInFlight();
        if flight == 0 {
          return linger && sinceReceived < 10 * timeout;
        }
        return true;
      }
      return !(sender.stream.error || receiver.reassembler.output.error);
    }

    method Connect()
      requires Valid()
      modifies this`sent, sender, sender.stream
      ensures Valid() && Model() == Connections.Connect(old(Model()))
    {
      hide Good, Senders.FillWindow, StampAll;
      HandledGood(Model(), Open);
      sender.FillWindow();
      PopAndSendSegments();
    }

    method Write(data: seq<Byte>) returns (n: nat)
      requires Valid()
      modifies this`sent, sender, sender.stream
      ensures Valid() && Model() == Connections.Write(old(Model()), data)
      ensures n == old(sender.stream.Model()).Room(|data|)
    {
      hide Good, Senders.FillWindow, StampAll;
      HandledGood(Model(), Send(data));
      n := sender.stream.Write(data);
      sender.FillWindow();
      PopAndSendSegments();
    }

    method EndInputStream()
      requires Valid()
      modifies this`sent, sender, sender.stream
      ensures Valid() && Model() == EndInput(old(Model()))
    {
      hide Good, Senders.FillWindow, StampAll;
      HandledGood(Model(), Finish);
      sender.stream.EndInput();
      sender.FillWindow();
      PopAndSendSegments();
    }

    method FlagErrors()
      requires Whole()
      modifies sender.stream, receiver.reassembler.output
      ensures Whole() && Model() == Fail(old(Model()))
    {
      sender.stream.SetError();
      receiver.SetError();
    }

    /** Gives up: discards what is queued, sends a reset and flags both streams. */
    method PositiveUncleanShutdown()
      requires Whole()
      modifies this`sent, sender, sender.stream, receiver.reassembler.output
      ensures Whole() && Model() == Abort(old(Model()))
    {
      hide Senders.SendSegment, StampAll;
      sender.queue := [];
      sender.SendSegment(Segment(BLANK.(rst := true), []), false);
      PopAndSendSegments();
      FlagErrors();
    }

    method Tick(ms: nat)
      requires Valid()
      modifies this, sender, sender.stream, receiver.reassembler.output
      ensures Valid() && Model() == TickBy(old(Model()), ms)
    {
      hide Good, Connections.TickSender, Flush, Steady;
      HandledGood(Model(), Elapse(ms));
      TickSender(ms);
      PopAndSendSegments();
      sinceReceived := sinceReceived + ms;
    }

    method TickSender(ms: nat)
      requires Whole() && Steady(sender.Model())
      modifies this`sent, sender, sender.stream, receiver.reassembler.output
      ensures Whole() && Model() == Connections.TickSender(old(Model()), ms)
    {
      hide Senders.Tick, Abort, Steady;
      sender.Tick(ms);
      if sender.retransmissions > MAX_RETX_ATTEMPTS {
        PositiveUncleanShutdown();
      }
    }

    /** Feeds an arriving segment to the receiver and to the sender, and answers it if need be. */
    method SegmentReceived(seg: Segment)
      requires Valid() && |seg.payload| < TWO64
      modifies this, sender, sender.stream, receiver, receiver.reassembler, receiver.reassembler.output
      ensures Valid() && Model() == Connections.SegmentReceived(old(Model()), seg)
    {
      hide Good, Connections.Active, Flush, TakeIn, TakeAck, Answer, Fail, Steady;
      ghost var c := Model();
      HandledGood(c, Arrive(seg));
      var live := Active();
      if !live {
        return;
      }
      sinceReceived := 0;
      assert Model() == c.(sinceReceived := 0);
      if seg.header.rst {
        FlagErrors();
        return;
      }
      assert TakeIn(Model(), seg) == TakeIn(c, seg) by { TakeInResets(c, seg); }
      TakeSegment(seg);
      PopAndSendSegments();
    }

    /** What segment_received does with a segment that is not a reset, up to sending. */
    method TakeSegment(seg: Segment)
      requires Whole() && Steady(sender.Model()) && |seg.payload| < TWO64 && sinceReceived == 0
      modifies this`linger, sender, sender.stream, receiver, receiver.reassembler, receiver.reassembler.output
      ensures Whole()
      ensures var c := TakeIn(old(Model()), seg);
              Model() == c.(sender := Answer(TakeAck(c.sender, seg), c.receiver, seg))
    {
      hide StampAll, Steady, Receive, Answer, Senders.AckReceived;
      if seg.header.fin && !sender.stream.ended {
        linger := false;
      }
      receiver.SegmentReceived(seg);
      if seg.header.ack {
        sender.AckReceived(seg.header.ackno, seg.header.win);
      }
      AnswerSegment(seg);
    }

    /** The replies of segment_received. */
    method AnswerSegment(seg: Segment)
      requires Whole()
      modifies sender, sender.stream
      ensures Whole() && Model() == old(Model()).(sender := Answer(old(sender.Model()), receiver.Model(), seg))
    {
      hide Senders.FillWindow, Senders.SendSegment;
      var ackno := receiver.Ackno();
      if ackno.Some? && seg.Length() == 0 && seg.header.seqno == (ackno.value - 1) % TWO32 {
        sender.SendEmptySegment();
      }
      if seg.Length() != 0 {
        sender.FillWindow();
        if |sender.queue| == 0 {
          sender.SendEmptySegment();
        }
      }
    }
  }

  lemma HandledGood(c: Connection, ev: Event)
    requires Good(c)
    ensures c.Streams() && Steady(c.sender) && Good(Handle(c, ev))
  {
    hide Handle, Sound, History;
    HandleGood(c, ev);
  }

  lemma TakeInResets(c: Connection, seg: Segment)
    requires c.Streams()
    ensures TakeIn(c.(sinceReceived := 0), seg) == TakeIn(c, seg)
  {
  }

  lemma StampNone(r: Receiver)
    ensures StampAll([], r) == []
  {
  }

  lemma StampFirst(queue: seq<Segment>, r: Receiver)
    requires queue != []
    ensures StampAll(queue, r) == [Stamp(queue[0], r)] + StampAll(queue[1..], r)
  {
  }
}
