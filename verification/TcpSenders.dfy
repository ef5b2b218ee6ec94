/** The sender as the class that updates its queues, counters and timer in place. */
module TcpSenders {
  import opened Words
  import opened Wrapping
  import opened ByteStreams
  import opened TcpSegments
  import opened Senders
  import opened SenderInvariant

  class TCPSender {
    const isn: U32
    const base: U16
    const stream: ByteStream
    var queue: seq<Segment>
    var outstanding: seq<Outstanding>
    var rto: U32
    var elapsed: U32
    var timerOn: bool
    var retransmissions: nat
    var next: nat
    var lastAck: nat
    var window: nat
    var mayProbe: bool
    var finSent: bool

    ghost predicate Valid()
      reads this, stream
    {
      stream.Valid() && Steady(Model())
    }

    ghost function Model(): Sender
      reads this, stream
    {
      Sender(isn, queue, outstanding, base, rto, elapsed, timerOn, retransmissions,
             stream.Model(), next, lastAck, window, mayProbe, finSent)
    }

    constructor (capacity: nat, timeout: U16, fixedIsn: U32)
      ensures Valid() && fresh(stream) && Model() == Closed(capacity, timeout, fixedIsn)
    {
      isn, base := fixedIsn, timeout;
      stream := new ByteStream(capacity);
      queue, outstanding := [], [];
      rto, elapsed, timerOn, retransmissions := timeout, 0, false, 0;
      next, lastAck, window, mayProbe, finSent := 0, 0, 1, false, false;
      new;
      ClosedIsSound(capacity, timeout, fixedIsn);
    }

    method BytesInFlight() returns (n: nat)
      requires Valid()
      ensures n == InFlight(outstanding) == next - Model().Front()
    {
      n := 0;
      for k := 0 to |outstanding|
        invariant n + InFlight(outstanding[k..]) == InFlight(outstanding)
      {
        assert outstanding[k..][1..] == outstanding[k + 1..];
        n := n + outstanding[k].seg.Length();
      }
      InFlightIsStretch(outstanding, next);
    }

    method SendSegment(seg: Segment, probe: bool)
      requires stream.Valid()
      modifies this
      ensures stream.Valid() && Model() == Senders.SendSegment(old(Model()), seg, probe)
    {
      var out := seg.(header := seg.header.(seqno := Wrap(next, isn)));
      var abs := next;
      next := next + out.Length();
      queue := queue + [out];
      if out.Length() != 0 {
        timerOn := true;
        outstanding := outstanding + [Outstanding(abs, probe, out)];
      }
    }

    method FillWindow()
      requires stream.Valid()
      modifies this, stream
      ensures stream.Valid() && Model() == Senders.FillWindow(old(Model()))
      ensures old(Valid()) ==> Valid()
    {
      hide Senders.SendSegment, SendLoop, Sound, OnlySends;
      if Steady(Model()) {
        FillSteady(Model());
      }
      if finSent {
        return;
      }
      if next == 0 {
        SendSegment(Segment(BLANK.(syn := true), []), false);
      }
      var budget := if lastAck + window >= next then lastAck + window - next else 0;
      var probe := false;
      if window == 0 && mayProbe {
        budget := budget + 1;
        probe := true;
        mayProbe := false;
      }
      SendWithin(budget, probe);
    }

    /** The loop of fill_window. */
    method SendWithin(allowed: nat, probe: bool)
      requires stream.Valid()
      modifies this, stream
      ensures stream.Valid() && Model() == SendLoop(old(Model()), allowed, probe)
    {
      hide Senders.SendSegment, SendLoop;
      var budget := allowed;
      while budget > 0
        invariant 0 <= budget && stream.Valid()
        invariant SendLoop(Model(), budget, probe) == SendLoop(old(Model()), allowed, probe)
        decreases budget
      {
        ghost var s, was := Model(), budget;
        LoopStep(s, was, probe);
        var payload := stream.Read(Min(budget, MAX_PAYLOAD));
        budget := budget - |payload|;
        var eof := stream.Eof();
        var fin := eof && budget > 0 && !finSent;
        if fin {
          finSent := true;
          budget := budget - 1;
        }
        var seg := Segment(BLANK.(fin := fin), payload);
        if seg.Length() == 0 {
          break;
        }
        SendSegment(seg, probe);
        assert Model() == Emit(s, Min(was, MAX_PAYLOAD), fin, probe);
      }
      LoopStep(Model(), 0, probe);
    }

    /** The loop of remove_outstanding_segments. */
    method PopAcknowledged() returns (popped: bool)
      modifies this`outstanding
      ensures outstanding == Unacked(old(outstanding), lastAck)
      ensures popped <==> |outstanding| < |old(outstanding)|
    {
      popped := false;
      while |outstanding| > 0
        invariant Unacked(outstanding, lastAck) == Unacked(old(outstanding), lastAck)
        invariant |outstanding| <= |old(outstanding)| && (popped <==> |outstanding| < |old(outstanding)|)
        decreases |outstanding|
      {
        if outstanding[0].abs + outstanding[0].seg.Length() <= lastAck {
          outstanding := outstanding[1..];
          popped := true;
        } else {
          break;
        }
      }
    }

    method RemoveOutstandingSegments()
      requires stream.Valid()
      modifies this
      ensures stream.Valid() && Model() == Retire(old(Model()))
    {
      hide Unacked;
      var popped := PopAcknowledged();
      if popped {
        elapsed, rto := 0, base;
        timerOn := |outstanding| != 0;
        retransmissions := 0;
      }
    }

    /** Acts on an acknowledgment, unless it comes before the SYN or from beyond what was sent. */
    method AckReceived(ackno: U32, win: U16)
      requires Valid()
      modifies this, stream
      ensures Valid() && Model() == Senders.AckReceived(old(Model()), ackno, win)
    {
      hide Steady, Unwrap, Senders.FillWindow, Retire;
      AckKeeps(Model(), ackno, win);
      if next == 0 {
        return;
      }
      var ack := Unwrap(ackno, isn, Low64(lastAck));
      if ack > next {
        return;
      }
      var edge := ack + win;
      lastAck := Max(lastAck, ack);
      if edge > lastAck {
        window := edge - lastAck;
      } else {
        window := 0;
        mayProbe := true;
      }
      RemoveOutstandingSegments();
      FillWindow();
    }

    /** The branch for an empty queue is never taken: Valid() says that the timer is off then. */
    method TimeoutRetransmission()
      requires stream.Valid()
      modifies this
      ensures stream.Valid() && Model().(timerOn := true, elapsed := 0) == Timeout(old(Model()))
    {
      if |outstanding| == 0 {
        timerOn, elapsed, rto, retransmissions := false, 0, base, 0;
        return;
      }
      queue := queue + [outstanding[0].seg];
      if !outstanding[0].probe {
        rto := (2 * rto) % TWO32;
        retransmissions := retransmissions + 1;
      }
    }

    method Tick(ms: nat)
      requires Valid()
      modifies this
      ensures Valid() && Model() == Senders.Tick(old(Model()), ms)
    {
      hide Steady, Timeout;
      TickSteady(Model(), ms);
      if !timerOn {
        return;
      }
      var now := (elapsed + ms) % TWO32;
      if now >= rto {
        TimeoutRetransmission();
        timerOn, elapsed := true, 0;
      } else {
        elapsed := now;
      }
    }

    method SendEmptySegment()
      requires stream.Valid()
      modifies this
      ensures stream.Valid() && Model() == SendEmpty(old(Model()))
    {
      SendSegment(Segment(BLANK, []), false);
    }
  }

  lemma LoopStep(s: Sender, budget: nat, probe: bool)
    requires s.stream.Valid()
    ensures var len, fin := Min(budget, MAX_PAYLOAD), FinNow(s, budget);
            SendLoop(s, budget, probe) ==
            if budget == 0 || (s.stream.Peek(len) == [] && !fin) then s
            else SendLoop(Emit(s, len, fin, probe), budget - |s.stream.Peek(len)| - (if fin then 1 else 0), probe)
  {
  }
}
