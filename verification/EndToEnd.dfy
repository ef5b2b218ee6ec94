/**
 Theorems over every run of two endpoints and the network between them.
 */
module EndToEnd {
  import opened Words
  import opened Wrapping
  import opened TcpSegments
  import opened Receivers
  import opened Senders
  import opened SenderInvariant
  import opened Connections
  import opened Endpoints
  import opened EndpointRuns
  import opened Closing
  import opened Network

  datatype System = System(a: Connection, b: Connection)

  /** Something happens at one of the two ends. */
  datatype Move = AtA(ev: Event) | AtB(ev: Event)

  /** Only what the peer has sent can arrive. */
  predicate Possible(sys: System, move: Move) {
    match move
    case AtA(ev) => ev.Arrive? ==> ev.seg in sys.b.sent
    case AtB(ev) => ev.Arrive? ==> ev.seg in sys.a.sent
  }

  /** One move; an impossible one leaves everything as it is. */
  function Make(sys: System, move: Move): System
    requires sys.a.Streams() && sys.b.Streams()
  {
    if !Possible(sys, move) then sys
    else
      match move
      case AtA(ev) => sys.(a := Handle(sys.a, ev))
      case AtB(ev) => sys.(b := Handle(sys.b, ev))
  }

  /** Under the bound of one turn for this direction, what dst has taken in stands to src as it should. */
  ghost predicate Joined(src: Connection, dst: Connection) {
    OneTurn(src.sender, dst.receiver) ==> Linked(src.sender, dst.receiver)
  }

  ghost predicate Coherent(sys: System) {
    && Good(sys.a) && Good(sys.b)
    && Joined(sys.a, sys.b) && Joined(sys.b, sys.a)
  }

  function Start(x: Config, y: Config): System {
    System(Opening(x.sendCapacity, x.receiveCapacity, x.timeout, x.isn),
           Opening(y.sendCapacity, y.receiveCapacity, y.timeout, y.isn))
  }

  lemma StartIsCoherent(x: Config, y: Config)
    ensures Coherent(Start(x, y))
  {
    BeginHolds(x.sendCapacity, x.receiveCapacity, x.timeout, x.isn);
    BeginHolds(y.sendCapacity, y.receiveCapacity, y.timeout, y.isn);
  }

  /** Every move keeps both ends good and each direction joined, whatever the other direction does. */
  lemma MoveKeeps(sys: System, move: Move)
    requires Coherent(sys)
    ensures sys.a.Streams() && sys.b.Streams() && Coherent(Make(sys, move))
  {
    hide Handle, Linked, Moved, Steady, History, OneTurn, Later;
    HandleGood(sys.a, move.ev);
    HandleGood(sys.b, move.ev);
    if Possible(sys, move) {
      match move
      case AtA(ev) => EventJoins(sys.a, ev, sys.b);
      case AtB(ev) => EventJoins(sys.b, ev, sys.a);
    }
  }

  /** An event at one end, seen as the sender of one direction and the receiver of the other. */
  lemma EventJoins(here: Connection, ev: Event, there: Connection)
    requires Good(here) && Good(there) && here.Streams()
    requires ev.Arrive? ==> ev.seg in there.sent
    requires Joined(here, there) && Joined(there, here)
    ensures Joined(Handle(here, ev), there) && Joined(there, Handle(here, ev))
  {
    hide Handle, Linked, Good, OneTurn;
    EventBounds(here, ev, there);
    if OneTurn(Handle(here, ev).sender, there.receiver) {
      SenderStep(here, ev, there);
    }
    if OneTurn(there.sender, Handle(here, ev).receiver) {
      ReceiverStep(there, here, ev);
    }
  }

  /** Streams only grow and capacities stay, so a bound that holds after an event held before. */
  lemma EventBounds(here: Connection, ev: Event, there: Connection)
    requires Good(here) && here.Streams()
    ensures OneTurn(Handle(here, ev).sender, there.receiver) ==> OneTurn(here.sender, there.receiver)
    ensures OneTurn(there.sender, Handle(here, ev).receiver) ==> OneTurn(there.sender, here.receiver)
    ensures |here.sender.stream.input| <= |Handle(here, ev).sender.stream.input|
  {
    hide Handle, Moved, Good, Grows;
    HandleGood(here, ev);
    StreamGrows(here, Handle(here, ev), ev);
    GrownStream(here.sender, Handle(here, ev).sender);
  }

  lemma GrownStream(s: Sender, t: Sender)
    requires Grows(s, t)
    ensures |s.stream.input| <= |t.stream.input|
  {
  }

  lemma StreamGrows(c: Connection, c': Connection, ev: Event)
    requires Moved(c, c', ev)
    ensures Grows(c.sender, c'.sender)
  {
    hide Grows;
  }

  /** The system after any list of moves. */
  ghost function Reach(x: Config, y: Config, moves: seq<Move>): (sys: System)
    ensures Coherent(sys)
  {
    if moves == [] then
      StartIsCoherent(x, y);
      Start(x, y)
    else
      var before := Reach(x, y, moves[..|moves| - 1]);
      MoveKeeps(before, moves[|moves| - 1]);
      Make(before, moves[|moves| - 1])
  }

  /** What the application at one end has written, and what has been put together at the other. */
  function Written(c: Connection): seq<Byte> {
    c.sender.stream.input
  }

  function Assembled(c: Connection): seq<Byte> {
    c.receiver.Output().input
  }

  /** dst has put together a prefix of what src has written, and once it has seen the end, all of it. */
  predicate Conveyed(src: Connection, dst: Connection) {
    && Assembled(dst) <= Written(src)
    && (dst.receiver.Output().ended ==> Assembled(dst) == Written(src) && src.sender.stream.ended)
  }

  /** End-to-end safety: in every run, whatever is lost, repeated or reordered, each end has put
      together a prefix of what the other has written, and once it has seen the end, all of it. The
      bound on one direction is all that this direction needs. */
  lemma Safety(x: Config, y: Config, moves: seq<Move>)
    ensures var sys := Reach(x, y, moves);
            && (OneTurn(sys.a.sender, sys.b.receiver) ==> Conveyed(sys.a, sys.b))
            && (OneTurn(sys.b.sender, sys.a.receiver) ==> Conveyed(sys.b, sys.a))
  {
    hide Reach, Linked, OneTurn;
    var sys := Reach(x, y, moves);
    if OneTurn(sys.a.sender, sys.b.receiver) {
      LinkedPrefix(sys.a.sender, sys.b.receiver);
    }
    if OneTurn(sys.b.sender, sys.a.receiver) {
      LinkedPrefix(sys.b.sender, sys.a.receiver);
    }
  }

  lemma LinkedPrefix(s: Sender, r: Receiver)
    requires Linked(s, r) && Sound(s)
    ensures r.Output().input <= s.stream.input
    ensures r.Output().ended ==> r.Output().input == s.stream.input && s.stream.ended
  {
    hide Faithful, Tiled, Timed;
  }

  /** What src takes for acknowledged dst has put together, and sequence number q, if it was sent
      and dst lacks it, is kept for retransmission. */
  ghost predicate AckSound(src: Connection, dst: Connection, q: nat) {
    && src.sender.lastAck <= dst.receiver.AbsAck()
    && (dst.receiver.AbsAck() <= q < src.sender.next ==>
          exists o :: o in src.sender.outstanding && o.abs <= q < o.End())
  }

  /** Acknowledgments are sound, and no data is forgotten, in every run and in both directions. */
  lemma AcksAreSound(x: Config, y: Config, moves: seq<Move>, q: nat)
    ensures var sys := Reach(x, y, moves);
            && (OneTurn(sys.a.sender, sys.b.receiver) ==> AckSound(sys.a, sys.b, q))
            && (OneTurn(sys.b.sender, sys.a.receiver) ==> AckSound(sys.b, sys.a, q))
  {
    hide Reach, Linked, OneTurn, AckSound;
    var sys := Reach(x, y, moves);
    if OneTurn(sys.a.sender, sys.b.receiver) {
      LinkedAckSound(sys.a, sys.b, q);
    }
    if OneTurn(sys.b.sender, sys.a.receiver) {
      LinkedAckSound(sys.b, sys.a, q);
    }
  }

  lemma LinkedAckSound(src: Connection, dst: Connection, q: nat)
    requires Good(src) && Linked(src.sender, dst.receiver)
    ensures AckSound(src, dst, q)
  {
    hide Faithful, Timed, History;
    var s := src.sender;
    LinkedAck(s, dst.receiver);
    SoundBounds(s);
    if dst.receiver.AbsAck() <= q < s.next {
      var o := CoveringSegment(s.outstanding, s.next, q);
    }
  }

  /** All that either has written has reached the other, and here has read all of it. */
  ghost predicate AllExchanged(here: Connection, there: Connection) {
    && Assembled(there) == Written(here) && there.receiver.Output().ended
    && Assembled(here) == Written(there)
    && here.receiver.Output().read == |Written(there)|
  }

  /** Over without an error, and the peer's window was open. */
  predicate ClosedClean(c: Connection) {
    !Failed(c) && !Active(c) && c.sender.window > 0
  }

  /** Either stream fits one turn of the sequence numbers together with its peer's window. */
  predicate Bounded(sys: System) {
    OneTurn(sys.a.sender, sys.b.receiver) && OneTurn(sys.b.sender, sys.a.receiver)
  }

  /** An end whose connection is over without an error, while the peer's window was open, has
      delivered its whole stream to the peer and has read the peer's whole stream. */
  lemma CleanCloseDelivers(x: Config, y: Config, moves: seq<Move>)
    ensures var sys := Reach(x, y, moves);
            Bounded(sys) ==>
              && (ClosedClean(sys.a) ==> AllExchanged(sys.a, sys.b))
              && (ClosedClean(sys.b) ==> AllExchanged(sys.b, sys.a))
  {
    hide Reach;
    var sys := Reach(x, y, moves);
    if Bounded(sys) {
      if ClosedClean(sys.a) {
        LinkedClose(sys.a, sys.b);
      }
      if ClosedClean(sys.b) {
        LinkedClose(sys.b, sys.a);
      }
    }
  }

  lemma LinkedClose(here: Connection, there: Connection)
    requires Good(here) && Good(there) && ClosedClean(here)
    requires Linked(here.sender, there.receiver) && Linked(there.sender, here.receiver)
    ensures AllExchanged(here, there)
  {
    hide Sound, Active, History;
    GoodClose(here);
    LinkedAll(here.sender, there.receiver);
    LinkedPrefix(here.sender, there.receiver);
    LinkedPrefix(there.sender, here.receiver);
  }

  lemma LinkedAll(s: Sender, r: Receiver)
    requires Linked(s, r) && AllAcknowledged(s)
    ensures r.Output().ended
  {
  }

  lemma ReachOneMore(x: Config, y: Config, moves: seq<Move>, move: Move)
    ensures var sys := Reach(x, y, moves);
            && sys.a.Streams() && sys.b.Streams() && Reach(x, y, moves + [move]) == Make(sys, move)
  {
    hide Make, Coherent;
    var all := moves + [move];
    assert all[..|all| - 1] == moves;
    MoveKeeps(Reach(x, y, moves), move);
  }

  /** The segment has been sent by src at number n and carries the very number that dst waits for. */
  ghost predicate Carrying(src: Connection, dst: Connection, seg: Segment, n: nat) {
    && seg in src.sent && Carries(seg, n, src.sender.isn, src.sender.stream, src.sender.next)
    && n <= dst.receiver.AbsAck() < n + seg.Length()
  }

  /** From c to c' the receiver has moved forward if and only if the connection was alive and its
      receiver could take in a segment at number n; otherwise what it acknowledges has stayed. */
  predicate AdvancesIff(c: Connection, c': Connection, n: nat) {
    var before, after := c.receiver.AbsAck(), c'.receiver.AbsAck();
    && (after > before <==> Active(c) && Takes(c.receiver, n))
    && (after == before <==> !(Active(c) && Takes(c.receiver, n)))
  }

  /** Progress in every run and in both directions: exactly when the delivery of a segment that carries
      what the peer waits for moves the peer forward. */
  lemma DeliveryAdvances(x: Config, y: Config, moves: seq<Move>, seg: Segment, n: nat)
    ensures var sys := Reach(x, y, moves);
            && (OneTurn(sys.a.sender, sys.b.receiver) && Carrying(sys.a, sys.b, seg, n) ==>
                  AdvancesIff(sys.b, Reach(x, y, moves + [AtB(Arrive(seg))]).b, n))
            && (OneTurn(sys.b.sender, sys.a.receiver) && Carrying(sys.b, sys.a, seg, n) ==>
                  AdvancesIff(sys.a, Reach(x, y, moves + [AtA(Arrive(seg))]).a, n))
  {
    hide Reach, AdvancesIff, Handle, Linked, OneTurn, Good, Carries;
    var sys := Reach(x, y, moves);
    ReachOneMore(x, y, moves, AtB(Arrive(seg)));
    ReachOneMore(x, y, moves, AtA(Arrive(seg)));
    if OneTurn(sys.a.sender, sys.b.receiver) && Carrying(sys.a, sys.b, seg, n) {
      ArrivalAdvances(sys.a, sys.b, seg, n);
    }
    if OneTurn(sys.b.sender, sys.a.receiver) && Carrying(sys.b, sys.a, seg, n) {
      ArrivalAdvances(sys.b, sys.a, seg, n);
    }
  }

  lemma ArrivalAdvances(src: Connection, dst: Connection, seg: Segment, n: nat)
    requires Good(src) && Good(dst) && dst.Streams()
    requires Linked(src.sender, dst.receiver) && OneTurn(src.sender, dst.receiver)
    requires Carrying(src, dst, seg, n)
    ensures AdvancesIff(dst, Handle(dst, Arrive(seg)), n)
  {
    hide Linked, Handle, Sound, WindowUsed, Receive, History, Takes, Active, OneTurn, SegmentReceived;
    assert !seg.header.rst;
    ArriveIs(dst, seg);
    if Active(dst) {
      TakeInGood(dst, seg);
      AwaitedSegmentAdvances(src.sender, dst.receiver, seg, n);
    } else {
      InactiveIgnores(dst, seg);
    }
  }

  /** A connection that is over drops whatever arrives. */
  lemma InactiveIgnores(c: Connection, seg: Segment)
    requires c.Streams() && !Active(c)
    ensures Handle(c, Arrive(seg)) == c
  {
    hide Active;
  }

  /** The oldest outstanding segment of src carries what r waits for. It always does once src has
      heard all acknowledgments of r. */
  predicate Awaited(src: Connection, r: Receiver) {
    src.sender.outstanding != [] && r.AbsAck() < src.sender.outstanding[0].End()
  }

  /** The timer of c expires within ms, and c does not give up. */
  predicate Retries(c: Connection, ms: nat)
    requires c.Streams()
  {
    Expires(c.sender, ms) && Handle(c, Elapse(ms)).sender.retransmissions <= MAX_RETX_ATTEMPTS
  }

  /** A tick that retries sends the oldest outstanding segment once more, at the end of what is sent. */
  lemma RetryCarries(src: Connection, ms: nat, dst: Connection)
    requires Good(src) && src.Streams() && Retries(src, ms) && Awaited(src, dst.receiver)
    requires Linked(src.sender, dst.receiver)
    ensures var src' := Handle(src, Elapse(ms));
            src'.sent != [] && Carrying(src', dst, Newest(src'), src.sender.outstanding[0].abs)
  {
    hide Handle, Linked, History, Tiled, Timed, Moved, Stamp;
    var s, o := src.sender, src.sender.outstanding[0];
    assert o in s.outstanding;
    ElapseIs(src, ms);
    GoodTimeout(src, ms);
    LinkedAck(s, dst.receiver);
    var src' := Handle(src, Elapse(ms));
    var seg := Stamp(o.seg, src.receiver);
    assert src'.sent[|src'.sent| - 1] == seg;
    HandleGood(src, Elapse(ms));
    StreamGrows(src, src', Elapse(ms));
    CarriesLater(o.seg, o.abs, s, src'.sender);
    StampCarries(o.seg, o.abs, src'.sender, src.receiver);
  }

  lemma StampCarries(seg: Segment, n: nat, s: Sender, r: Receiver)
    requires Carries(seg, n, s.isn, s.stream, s.next)
    ensures Carries(Stamp(seg, r), n, s.isn, s.stream, s.next) && Stamp(seg, r).Length() == seg.Length()
  {
    hide Wrap;
  }

  /** The segment that c has sent last. */
  function Newest(c: Connection): Segment {
    if c.sent == [] then Segment(BLANK, []) else c.sent[|c.sent| - 1]
  }

  /** The timer of src expires while dst waits for the oldest outstanding segment of src. */
  predicate Due(src: Connection, dst: Connection, ms: nat)
    requires src.Streams()
  {
    OneTurn(src.sender, dst.receiver) && Awaited(src, dst.receiver) && Retries(src, ms)
  }

  /** The whole way of a retransmission, in every run and in both directions: the timer expires, the
      oldest outstanding segment is sent again, and its delivery moves a peer that waits for it
      forward if and only if the peer is alive and can take it in. */
  lemma RetransmissionAdvances(x: Config, y: Config, moves: seq<Move>, ms: nat)
    ensures var sys := Reach(x, y, moves);
            && sys.a.Streams() && sys.b.Streams()
            && (Due(sys.a, sys.b, ms) ==>
                  var mid := moves + [AtA(Elapse(ms))];
                  var seg := Newest(Reach(x, y, mid).a);
                  && seg in Reach(x, y, mid).a.sent
                  && AdvancesIff(sys.b, Reach(x, y, mid + [AtB(Arrive(seg))]).b, sys.a.sender.outstanding[0].abs))
            && (Due(sys.b, sys.a, ms) ==>
                  var mid := moves + [AtB(Elapse(ms))];
                  var seg := Newest(Reach(x, y, mid).b);
                  && seg in Reach(x, y, mid).b.sent
                  && AdvancesIff(sys.a, Reach(x, y, mid + [AtA(Arrive(seg))]).a, sys.b.sender.outstanding[0].abs))
  {
    hide Reach, AdvancesIff, Handle, Linked, OneTurn, Good, Carries, Retries;
    var sys := Reach(x, y, moves);
    ReachOneMore(x, y, moves, AtA(Elapse(ms)));
    ReachOneMore(x, y, moves, AtB(Elapse(ms)));
    if Due(sys.a, sys.b, ms) {
      RetryCarries(sys.a, ms, sys.b);
      TickBounds(sys.a, ms, sys.b);
      var mid := moves + [AtA(Elapse(ms))];
      DeliveryAdvances(x, y, mid, Newest(Reach(x, y, mid).a), sys.a.sender.outstanding[0].abs);
    }
    if Due(sys.b, sys.a, ms) {
      RetryCarries(sys.b, ms, sys.a);
      TickBounds(sys.b, ms, sys.a);
      var mid := moves + [AtB(Elapse(ms))];
      DeliveryAdvances(x, y, mid, Newest(Reach(x, y, mid).b), sys.b.sender.outstanding[0].abs);
    }
  }

  lemma TickBounds(src: Connection, ms: nat, dst: Connection)
    requires Good(src) && src.Streams()
    ensures OneTurn(src.sender, dst.receiver) ==> OneTurn(Handle(src, Elapse(ms)).sender, dst.receiver)
  {
    hide Handle, TickBy;
    ElapseIs(src, ms);
    TickStream(src, ms);
  }

  /** The same moves with the two ends exchanged. */
  function Mirror(moves: seq<Move>): (ms: seq<Move>)
    ensures |ms| == |moves|
    ensures forall k :: 0 <= k < |moves| ==> ms[k] == if moves[k].AtA? then AtB(moves[k].ev) else AtA(moves[k].ev)
  {
    seq(|moves|, k requires 0 <= k < |moves| => if moves[k].AtA? then AtB(moves[k].ev) else AtA(moves[k].ev))
  }

  /** Nothing tells the two ends apart: with the ends exchanged the run is the same, so that every
      theorem about what passes from a to b holds from b to a as well. */
  lemma {:induction false} MirrorReach(x: Config, y: Config, moves: seq<Move>)
    ensures Reach(y, x, Mirror(moves)) == System(Reach(x, y, moves).b, Reach(x, y, moves).a)
  {
    hide Handle, Coherent;
    if moves != [] {
      var n := |moves| - 1;
      MirrorReach(x, y, moves[..n]);
      assert Mirror(moves)[..n] == Mirror(moves[..n]);
      hide Reach;
      ReachOneMore(x, y, moves[..n], moves[n]);
      ReachOneMore(y, x, Mirror(moves[..n]), Mirror(moves)[n]);
      assert moves[..n] + [moves[n]] == moves && Mirror(moves[..n]) + [Mirror(moves)[n]] == Mirror(moves);
    }
  }

  /** The events at either end, leaving out the arrivals that are not possible. */
  ghost function EventsAt(x: Config, y: Config, moves: seq<Move>): (es: (seq<Event>, seq<Event>)) {
    if moves == [] then ([], [])
    else
      var n := |moves| - 1;
      var es := EventsAt(x, y, moves[..n]);
      if !Possible(Reach(x, y, moves[..n]), moves[n]) then es
      else if moves[n].AtA? then (es.0 + [moves[n].ev], es.1)
      else (es.0, es.1 + [moves[n].ev])
  }

  /** Either end of a two-ended run has gone through a run of its own, so that what holds in every run
      of one connection holds at both ends. */
  lemma {:induction false} EndsAreRuns(x: Config, y: Config, moves: seq<Move>)
    ensures Reach(x, y, moves).a == After(x, EventsAt(x, y, moves).0).conn
    ensures Reach(x, y, moves).b == After(y, EventsAt(x, y, moves).1).conn
  {
    hide Handle, Coherent, Invariant, Possible, Step, Good, Reach, After, EventsAt;
    if moves == [] {
      EndsStart(x, y);
    } else {
      var n := |moves| - 1;
      EndsAreRuns(x, y, moves[..n]);
      EventsOneMore(x, y, moves);
      var es := EventsAt(x, y, moves[..n]);
      AfterOneMore(x, es.0, moves[n].ev);
      AfterOneMore(y, es.1, moves[n].ev);
      assert moves[..n] + [moves[n]] == moves;
      ReachOneMore(x, y, moves[..n], moves[n]);
    }
  }

  lemma EndsStart(x: Config, y: Config)
    ensures EventsAt(x, y, []) == ([], [])
    ensures Reach(x, y, []) == System(After(x, []).conn, After(y, []).conn)
  {
    hide Invariant, Coherent;
  }

  lemma EventsOneMore(x: Config, y: Config, moves: seq<Move>)
    requires moves != []
    ensures var n := |moves| - 1;
            var es, all := EventsAt(x, y, moves[..n]), EventsAt(x, y, moves);
            if !Possible(Reach(x, y, moves[..n]), moves[n]) then all == es
            else if moves[n].AtA? then all == (es.0 + [moves[n].ev], es.1)
            else all == (es.0, es.1 + [moves[n].ev])
  {
    hide Reach, Possible;
  }

  /** All numbers of the stream stay below 2^31 - 1, and within one turn with the peer's window. */
  predicate Short(src: Connection, dst: Connection) {
    OneTurn(src.sender, dst.receiver) && |Written(src)| + 2 < TWO31 - 1
  }

  /** A shifted receiver is stalled for good: whatever happens at either end, as long as the stream stays
      short, not one more byte is put together. */
  lemma StalledForGood(x: Config, y: Config, moves: seq<Move>, more: seq<Move>)
    ensures var sys, later := Reach(x, y, moves), Reach(x, y, moves + more);
            && (Shifted(sys.b.receiver) && Short(later.a, later.b) ==>
                  Shifted(later.b.receiver) && Assembled(later.b) == Assembled(sys.b))
            && (Shifted(sys.a.receiver) && Short(later.b, later.a) ==>
                  Shifted(later.a.receiver) && Assembled(later.a) == Assembled(sys.a))
  {
    hide Reach, Shifted, Short, Mirror, Coherent;
    StalledAtB(x, y, moves, more);
    StalledAtB(y, x, Mirror(moves), Mirror(more));
    MirrorReach(x, y, moves);
    MirrorReach(x, y, moves + more);
    MirrorJoin(moves, more);
  }

  lemma MirrorJoin(moves: seq<Move>, more: seq<Move>)
    ensures Mirror(moves + more) == Mirror(moves) + Mirror(more)
  {
  }

  lemma {:induction false} StalledAtB(x: Config, y: Config, moves: seq<Move>, more: seq<Move>)
    ensures var sys, later := Reach(x, y, moves), Reach(x, y, moves + more);
            Shifted(sys.b.receiver) && Short(later.a, later.b) ==>
              Shifted(later.b.receiver) && Assembled(later.b) == Assembled(sys.b)
    decreases |more|
  {
    hide Reach, Shifted, Short, Coherent, Make;
    if more == [] {
      assert moves + more == moves;
    } else {
      var n := |more| - 1;
      StalledAtB(x, y, moves, more[..n]);
      assert moves + more == moves + more[..n] + [more[n]];
      ReachOneMore(x, y, moves + more[..n], more[n]);
      StalledMove(Reach(x, y, moves + more[..n]), more[n]);
    }
  }

  lemma StalledMove(sys: System, move: Move)
    requires Coherent(sys) && sys.a.Streams() && sys.b.Streams()
    ensures var later := Make(sys, move);
            Short(later.a, later.b) ==>
              && Short(sys.a, sys.b)
              && (Shifted(sys.b.receiver) ==>
                    Shifted(later.b.receiver) && Assembled(later.b) == Assembled(sys.b))
  {
    hide Handle, Linked, Good, Shifted, OneTurn;
    if Possible(sys, move) {
      match move
      case AtA(ev) => EventBounds(sys.a, ev, sys.b);
      case AtB(ev) =>
        EventBounds(sys.b, ev, sys.a);
        if Short(sys.a, sys.b) && Shifted(sys.b.receiver) {
          StalledEvent(sys.a, sys.b, ev);
        }
    }
  }

  lemma StalledEvent(src: Connection, dst: Connection, ev: Event)
    requires Good(src) && Good(dst) && dst.Streams() && (ev.Arrive? ==> ev.seg in src.sent)
    requires Linked(src.sender, dst.receiver) && Short(src, dst) && Shifted(dst.receiver)
    ensures var dst' := Handle(dst, ev);
            Shifted(dst'.receiver) && Assembled(dst') == Assembled(dst)
  {
    hide Handle, Linked, Steady, Receive, OneTurn, Acknowledges, Emitted;
    var r := dst.receiver;
    ReceiverAfter(dst, ev);
    if ev.Arrive? {
      LowSegment(src.sender, r, ev.seg);
      StalledStep(r, ev.seg);
    }
  }

  lemma ReceiverAfter(c: Connection, ev: Event)
    requires c.Streams()
    ensures var r, r' := c.receiver, Handle(c, ev).receiver;
            || r' == r || r' == Flagged(r)
            || (ev.Fetch? && r' == AppReads(r, ev.len)) || (ev.Arrive? && r' == Receive(r, ev.seg))
  {
    hide Receive, FillWindow, Answer, TakeAck, Tick, SendReset, StampAll, Active;
  }

  lemma LowSegment(s: Sender, r: Receiver, seg: Segment)
    requires Steady(s) && Linked(s, r) && r.synReceived && Emitted(seg, s) && |s.stream.input| + 2 < TWO31 - 1
    ensures Offset(seg.header.seqno, r.isn) < TWO31 - 1
  {
    hide Faithful, Tiled, Timed, Wrap, Offset;
    var n: nat :| Carries(seg, n, s.isn, s.stream, s.next);
    OffsetOfWrap(n, s.isn);
  }

  /** An end that has heard all acknowledgments of its peer and has something outstanding has what
      the peer waits for. */
  lemma HeardAllIsAwaited(x: Config, y: Config, moves: seq<Move>)
    ensures var sys := Reach(x, y, moves);
            && (sys.a.sender.outstanding != [] && sys.a.sender.lastAck == sys.b.receiver.AbsAck() ==>
                  Awaited(sys.a, sys.b.receiver))
            && (sys.b.sender.outstanding != [] && sys.b.sender.lastAck == sys.a.receiver.AbsAck() ==>
                  Awaited(sys.b, sys.a.receiver))
  {
    hide Reach, Faithful, Tiled, Timed, History;
  }

  /** The segment has been sent by there and acknowledges everything before number n. */
  ghost predicate Acking(there: Connection, seg: Segment, n: nat) {
    && seg in there.sent && !seg.header.rst && seg.header.ack
    && there.receiver.synReceived && 1 <= n <= there.receiver.AbsAck()
    && seg.header.ackno == Wrap(n, there.receiver.isn)
  }

  /** From here to here' the acknowledgment up to n has been noted, if the connection was alive and n
      does not lie more than 2^31 behind. */
  predicate NotesAck(here: Connection, here': Connection, n: nat) {
    here'.sender.lastAck ==
    if Active(here) && here.sender.lastAck - n <= TWO31 then Max(here.sender.lastAck, n) else here.sender.lastAck
  }

  /** In every run and in both directions: an acknowledgment that is delivered, however old, is read as what
      the peer meant by it. */
  lemma AckDelivery(x: Config, y: Config, moves: seq<Move>, seg: Segment, n: nat)
    ensures var sys := Reach(x, y, moves);
            && (OneTurn(sys.a.sender, sys.b.receiver) && Acking(sys.b, seg, n) ==>
                  NotesAck(sys.a, Reach(x, y, moves + [AtA(Arrive(seg))]).a, n))
            && (OneTurn(sys.b.sender, sys.a.receiver) && Acking(sys.a, seg, n) ==>
                  NotesAck(sys.b, Reach(x, y, moves + [AtB(Arrive(seg))]).b, n))
  {
    hide Reach, Handle, Linked, OneTurn, Good, NotesAck, Wrap;
    var sys := Reach(x, y, moves);
    ReachOneMore(x, y, moves, AtA(Arrive(seg)));
    ReachOneMore(x, y, moves, AtB(Arrive(seg)));
    if OneTurn(sys.a.sender, sys.b.receiver) && Acking(sys.b, seg, n) {
      ArrivalAcks(sys.a, sys.b, seg, n);
    }
    if OneTurn(sys.b.sender, sys.a.receiver) && Acking(sys.a, seg, n) {
      ArrivalAcks(sys.b, sys.a, seg, n);
    }
  }

  lemma ArrivalAcks(here: Connection, there: Connection, seg: Segment, n: nat)
    requires Good(here) && here.Streams()
    requires Linked(here.sender, there.receiver) && OneTurn(here.sender, there.receiver)
    requires Acking(there, seg, n)
    ensures NotesAck(here, Handle(here, Arrive(seg)), n)
  {
    hide Handle, Linked, OneTurn, Sound, WindowUsed, History, Active, AckValue, Accepts, Wrap;
    AckReadExactly(here.sender, there.receiver, n);
    HandleGood(here, Arrive(seg));
  }
}
