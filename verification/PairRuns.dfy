/**
 Concrete runs of two endpoints.
 */
module PairRuns {
  import opened Words
  import opened Wrapping
  import opened Reassembly
  import opened TcpSegments
  import opened Receivers
  import opened Senders
  import opened SenderInvariant
  import opened Connections
  import opened Endpoints
  import opened EndpointRuns
  import opened Closing
  import opened ConcreteRuns
  import opened Network
  import opened EndToEnd

  /** Two plain endpoints after these moves. */
  ghost function Pair(moves: seq<Move>): System {
    Reach(PLAIN_CONFIG, PLAIN_CONFIG, moves)
  }

  lemma NoMoves()
    ensures Pair([]) == System(Opening(10, 10, 1000, 0), Opening(10, 10, 1000, 0))
  {
  }

  /** One more move, when what arrives has been sent. */
  lemma Then(moves: seq<Move>, move: Move)
    requires Possible(Pair(moves), move)
    ensures var sys, later := Pair(moves), Pair(moves + [move]);
            && sys.a.Streams() && sys.b.Streams()
            && later == if move.AtA? then sys.(a := Handle(sys.a, move.ev)) else sys.(b := Handle(sys.b, move.ev))
  {
    hide Reach, Handle;
    ReachOneMore(PLAIN_CONFIG, PLAIN_CONFIG, moves, move);
  }

  /** Long enough for a timeout that has been doubled 8 times. */
  const LONG: Event := Elapse(256000)

  /** The SYN is out, unanswered, and has been sent again k times. */
  ghost predicate Trying(c: Connection, k: nat) {
    && Good(c) && c.Streams() && c.receiver == Listening(10) && !Failed(c)
    && c.sender.base == 1000 && c.sender.elapsed == 0 && c.sender.retransmissions == k
    && c.sender.outstanding != [] && !c.sender.outstanding[0].probe
  }

  /** The timeout has been doubled k times, and is over. */
  lemma LongEnough(s: Sender, k: nat)
    requires Sound(s) && s.base == 1000 && s.elapsed == 0 && s.retransmissions == k <= 8 && s.outstanding != []
    ensures Expires(s, 256000)
  {
    hide Faithful, Tiled, Pow2;
    PowerUpTo(k);
    ExactTimeout(1000, k);
  }

  lemma PowerUpTo(k: nat)
    requires k <= 8
    ensures Pow2(k) <= 256
  {
    assert Pow2(4) == 16;
    assert Pow2(8) == 16 * Pow2(4);
    if k < 8 {
      PowerStep(k, 8);
    }
  }

  lemma {:induction false} PowerStep(k: nat, n: nat)
    requires k <= n
    ensures Pow2(k) <= Pow2(n)
  {
    if k < n {
      PowerStep(k, n - 1);
    }
  }

  /** What a tick leaves as it is. */
  lemma TickLeaves(c: Connection, ms: nat)
    requires Good(c) && c.Streams()
    ensures var c' := Handle(c, Elapse(ms));
            && c'.sender.outstanding == c.sender.outstanding && c'.sender.base == c.sender.base
            && c'.sender.retransmissions == Tick(c.sender, ms).retransmissions
            && c'.sender.elapsed == Tick(c.sender, ms).elapsed
            && (if c'.sender.retransmissions > MAX_RETX_ATTEMPTS then c'.receiver == Flagged(c.receiver)
                else c'.receiver == c.receiver)
  {
    hide Steady, History, Tick, StampAll;
    SteadySound(c.sender);
    TickKeeps(c.sender, ms);
    ElapseIs(c, ms);
  }

  lemma TryAgain(c: Connection, k: nat)
    requires Trying(c, k) && k < 8
    ensures Trying(Handle(c, LONG), k + 1)
  {
    hide Handle, Steady, History, Tick, Active, Follows;
    SteadySound(c.sender);
    LongEnough(c.sender, k);
    TickFires(c.sender, 256000);
    TickLeaves(c, 256000);
    HandleGood(c, LONG);
    HandleGood(Handle(c, LONG), Open);
    HandleStream(c, LONG);
    HandleOutput(c, LONG);
  }

  lemma SteadySound(s: Sender)
    requires Steady(s)
    ensures Sound(s)
  {
    hide Sound;
  }

  /** Given up: it has failed and is over, but its receiver could still take in a SYN. */
  predicate GivenUp(c: Connection) {
    c.Streams() && Failed(c) && !Active(c) && !c.receiver.synReceived
  }

  lemma GivesUp(c: Connection)
    requires Trying(c, 8)
    ensures GivenUp(Handle(c, LONG))
  {
    hide Handle, Steady, History, Tick;
    SteadySound(c.sender);
    LongEnough(c.sender, 8);
    TickFires(c.sender, 256000);
    TickLeaves(c, 256000);
    HandleGood(c, LONG);
    HandleGood(Handle(c, LONG), Open);
  }

  function Ticks(k: nat): (ms: seq<Move>)
    ensures |ms| == k
  {
    seq(k, _ => AtB(LONG))
  }

  /** One end opens; the other opens as well, hears nothing, and tries again k times. */
  function Deaf(k: nat): seq<Move> {
    [AtA(Open)] + [AtB(Open)] + Ticks(k)
  }

  lemma BothOpen()
    ensures var sys := Pair([AtA(Open)] + [AtB(Open)]);
            Trying(sys.b, 0) && sys.a == Handle(Opening(10, 10, 1000, 0), Open) && sys.a.sent == [OPENER]
  {
    hide Handle, Good, Pair;
    NoMoves();
    Then([], AtA(Open));
    assert [] + [AtA(Open)] == [AtA(Open)];
    Then([AtA(Open)], AtB(Open));
    AfterOpen(Opening(10, 10, 1000, 0));
    OpenBase();
    HandleGood(Opening(10, 10, 1000, 0), Open);
  }

  lemma OpenBase()
    ensures var c := Handle(Opening(10, 10, 1000, 0), Open);
            c.sender.base == 1000 && !Failed(c)
    ensures Good(Opening(10, 10, 1000, 0))
  {
    assert Good(Opening(10, 10, 1000, 0)) by {
      hide Good;
      BeginHolds(10, 10, 1000, 0);
    }
    hide Good;
  }

  lemma DeafNext(k: nat)
    ensures Deaf(0) == [AtA(Open)] + [AtB(Open)]
    ensures Deaf(k + 1) == Deaf(k) + [AtB(LONG)]
  {
  }

  lemma {:induction false} DeafRun(k: nat)
    requires k <= 8
    ensures var sys := Pair(Deaf(k));
            Trying(sys.b, k) && sys.a == Handle(Opening(10, 10, 1000, 0), Open) && sys.a.sent == [OPENER]
  {
    hide Pair, Handle, Trying, Deaf;
    if k == 0 {
      DeafNext(0);
      BothOpen();
    } else {
      DeafRun(k - 1);
      DeafNext(k - 1);
      Then(Deaf(k - 1), AtB(LONG));
      TryAgain(Pair(Deaf(k - 1)).b, k - 1);
    }
  }

  /** A peer that could take in the segment it waits for, but has given up: the SYN is delivered, and
      nothing moves. */
  lemma InactivePeerDrops()
    ensures var sys := Pair(Deaf(9));
            && Carrying(sys.a, sys.b, OPENER, 0) && Takes(sys.b.receiver, 0) && !Active(sys.b)
            && Pair(Deaf(9) + [AtB(Arrive(OPENER))]).b == sys.b
  {
    hide Pair, Handle, Trying, Active, Carries, Deaf;
    DeafRun(8);
    DeafNext(8);
    Then(Deaf(8), AtB(LONG));
    GivesUp(Pair(Deaf(8)).b);
    Then(Deaf(9), AtB(Arrive(OPENER)));
    InactiveIgnores(Pair(Deaf(9)).b, OPENER);
    OpenerCarries();
  }

  lemma OpenerCarries()
    ensures var s := Handle(Opening(10, 10, 1000, 0), Open).sender;
            Carries(OPENER, 0, s.isn, s.stream, s.next)
  {
    hide Handle;
    AfterOpen(Opening(10, 10, 1000, 0));
    WrapZero(0);
  }

  /** A byte at number seqno, from an end that has taken in its peer's SYN. */
  function Byte7(seqno: U32): Segment {
    Segment(BLANK.(seqno := seqno, ack := true, ackno := 1, win := 10), [7])
  }

  /** The handshake, two bytes in two segments, and then the SYN delivered once more. */
  const REPEATED: seq<Move> :=
    [AtA(Open), AtB(Arrive(OPENER)), AtA(Arrive(SYN_ACK)), AtA(Send([7])), AtA(Send([7])),
     AtB(Arrive(Byte7(1))), AtB(Arrive(Byte7(2))), AtB(Arrive(OPENER))]

  /** Alive, with a stream that is open and a receiver that has taken in a SYN. */
  ghost predicate Hears(c: Connection, r: Receiver) {
    Good(c) && c.Streams() && !Failed(c) && !c.sender.stream.ended && c.receiver == r
  }

  /** What a segment does to a connection that is alive: its receiver takes it in. */
  lemma Hearing(c: Connection, seg: Segment)
    requires Hears(c, c.receiver) && !seg.header.rst
    ensures Hears(Handle(c, Arrive(seg)), Receive(c.receiver, seg))
    ensures c.sent <= Handle(c, Arrive(seg)).sent
  {
    hide Handle, Steady, History, Receive;
    HandleGood(c, Arrive(seg));
    HandleGood(Handle(c, Arrive(seg)), Open);
    HandleStream(c, Arrive(seg));
    HandleOutput(c, Arrive(seg));
    ArriveIs(c, seg);
    TakeInGood(c, seg);
  }

  lemma OpenerTaken()
    ensures Receive(Listening(10), OPENER) == Synced()
  {
    hide Push;
    PushEmpty();
    WrapZero(0);
    RoundTripIff(0, 0, 0);
  }

  /** The peer answers the SYN with its own. */
  lemma AnswersOpener()
    ensures var c := Handle(Opening(10, 10, 1000, 0), Arrive(OPENER));
            c.sent == [SYN_ACK]
  {
    hide Receive, FillWindow, StampAll;
    var c := Opening(10, 10, 1000, 0);
    OpenerTaken();
    SynQueued();
    var r := Synced();
    StampSingle(Segment(BLANK.(syn := true), []), r);
    assert Wrap(1, 0) == 1;
    ArriveIs(c, OPENER);
  }

  lemma SynQueued()
    ensures FillWindow(Closed(10, 1000, 0)).queue == [Segment(BLANK.(syn := true), [])]
  {
    WrapZero(0);
  }

  /** Everything written is sent, and the window is open. */
  predicate Idle(s: Sender, window: nat) {
    && s.stream.Valid() && s.stream.Buffered() == 0 && !s.stream.ended && s.stream.Remaining() > 0
    && 0 < s.next < s.lastAck + s.window == window && s.window > 0 && !s.finSent && s.isn == 0
  }

  /** Writing one byte then sends it in a segment of its own. */
  lemma SendsByte(s: Sender, window: nat)
    requires Idle(s, window)
    ensures var t := FillWindow(s.(stream := s.stream.Write([7])));
            && t.queue == s.queue + [Segment(BLANK.(seqno := Wrap(s.next, s.isn)), [7])]
            && t == s.(stream := t.stream, next := s.next + 1, queue := t.queue, outstanding := t.outstanding,
                       timerOn := t.timerOn)
            && t.stream == s.stream.(input := s.stream.input + [7], read := s.stream.read + 1)
  {
    hide SendLoop, Emit;
    var u := s.(stream := s.stream.Write([7]));
    var budget, len := Room(u), Min(Room(u), MAX_PAYLOAD);
    EmitsByte(s, u, len);
    ByteLoop(u, budget);
    LoopEnds(Emit(u, len, false, false), budget - 1);
  }

  lemma EmitsByte(s: Sender, u: Sender, len: nat)
    requires s.stream.Valid() && s.stream.Buffered() == 0 && s.stream.Remaining() > 0 && !s.stream.ended && len > 0
    requires u == s.(stream := s.stream.Write([7]))
    ensures u.stream.Peek(len) == [7] && !u.stream.ended
    ensures var t := Emit(u, len, false, false);
            && t.queue == s.queue + [Segment(BLANK.(seqno := Wrap(s.next, s.isn)), [7])]
            && t == s.(stream := t.stream, next := s.next + 1, queue := t.queue, outstanding := t.outstanding,
                       timerOn := t.timerOn)
            && t.stream == s.stream.(input := s.stream.input + [7], read := s.stream.read + 1)
  {
    hide Wrap;
    assert [7][..1] == [7];
  }

  lemma ByteLoop(u: Sender, budget: nat)
    requires u.stream.Valid() && budget > 0 && !u.stream.ended
    requires u.stream.Peek(Min(budget, MAX_PAYLOAD)) == [7]
    ensures SendLoop(u, budget, false)
            == SendLoop(Emit(u, Min(budget, MAX_PAYLOAD), false, false), budget - 1, false)
  {
    hide Emit;
  }

  /** The same for a connection that has taken in the peer's SYN and nothing else. */
  lemma SendsByteOn(c: Connection, window: nat)
    requires Good(c) && c.Streams() && Idle(c.sender, window) && c.sender.stream.Remaining() > 1
    requires c.receiver == Synced() && c.sender.next < 10
    ensures var c' := Handle(c, Send([7]));
            && Good(c') && c'.Streams() && c'.receiver == c.receiver
            && c'.sent == c.sent + [Byte7(c.sender.next)]
            && c'.sender.next == c.sender.next + 1 && (c'.sender.next < window ==> Idle(c'.sender, window))
  {
    hide FillWindow, StampAll, Stamp, Steady, History, Handle, Wrap, Moved, Later, Idle;
    HandleGood(c, Send([7]));
    HandleGood(Handle(c, Send([7])), Open);
    SendsByte(c.sender, window);
    QueueEmpty(c);
    var t := FillWindow(c.sender.(stream := c.sender.stream.Write([7])));
    var seg := Segment(BLANK.(seqno := Wrap(c.sender.next, c.sender.isn)), [7]);
    assert t.queue == [seg];
    StampSingle(seg, c.receiver);
    StampsByte(c.sender, window);
    WriteIs(c);
    StaysIdle(c.sender, t, window);
  }

  lemma QueueEmpty(c: Connection)
    requires Good(c)
    ensures c.sender.queue == []
  {
    hide Steady, History;
  }

  lemma StampsByte(s: Sender, window: nat)
    requires Idle(s, window) && s.next < 10
    ensures Stamp(Segment(BLANK.(seqno := Wrap(s.next, s.isn)), [7]), Synced()) == Byte7(s.next)
  {
    hide Wrap;
    SmallWrap(1);
    SmallWrap(s.next);
  }

  lemma StaysIdle(s: Sender, t: Sender, window: nat)
    requires Idle(s, window) && s.stream.Remaining() > 1
    requires t.stream == s.stream.(input := s.stream.input + [7], read := s.stream.read + 1)
    requires t == s.(stream := t.stream, next := s.next + 1, queue := t.queue, outstanding := t.outstanding,
                     timerOn := t.timerOn)
    ensures t.next < window ==> Idle(t.(queue := []), window)
  {
  }

  lemma SmallWrap(x: nat)
    requires x < 10
    ensures Wrap(x, 0) == x
  {
  }

  lemma WriteIs(c: Connection)
    requires c.Streams()
    ensures var t := FillWindow(c.sender.(stream := c.sender.stream.Write([7])));
            Handle(c, Send([7])) == c.(sender := t.(queue := []), sent := c.sent + StampAll(t.queue, c.receiver))
  {
    hide FillWindow, StampAll;
  }

  /** The receiver that has taken in the SYN and nothing else. */
  function Synced(): Receiver {
    Receiver(Empty(10), true, 0, 0)
  }

  lemma TwoBytesHeard()
    ensures Synced().Valid()
    ensures var r2 := Receive(Synced(), Byte7(1));
            && r2.Valid()
            && var r3 := Receive(r2, Byte7(2));
            && r3.Valid() && Shifted(Receive(r3, OPENER))
  {
    hide Push, Unwrap;
    var r1 := Synced();
    var r2 := Receive(r1, Byte7(1));
    ReceiveKeeps(r1, Byte7(1));
    ReceiveKeeps(r2, Byte7(2));
    assert Wrap(1, 0) == 1 && Wrap(2, 0) == 2;
    RoundTripIff(1, 0, 0);
    assert r2.lastStreamNo == 0;
    RoundTripIff(2, 0, 0);
    var r3 := Receive(r2, Byte7(2));
    assert r3.lastStreamNo == 1;
    WindowStays(r1, Byte7(1), 10);
    WindowStays(r2, Byte7(2), 10);
    RepeatedSynShifts(r3, OPENER);
  }

  /** The handshake: a is established, and b has taken in the SYN. */
  lemma Handshake()
    ensures var sys := Pair([AtA(Open)] + [AtB(Arrive(OPENER))] + [AtA(Arrive(SYN_ACK))]);
            Established(sys.a) && Hears(sys.b, Synced()) && OPENER in sys.a.sent
  {
    hide Handle, Good, Receive, Listening;
    NoMoves();
    hide Pair;
    Then([], AtA(Open));
    assert [] + [AtA(Open)] == [AtA(Open)];
    AfterOpen(Opening(10, 10, 1000, 0));
    OpenBase();
    var start := Pair([]);
    HandleGood(start.a, Open);
    Then([AtA(Open)], AtB(Arrive(OPENER)));
    Hearing(start.b, OPENER);
    OpenerTaken();
    AnswersOpener();
    Then([AtA(Open)] + [AtB(Arrive(OPENER))], AtA(Arrive(SYN_ACK)));
    var a := Handle(start.a, Open);
    Accepted(a);
    Hearing(a, SYN_ACK);
    assert OPENER == a.sent[0];
  }

  /** Both bytes are sent, each in a segment of its own. */
  lemma TwoBytesSent(c: Connection)
    requires Established(c)
    ensures var d := Handle(c, Send([7]));
            && d.Streams()
            && var e := Handle(d, Send([7]));
            && e.Streams() && e.sent == c.sent + [Byte7(1)] + [Byte7(2)]
  {
    hide Handle, Steady, History;
    EmptyStream(c.sender);
    SendsByteOn(c, 11);
    var d := Handle(c, Send([7]));
    HandleStream(c, Send([7]));
    RoomLeft(d.sender);
    SendsByteOn(d, 11);
  }

  lemma RoomLeft(s: Sender)
    requires s.stream.Valid() && s.stream.Buffered() == 0 && s.stream.capacity == 10
    ensures s.stream.Remaining() == 10
  {
  }

  /** A real run in which the checkpoint is shifted: from here on not one more byte of a short stream is
      put together, whatever happens at either end. */
  lemma RepeatedSynStalls(more: seq<Move>)
    ensures var sys, later := Pair(REPEATED), Pair(REPEATED + more);
            && Shifted(sys.b.receiver)
            && (Short(later.a, later.b) ==> Assembled(later.b) == Assembled(sys.b))
  {
    hide Pair, Handle, Good, Receive, Established, Hears, Shifted, Short, Synced;
    var m3 := [AtA(Open)] + [AtB(Arrive(OPENER))] + [AtA(Arrive(SYN_ACK))];
    Handshake();
    var sys := Pair(m3);
    TwoBytesSent(sys.a);
    var m4 := m3 + [AtA(Send([7]))];
    var m5 := m4 + [AtA(Send([7]))];
    Then(m3, AtA(Send([7])));
    Then(m4, AtA(Send([7])));
    DeliverAll(m5);
    assert m5 + [AtB(Arrive(Byte7(1)))] + [AtB(Arrive(Byte7(2)))] + [AtB(Arrive(OPENER))] == REPEATED;
    PairStalls(more);
  }

  lemma PairStalls(more: seq<Move>)
    requires Shifted(Pair(REPEATED).b.receiver)
    ensures var later := Pair(REPEATED + more);
            Short(later.a, later.b) ==> Assembled(later.b) == Assembled(Pair(REPEATED).b)
  {
    hide Reach, Shifted, Short;
    StalledForGood(PLAIN_CONFIG, PLAIN_CONFIG, REPEATED, more);
  }

  /** Both bytes and the SYN once more are delivered. */
  lemma DeliverAll(moves: seq<Move>)
    requires var sys := Pair(moves);
             && Hears(sys.b, Synced())
             && OPENER in sys.a.sent && Byte7(1) in sys.a.sent && Byte7(2) in sys.a.sent
    ensures var all := moves + [AtB(Arrive(Byte7(1)))] + [AtB(Arrive(Byte7(2)))] + [AtB(Arrive(OPENER))];
            Shifted(Pair(all).b.receiver)
  {
    hide Pair, Handle, Good, Receive, Shifted, Synced;
    TwoBytesHeard();
    var m1 := moves + [AtB(Arrive(Byte7(1)))];
    var m2 := m1 + [AtB(Arrive(Byte7(2)))];
    var sys := Pair(moves);
    Then(moves, AtB(Arrive(Byte7(1))));
    Hearing(sys.b, Byte7(1));
    Then(m1, AtB(Arrive(Byte7(2))));
    Hearing(Pair(m1).b, Byte7(2));
    Then(m2, AtB(Arrive(OPENER)));
    Hearing(Pair(m2).b, OPENER);
  }
}
