/**
 Two endpoints joined by a network that may lose, repeat, delay and reorder segments at will: any
 segment ever sent may arrive any number of times, in any order, or never.
 */
module Network {
  import opened Words
  import opened Wrapping
  import opened ByteStreams
  import opened Reassembly
  import opened TcpSegments
  import opened Receivers
  import opened Senders
  import opened SenderInvariant
  import opened Connections
  import opened Endpoints

  /** The bytes that the sender has put into segments so far. */
  function SentBytes(s: Sender): seq<Byte>
    requires s.stream.Valid()
  {
    s.stream.input[..s.stream.read]
  }

  /** How the receiver at one end stands to the sender at the other. */
  ghost predicate Linked(s: Sender, r: Receiver) {
    && s.stream.Valid()
    && (r.synReceived ==> s.next >= 1 && r.isn == s.isn)
    && Agrees(r.reassembler, SentBytes(s))
    && (r.reassembler.eof ==> s.finSent || r.reassembler.eofIndex >= TWO32)
    && (r.Output().ended ==> s.finSent)
    && s.lastAck <= r.AbsAck()
  }

  /** The stream and the window together stay within one turn of the sequence numbers. */
  predicate OneTurn(s: Sender, r: Receiver) {
    |s.stream.input| + r.Output().capacity <= TWO32 && |s.stream.input| + 2 < TWO32
  }

  /** A longer stream at the sender keeps the link. */
  lemma SenderMoves(s: Sender, t: Sender, r: Receiver)
    requires Linked(s, r) && Grows(s, t) && Sound(s) && Sound(t) && OneTurn(t, r)
    requires t.lastAck <= r.AbsAck()
    ensures Linked(t, r)
  {
    hide Faithful, Tiled, Timed, AckInFront;
    var p, q := SentBytes(s), SentBytes(t);
    assert p <= q;
    if s.finSent {
      assert p == q;
    }
    AgreesLonger(r.reassembler, p, q);
  }

  lemma AgreesLonger(m: Reassembler, p: seq<Byte>, q: seq<Byte>)
    requires Agrees(m, p) && p <= q
    requires m.eof ==> m.eofIndex >= |q|
    requires m.output.ended ==> p == q
    ensures Agrees(m, q)
  {
    assert q[..m.next] == p[..m.next];
  }

  /** An acknowledgment of the peer, however old, is accepted and read as the number that the peer meant,
      unless it lies more than 2^31 behind the last one, when it is ignored. */
  lemma AckReadExactly(s: Sender, r: Receiver, n: nat)
    requires Linked(s, r) && Sound(s) && OneTurn(s, r) && r.synReceived && 1 <= n <= r.AbsAck()
    ensures if s.lastAck - n <= TWO31
            then Accepts(s, Wrap(n, r.isn)) && AckValue(s, Wrap(n, r.isn)) == n
            else !Accepts(s, Wrap(n, r.isn))
  {
    hide Faithful, Tiled, Timed, AckInFront, Wrap, Unwrap, Above, Offset, Excerpt;
    SoundBounds(s);
    var v := AckValue(s, Wrap(n, s.isn));
    assert n <= s.next < TWO32;
    assert Low64(s.lastAck) == s.lastAck;
    RoundTripIff(n, s.isn, s.lastAck);
    OffsetOfWrap(n, s.isn);
    UnwrapCongruent(Wrap(n, s.isn), s.isn, s.lastAck);
    SameClass(v, n);
  }

  /** An acknowledgment that is heeded is never read as more than the peer meant. */
  lemma AckReadRight(s: Sender, r: Receiver, seg: Segment)
    requires Linked(s, r) && Sound(s) && OneTurn(s, r)
    requires Acknowledges(seg, r) && seg.header.ack && Accepts(s, seg.header.ackno)
    ensures AckValue(s, seg.header.ackno) <= r.AbsAck()
  {
    var a: nat :| 1 <= a <= r.AbsAck() && seg.header.ackno == Wrap(a, r.isn);
    var v := AckValue(s, seg.header.ackno);
    assert s.next <= |s.stream.input| + 2 && r.AbsAck() <= |s.stream.input| + 2;
    OffsetOfWrap(a, s.isn);
    UnwrapCongruent(seg.header.ackno, s.isn, Low64(s.lastAck));
    SameClass(v, a);
  }

  /** Where a segment with true number x can end up: at its place, or a whole turn or more away. */
  lemma IndexCases(index: U64, x: nat)
    requires 1 <= x < TWO32 && (index + 1) % TWO32 == x % TWO32
    ensures index == x - 1 || TWO32 <= index <= TWO64 - TWO32 + x - 1
  {
    SameClass(index + 1, x);
    assert (index + 1) % 0x1_0000_0000 == x;
    var turns := (index + 1) / 0x1_0000_0000;
    assert index + 1 == 0x1_0000_0000 * turns + x;
  }

  /** A segment of the stream is never taken for something else: wherever the checkpoint puts it,
      it agrees with the stream or falls outside the window. */
  lemma PushIsHarmless(s: Sender, r: Receiver, seg: Segment, x: nat, index: U64)
    requires Linked(s, r) && Sound(s) && OneTurn(s, r)
    requires Carries(seg, x, s.isn, s.stream, s.next)
    requires x >= 1 ==> (index + 1) % TWO32 == x % TWO32
    ensures Harmless(SentBytes(s), seg.payload, index, seg.header.fin, r.reassembler.WindowEnd())
    ensures seg.header.fin ==>
              s.finSent && |SentBytes(s)| <= EndIndex(index, |seg.payload|)
  {
    hide Faithful, Tiled, Timed, AckInFront, Excerpt;
    var len := |seg.payload|;
    if len > 0 || seg.header.fin {
      IndexCases(index, x);
      assert index + len < TWO64;
      assert r.reassembler.WindowEnd() <= TWO32;
      assert index == x - 1 ==> seg.payload == SentBytes(s)[index..index + len];
    }
  }

  /** Whatever segment of the sender arrives, and however often, the link holds. */
  lemma ReceiveLinked(s: Sender, r: Receiver, seg: Segment)
    requires Linked(s, r) && Sound(s) && OneTurn(s, r) && r.Valid() && Emitted(seg, s)
    ensures Linked(s, Receive(r, seg))
  {
    hide Sound, Push, Harmless, EndIndex, Unwrap;
    if r.synReceived || seg.header.syn {
      var x: nat :| Carries(seg, x, s.isn, s.stream, s.next);
      var isn := if r.synReceived then r.isn else seg.header.seqno;
      var index := StreamIndex(seg.header.seqno, isn, r.lastStreamNo, !r.synReceived);
      if r.synReceived {
        IndexCongruent(x, isn, r.lastStreamNo);
      }
      PushIsHarmless(s, r, seg, x, index);
      PushAgrees(r.reassembler, SentBytes(s), seg.payload, index, seg.header.fin);
      PushEof(r.reassembler, seg.payload, index, seg.header.fin);
      ReceiveKeeps(r, seg);
    }
  }

  /** Reads and error flags do not touch the link. */
  lemma OutputMoves(s: Sender, r: Receiver, output: Stream)
    requires Linked(s, r) && r.Valid() && output.Valid()
    requires output == r.Output().(read := output.read, error := output.error) && r.Output().read <= output.read
    ensures Linked(s, r.(reassembler := r.reassembler.(output := output)))
  {
  }

  /** An event at the sending end. */
  lemma SenderStep(src: Connection, ev: Event, dst: Connection)
    requires Good(src) && Good(dst) && src.Streams()
    requires ev.Arrive? ==> ev.seg in dst.sent
    requires Linked(src.sender, dst.receiver) && OneTurn(Handle(src, ev).sender, dst.receiver)
    ensures Linked(Handle(src, ev).sender, dst.receiver)
  {
    hide Sound, Handle, WindowUsed, Linked, AckValue, Tick, Acknowledges, Emitted;
    var s, t := src.sender, Handle(src, ev).sender;
    HandleGood(src, ev);
    if ev.Arrive? && Heeds(src, ev.seg) {
      assert OneTurn(s, dst.receiver);
      AckReadRight(s, dst.receiver, ev.seg);
    }
    assert s.lastAck <= dst.receiver.AbsAck() by { LinkedAck(s, dst.receiver); }
    SenderMoves(s, t, dst.receiver);
  }

  lemma LinkedAck(s: Sender, r: Receiver)
    requires Linked(s, r)
    ensures s.lastAck <= r.AbsAck()
  {
  }

  /** An event at the receiving end. */
  lemma ReceiverStep(src: Connection, dst: Connection, ev: Event)
    requires Good(src) && Good(dst) && dst.Streams()
    requires ev.Arrive? ==> ev.seg in src.sent
    requires Linked(src.sender, dst.receiver) && OneTurn(src.sender, dst.receiver)
    ensures Linked(src.sender, Handle(dst, ev).receiver)
  {
    hide Sound, Linked, Receive, FillWindow, Answer, TakeAck, Tick, SendReset, StampAll, Active;
    var s, r := src.sender, dst.receiver;
    OutputMoves(s, r, r.Output().(error := true));
    match ev
    case Fetch(len) => OutputMoves(s, r, r.Output().Pop(len));
    case Arrive(seg) => ReceiveLinked(s, r, seg);
    case _ =>
  }

  /** The receiver can take in a segment with number x: it waits for the SYN, or it has room and its
      checkpoint has not been shifted away. */
  predicate Takes(r: Receiver, x: nat) {
    !r.synReceived || (r.Output().Remaining() > 0 && Placeable(r, x))
  }

  /** Progress, exactly: a segment that carries the very number the receiver waits for moves it forward
      if and only if the receiver can take it in; otherwise what is acknowledged stays. */
  lemma AwaitedSegmentAdvances(s: Sender, r: Receiver, seg: Segment, x: nat)
    requires Linked(s, r) && Sound(s) && OneTurn(s, r) && r.Valid()
    requires Carries(seg, x, s.isn, s.stream, s.next) && x <= r.AbsAck() < x + seg.Length()
    ensures Receive(r, seg).AbsAck() > r.AbsAck() <==> Takes(r, x)
    ensures !Takes(r, x) ==> Receive(r, seg).AbsAck() == r.AbsAck()
  {
    hide Sound, Linked, Push, Unwrap, Wrap;
    AwaitedFacts(s, r, seg, x);
    ReceiveKeeps(r, seg);
    if r.synReceived {
      RoundTripIff(x, r.isn, r.lastStreamNo);
      if r.Output().Remaining() == 0 {
        FullKeeps(r, seg);
      } else if Placeable(r, x) {
        RecognizedAdvances(s, r, seg, x);
      } else {
        UnrecognizedStays(s, r, seg, x);
      }
    }
  }

  lemma AwaitedFacts(s: Sender, r: Receiver, seg: Segment, x: nat)
    requires Linked(s, r) && Sound(s) && OneTurn(s, r) && r.Valid()
    requires Carries(seg, x, s.isn, s.stream, s.next) && x <= r.AbsAck() < x + seg.Length()
    ensures !r.synReceived ==> seg.header.syn
    ensures r.synReceived ==> !r.Output().ended && !seg.header.syn && 1 <= x < TWO32 && r.isn == s.isn
    ensures r.synReceived ==> seg.header.seqno == Wrap(x, r.isn)
  {
    hide Faithful, Tiled, Timed, Wrap, Excerpt;
  }

  /** With no room a segment only leaves its end mark behind. */
  lemma FullKeeps(r: Receiver, seg: Segment)
    requires r.Valid() && r.synReceived && r.Output().Remaining() == 0
    ensures Receive(r, seg).AbsAck() == r.AbsAck()
  {
    hide Unwrap;
  }

  lemma RecognizedAdvances(s: Sender, r: Receiver, seg: Segment, x: nat)
    requires Linked(s, r) && Sound(s) && OneTurn(s, r) && r.Valid() && r.synReceived
    requires Carries(seg, x, s.isn, s.stream, s.next) && x <= r.AbsAck() < x + seg.Length()
    requires r.Output().Remaining() > 0
    requires StreamIndex(seg.header.seqno, r.isn, r.lastStreamNo, false) == x - 1
    ensures Receive(r, seg).AbsAck() > r.AbsAck()
  {
    hide Faithful, Tiled, Timed, Push, Unwrap, Wrap, Excerpt, StreamIndex;
    ReceiveKeeps(r, seg);
    var m, len := r.reassembler, |seg.payload|;
    assert !m.output.ended && !seg.header.syn && 1 <= x;
    if m.next < x - 1 + len {
      PushAdds(m, seg.payload, x - 1, seg.header.fin, m.next);
    } else {
      NoneWaiting(m, SentBytes(s));
      PushSignals(m, seg.payload, x - 1);
    }
  }

  /** A segment that is not recognized lands beyond the window, and so does the end it may announce. */
  lemma UnrecognizedStays(s: Sender, r: Receiver, seg: Segment, x: nat)
    requires Linked(s, r) && Sound(s) && OneTurn(s, r) && r.Valid() && r.synReceived
    requires Carries(seg, x, s.isn, s.stream, s.next) && x <= r.AbsAck() < x + seg.Length()
    requires StreamIndex(seg.header.seqno, r.isn, r.lastStreamNo, false) != x - 1
    ensures Receive(r, seg).AbsAck() == r.AbsAck()
  {
    hide Faithful, Tiled, Timed, Push, Unwrap, Wrap, Excerpt, StreamIndex, Recovers;
    var m, index := r.reassembler, StreamIndex(seg.header.seqno, r.isn, r.lastStreamNo, false);
    assert !m.output.ended && 1 <= x < TWO32;
    IndexCongruent(x, r.isn, r.lastStreamNo);
    IndexCases(index, x);
    assert m.WindowEnd() <= TWO32 <= index;
    PushBeyond(m, seg.payload, index, seg.header.fin);
    PushEof(m, seg.payload, index, seg.header.fin);
  }

  lemma NoneWaiting(m: Reassembler, p: seq<Byte>)
    requires Agrees(m, p) && m.next == |p|
    ensures m.held == map[]
  {
    assert forall i :: i in m.held ==> i < |p|;
  }

  /** Why a turn is the limit: where the window of a receiver reaches a whole turn past the place of
      a segment, that segment, delivered again, is taken for new data there. */
  lemma StaleSegmentIsTaken(r: Receiver, seg: Segment, x: nat)
    requires r.Valid() && r.synReceived && !r.Output().ended && seg.payload != []
    requires 1 <= x && x + TWO32 + |seg.payload| < TWO64 && seg.header.seqno == Wrap(x, r.isn)
    requires Placeable(r, x + TWO32)
    requires r.reassembler.next <= x - 1 + TWO32 < r.reassembler.WindowEnd()
    requires x - 1 + TWO32 !in r.reassembler.held
    ensures var m, j := Receive(r, seg).reassembler, x - 1 + TWO32;
            if j < m.next then |m.output.input| > j && m.output.input[j] == seg.payload[0]
            else j in m.held && m.held[j] == seg.payload[0]
  {
    hide Unwrap, Wrap, Push;
    OffsetOfWrap(x, r.isn);
    OneTurnOn(x);
    WrapOfOffset(x + TWO32, Wrap(x, r.isn), r.isn);
    RoundTripIff(x + TWO32, r.isn, r.lastStreamNo);
    PushPlaces(r.reassembler, seg.payload, x - 1 + TWO32, seg.header.fin, x - 1 + TWO32);
  }

  lemma OneTurnOn(x: nat)
    ensures (x + TWO32) % TWO32 == x % TWO32
  {
  }
}
