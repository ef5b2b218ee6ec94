/**
 The receiving half of a connection: it turns sequence numbers into stream indices, feeds the
 reassembler, and advertises what it expects next and how much it can take.
 */
module Receivers {
  import opened Words
  import opened Wrapping
  import opened ByteStreams
  import opened Reassembly
  import opened StreamReassemblers
  import opened TcpSegments

  datatype Receiver = Receiver(reassembler: Reassembler, synReceived: bool, isn: U32, lastStreamNo: U64)
  {
    function Output(): Stream {
      reassembler.output
    }

    /** The absolute sequence number acknowledged: SYN, assembled bytes and, once the input has
        ended, FIN. Zero before the SYN. */
    function AbsAck(): nat {
      if synReceived then reassembler.next + 1 + (if Output().ended then 1 else 0) else 0
    }

    function Ackno(): Option<U32> {
      if synReceived then Some(Wrap(AbsAck(), isn)) else None
    }

    function WindowSize(): int {
      Output().Remaining()
    }

    /** Between segments; before the SYN nothing has been taken in. */
    ghost predicate Valid() {
      && reassembler.Valid()
      && (!synReceived ==> reassembler.next == 0 && reassembler.held == map[] && !reassembler.eof
                           && Output().input == [] && !Output().ended && lastStreamNo == 0)
    }
  }

  function Listening(capacity: nat): (r: Receiver)
    ensures r.Valid()
  {
    Receiver(Empty(capacity), false, 0, 0)
  }

  /** The stream index at which the payload of a segment is pushed. The SYN takes up one sequence
      number, so but for the very first segment the index is one less, in 64-bit arithmetic. */
  function StreamIndex(seqno: U32, isn: U32, checkpoint: U64, first: bool): U64 {
    var abs := Unwrap(seqno, isn, checkpoint);
    if first then abs else Sub64(abs, 1)
  }

  function Receive(r: Receiver, seg: Segment): (r': Receiver)
    requires r.Output().Valid()
  {
    if !r.synReceived && !seg.header.syn then r
    else
      var isn := if r.synReceived then r.isn else seg.header.seqno;
      var index := StreamIndex(seg.header.seqno, isn, r.lastStreamNo, !r.synReceived);
      Receiver(Push(r.reassembler, seg.payload, index, seg.header.fin), true, isn, index)
  }

  lemma ReceiveKeeps(r: Receiver, seg: Segment)
    requires r.Valid()
    ensures Receive(r, seg).Valid()
    ensures Follows(r.reassembler, Receive(r, seg).reassembler)
    ensures r.AbsAck() <= Receive(r, seg).AbsAck()
  {
    if r.synReceived || seg.header.syn {
      var r' := Receive(r, seg);
      PushKeeps(r.reassembler, seg.payload, r'.lastStreamNo, seg.header.fin);
    }
  }

  function Flagged(r: Receiver): Receiver {
    r.(reassembler := r.reassembler.(output := r.Output().(error := true)))
  }

  /** The window as it goes into a header of 16 bits. */
  function Advertised(r: Receiver): int {
    Min(r.WindowSize(), 0xffff)
  }

  /** First sequence number the peer may not send. */
  function RightEdge(r: Receiver): int {
    r.AbsAck() + Advertised(r)
  }

  function AppReads(r: Receiver, len: nat): (r': Receiver)
    requires r.Output().Valid()
  {
    r.(reassembler := r.reassembler.(output := r.Output().Pop(len)))
  }

  lemma AppReadsKeeps(r: Receiver, len: nat)
    requires r.Valid()
    ensures AppReads(r, len).Valid()
    ensures r.AbsAck() == AppReads(r, len).AbsAck()
    ensures RightEdge(r) <= RightEdge(AppReads(r, len))
  {
  }

  /** Section 3.7 of RFC 793 discourages shrinking the window: whatever segment arrives, the
      right edge does not move back, not even after the cut to 16 bits. */
  lemma WindowNeverShrinks(r: Receiver, seg: Segment)
    requires r.Valid()
    ensures RightEdge(r) <= RightEdge(Receive(r, seg))
  {
    ReceiveKeeps(r, seg);
  }

  /** A segment lands at its place: every byte of its payload that falls on a free place of the window is
      put there, counted from number 1 for the payload of the first SYN, and from the segment's own
      number x otherwise, as long as the checkpoint recognizes it. An end mark is noted where it is. */
  lemma ReceivePlaces(r: Receiver, seg: Segment, x: U64, i: nat)
    requires r.Valid() && 1 <= x
    requires if r.synReceived then seg.header.seqno == Wrap(x, r.isn) && Placeable(r, x)
             else seg.header.syn && x == 1
    ensures var m, m' := r.reassembler, Receive(r, seg).reassembler;
            && (seg.header.fin ==> m'.eof && m'.eofIndex == EndIndex(x - 1, |seg.payload|))
            && (!m.output.ended && x - 1 <= i < x - 1 + |seg.payload| < TWO64
                && m.next <= i < m.WindowEnd() && i !in m.held ==>
                  if i < m'.next then |m'.output.input| > i && m'.output.input[i] == seg.payload[i - (x - 1)]
                  else i in m'.held && m'.held[i] == seg.payload[i - (x - 1)])
  {
    hide Push, Unwrap, Wrap, Above, EndIndex;
    var isn := if r.synReceived then r.isn else seg.header.seqno;
    RoundTripIff(x, r.isn, r.lastStreamNo);
    if !r.synReceived {
      WrapZero(isn);
      TurnIsUnwrap(isn, 0);
    }
    assert StreamIndex(seg.header.seqno, isn, r.lastStreamNo, !r.synReceived) == x - 1;
    PushEof(r.reassembler, seg.payload, x - 1, seg.header.fin);
    if !r.Output().ended && x - 1 <= i < x - 1 + |seg.payload| < TWO64
       && r.reassembler.next <= i < r.reassembler.WindowEnd() && i !in r.reassembler.held {
      PushPlaces(r.reassembler, seg.payload, x - 1, seg.header.fin, i);
    }
  }

  /** The checkpoint is where it lets a segment with number x be recognized. */
  predicate Placeable(r: Receiver, x: nat) {
    if PassesTop(x % TWO32, r.lastStreamNo) then x < TWO32 else Recovers(x, r.lastStreamNo)
  }

  lemma SubOne(a: U64)
    ensures (Sub64(a, 1) + 1) % TWO32 == a % TWO32
  {
  }

  /** A pushed index always stands for the true sequence number, whatever the checkpoint. */
  lemma IndexCongruent(x: nat, isn: U32, checkpoint: U64)
    ensures (StreamIndex(Wrap(x, isn), isn, checkpoint, false) + 1) % TWO32 == x % TWO32
  {
    hide Wrap, Unwrap, Offset;
    OffsetOfWrap(x, isn);
    UnwrapCongruent(Wrap(x, isn), isn, checkpoint);
    SubOne(Unwrap(Wrap(x, isn), isn, checkpoint));
    hide Sub64;
  }

  /** The multiple of 2^32 for which a repeated SYN is taken: the nearest to the checkpoint, the lower
      of two, but 2^32 instead of 0 from checkpoint 1 on, and 0 near the top of 64 bits. */
  function Turn(checkpoint: U64): (t: U64)
    ensures t % TWO32 == 0 && (t == 0 || TWO32 <= t <= TWO64 - TWO32)
  {
    if checkpoint == 0 || checkpoint > TWO64 - TWO32 then 0
    else if checkpoint <= TWO32 + TWO31 then TWO32
    else
      var k := (checkpoint + TWO31 - 1) / 0x1_0000_0000;
      Multiple(0, k);
      0x1_0000_0000 * k
  }

  lemma TurnIsUnwrap(isn: U32, checkpoint: U64)
    ensures Unwrap(isn, isn, checkpoint) == Turn(checkpoint)
  {
    UnwrapValue(isn, isn, checkpoint);
    WrapZero(isn);
    hide Unwrap, Offset, Above;
    var up := Above(0, checkpoint);
    SameClass(up, 0);
    SameClass(up, TWO32);
    SameClass(up, TWO64);
    SameClass(up, TWO64 - TWO32);
    SameClass(up, Turn(checkpoint));
    SameClass(up - TWO32, Turn(checkpoint));
    TurnDown(up);
  }

  /** At this checkpoint the arrival of a repeated SYN does not keep the segment with true sequence
      number x from being recognized next. */
  predicate SynHarmless(checkpoint: U64, x: U64) {
    var t := Turn(checkpoint);
    if t == 0 then x < TWO32 - 1 || x == TWO64 - 1
    else t - 1 - x <= TWO31 && (x <= TWO32 || x - (t - 1) < TWO31)
  }

  /** A SYN that arrives again, as a retransmission may, moves the checkpoint to just below a multiple
      of 2^32. The next segment, whose true sequence number is x, is then still pushed at its true
      index x - 1 exactly under SynHarmless. In a stream below 2^32 this comes to: the checkpoint
      was 0 or near the top of 64 bits, or at most a turn and a half with x in the upper half. */
  lemma DuplicateSynHarmlessIff(r: Receiver, syn: Segment, x: U64)
    requires r.Valid() && r.synReceived && syn.header.seqno == r.isn && 1 <= x
    ensures var cp := r.lastStreamNo;
            && Receive(r, syn).lastStreamNo == Sub64(Turn(cp), 1)
            && (StreamIndex(Wrap(x, r.isn), r.isn, Receive(r, syn).lastStreamNo, false) == x - 1 <==>
                SynHarmless(cp, x))
            && (x < TWO32 - 1 ==>
                  (SynHarmless(cp, x) <==>
                   cp == 0 || cp > TWO64 - TWO32 || (cp <= TWO32 + TWO31 && x >= TWO31 - 1)))
  {
    hide Unwrap, Wrap, Offset, Push, Turn;
    TurnIsUnwrap(r.isn, r.lastStreamNo);
    assert Receive(r, syn).lastStreamNo == Sub64(Turn(r.lastStreamNo), 1);
    hide Receive;
    RecognizedAfter(Turn(r.lastStreamNo), r.isn, x);
    if x < TWO32 - 1 {
      HarmlessInOneTurn(r.lastStreamNo, x);
    }
  }

  lemma RecognizedAfter(t: U64, isn: U32, x: U64)
    requires t % TWO32 == 0 && (t == 0 || TWO32 <= t <= TWO64 - TWO32) && 1 <= x
    ensures StreamIndex(Wrap(x, isn), isn, Sub64(t, 1), false) == x - 1 <==>
            if t == 0 then x < TWO32 - 1 || x == TWO64 - 1
            else t - 1 - x <= TWO31 && (x <= TWO32 || x - (t - 1) < TWO31)
  {
    hide Unwrap, Wrap, Above;
    RoundTripIff(x, isn, Sub64(t, 1));
    if t == 0 {
      hide PassesTop;
      AtTheTop(x);
    }
  }

  /** At the highest checkpoint the next candidate fits only if it is that checkpoint. */
  lemma AtTheTop(x: U64)
    ensures PassesTop(x % TWO32, TWO64 - 1) <==> x % TWO32 != TWO32 - 1
    ensures x % TWO32 == TWO32 - 1 ==> x == TWO32 - 1 || x == TWO64 - 1 || TWO32 <= x <= TWO64 - 1 - TWO32
    ensures x < TWO32 ==> x % TWO32 == x
  {
    hide Above;
    var up := Above(x % TWO32, TWO64 - 1);
    if x % TWO32 == TWO32 - 1 {
      SameClass(up, TWO64 - 1);
      SameClass(x, TWO64 - 1);
      SameClass(x, TWO32 - 1);
    }
  }

  lemma HarmlessInOneTurn(cp: U64, x: U64)
    requires 1 <= x < TWO32 - 1
    ensures SynHarmless(cp, x) <==>
            cp == 0 || cp > TWO64 - TWO32 || (cp <= TWO32 + TWO31 && x >= TWO31 - 1)
  {
    hide Turn;
    TurnRange(cp);
  }

  lemma TurnRange(cp: U64)
    ensures Turn(cp) == 0 <==> cp == 0 || cp > TWO64 - TWO32
    ensures Turn(cp) == TWO32 <==> 0 < cp <= TWO32 + TWO31
    ensures Turn(cp) > TWO32 ==> Turn(cp) >= 2 * TWO32
  {
    SameClass(Turn(cp), TWO32);
  }

  /** A segment comes in, or the application reads. */
  datatype Input = Comes(seg: Segment) | Fetched(len: nat)

  ghost function TakeAll(r: Receiver, ins: seq<Input>): (r': Receiver)
    requires r.Valid()
    ensures r'.Valid()
  {
    if ins == [] then r
    else TakeOne(TakeAll(r, ins[..|ins| - 1]), ins[|ins| - 1])
  }

  ghost function TakeOne(r: Receiver, i: Input): (r': Receiver)
    requires r.Valid()
    ensures r'.Valid()
  {
    match i
    case Comes(seg) =>
      ReceiveKeeps(r, seg);
      Receive(r, seg)
    case Fetched(len) =>
      AppReadsKeeps(r, len);
      AppReads(r, len)
  }

  /** How many bytes the application asks for altogether. */
  function Asked(ins: seq<Input>): nat {
    if ins == [] then 0
    else Asked(ins[..|ins| - 1]) + (if ins[|ins| - 1].Fetched? then ins[|ins| - 1].len else 0)
  }

  /** Every segment among them is numbered below 2^31 - 1. */
  ghost predicate AllLow(ins: seq<Input>, isn: U32) {
    forall k :: 0 <= k < |ins| && ins[k].Comes? ==> Offset(ins[k].seg.header.seqno, isn) < TWO31 - 1
  }

  /** The checkpoint is a whole turn ahead of a stream that ends below 2^31. */
  ghost predicate Ahead(r: Receiver) {
    && r.Valid() && r.synReceived
    && TWO32 - 1 <= r.lastStreamNo < TWO32 + TWO31 - 2
  }

  /** The checkpoint is ahead, and the window cannot reach it however much is read. */
  ghost predicate Shifted(r: Receiver) {
    Ahead(r) && r.reassembler.next + r.Output().capacity < TWO32
  }

  lemma ShiftedIndex(x: nat, isn: U32, checkpoint: U64)
    requires x < TWO31 - 1 && TWO32 - 1 <= checkpoint < TWO32 + TWO31 - 2
    ensures StreamIndex(Wrap(x, isn), isn, checkpoint, false) == x + TWO32 - 1
  {
    hide Wrap, Unwrap, Offset;
    RoundTripIff(x + TWO32, isn, checkpoint);
    OffsetOfWrap(x, isn);
    Multiple(x, 1);
    WrapOfOffset(x + TWO32, Wrap(x, isn), isn);
  }

  /** Where the window can reach at most while nothing is assembled and so much is read. */
  function FurthestEnd(r: Receiver, asked: nat): int {
    r.reassembler.next + Min(r.Output().capacity, r.WindowSize() + asked)
  }

  ghost predicate Stalled(r: Receiver, r': Receiver) {
    && Ahead(r') && r'.isn == r.isn
    && r'.Output().input == r.Output().input && r'.reassembler.next == r.reassembler.next
    && r'.Output().capacity == r.Output().capacity
  }

  /** Once the checkpoint is ahead, no segment of the stream, whether new or retransmitted, adds a byte
      to the output, however the application reads meanwhile, as long as the reads cannot move the
      window up to the checkpoint. Under Shifted no reads can. */
  lemma {:induction false} ShiftedIsStalled(r: Receiver, ins: seq<Input>)
    requires Ahead(r) && AllLow(ins, r.isn) && FurthestEnd(r, Asked(ins)) < TWO32
    ensures Stalled(r, TakeAll(r, ins)) && (Shifted(r) ==> Shifted(TakeAll(r, ins)))
    ensures TakeAll(r, ins).WindowSize() <= Min(r.Output().capacity, r.WindowSize() + Asked(ins))
  {
    hide Offset, TakeOne, Receiver.Valid;
    WindowFits(r);
    if ins != [] {
      var n := |ins| - 1;
      assert AllLow(ins[..n], r.isn);
      ShiftedIsStalled(r, ins[..n]);
      StalledInput(TakeAll(r, ins[..n]), ins[n]);
    }
  }

  lemma WindowFits(r: Receiver)
    requires r.Valid()
    ensures r.WindowSize() <= r.Output().capacity
  {
  }

  lemma StalledInput(r: Receiver, i: Input)
    requires Ahead(r) && r.reassembler.WindowEnd() < TWO32
    requires i.Comes? ==> Offset(i.seg.header.seqno, r.isn) < TWO31 - 1
    ensures Stalled(r, TakeOne(r, i))
    ensures TakeOne(r, i).WindowSize() <= Min(r.Output().capacity, r.WindowSize() + (if i.Fetched? then i.len else 0))
  {
    hide Receive, Offset;
    match i
    case Comes(seg) => StalledStep(r, seg);
    case Fetched(len) => AppReadsKeeps(r, len);
  }

  lemma StalledStep(r: Receiver, seg: Segment)
    requires Ahead(r) && r.reassembler.WindowEnd() < TWO32 && Offset(seg.header.seqno, r.isn) < TWO31 - 1
    ensures Stalled(r, Receive(r, seg)) && Receive(r, seg).WindowSize() == r.WindowSize()
  {
    hide Push, Unwrap, Wrap, StreamIndex, Offset;
    var x := Offset(seg.header.seqno, r.isn);
    assert x % TWO32 == x;
    WrapOfOffset(x, seg.header.seqno, r.isn);
    ShiftedIndex(x, r.isn, r.lastStreamNo);
    PushBeyond(r.reassembler, seg.payload, x + TWO32 - 1, seg.header.fin);
    ReceiveKeeps(r, seg);
  }

  /** A second SYN shifts the checkpoint of any receiver that has taken in more than one segment of
      the first turn and a half. */
  lemma RepeatedSynShifts(r: Receiver, syn: Segment)
    requires r.Valid() && r.synReceived && syn.header.seqno == r.isn
    requires 1 <= r.lastStreamNo <= TWO32 + TWO31 && r.reassembler.WindowEnd() < TWO32
    ensures Stalled(r, Receive(r, syn)) && Receive(r, syn).reassembler.WindowEnd() < TWO32
    ensures Shifted(Receive(r, syn)) <==> r.reassembler.next + r.Output().capacity < TWO32
  {
    hide Unwrap, Wrap, Push;
    TurnIsUnwrap(r.isn, r.lastStreamNo);
    PushBeyond(r.reassembler, syn.payload, TWO32 - 1, syn.header.fin);
    ReceiveKeeps(r, syn);
  }

  const FIRST_SYN: Segment := Segment(BLANK.(syn := true), [])

  function Letter(seqno: U32): Segment {
    Segment(BLANK.(seqno := seqno), [0x61])
  }

  /** Two bytes and the SYN once more: from here on nothing is assembled any more. */
  lemma TwoBytesThenSyn()
    ensures Shifted(TakeAll(Listening(10), [Comes(FIRST_SYN), Comes(Letter(1)), Comes(Letter(2)), Comes(FIRST_SYN)]))
  {
    hide Push, Unwrap;
    var r0 := Listening(10);
    var e1 := [Comes(FIRST_SYN)];
    var e2 := e1 + [Comes(Letter(1))];
    var e3 := e2 + [Comes(Letter(2))];
    var e4 := e3 + [Comes(FIRST_SYN)];
    assert e1[..0] == [] && e2[..1] == e1 && e3[..2] == e2 && e4[..3] == e3;
    var r1, r2, r3 := TakeAll(r0, e1), TakeAll(r0, e2), TakeAll(r0, e3);
    RoundTripIff(0, 0, 0);
    WrapZero(0);
    assert TakeAll(r0, e1[..0]) == r0 && r1 == Receive(r0, FIRST_SYN);
    assert r1.lastStreamNo == 0 && r1.isn == 0;
    RoundTripIff(1, 0, 0);
    assert r2 == Receive(r1, Letter(1)) && r2.lastStreamNo == 0;
    RoundTripIff(2, 0, 0);
    assert r3 == Receive(r2, Letter(2)) && r3.lastStreamNo == 1;
    WindowStays(r0, FIRST_SYN, 10);
    WindowStays(r1, Letter(1), 10);
    WindowStays(r2, Letter(2), 10);
    assert r3.reassembler.next + 10 < TWO32;
    RepeatedSynShifts(r3, FIRST_SYN);
    assert TakeAll(r0, e4) == Receive(r3, FIRST_SYN);
    assert [Comes(FIRST_SYN), Comes(Letter(1)), Comes(Letter(2)), Comes(FIRST_SYN)] == e4;
  }

  lemma WindowStays(r: Receiver, seg: Segment, capacity: nat)
    requires r.Valid() && !seg.header.fin && !r.reassembler.eof && !r.Output().ended
    requires r.Output().read == 0 && r.Output().capacity == capacity
    ensures var r' := Receive(r, seg);
            && !r'.reassembler.eof && !r'.Output().ended && r'.Output().read == 0 && r'.Output().capacity == capacity
            && r'.reassembler.WindowEnd() == capacity && r'.reassembler.next <= capacity
  {
    hide Push, Unwrap;
    ReceiveKeeps(r, seg);
    if r.synReceived || seg.header.syn {
      var isn := if r.synReceived then r.isn else seg.header.seqno;
      PushEof(r.reassembler, seg.payload,
              StreamIndex(seg.header.seqno, isn, r.lastStreamNo, !r.synReceived), false);
    }
  }

  class TCPReceiver {
    const reassembler: StreamReassembler
    var synReceived: bool
    var isn: U32
    var lastStreamNo: U64

    ghost predicate Valid()
      reads this, reassembler, reassembler.output
    {
      reassembler.Valid() && Model().Valid()
    }

    ghost function Model(): Receiver
      reads this, reassembler, reassembler.output
    {
      Receiver(reassembler.Model(), synReceived, isn, lastStreamNo)
    }

    constructor (capacity: nat)
      ensures Valid() && fresh(reassembler) && fresh(reassembler.output)
      ensures Model() == Listening(capacity)
    {
      reassembler := new StreamReassembler(capacity);
      synReceived, isn, lastStreamNo := false, 0, 0;
    }

    method SegmentReceived(seg: Segment)
      requires Valid() && |seg.payload| < TWO64
      modifies this, reassembler, reassembler.output
      ensures Valid() && Model() == Receive(old(Model()), seg)
    {
      ReceiveKeeps(Model(), seg);
      var first := false;
      if !synReceived {
        if seg.header.syn {
          synReceived, isn, first := true, seg.header.seqno, true;
        } else {
          return;
        }
      }
      var abs := Unwrap(seg.header.seqno, isn, lastStreamNo);
      lastStreamNo := if first then abs else Sub64(abs, 1);
      reassembler.PushSubstring(seg.payload, lastStreamNo, seg.header.fin);
    }

    method SetError()
      requires Valid()
      modifies reassembler.output
      ensures Valid() && Model() == Flagged(old(Model()))
    {
      reassembler.SetError();
    }

    method Ackno() returns (a: Option<U32>)
      requires Valid()
      ensures a == Model().Ackno()
    {
      if !synReceived {
        return None;
      }
      a := Some(Wrap(reassembler.next + 1 + (if reassembler.output.ended then 1 else 0), isn));
    }

    method WindowSize() returns (n: nat)
      requires Valid()
      ensures n == Model().WindowSize()
    {
      n := reassembler.output.RemainingCapacity();
    }
  }
}
