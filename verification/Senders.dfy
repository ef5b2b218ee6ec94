/**
 The sending half of a connection, as a value with the operations on it: it cuts the outgoing
 stream into segments that fit the peer's window, keeps what is not yet acknowledged, and
 retransmits the oldest of it when the timer expires (section 3.7 of RFC 793, section 5 of
 RFC 6298).
 */
module Senders {
  import opened Words
  import opened Wrapping
  import opened ByteStreams
  import opened TcpSegments

  const MAX_PAYLOAD: nat := 1000

  /** A segment that is not fully acknowledged, at its absolute sequence number. */
  datatype Outstanding = Outstanding(abs: nat, probe: bool, seg: Segment)
  {
    function End(): nat {
      abs + seg.Length()
    }
  }

  datatype Sender = Sender(isn: U32, queue: seq<Segment>, outstanding: seq<Outstanding>,
                           base: U16, rto: U32, elapsed: U32, timerOn: bool, retransmissions: nat,
                           stream: Stream, next: nat, lastAck: nat, window: nat,
                           mayProbe: bool, finSent: bool)
  {
    /** Start of the oldest segment in flight. */
    function Front(): nat {
      if outstanding == [] then next else outstanding[0].abs
    }
  }

  function Closed(capacity: nat, timeout: U16, isn: U32): Sender {
    Sender(isn, [], [], timeout, timeout, 0, false, 0, Fresh(capacity), 0, 0, 1, false, false)
  }

  function InFlight(os: seq<Outstanding>): nat {
    if os == [] then 0 else os[0].seg.Length() + InFlight(os[1..])
  }

  /** Gives the segment the next sequence number and queues it; one that takes up sequence
      numbers also starts the timer and is kept for retransmission. */
  function SendSegment(s: Sender, seg: Segment, probe: bool): Sender {
    var out := seg.(header := seg.header.(seqno := Wrap(s.next, s.isn)));
    var sent := s.(next := s.next + out.Length(), queue := s.queue + [out]);
    if out.Length() == 0 then sent
    else sent.(timerOn := true, outstanding := s.outstanding + [Outstanding(s.next, probe, out)])
  }

  function SendSyn(s: Sender): Sender {
    SendSegment(s, Segment(BLANK.(syn := true), []), false)
  }

  function SendEmpty(s: Sender): Sender {
    SendSegment(s, Segment(BLANK, []), false)
  }

  function SendReset(s: Sender): Sender {
    SendSegment(s, Segment(BLANK.(rst := true), []), false)
  }

  /** Takes up to len bytes from the stream and sends them, with a FIN if fin is set. */
  function Emit(s: Sender, len: nat, fin: bool, probe: bool): Sender
    requires s.stream.Valid()
  {
    SendSegment(s.(stream := s.stream.Pop(len), finSent := s.finSent || fin),
                Segment(BLANK.(fin := fin), s.stream.Peek(len)), probe)
  }

  /** The FIN goes with the last bytes if the budget has a sequence number left for it. */
  function FinNow(s: Sender, budget: nat): bool
    requires s.stream.Valid()
  {
    var len := Min(budget, MAX_PAYLOAD);
    s.stream.Pop(len).Eof() && budget > |s.stream.Peek(len)| && !s.finSent
  }

  /** The loop of fill_window: send until the budget of sequence numbers or the data is used up. */
  function SendLoop(s: Sender, budget: nat, probe: bool): (s': Sender)
    requires s.stream.Valid()
    ensures s'.stream.Valid()
    decreases budget
  {
    if budget == 0 then s
    else
      var len := Min(budget, MAX_PAYLOAD);
      var fin := FinNow(s, budget);
      if s.stream.Peek(len) == [] && !fin then s
      else
        SendLoop(Emit(s, len, fin, probe), budget - |s.stream.Peek(len)| - (if fin then 1 else 0), probe)
  }

  /** Sequence numbers that the peer's window still allows. */
  function Room(s: Sender): nat {
    if s.lastAck + s.window >= s.next then s.lastAck + s.window - s.next else 0
  }

  function FillWindow(s: Sender): (s': Sender)
    requires s.stream.Valid()
    ensures s'.stream.Valid()
  {
    if s.finSent then s
    else
      var t := if s.next == 0 then SendSyn(s) else s;
      if t.window == 0 && t.mayProbe then SendLoop(t.(mayProbe := false), Room(t) + 1, true)
      else SendLoop(t, Room(t), false)
  }

  /** What is left when everything acknowledged in full is dropped from the front. */
  function Unacked(os: seq<Outstanding>, ack: nat): (rest: seq<Outstanding>)
    ensures |rest| <= |os| && rest == os[|os| - |rest|..]
    ensures rest != [] ==> rest[0].End() > ack
  {
    if os == [] || os[0].End() > ack then os else Unacked(os[1..], ack)
  }

  /** remove_outstanding_segments: retiring a segment resets the timer and its back-off. */
  function Retire(s: Sender): (s': Sender)
    ensures s'.stream == s.stream
  {
    var rest := Unacked(s.outstanding, s.lastAck);
    if |rest| == |s.outstanding| then s
    else s.(outstanding := rest, elapsed := 0, rto := s.base, timerOn := rest != [], retransmissions := 0)
  }

  function AckValue(s: Sender, ackno: U32): nat {
    Unwrap(ackno, s.isn, Low64(s.lastAck))
  }

  /** Whether an acknowledgment is acted on: not before the SYN, and not beyond what was sent. */
  predicate Accepts(s: Sender, ackno: U32) {
    s.next != 0 && AckValue(s, ackno) <= s.next
  }

  /** The last acknowledgment and the window after an accepted acknowledgment. */
  function NoteAck(s: Sender, ackno: U32, win: U16): (s': Sender)
    ensures s'.stream == s.stream
  {
    var ack := AckValue(s, ackno);
    var last := Max(s.lastAck, ack);
    if ack + win > last then s.(lastAck := last, window := ack + win - last)
    else s.(lastAck := last, window := 0, mayProbe := true)
  }

  function AckReceived(s: Sender, ackno: U32, win: U16): (s': Sender)
    requires s.stream.Valid()
    ensures s'.stream.Valid()
  {
    if !Accepts(s, ackno) then s else FillWindow(Retire(NoteAck(s, ackno, win)))
  }

  /** timeout_retransmission and the timer reset that follows it in tick. */
  function Timeout(s: Sender): Sender {
    if s.outstanding == [] then
      s.(timerOn := true, elapsed := 0, rto := s.base, retransmissions := 0)
    else
      var t := s.(queue := s.queue + [s.outstanding[0].seg], timerOn := true, elapsed := 0);
      if s.outstanding[0].probe then t
      else t.(rto := (2 * s.rto) % TWO32, retransmissions := s.retransmissions + 1)
  }

  function Tick(s: Sender, ms: nat): Sender {
    if !s.timerOn then s
    else
      var elapsed := (s.elapsed + ms) % TWO32;
      if elapsed >= s.rto then Timeout(s) else s.(elapsed := elapsed)
  }
}
