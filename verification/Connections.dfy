/**
 One end of a TCP connection: the sender and the receiver side by side, and the rules for when to
 acknowledge, when to reset and when the connection is over. A value with the operations on it.
 */
module Connections {
  import opened Words
  import opened Wrapping
  import opened TcpSegments
  import opened Receivers
  import opened Senders

  const MAX_RETX_ATTEMPTS: nat := 8

  /** The queue of segments for the owner is kept as the list of all segments ever put into it. */
  datatype Connection = Connection(sender: Sender, receiver: Receiver, sent: seq<Segment>,
                                   linger: bool, sinceReceived: nat, timeout: U16)
  {
    predicate Streams() {
      sender.stream.Valid() && receiver.Output().Valid()
    }
  }

  function Opening(sendCapacity: nat, receiveCapacity: nat, timeout: U16, isn: U32): (c: Connection)
    ensures c.Streams()
  {
    Connection(Closed(sendCapacity, timeout, isn), Listening(receiveCapacity), [], true, 0, timeout)
  }

  /** Both streams at their end comes before any error. */
  predicate Active(c: Connection) {
    if c.sender.stream.Eof() && c.receiver.Output().Eof() then
      InFlight(c.sender.outstanding) != 0 || (c.linger && c.sinceReceived < 10 * c.timeout)
    else
      !c.sender.stream.error && !c.receiver.Output().error
  }

  /** The acknowledgment and window fields as the connection fills them in. */
  function Stamp(seg: Segment, r: Receiver): Segment {
    var h := seg.header;
    var h1 := if r.synReceived && !h.ack then h.(ack := true, ackno := Wrap(r.AbsAck(), r.isn)) else h;
    var h2 := if h1.win == 0 then h1.(win := Max(Advertised(r), 0)) else h1;
    seg.(header := h2)
  }

  function StampAll(segs: seq<Segment>, r: Receiver): (out: seq<Segment>)
    ensures |out| == |segs|
    ensures forall k :: 0 <= k < |segs| ==> out[k] == Stamp(segs[k], r)
  {
    if segs == [] then []
    else StampAll(segs[..|segs| - 1], r) + [Stamp(segs[|segs| - 1], r)]
  }

  /** pop_and_send_segments. */
  function Flush(c: Connection): Connection {
    c.(sender := c.sender.(queue := []), sent := c.sent + StampAll(c.sender.queue, c.receiver))
  }

  function Fail(c: Connection): Connection {
    c.(sender := c.sender.(stream := c.sender.stream.(error := true)), receiver := Flagged(c.receiver))
  }

  /** What a segment that is not a reset does to the receiver and to the linger flag. */
  function TakeIn(c: Connection, seg: Segment): Connection
    requires c.Streams()
  {
    c.(sinceReceived := 0,
       linger := c.linger && !(seg.header.fin && !c.sender.stream.ended),
       receiver := Receive(c.receiver, seg))
  }

  function TakeAck(s: Sender, seg: Segment): (s': Sender)
    requires s.stream.Valid()
    ensures s'.stream.Valid()
  {
    if seg.header.ack then AckReceived(s, seg.header.ackno, seg.header.win) else s
  }

  /** A segment just below the window with nothing in it asks whether we are still there. */
  predicate IsKeepAlive(r: Receiver, seg: Segment) {
    r.synReceived && seg.Length() == 0
    && seg.header.seqno == (Wrap(r.AbsAck(), r.isn) - 1) % TWO32
  }

  /** Answer a keep-alive; answer anything that takes up sequence numbers at least with a bare
      acknowledgment. */
  function Answer(s: Sender, r: Receiver, seg: Segment): Sender
    requires s.stream.Valid()
  {
    var s1 := if IsKeepAlive(r, seg) then SendEmpty(s) else s;
    if seg.Length() == 0 then s1
    else
      var s2 := FillWindow(s1);
      if s2.queue == [] then SendEmpty(s2) else s2
  }

  function SegmentReceived(c: Connection, seg: Segment): Connection
    requires c.Streams()
  {
    if !Active(c) then c
    else if seg.header.rst then Fail(c.(sinceReceived := 0))
    else
      var c1 := TakeIn(c, seg);
      Flush(c1.(sender := Answer(TakeAck(c1.sender, seg), c1.receiver, seg)))
  }

  /** Writes what fits to the outgoing stream and sends what the window allows. */
  function Write(c: Connection, data: seq<Byte>): Connection
    requires c.Streams()
  {
    Flush(c.(sender := FillWindow(c.sender.(stream := c.sender.stream.Write(data)))))
  }

  function EndInput(c: Connection): Connection
    requires c.Streams()
  {
    Flush(c.(sender := FillWindow(c.sender.(stream := c.sender.stream.(ended := true)))))
  }

  function Connect(c: Connection): Connection
    requires c.Streams()
  {
    Flush(c.(sender := FillWindow(c.sender)))
  }

  /** positive_unclean_shutdown: discard what is queued, send a reset, flag both streams. */
  function Abort(c: Connection): Connection {
    Fail(Flush(c.(sender := SendReset(c.sender.(queue := [])))))
  }

  /** The sender's timer moves on; too many retransmissions in a row end the connection. */
  function TickSender(c: Connection, ms: nat): Connection {
    var c1 := c.(sender := Tick(c.sender, ms));
    if c1.sender.retransmissions > MAX_RETX_ATTEMPTS then Abort(c1) else c1
  }

  function TickBy(c: Connection, ms: nat): Connection {
    Flush(TickSender(c, ms)).(sinceReceived := c.sinceReceived + ms)
  }
}
