/**
 Segments on their way through the wire formats: a segment that a connection has sent acts on the
 peer, when it has been serialized and parsed again, as the segment itself would.
 */
module Wired {
  import opened Words
  import opened Wrapping
  import opened TcpSegments
  import opened Reassembly
  import opened Senders
  import opened SenderInvariant
  import opened Connections
  import opened Endpoints
  import opened EndpointRuns
  import opened Parsers
  import opened TcpWire
  import Ipv4Wire

  /** The segment with another checksum in its header. */
  function Resealed(seg: Segment, cksum: U16): Segment {
    seg.(header := seg.header.(cksum := cksum))
  }

  lemma SentIsOrdinary(cfg: Config, evs: seq<Event>, seg: Segment)
    ensures seg in After(cfg, evs).conn.sent ==> Ordinary(seg.header) && |seg.payload| <= 1000
  {
    hide After, Good, Ordinary;
    var c := After(cfg, evs).conn;
    if seg in c.sent {
      SentIsEmitted(c, seg);
      var x: nat :| Carries(seg, x, c.sender.isn, c.sender.stream, c.sender.next);
    }
  }

  /** In every run, each segment ever sent serializes under any pseudo-header sum, to at most 1020 bytes, and
      parses to itself but for the checksum. */
  lemma SentSurvives(cfg: Config, evs: seq<Event>, seg: Segment, initial: U32, prev: Segment)
    requires initial <= 0x10_0000
    ensures seg in After(cfg, evs).conn.sent ==>
              && var bytes := SerializeSegment(seg, initial);
              && bytes.Some? && |bytes.value| == 20 + |seg.payload| <= 1020
              && var got := ParseSegment(prev, bytes.value, initial);
              && got.0 == NoError && got.1 == Resealed(seg, got.1.header.cksum)
  {
    hide After, ParseSegment, SerializeSegment, Sealed;
    SentIsOrdinary(cfg, evs, seg);
    if seg in After(cfg, evs).conn.sent {
      SegmentRoundTrip(seg, prev, initial);
    }
  }

  /** No connection looks at the checksum. */
  lemma ChecksumIgnored(c: Connection, seg: Segment, cksum: U16)
    requires c.Streams()
    ensures Handle(c, Arrive(Resealed(seg, cksum))) == Handle(c, Arrive(seg))
  {
    hide Active, FillWindow, AckReceived, Unwrap, StampAll, Wrap, Push;
  }

  /** Whatever one end has sent in a run has the same effect on the other end, in any run of that, when it
      comes off the wire as when it is handed over. */
  lemma WireIsTransparent(from: Config, sends: seq<Event>, to: Config, takes: seq<Event>, seg: Segment,
                          initial: U32, prev: Segment)
    requires initial <= 0x10_0000
    ensures seg in After(from, sends).conn.sent ==>
              && SerializeSegment(seg, initial).Some?
              && var (result, got) := ParseSegment(prev, SerializeSegment(seg, initial).value, initial);
              && result == NoError
              && After(to, takes + [Arrive(got)]).conn == After(to, takes + [Arrive(seg)]).conn
  {
    hide After, Good, Step, Handle, ParseSegment, SerializeSegment;
    SentSurvives(from, sends, seg, initial, prev);
    if seg in After(from, sends).conn.sent {
      var got := ParseSegment(prev, SerializeSegment(seg, initial).value, initial).1;
      AfterOneMore(to, takes, Arrive(got));
      AfterOneMore(to, takes, Arrive(seg));
      ChecksumIgnored(After(to, takes).conn, seg, got.header.cksum);
    }
  }

  /** The same through a whole datagram, under the sum that the receiving end computes for itself. */
  lemma DatagramIsTransparent(from: Config, sends: seq<Event>, to: Config, takes: seq<Event>, seg: Segment,
                              h: Ipv4Wire.IpHeader, prevIp: Ipv4Wire.IpHeader, prevTcp: Segment)
    requires Ipv4Wire.Representable(h) && h.len == 4 * h.hlen + 20 + |seg.payload|
    ensures seg in After(from, sends).conn.sent ==>
              && var inner := SerializeSegment(seg, h.PseudoSum());
              && inner.Some?
              && var outer := Ipv4Wire.SerializeDatagram(Ipv4Wire.Datagram(h, inner.value));
              && outer.Some?
              && var (result, d) := Ipv4Wire.ParseDatagram(prevIp, outer.value);
              && result == NoError
              && var (verdict, got) := ParseSegment(prevTcp, d.payload, d.header.PseudoSum());
              && verdict == NoError
              && After(to, takes + [Arrive(got)]).conn == After(to, takes + [Arrive(seg)]).conn
  {
    hide After, Good, Step, Handle, ParseSegment, SerializeSegment, Ipv4Wire.ParseDatagram, Ipv4Wire.SerializeDatagram;
    SentIsOrdinary(from, sends, seg);
    if seg in After(from, sends).conn.sent {
      Ipv4Wire.EncapsulatedRoundTrip(seg, h, prevIp, prevTcp);
      SegmentRoundTrip(seg, prevTcp, h.PseudoSum());
      var got := Sealed(seg, h.PseudoSum());
      AfterOneMore(to, takes, Arrive(got));
      AfterOneMore(to, takes, Arrive(seg));
      ChecksumIgnored(After(to, takes).conn, seg, got.header.cksum);
    }
  }
}
