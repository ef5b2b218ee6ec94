/** TCP headers and segments on the wire (section 3.1 of RFC 793). */
module TcpWire {
  import opened Words
  import opened Checksums
  import opened Parsers
  import opened TcpSegments

  const TCP_LENGTH: nat := 20

  function FlagByte(h: Header): (b: Byte) {
    Bit(h.urg, 32) + Bit(h.ack, 16) + Bit(h.psh, 8) + Bit(h.rst, 4) + Bit(h.syn, 2) + Bit(h.fin, 1)
  }

  predicate HasBit(b: Byte, value: nat)
    requires value > 0
  {
    b / value % 2 == 1
  }

  /** The fields in front of the checksum, and then rest. */
  function HeadThen(h: Header, rest: seq<Byte>): seq<Byte> {
    Encode(h.sport, 2) + (Encode(h.dport, 2) + (Encode(h.seqno, 4) + (Encode(h.ackno, 4)
    + (Encode(h.doff * 16, 1) + (Encode(FlagByte(h), 1) + (Encode(h.win, 2) + rest))))))
  }

  /** A header of 20 bytes, and then tail. */
  function Layout(h: Header, tail: seq<Byte>): seq<Byte> {
    HeadThen(h, Encode(h.cksum, 2) + (Encode(h.uptr, 2) + tail))
  }

  /** TCPHeader::serialize; None where the C++ throws. */
  function SerializeHeader(h: Header): Option<seq<Byte>> {
    if h.doff < 5 then None else Some(Layout(h, Zeros(4 * h.doff - TCP_LENGTH)))
  }

  datatype Parsed = Parsed(result: ParseResult, header: Header, parser: Parser)

  /** TCPHeader::parse. */
  function ParseHeader(p: Parser): Parsed {
    var p1 := Rest(p, 2);
    var p2 := Rest(p1, 2);
    var p3 := Rest(p2, 4);
    var p4 := Rest(p3, 4);
    var p5 := Rest(p4, 1);
    var p6 := Rest(p5, 1);
    var p7 := Rest(p6, 2);
    var p8 := Rest(p7, 2);
    var p9 := Rest(p8, 2);
    var flags := U8At(p5);
    var h := Header(U16At(p), U16At(p1), U32At(p2), U32At(p3), U8At(p4) / 16,
                    HasBit(flags, 32), HasBit(flags, 16), HasBit(flags, 8),
                    HasBit(flags, 4), HasBit(flags, 2), HasBit(flags, 1),
                    U16At(p6), U16At(p7), U16At(p8));
    if h.doff < 5 then Parsed(HeaderTooShort, h, p9)
    else
      var q := Rest(p9, 4 * h.doff - TCP_LENGTH);
      Parsed(q.error, h, q)
  }

  lemma HeadSplit(h: Header, rest: seq<Byte>)
    ensures |HeadThen(h, [])| == 16 && HeadThen(h, rest) == HeadThen(h, []) + rest
  {
    var e1, e2, e3, e4 := Encode(h.sport, 2), Encode(h.dport, 2), Encode(h.seqno, 4), Encode(h.ackno, 4);
    var e5, e6, e7 := Encode(h.doff * 16, 1), Encode(FlagByte(h), 1), Encode(h.win, 2);
    Assoc(e7, [], rest);
    Assoc(e6, e7 + [], rest);
    Assoc(e5, e6 + (e7 + []), rest);
    Assoc(e4, e5 + (e6 + (e7 + [])), rest);
    Assoc(e3, e4 + (e5 + (e6 + (e7 + []))), rest);
    Assoc(e2, e3 + (e4 + (e5 + (e6 + (e7 + [])))), rest);
    Assoc(e1, e2 + (e3 + (e4 + (e5 + (e6 + (e7 + []))))), rest);
    assert [] + rest == rest;
  }

  lemma LayoutAppend(h: Header, tail: seq<Byte>, more: seq<Byte>)
    ensures Layout(h, tail) + more == Layout(h, tail + more)
    ensures |Layout(h, tail)| == TCP_LENGTH + |tail|
  {
    var c, u := Encode(h.cksum, 2), Encode(h.uptr, 2);
    hide HeadThen;
    HeadSplit(h, c + (u + tail));
    HeadSplit(h, c + (u + (tail + more)));
    Assoc(u, tail, more);
    Assoc(c, u + tail, more);
    Assoc(HeadThen(h, []), c + (u + tail), more);
  }

  lemma FlagsReadBack(h: Header)
    ensures var b := FlagByte(h);
            && HasBit(b, 32) == h.urg && HasBit(b, 16) == h.ack && HasBit(b, 8) == h.psh
            && HasBit(b, 4) == h.rst && HasBit(b, 2) == h.syn && HasBit(b, 1) == h.fin
  {
  }

  /** A serialized header, followed by anything, parses to itself and leaves what followed. */
  lemma HeaderRoundTrip(h: Header, payload: seq<Byte>)
    requires 5 <= h.doff <= 15
    ensures var bytes := SerializeHeader(h).value;
            ParseHeader(Parser(bytes + payload, NoError)) == Parsed(NoError, h, Parser(payload, NoError))
  {
    hide Layout, Rest, U8At, U16At, U32At, FlagByte, HasBit;
    var pad := Zeros(4 * h.doff - TCP_LENGTH);
    LayoutAppend(h, pad, payload);
    FieldsReadBack(h, pad + payload);
    FlagsReadBack(h);
    Skip(pad, payload);
  }

  lemma FieldsReadBack(h: Header, tail: seq<Byte>)
    requires h.doff <= 15
    ensures var p := Parser(Layout(h, tail), NoError);
            var p1 := Rest(p, 2);
            var p2 := Rest(p1, 2);
            var p3 := Rest(p2, 4);
            var p4 := Rest(p3, 4);
            var p5 := Rest(p4, 1);
            var p6 := Rest(p5, 1);
            var p7 := Rest(p6, 2);
            var p8 := Rest(p7, 2);
            && U16At(p) == h.sport && U16At(p1) == h.dport && U32At(p2) == h.seqno && U32At(p3) == h.ackno
            && U8At(p4) == h.doff * 16 && U8At(p5) == FlagByte(h)
            && U16At(p6) == h.win && U16At(p7) == h.cksum && U16At(p8) == h.uptr
            && Rest(p8, 2) == Parser(tail, NoError)
  {
    hide Encode, U8At, U16At, U32At, Rest, FlagByte;
    var r8 := Encode(h.uptr, 2) + tail;
    var r7 := Encode(h.cksum, 2) + r8;
    var r6 := Encode(h.win, 2) + r7;
    var r5 := Encode(FlagByte(h), 1) + r6;
    var r4 := Encode(h.doff * 16, 1) + r5;
    var r3 := Encode(h.ackno, 4) + r4;
    var r2 := Encode(h.seqno, 4) + r3;
    var r1 := Encode(h.dport, 2) + r2;
    ReadBack16(h.sport, r1);
    ReadBack16(h.dport, r2);
    ReadBack32(h.seqno, r3);
    ReadBack32(h.ackno, r4);
    ReadBack8(h.doff * 16, r5);
    ReadBack8(FlagByte(h), r6);
    ReadBack16(h.win, r7);
    ReadBack16(h.cksum, r8);
    ReadBack16(h.uptr, tail);
  }

  /** The segment with its checksum filled in. */
  function Sealed(seg: Segment, initial: U32): (s: Segment)
    requires seg.header.doff >= 5
  {
    var zeroed := SerializeHeader(seg.header.(cksum := 0)).value;
    seg.(header := seg.header.(cksum := Checksum(RunningSum(initial, zeroed + seg.payload))))
  }

  /** TCPSegment::serialize; None where the C++ throws. */
  function SerializeSegment(seg: Segment, initial: U32): Option<seq<Byte>> {
    if seg.header.doff < 5 then None
    else Some(SerializeHeader(Sealed(seg, initial).header).value + seg.payload)
  }

  /** TCPSegment::parse into an object that held prev; the header's own verdict is ignored. */
  function ParseSegment(prev: Segment, buffer: seq<Byte>, initial: U32): (r: (ParseResult, Segment)) {
    if Checksum(RunningSum(initial, buffer)) != 0 then (BadChecksum, prev)
    else
      var parsed := ParseHeader(Parser(buffer, NoError));
      (parsed.parser.error, Segment(parsed.header, parsed.parser.buffer))
  }

  /** The checksum sits in bytes 16 and 17 and nowhere else. */
  lemma ChecksumField(h: Header, tail: seq<Byte>, c: U16)
    ensures var zeroed := Layout(h.(cksum := 0), tail);
            && |zeroed| >= 18 && zeroed[16] == 0 && zeroed[17] == 0
            && Layout(h.(cksum := c), tail) == WithField(zeroed, 16, c)
  {
    hide HeadThen, Encode, WithField;
    var rest := Encode(h.uptr, 2) + tail;
    HeadSplit(h.(cksum := 0), Encode(0, 2) + rest);
    HeadSplit(h.(cksum := c), Encode(c, 2) + rest);
    SameHead(h, c);
    Encode16(0);
    Encode16(c);
    WithFieldAt(HeadThen(h, []), rest, c);
  }

  lemma SameHead(h: Header, c: U16)
    ensures HeadThen(h.(cksum := c), []) == HeadThen(h, [])
    ensures HeadThen(h.(cksum := 0), []) == HeadThen(h, [])
  {
    hide Encode;
  }

  /** Filling in the checksum makes the whole check. */
  lemma SealedChecks(h: Header, tail: seq<Byte>, initial: U32)
    requires initial <= 0x10_0000 && TCP_LENGTH + |tail| <= 0xffff
    ensures var c := Checksum(RunningSum(initial, Layout(h.(cksum := 0), tail)));
            Checksum(RunningSum(initial, Layout(h.(cksum := c), tail))) == 0
  {
    hide Layout, RunningSum, Checksum, WordSum;
    var zeroed := Layout(h.(cksum := 0), tail);
    var c := Checksum(RunningSum(initial, zeroed));
    var done := Layout(h.(cksum := c), tail);
    LayoutAppend(h.(cksum := 0), tail, []);
    LayoutAppend(h.(cksum := c), tail, []);
    ChecksumField(h, tail, c);
    NoOverflow(initial, zeroed);
    NoOverflow(initial, done);
    FieldMakesItCheck(initial, zeroed, 16);
  }

  /** A segment that is serialized, with any pseudo-header sum, parses under the same sum: no error,
      the same payload, and the same header but for the checksum filled in. */
  lemma SegmentRoundTrip(seg: Segment, prev: Segment, initial: U32)
    requires 5 <= seg.header.doff <= 15 && initial <= 0x10_0000
    requires 4 * seg.header.doff + |seg.payload| <= 0xffff
    ensures var bytes := SerializeSegment(seg, initial);
            && bytes.Some? && |bytes.value| == 4 * seg.header.doff + |seg.payload|
            && ParseSegment(prev, bytes.value, initial) == (NoError, Sealed(seg, initial))
            && Sealed(seg, initial) == seg.(header := seg.header.(cksum := Sealed(seg, initial).header.cksum))
  {
    hide Layout, ParseHeader, RunningSum, Checksum;
    var h, pad := seg.header, Zeros(4 * seg.header.doff - TCP_LENGTH);
    var c := Checksum(RunningSum(initial, Layout(h.(cksum := 0), pad) + seg.payload));
    LayoutAppend(h.(cksum := 0), pad, seg.payload);
    LayoutAppend(h.(cksum := c), pad, seg.payload);
    SealedChecks(h, pad + seg.payload, initial);
    HeaderRoundTrip(h.(cksum := c), seg.payload);
  }

  /** The data offset field of a segment. */
  function DataOffset(buffer: seq<Byte>): nat
    requires |buffer| >= TCP_LENGTH
  {
    buffer[12] / 16
  }

  /** Where the fields are, as the header diagram in section 3.1 of RFC 793 has them. */
  lemma FieldPositions(buffer: seq<Byte>)
    requires |buffer| >= TCP_LENGTH
    ensures var h := ParseHeader(Parser(buffer, NoError)).header;
            && h.sport == BigEndian(buffer[0..2]) && h.dport == BigEndian(buffer[2..4])
            && h.seqno == BigEndian(buffer[4..8]) && h.ackno == BigEndian(buffer[8..12])
            && h.doff == DataOffset(buffer)
            && h.urg == HasBit(buffer[13], 32) && h.ack == HasBit(buffer[13], 16) && h.psh == HasBit(buffer[13], 8)
            && h.rst == HasBit(buffer[13], 4) && h.syn == HasBit(buffer[13], 2) && h.fin == HasBit(buffer[13], 1)
            && h.win == BigEndian(buffer[14..16]) && h.cksum == BigEndian(buffer[16..18])
            && h.uptr == BigEndian(buffer[18..20])
    ensures var r := ParseHeader(Parser(buffer, NoError));
            r.parser == if r.header.doff < 5 then Parser(buffer[TCP_LENGTH..], NoError)
                        else Rest(Parser(buffer[TCP_LENGTH..], NoError), 4 * r.header.doff - TCP_LENGTH)
  {
    hide Rest, U8At, U16At, U32At, HasBit, BigEndian;
    assert buffer[0..] == buffer;
    Read16(buffer, 0);
    Read16(buffer, 2);
    Read32(buffer, 4);
    Read32(buffer, 8);
    Read8(buffer, 12);
    Read8(buffer, 13);
    Read16(buffer, 14);
    Read16(buffer, 16);
    Read16(buffer, 18);
  }

  lemma ShortHeader(buffer: seq<Byte>)
    requires |buffer| < TCP_LENGTH
    ensures ParseHeader(Parser(buffer, NoError)).parser.error != NoError
  {
    hide U8At, U16At, U32At, HasBit;
  }

  /** Exactly which buffers are accepted: the checksum must come out and a header must fit. A data
      offset that is too small does not matter, although the header parser reports it. */
  lemma SegmentAcceptedIff(prev: Segment, buffer: seq<Byte>, initial: U32)
    ensures ParseSegment(prev, buffer, initial).0 == NoError <==>
            && Checksum(RunningSum(initial, buffer)) == 0
            && |buffer| >= TCP_LENGTH
            && (DataOffset(buffer) >= 5 ==> 4 * DataOffset(buffer) <= |buffer|)
  {
    hide ParseHeader;
    if |buffer| < TCP_LENGTH {
      ShortHeader(buffer);
    } else {
      FieldPositions(buffer);
    }
  }

  /** For every buffer: it is accepted as a segment although the header parser objects exactly if the
      checksum comes out, there are 20 bytes, and the data offset is below the minimum of 5. */
  lemma AgainstVerdictIff(prev: Segment, buffer: seq<Byte>, initial: U32)
    ensures var verdict := ParseHeader(Parser(buffer, NoError)).result;
            && (ParseSegment(prev, buffer, initial).0 == NoError && verdict != NoError <==>
                && Checksum(RunningSum(initial, buffer)) == 0
                && |buffer| >= TCP_LENGTH && DataOffset(buffer) < 5)
            && (|buffer| >= TCP_LENGTH && DataOffset(buffer) < 5 ==> verdict == HeaderTooShort)
  {
    SegmentAcceptedIff(prev, buffer, initial);
    Verdict(buffer);
    hide ParseHeader, ParseSegment;
    if |buffer| >= TCP_LENGTH {
      FieldPositions(buffer);
    }
  }

  lemma Verdict(buffer: seq<Byte>)
    ensures var r := ParseHeader(Parser(buffer, NoError));
            r.result == if r.header.doff < 5 then HeaderTooShort else r.parser.error
  {
    hide U8At, U16At, U32At, HasBit, Rest;
  }

  /** Twenty bytes whose data offset is 0 and whose checksum comes out. */
  function NoOffset(): seq<Byte> {
    [0xff, 0xff] + Zeros(18)
  }

  /** The documented refusal of a data offset that is too small fails on this buffer. */
  lemma NoOffsetIsAccepted(prev: Segment)
    ensures ParseSegment(prev, NoOffset(), 0).0 == NoError
    ensures ParseHeader(Parser(NoOffset(), NoError)).result == HeaderTooShort
  {
    PairSum(0xff, 0xff, Zeros(18));
    ZerosSum(18, false);
    assert RunningSum(0, NoOffset()) == 0xffff;
    assert DataOffset(NoOffset()) == 0;
    hide ParseHeader, ParseSegment, RunningSum;
    ChecksToZeroIff(0xffff);
    AgainstVerdictIff(prev, NoOffset(), 0);
  }

  /** What serializing puts where the parser does not look: the reserved bits and the options are 0. */
  lemma HeaderBytes(h: Header)
    requires 5 <= h.doff <= 15
    ensures var bytes := SerializeHeader(h).value;
            && |bytes| == 4 * h.doff
            && bytes[12] == 16 * h.doff && bytes[13] == FlagByte(h) < 64
            && forall k :: TCP_LENGTH <= k < |bytes| ==> bytes[k] == 0
  {
    hide Encode;
    var tail := Zeros(4 * h.doff - TCP_LENGTH);
    var bytes := Layout(h, tail);
    LayoutAppend(h, [], tail);
    assert [] + tail == tail;
    Small(h.doff * 16);
    Small(FlagByte(h));
    var front := Encode(h.sport, 2) + (Encode(h.dport, 2) + (Encode(h.seqno, 4) + Encode(h.ackno, 4)));
    var back := Encode(h.win, 2) + (Encode(h.cksum, 2) + (Encode(h.uptr, 2) + tail));
    assert bytes == front + (Encode(h.doff * 16, 1) + (Encode(FlagByte(h), 1) + back));
    assert |front| == 12;
    forall k | TCP_LENGTH <= k < |bytes|
      ensures bytes[k] == 0
    {
      assert bytes[k] == (Layout(h, []) + tail)[k];
    }
  }

  lemma Small(value: Byte)
    ensures Encode(value, 1) == [value]
  {
  }

  /** Serializing fails exactly on a data offset that is too small. */
  lemma SerializesIff(seg: Segment, initial: U32)
    ensures SerializeHeader(seg.header).Some? <==> seg.header.doff >= 5
    ensures SerializeSegment(seg, initial).Some? <==> seg.header.doff >= 5
  {
  }

  /** The verdict on any buffer, and that a bad checksum leaves the old segment in place. */
  lemma SegmentVerdict(prev: Segment, buffer: seq<Byte>, initial: U32)
    ensures var (result, seg) := ParseSegment(prev, buffer, initial);
            if Checksum(RunningSum(initial, buffer)) != 0 then result == BadChecksum && seg == prev
            else if |buffer| < TCP_LENGTH then result == PacketTooShort
            else if 5 <= DataOffset(buffer) && 4 * DataOffset(buffer) > |buffer| then result == PacketTooShort
            else result == NoError
                 && seg.payload == buffer[if DataOffset(buffer) < 5 then TCP_LENGTH else 4 * DataOffset(buffer)..]
  {
    hide ParseHeader;
    if |buffer| < TCP_LENGTH {
      ShortHeader(buffer);
      OnlyTooShort(buffer);
    } else {
      FieldPositions(buffer);
    }
  }

  lemma OnlyTooShort(buffer: seq<Byte>)
    ensures ParseHeader(Parser(buffer, NoError)).parser.error in {NoError, PacketTooShort}
  {
    hide U8At, U16At, U32At, HasBit;
  }
}
