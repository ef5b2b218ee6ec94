/** IPv4 headers and datagrams on the wire (section 3.1 of RFC 791). */
module Ipv4Wire {
  import opened Words
  import opened Checksums
  import opened Parsers
  import opened TcpSegments
  import TcpWire

  const IP_LENGTH: nat := 20

  datatype IpHeader = IpHeader(ver: Byte, hlen: Byte, tos: Byte, len: U16, id: U16, df: bool, mf: bool,
                               offset: U16, ttl: Byte, proto: Byte, cksum: U16, src: U32, dst: U32)
  {
    /** In 16-bit arithmetic. */
    function PayloadLength(): U16 {
      (len - 4 * hlen) % TWO16
    }

    /** The pseudo-header's contribution to the checksum of an encapsulated segment. */
    function PseudoSum(): (sum: U32)
      ensures sum <= 0x10_0000
    {
      src / TWO16 + src % TWO16 + dst / TWO16 + dst % TWO16 + proto + PayloadLength()
    }
  }

  datatype Datagram = Datagram(header: IpHeader, payload: seq<Byte>)

  function FirstByte(h: IpHeader): Byte {
    (h.ver * 16 + h.hlen % 16) % 0x100
  }

  function FragmentWord(h: IpHeader): U16 {
    Bit(h.df, 0x4000) + Bit(h.mf, 0x2000) + h.offset % 0x2000
  }

  /** The fields in front of the checksum, and then rest. */
  function HeadThen(h: IpHeader, rest: seq<Byte>): seq<Byte> {
    Encode(FirstByte(h), 1) + (Encode(h.tos, 1) + (Encode(h.len, 2) + (Encode(h.id, 2)
    + (Encode(FragmentWord(h), 2) + (Encode(h.ttl, 1) + (Encode(h.proto, 1) + rest))))))
  }

  /** A header of 20 bytes, and then tail. */
  function Layout(h: IpHeader, tail: seq<Byte>): seq<Byte> {
    HeadThen(h, Encode(h.cksum, 2) + (Encode(h.src, 4) + (Encode(h.dst, 4) + tail)))
  }

  /** IPv4Header::serialize; None where the C++ throws. */
  function SerializeHeader(h: IpHeader): Option<seq<Byte>> {
    if h.ver != 4 || 4 * h.hlen < IP_LENGTH then None
    else Some(Layout(h, Zeros(4 * h.hlen - IP_LENGTH)))
  }

  datatype Parsed = Parsed(result: ParseResult, header: IpHeader, parser: Parser)

  /** The fixed fields, read off the front of a buffer of at least 20 bytes. */
  function ReadFields(p: Parser): Parsed {
    var p1 := Rest(p, 1);
    var p2 := Rest(p1, 1);
    var p3 := Rest(p2, 2);
    var p4 := Rest(p3, 2);
    var p5 := Rest(p4, 2);
    var p6 := Rest(p5, 1);
    var p7 := Rest(p6, 1);
    var p8 := Rest(p7, 2);
    var p9 := Rest(p8, 4);
    var first, word := U8At(p), U16At(p4);
    Parsed(NoError,
           IpHeader(first / 16, first % 16, U8At(p1), U16At(p2), U16At(p3),
                    word / 0x4000 % 2 == 1, word / 0x2000 % 2 == 1, word % 0x2000,
                    U8At(p5), U8At(p6), U16At(p7), U32At(p8), U32At(p9)),
           Rest(p9, 4))
  }

  /** IPv4Header::parse into a header that held prev. */
  function ParseHeader(prev: IpHeader, p: Parser): Parsed {
    var size := |p.buffer|;
    if size < IP_LENGTH then Parsed(PacketTooShort, prev, p)
    else
      var f := ReadFields(p);
      var h := f.header;
      if size < 4 * h.hlen then f.(result := PacketTooShort)
      else if h.ver != 4 then f.(result := WrongIPVersion)
      else if h.hlen < 5 then f.(result := HeaderTooShort)
      else if size != h.len then f.(result := TruncatedPacket)
      else
        var q := Rest(f.parser, 4 * h.hlen - IP_LENGTH);
        if q.error != NoError then Parsed(q.error, h, q)
        else if Checksum(RunningSum(0, p.buffer[..4 * h.hlen])) != 0 then Parsed(BadChecksum, h, q)
        else Parsed(NoError, h, q)
  }

  /** The header with its checksum, which covers the header only, filled in. */
  function Sealed(h: IpHeader): (s: IpHeader)
    requires SerializeHeader(h).Some?
  {
    h.(cksum := Checksum(RunningSum(0, SerializeHeader(h.(cksum := 0)).value)))
  }

  /** IPv4Datagram::serialize; None where the C++ throws. */
  function SerializeDatagram(d: Datagram): Option<seq<Byte>> {
    if |d.payload| != d.header.PayloadLength() || SerializeHeader(d.header).None? then None
    else Some(SerializeHeader(Sealed(d.header)).value + d.payload)
  }

  /** IPv4Datagram::parse into an object whose header was prev; the header's own verdict is ignored. */
  function ParseDatagram(prev: IpHeader, buffer: seq<Byte>): (ParseResult, Datagram) {
    var parsed := ParseHeader(prev, Parser(buffer, NoError));
    var d := Datagram(parsed.header, parsed.parser.buffer);
    if |d.payload| != d.header.PayloadLength() then (PacketTooShort, d)
    else (parsed.parser.error, d)
  }

  lemma HeadSplit(h: IpHeader, rest: seq<Byte>)
    ensures |HeadThen(h, [])| == 10 && HeadThen(h, rest) == HeadThen(h, []) + rest
  {
    var e1, e2, e3, e4 := Encode(FirstByte(h), 1), Encode(h.tos, 1), Encode(h.len, 2), Encode(h.id, 2);
    var e5, e6, e7 := Encode(FragmentWord(h), 2), Encode(h.ttl, 1), Encode(h.proto, 1);
    hide FirstByte, FragmentWord, Encode;
    Assoc(e7, [], rest);
    Assoc(e6, e7 + [], rest);
    Assoc(e5, e6 + (e7 + []), rest);
    Assoc(e4, e5 + (e6 + (e7 + [])), rest);
    Assoc(e3, e4 + (e5 + (e6 + (e7 + []))), rest);
    Assoc(e2, e3 + (e4 + (e5 + (e6 + (e7 + [])))), rest);
    Assoc(e1, e2 + (e3 + (e4 + (e5 + (e6 + (e7 + []))))), rest);
    assert [] + rest == rest;
  }

  lemma LayoutAppend(h: IpHeader, tail: seq<Byte>, more: seq<Byte>)
    ensures Layout(h, tail) + more == Layout(h, tail + more)
    ensures |Layout(h, tail)| == IP_LENGTH + |tail|
  {
    hide HeadThen;
    var c, s, d := Encode(h.cksum, 2), Encode(h.src, 4), Encode(h.dst, 4);
    HeadSplit(h, c + (s + (d + tail)));
    HeadSplit(h, c + (s + (d + (tail + more))));
    Assoc(d, tail, more);
    Assoc(s, d + tail, more);
    Assoc(c, s + (d + tail), more);
    Assoc(HeadThen(h, []), c + (s + (d + tail)), more);
  }

  lemma FieldsReadBack(h: IpHeader, tail: seq<Byte>)
    ensures var p := Parser(Layout(h, tail), NoError);
            var p1 := Rest(p, 1);
            var p2 := Rest(p1, 1);
            var p3 := Rest(p2, 2);
            var p4 := Rest(p3, 2);
            var p5 := Rest(p4, 2);
            var p6 := Rest(p5, 1);
            var p7 := Rest(p6, 1);
            var p8 := Rest(p7, 2);
            var p9 := Rest(p8, 4);
            && U8At(p) == FirstByte(h) && U8At(p1) == h.tos && U16At(p2) == h.len && U16At(p3) == h.id
            && U16At(p4) == FragmentWord(h) && U8At(p5) == h.ttl && U8At(p6) == h.proto
            && U16At(p7) == h.cksum && U32At(p8) == h.src && U32At(p9) == h.dst
            && Rest(p9, 4) == Parser(tail, NoError)
  {
    hide Encode, U8At, U16At, U32At, Rest, FirstByte, FragmentWord;
    var r9 := Encode(h.dst, 4) + tail;
    var r8 := Encode(h.src, 4) + r9;
    var r7 := Encode(h.cksum, 2) + r8;
    var r6 := Encode(h.proto, 1) + r7;
    var r5 := Encode(h.ttl, 1) + r6;
    var r4 := Encode(FragmentWord(h), 2) + r5;
    var r3 := Encode(h.id, 2) + r4;
    var r2 := Encode(h.len, 2) + r3;
    var r1 := Encode(h.tos, 1) + r2;
    ReadBack8(FirstByte(h), r1);
    ReadBack8(h.tos, r2);
    ReadBack16(h.len, r3);
    ReadBack16(h.id, r4);
    ReadBack16(FragmentWord(h), r5);
    ReadBack8(h.ttl, r6);
    ReadBack8(h.proto, r7);
    ReadBack16(h.cksum, r8);
    ReadBack32(h.src, r9);
    ReadBack32(h.dst, tail);
  }

  /** A header whose fields fit their places on the wire. */
  predicate Representable(h: IpHeader) {
    h.ver == 4 && 5 <= h.hlen <= 15 && h.offset < 0x2000
  }

  lemma FirstByteReadBack(h: IpHeader)
    requires Representable(h)
    ensures FirstByte(h) / 16 == h.ver && FirstByte(h) % 16 == h.hlen
  {
  }

  lemma FragmentReadBack(h: IpHeader)
    requires Representable(h)
    ensures var w := FragmentWord(h);
            (w / 0x4000 % 2 == 1) == h.df && (w / 0x2000 % 2 == 1) == h.mf && w % 0x2000 == h.offset
  {
    assert h.offset % 0x2000 == h.offset;
  }

  lemma HeaderReadBack(h: IpHeader, tail: seq<Byte>)
    requires Representable(h)
    ensures ReadFields(Parser(Layout(h, tail), NoError)) == Parsed(NoError, h, Parser(tail, NoError))
  {
    hide Layout, Rest, U8At, U16At, U32At, FirstByte, FragmentWord;
    FieldsReadBack(h, tail);
    FirstByteReadBack(h);
    FragmentReadBack(h);
  }

  lemma SameHead(h: IpHeader, c: U16)
    ensures HeadThen(h.(cksum := c), []) == HeadThen(h, [])
    ensures HeadThen(h.(cksum := 0), []) == HeadThen(h, [])
  {
    hide Encode;
  }

  /** The checksum sits in bytes 10 and 11 and nowhere else. */
  lemma ChecksumField(h: IpHeader, tail: seq<Byte>, c: U16)
    ensures var zeroed := Layout(h.(cksum := 0), tail);
            && |zeroed| >= 12 && zeroed[10] == 0 && zeroed[11] == 0
            && Layout(h.(cksum := c), tail) == WithField(zeroed, 10, c)
  {
    hide HeadThen, Encode, WithField;
    var rest := Encode(h.src, 4) + (Encode(h.dst, 4) + tail);
    HeadSplit(h.(cksum := 0), Encode(0, 2) + rest);
    HeadSplit(h.(cksum := c), Encode(c, 2) + rest);
    SameHead(h, c);
    Encode16(0);
    Encode16(c);
    WithFieldAt(HeadThen(h, []), rest, c);
  }

  lemma SealedChecks(h: IpHeader, pad: seq<Byte>)
    requires |pad| <= 40
    ensures var c := Checksum(RunningSum(0, Layout(h.(cksum := 0), pad)));
            Checksum(RunningSum(0, Layout(h.(cksum := c), pad))) == 0
  {
    hide Layout, RunningSum, Checksum, WordSum;
    var zeroed := Layout(h.(cksum := 0), pad);
    var c := Checksum(RunningSum(0, zeroed));
    LayoutAppend(h.(cksum := 0), pad, []);
    LayoutAppend(h.(cksum := c), pad, []);
    ChecksumField(h, pad, c);
    NoOverflow(0, zeroed);
    NoOverflow(0, Layout(h.(cksum := c), pad));
    FieldMakesItCheck(0, zeroed, 10);
  }

  /** A datagram whose header fits the wire and whose length field is right serializes, and parses
      back without error, with the same payload and the same header but for the checksum. */
  lemma DatagramRoundTrip(d: Datagram, prev: IpHeader)
    requires Representable(d.header) && d.header.len == 4 * d.header.hlen + |d.payload|
    ensures var bytes := SerializeDatagram(d);
            && bytes.Some?
            && ParseHeader(prev, Parser(bytes.value, NoError)).result == NoError
            && ParseDatagram(prev, bytes.value) == (NoError, d.(header := Sealed(d.header)))
            && Sealed(d.header) == d.header.(cksum := Sealed(d.header).cksum)
  {
    hide Layout, RunningSum, Checksum, ReadFields;
    var h, pad := d.header, Zeros(4 * d.header.hlen - IP_LENGTH);
    var done := Sealed(h);
    var bytes := Layout(done, pad) + d.payload;
    assert SerializeDatagram(d) == Some(bytes);
    LayoutAppend(done, pad, d.payload);
    HeaderReadBack(done, pad + d.payload);
    Skip(pad, d.payload);
    SealedChecks(h, pad);
    assert bytes[..4 * h.hlen] == Layout(done, pad);
  }

  /** The whole way: a TCP segment serialized into a datagram comes out of the parsed datagram again,
      under the pseudo-header sum that the receiver computes from the header it parsed. */
  lemma EncapsulatedRoundTrip(seg: Segment, h: IpHeader, prevIp: IpHeader, prevTcp: Segment)
    requires Representable(h) && 5 <= seg.header.doff <= 15
    requires h.len == 4 * h.hlen + 4 * seg.header.doff + |seg.payload|
    ensures var sum := h.PseudoSum();
            var inner := TcpWire.SerializeSegment(seg, sum);
            && inner.Some?
            && var outer := SerializeDatagram(Datagram(h, inner.value));
            && outer.Some?
            && var (result, got) := ParseDatagram(prevIp, outer.value);
            && result == NoError && got.header.PseudoSum() == sum
            && TcpWire.ParseSegment(prevTcp, got.payload, sum) == (NoError, TcpWire.Sealed(seg, sum))
  {
    hide ParseDatagram, SerializeDatagram, TcpWire.SerializeSegment, TcpWire.ParseSegment, TcpWire.Sealed;
    TcpWire.SegmentRoundTrip(seg, prevTcp, h.PseudoSum());
    var inner := TcpWire.SerializeSegment(seg, h.PseudoSum()).value;
    DatagramRoundTrip(Datagram(h, inner), prevIp);
    SamePseudoSum(h, Sealed(h).cksum);
  }

  lemma SamePseudoSum(h: IpHeader, c: U16)
    ensures h.(cksum := c).PseudoSum() == h.PseudoSum()
  {
  }

  /** Where the fields are, as the header diagram in section 3.1 of RFC 791 has them. */
  lemma FieldPositions(buffer: seq<Byte>)
    requires |buffer| >= IP_LENGTH
    ensures var f := ReadFields(Parser(buffer, NoError));
            var h := f.header;
            && h.ver == buffer[0] / 16 && h.hlen == buffer[0] % 16 && h.tos == buffer[1]
            && h.len == BigEndian(buffer[2..4]) && h.id == BigEndian(buffer[4..6])
            && h.df == (BigEndian(buffer[6..8]) / 0x4000 % 2 == 1)
            && h.mf == (BigEndian(buffer[6..8]) / 0x2000 % 2 == 1)
            && h.offset == BigEndian(buffer[6..8]) % 0x2000
            && h.ttl == buffer[8] && h.proto == buffer[9] && h.cksum == BigEndian(buffer[10..12])
            && h.src == BigEndian(buffer[12..16]) && h.dst == BigEndian(buffer[16..20])
            && f.parser == Parser(buffer[IP_LENGTH..], NoError)
  {
    hide Rest, U8At, U16At, U32At, BigEndian;
    assert buffer[0..] == buffer;
    Read8(buffer, 0);
    Read8(buffer, 1);
    Read16(buffer, 2);
    Read16(buffer, 4);
    Read16(buffer, 6);
    Read8(buffer, 8);
    Read8(buffer, 9);
    Read16(buffer, 10);
    Read32(buffer, 12);
    Read32(buffer, 16);
  }

  /** The header of a buffer of at least 20 bytes passes every check but that of the checksum. */
  predicate WellFormed(buffer: seq<Byte>)
    requires |buffer| >= IP_LENGTH
  {
    && buffer[0] / 16 == 4 && 5 <= buffer[0] % 16
    && 4 * (buffer[0] % 16) <= |buffer| == BigEndian(buffer[2..4])
  }

  /** Exactly which buffers are accepted as datagrams: every well-formed one, even with a wrong
      header checksum, and of the others those whose length fields happen to claim 20 bytes less
      than there are. Buffers shorter than a header are refused if the object is fresh. */
  lemma DatagramAcceptedIff(prev: IpHeader, buffer: seq<Byte>)
    ensures ParseDatagram(prev, buffer).0 == NoError <==>
            if |buffer| < IP_LENGTH then |buffer| == prev.PayloadLength()
            else WellFormed(buffer)
                 || |buffer| - IP_LENGTH == (BigEndian(buffer[2..4]) - 4 * (buffer[0] % 16)) % TWO16
  {
    hide ReadFields, Checksum, RunningSum, WellFormed, BigEndian;
    if |buffer| < IP_LENGTH {
      assert ParseHeader(prev, Parser(buffer, NoError)) == Parsed(PacketTooShort, prev, Parser(buffer, NoError));
    } else {
      hide ParseHeader;
      WhatIsLeft(prev, buffer);
      if WellFormed(buffer) {
        WellFormedLength(prev, buffer);
      }
    }
  }

  lemma WellFormedLength(prev: IpHeader, buffer: seq<Byte>)
    requires |buffer| >= IP_LENGTH && WellFormed(buffer)
    ensures 4 * (buffer[0] % 16) <= |buffer|
    ensures ParseHeader(prev, Parser(buffer, NoError)).header.PayloadLength() == |buffer| - 4 * (buffer[0] % 16)
  {
    hide ParseHeader, BigEndian;
    WhatIsLeft(prev, buffer);
    var h := ParseHeader(prev, Parser(buffer, NoError)).header;
    NoBorrow(h.len, 4 * h.hlen);
  }

  lemma NoBorrow(n: U16, m: nat)
    requires m <= n
    ensures (n - m) % TWO16 == n - m
  {
  }

  /** Parsing takes the whole header off a well-formed buffer, and 20 bytes off any other. */
  lemma WhatIsLeft(prev: IpHeader, buffer: seq<Byte>)
    requires |buffer| >= IP_LENGTH
    ensures var r := ParseHeader(prev, Parser(buffer, NoError));
            && r.header.len == BigEndian(buffer[2..4]) && r.header.hlen == buffer[0] % 16
            && r.parser == Parser(buffer[if WellFormed(buffer) then 4 * (buffer[0] % 16) else IP_LENGTH..], NoError)
  {
    hide ReadFields, Checksum, RunningSum, BigEndian;
    FieldPositions(buffer);
    if WellFormed(buffer) {
      ReadAt(buffer, IP_LENGTH, 4 * (buffer[0] % 16) - IP_LENGTH);
    }
  }

  /** For every buffer: it is accepted as a datagram although the header parser objects exactly if it
      is well-formed and its header checksum is wrong, or it is not well-formed and its length
      fields happen to fit. */
  lemma AgainstVerdictIff(prev: IpHeader, buffer: seq<Byte>)
    ensures ParseDatagram(prev, buffer).0 == NoError
            && ParseHeader(prev, Parser(buffer, NoError)).result != NoError <==>
            if |buffer| < IP_LENGTH then |buffer| == prev.PayloadLength()
            else if WellFormed(buffer) then Checksum(RunningSum(0, buffer[..4 * (buffer[0] % 16)])) != 0
            else |buffer| - IP_LENGTH == (BigEndian(buffer[2..4]) - 4 * (buffer[0] % 16)) % TWO16
  {
    hide Checksum, RunningSum, BigEndian, ParseDatagram;
    DatagramAcceptedIff(prev, buffer);
    if |buffer| >= IP_LENGTH {
      Verdict(prev, buffer);
    }
    hide ReadFields;
  }

  /** The verdict of the header parser on any buffer of at least 20 bytes. */
  lemma Verdict(prev: IpHeader, buffer: seq<Byte>)
    requires |buffer| >= IP_LENGTH
    ensures var verdict := ParseHeader(prev, Parser(buffer, NoError)).result;
            if WellFormed(buffer)
            then verdict == (if Checksum(RunningSum(0, buffer[..4 * (buffer[0] % 16)])) == 0 then NoError
                             else BadChecksum)
            else verdict == (if |buffer| < 4 * (buffer[0] % 16) then PacketTooShort
                             else if buffer[0] / 16 != 4 then WrongIPVersion
                             else if buffer[0] % 16 < 5 then HeaderTooShort
                             else TruncatedPacket)
  {
    hide ReadFields, Checksum, RunningSum, BigEndian;
    FieldPositions(buffer);
    if WellFormed(buffer) {
      ReadAt(buffer, IP_LENGTH, 4 * (buffer[0] % 16) - IP_LENGTH);
    }
  }

  /** A header of twenty bytes with nothing in it but version and lengths, and no checksum. */
  function NoChecksum(): seq<Byte> {
    [0x45, 0, 0, 20] + Zeros(16)
  }

  /** The documented refusal of a bad header checksum fails on this buffer. */
  lemma NoChecksumIsAccepted(prev: IpHeader)
    ensures ParseDatagram(prev, NoChecksum()).0 == NoError
    ensures ParseHeader(prev, Parser(NoChecksum(), NoError)).result == BadChecksum
  {
    var bytes := NoChecksum();
    assert bytes == [0x45, 0] + ([0, 20] + Zeros(16));
    PairSum(0x45, 0, [0, 20] + Zeros(16));
    PairSum(0, 20, Zeros(16));
    ZerosSum(16, false);
    assert RunningSum(0, bytes) == 0x4514;
    assert bytes[2..4] == [0, 20];
    assert BigEndian([0, 20]) == 20;
    assert bytes[..20] == bytes;
    hide ParseHeader, ParseDatagram, RunningSum, BigEndian;
    ChecksToZeroIff(0x4514);
    Verdict(prev, bytes);
    DatagramAcceptedIff(prev, bytes);
  }

  /** The pseudo-header of section 3.1 of RFC 793: the addresses, a zero byte and the protocol, and the
      length of the segment. */
  function PseudoHeader(h: IpHeader): seq<Byte> {
    Encode(h.src, 4) + (Encode(h.dst, 4) + ([0, h.proto] + Encode(h.PayloadLength(), 2)))
  }

  /** What a segment's checksum starts from is the sum over the pseudo-header. */
  lemma PseudoSumIsSum(h: IpHeader)
    ensures h.PseudoSum() == WordSum(PseudoHeader(h), false)
  {
    hide WordSum, Encode;
    var n := h.PayloadLength();
    Words32(h.src, Encode(h.dst, 4) + ([0, h.proto] + Encode(n, 2)));
    Words32(h.dst, [0, h.proto] + Encode(n, 2));
    PairSum(0, h.proto, Encode(n, 2));
    Encode16(n);
    assert Encode(n, 2) == [n / 0x100, n % 0x100] + [];
    PairSum(n / 0x100, n % 0x100, []);
    NoWords();
  }

  lemma NoWords()
    ensures WordSum([], false) == 0
  {
  }

  /** So the checksum of a serialized segment, taken over pseudo-header and segment, comes out as 0. */
  lemma ChecksWithPseudoHeader(seg: Segment, h: IpHeader)
    requires 5 <= seg.header.doff <= 15 && 4 * seg.header.doff + |seg.payload| <= 0xffff
    ensures var bytes := TcpWire.SerializeSegment(seg, h.PseudoSum());
            bytes.Some? && Checksum(WordSum(PseudoHeader(h) + bytes.value, false)) == 0
  {
    hide WordSum, Checksum, RunningSum, TcpWire.ParseHeader, Encode;
    var sum := h.PseudoSum();
    TcpWire.SegmentRoundTrip(seg, seg, sum);
    var bytes := TcpWire.SerializeSegment(seg, sum).value;
    assert Checksum(RunningSum(sum, bytes)) == 0;
    NoOverflow(sum, bytes);
    PseudoSumIsSum(h);
    WordSumSplit(PseudoHeader(h), bytes, false);
    assert |PseudoHeader(h)| == 12;
  }

  /** Serializing fails exactly on a wrong version, a header that is too short, or a wrong length. */
  lemma SerializesIff(d: Datagram)
    ensures SerializeDatagram(d).Some? <==>
            && d.header.ver == 4 && d.header.hlen >= 5
            && |d.payload| == (d.header.len - 4 * d.header.hlen) % TWO16
  {
  }

  /** What serializing puts where the parser does not look: the reserved bit and the options are 0. */
  lemma HeaderBytes(h: IpHeader)
    requires Representable(h)
    ensures var bytes := SerializeHeader(h).value;
            && |bytes| == 4 * h.hlen
            && bytes[6] < 0x80
            && forall k :: IP_LENGTH <= k < |bytes| ==> bytes[k] == 0
  {
    hide Encode;
    var tail := Zeros(4 * h.hlen - IP_LENGTH);
    var bytes := Layout(h, tail);
    LayoutAppend(h, [], tail);
    assert [] + tail == tail;
    Encode16(FragmentWord(h));
    var front := Encode(FirstByte(h), 1) + (Encode(h.tos, 1) + (Encode(h.len, 2) + Encode(h.id, 2)));
    var back := Encode(h.ttl, 1) + (Encode(h.proto, 1)
                + (Encode(h.cksum, 2) + (Encode(h.src, 4) + (Encode(h.dst, 4) + tail))));
    assert bytes == front + (Encode(FragmentWord(h), 2) + back);
    assert |front| == 6;
    forall k | IP_LENGTH <= k < |bytes|
      ensures bytes[k] == 0
    {
      assert bytes[k] == (Layout(h, []) + tail)[k];
    }
  }
}
