/** The TCP codec as the C++ runs it: a parser that is consumed field by field, a string that
    grows field by field, and a checksum object that is fed pieces. */
module TcpCodec {
  import opened Words
  import opened Checksums
  import opened Parsers
  import opened TcpSegments
  import opened TcpWire

  method DecodeHeader(p: NetParser) returns (r: ParseResult, h: Header)
    modifies p
    ensures Parsed(r, h, p.Model()) == ParseHeader(old(p.Model()))
  {
    hide Rest, U8At, U16At, U32At, HasBit;
    var sport := p.U16();
    var dport := p.U16();
    var seqno := p.U32();
    var ackno := p.U32();
    var offset := p.U8();
    var flags := p.U8();
    var win := p.U16();
    var cksum := p.U16();
    var uptr := p.U16();
    var doff: Byte := offset / 16;
    h := Header(sport, dport, seqno, ackno, doff,
                HasBit(flags, 32), HasBit(flags, 16), HasBit(flags, 8),
                HasBit(flags, 4), HasBit(flags, 2), HasBit(flags, 1), win, cksum, uptr);
    if doff < 5 {
      return HeaderTooShort, h;
    }
    p.RemovePrefix(4 * doff - TCP_LENGTH);
    r := p.error;
  }

  /** None where the C++ throws. */
  method EncodeHeader(h: Header) returns (r: Option<seq<Byte>>)
    ensures r == SerializeHeader(h)
  {
    if h.doff < 5 {
      return None;
    }
    ghost var pad := Zeros(4 * h.doff - TCP_LENGTH);
    var ret := UnparseInt([], h.sport, 2);
    ret := UnparseInt(ret, h.dport, 2);
    ret := UnparseInt(ret, h.seqno, 4);
    ret := UnparseInt(ret, h.ackno, 4);
    ret := UnparseInt(ret, h.doff * 16, 1);
    ret := UnparseInt(ret, FlagByte(h), 1);
    ret := UnparseInt(ret, h.win, 2);
    ret := UnparseInt(ret, h.cksum, 2);
    ret := UnparseInt(ret, h.uptr, 2);
    Gathered(h, pad);
    ret := ret + Zeros(4 * h.doff - |ret|);
    r := Some(ret);
  }

  /** Appending the fields one after the other lays them out in order. */
  lemma Gathered(h: Header, pad: seq<Byte>)
    ensures [] + Encode(h.sport, 2) + Encode(h.dport, 2) + Encode(h.seqno, 4) + Encode(h.ackno, 4)
            + Encode(h.doff * 16, 1) + Encode(FlagByte(h), 1) + Encode(h.win, 2)
            + Encode(h.cksum, 2) + Encode(h.uptr, 2) + pad == Layout(h, pad)
  {
    var e1, e2, e3, e4 := Encode(h.sport, 2), Encode(h.dport, 2), Encode(h.seqno, 4), Encode(h.ackno, 4);
    var e5, e6, e7 := Encode(h.doff * 16, 1), Encode(FlagByte(h), 1), Encode(h.win, 2);
    var e8, e9 := Encode(h.cksum, 2), Encode(h.uptr, 2);
    hide Encode, FlagByte;
    assert [] + e1 == e1;
    Assoc(e1 + e2 + e3 + e4 + e5 + e6 + e7 + e8, e9, pad);
    Assoc(e1 + e2 + e3 + e4 + e5 + e6 + e7, e8, e9 + pad);
    Assoc(e1 + e2 + e3 + e4 + e5 + e6, e7, e8 + (e9 + pad));
    Assoc(e1 + e2 + e3 + e4 + e5, e6, e7 + (e8 + (e9 + pad)));
    Assoc(e1 + e2 + e3 + e4, e5, e6 + (e7 + (e8 + (e9 + pad))));
    Assoc(e1 + e2 + e3, e4, e5 + (e6 + (e7 + (e8 + (e9 + pad)))));
    Assoc(e1 + e2, e3, e4 + (e5 + (e6 + (e7 + (e8 + (e9 + pad))))));
    Assoc(e1, e2, e3 + (e4 + (e5 + (e6 + (e7 + (e8 + (e9 + pad)))))));
  }

  method DecodeSegment(prev: Segment, buffer: seq<Byte>, initial: U32) returns (r: ParseResult, seg: Segment)
    ensures (r, seg) == ParseSegment(prev, buffer, initial)
  {
    hide ParseHeader;
    var check := new InternetChecksum(initial);
    check.Add(buffer);
    assert [] + buffer == buffer;
    var value := check.Value();
    if value != 0 {
      return BadChecksum, prev;
    }
    var p := new NetParser(buffer);
    var _, header := DecodeHeader(p);
    return p.error, Segment(header, p.buffer);
  }

  method EncodeSegment(seg: Segment, initial: U32) returns (r: Option<seq<Byte>>)
    ensures r == SerializeSegment(seg, initial)
  {
    hide Layout, RunningSum;
    var zeroed := EncodeHeader(seg.header.(cksum := 0));
    if zeroed.None? {
      return None;
    }
    var check := new InternetChecksum(initial);
    check.Add(zeroed.value);
    check.Add(seg.payload);
    assert [] + zeroed.value + seg.payload == zeroed.value + seg.payload;
    var c := check.Value();
    assert c == Sealed(seg, initial).header.cksum;
    var header := EncodeHeader(seg.header.(cksum := c));
    return Some(header.value + seg.payload);
  }
}
