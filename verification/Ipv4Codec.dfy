/** The IPv4 codec as the C++ runs it, field by field. */
module Ipv4Codec {
  import opened Words
  import opened Checksums
  import opened Parsers
  import opened Ipv4Wire

  method DecodeFields(p: NetParser) returns (h: IpHeader)
    modifies p
    ensures Parsed(NoError, h, p.Model()) == ReadFields(old(p.Model()))
  {
    hide Rest, U8At, U16At, U32At;
    var first := p.U8();
    var tos := p.U8();
    var len := p.U16();
    var id := p.U16();
    var word := p.U16();
    var ttl := p.U8();
    var proto := p.U8();
    var cksum := p.U16();
    var src := p.U32();
    var dst := p.U32();
    h := IpHeader(first / 16, first % 16, tos, len, id,
                  word / 0x4000 % 2 == 1, word / 0x2000 % 2 == 1, word % 0x2000,
                  ttl, proto, cksum, src, dst);
  }

  /** Leaves the old header in place when there is not enough data for a new one. */
  method DecodeHeader(prev: IpHeader, p: NetParser) returns (r: ParseResult, h: IpHeader)
    modifies p
    ensures Parsed(r, h, p.Model()) == ParseHeader(prev, old(p.Model()))
  {
    hide ReadFields, RunningSum;
    var original := p.buffer;
    if |original| < IP_LENGTH {
      return PacketTooShort, prev;
    }
    h := DecodeFields(p);
    if |original| < 4 * h.hlen {
      return PacketTooShort, h;
    }
    if h.ver != 4 {
      return WrongIPVersion, h;
    }
    if h.hlen < 5 {
      return HeaderTooShort, h;
    }
    if |original| != h.len {
      return TruncatedPacket, h;
    }
    p.RemovePrefix(4 * h.hlen - IP_LENGTH);
    if p.error != NoError {
      return p.error, h;
    }
    var c := SumUp(original[..4 * h.hlen]);
    r := if c != 0 then BadChecksum else NoError;
  }

  method SumUp(bytes: seq<Byte>) returns (c: U16)
    ensures c == Checksum(RunningSum(0, bytes))
  {
    var check := new InternetChecksum(0);
    check.Add(bytes);
    assert [] + bytes == bytes;
    c := check.Value();
  }

  /** None where the C++ throws. */
  method EncodeHeader(h: IpHeader) returns (r: Option<seq<Byte>>)
    ensures r == SerializeHeader(h)
  {
    if h.ver != 4 {
      return None;
    }
    if 4 * h.hlen < IP_LENGTH {
      return None;
    }
    ghost var pad := Zeros(4 * h.hlen - IP_LENGTH);
    var ret := UnparseInt([], FirstByte(h), 1);
    ret := UnparseInt(ret, h.tos, 1);
    ret := UnparseInt(ret, h.len, 2);
    ret := UnparseInt(ret, h.id, 2);
    ret := UnparseInt(ret, FragmentWord(h), 2);
    ret := UnparseInt(ret, h.ttl, 1);
    ret := UnparseInt(ret, h.proto, 1);
    ret := UnparseInt(ret, h.cksum, 2);
    ret := UnparseInt(ret, h.src, 4);
    ret := UnparseInt(ret, h.dst, 4);
    Gathered(h, pad);
    ret := ret + Zeros(4 * h.hlen - |ret|);
    r := Some(ret);
  }

  /** Appending the fields one after the other lays them out in order. */
  lemma Gathered(h: IpHeader, pad: seq<Byte>)
    ensures [] + Encode(FirstByte(h), 1) + Encode(h.tos, 1) + Encode(h.len, 2) + Encode(h.id, 2)
            + Encode(FragmentWord(h), 2) + Encode(h.ttl, 1) + Encode(h.proto, 1)
            + Encode(h.cksum, 2) + Encode(h.src, 4) + Encode(h.dst, 4) + pad == Layout(h, pad)
  {
    var e1, e2, e3, e4 := Encode(FirstByte(h), 1), Encode(h.tos, 1), Encode(h.len, 2), Encode(h.id, 2);
    var e5, e6, e7 := Encode(FragmentWord(h), 2), Encode(h.ttl, 1), Encode(h.proto, 1);
    var e8, e9, e10 := Encode(h.cksum, 2), Encode(h.src, 4), Encode(h.dst, 4);
    hide Encode, FirstByte, FragmentWord;
    assert [] + e1 == e1;
    Assoc(e1 + e2 + e3 + e4 + e5 + e6 + e7 + e8 + e9, e10, pad);
    Assoc(e1 + e2 + e3 + e4 + e5 + e6 + e7 + e8, e9, e10 + pad);
    Assoc(e1 + e2 + e3 + e4 + e5 + e6 + e7, e8, e9 + (e10 + pad));
    Assoc(e1 + e2 + e3 + e4 + e5 + e6, e7, e8 + (e9 + (e10 + pad)));
    Assoc(e1 + e2 + e3 + e4 + e5, e6, e7 + (e8 + (e9 + (e10 + pad))));
    Assoc(e1 + e2 + e3 + e4, e5, e6 + (e7 + (e8 + (e9 + (e10 + pad)))));
    Assoc(e1 + e2 + e3, e4, e5 + (e6 + (e7 + (e8 + (e9 + (e10 + pad))))));
    Assoc(e1 + e2, e3, e4 + (e5 + (e6 + (e7 + (e8 + (e9 + (e10 + pad)))))));
    Assoc(e1, e2, e3 + (e4 + (e5 + (e6 + (e7 + (e8 + (e9 + (e10 + pad))))))));
  }

  method DecodeDatagram(prev: IpHeader, buffer: seq<Byte>) returns (r: ParseResult, d: Datagram)
    ensures (r, d) == ParseDatagram(prev, buffer)
  {
    hide ParseHeader;
    var p := new NetParser(buffer);
    var _, header := DecodeHeader(prev, p);
    d := Datagram(header, p.buffer);
    if |d.payload| != header.PayloadLength() {
      return PacketTooShort, d;
    }
    r := p.error;
  }

  method EncodeDatagram(d: Datagram) returns (r: Option<seq<Byte>>)
    ensures r == SerializeDatagram(d)
  {
    hide Layout, RunningSum;
    if |d.payload| != d.header.PayloadLength() {
      return None;
    }
    var zeroed := EncodeHeader(d.header.(cksum := 0));
    if zeroed.None? {
      return None;
    }
    var c := SumUp(zeroed.value);
    var header := EncodeHeader(d.header.(cksum := c));
    return Some(header.value + d.payload);
  }
}
