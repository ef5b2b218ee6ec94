/** Reading and writing integers in network byte order, with a sticky error. */
module Parsers {
  import opened Words
  import opened Checksums

  datatype ParseResult = NoError | BadChecksum | PacketTooShort | WrongIPVersion | HeaderTooShort | TruncatedPacket

  /** What is left to read, and whether reading has failed. */
  datatype Parser = Parser(buffer: seq<Byte>, error: ParseResult)

  /** The number that bytes in network order stand for. */
  function BigEndian(bytes: seq<Byte>): nat {
    if bytes == [] then 0
    else 0x100 * BigEndian(bytes[..|bytes| - 1]) + bytes[|bytes| - 1]
  }

  /** The low len bytes of a number in network order. */
  function Encode(value: nat, len: nat): (bytes: seq<Byte>)
    ensures |bytes| == len
  {
    if len == 0 then [] else Encode(value / 0x100, len - 1) + [value % 0x100]
  }

  function Pow256(len: nat): (p: nat)
    ensures p >= 1
  {
    if len == 0 then 1 else 0x100 * Pow256(len - 1)
  }

  /** Network order, spelled out: the most significant byte comes first. */
  lemma NetworkOrder(a: Byte, b: Byte, c: Byte, d: Byte)
    ensures BigEndian([a]) == a
    ensures BigEndian([a, b]) == 0x100 * a + b
    ensures BigEndian([a, b, c, d]) == 0x100_0000 * a + 0x1_0000 * b + 0x100 * c + d
  {
    assert [a][..0] == [] && [a, b][..1] == [a];
    assert [a, b, c][..2] == [a, b] && [a, b, c, d][..3] == [a, b, c];
    assert BigEndian([a, b, c]) == 0x100 * BigEndian([a, b]) + c;
  }

  lemma Encode32(value: U32)
    ensures Encode(value, 4) ==
            [value / 0x100_0000, value / 0x1_0000 % 0x100, value / 0x100 % 0x100, value % 0x100]
  {
    var v1 := value / 0x100;
    var v2 := v1 / 0x100;
    var v3 := v2 / 0x100;
    assert v2 == value / 0x1_0000 && v3 == value / 0x100_0000;
    assert Encode(v3, 1) == [v3];
    assert Encode(v2, 2) == Encode(v3, 1) + [v2 % 0x100];
    assert Encode(v1, 3) == Encode(v2, 2) + [v1 % 0x100];
  }

  /** The two 16-bit words of a number in front of other bytes. */
  lemma Words32(value: U32, rest: seq<Byte>)
    ensures WordSum(Encode(value, 4) + rest, false) == value / 0x1_0000 + value % 0x1_0000 + WordSum(rest, false)
  {
    hide WordSum;
    Encode32(value);
    var a, b := value / 0x100_0000, value / 0x1_0000 % 0x100;
    var c, d := value / 0x100 % 0x100, value % 0x100;
    assert Encode(value, 4) + rest == [a, b] + ([c, d] + rest);
    PairSum(a, b, [c, d] + rest);
    PairSum(c, d, rest);
    HalfWords(value);
  }

  lemma HalfWords(value: U32)
    ensures 0x100 * (value / 0x100_0000) + value / 0x1_0000 % 0x100 == value / 0x1_0000
    ensures 0x100 * (value / 0x100 % 0x100) + value % 0x100 == value % 0x1_0000
  {
  }

  /** Reading back what was written. */
  lemma {:induction false} EncodeRoundTrip(value: nat, len: nat)
    requires value < Pow256(len)
    ensures BigEndian(Encode(value, len)) == value
  {
    if len > 0 {
      EncodeRoundTrip(value / 0x100, len - 1);
    }
  }

  lemma {:induction false} BigEndianBound(bytes: seq<Byte>)
    ensures BigEndian(bytes) < Pow256(|bytes|)
  {
    if bytes != [] {
      BigEndianBound(bytes[..|bytes| - 1]);
    }
  }

  function Bit(on: bool, value: nat): nat {
    if on then value else 0
  }

  function Zeros(n: nat): seq<Byte> {
    seq(n, _ => 0)
  }

  lemma {:induction false} ZerosSum(n: nat, odd: bool)
    ensures WordSum(Zeros(n), odd) == 0
  {
    if n > 0 {
      ZerosSum(n - 1, !odd);
      assert Zeros(n)[1..] == Zeros(n - 1);
    }
  }

  /** Too little data sets the error, and after an error nothing is read any more. */
  function Check(p: Parser, len: nat): Parser {
    if len > |p.buffer| then p.(error := PacketTooShort) else p
  }

  function Rest(p: Parser, len: nat): Parser {
    var q := Check(p, len);
    if q.error != NoError then q else q.(buffer := p.buffer[len..])
  }

  function Int(p: Parser, len: nat): nat {
    if Check(p, len).error != NoError then 0 else BigEndian(p.buffer[..len])
  }

  function U8At(p: Parser): (r: Byte) {
    if Check(p, 1).error != NoError then 0 else p.buffer[0]
  }

  function U16At(p: Parser): (r: U16) {
    BigEndianBound(p.buffer[..Min(2, |p.buffer|)]);
    Pow256Values();
    Int(p, 2)
  }

  function U32At(p: Parser): (r: U32) {
    BigEndianBound(p.buffer[..Min(4, |p.buffer|)]);
    Pow256Values();
    Int(p, 4)
  }

  lemma Pow256Values()
    ensures Pow256(1) == 0x100 && Pow256(2) == 0x1_0000 && Pow256(4) == 0x1_0000_0000
  {
    assert Pow256(3) == 0x100_0000;
  }

  /** Reading a number off the front of what was written gives the number and leaves the rest. */
  lemma ReadBack(value: nat, len: nat, rest: seq<Byte>)
    requires value < Pow256(len)
    ensures var p := Parser(Encode(value, len) + rest, NoError);
            Int(p, len) == value && Rest(p, len) == Parser(rest, NoError)
  {
    EncodeRoundTrip(value, len);
    var bytes := Encode(value, len) + rest;
    assert bytes[..len] == Encode(value, len) && bytes[len..] == rest;
  }

  lemma ReadBack8(value: Byte, rest: seq<Byte>)
    ensures var p := Parser(Encode(value, 1) + rest, NoError);
            U8At(p) == value && Rest(p, 1) == Parser(rest, NoError)
  {
    Pow256Values();
    ReadBack(value, 1, rest);
    assert Encode(value, 1) == [value];
  }

  lemma ReadBack16(value: U16, rest: seq<Byte>)
    ensures var p := Parser(Encode(value, 2) + rest, NoError);
            U16At(p) == value && Rest(p, 2) == Parser(rest, NoError)
  {
    Pow256Values();
    ReadBack(value, 2, rest);
  }

  lemma ReadBack32(value: U32, rest: seq<Byte>)
    ensures var p := Parser(Encode(value, 4) + rest, NoError);
            U32At(p) == value && Rest(p, 4) == Parser(rest, NoError)
  {
    Pow256Values();
    ReadBack(value, 4, rest);
  }

  lemma Encode16(value: U16)
    ensures Encode(value, 2) == [value / 0x100, value % 0x100]
  {
    assert Encode(value / 0x100, 1) == [value / 0x100];
  }

  /** Reading at position i of a buffer that is long enough. */
  lemma ReadAt(buffer: seq<Byte>, i: nat, len: nat)
    requires i + len <= |buffer|
    ensures Rest(Parser(buffer[i..], NoError), len) == Parser(buffer[i + len..], NoError)
    ensures Int(Parser(buffer[i..], NoError), len) == BigEndian(buffer[i..i + len])
  {
    assert buffer[i..][len..] == buffer[i + len..];
    assert buffer[i..][..len] == buffer[i..i + len];
  }

  lemma Read8(buffer: seq<Byte>, i: nat)
    requires i + 1 <= |buffer|
    ensures Rest(Parser(buffer[i..], NoError), 1) == Parser(buffer[i + 1..], NoError)
    ensures U8At(Parser(buffer[i..], NoError)) == buffer[i]
  {
    ReadAt(buffer, i, 1);
  }

  lemma Read16(buffer: seq<Byte>, i: nat)
    requires i + 2 <= |buffer|
    ensures Rest(Parser(buffer[i..], NoError), 2) == Parser(buffer[i + 2..], NoError)
    ensures U16At(Parser(buffer[i..], NoError)) == BigEndian(buffer[i..i + 2])
  {
    ReadAt(buffer, i, 2);
  }

  lemma Read32(buffer: seq<Byte>, i: nat)
    requires i + 4 <= |buffer|
    ensures Rest(Parser(buffer[i..], NoError), 4) == Parser(buffer[i + 4..], NoError)
    ensures U32At(Parser(buffer[i..], NoError)) == BigEndian(buffer[i..i + 4])
  {
    ReadAt(buffer, i, 4);
  }

  lemma Skip(pad: seq<Byte>, rest: seq<Byte>)
    ensures Rest(Parser(pad + rest, NoError), |pad|) == Parser(rest, NoError)
  {
  }

  lemma Assoc(a: seq<Byte>, b: seq<Byte>, c: seq<Byte>)
    ensures a + b + c == a + (b + c)
  {
  }

  /** A number shifted right by k bytes. */
  function ShiftBytes(value: nat, k: nat): nat {
    if k == 0 then value else ShiftBytes(value, k - 1) / 0x100
  }

  class NetParser {
    var buffer: seq<Byte>
    var error: ParseResult

    ghost function Model(): Parser
      reads this
    {
      Parser(buffer, error)
    }

    constructor (data: seq<Byte>)
      ensures Model() == Parser(data, NoError)
    {
      buffer, error := data, NoError;
    }

    method CheckSize(size: nat)
      modifies this
      ensures Model() == Check(old(Model()), size)
    {
      if size > |buffer| {
        error := PacketTooShort;
      }
    }

    method ParseInt(len: nat) returns (ret: nat)
      modifies this
      ensures Model() == Rest(old(Model()), len) && ret == Int(old(Model()), len)
    {
      CheckSize(len);
      if error != NoError {
        return 0;
      }
      ret := 0;
      assert buffer[..0] == [];
      for i := 0 to len
        invariant len <= |buffer| && ret == BigEndian(buffer[..i])
        invariant Model() == old(Model())
      {
        assert buffer[..i + 1][..i] == buffer[..i];
        ret := 0x100 * ret + buffer[i];
      }
      buffer := buffer[len..];
    }

    method U8() returns (r: Byte)
      modifies this
      ensures Model() == Rest(old(Model()), 1) && r == U8At(old(Model()))
    {
      ghost var p := Model();
      var n := ParseInt(1);
      assert n == U8At(p) by {
        if p.error == NoError && |p.buffer| >= 1 {
          assert p.buffer[..1][..0] == [];
          assert BigEndian(p.buffer[..1]) == p.buffer[0];
        }
      }
      r := n;
    }

    method U16() returns (r: U16)
      modifies this
      ensures Model() == Rest(old(Model()), 2) && r == U16At(old(Model()))
    {
      ghost var was := U16At(Model());
      var n := ParseInt(2);
      r := n;
    }

    method U32() returns (r: U32)
      modifies this
      ensures Model() == Rest(old(Model()), 4) && r == U32At(old(Model()))
    {
      ghost var was := U32At(Model());
      var n := ParseInt(4);
      r := n;
    }

    method RemovePrefix(n: nat)
      modifies this
      ensures Model() == Rest(old(Model()), n)
    {
      CheckSize(n);
      if error != NoError {
        return;
      }
      buffer := buffer[n..];
    }
  }

  /** Appends the bytes of a number one by one, most significant first. */
  method UnparseInt(s: seq<Byte>, value: nat, len: nat) returns (r: seq<Byte>)
    ensures r == s + Encode(value, len)
  {
    r := s;
    for i := 0 to len
      invariant r == s + Encode(ShiftBytes(value, len - i), i)
    {
      r := r + [ShiftBytes(value, len - i - 1) % 0x100];
    }
  }
}
