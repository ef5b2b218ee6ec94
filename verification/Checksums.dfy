/** The Internet checksum (sections 1 and 2 of RFC 1071). */
module Checksums {
  import opened Words

  /** The sum of the bytes as big-endian 16-bit words; odd says that the first byte is a low one. */
  function WordSum(data: seq<Byte>, odd: bool): nat {
    if data == [] then 0
    else (if odd then data[0] else 0x100 * data[0]) + WordSum(data[1..], !odd)
  }

  /** A sum folded to 16 bits with end-around carry: its residue modulo 65535, with 0 kept for
      the sum 0 alone. */
  function Folded(sum: nat): (f: U16) {
    if sum == 0 then 0 else (sum - 1) % 0xffff + 1
  }

  /** The checksum of a sum: the complement of the folded sum. */
  function Checksum(sum: nat): (c: U16) {
    0xffff - Folded(sum)
  }

  predicate IsOdd(n: nat) {
    n % 2 == 1
  }

  lemma {:induction false} WordSumSplit(a: seq<Byte>, b: seq<Byte>, odd: bool)
    ensures WordSum(a + b, odd) == WordSum(a, odd) + WordSum(b, odd != IsOdd(|a|))
  {
    if a == [] {
      assert a + b == b;
    } else {
      WordSumSplit(a[1..], b, !odd);
      assert (a + b)[1..] == a[1..] + b;
    }
  }

  lemma {:induction false} WordSumBound(data: seq<Byte>, odd: bool)
    ensures WordSum(data, odd) <= 0xff00 * |data|
  {
    if data != [] {
      WordSumBound(data[1..], !odd);
    }
  }

  /** Data that checks: the checksum comes out as 0 exactly when the sum is positive and a multiple
      of 65535. */
  lemma ChecksToZeroIff(sum: nat)
    ensures Checksum(sum) == 0 <==> sum > 0 && sum % 0xffff == 0
  {
  }

  /** Adding the complement makes any sum check. */
  lemma ComplementChecks(sum: nat)
    ensures Checksum(sum + Checksum(sum)) == 0
  {
    if sum > 0 {
      var q, r := (sum - 1) / 0xffff, (sum - 1) % 0xffff;
      assert sum + Checksum(sum) == 0xffff * (q + 1);
      Multiples(q + 1);
    }
  }

  lemma Multiples(q: nat)
    ensures (0xffff * q) % 0xffff == 0
  {
  }

  /** The data with a 16-bit value written at an offset. */
  function WithField(data: seq<Byte>, offset: nat, value: U16): seq<Byte>
    requires offset + 2 <= |data|
  {
    data[offset := value / 0x100][offset + 1 := value % 0x100]
  }

  lemma FieldSum(data: seq<Byte>, offset: nat, value: U16)
    requires offset + 2 <= |data| && !IsOdd(offset) && data[offset] == 0 && data[offset + 1] == 0
    ensures WordSum(WithField(data, offset, value), false) == WordSum(data, false) + value
  {
    var p, q := data[..offset], data[offset + 2..];
    var hi: Byte, lo: Byte := value / 0x100, value % 0x100;
    hide WordSum;
    FieldShape(data, offset, 0, 0);
    FieldShape(data, offset, hi, lo);
    assert data[offset := 0][offset + 1 := 0] == data;
    WordSumSplit(p, [0, 0] + q, false);
    WordSumSplit(p, [hi, lo] + q, false);
    PairSum(0, 0, q);
    PairSum(hi, lo, q);
  }

  lemma FieldShape(data: seq<Byte>, offset: nat, hi: Byte, lo: Byte)
    requires offset + 2 <= |data|
    ensures data[offset := hi][offset + 1 := lo] == data[..offset] + ([hi, lo] + data[offset + 2..])
  {
  }

  lemma PairSum(x: Byte, y: Byte, rest: seq<Byte>)
    ensures WordSum([x, y] + rest, false) == 0x100 * x + y + WordSum(rest, false)
  {
    assert ([x, y] + rest)[1..] == [y] + rest;
    assert ([y] + rest)[1..] == rest;
  }

  lemma WithFieldAt(head: seq<Byte>, rest: seq<Byte>, value: U16)
    ensures var data := head + ([0, 0] + rest);
            && data[|head|] == 0 && data[|head| + 1] == 0
            && WithField(data, |head|, value) == head + ([value / 0x100, value % 0x100] + rest)
  {
    var data := head + ([0, 0] + rest);
    FieldShape(data, |head|, value / 0x100, value % 0x100);
    assert data[..|head|] == head && data[|head| + 2..] == rest;
  }

  /** Writing the checksum of data whose checksum field is zero into that field, at an even
      offset, makes the whole check to 0, with any sum carried in from outside. */
  lemma FieldMakesItCheck(initial: nat, data: seq<Byte>, offset: nat)
    requires offset + 2 <= |data| && !IsOdd(offset) && data[offset] == 0 && data[offset + 1] == 0
    ensures var c := Checksum(initial + WordSum(data, false));
            Checksum(initial + WordSum(WithField(data, offset, c), false)) == 0
  {
    var sum := initial + WordSum(data, false);
    FieldSum(data, offset, Checksum(sum));
    ComplementChecks(sum);
  }

  /** The 32-bit running sum over bytes that starts from the pseudo-header's. */
  function RunningSum(initial: U32, bytes: seq<Byte>): U32 {
    (initial + WordSum(bytes, false)) % TWO32
  }

  /** Sums of at most 65535 bytes on top of a pseudo-header sum do not overflow. */
  lemma NoOverflow(initial: U32, bytes: seq<Byte>)
    requires |bytes| <= 0xffff && initial <= 0x10_0000
    ensures RunningSum(initial, bytes) == initial + WordSum(bytes, false)
  {
    WordSumBound(bytes, false);
  }

  class InternetChecksum {
    var sum: U32
    var parity: bool
    ghost const initial: U32
    ghost var data: seq<Byte>  // everything added so far

    /** The running sum depends only on the bytes added, not on how they were split up. */
    ghost predicate Valid()
      reads this
    {
      && sum == RunningSum(initial, data)
      && parity == IsOdd(|data|)
    }

    constructor (initialSum: U32)
      ensures Valid() && data == [] && initial == initialSum
    {
      sum, parity := initialSum, false;
      initial, data := initialSum, [];
    }

    method Add(piece: seq<Byte>)
      requires Valid()
      modifies this
      ensures Valid() && data == old(data) + piece
    {
      hide WordSum;
      assert piece[..0] == [];
      for i := 0 to |piece|
        invariant Valid() && data == old(data) + piece[..i]
      {
        var value: int := piece[i];
        if !parity {
          value := value * 0x100;
        }
        WordSumOne(data, piece[i]);
        AddLow(initial + WordSum(data, false), value);
        sum := (sum + value) % TWO32;
        parity := !parity;
        data := data + [piece[i]];
        assert piece[..i + 1] == piece[..i] + [piece[i]];
      }
      assert piece[..|piece|] == piece;
    }

    method Value() returns (c: U16)
      requires Valid()
      ensures c == Checksum(RunningSum(initial, data))
    {
      var ret: int := sum;
      while ret > 0xffff
        invariant 0 <= ret && (ret == 0 <==> sum == 0) && ret % 0xffff == sum % 0xffff
        decreases ret
      {
        FoldStep(ret);
        ret := ret / 0x1_0000 + ret % 0x1_0000;
      }
      FoldDone(ret, sum);
      c := 0xffff - ret;
    }
  }

  lemma WordSumOne(data: seq<Byte>, b: Byte)
    ensures WordSum(data + [b], false) == WordSum(data, false) + if IsOdd(|data|) then b else 0x100 * b
  {
    WordSumSplit(data, [b], false);
    assert [b][1..] == [];
  }

  lemma AddLow(a: nat, b: nat)
    ensures (a % 0x1_0000_0000 + b) % 0x1_0000_0000 == (a + b) % 0x1_0000_0000
  {
    assert a + b == a % 0x1_0000_0000 + b + 0x1_0000_0000 * (a / 0x1_0000_0000);
  }

  lemma FoldStep(ret: nat)
    requires ret > 0xffff
    ensures 0 < ret / 0x1_0000 + ret % 0x1_0000 < ret
    ensures (ret / 0x1_0000 + ret % 0x1_0000) % 0xffff == ret % 0xffff
  {
    var q, r := ret / 0x1_0000, ret % 0x1_0000;
    assert ret == q + r + 0xffff * q;
  }

  lemma FoldDone(ret: nat, sum: nat)
    requires ret <= 0xffff && (ret == 0 <==> sum == 0) && ret % 0xffff == sum % 0xffff
    ensures ret == Folded(sum)
  {
    if sum > 0 {
      var q, r := sum / 0xffff, sum % 0xffff;
      if r == 0 {
        Remainder(q - 1, 0xfffe);
      } else {
        Remainder(q, r - 1);
      }
    }
  }

  lemma Remainder(q: int, r: nat)
    requires r < 0xffff
    ensures (0xffff * q + r) % 0xffff == r
  {
  }
}
