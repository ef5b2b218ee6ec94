/**
 Conversion between 64-bit absolute sequence numbers and the 32-bit sequence
 numbers on the wire (section 3.3 of RFC 793).
 */
module Wrapping {
  import opened Words

  /** The low 32 bits of the 64-bit sum of n and isn. */
  function Wrap(n: nat, isn: U32): (r: U32) {
    (n + isn) % 0x1_0000_0000_0000_0000 % 0x1_0000_0000
  }

  /** The distance from isn to n in 32-bit arithmetic. */
  function Offset(n: U32, isn: U32): (d: U32) {
    (n - isn) % 0x1_0000_0000
  }

  /** The first branch of the C++ unwrap: lift the 32-bit distance to the checkpoint or past it. */
  function Lift(start: U32, checkpoint: U64): (abs: U64) {
    if start < checkpoint then
      var diff := checkpoint - start;
      if diff % 0x1_0000_0000 == 0 then checkpoint
      else (start + 0x1_0000_0000 * (diff / 0x1_0000_0000 + 1)) % 0x1_0000_0000_0000_0000
    else start
  }

  /** The second branch: keep the lifted number or step back by 2^32. */
  function Settle(abs: U64, checkpoint: U64): (r: U64) {
    if (abs - checkpoint) % 0x1_0000_0000_0000_0000 < 0x8000_0000 then abs
    else if abs > 0x1_0000_0000 then abs - 0x1_0000_0000
    else abs
  }

  function Unwrap(n: U32, isn: U32, checkpoint: U64): (r: U64) {
    Settle(Lift(Offset(n, isn), checkpoint), checkpoint)
  }

  function Distance(a: int, b: int): nat {
    if a <= b then b - a else a - b
  }

  /** r stands for the 32-bit distance d, and no other 64-bit number that does is nearer to the
      checkpoint; of two equally near ones r is the lower. */
  ghost predicate Closest(r: nat, d: U32, checkpoint: nat) {
    && r % TWO32 == d
    && forall v: U64 :: v % TWO32 == d ==>
         Distance(r, checkpoint) < Distance(v, checkpoint)
         || (Distance(r, checkpoint) == Distance(v, checkpoint) && r <= v)
  }

  /** A family of inputs on which Unwrap misses the closest number: it answers 2^32 for 0. */
  predicate MissesZero(n: U32, isn: U32, checkpoint: nat) {
    n == isn && 1 <= checkpoint <= TWO31
  }

  /** A remainder and any multiple of 2^32. */
  lemma Multiple(start: U32, k: int)
    ensures (start + 0x1_0000_0000 * k) % 0x1_0000_0000 == start
  {
  }

  /** Truncating to 64 bits does not change the low 32 bits. */
  lemma LowBits(v: int)
    ensures v % 0x1_0000_0000_0000_0000 % 0x1_0000_0000 == v % 0x1_0000_0000
  {
    var high, low := v / 0x1_0000_0000_0000_0000, v % 0x1_0000_0000_0000_0000;
    Multiple(low % 0x1_0000_0000, 0x1_0000_0000 * high + low / 0x1_0000_0000);
  }

  lemma TurnDown(v: int)
    ensures (v - 0x1_0000_0000) % 0x1_0000_0000 == v % 0x1_0000_0000
  {
    Multiple(v % 0x1_0000_0000, v / 0x1_0000_0000 - 1);
  }

  /** Adding and taking away in 32-bit arithmetic. */
  lemma AddThenSubtract(x: int, b: U32)
    ensures ((x + b) % 0x1_0000_0000 - b) % 0x1_0000_0000 == x % 0x1_0000_0000
  {
    var q, r := x / 0x1_0000_0000, x % 0x1_0000_0000;
    if r + b < 0x1_0000_0000 {
      Multiple(r + b, q);
    } else {
      Multiple(r + b - 0x1_0000_0000, q + 1);
      Multiple(r, -1);
    }
  }

  lemma SubtractThenAdd(x: int, n: U32, b: U32)
    requires x % 0x1_0000_0000 == (n - b) % 0x1_0000_0000
    ensures (x + b) % 0x1_0000_0000 == n
  {
    var q := x / 0x1_0000_0000;
    if n >= b {
      Multiple(n, q);
    } else {
      Multiple(n - b + 0x1_0000_0000, -1);
      Multiple(n, q + 1);
    }
  }

  lemma WrapIsSum(x: nat, isn: U32)
    ensures Wrap(x, isn) == (x + isn) % 0x1_0000_0000
  {
    LowBits(x + isn);
  }

  lemma OffsetOfWrap(x: nat, isn: U32)
    ensures Offset(Wrap(x, isn), isn) == x % TWO32
  {
    hide Wrap;
    WrapIsSum(x, isn);
    AddThenSubtract(x, isn);
  }

  lemma WrapZero(isn: U32)
    ensures Wrap(0, isn) == isn && Offset(isn, isn) == 0
  {
  }

  lemma WrapOfOffset(x: nat, n: U32, isn: U32)
    requires x % TWO32 == Offset(n, isn)
    ensures Wrap(x, isn) == n
  {
    hide Wrap;
    WrapIsSum(x, isn);
    SubtractThenAdd(x, n, isn);
  }

  lemma LiftCongruent(start: U32, checkpoint: U64)
    ensures Lift(start, checkpoint) % 0x1_0000_0000 == start
  {
    if start < checkpoint {
      var diff := checkpoint - start;
      var up := start + 0x1_0000_0000 * (diff / 0x1_0000_0000 + 1);
      LowBits(up);
      Multiple(start, diff / 0x1_0000_0000 + 1);
      Multiple(start, diff / 0x1_0000_0000);
    }
  }

  /** For every checkpoint, however large, the result stands for the same 32-bit number. */
  lemma UnwrapCongruent(n: U32, isn: U32, checkpoint: U64)
    ensures Unwrap(n, isn, checkpoint) % TWO32 == Offset(n, isn)
    ensures Wrap(Unwrap(n, isn, checkpoint), isn) == n
  {
    hide Wrap, Offset, Lift;
    var abs := Lift(Offset(n, isn), checkpoint);
    LiftCongruent(Offset(n, isn), checkpoint);
    assert Unwrap(n, isn, checkpoint) == abs || Unwrap(n, isn, checkpoint) == abs - TWO32;
    TurnDown(abs);
    hide Unwrap;
    WrapOfOffset(Unwrap(n, isn, checkpoint), n, isn);
  }

  /** The least number that is at least the checkpoint and stands for d. */
  function Above(d: U32, checkpoint: nat): (up: nat)
    ensures checkpoint <= up < checkpoint + TWO32
    ensures up % TWO32 == d
  {
    var gap := (d - checkpoint) % 0x1_0000_0000;
    assert checkpoint + gap == d - 0x1_0000_0000 * ((d - checkpoint) / 0x1_0000_0000);
    Multiple(d, -((d - checkpoint) / 0x1_0000_0000));
    checkpoint + gap
  }

  /** That number does not fit 64 bits, which takes a checkpoint within 2^32 of the top. */
  predicate PassesTop(d: U32, checkpoint: nat) {
    Above(d, checkpoint) >= TWO64
  }

  lemma LiftedBeforeCut(start: U32, checkpoint: U64)
    requires start < checkpoint && (checkpoint - start) % 0x1_0000_0000 != 0
    ensures start + 0x1_0000_0000 * ((checkpoint - start) / 0x1_0000_0000 + 1) == Above(start, checkpoint)
  {
    hide Above;
    var diff := checkpoint - start;
    var up := start + 0x1_0000_0000 * (diff / 0x1_0000_0000 + 1);
    Multiple(start, diff / 0x1_0000_0000 + 1);
    assert checkpoint <= up < checkpoint + 0x1_0000_0000;
    SameClass(up, Above(start, checkpoint));
  }

  lemma LiftIsAbove(start: U32, checkpoint: U64)
    ensures Lift(start, checkpoint) == Low64(Above(start, checkpoint))
    ensures PassesTop(start, checkpoint) ==> Lift(start, checkpoint) == start
  {
    hide Above;
    LiftCongruent(start, checkpoint);
    SameClass(Lift(start, checkpoint), Above(start, checkpoint));
    if start < checkpoint && (checkpoint - start) % 0x1_0000_0000 != 0 {
      LiftedBeforeCut(start, checkpoint);
    }
    if PassesTop(start, checkpoint) {
      SameClass(Lift(start, checkpoint), start);
    }
  }

  /** What the branches of Unwrap come to when the lifted number fits 64 bits, given the least
      number up from the checkpoint on that stands for the same 32-bit number. */
  function Settled(up: nat, checkpoint: nat): (r: int) {
    if up - checkpoint < TWO31 || up <= TWO32 then up else up - TWO32
  }

  lemma UnwrapValue(n: U32, isn: U32, checkpoint: U64)
    ensures Unwrap(n, isn, checkpoint) ==
            if PassesTop(Offset(n, isn), checkpoint) then Offset(n, isn)
            else Settled(Above(Offset(n, isn), checkpoint), checkpoint)
  {
    hide Lift, Above;
    LiftIsAbove(Offset(n, isn), checkpoint);
  }

  /** Two numbers that stand for the same 32-bit number are equal or at least 2^32 apart. */
  lemma SameClass(a: int, b: int)
    requires a % TWO32 == b % TWO32
    ensures a == b || a <= b - TWO32 || a >= b + TWO32
  {
  }

  /** Settled beats every other candidate v, except on the one tie it gets wrong. */
  lemma SettledIsNearest(up: nat, checkpoint: nat, v: nat)
    requires checkpoint <= up < checkpoint + TWO32
    requires v == up || v <= up - TWO32 || v >= up + TWO32
    requires !(up == TWO32 && 1 <= checkpoint <= TWO31)
    ensures var r := Settled(up, checkpoint);
            Distance(r, checkpoint) < Distance(v, checkpoint)
            || (Distance(r, checkpoint) == Distance(v, checkpoint) && r <= v)
  {
  }

  /** The comment on the C++ unwrap promises the closest number. The code meets this on every input
      but two families: MissesZero, and checkpoints so near to 2^64 that the next candidate no
      longer fits, where it answers the bare 32-bit distance. */
  lemma UnwrapClosestIff(n: U32, isn: U32, checkpoint: U64)
    ensures Closest(Unwrap(n, isn, checkpoint), Offset(n, isn), checkpoint) <==>
            !MissesZero(n, isn, checkpoint) && !PassesTop(Offset(n, isn), checkpoint)
    ensures MissesZero(n, isn, checkpoint) ==> Unwrap(n, isn, checkpoint) == TWO32
    ensures PassesTop(Offset(n, isn), checkpoint) ==> Unwrap(n, isn, checkpoint) == Offset(n, isn)
  {
    var d, r := Offset(n, isn), Unwrap(n, isn, checkpoint);
    UnwrapValue(n, isn, checkpoint);
    hide Unwrap, Offset, Above;
    if PassesTop(d, checkpoint) {
      var below: U64 := Above(d, checkpoint) - TWO32;
      TurnDown(Above(d, checkpoint));
      assert below % TWO32 == d && Distance(below, checkpoint) < Distance(r, checkpoint);
    } else if MissesZero(n, isn, checkpoint) {
      WrapZero(isn);
      SameClass(Above(0, checkpoint), TWO32);
      var zero: U64 := 0;
      assert zero % TWO32 == d && Distance(zero, checkpoint) <= Distance(r, checkpoint) && zero < r;
    } else {
      UnwrapIsNearest(n, isn, checkpoint);
    }
  }

  lemma UnwrapIsNearest(n: U32, isn: U32, checkpoint: U64)
    requires !MissesZero(n, isn, checkpoint) && !PassesTop(Offset(n, isn), checkpoint)
    ensures Closest(Unwrap(n, isn, checkpoint), Offset(n, isn), checkpoint)
  {
    var d := Offset(n, isn);
    UnwrapValue(n, isn, checkpoint);
    UnwrapCongruent(n, isn, checkpoint);
    hide Unwrap, Above;
    var up := Above(d, checkpoint);
    assert !(up == TWO32 && 1 <= checkpoint <= TWO31) by {
      if up == TWO32 { assert d == 0; assert n == isn; }
    }
    var r := Settled(up, checkpoint);
    forall v: U64 | v % TWO32 == d
      ensures Distance(r, checkpoint) < Distance(v, checkpoint)
              || (Distance(r, checkpoint) == Distance(v, checkpoint) && r <= v)
    {
      SameClass(v, up);
      SettledIsNearest(up, checkpoint, v);
    }
  }

  /** Where unwrapping undoes wrapping. */
  predicate Recovers(x: nat, checkpoint: nat) {
    if x == 0 then checkpoint == 0
    else checkpoint - x <= TWO31
         && (x - checkpoint < TWO31 || x < TWO32 || (x == TWO32 && checkpoint >= 1))
  }

  lemma SettledRecoversIff(x: nat, up: nat, checkpoint: nat)
    requires checkpoint <= up < checkpoint + TWO32
    requires x == up || x == up - TWO32 || x <= up - 2 * TWO32 || x >= up + TWO32
    requires x < TWO32 && checkpoint <= x ==> up == x
    requires x == TWO32 && checkpoint == 0 ==> up == 0
    ensures Settled(up, checkpoint) == x <==> Recovers(x, checkpoint)
  {
  }

  /** Where a number x lies relative to the least number up that stands for the same 32 bits. */
  lemma AboveSpread(x: nat, up: nat, checkpoint: nat)
    requires checkpoint <= up < checkpoint + TWO32 && up % TWO32 == x % TWO32
    ensures x == up || x == up - TWO32 || x <= up - 2 * TWO32 || x >= up + TWO32
    ensures x < TWO32 && checkpoint <= x ==> up == x
    ensures x == TWO32 && checkpoint == 0 ==> up == 0
  {
    SameClass(x, up);
    SameClass(x, up - TWO32);
  }

  /** Exactly when unwrapping undoes wrapping, for every absolute number and checkpoint. */
  lemma RoundTripIff(x: U64, isn: U32, checkpoint: U64)
    ensures Unwrap(Wrap(x, isn), isn, checkpoint) == x <==>
            if PassesTop(x % TWO32, checkpoint) then x < TWO32 else Recovers(x, checkpoint)
  {
    OffsetOfWrap(x, isn);
    UnwrapValue(Wrap(x, isn), isn, checkpoint);
    hide Unwrap, Above;
    var up := Above(x % TWO32, checkpoint);
    AboveSpread(x, up, checkpoint);
    SettledRecoversIff(x, up, checkpoint);
  }

  /** At the last 64-bit checkpoint the answer is the bare 32-bit distance, or the checkpoint itself
      when that is what it stands for. */
  lemma UnwrapAtTop(n: U32, isn: U32)
    ensures Unwrap(n, isn, TWO64 - 1) ==
            if Offset(n, isn) == TWO32 - 1 then TWO64 - 1 else Offset(n, isn)
  {
  }
}
