/**
 The segment map of the reassembler: disjoint non-empty chunks in the order of their keys, and
 the map from index to byte that it stands for.
 */
module Chunks {
  import opened Words
  import opened Reassembly

  datatype Chunk = Chunk(index: nat, data: seq<Byte>)
  {
    function End(): nat {
      index + |data|
    }

    predicate Has(i: int) {
      index <= i < End()
    }
  }

  /** The chunks are non-empty, ordered, disjoint, and lie in [lo, hi). */
  ghost predicate Laid(cs: seq<Chunk>, lo: int, hi: int) {
    && lo <= hi
    && (forall k :: 0 <= k < |cs| ==> |cs[k].data| > 0 && lo <= cs[k].index && cs[k].End() <= hi)
    && (forall j, k :: 0 <= j < k < |cs| ==> cs[j].End() <= cs[k].index)
  }

  function Total(cs: seq<Chunk>): nat {
    if cs == [] then 0 else Total(cs[..|cs| - 1]) + |cs[|cs| - 1].data|
  }

  ghost function ChunkBytes(c: Chunk): (m: map<nat, Byte>)
    ensures forall i: nat :: i in m ==> c.Has(i)
    ensures forall i: nat :: c.Has(i) ==> i in m && m[i] == c.data[i - c.index]
  {
    map i: nat | c.index <= i < c.End() && c.Has(i) :: c.data[i - c.index]
  }

  /** The map from index to byte that the chunks stand for. */
  ghost function Bytes(cs: seq<Chunk>): map<nat, Byte> {
    if cs == [] then map[] else Bytes(cs[..|cs| - 1]) + ChunkBytes(cs[|cs| - 1])
  }

  /** Insertion into an ordered map: an occupied key is left as it is. */
  function Put(cs: seq<Chunk>, c: Chunk): seq<Chunk> {
    if cs == [] then [c]
    else if c.index < cs[0].index then [c] + cs
    else if c.index == cs[0].index then cs
    else [cs[0]] + Put(cs[1..], c)
  }

  lemma {:induction false} PutAt(cs: seq<Chunk>, c: Chunk, k: nat)
    requires k <= |cs|
    requires forall j :: 0 <= j < k ==> cs[j].index < c.index
    requires forall j :: k <= j < |cs| ==> c.index < cs[j].index
    ensures Put(cs, c) == cs[..k] + [c] + cs[k..]
  {
    if k > 0 {
      PutAt(cs[1..], c, k - 1);
      assert [cs[0]] + cs[1..][..k - 1] == cs[..k];
    }
  }

  /** Every byte belongs to some chunk. */
  lemma {:induction false} ChunkOf(cs: seq<Chunk>, i: nat) returns (k: nat)
    requires i in Bytes(cs)
    ensures k < |cs| && cs[k].index <= i < cs[k].End()
  {
    var n := |cs| - 1;
    if cs[n].index <= i < cs[n].End() {
      k := n;
    } else {
      k := ChunkOf(cs[..n], i);
    }
  }

  lemma LaidPrefix(cs: seq<Chunk>, lo: int, hi: int)
    requires Laid(cs, lo, hi) && cs != []
    ensures Laid(cs[..|cs| - 1], lo, cs[|cs| - 1].index)
  {
  }

  /** Every chunk is in the map with its own bytes. */
  lemma {:induction false} ChunkIsIn(cs: seq<Chunk>, lo: int, hi: int, k: nat, i: nat)
    requires Laid(cs, lo, hi) && k < |cs| && cs[k].index <= i < cs[k].End()
    ensures i in Bytes(cs) && Bytes(cs)[i] == cs[k].data[i - cs[k].index]
  {
    hide Bytes, ChunkBytes;
    var n := |cs| - 1;
    LastChunk(cs);
    if k < n {
      LaidPrefix(cs, lo, hi);
      assert cs[k].End() <= cs[n].index;
      hide Laid;
      ChunkIsIn(cs[..n], lo, cs[n].index, k, i);
      assert i !in ChunkBytes(cs[n]);
    } else {
      assert i in ChunkBytes(cs[n]);
    }
  }

  lemma BytesInRange(cs: seq<Chunk>, lo: int, hi: int)
    requires Laid(cs, lo, hi)
    ensures forall i :: i in Bytes(cs) ==> lo <= i < hi
  {
    forall i | i in Bytes(cs)
      ensures lo <= i < hi
    {
      var k := ChunkOf(cs, i);
    }
  }

  lemma InOrder(cs: seq<Chunk>, lo: int, hi: int, j: nat, k: nat)
    requires Laid(cs, lo, hi) && j < |cs| && k <= |cs|
    ensures if j < k then cs[j].End() <= cs[k - 1].End() else cs[k].index <= cs[j].index
  {
  }

  /** No byte lies between two neighbouring chunks. */
  lemma Gap(cs: seq<Chunk>, lo: int, hi: int, k: nat, a: int, b: int)
    requires Laid(cs, lo, hi) && k <= |cs|
    requires k > 0 ==> cs[k - 1].End() <= a
    requires k < |cs| ==> b <= cs[k].index
    ensures forall i :: i in Bytes(cs) ==> !(a <= i < b)
  {
    hide Bytes, Laid;
    forall i | i in Bytes(cs)
      ensures !(a <= i < b)
    {
      var j := ChunkOf(cs, i);
      InOrder(cs, lo, hi, j, k);
    }
  }

  /** The chunks count their bytes once each, and fit the range. */
  lemma {:induction false} TotalIsSize(cs: seq<Chunk>, lo: int, hi: int)
    requires Laid(cs, lo, hi)
    ensures Total(cs) == |Bytes(cs)| && Total(cs) <= hi - lo
  {
    if cs != [] {
      var n := |cs| - 1;
      LaidPrefix(cs, lo, hi);
      TotalIsSize(cs[..n], lo, cs[n].index);
      BytesInRange(cs[..n], lo, cs[n].index);
      ChunkSize(cs[n]);
      assert Bytes(cs).Keys == Bytes(cs[..n]).Keys + ChunkBytes(cs[n]).Keys;
    }
  }

  lemma {:induction false} ChunkSize(c: Chunk)
    ensures |ChunkBytes(c)| == |c.data|
    decreases |c.data|
  {
    if c.data != [] {
      var n := |c.data| - 1;
      var short := Chunk(c.index, c.data[..n]);
      ChunkSize(short);
      assert ChunkBytes(c).Keys == ChunkBytes(short).Keys + {c.index + n};
    }
  }

  /** Chunks that add up to the whole range leave no gap in it. */
  lemma {:induction false} FullRange(cs: seq<Chunk>, lo: nat, hi: int)
    requires Laid(cs, lo, hi) && Total(cs) == hi - lo
    ensures forall i :: lo <= i < hi ==> i in Bytes(cs)
  {
    if cs != [] {
      var n := |cs| - 1;
      LaidPrefix(cs, lo, hi);
      TotalIsSize(cs[..n], lo, cs[n].index);
      FullRange(cs[..n], lo, cs[n].index);
    }
  }

  function InsertAt(cs: seq<Chunk>, k: nat, c: Chunk): seq<Chunk>
    requires k <= |cs|
  {
    cs[..k] + [c] + cs[k..]
  }

  lemma InsertAtLast(cs: seq<Chunk>, k: nat, c: Chunk)
    requires k < |cs|
    ensures var all, n := InsertAt(cs, k, c), |cs| - 1;
            all[|cs|] == cs[n] && all[..|cs|] == InsertAt(cs[..n], k, c)
  {
    var n := |cs| - 1;
    assert cs[k..] == cs[..n][k..] + [cs[n]];
    assert InsertAt(cs, k, c) == InsertAt(cs[..n], k, c) + [cs[n]];
  }

  lemma Commute(m: map<nat, Byte>, c: Chunk, d: Chunk)
    requires c.End() <= d.index
    ensures m + ChunkBytes(c) + ChunkBytes(d) == m + ChunkBytes(d) + ChunkBytes(c)
  {
  }

  /** Putting a chunk in front of later ones adds its bytes. */
  lemma {:induction false} BytesInsert(cs: seq<Chunk>, k: nat, c: Chunk)
    requires k <= |cs|
    requires forall j :: k <= j < |cs| ==> c.End() <= cs[j].index
    ensures Bytes(InsertAt(cs, k, c)) == Bytes(cs) + ChunkBytes(c)
    ensures Total(InsertAt(cs, k, c)) == Total(cs) + |c.data|
  {
    hide Bytes, Total, ChunkBytes;
    var all := InsertAt(cs, k, c);
    LastChunk(all);
    if k == |cs| {
      assert all[..|cs|] == cs && all[|cs|] == c;
    } else {
      var n := |cs| - 1;
      var short := cs[..n];
      LastChunk(cs);
      InsertAtLast(cs, k, c);
      hide InsertAt;
      BytesInsert(short, k, c);
      calc {
        Bytes(all);
        Bytes(InsertAt(short, k, c)) + ChunkBytes(cs[n]);
        Bytes(short) + ChunkBytes(c) + ChunkBytes(cs[n]);
        { Commute(Bytes(short), c, cs[n]); }
        Bytes(short) + ChunkBytes(cs[n]) + ChunkBytes(c);
      }
    }
  }

  lemma LastChunk(cs: seq<Chunk>)
    requires cs != []
    ensures Bytes(cs) == Bytes(cs[..|cs| - 1]) + ChunkBytes(cs[|cs| - 1])
    ensures Total(cs) == Total(cs[..|cs| - 1]) + |cs[|cs| - 1].data|
  {
  }

  lemma LaidInsert(cs: seq<Chunk>, lo: int, hi: int, k: nat, c: Chunk)
    requires Laid(cs, lo, hi) && k <= |cs| && |c.data| > 0 && lo <= c.index && c.End() <= hi
    requires forall j :: 0 <= j < k ==> cs[j].End() <= c.index
    requires forall j :: k <= j < |cs| ==> c.End() <= cs[j].index
    ensures Laid(InsertAt(cs, k, c), lo, hi)
  {
    var put := InsertAt(cs, k, c);
    InsertLength(cs, k, c);
    hide InsertAt;
    forall j | 0 <= j < |put|
      ensures |put[j].data| > 0 && lo <= put[j].index && put[j].End() <= hi
    {
      InsertedAt(cs, k, c, j);
    }
    forall j, m | 0 <= j < m < |put|
      ensures put[j].End() <= put[m].index
    {
      InsertedAt(cs, k, c, j);
      InsertedAt(cs, k, c, m);
    }
  }

  lemma InsertLength(cs: seq<Chunk>, k: nat, c: Chunk)
    requires k <= |cs|
    ensures |InsertAt(cs, k, c)| == |cs| + 1
  {
  }

  lemma InsertedAt(cs: seq<Chunk>, k: nat, c: Chunk, j: nat)
    requires k <= |cs| && j < |InsertAt(cs, k, c)|
    ensures InsertAt(cs, k, c)[j] == if j < k then cs[j] else if j == k then c else cs[j - 1]
  {
  }

  /** A non-empty chunk put into the gap in front of chunk k keeps the layout, adds its own bytes
      and nothing else, and was no longer than the room left. */
  lemma InsertInGap(cs: seq<Chunk>, lo: int, hi: int, k: nat, c: Chunk)
    requires Laid(cs, lo, hi) && k <= |cs| && |c.data| > 0
    requires (if k > 0 then cs[k - 1].End() else lo) <= c.index
    requires c.End() <= (if k < |cs| then cs[k].index else hi)
    ensures Put(cs, c) == InsertAt(cs, k, c)
    ensures Laid(InsertAt(cs, k, c), lo, hi)
    ensures Bytes(InsertAt(cs, k, c)) == Bytes(cs) + ChunkBytes(c)
    ensures Total(InsertAt(cs, k, c)) == Total(cs) + |c.data| <= hi - lo
  {
    assert forall j :: 0 <= j < k ==> cs[j].End() <= c.index && cs[j].index < c.index;
    assert forall j :: k <= j < |cs| ==> c.End() <= cs[j].index;
    PutAt(cs, c, k);
    hide Put, Laid, Bytes, Total, ChunkBytes;
    LaidInsert(cs, lo, hi, k, c);
    BytesInsert(cs, k, c);
    TotalIsSize(InsertAt(cs, k, c), lo, hi);
  }

  /** Taking the first chunk away leaves the bytes from its end on. */
  lemma BytesOfRest(cs: seq<Chunk>, lo: int, hi: int)
    requires Laid(cs, lo, hi) && cs != []
    ensures Laid(cs[1..], cs[0].End(), hi)
    ensures Bytes(cs[1..]) == From(Bytes(cs), cs[0].End())
    ensures Bytes(cs) == Bytes(cs[1..]) + ChunkBytes(cs[0])
  {
    hide Bytes, From, ChunkBytes, Total;
    assert InsertAt(cs[1..], 0, cs[0]) == cs;
    hide InsertAt;
    LaidRest(cs, lo, hi);
    BytesInsert(cs[1..], 0, cs[0]);
    hide Laid;
    BytesInRange(cs[1..], cs[0].End(), hi);
    FromSum(Bytes(cs[1..]), cs[0]);
  }

  lemma LaidRest(cs: seq<Chunk>, lo: int, hi: int)
    requires Laid(cs, lo, hi) && cs != []
    ensures Laid(cs[1..], cs[0].End(), hi)
  {
  }

  lemma FromSum(m: map<nat, Byte>, c: Chunk)
    requires forall i :: i in m ==> c.End() <= i
    ensures From(m + ChunkBytes(c), c.End()) == m
  {
    hide ChunkBytes;
  }

  /** When the first chunk is due, the first gap is that of the rest. */
  lemma GapOfChunks(cs: seq<Chunk>, lo: nat, hi: int)
    requires Laid(cs, lo, hi) && cs != [] && cs[0].index == lo
    ensures GapFrom(Bytes(cs), lo, hi) == GapFrom(Bytes(cs[1..]), cs[0].End(), hi)
    ensures forall i :: lo <= i < cs[0].End() ==> i in Bytes(cs) && Bytes(cs)[i] == cs[0].data[i - lo]
  {
    hide Bytes;
    BytesOfRest(cs, lo, hi);
    assert forall i :: lo <= i < cs[0].End() ==> cs[0].Has(i);
    var g, h := GapFrom(Bytes(cs), lo, hi), GapFrom(Bytes(cs[1..]), cs[0].End(), hi);
    assert g < hi ==> g !in Bytes(cs);
    assert h < hi ==> h !in Bytes(cs[1..]);
  }

  /** The slot is exactly the part of data (its first byte at index) that lies in [a, b). */
  predicate IsSlot(slot: Chunk, data: seq<Byte>, index: nat, a: int, b: int) {
    if slot.data == [] then Max(a, index) >= Min(b, index + |data|)
    else
      && slot.index == Max(a, index) && slot.End() == Min(b, index + |data|)
      && slot.data == data[slot.index - index..slot.End() - index]
  }

  lemma SlotBytes(slot: Chunk, data: seq<Byte>, index: nat, a: int, b: int, i: nat)
    requires IsSlot(slot, data, index, a, b)
    ensures i in ChunkBytes(slot) <==> Max(a, index) <= i < Min(b, index + |data|)
    ensures i in ChunkBytes(slot) ==> ChunkBytes(slot)[i] == data[i - index]
  {
    assert slot.Has(i) <==> Max(a, index) <= i < Min(b, index + |data|);
  }

  /** One more stretch of the overlay: the data in the gap [a, b) is added, and what follows up
      to e was already held. */
  lemma ExtendOverlay(held: map<nat, Byte>, now: map<nat, Byte>, data: seq<Byte>, index: nat,
                      from: int, a: int, b: int, e: int, slot: Chunk)
    requires from <= a <= b <= e
    requires now == Overlay(held, data, index, from, a)
    requires forall i :: i in now ==> !(a <= i < b)
    requires forall i: nat :: b <= i < e ==> i in now
    requires IsSlot(slot, data, index, a, b)
    ensures now + ChunkBytes(slot) == Overlay(held, data, index, from, e)
  {
    hide Overlay, ChunkBytes, IsSlot;
    var goal, got := Overlay(held, data, index, from, e), now + ChunkBytes(slot);
    forall i: nat
      ensures i in goal <==> i in got
      ensures i in goal ==> goal[i] == got[i]
    {
      SlotBytes(slot, data, index, a, b, i);
    }
  }
}
