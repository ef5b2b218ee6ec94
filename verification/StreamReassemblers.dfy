/**
 The stream reassembler as the class that keeps an ordered map of segments, updated in place by
 loops. It refines the byte map of Reassembly.
 */
module StreamReassemblers {
  import opened Words
  import opened ByteStreams
  import opened Reassembly
  import opened Chunks

  /** The part of data (its first byte at index) between begin and end, with its index. Sums wrap
      at 2^64; when the end of data does, nothing is left of it. */
  function Resize(data: seq<Byte>, index: nat, begin: nat, end: nat): (slot: Chunk)
    requires index < TWO64 && |data| < TWO64
    ensures index + |data| < TWO64 ==> IsSlot(slot, data, index, begin, end)
    ensures index + |data| >= TWO64 ==> slot.data == []
  {
    var dataEnd := EndIndex(index, |data|);
    assert dataEnd == if index + |data| < TWO64 then index + |data| else index + |data| - TWO64;
    var from := Min(dataEnd, Max(index, begin));
    var to := Max(from, Min(dataEnd, end));
    var at := Sub64(from, index);
    Chunk(from, data[at..Min(at + to - from, |data|)])
  }

  class StreamReassembler {
    var chunks: seq<Chunk>  // the segment map, in key order
    var eof: bool
    var eofIndex: nat
    var window: nat         // _capacity_for_reassmbler
    var free: nat
    var next: nat
    const output: ByteStream

    ghost predicate Valid()
      reads this, output
    {
      && output.Valid()
      && Laid(chunks, next, next + output.Model().Remaining())
      && Model().Valid()
    }

    ghost function Model(): Reassembler
      reads this, output
    {
      Reassembler(Bytes(chunks), next, eof, eofIndex, output.Model())
    }

    constructor (capacity: nat)
      ensures Valid() && fresh(output) && Model() == Empty(capacity)
    {
      chunks, eof, eofIndex, next := [], false, 0, 0;
      window, free := capacity, capacity;
      output := new ByteStream(capacity);
    }

    /** Counts every waiting byte once, however often it was pushed. */
    method UnassembledBytes(ghost lo: int, ghost hi: int) returns (n: nat)
      requires Laid(chunks, lo, hi)
      ensures n == Total(chunks) == |Bytes(chunks)|
    {
      n := 0;
      for k := 0 to |chunks|
        invariant n == Total(chunks[..k])
      {
        assert chunks[..k + 1][..k] == chunks[..k];
        n := n + |chunks[k].data|;
      }
      assert chunks[..|chunks|] == chunks;
      TotalIsSize(chunks, lo, hi);
    }

    method UpdateFreeSpace()
      requires Valid()
      modifies this
      ensures Valid() && Model() == old(Model()) && chunks == old(chunks)
      ensures window == Model().output.Remaining()
      ensures free == window - Total(chunks)
      ensures free == 0 <==> window == 0
    {
      hide Bytes, Total;
      window := output.RemainingCapacity();
      var waiting := UnassembledBytes(next, next + window);
      StrictlyPast(chunks, next, next + window);
      free := window - waiting;
    }

    /** Truncates to the free space; a slot that fits goes in whole. */
    method InsertInReassembler(slot: Chunk) returns (n: nat)
      modifies this`chunks, this`free
      ensures n == Min(old(free), |slot.data|) && free == old(free) - n
      ensures n == |slot.data| ==> chunks == Filled(old(chunks), slot)
      ensures n < |slot.data| ==> chunks == Put(old(chunks), Chunk(slot.index, slot.data[..n]))
    {
      if |slot.data| == 0 {
        return 0;
      }
      n := Min(free, |slot.data|);
      assert n == |slot.data| ==> slot.data[..n] == slot.data;
      chunks := Put(chunks, Chunk(slot.index, slot.data[..n]));
      free := free - n;
    }

    /** Adds to the segment map exactly the bytes of data that fall on free places of the window. */
    method FitInReassembler(data: seq<Byte>, index: nat)
      requires index < TWO64 && |data| < TWO64
      requires Laid(chunks, next, next + window) && free == window - Total(chunks)
      modifies this`chunks, this`free
      ensures Laid(chunks, next, next + window) && free == window - Total(chunks)
      ensures Bytes(chunks) == if index + |data| < TWO64
                               then Overlay(old(Bytes(chunks)), data, index, next, next + window)
                               else old(Bytes(chunks))
    {
      hide Bytes, Total, Overlay, IsSlot, Filled, Laid, Resize;
      ghost var hi := next + window;
      NoOverlay(chunks, next, hi, data, index);
      if free == 0 {
        FullOverlay(chunks, next, hi, Bytes(chunks), data, index, next);
        return;
      }
      var fitted := Resize(data, index, next, next + window);
      if index + |data| < TWO64 {
        SameOverlay(Bytes(chunks), data, index, fitted, next, hi);
      }
      if |fitted.data| == 0 {
        return;
      }
      SlotRange(fitted, data, index, next, hi);
      if |chunks| == 0 {
        FillEmpty(chunks, next, hi, Bytes(chunks), fitted);
        var _ := InsertInReassembler(fitted);
        return;
      }
      WalkAndInsert(fitted.data, fitted.index);
    }

    /** The loop of fit_in_reassembler, which inserts into the map it walks over, and the
        insertion behind the last segment. */
    method WalkAndInsert(data: seq<Byte>, index: nat)
      requires index + |data| < TWO64
      requires Laid(chunks, next, next + window) && free == window - Total(chunks)
      requires chunks != [] && index + |data| <= next + window
      modifies this`chunks, this`free
      ensures Laid(chunks, next, next + window) && free == window - Total(chunks)
      ensures Bytes(chunks) == Overlay(old(Bytes(chunks)), data, index, next, next + window)
    {
      hide Bytes, Total, Overlay, IsSlot, Filled, Laid;
      ghost var held := Bytes(chunks);
      ghost var hi := next + window;
      NoOverlay(chunks, next, hi, data, index);
      var nextIndex := next;
      var pos := 0;
      while pos < |chunks|
        invariant 0 <= pos <= |chunks| && |chunks| > 0
        invariant Laid(chunks, next, hi) && free == window - Total(chunks)
        invariant Bytes(chunks) == Overlay(held, data, index, next, nextIndex)
        invariant next <= nextIndex == if pos > 0 then chunks[pos - 1].End() else next
      {
        var cur := chunks[pos];
        if free == 0 {
          FullOverlay(chunks, next, hi, held, data, index, nextIndex);
          return;
        }
        var slot := Resize(data, index, nextIndex, cur.index);
        FillGap(chunks, next, hi, pos, nextIndex, held, data, index, slot);
        var size := |chunks|;
        var _ := InsertInReassembler(slot);
        pos := pos + |chunks| - size;  // the iterator stays on cur
        nextIndex := cur.End();
        pos := pos + 1;
        if nextIndex >= index + |data| {
          break;
        }
      }
      if free == 0 {
        FullOverlay(chunks, next, hi, held, data, index, nextIndex);
        return;
      }
      var tail := Resize(data, index, chunks[|chunks| - 1].End(), index + |data|);
      EndsGrow(chunks, next, hi, pos);
      FillTail(chunks, next, hi, nextIndex, held, data, index, tail);
      var _ := InsertInReassembler(tail);
    }

    /** The loop of push_into_output: hands over segment by segment what is due. */
    method DrainSegments()
      requires output.Valid() && Laid(chunks, next, Model().WindowEnd()) && Fits(Model())
      modifies this`chunks, this`next, this`free, output
      ensures output.Valid() && Laid(chunks, next, old(Model()).WindowEnd())
      ensures next == GapFrom(old(Bytes(chunks)), old(next), old(Model()).WindowEnd())
      ensures Draining(old(Model()), old(Model()).WindowEnd(), Bytes(chunks), next, output.Model())
    {
      hide Bytes, Laid, Fits, Draining, Drain;
      ghost var r, hi := Model(), Model().WindowEnd();
      DrainStarts(r);
      while |chunks| > 0 && next == chunks[0].index
        invariant output.Valid() && Laid(chunks, next, hi)
        invariant Draining(r, hi, Bytes(chunks), next, output.Model())
        decreases |chunks|
      {
        DrainChunk(r, hi, chunks, next, output.Model());
        var _ := output.Write(chunks[0].data);
        next := next + |chunks[0].data|;
        free := free + |chunks[0].data|;
        chunks := chunks[1..];
      }
      DrainDone(r, hi, chunks, next, output.Model());
    }

    /** Hands the maximal run that starts at the next index to the output. */
    method PushIntoOutput()
      requires output.Valid() && Laid(chunks, next, Model().WindowEnd()) && Fits(Model())
      modifies this`chunks, this`next, this`free, output
      ensures output.Valid() && Laid(chunks, next, Model().WindowEnd())
      ensures Model() == Drain(old(Model()))
    {
      hide Bytes, Laid, Fits;
      ghost var r, hi := Model(), Model().WindowEnd();
      DrainSegments();
      var waiting := UnassembledBytes(next, hi);
      DrainKeeps(r);
      Widen(chunks, next, hi, Drain(r).WindowEnd());
      if waiting == 0 && eof && next == eofIndex {
        output.EndInput();
      }
    }

    /** Flags an error on the output stream. */
    method SetError()
      requires Valid()
      modifies output
      ensures Valid() && Model() == old(Model()).(output := old(Model()).output.(error := true))
    {
      hide Bytes, Laid;
      output.SetError();
    }

    method PushSubstring(data: seq<Byte>, index: nat, eof: bool)
      requires Valid() && index < TWO64 && |data| < TWO64
      modifies this, output
      ensures Valid() && Model() == Push(old(Model()), data, index, eof)
    {
      hide Bytes, Laid, Store, Drain;
      if eof {
        this.eof := true;
        eofIndex := EndIndex(index, |data|);
      }
      UpdateFreeSpace();
      if free == 0 {
        return;
      }
      StoreAndDrain(data, index);
    }

    method StoreAndDrain(data: seq<Byte>, index: nat)
      requires Valid() && index < TWO64 && |data| < TWO64
      requires window == Model().output.Remaining() && free == window - Total(chunks)
      modifies this`chunks, this`next, this`free, output
      ensures Valid() && Model() == Drain(Store(old(Model()), data, index))
    {
      hide Bytes, Laid, Overlay, Drain, Fits, Total;
      ghost var r := Model();
      StoreFits(r, data, index);
      FitInReassembler(data, index);
      assert Model() == Store(r, data, index);
      DrainKeeps(Model());
      PushIntoOutput();
    }
  }

  lemma DrainStarts(r: Reassembler)
    requires Fits(r)
    ensures Draining(r, r.WindowEnd(), r.held, r.next, r.output)
  {
    assert From(r.held, r.next) == r.held;
    assert r.output.input + [] == r.output.input;
  }

  /** Part way through draining r: the bytes before k are in the output, the rest is held. */
  ghost predicate Draining(r: Reassembler, hi: int, held: map<nat, Byte>, k: nat, out: Stream) {
    && r.output.Valid() && hi == r.WindowEnd() && r.next <= k <= GapFrom(r.held, r.next, hi)
    && GapFrom(held, k, hi) == GapFrom(r.held, r.next, hi)
    && held == From(r.held, k)
    && out == r.output.Write(Slice(r.held, r.next, k))
  }

  lemma DrainChunk(r: Reassembler, hi: int, cs: seq<Chunk>, k: nat, out: Stream)
    requires Laid(cs, k, hi) && cs != [] && cs[0].index == k
    requires Draining(r, hi, Bytes(cs), k, out)
    ensures Laid(cs[1..], cs[0].End(), hi)
    ensures Draining(r, hi, Bytes(cs[1..]), cs[0].End(), out.Write(cs[0].data))
  {
    hide Bytes, GapFrom;
    var held, e := r.held, cs[0].End();
    BytesOfRest(cs, k, hi);
    GapOfChunks(cs, k, hi);
    FromTwice(held, k, e);
    forall i | k <= i < e
      ensures i in held && held[i] == cs[0].data[i - k]
    {
      assert i in Bytes(cs) && i in From(held, k);
    }
    SliceChunk(held, r.next, k, cs[0].data);
    WriteTwice(r.output, Slice(held, r.next, k), cs[0].data);
  }

  lemma FromTwice(held: map<nat, Byte>, k: nat, e: nat)
    requires k <= e
    ensures From(From(held, k), e) == From(held, e)
  {
  }

  lemma SliceChunk(held: map<nat, Byte>, n: nat, k: nat, data: seq<Byte>)
    requires n <= k && forall i :: n <= i < k + |data| ==> i in held
    requires forall i :: k <= i < k + |data| ==> held[i] == data[i - k]
    ensures Slice(held, n, k) + data == Slice(held, n, k + |data|)
  {
    forall j | 0 <= j < k + |data| - n
      ensures (Slice(held, n, k) + data)[j] == held[n + j]
    {
      assert n + j in held;
    }
  }

  lemma Widen(cs: seq<Chunk>, lo: int, hi: int, wider: int)
    requires Laid(cs, lo, hi) && hi <= wider
    ensures Laid(cs, lo, wider)
  {
  }

  lemma DrainDone(r: Reassembler, hi: int, cs: seq<Chunk>, k: nat, out: Stream)
    requires Laid(cs, k, hi) && (cs != [] ==> cs[0].index != k)
    requires Draining(r, hi, Bytes(cs), k, out)
    ensures k == GapFrom(r.held, r.next, hi)
  {
    hide Bytes;
    Gap(cs, k, hi, 0, k, if cs == [] then k + 1 else cs[0].index);
  }

  /** Chunks that lie past the next index cannot fill the window. */
  lemma StrictlyPast(cs: seq<Chunk>, next: nat, hi: int)
    requires Laid(cs, next, hi)
    requires forall i :: i in Bytes(cs) ==> next < i
    ensures Total(cs) <= hi - next
    ensures Total(cs) == hi - next ==> hi == next
  {
    hide Bytes, Total;
    TotalIsSize(cs, next, hi);
    if Total(cs) == hi - next {
      FullRange(cs, next, hi);
      assert next < hi ==> next in Bytes(cs);
    }
  }

  lemma NoOverlay(cs: seq<Chunk>, next: nat, hi: nat, data: seq<Byte>, index: nat)
    ensures Bytes(cs) == Overlay(Bytes(cs), data, index, next, next)
  {
    hide Bytes;
  }

  lemma EndsGrow(cs: seq<Chunk>, next: nat, hi: nat, pos: nat)
    requires Laid(cs, next, hi) && pos <= |cs| && cs != []
    ensures (if pos > 0 then cs[pos - 1].End() else next) <= cs[|cs| - 1].End()
  {
  }

  /** When the chunks fill the window there is nothing left to add. */
  lemma FullOverlay(cs: seq<Chunk>, next: nat, hi: nat, held: map<nat, Byte>, data: seq<Byte>, index: nat, to: nat)
    requires Laid(cs, next, hi) && Total(cs) == hi - next
    requires next <= to && Bytes(cs) == Overlay(held, data, index, next, to)
    ensures Bytes(cs) == Overlay(held, data, index, next, hi)
  {
    hide Bytes, Overlay;
    FullRange(cs, next, hi);
    BytesInRange(cs, next, hi);
    var goal := Overlay(held, data, index, next, hi);
    assert forall i: nat :: i in goal <==> i in Bytes(cs);
  }

  /** Data cut to the window adds the same bytes. */
  lemma SameOverlay(held: map<nat, Byte>, data: seq<Byte>, index: nat, fitted: Chunk, lo: nat, hi: nat)
    requires IsSlot(fitted, data, index, lo, hi)
    ensures fitted.data != [] ==>
              Overlay(held, fitted.data, fitted.index, lo, hi) == Overlay(held, data, index, lo, hi)
    ensures fitted.data == [] ==> held == Overlay(held, data, index, lo, hi)
  {
    hide Overlay;
  }

  /** The chunks after the slot has been put in, if there is anything in it. */
  ghost function Filled(cs: seq<Chunk>, slot: Chunk): seq<Chunk> {
    if slot.data == [] then cs else Put(cs, slot)
  }

  lemma EmptySlot(held: map<nat, Byte>, slot: Chunk)
    requires slot.data == []
    ensures held + ChunkBytes(slot) == held
  {
  }

  lemma SlotRange(slot: Chunk, data: seq<Byte>, index: nat, a: nat, b: nat)
    requires IsSlot(slot, data, index, a, b) && slot.data != []
    ensures a <= slot.index && slot.End() <= b && slot.End() <= index + |data|
  {
  }

  lemma FillEmpty(cs: seq<Chunk>, next: nat, hi: nat, held: map<nat, Byte>, slot: Chunk)
    requires cs == [] && held == Bytes(cs)
    requires next <= slot.index < slot.End() <= hi
    ensures var cs' := Filled(cs, slot);
            && Laid(cs', next, hi)
            && Bytes(cs') == Overlay(held, slot.data, slot.index, next, hi)
            && Total(cs') == Total(cs) + |slot.data| <= hi - next
  {
    assert Laid(cs, next, hi);
    InsertInGap(cs, next, hi, 0, slot);
    hide ChunkBytes, Overlay;
    assert held + ChunkBytes(slot) == Overlay(held, slot.data, slot.index, next, hi) by {
      assert forall i: nat :: slot.Has(i) <==> Max(next, slot.index) <= i < Min(hi, slot.End());
    }
  }

  /** One step of the walk: the data in front of chunk pos goes into the gap there. */
  lemma FillGap(cs: seq<Chunk>, next: nat, hi: nat, pos: nat, nextIndex: nat,
                held: map<nat, Byte>, data: seq<Byte>, index: nat, slot: Chunk)
    requires Laid(cs, next, hi) && pos < |cs|
    requires nextIndex == if pos > 0 then cs[pos - 1].End() else next
    requires Bytes(cs) == Overlay(held, data, index, next, nextIndex)
    requires IsSlot(slot, data, index, nextIndex, cs[pos].index)
    ensures var cs' := Filled(cs, slot);
            && Laid(cs', next, hi)
            && Bytes(cs') == Overlay(held, data, index, next, cs[pos].End())
            && Total(cs') == Total(cs) + |slot.data| <= hi - next
            && |cs| <= |cs'| <= |cs| + 1
            && cs'[pos + |cs'| - |cs|] == cs[pos]
            && next <= cs[pos].End()
  {
    hide Bytes, Total, Overlay, ChunkBytes;
    var cur := cs[pos];
    Gap(cs, next, hi, pos, nextIndex, cur.index);
    forall i: nat | cur.index <= i < cur.End()
      ensures i in Bytes(cs)
    {
      ChunkIsIn(cs, next, hi, pos, i);
    }
    ExtendOverlay(held, Bytes(cs), data, index, next, nextIndex, cur.index, cur.End(), slot);
    if slot.data == [] {
      EmptySlot(Bytes(cs), slot);
      TotalIsSize(cs, next, hi);
    } else {
      InsertInGap(cs, next, hi, pos, slot);
    }
  }

  lemma PastEnd(held: map<nat, Byte>, data: seq<Byte>, index: nat, from: nat, a: nat, b: nat)
    requires index + |data| <= a && index + |data| <= b
    ensures Overlay(held, data, index, from, a) == Overlay(held, data, index, from, b)
  {
  }

  /** After the walk: what of the data lies past the last chunk goes behind it. */
  lemma FillTail(cs: seq<Chunk>, next: nat, hi: nat, nextIndex: nat,
                 held: map<nat, Byte>, data: seq<Byte>, index: nat, tail: Chunk)
    requires Laid(cs, next, hi) && cs != []
    requires next <= nextIndex <= cs[|cs| - 1].End()
    requires nextIndex == cs[|cs| - 1].End() || nextIndex >= index + |data|
    requires index + |data| <= hi
    requires Bytes(cs) == Overlay(held, data, index, next, nextIndex)
    requires IsSlot(tail, data, index, cs[|cs| - 1].End(), index + |data|)
    ensures var cs' := Filled(cs, tail);
            && Laid(cs', next, hi)
            && Bytes(cs') == Overlay(held, data, index, next, hi)
            && Total(cs') == Total(cs) + |tail.data| <= hi - next
  {
    hide Bytes, Total, Overlay, ChunkBytes, Put;
    var end := cs[|cs| - 1].End();
    assert next <= end <= hi;
    if nextIndex == end {
      Gap(cs, next, hi, |cs|, end, hi);
      assert IsSlot(tail, data, index, end, hi);
      ExtendOverlay(held, Bytes(cs), data, index, next, end, hi, hi, tail);
      hide Laid;
      if tail.data == [] {
        EmptySlot(Bytes(cs), tail);
        TotalIsSize(cs, next, hi);
      } else {
        SlotRange(tail, data, index, end, hi);
        InsertInGap(cs, next, hi, |cs|, tail);
      }
    } else {
      hide Laid;
      assert tail.data == [];
      TotalIsSize(cs, next, hi);
      PastEnd(held, data, index, next, nextIndex, hi);
    }
  }
}
