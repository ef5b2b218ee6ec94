/**
 What the stream reassembler computes, stated over a plain map from stream index to byte.
 StreamReassembler refines it with a map of disjoint segments.
 */
module Reassembly {
  import opened Words
  import opened ByteStreams

  datatype Reassembler = Reassembler(held: map<nat, Byte>, next: nat, eof: bool, eofIndex: nat, output: Stream)
  {
    /** First index past the bytes that could be accepted now. */
    function WindowEnd(): int {
      next + output.Remaining()
    }

    /** Waiting bytes lie strictly past the next index and inside the window. */
    ghost predicate Valid() {
      && output.Valid()
      && next >= |output.input|
      && (!output.ended ==> next == |output.input|)
      && forall i :: i in held ==> next < i < WindowEnd()
    }
  }

  function Empty(capacity: nat): (r: Reassembler)
    ensures r.Valid()
  {
    Reassembler(map[], 0, false, 0, Fresh(capacity))
  }

  /** The held bytes with those of data (its first byte at index) added at the free places
      of [from, to); a byte that is already held stays. */
  function Overlay(held: map<nat, Byte>, data: seq<Byte>, index: nat, from: int, to: int): (m: map<nat, Byte>)
    ensures forall i: nat :: i in m ==> i in held || Max(from, index) <= i < Min(to, index + |data|)
    ensures forall i: nat :: i in held ==> i in m && m[i] == held[i]
    ensures forall i: nat :: Max(from, index) <= i < Min(to, index + |data|) ==>
              i in m && (i in held || m[i] == data[i - index])
  {
    held + map i: nat | Max(from, index) <= i < Min(to, index + |data|) && i !in held :: data[i - index]
  }

  /** The first index from k on, up to hi, at which no byte is held. */
  function GapFrom(held: map<nat, Byte>, k: nat, hi: int): (e: nat)
    ensures k <= e <= Max(k, hi)
    ensures forall i :: k <= i < e ==> i in held
    ensures e < hi ==> e !in held
    decreases hi - k
  {
    if k < hi && k in held then GapFrom(held, k + 1, hi) else k
  }

  /** The bytes held at k, k+1, ..., e-1. */
  function Slice(held: map<nat, Byte>, k: nat, e: nat): (run: seq<Byte>)
    requires k <= e
    requires forall i :: k <= i < e ==> i in held
  {
    seq(e - k, j requires 0 <= j < e - k => held[k + j])
  }

  function From(held: map<nat, Byte>, k: nat): map<nat, Byte> {
    map i | i in held && k <= i :: held[i]
  }

  /** Move the run that starts at the next index to the output; signal the end of input when
      nothing is left waiting and the end has been reached. */
  function Drain(r: Reassembler): (r': Reassembler)
    requires r.output.Valid()
  {
    var gap := GapFrom(r.held, r.next, r.WindowEnd());
    var rest := From(r.held, gap);
    var out := r.output.Write(Slice(r.held, r.next, gap));
    r.(held := rest, next := gap,
       output := if rest == map[] && r.eof && gap == r.eofIndex then out.(ended := true) else out)
  }

  /** Keep what fits of data. An index so large that its end passes 2^64 keeps nothing. */
  function Store(r: Reassembler, data: seq<Byte>, index: nat): (r': Reassembler) {
    if index + |data| < TWO64 then
      r.(held := Overlay(r.held, data, index, r.next, r.WindowEnd()))
    else r
  }

  /** The index just past data, in 64-bit arithmetic. */
  function EndIndex(index: nat, length: nat): (e: U64) {
    Low64(index + length)
  }

  function NoteEof(r: Reassembler, data: seq<Byte>, index: nat, eof: bool): Reassembler {
    if eof then r.(eof := true, eofIndex := EndIndex(index, |data|)) else r
  }

  /** push_substring. When the output is full the push only records the end of the stream. */
  function Push(r: Reassembler, data: seq<Byte>, index: nat, eof: bool): (r': Reassembler)
    requires r.output.Valid()
  {
    var noted := NoteEof(r, data, index, eof);
    if r.output.Remaining() == 0 then noted else Drain(Store(noted, data, index))
  }

  /** What no push and no read takes back: later is a state that follows r. */
  ghost predicate Follows(r: Reassembler, later: Reassembler) {
    && later.next >= r.next
    && later.WindowEnd() >= r.WindowEnd()
    && r.output.input <= later.output.input
    && (r.output.ended ==> later.output.ended)
    && later.output.capacity == r.output.capacity
    && later.output.read == r.output.read
    && later.output.error == r.output.error
  }

  /** Like Valid, but the byte at the next index itself may be waiting. */
  ghost predicate Fits(r: Reassembler) {
    && r.output.Valid()
    && r.next >= |r.output.input|
    && (!r.output.ended ==> r.next == |r.output.input|)
    && forall i :: i in r.held ==> r.next <= i < r.WindowEnd()
  }

  /** Draining leaves a gap at the next index and hands over everything in front of it. */
  lemma DrainKeeps(r: Reassembler)
    requires Fits(r)
    ensures Drain(r).Valid() && Follows(r, Drain(r))
    ensures Drain(r).output.input ==
            r.output.input + if r.output.ended then [] else Slice(r.held, r.next, Drain(r).next)
  {
  }

  lemma StoreFits(r: Reassembler, data: seq<Byte>, index: nat)
    requires r.Valid()
    ensures Fits(Store(r, data, index))
  {
  }

  lemma PushKeeps(r: Reassembler, data: seq<Byte>, index: nat, eof: bool)
    requires r.Valid()
    ensures Push(r, data, index, eof).Valid()
    ensures Follows(r, Push(r, data, index, eof))
  {
    var noted := NoteEof(r, data, index, eof);
    if r.output.Remaining() > 0 {
      StoreFits(noted, data, index);
      DrainKeeps(Store(noted, data, index));
    }
  }

  /** A push records an announced end, and signals it exactly if the output had room and, after the
      push, everything up to the end is assembled and nothing waits. */
  lemma PushEof(r: Reassembler, data: seq<Byte>, index: nat, eof: bool)
    requires r.output.Valid()
    ensures var r' := Push(r, data, index, eof);
            && (r'.eof <==> r.eof || eof)
            && r'.eofIndex == (if eof then EndIndex(index, |data|) else r.eofIndex)
            && (r'.output.ended <==>
                || r.output.ended
                || (r.output.Remaining() > 0 && r'.eof && r'.next == r'.eofIndex && r'.held == map[]))
  {
  }

  /** Inside the window a push leaves an index assembled or waiting exactly if it was, or if the
      pushed data has it. */
  lemma PushAdds(r: Reassembler, data: seq<Byte>, index: nat, eof: bool, i: nat)
    requires r.Valid() && i < r.WindowEnd() && index + |data| < TWO64
    ensures var r' := Push(r, data, index, eof);
            i < r'.next || i in r'.held <==> i < r.next || i in r.held || index <= i < index + |data|
  {
    if r.output.Remaining() > 0 {
      var stored := Store(NoteEof(r, data, index, eof), data, index);
      assert i >= r.next ==> (i in stored.held <==> i in r.held || index <= i < index + |data|);
    }
  }

  /** Every byte of data pushed to a free place of the window is put there. */
  lemma PushPlaces(r: Reassembler, data: seq<Byte>, index: nat, eof: bool, i: nat)
    requires r.Valid() && !r.output.ended && index <= i < index + |data| < TWO64
    requires r.next <= i < r.WindowEnd() && i !in r.held
    ensures var r' := Push(r, data, index, eof);
            if i < r'.next then |r'.output.input| > i && r'.output.input[i] == data[i - index]
            else i in r'.held && r'.held[i] == data[i - index]
  {
    hide Overlay, Store, NoteEof, Drain, Slice;
    var noted := NoteEof(r, data, index, eof);
    var stored := Store(noted, data, index);
    assert noted.Valid() && noted.held == r.held && noted.next == r.next && noted.output == r.output by {
      NotedOnly(r, data, index, eof);
    }
    StoreFits(noted, data, index);
    StorePuts(noted, data, index, i);
    DrainPlaces(stored, i);
  }

  lemma NotedOnly(r: Reassembler, data: seq<Byte>, index: nat, eof: bool)
    ensures var n := NoteEof(r, data, index, eof);
            n.held == r.held && n.next == r.next && n.output == r.output
  {
  }

  lemma StorePuts(r: Reassembler, data: seq<Byte>, index: nat, i: nat)
    requires index <= i < index + |data| < TWO64 && r.next <= i < r.WindowEnd() && i !in r.held
    ensures var m := Store(r, data, index);
            && i in m.held && m.held[i] == data[i - index]
            && m.next == r.next && m.output == r.output
  {
  }

  /** Draining leaves a held byte at its place, in the output or among those that wait. */
  lemma DrainPlaces(m: Reassembler, index: nat)
    requires Fits(m) && !m.output.ended && index in m.held
    ensures var m' := Drain(m);
            if index < m'.next then |m'.output.input| > index && m'.output.input[index] == m.held[index]
            else index in m'.held && m'.held[index] == m.held[index]
  {
    hide Follows, Reassembler.Valid;
    DrainKeeps(m);
    var gap := Drain(m).next;
    if index < gap {
      assert Slice(m.held, m.next, gap)[index - m.next] == m.held[index];
    }
  }

  /** A fragment marked last that ends at the next index signals the end if nothing waits. */
  lemma PushSignals(r: Reassembler, data: seq<Byte>, index: nat)
    requires r.Valid() && r.held == map[] && r.output.Remaining() > 0
    requires index + |data| == r.next < TWO64
    ensures var r' := Push(r, data, index, true);
            r'.next == r.next && r'.output.ended
  {
    var stored := Store(NoteEof(r, data, index, true), data, index);
    assert stored.held == map[];
    assert From(stored.held, r.next) == map[];
  }

  /** A push past the window changes neither what is assembled nor what waits. */
  lemma PushBeyond(r: Reassembler, data: seq<Byte>, index: nat, eof: bool)
    requires r.Valid() && index >= r.WindowEnd()
    ensures var r' := Push(r, data, index, eof);
            r'.next == r.next && r'.held == r.held && r'.output.input == r.output.input
  {
    hide Drain, Store;
    var noted := NoteEof(r, data, index, eof);
    StoreBeyond(noted, data, index);
    DrainNothing(noted);
  }

  lemma StoreBeyond(r: Reassembler, data: seq<Byte>, index: nat)
    requires index >= r.WindowEnd()
    ensures Store(r, data, index) == r
  {
    assert Overlay(r.held, data, index, r.next, r.WindowEnd()) == r.held;
  }

  lemma DrainNothing(r: Reassembler)
    requires r.Valid()
    ensures var r' := Drain(r);
            r'.next == r.next && r'.held == r.held && r'.output.input == r.output.input
  {
    assert From(r.held, r.next) == r.held;
    assert r.output.input + [] == r.output.input;
  }

  /** The application takes up to len bytes off the output. */
  function Take(r: Reassembler, len: nat): (r': Reassembler)
    requires r.Valid()
    ensures r'.Valid() && r'.WindowEnd() >= r.WindowEnd()
  {
    r.(output := r.output.Pop(len))
  }

  /** Every held byte is the byte of s at its index. */
  ghost predicate Excerpt(held: map<nat, Byte>, s: seq<Byte>) {
    forall i :: i in held ==> i < |s| && held[i] == s[i]
  }

  /** Everything assembled or waiting comes from the stream s, and the input has ended only
      if all of s is assembled. */
  ghost predicate Agrees(r: Reassembler, s: seq<Byte>) {
    && r.Valid()
    && r.next <= |s| && r.output.input == s[..r.next]
    && Excerpt(r.held, s)
    && (r.eof ==> r.eofIndex >= |s|)
    && (r.output.ended ==> r.next == |s|)
  }

  /** A push that cannot contradict s: the bytes it could place below limit are those of s, and
      the end it announces is that of s or lies beyond it. */
  ghost predicate Harmless(s: seq<Byte>, data: seq<Byte>, index: nat, eof: bool, limit: int) {
    && (data != [] && index + |data| < TWO64 && index < limit ==>
          index + |data| <= |s| && data == s[index..index + |data|])
    && (eof ==> EndIndex(index, |data|) >= |s|)
  }

  lemma OverlayExcerpt(held: map<nat, Byte>, data: seq<Byte>, index: nat, from: int, to: int, s: seq<Byte>)
    requires Excerpt(held, s)
    requires data != [] && index < to ==> index + |data| <= |s| && data == s[index..index + |data|]
    ensures Excerpt(Overlay(held, data, index, from, to), s)
  {
  }

  lemma PushAgrees(r: Reassembler, s: seq<Byte>, data: seq<Byte>, index: nat, eof: bool)
    requires Agrees(r, s) && Harmless(s, data, index, eof, r.WindowEnd())
    ensures Agrees(Push(r, data, index, eof), s)
  {
    var noted := NoteEof(r, data, index, eof);
    if r.output.Remaining() > 0 {
      StoreFits(noted, data, index);
      if index + |data| < TWO64 {
        OverlayExcerpt(r.held, data, index, r.next, r.WindowEnd(), s);
      }
      DrainAgrees(Store(noted, data, index), s);
    }
  }

  lemma DrainAgrees(r: Reassembler, s: seq<Byte>)
    requires Fits(r)
    requires r.next <= |s| && r.output.input == s[..r.next]
    requires Excerpt(r.held, s)
    requires r.eof ==> r.eofIndex >= |s|
    requires r.output.ended ==> r.next == |s|
    ensures Agrees(Drain(r), s)
  {
    DrainKeeps(r);
    var gap := Drain(r).next;
    assert gap <= |s| by {
      if gap > r.next { assert gap - 1 in r.held; }
    }
    assert Slice(r.held, r.next, gap) == s[r.next..gap];
    assert s[..r.next] + s[r.next..gap] == s[..gap];
  }
}
