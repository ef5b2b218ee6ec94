/**
 Whatever the order in which the fragments of one stream arrive, however they repeat and overlap,
 and however the application reads meanwhile: the output depends only on which indices arrived
 while they were inside the window.
 */
module OrderIndependence {
  import opened Words
  import opened Reassembly

  datatype Fragment = Fragment(data: seq<Byte>, index: nat, eof: bool)
  {
    predicate Spans(i: int) {
      index <= i < index + |data|
    }
  }

  /** A fragment arrives, or the application reads. */
  datatype Op = Arrives(f: Fragment) | Reads(len: nat)

  /** The fragment is a piece of s, and claims to be the last only if it is. */
  predicate IsPiece(f: Fragment, s: seq<Byte>) {
    && f.index + |f.data| <= |s|
    && f.data == s[f.index..f.index + |f.data|]
    && (f.eof ==> f.index + |f.data| == |s|)
  }

  ghost predicate ArePieces(ops: seq<Op>, s: seq<Byte>) {
    forall k :: 0 <= k < |ops| && ops[k].Arrives? ==> IsPiece(ops[k].f, s)
  }

  /** The reassembler after these operations, one after the other. */
  ghost function Run(capacity: nat, ops: seq<Op>): (r: Reassembler)
    ensures r.Valid()
  {
    if ops == [] then Empty(capacity)
    else Apply(Run(capacity, ops[..|ops| - 1]), ops[|ops| - 1])
  }

  ghost function Apply(r: Reassembler, op: Op): (r': Reassembler)
    requires r.Valid()
    ensures r'.Valid()
  {
    match op
    case Arrives(f) =>
      PushKeeps(r, f.data, f.index, f.eof);
      Push(r, f.data, f.index, f.eof)
    case Reads(len) => Take(r, len)
  }

  /** The operation brings index i to a reassembler whose window reaches past i. */
  predicate Brings(r: Reassembler, op: Op, i: int) {
    op.Arrives? && op.f.Spans(i) && i < r.WindowEnd()
  }

  ghost predicate Timely(capacity: nat, ops: seq<Op>, k: int, i: int) {
    0 <= k < |ops| && Brings(Run(capacity, ops[..k]), ops[k], i)
  }

  /** Index i has arrived while it was inside the window. */
  ghost predicate Received(capacity: nat, ops: seq<Op>, i: int) {
    exists k :: Timely(capacity, ops, k, i)
  }

  ghost predicate AllReceived(capacity: nat, ops: seq<Op>, s: seq<Byte>) {
    forall i :: 0 <= i < |s| ==> Received(capacity, ops, i)
  }

  predicate IsLast(op: Op) {
    op.Arrives? && op.f.eof
  }

  ghost predicate SeesEof(ops: seq<Op>) {
    exists k :: 0 <= k < |ops| && IsLast(ops[k])
  }

  lemma ReceivedOneMore(capacity: nat, ops: seq<Op>, op: Op, i: int)
    ensures Received(capacity, ops + [op], i) <==>
            Received(capacity, ops, i) || Brings(Run(capacity, ops), op, i)
  {
    hide Run, Brings;
    var all := ops + [op];
    assert all[..|ops|] == ops;
    forall k | 0 <= k < |ops|
      ensures Timely(capacity, all, k, i) <==> Timely(capacity, ops, k, i)
    {
      assert all[..k] == ops[..k];
    }
    if Received(capacity, ops, i) {
      var k :| Timely(capacity, ops, k, i);
      assert Timely(capacity, all, k, i);
    }
    if Brings(Run(capacity, ops), op, i) {
      assert Timely(capacity, all, |ops|, i);
    }
  }

  lemma SeesOneMore(ops: seq<Op>, op: Op)
    ensures SeesEof(ops + [op]) <==> SeesEof(ops) || IsLast(op)
  {
    var all := ops + [op];
    assert all[|ops|] == op;
    if SeesEof(ops) {
      var k :| 0 <= k < |ops| && IsLast(ops[k]);
      assert IsLast(all[k]);
    }
  }

  /** The index is assembled or waits to be. */
  predicate Known(r: Reassembler, i: nat) {
    i < r.next || i in r.held
  }

  /** What is in the reassembler is a function of what was received, not of the order. */
  ghost predicate Gathered(r: Reassembler, capacity: nat, ops: seq<Op>, s: seq<Byte>) {
    && Agrees(r, s)
    && r.output.capacity == capacity
    && (forall i :: 0 <= i < |s| ==> (Received(capacity, ops, i) <==> Known(r, i)))
    && (r.eof <==> SeesEof(ops))
    && (r.eof ==> r.eofIndex == |s|)
  }

  /** A push makes an index known exactly if it brings it. */
  lemma PushKnows(r: Reassembler, f: Fragment, s: seq<Byte>, i: nat)
    requires Agrees(r, s) && IsPiece(f, s) && |s| < TWO64
    ensures var r' := Push(r, f.data, f.index, f.eof);
            && Agrees(r', s) && r'.WindowEnd() == r.WindowEnd()
            && (Known(r', i) <==> Known(r, i) || Brings(r, Arrives(f), i))
  {
    hide Push, Excerpt;
    var r' := Push(r, f.data, f.index, f.eof);
    PushAgrees(r, s, f.data, f.index, f.eof);
    PushKeeps(r, f.data, f.index, f.eof);
    if i < r.WindowEnd() {
      PushAdds(r, f.data, f.index, f.eof, i);
    }
  }

  lemma PushGathers(capacity: nat, ops: seq<Op>, f: Fragment, s: seq<Byte>)
    requires |s| < TWO64 && IsPiece(f, s) && Gathered(Run(capacity, ops), capacity, ops, s)
    ensures var r := Run(capacity, ops);
            Gathered(Push(r, f.data, f.index, f.eof), capacity, ops + [Arrives(f)], s)
  {
    hide Run, Push, Agrees, Received, SeesEof, Known, Brings;
    var r := Run(capacity, ops);
    var r' := Push(r, f.data, f.index, f.eof);
    PushKnows(r, f, s, 0);
    PushKeeps(r, f.data, f.index, f.eof);
    PushEof(r, f.data, f.index, f.eof);
    SeesOneMore(ops, Arrives(f));
    forall i | 0 <= i < |s|
      ensures Received(capacity, ops + [Arrives(f)], i) <==> Known(r', i)
    {
      ReceivedOneMore(capacity, ops, Arrives(f), i);
      PushKnows(r, f, s, i);
    }
  }

  lemma TakeGathers(capacity: nat, ops: seq<Op>, len: nat, s: seq<Byte>)
    requires Gathered(Run(capacity, ops), capacity, ops, s)
    ensures Gathered(Take(Run(capacity, ops), len), capacity, ops + [Reads(len)], s)
  {
    hide Run, Received, SeesEof;
    var r := Run(capacity, ops);
    var r' := Take(r, len);
    SeesOneMore(ops, Reads(len));
    forall i | 0 <= i < |s|
      ensures Received(capacity, ops + [Reads(len)], i) <==> Known(r', i)
    {
      ReceivedOneMore(capacity, ops, Reads(len), i);
    }
  }

  /** In every run, exactly the indices that arrived inside the window are assembled or waiting. */
  lemma {:induction false} RunGathers(capacity: nat, ops: seq<Op>, s: seq<Byte>)
    requires |s| < TWO64 && ArePieces(ops, s)
    ensures Gathered(Run(capacity, ops), capacity, ops, s)
  {
    hide Gathered, IsPiece;
    if ops == [] {
      NothingGathered(capacity, s);
    } else {
      var before, op := ops[..|ops| - 1], ops[|ops| - 1];
      RunGathers(capacity, before, s);
      assert before + [op] == ops;
      match op
      case Arrives(f) => PushGathers(capacity, before, f, s);
      case Reads(len) => TakeGathers(capacity, before, len, s);
    }
  }

  lemma NothingGathered(capacity: nat, s: seq<Byte>)
    ensures Gathered(Empty(capacity), capacity, [], s)
  {
  }

  /** The next index reaches the end of s exactly when every index was received. */
  lemma FullIffReceived(r: Reassembler, capacity: nat, ops: seq<Op>, s: seq<Byte>)
    requires Gathered(r, capacity, ops, s)
    ensures r.next == |s| <==> AllReceived(capacity, ops, s)
    ensures r.next == |s| ==> r.held == map[]
    ensures r.next < |s| ==> !Received(capacity, ops, r.next)
  {
    hide Received;
    if r.next < |s| {
      assert !Known(r, r.next);
    } else {
      assert forall i :: i in r.held ==> i < |s|;
    }
  }

  /** In every run the output is the longest prefix of s that was received; it is all of s exactly
      if everything was. */
  lemma OutputIsStream(capacity: nat, ops: seq<Op>, s: seq<Byte>)
    requires |s| < TWO64 && ArePieces(ops, s)
    ensures var out := Run(capacity, ops).output.input;
            && out <= s
            && (forall i :: 0 <= i < |out| ==> Received(capacity, ops, i))
            && (|out| < |s| ==> !Received(capacity, ops, |out|))
            && (out == s <==> AllReceived(capacity, ops, s))
  {
    hide Run, Received;
    RunGathers(capacity, ops, s);
    FullIffReceived(Run(capacity, ops), capacity, ops, s);
  }

  lemma SameNext(f: Reassembler, g: Reassembler, capacity: nat, fs: seq<Op>, gs: seq<Op>, s: seq<Byte>)
    requires Gathered(f, capacity, fs, s) && Gathered(g, capacity, gs, s)
    requires forall i :: 0 <= i < |s| ==> (Received(capacity, fs, i) <==> Received(capacity, gs, i))
    ensures f.next >= g.next
  {
    hide Received;
    if f.next < |s| {
      assert !Known(f, f.next);
      assert !Received(capacity, fs, f.next);
    }
  }

  /** Two runs that received the same indices have put out the same bytes and hold the same. */
  lemma OrderDoesNotMatter(capacity: nat, fs: seq<Op>, gs: seq<Op>, s: seq<Byte>)
    requires |s| < TWO64 && ArePieces(fs, s) && ArePieces(gs, s)
    requires forall i :: 0 <= i < |s| ==> (Received(capacity, fs, i) <==> Received(capacity, gs, i))
    ensures Run(capacity, fs).output.input == Run(capacity, gs).output.input
    ensures Run(capacity, fs).held == Run(capacity, gs).held
  {
    hide Run, Received;
    RunGathers(capacity, fs, s);
    RunGathers(capacity, gs, s);
    var f, g := Run(capacity, fs), Run(capacity, gs);
    SameNext(f, g, capacity, fs, gs, s);
    SameNext(g, f, capacity, gs, fs, s);
    forall i: nat | i < |s|
      ensures i in f.held <==> i in g.held
    {
      assert Known(f, i) <==> Known(g, i);
    }
    assert f.held.Keys == g.held.Keys;
  }

  ghost predicate Covers(ops: seq<Op>, i: int) {
    exists k :: 0 <= k < |ops| && ops[k].Arrives? && ops[k].f.Spans(i)
  }

  lemma WindowCoversCapacity(capacity: nat, ops: seq<Op>, s: seq<Byte>)
    requires |s| < TWO64 && ArePieces(ops, s)
    ensures Run(capacity, ops).WindowEnd() >= capacity
  {
    hide Run, Received, SeesEof;
    RunGathers(capacity, ops, s);
  }

  /** A stream that fits the capacity is always in time: then every order, with any reads in between,
      receives just what its fragments cover. */
  lemma ShortStreamIsInTime(capacity: nat, ops: seq<Op>, s: seq<Byte>, i: nat)
    requires |s| <= capacity && |s| < TWO64 && ArePieces(ops, s) && i < |s|
    ensures Received(capacity, ops, i) <==> Covers(ops, i)
  {
    hide Run, IsPiece;
    if Covers(ops, i) {
      var k :| 0 <= k < |ops| && ops[k].Arrives? && ops[k].f.Spans(i);
      WindowCoversCapacity(capacity, ops[..k], s);
      assert Timely(capacity, ops, k, i);
    }
  }

  /** The k-th operation signals the end: a fragment that finds room in the output, after which
      everything is received and some fragment so far was marked last. */
  ghost predicate Signals(capacity: nat, ops: seq<Op>, s: seq<Byte>, k: int) {
    && 0 <= k < |ops| && ops[k].Arrives?
    && Run(capacity, ops[..k]).output.Remaining() > 0
    && AllReceived(capacity, ops[..k + 1], s) && SeesEof(ops[..k + 1])
  }

  lemma LastSignals(capacity: nat, ops: seq<Op>, s: seq<Byte>)
    requires |s| < TWO64 && ArePieces(ops, s) && ops != []
    ensures Run(capacity, ops).output.ended <==>
            Run(capacity, ops[..|ops| - 1]).output.ended || Signals(capacity, ops, s, |ops| - 1)
  {
    hide Push, AllReceived, SeesEof, IsPiece, Received;
    var n := |ops| - 1;
    assert ops[..n + 1] == ops;
    var r, r' := Run(capacity, ops[..n]), Run(capacity, ops);
    RunGathers(capacity, ops, s);
    FullIffReceived(r', capacity, ops, s);
    assert r' == Apply(r, ops[n]);
    match ops[n]
    case Arrives(f) =>
      hide Run;
      PushEof(r, f.data, f.index, f.eof);
    case Reads(len) =>
  }

  /** Exactly when the end of the stream has been signalled, in every run. An end that is announced
      when the output is full waits for the next fragment that finds room. */
  lemma {:induction false} EndedIff(capacity: nat, ops: seq<Op>, s: seq<Byte>)
    requires |s| < TWO64 && ArePieces(ops, s)
    ensures Run(capacity, ops).output.ended <==> exists k :: Signals(capacity, ops, s, k)
  {
    hide Run, IsPiece;
    if ops == [] {
      NeverStarted(capacity);
    } else {
      var n := |ops| - 1;
      EndedIff(capacity, ops[..n], s);
      LastSignals(capacity, ops, s);
      forall k | 0 <= k < n
        ensures Signals(capacity, ops[..n], s, k) <==> Signals(capacity, ops, s, k)
      {
        SignalsEarlier(capacity, ops, s, n, k);
      }
      hide Signals;
      if exists k :: Signals(capacity, ops, s, k) {
        var k :| Signals(capacity, ops, s, k);
        SignalsInside(capacity, ops, s, k);
      }
      if exists k :: Signals(capacity, ops[..n], s, k) {
        var k :| Signals(capacity, ops[..n], s, k);
        SignalsInside(capacity, ops[..n], s, k);
        assert Signals(capacity, ops, s, k);
      }
    }
  }

  lemma NeverStarted(capacity: nat)
    ensures !Run(capacity, []).output.ended
  {
  }

  lemma SignalsInside(capacity: nat, ops: seq<Op>, s: seq<Byte>, k: int)
    requires Signals(capacity, ops, s, k)
    ensures 0 <= k < |ops|
  {
  }

  lemma SignalsEarlier(capacity: nat, ops: seq<Op>, s: seq<Byte>, n: nat, k: nat)
    requires k < n <= |ops|
    ensures Signals(capacity, ops[..n], s, k) <==> Signals(capacity, ops, s, k)
  {
    hide Run, AllReceived, SeesEof;
    assert ops[..n][..k] == ops[..k] && ops[..n][..k + 1] == ops[..k + 1];
  }

  /** With capacity to spare the output is never full, so the end is signalled as soon as everything is
      covered and some fragment was marked last. */
  lemma EndsWithRoom(capacity: nat, ops: seq<Op>, s: seq<Byte>)
    requires |s| < capacity && |s| < TWO64 && ArePieces(ops, s)
    ensures Run(capacity, ops).output.ended <==>
            SeesEof(ops) && forall i :: 0 <= i < |s| ==> Covers(ops, i)
  {
    hide Run, Covers, Received, IsPiece;
    forall i | 0 <= i < |s|
      ensures Received(capacity, ops, i) <==> Covers(ops, i)
    {
      ShortStreamIsInTime(capacity, ops, s, i);
    }
    EndsOnceReceived(capacity, ops, s);
  }

  lemma {:induction false} EndsOnceReceived(capacity: nat, ops: seq<Op>, s: seq<Byte>)
    requires |s| < capacity && |s| < TWO64 && ArePieces(ops, s)
    ensures Run(capacity, ops).output.ended <==> AllReceived(capacity, ops, s) && SeesEof(ops)
  {
    hide Push, Received, IsPiece;
    RunGathers(capacity, ops, s);
    FullIffReceived(Run(capacity, ops), capacity, ops, s);
    if ops != [] {
      var n := |ops| - 1;
      EndsOnceReceived(capacity, ops[..n], s);
      RunGathers(capacity, ops[..n], s);
      FullIffReceived(Run(capacity, ops[..n]), capacity, ops[..n], s);
      LastSignals(capacity, ops, s);
      assert ops[..n + 1] == ops && ops[..n] + [ops[n]] == ops;
      if ops[n].Reads? {
        SeesOneMore(ops[..n], ops[n]);
      }
      hide Run;
    }
  }

  /** One byte fills an output of capacity 1; the end is announced after it, the byte is read, and the
      end is announced again. */
  function TinyRun(b: Byte): seq<Op> {
    [Arrives(Fragment([b], 0, false)), Arrives(Fragment([], 1, true)), Reads(1), Arrives(Fragment([], 1, true))]
  }

  /** The promise that the end is signalled once everything and the end itself have arrived fails when
      the output is full: here all of [b] is assembled and its end announced, but not signalled. */
  lemma FullOutputMissesEnd(b: Byte)
    ensures var ops := TinyRun(b)[..2];
            && AllReceived(1, ops, [b]) && SeesEof(ops)
            && Run(1, ops).output.input == [b] && !Run(1, ops).output.ended
  {
    hide Run;
    var ops := TinyRun(b)[..2];
    TinyFills(b);
    assert IsLast(ops[1]);
    TinyReceived(b, 2);
    OutputIsStream(1, ops, [b]);
    EndedIff(1, ops, [b]);
    hide AllReceived;
    assert ops[..1] == TinyRun(b)[..1];
  }

  lemma TinyReceived(b: Byte, n: nat)
    requires 1 <= n <= 4
    ensures AllReceived(1, TinyRun(b)[..n], [b]) && ArePieces(TinyRun(b)[..n], [b])
  {
    var ops := TinyRun(b)[..n];
    assert ops[..0] == [];
    assert Timely(1, ops, 0, 0);
  }

  lemma TinyFills(b: Byte)
    ensures var r := Run(1, TinyRun(b)[..1]);
            r.output.input == [b] && r.output.read == 0 && r.output.capacity == 1
  {
    hide Push;
    var ops := TinyRun(b)[..1];
    TinyReceived(b, 1);
    OutputIsStream(1, ops, [b]);
    assert ops[..0] == [];
    PushKeeps(Empty(1), [b], 0, false);
  }

  /** It is signalled as soon as a byte has been read and the end is announced once more. */
  lemma LateEndIsSignalled(b: Byte)
    ensures Run(1, TinyRun(b)).output.ended
  {
    hide Push, AllReceived;
    var ops := TinyRun(b);
    var r1, r2, r3 := Run(1, ops[..1]), Run(1, ops[..2]), Run(1, ops[..3]);
    TinyFills(b);
    assert ops[..2][..1] == ops[..1] && ops[..3][..2] == ops[..2] && ops[..4] == ops;
    assert r2 == Push(r1, [], 1, true);
    PushKeeps(r1, [], 1, true);
    assert r3 == Take(r2, 1);
    TinyReceived(b, 4);
    assert IsLast(ops[3]);
    EndedIff(1, ops, [b]);
    hide Run;
    assert Signals(1, ops, [b], 3);
  }
}
