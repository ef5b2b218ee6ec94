/**
 Exactly what a connection sends, event by event, and what an acknowledgment does to it. Everything
 is said in terms of the state before and after the event and of the event itself.
 */
module Traffic {
  import opened Words
  import opened Wrapping
  import opened ByteStreams
  import opened TcpSegments
  import opened Reassembly
  import opened Receivers
  import opened Senders
  import opened SenderInvariant
  import opened Connections
  import opened Endpoints
  import opened EndpointRuns
  import opened Closing

  function Segments(os: seq<Outstanding>): (segs: seq<Segment>)
    ensures |segs| == |os|
    ensures forall k :: 0 <= k < |os| ==> segs[k] == os[k].seg
  {
    seq(|os|, k requires 0 <= k < |os| => os[k].seg)
  }

  /** What is outstanding from number n on: with the next number before an event for n, what that event
      has sent for the first time. */
  function SentFrom(os: seq<Outstanding>, n: nat): seq<Outstanding> {
    if os == [] || os[0].abs >= n then os else SentFrom(os[1..], n)
  }

  /** A segment with nothing in it, at number x. */
  function Bare(x: nat, isn: U32, rst: bool): Segment {
    Segment(Header(0, 0, Wrap(x, isn), 0, 5, false, false, false, rst, false, false, 0, 0, 0), [])
  }

  /** The segment as it goes out: with the number that the receiver waits for, once it has taken in a
      SYN, and with the room it has, as far as 16 bits can say. */
  function Reporting(seg: Segment, r: Receiver): Segment
    requires r.Valid()
  {
    var h := seg.header;
    var expected := r.reassembler.next + 1 + (if r.Output().ended then 1 else 0);
    seg.(header := h.(ack := r.synReceived,
                      ackno := if r.synReceived then Wrap(expected, r.isn) else h.ackno,
                      win := Min(r.Output().Remaining(), 0xffff)))
  }

  function ReportingAll(segs: seq<Segment>, r: Receiver): (out: seq<Segment>)
    requires r.Valid()
    ensures |out| == |segs|
    ensures forall k :: 0 <= k < |segs| ==> out[k] == Reporting(segs[k], r)
  {
    seq(|segs|, k requires 0 <= k < |segs| => Reporting(segs[k], r))
  }

  lemma StampIsReporting(segs: seq<Segment>, r: Receiver)
    requires r.Valid() && forall seg :: seg in segs ==> Plain(seg)
    ensures StampAll(segs, r) == ReportingAll(segs, r)
  {
    hide Wrap;
    forall k | 0 <= k < |segs|
      ensures StampAll(segs, r)[k] == ReportingAll(segs, r)[k]
    {
      assert segs[k] in segs;
    }
  }

  /** The sender t has sent the segments os on top of what s had sent, and kept them. */
  ghost predicate HasSent(s: Sender, t: Sender, os: seq<Outstanding>) {
    && t.outstanding == s.outstanding + os
    && t.queue == s.queue + Segments(os)
  }

  /** Two segments sent one after the other by one event: the first is full, and the second has data. So
      a FIN goes with the last bytes. */
  predicate WellCut(a: Outstanding, b: Outstanding) {
    |a.seg.payload| == 1000 && b.seg.payload != []
  }

  ghost predicate AllCut(os: seq<Outstanding>, probe: bool) {
    && (forall k :: 0 <= k < |os| ==> os[k].probe == probe)
    && (forall k :: 0 <= k < |os| - 1 ==> WellCut(os[k], os[k + 1]))
  }

  lemma NothingMore(s: Sender)
    ensures HasSent(s, s, [])
  {
    assert s.outstanding + [] == s.outstanding && s.queue + [] == s.queue;
  }

  lemma SegmentsJoin(a: seq<Outstanding>, b: seq<Outstanding>)
    ensures Segments(a + b) == Segments(a) + Segments(b)
  {
  }

  lemma HasSentTwice(s: Sender, t: Sender, u: Sender, a: seq<Outstanding>, b: seq<Outstanding>)
    requires HasSent(s, t, a) && HasSent(t, u, b)
    ensures HasSent(s, u, a + b)
  {
    SegmentsJoin(a, b);
    assert s.outstanding + a + b == s.outstanding + (a + b);
    assert s.queue + Segments(a) + Segments(b) == s.queue + (Segments(a) + Segments(b));
  }

  /** What one turn of the loop sends. */
  function OneSent(s: Sender, len: nat, fin: bool, probe: bool): Outstanding
    requires s.stream.Valid()
  {
    Outstanding(s.next, probe, Segment(BLANK.(seqno := Wrap(s.next, s.isn), fin := fin), s.stream.Peek(len)))
  }

  lemma EmitSends(s: Sender, len: nat, fin: bool, probe: bool)
    requires s.stream.Valid() && (s.stream.Peek(len) != [] || fin)
    ensures HasSent(s, Emit(s, len, fin, probe), [OneSent(s, len, fin, probe)])
  {
    hide Wrap;
    assert Segments([OneSent(s, len, fin, probe)]) == [OneSent(s, len, fin, probe).seg];
  }

  lemma {:induction false} LoopSends(s: Sender, budget: nat, probe: bool) returns (os: seq<Outstanding>)
    requires s.stream.Valid()
    ensures HasSent(s, SendLoop(s, budget, probe), os) && AllCut(os, probe)
    ensures os != [] ==> budget > 0
    ensures os != [] && s.stream.Buffered() > 0 ==> os[0].seg.payload != []
    ensures os != [] && s.stream.Buffered() == 0 ==> s.stream.ended && !s.finSent && |os| == 1
    decreases budget
  {
    hide Emit, HasSent, Wrap;
    var len := Min(budget, MAX_PAYLOAD);
    if budget == 0 || (s.stream.Peek(len) == [] && !FinNow(s, budget)) {
      NothingMore(s);
      os := [];
    } else {
      var fin := FinNow(s, budget);
      var t := Emit(s, len, fin, probe);
      EmitSends(s, len, fin, probe);
      EmitLeaves(s, len, fin, probe);
      var rest := LoopSends(t, budget - |s.stream.Peek(len)| - (if fin then 1 else 0), probe);
      HasSentTwice(s, t, SendLoop(s, budget, probe), [OneSent(s, len, fin, probe)], rest);
      os := [OneSent(s, len, fin, probe)] + rest;
      assert rest != [] ==> WellCut(os[0], os[1]);
    }
  }

  lemma EmitLeaves(s: Sender, len: nat, fin: bool, probe: bool)
    requires s.stream.Valid()
    ensures var t := Emit(s, len, fin, probe);
            t.stream == s.stream.Pop(len) && t.finSent == (s.finSent || fin)
  {
  }

  /** What filling the window sends; all of it probes the window or none of it does. */
  lemma FillSends(s: Sender) returns (os: seq<Outstanding>)
    requires Sound(s) && (s.mayProbe ==> s.window == 0 || s.finSent)
    ensures HasSent(s, FillWindow(s), os)
    ensures AllCut(os, s.next > 0 && s.window == 0 && s.mayProbe)
    ensures s.finSent ==> os == []
    ensures s.next > 0 && WindowUsed(s) && !s.mayProbe ==> os == [] && FillWindow(s) == s
  {
    hide HasSent, Faithful, Tiled, Timed;
    if s.finSent {
      NothingMore(s);
      os := [];
    } else if s.next == 0 {
      NoneAtZero(s);
      os := SynSends(s);
    } else {
      var probe := s.window == 0 && s.mayProbe;
      var u := if probe then s.(mayProbe := false) else s;
      var budget := if probe then Room(s) + 1 else Room(s);
      os := LoopSends(u, budget, probe);
      SameSent(s, u, FillWindow(s), os);
      if WindowUsed(s) && !s.mayProbe {
        IdleLoop(s);
        IdleIsEmpty(s, os);
      }
    }
  }

  lemma SameSent(s: Sender, u: Sender, t: Sender, os: seq<Outstanding>)
    requires u.outstanding == s.outstanding && u.queue == s.queue && HasSent(u, t, os)
    ensures HasSent(s, t, os)
  {
  }

  lemma IdleIsEmpty(s: Sender, os: seq<Outstanding>)
    requires HasSent(s, s, os)
    ensures os == []
  {
    assert |s.outstanding| == |s.outstanding| + |os|;
  }

  lemma IdleLoop(s: Sender)
    requires s.stream.Valid() && !s.finSent && s.next > 0 && WindowUsed(s)
    ensures SendLoop(s, Room(s), false) == s
  {
  }

  lemma NoneAtZero(s: Sender)
    requires Sound(s) && s.next == 0
    ensures s.outstanding == []
  {
    TiledEnd(s.outstanding, s.next);
  }

  lemma SynSends(s: Sender) returns (os: seq<Outstanding>)
    requires Counted(s) && AckInFront(s) && s.next == 0 && !s.finSent && s.outstanding == []
    ensures HasSent(s, FillWindow(s), os) && |os| == 1 && !os[0].probe
  {
    hide Wrap;
    var t := SendSyn(s);
    assert SendLoop(t, 0, false) == t;
    os := t.outstanding;
    assert Segments(os) == [os[0].seg];
  }

  /** The first to be sent by an event lies at the next number before it. */
  lemma {:induction false} SentFromIs(old_: seq<Outstanding>, os: seq<Outstanding>, n: nat, next: nat)
    requires Tiled(old_, n) && Tiled(old_ + os, next) && Start(old_ + os, next) == Start(old_, n)
    ensures SentFrom(old_ + os, n) == os
    ensures os != [] ==> os[0].abs == n
  {
    if old_ == [] {
      assert old_ + os == os;
    } else {
      TiledEnd(old_, n);
      assert (old_ + os)[1..] == old_[1..] + os;
      SentFromIs(old_[1..], os, n, next);
    }
  }

  /** The number for which an acknowledgment is taken: near the last one. */
  function AckMeant(s: Sender, seg: Segment): nat {
    Unwrap(seg.header.ackno, s.isn, Low64(s.lastAck))
  }

  /** The acknowledgment of an arriving segment counts: the connection is alive and has sent its SYN,
      and the number is not beyond what was sent. One that tells nothing new but the window counts. */
  predicate Counts(c: Connection, ev: Event) {
    && ev.Arrive? && Active(c) && !ev.seg.header.rst && ev.seg.header.ack
    && c.sender.next > 0 && AckMeant(c.sender, ev.seg) <= c.sender.next
  }

  /** It counts, and leaves the sender without a window. */
  predicate ClosesWindow(c: Connection, ev: Event) {
    Counts(c, ev) && AckMeant(c.sender, ev.seg) + ev.seg.header.win <= Max(c.sender.lastAck, AckMeant(c.sender, ev.seg))
  }

  /** In every run, exactly which events move the last acknowledgment and the window, and how. */
  lemma AckEffect(cfg: Config, evs: seq<Event>, ev: Event)
    ensures var c, t := After(cfg, evs).conn, After(cfg, evs + [ev]).conn.sender;
            var s := c.sender;
            if Counts(c, ev) then
              && t.lastAck == Max(s.lastAck, AckMeant(s, ev.seg))
              && t.lastAck + t.window == Max(t.lastAck, AckMeant(s, ev.seg) + ev.seg.header.win)
            else t.lastAck == s.lastAck && t.window == s.window
  {
    hide After, Handle, Good, Step, Unwrap, Active;
    AfterOneMore(cfg, evs, ev);
    HandleGood(After(cfg, evs).conn, ev);
  }

  /** What passes from s to t: of the outstanding segments kept is left, os is sent for the first time,
      and extra is queued behind it. */
  ghost predicate Passes(s: Sender, t: Sender, kept: seq<Outstanding>, os: seq<Outstanding>, extra: seq<Segment>) {
    && t.outstanding == kept + os && t.queue == Segments(os) + extra
    && Tiled(kept, s.next) && t.Front() == Start(kept, s.next)
    && (forall o :: o in kept ==> o in s.outstanding)
  }

  /** Then the fresh segments are those from the old next number on. */
  lemma PassedFresh(s: Sender, t: Sender, kept: seq<Outstanding>, os: seq<Outstanding>, extra: seq<Segment>)
    requires Passes(s, t, kept, os, extra) && Steady(t)
    ensures SentFrom(t.outstanding, s.next) == os
    ensures forall o :: o in t.outstanding && o.abs < s.next ==> o in s.outstanding
  {
    hide Faithful, Timed, Segments;
    SentFromIs(kept, os, s.next, t.next);
    FreshIsLater(kept, os, s.next, t.next);
  }

  lemma {:induction false} FreshIsLater(kept: seq<Outstanding>, os: seq<Outstanding>, n: nat, next: nat)
    requires Tiled(kept + os, next) && (os != [] ==> os[0].abs == n)
    ensures forall o :: o in os ==> o.abs >= n
  {
    if kept == [] {
      assert kept + os == os;
      AllFrom(os, next);
    } else {
      assert (kept + os)[1..] == kept[1..] + os;
      FreshIsLater(kept[1..], os, n, next);
    }
  }

  lemma {:induction false} AllFrom(os: seq<Outstanding>, next: nat)
    requires Tiled(os, next)
    ensures forall o :: o in os ==> o.abs >= os[0].abs
  {
    if |os| > 1 {
      AllFrom(os[1..], next);
      assert os == [os[0]] + os[1..];
    }
  }

  /** The application connects, writes or ends its stream. */
  lemma FillPasses(s: Sender, stream: Stream) returns (os: seq<Outstanding>)
    requires Steady(s) && s.queue == [] && stream.Valid()
    requires s.stream.input <= stream.input && stream.read == s.stream.read
    requires s.stream.ended ==> stream.ended && stream.input == s.stream.input
    ensures var t := FillWindow(s.(stream := stream));
            Steady(t) && Passes(s, t, s.outstanding, os, []) && AllCut(os, false)
  {
    hide FillWindow, Faithful, Timed, Segments, AllCut;
    var u := s.(stream := stream);
    StreamKeeps(s, stream);
    os := FillSends(u);
    FillSteady(u);
    assert !u.mayProbe || u.finSent;
    CutEither(os, u.next > 0 && u.window == 0 && u.mayProbe);
    assert FillWindow(u).queue == [] + Segments(os) == Segments(os) + [];
  }

  lemma CutEither(os: seq<Outstanding>, probe: bool)
    requires AllCut(os, probe) && (probe ==> os == [])
    ensures AllCut(os, false)
  {
  }

  /** An acknowledgment that counts. */
  lemma AckPasses(s: Sender, ackno: U32, win: U16) returns (os: seq<Outstanding>)
    requires Steady(s) && s.queue == [] && Accepts(s, ackno)
    ensures var t, v := AckReceived(s, ackno, win), AckValue(s, ackno);
            && Passes(s, t, Unacked(s.outstanding, Max(s.lastAck, v)), os, [])
            && AllCut(os, v + win <= Max(s.lastAck, v))
            && t.next > 0
  {
    hide FillWindow, Sound, Segments, AllCut, Unacked, AckValue, NoteAck, Retire, Grows, WindowUsed, Tiled, Passes,
      HasSent, TimerKept;
    var n := NoteAck(s, ackno, win);
    var u := Retire(n);
    SoundBounds(s);
    AckNoted(s, ackno, win);
    RetireKeeps(s, ackno, win);
    RetiredIs(n);
    os := FillSends(u);
    CutFor(os, u.next > 0 && u.window == 0 && u.mayProbe, AckValue(s, ackno) + win <= u.lastAck);
    FillKeepsFront(u);
    SoundTiled(s);
    UnackedTiled(s.outstanding, s.next, n.lastAck);
    UnackedIn(s.outstanding, n.lastAck);
    PassesOn(s, u, FillWindow(u), os);
  }

  lemma PassesOn(s: Sender, u: Sender, t: Sender, os: seq<Outstanding>)
    requires HasSent(u, t, os) && u.queue == [] && u.next == s.next
    requires Tiled(u.outstanding, s.next) && t.Front() == u.Front()
    requires forall o :: o in u.outstanding ==> o in s.outstanding
    ensures Passes(s, t, u.outstanding, os, [])
  {
    hide Segments, Tiled;
    assert t.queue == [] + Segments(os) == Segments(os) + [];
  }

  lemma FillKeepsFront(u: Sender)
    requires Sound(u) && (u.mayProbe ==> u.window == 0 || u.finSent)
    ensures FillWindow(u).Front() == u.Front() && FillWindow(u).next >= u.next
  {
    hide Sound, FillWindow, WindowUsed;
    FillWindowKeeps(u);
  }

  lemma SoundTiled(s: Sender)
    requires Sound(s)
    ensures Tiled(s.outstanding, s.next)
  {
    hide Tiled, Faithful;
  }

  lemma CutFor(os: seq<Outstanding>, probe: bool, flag: bool)
    requires AllCut(os, probe) && (os == [] || probe == flag)
    ensures AllCut(os, flag)
  {
  }

  lemma RetiredIs(n: Sender)
    ensures Retire(n).outstanding == Unacked(n.outstanding, n.lastAck) && Retire(n).queue == n.queue
  {
  }

  lemma UnackedIn(os: seq<Outstanding>, ack: nat)
    ensures forall o :: o in Unacked(os, ack) ==> o in os
  {
  }

  /** An arriving segment is answered with a bare acknowledgment. */
  predicate BareAnswer(r: Receiver, seg: Segment, nothingElse: bool) {
    if seg.Length() > 0 then nothingElse
    else r.synReceived
         && seg.header.seqno == Wrap(r.reassembler.next + (if r.Output().ended then 1 else 0), r.isn)
  }

  lemma KeepAliveIs(r: Receiver, seg: Segment)
    requires seg.Length() == 0
    ensures IsKeepAlive(r, seg) <==> BareAnswer(r, seg, false)
  {
    if r.synReceived {
      OneBefore(r.AbsAck(), r.isn);
    }
  }

  lemma OneBefore(x: nat, isn: U32)
    requires x >= 1
    ensures (Wrap(x, isn) - 1) % TWO32 == Wrap(x - 1, isn)
  {
    WrapIsSum(x, isn);
    WrapIsSum(x - 1, isn);
    hide Wrap;
    var q, m := (x - 1 + isn) / 0x1_0000_0000, (x - 1 + isn) % 0x1_0000_0000;
    if m + 1 < 0x1_0000_0000 {
      Multiple(m + 1, q);
    } else {
      Multiple(0, q + 1);
      Multiple(m, -1);
    }
  }

  function BareIf(yes: bool, t: Sender): seq<Segment> {
    if yes then [Bare(t.next, t.isn, false)] else []
  }

  lemma EmptyIsBare(s: Sender)
    ensures SendEmpty(s) == s.(queue := s.queue + [Bare(s.next, s.isn, false)])
  {
  }

  /** What the answer to a segment adds to what its acknowledgment has made the sender send. */
  lemma AnswerPasses(s: Sender, a: Sender, r: Receiver, seg: Segment, kept: seq<Outstanding>, os: seq<Outstanding>)
    returns (more: seq<Outstanding>)
    requires Steady(a) && Passes(s, a, kept, os, [])
    requires a.next == 0 ==> os == [] && kept == [] && s.next == 0
    ensures var t := Answer(a, r, seg);
            && Passes(s, t, kept, os + more, BareIf(BareAnswer(r, seg, os + more == []), t))
            && AllCut(more, false) && (a.next > 0 ==> more == [])
  {
    hide FillWindow, Sound, Segments, AllCut, IsKeepAlive, BareAnswer, Bare;
    AnswerSteady(a, r, seg);
    assert Segments(os) + [] == Segments(os) && os + [] == os;
    if seg.Length() == 0 {
      KeepAliveIs(r, seg);
      EmptyIsBare(a);
      more := [];
      NoCut();
      BareQuiet(r, seg, os == []);
    } else {
      assert !IsKeepAlive(r, seg) by { NotKeepAlive(r, seg); }
      more := FillSends(a);
      SoundBounds(a);
      CutEither(more, a.next > 0 && a.window == 0 && a.mayProbe);
      EmptyIsBare(FillWindow(a));
      SegmentsJoin(os, more);
      BareLoud(r, seg, os + more == []);
      assert kept + os + more == kept + (os + more);
    }
  }

  lemma NoCut()
    ensures AllCut([], false)
  {
  }

  lemma NotKeepAlive(r: Receiver, seg: Segment)
    requires seg.Length() > 0
    ensures !IsKeepAlive(r, seg)
  {
  }

  lemma BareQuiet(r: Receiver, seg: Segment, nothingElse: bool)
    requires seg.Length() == 0
    ensures BareAnswer(r, seg, nothingElse) == BareAnswer(r, seg, false)
  {
  }

  lemma BareLoud(r: Receiver, seg: Segment, nothingElse: bool)
    requires seg.Length() > 0
    ensures BareAnswer(r, seg, nothingElse) == nothingElse
  {
  }

  /** What an arriving segment makes the sender of a live connection send. */
  lemma ArrivalPasses(c: Connection, seg: Segment) returns (kept: seq<Outstanding>, os: seq<Outstanding>)
    requires Good(c) && c.Streams() && Active(c) && !seg.header.rst
    ensures var r' := Receive(c.receiver, seg);
            var t := Answer(TakeAck(c.sender, seg), r', seg);
            && Steady(t)
            && Passes(c.sender, t, kept, os, BareIf(BareAnswer(r', seg, os == []), t))
            && AllCut(os, ClosesWindow(c, Arrive(seg)))
  {
    hide FillWindow, Sound, Segments, AllCut, IsKeepAlive, BareAnswer, BareIf, Passes, History, Receive, Active,
      AckReceived, Answer, Unwrap, Low64, WindowUsed;
    var s, r' := c.sender, Receive(c.receiver, seg);
    var a := TakeAck(s, seg);
    SoundBounds(s);
    AckThenAnswer(s, r', seg);
    if seg.header.ack && Accepts(s, seg.header.ackno) {
      kept := Unacked(s.outstanding, Max(s.lastAck, AckValue(s, seg.header.ackno)));
      os := AckPasses(s, seg.header.ackno, seg.header.win);
      AckKeeps(s, seg.header.ackno, seg.header.win);
    } else {
      kept, os := s.outstanding, [];
      StaysPasses(s);
      NoCut();
      assert a == s by { NotAccepted(s, seg); }
    }
    assert Steady(a);
    if a.next == 0 {
      NoneAtZero(s);
    }
    var more := AnswerPasses(s, a, r', seg, kept, os);
    assert a.next == 0 ==> os == [] && !ClosesWindow(c, Arrive(seg));
    CutJoin(os, more, ClosesWindow(c, Arrive(seg)));
    os := os + more;
  }

  lemma NotAccepted(s: Sender, seg: Segment)
    requires s.stream.Valid() && !(seg.header.ack && Accepts(s, seg.header.ackno))
    ensures TakeAck(s, seg) == s
  {
    hide Accepts;
  }

  lemma CutJoin(os: seq<Outstanding>, more: seq<Outstanding>, flag: bool)
    requires AllCut(os, flag) && AllCut(more, false) && (os != [] ==> more == []) && (more != [] ==> !flag)
    ensures AllCut(os + more, flag)
  {
    if more == [] {
      assert os + more == os;
    } else {
      assert os + more == more;
    }
  }

  lemma StaysPasses(s: Sender)
    requires Sound(s) && s.queue == []
    ensures Passes(s, s, s.outstanding, [], [])
  {
    assert s.outstanding + [] == s.outstanding && Segments([]) + [] == [];
  }

  /** What the clock makes the sender send: the reset of one that gives up, or the oldest outstanding
      segment when the timer expires. */
  function Ticking(s: Sender, ms: nat): seq<Segment> {
    if GivesUp(s, ms) then [Bare(s.next, s.isn, true)]
    else if Expires(s, ms) && s.outstanding != [] then [s.outstanding[0].seg]
    else []
  }

  /** What the event makes the connection send, one segment after the other. */
  function Outgoing(c: Connection, c': Connection, ev: Event): seq<Segment> {
    var news := SentFrom(c'.sender.outstanding, c.sender.next);
    match ev
    case Elapse(ms) => Ticking(c.sender, ms)
    case Arrive(seg) =>
      if !Active(c) || seg.header.rst then []
      else Segments(news) + BareIf(BareAnswer(c'.receiver, seg, news == []), c'.sender)
    case _ => Segments(news)
  }

  /** What has become of the outstanding segments: those from before are still the same, and the fresh
      ones probe the window exactly if this event has closed it. */
  ghost predicate Outstands(c: Connection, c': Connection, ev: Event) {
    && (forall o :: o in c'.sender.outstanding && o.abs < c.sender.next ==> o in c.sender.outstanding)
    && AllCut(SentFrom(c'.sender.outstanding, c.sender.next), ClosesWindow(c, ev))
  }

  lemma FlushIs(c: Connection, s: Sender, r: Receiver)
    requires Steady(s) && r.Valid()
    ensures var c' := Flush(c.(sender := s, receiver := r));
            && c'.sender == s.(queue := []) && c'.receiver == r
            && c'.sent == c.sent + ReportingAll(s.queue, r)
  {
    hide Carries, Tiled, Timed, Emitted;
    StampIsReporting(s.queue, r);
  }

  lemma FillExactly(c: Connection, stream: Stream)
    requires Good(c) && stream.Valid()
    requires c.sender.stream.input <= stream.input && stream.read == c.sender.stream.read
    requires c.sender.stream.ended ==> stream.ended && stream.input == c.sender.stream.input
    ensures var c' := Flush(c.(sender := FillWindow(c.sender.(stream := stream))));
            var news := SentFrom(c'.sender.outstanding, c.sender.next);
            && c'.receiver == c.receiver && c'.sent == c.sent + ReportingAll(Segments(news), c.receiver)
            && AllCut(news, false)
            && (forall o :: o in c'.sender.outstanding && o.abs < c.sender.next ==> o in c.sender.outstanding)
  {
    hide FillWindow, Sound, Segments, AllCut, Flush, History, WindowUsed, ReportingAll;
    var t := FillWindow(c.sender.(stream := stream));
    var os := FillPasses(c.sender, stream);
    PassedFresh(c.sender, t, c.sender.outstanding, os, []);
    FlushIs(c, t, c.receiver);
    assert Segments(os) + [] == Segments(os);
    assert c.(sender := t) == c.(sender := t, receiver := c.receiver);
  }

  lemma ArrivalExactly(c: Connection, seg: Segment)
    requires Good(c) && c.Streams()
    ensures var c' := SegmentReceived(c, seg);
            && c'.receiver.Valid()
            && c'.sent == c.sent + ReportingAll(Outgoing(c, c', Arrive(seg)), c'.receiver)
            && Outstands(c, c', Arrive(seg))
  {
    hide FillWindow, Sound, Segments, AllCut, Flush, History, ReportingAll, Answer, TakeAck, Receive, Active,
      WindowUsed, BareAnswer, BareIf, ClosesWindow;
    ReceiveKeeps(c.receiver, seg);
    SoundTiled(c.sender);
    if Active(c) && !seg.header.rst {
      var kept, os := ArrivalPasses(c, seg);
      var c1 := TakeIn(c, seg);
      var t := Answer(TakeAck(c.sender, seg), c1.receiver, seg);
      var extra := BareIf(BareAnswer(c1.receiver, seg, os == []), t);
      PassedFresh(c.sender, t, kept, os, extra);
      FlushIs(c1, t, c1.receiver);
      assert c1.(sender := t) == c1.(sender := t, receiver := c1.receiver);
      SameBare(BareAnswer(c1.receiver, seg, os == []), t);
    } else {
      assert !ClosesWindow(c, Arrive(seg)) by { NotClosing(c, seg); }
      NoneFresh(c.sender.outstanding, c.sender.next);
      NothingReported(c.sent, SegmentReceived(c, seg).receiver);
      NoCut();
    }
  }

  lemma SameBare(yes: bool, t: Sender)
    ensures BareIf(yes, t.(queue := [])) == BareIf(yes, t)
  {
  }

  lemma NotClosing(c: Connection, seg: Segment)
    requires !Active(c) || seg.header.rst
    ensures !ClosesWindow(c, Arrive(seg))
  {
    hide Active;
  }

  lemma {:induction false} NoneFresh(os: seq<Outstanding>, next: nat)
    requires Tiled(os, next)
    ensures SentFrom(os, next) == []
  {
    if os != [] {
      TiledEnd(os, next);
      NoneFresh(os[1..], next);
    }
  }

  lemma NothingReported(sent: seq<Segment>, r: Receiver)
    requires r.Valid()
    ensures sent + ReportingAll([], r) == sent
  {
  }

  lemma TickExactly(c: Connection, ms: nat)
    requires Good(c) && c.Streams()
    ensures var c' := TickBy(c, ms);
            && c'.receiver.Valid()
            && c'.sent == c.sent + ReportingAll(Ticking(c.sender, ms), c'.receiver)
            && c'.sender.outstanding == c.sender.outstanding
  {
    hide Sound, WindowUsed, History, StampAll, Tick, SendReset, ReportingAll, Bare;
    var s := c.sender;
    TickKeeps(s, ms);
    TickSteady(s, ms);
    TickQueue(s, ms);
    var t := Tick(s, ms);
    GivesUpIs(s, ms);
    if GivesUp(s, ms) {
      var u := SendReset(t.(queue := []));
      ResetIsBare(t.(queue := []));
      ResetSteady(t);
      FlushIs(c, u, c.receiver);
      FlushTwice(c.(sender := u));
      SameReport(u.queue, c.receiver);
      assert c.(sender := u) == c.(sender := u, receiver := c.receiver);
    } else {
      FlushIs(c, t, c.receiver);
      assert c.(sender := t) == c.(sender := t, receiver := c.receiver);
    }
  }

  lemma SameReport(segs: seq<Segment>, r: Receiver)
    requires r.Valid()
    ensures Flagged(r).Valid() && ReportingAll(segs, Flagged(r)) == ReportingAll(segs, r)
  {
  }

  lemma ResetIsBare(s: Sender)
    ensures SendReset(s) == s.(queue := s.queue + [Bare(s.next, s.isn, true)])
  {
  }

  lemma TickQueue(s: Sender, ms: nat)
    requires Sound(s) && s.queue == []
    ensures !GivesUp(s, ms) ==> Tick(s, ms).queue == Ticking(s, ms)
  {
    hide Faithful, Tiled, BackedOff;
  }

  /** In every run, exactly what each event makes the connection send, segment by segment and in order:
      the fresh segments, which are kept for retransmission, then a bare acknowledgment if one is
      called for; when the timer expires the oldest outstanding segment; nothing otherwise. */
  lemma SentExactly(cfg: Config, evs: seq<Event>, ev: Event)
    ensures var c, c' := After(cfg, evs).conn, After(cfg, evs + [ev]).conn;
            && c'.receiver.Valid()
            && c'.sent == c.sent + ReportingAll(Outgoing(c, c', ev), c'.receiver)
            && Outstands(c, c', ev)
  {
    hide After, Handle, Good, Step, Outgoing, Outstands, ReportingAll;
    AfterOneMore(cfg, evs, ev);
    SendsExactly(After(cfg, evs).conn, ev);
  }

  lemma SendsExactly(c: Connection, ev: Event)
    requires Good(c) && c.Streams()
    ensures var c' := Handle(c, ev);
            && c'.receiver.Valid()
            && c'.sent == c.sent + ReportingAll(Outgoing(c, c', ev), c'.receiver)
            && Outstands(c, c', ev)
  {
    hide FillWindow, Steady, Segments, AllCut, Flush, History, ReportingAll, Active, SegmentReceived, TickBy, Ticking,
      BareAnswer, BareIf;
    var s := c.sender;
    assert Tiled(s.outstanding, s.next) by { SteadyTiled(s); }
    match ev
    case Open =>
      assert s == s.(stream := s.stream);
      FillExactly(c, s.stream);
    case Send(data) => FillExactly(c, s.stream.Write(data));
    case Finish => FillExactly(c, s.stream.(ended := true));
    case Elapse(ms) =>
      TickExactly(c, ms);
      NoneFresh(s.outstanding, s.next);
      NoCut();
    case Fetch(len) =>
      AppReadsKeeps(c.receiver, len);
      NoneFresh(s.outstanding, s.next);
      NoCut();
      NoSegments();
      NothingReported(c.sent, AppReads(c.receiver, len));
    case Arrive(seg) => ArrivalExactly(c, seg);
  }

  lemma NoSegments()
    ensures Segments([]) == []
  {
  }

  lemma SteadyTiled(s: Sender)
    requires Steady(s)
    ensures Tiled(s.outstanding, s.next)
  {
    hide Tiled, Faithful, WindowUsed;
  }

  /** The segment has nothing in it and does not sit just below what r expects. */
  predicate Unremarkable(seg: Segment, r: Receiver) {
    seg.Length() == 0 && (!r.synReceived || seg.header.seqno != Wrap(r.AbsAck() - 1, r.isn))
  }

  /** Whatever was added takes up sequence numbers; nothing was added if the next number has not moved. */
  ghost predicate OnlyData(c: Connection, c': Connection) {
    && (forall k :: |c.sent| <= k < |c'.sent| ==> c'.sent[k].Length() > 0)
    && (c'.sender.next == c.sender.next ==> c'.sent == c.sent)
  }

  /** In every run: a segment with nothing in it, such as a plain acknowledgment, is not answered, unless
      it sits just below what is expected; then it is. */
  lemma BareAcksAreNotAnswered(cfg: Config, evs: seq<Event>, seg: Segment)
    ensures var c, c' := After(cfg, evs).conn, After(cfg, evs + [Arrive(seg)]).conn;
            Active(c) && !seg.header.rst && seg.Length() == 0 ==>
              if Unremarkable(seg, c'.receiver) then OnlyData(c, c')
              else |c'.sent| > |c.sent| && c'.sent[|c'.sent| - 1].Length() == 0
  {
    hide After, Good, Active, ReportingAll, SentFrom, Segments, Bare, Outstands, BareAnswer, OnlyData, Unremarkable;
    SentExactly(cfg, evs, Arrive(seg));
    var c, c' := After(cfg, evs).conn, After(cfg, evs + [Arrive(seg)]).conn;
    if Active(c) && !seg.header.rst && seg.Length() == 0 {
      AfterGood(cfg, evs + [Arrive(seg)]);
      RemarkableIs(seg, c'.receiver, SentFrom(c'.sender.outstanding, c.sender.next) == []);
      if Unremarkable(seg, c'.receiver) {
        NoBare(c, c');
      } else {
        EndsBare(c, c');
      }
    }
  }

  lemma AfterGood(cfg: Config, evs: seq<Event>)
    ensures Steady(After(cfg, evs).conn.sender) && After(cfg, evs).conn.receiver.Valid()
  {
    hide After;
  }

  lemma RemarkableIs(seg: Segment, r: Receiver, nothingElse: bool)
    requires seg.Length() == 0
    ensures BareAnswer(r, seg, nothingElse) <==> !Unremarkable(seg, r)
  {
    hide Wrap;
  }

  lemma NoBare(c: Connection, c': Connection)
    requires Steady(c'.sender) && c'.receiver.Valid()
    requires c'.sent == c.sent
                        + ReportingAll(Segments(SentFrom(c'.sender.outstanding, c.sender.next)) + [], c'.receiver)
    ensures OnlyData(c, c')
  {
    hide Steady, SentFrom, Wrap;
    var segs := Segments(SentFrom(c'.sender.outstanding, c.sender.next));
    FreshCounts(c'.sender, c.sender.next);
    assert segs + [] == segs;
    forall k | |c.sent| <= k < |c'.sent|
      ensures c'.sent[k].Length() > 0
    {
      assert c'.sent[k] == Reporting(segs[k - |c.sent|], c'.receiver);
    }
  }

  lemma EndsBare(c: Connection, c': Connection)
    requires c'.receiver.Valid()
    requires c'.sent == c.sent + ReportingAll(Segments(SentFrom(c'.sender.outstanding, c.sender.next))
                                              + [Bare(c'.sender.next, c'.sender.isn, false)], c'.receiver)
    ensures |c'.sent| > |c.sent| && c'.sent[|c'.sent| - 1].Length() == 0
  {
    hide SentFrom, Wrap, Segments;
    var segs := Segments(SentFrom(c'.sender.outstanding, c.sender.next));
    var all := segs + [Bare(c'.sender.next, c'.sender.isn, false)];
    assert c'.sent[|c'.sent| - 1] == Reporting(all[|segs|], c'.receiver);
  }

  /** Fresh segments take up sequence numbers. */
  lemma FreshCounts(t: Sender, n: nat)
    requires Steady(t)
    ensures var segs := Segments(SentFrom(t.outstanding, n));
            && (forall k :: 0 <= k < |segs| ==> segs[k].Length() > 0)
            && (t.next == n ==> segs == [])
  {
    SteadyTiled(t);
    hide Steady;
    FreshTiled(t.outstanding, n, t.next);
    NoneFresh(t.outstanding, t.next);
  }

  lemma {:induction false} FreshTiled(os: seq<Outstanding>, n: nat, next: nat)
    requires Tiled(os, next)
    ensures Tiled(SentFrom(os, n), next)
    ensures forall o :: o in SentFrom(os, n) ==> o.seg.Length() > 0
  {
    if os == [] || os[0].abs >= n {
      AllTakeRoom(os, next);
    } else {
      FreshTiled(os[1..], n, next);
    }
  }

  lemma {:induction false} AllTakeRoom(os: seq<Outstanding>, next: nat)
    requires Tiled(os, next)
    ensures forall o :: o in os ==> o.seg.Length() > 0
  {
    if os != [] {
      AllTakeRoom(os[1..], next);
      assert os == [os[0]] + os[1..];
    }
  }

  /** In every run, what a segment that reaches a live connection brings lands at its place. */
  lemma ArrivalPlaces(cfg: Config, evs: seq<Event>, seg: Segment, x: U64, i: nat)
    requires 1 <= x
    ensures var c, c' := After(cfg, evs).conn, After(cfg, evs + [Arrive(seg)]).conn;
            var r, m, m' := c.receiver, c.receiver.reassembler, c'.receiver.reassembler;
            Active(c) && !seg.header.rst
            && (if r.synReceived then seg.header.seqno == Wrap(x, r.isn) && Placeable(r, x)
                else seg.header.syn && x == 1) ==>
              && (seg.header.fin ==> m'.eof && m'.eofIndex == EndIndex(x - 1, |seg.payload|))
              && (!m.output.ended && x - 1 <= i < x - 1 + |seg.payload| < TWO64
                  && m.next <= i < m.WindowEnd() && i !in m.held ==>
                    if i < m'.next then |m'.output.input| > i && m'.output.input[i] == seg.payload[i - (x - 1)]
                    else i in m'.held && m'.held[i] == seg.payload[i - (x - 1)])
  {
    hide After, Handle, Step, Active, Steady, History, Receive, Wrap, EndIndex, Placeable;
    var c := After(cfg, evs).conn;
    AfterOneMore(cfg, evs, Arrive(seg));
    ArriveIs(c, seg);
    if Active(c) && !seg.header.rst
       && (if c.receiver.synReceived then seg.header.seqno == Wrap(x, c.receiver.isn) && Placeable(c.receiver, x)
           else seg.header.syn && x == 1) {
      TakeInGood(c, seg);
      ReceivePlaces(c.receiver, seg, x, i);
    }
  }
}
