/**
 What holds of a sender in every state it can reach, whatever it is told by its application, its
 peer and the clock.
 */
module SenderInvariant {
  import opened Words
  import opened Wrapping
  import opened ByteStreams
  import opened TcpSegments
  import opened Senders

  /** Sequence space is conserved: the next number counts the SYN, the bytes taken from the stream
      and the FIN. */
  ghost predicate Counted(s: Sender) {
    && s.stream.Valid()
    && (s.next == 0 ==> s.stream.read == 0 && !s.finSent && s.window == 1 && !s.mayProbe)
    && (s.next > 0 ==> s.next == 1 + s.stream.read + (if s.finSent then 1 else 0))
    && (s.finSent ==> s.stream.Eof())
  }

  function Start(os: seq<Outstanding>, next: nat): nat {
    if os == [] then next else os[0].abs
  }

  /** The outstanding segments lie end to end, without gap, up to the next number. */
  ghost predicate Tiled(os: seq<Outstanding>, next: nat) {
    os == []
    || (os[0].seg.Length() > 0 && os[0].End() == Start(os[1..], next) && Tiled(os[1..], next))
  }

  /** The last acknowledgment falls into the oldest outstanding segment, or on the next number
      when nothing is outstanding. */
  ghost predicate AckInFront(s: Sender) {
    if s.outstanding == [] then s.lastAck == s.next
    else s.outstanding[0].abs <= s.lastAck < s.outstanding[0].End()
  }

  /** The fields that the sender leaves alone: no ports yet, no options, nothing urgent. */
  predicate Ordinary(h: Header) {
    && h.sport == 0 && h.dport == 0 && h.doff == 5
    && !h.urg && !h.psh && h.cksum == 0 && h.uptr == 0
  }

  /** The segment is what a sender with this initial number, stream and next number has to say at
      absolute sequence number x: a bare SYN, nothing, or the application's bytes from x - 1 on,
      with FIN only at the very end. */
  ghost predicate Carries(seg: Segment, x: nat, isn: U32, stream: Stream, next: nat) {
    && seg.header.seqno == Wrap(x, isn) && x + seg.Length() <= next
    && |seg.payload| <= MAX_PAYLOAD && (seg.Length() > 0 ==> !seg.header.rst) && Ordinary(seg.header)
    && (seg.header.syn ==> x == 0 && seg.payload == [] && !seg.header.fin)
    && (seg.payload != [] || seg.header.fin ==>
          && 1 <= x && x - 1 + |seg.payload| <= stream.read <= |stream.input|
          && seg.payload == stream.input[x - 1..x - 1 + |seg.payload|])
    && (seg.header.fin ==> stream.ended && x - 1 + |seg.payload| == |stream.input|)
  }

  ghost predicate Emitted(seg: Segment, s: Sender) {
    exists x: nat :: Carries(seg, x, s.isn, s.stream, s.next)
  }

  /** Acknowledgment and window are left for the connection to fill in. */
  predicate Plain(seg: Segment) {
    !seg.header.ack && seg.header.ackno == 0 && seg.header.win == 0
  }

  ghost predicate Faithful(s: Sender) {
    && (forall o :: o in s.outstanding ==> Plain(o.seg) && Carries(o.seg, o.abs, s.isn, s.stream, s.next))
    && (forall seg :: seg in s.queue ==> Plain(seg) && Emitted(seg, s))
  }

  /** The initial timeout doubled k times, in 32-bit arithmetic. */
  function BackedOff(base: U16, k: nat): U32 {
    (base * Pow2(k)) % TWO32
  }

  /** Section 5 of RFC 6298: the timer runs exactly while something is outstanding, and the
      timeout has been doubled once per counted retransmission. */
  ghost predicate Timed(s: Sender) {
    && (s.timerOn <==> s.outstanding != [])
    && (s.outstanding == [] ==> s.elapsed == 0 && s.retransmissions == 0)
    && s.rto == BackedOff(s.base, s.retransmissions)
    && (s.elapsed == 0 || s.elapsed < s.rto)
  }

  ghost predicate Sound(s: Sender) {
    Counted(s) && Tiled(s.outstanding, s.next) && AckInFront(s) && Faithful(s) && Timed(s)
  }

  /** What a sender never takes back. */
  ghost predicate Grows(s: Sender, t: Sender) {
    && t.isn == s.isn && t.base == s.base
    && s.stream.input <= t.stream.input
    && (s.stream.ended ==> t.stream.ended && t.stream.input == s.stream.input)
    && s.stream.read <= t.stream.read <= |t.stream.input|
    && s.next <= t.next && s.lastAck <= t.lastAck
    && (s.finSent ==> t.finSent)
  }

  lemma CarriesLater(seg: Segment, x: nat, s: Sender, t: Sender)
    requires Carries(seg, x, s.isn, s.stream, s.next) && Grows(s, t)
    ensures Carries(seg, x, t.isn, t.stream, t.next)
  {
  }

  lemma EmittedLater(seg: Segment, s: Sender, t: Sender)
    requires Emitted(seg, s) && Grows(s, t)
    ensures Emitted(seg, t)
  {
    var x: nat :| Carries(seg, x, s.isn, s.stream, s.next);
    CarriesLater(seg, x, s, t);
  }

  lemma FaithfulLater(s: Sender, t: Sender)
    requires Faithful(s) && Grows(s, t)
    ensures forall o :: o in s.outstanding ==> Plain(o.seg) && Carries(o.seg, o.abs, t.isn, t.stream, t.next)
    ensures forall seg :: seg in s.queue ==> Plain(seg) && Emitted(seg, t)
  {
    forall o | o in s.outstanding
      ensures Carries(o.seg, o.abs, t.isn, t.stream, t.next)
    {
      CarriesLater(o.seg, o.abs, s, t);
    }
    forall seg | seg in s.queue
      ensures Emitted(seg, t)
    {
      EmittedLater(seg, s, t);
    }
  }

  lemma ClosedIsSound(capacity: nat, timeout: U16, isn: U32)
    ensures Sound(Closed(capacity, timeout, isn))
  {
  }

  lemma {:induction false} TiledAppend(os: seq<Outstanding>, o: Outstanding)
    requires Tiled(os, o.abs) && o.seg.Length() > 0
    ensures Tiled(os + [o], o.End())
  {
    if os == [] {
      assert [o][1..] == [];
    } else {
      TiledAppend(os[1..], o);
      assert (os + [o])[1..] == os[1..] + [o];
    }
  }

  lemma SendFaithful(s: Sender, before: Sender, seg: Segment, probe: bool)
    requires Faithful(before) && s == before.(stream := s.stream, finSent := s.finSent)
    requires Plain(seg)
    requires var t := SendSegment(s, seg, probe);
             Grows(before, t) && Carries(t.queue[|s.queue|], s.next, t.isn, t.stream, t.next)
    ensures Faithful(SendSegment(s, seg, probe))
  {
    hide Carries, Grows, Wrap;
    var t := SendSegment(s, seg, probe);
    FaithfulLater(before, t);
    var out := t.queue[|s.queue|];
    assert t.queue == before.queue + [out] && Emitted(out, t);
    hide Emitted;
  }

  /** Sending one more segment behind the outstanding ones. The stream may have been read from. */
  lemma SendKeeps(s: Sender, before: Sender, seg: Segment, probe: bool)
    requires Tiled(before.outstanding, before.next) && AckInFront(before) && Faithful(before) && Timed(before)
    requires s == before.(stream := s.stream, finSent := s.finSent)
    requires Plain(seg)
    requires var t := SendSegment(s, seg, probe);
             Counted(t) && Grows(before, t)
             && Carries(t.queue[|s.queue|], s.next, t.isn, t.stream, t.next)
    ensures Sound(SendSegment(s, seg, probe))
  {
    hide Carries, Faithful, Grows, Tiled, BackedOff, Wrap;
    var t := SendSegment(s, seg, probe);
    SendFaithful(s, before, seg, probe);
    if t.next > s.next {
      TiledAppend(before.outstanding, t.outstanding[|s.outstanding|]);
    }
  }

  /** Sending changes nothing but the queues, the read position and the next number. */
  ghost predicate OnlySends(s: Sender, t: Sender) {
    && t == s.(queue := t.queue, outstanding := t.outstanding, timerOn := t.timerOn,
               stream := s.stream.(read := t.stream.read), next := t.next, finSent := t.finSent)
    && t.Front() == s.Front()
    && s.queue <= t.queue && (t.next > s.next ==> |t.queue| > |s.queue|)
    && Grows(s, t)
  }

  lemma SynKeeps(s: Sender)
    requires Sound(s) && s.next == 0
    ensures Sound(SendSyn(s)) && OnlySends(s, SendSyn(s))
    ensures SendSyn(s).next == 1
  {
    hide BackedOff, Timed, Tiled, Faithful;
    SendKeeps(s, s, Segment(BLANK.(syn := true), []), false);
  }

  /** A segment without payload or flags that count, such as a bare acknowledgment or a reset. */
  lemma BareKeeps(s: Sender, seg: Segment)
    requires Sound(s) && Plain(seg) && Ordinary(seg.header) && seg.Length() == 0
    ensures Sound(SendSegment(s, seg, false)) && OnlySends(s, SendSegment(s, seg, false))
  {
    hide BackedOff, Timed, Tiled, Faithful;
    SendKeeps(s, s, seg, false);
  }

  lemma EmitKeeps(s: Sender, len: nat, fin: bool, probe: bool)
    requires Sound(s) && s.next > 0 && !s.finSent && len <= MAX_PAYLOAD
    requires fin ==> s.stream.Pop(len).Eof()
    requires s.stream.Peek(len) != [] || fin
    ensures Sound(Emit(s, len, fin, probe)) && OnlySends(s, Emit(s, len, fin, probe))
    ensures Emit(s, len, fin, probe).next == s.next + |s.stream.Peek(len)| + (if fin then 1 else 0)
    ensures Emit(s, len, fin, probe).finSent == fin
  {
    hide BackedOff, Timed, Tiled, Faithful, Carries;
    EmitCarries(s, len, fin, probe);
    SendKeeps(s.(stream := s.stream.Pop(len), finSent := fin), s,
              Segment(BLANK.(fin := fin), s.stream.Peek(len)), probe);
  }

  lemma EmitCarries(s: Sender, len: nat, fin: bool, probe: bool)
    requires Counted(s) && s.next > 0 && !s.finSent && len <= MAX_PAYLOAD
    requires fin ==> s.stream.Pop(len).Eof()
    ensures var t := Emit(s, len, fin, probe);
            Carries(t.queue[|s.queue|], s.next, t.isn, t.stream, t.next)
  {
    hide Wrap;
  }

  lemma OnlySendsTwice(s: Sender, t: Sender, u: Sender)
    requires OnlySends(s, t) && OnlySends(t, u)
    ensures OnlySends(s, u)
  {
  }

  lemma NothingSent(s: Sender)
    requires Counted(s)
    ensures OnlySends(s, s)
  {
  }

  /** Nothing more can be sent from the stream: it is drained, and if it has ended the FIN is out. */
  predicate Drained(s: Sender) {
    s.stream.Buffered() == 0 && (s.stream.ended ==> s.finSent)
  }

  /** The loop uses up its budget exactly, unless it runs out of things to send. */
  lemma {:induction false} SendLoopKeeps(s: Sender, budget: nat, probe: bool)
    requires Sound(s) && s.next > 0
    ensures var t := SendLoop(s, budget, probe);
            && Sound(t) && OnlySends(s, t)
            && t.next <= s.next + budget
            && (t.next == s.next + budget || Drained(t))
    decreases budget
  {
    hide Faithful, Tiled, Timed, AckInFront, Emit, OnlySends;
    if budget == 0 || (s.stream.Peek(Min(budget, MAX_PAYLOAD)) == [] && !FinNow(s, budget)) {
      NothingSent(s);
    } else {
      var len := Min(budget, MAX_PAYLOAD);
      var fin := FinNow(s, budget);
      var t := Emit(s, len, fin, probe);
      var left := budget - |s.stream.Peek(len)| - (if fin then 1 else 0);
      EmitKeeps(s, len, fin, probe);
      SendLoopKeeps(t, left, probe);
      OnlySendsTwice(s, t, SendLoop(t, left, probe));
    }
  }

  lemma ProbeKeeps(s: Sender, probe: bool)
    requires Sound(s) && s.next > 0
    ensures Sound(s.(mayProbe := probe))
  {
    hide Carries, BackedOff, Tiled;
    FaithfulLater(s, s.(mayProbe := probe));
  }

  /** The window is full or there is nothing more to send. */
  predicate WindowUsed(s: Sender) {
    s.next >= s.lastAck + s.window || Drained(s)
  }

  /** Filling the window sends all it can and no more than the window allows, but for one sequence
      number per licence to probe a closed window. */
  lemma FillWindowKeeps(s: Sender)
    requires Sound(s) && (s.mayProbe ==> s.window == 0 || s.finSent)
    ensures var t := FillWindow(s);
            && Sound(t) && OnlySends(s.(mayProbe := t.mayProbe), t)
            && WindowUsed(t)
            && (t.mayProbe ==> t.finSent && s.mayProbe)
            && t.next <= Max(s.next, s.lastAck + s.window) + (if s.mayProbe && !t.mayProbe then 1 else 0)
            && (s.next == 0 ==> t.next > 0)
            && (s.finSent ==> t == s)
            && (s.mayProbe && s.window == 0 && 0 < s.next && s.lastAck <= s.next ==>
                  t.next == s.next + 1 || Drained(t))
  {
    hide Faithful, Tiled, Timed, AckInFront, SendSyn, SendLoop;
    if !s.finSent {
      var t := if s.next == 0 then SendSyn(s) else s;
      if s.next == 0 {
        SynKeeps(s);
      }
      var probe := t.window == 0 && t.mayProbe;
      var u := if probe then t.(mayProbe := false) else t;
      var budget := if probe then Room(t) + 1 else Room(t);
      assert Sound(u) by { ProbeKeeps(t, u.mayProbe); }
      SendLoopKeeps(u, budget, probe);
      if s.next == 0 {
        OnlySendsTwice(s, t, SendLoop(u, budget, probe));
      }
    }
  }

  lemma {:induction false} UnackedTiled(os: seq<Outstanding>, next: nat, ack: nat)
    requires Tiled(os, next)
    ensures var rest := Unacked(os, ack);
            && Tiled(rest, next)
            && (|rest| < |os| ==> Start(os, next) < Start(rest, next) <= ack)
  {
    if os != [] && os[0].End() <= ack {
      UnackedTiled(os[1..], next, ack);
    }
  }

  /** The new acknowledgment falls into what is now the oldest outstanding segment. */
  lemma UnackedFront(os: seq<Outstanding>, next: nat, last: nat, ack: nat)
    requires Tiled(os, next) && last <= ack <= next
    requires if os == [] then last == next else os[0].abs <= last < os[0].End()
    ensures var rest := Unacked(os, ack);
            && (if rest == [] then ack == next else rest[0].abs <= ack < rest[0].End())
            && (if |rest| == |os| then rest == os else Start(os, next) < Start(rest, next))
            && (|rest| < |os| <==> os != [] && os[0].End() <= ack)
  {
    UnackedTiled(os, next, ack);
  }

  lemma {:induction false} TiledEnd(os: seq<Outstanding>, next: nat)
    requires Tiled(os, next)
    ensures Start(os, next) <= next
    ensures os != [] ==> os[0].End() <= next
  {
    if os != [] {
      TiledEnd(os[1..], next);
    }
  }

  lemma LastAckBound(s: Sender)
    requires Tiled(s.outstanding, s.next) && AckInFront(s)
    ensures s.Front() <= s.lastAck <= s.next
  {
    TiledEnd(s.outstanding, s.next);
  }

  lemma UnackedFaithful(s: Sender, t: Sender, ack: nat)
    requires Faithful(s) && Grows(s, t) && t.queue == s.queue
    requires t.outstanding == Unacked(s.outstanding, ack)
    ensures Faithful(t)
  {
    hide Carries, Grows, Unacked;
    FaithfulLater(s, t);
  }

  /** An acknowledgment up to ack covers the oldest outstanding segment as a whole. */
  predicate Retires(s: Sender, ack: nat) {
    s.outstanding != [] && s.outstanding[0].End() <= ack
  }

  /** Moving the last acknowledgment and the window, and retiring what is then covered. */
  lemma RetireSound(s: Sender, n: Sender)
    requires Sound(s) && s.next > 0 && s.lastAck <= n.lastAck <= s.next
    requires n == s.(lastAck := n.lastAck, window := n.window, mayProbe := n.mayProbe)
    ensures Sound(Retire(n)) && Grows(s, Retire(n))
    ensures Retire(n).Front() >= s.Front()
    ensures Retire(n).Front() > s.Front() <==> Retires(s, n.lastAck)
    ensures if Retire(n).Front() > s.Front() then Retire(n).retransmissions == 0 && Retire(n).elapsed == 0
            else Retire(n).retransmissions == s.retransmissions && Retire(n).elapsed == s.elapsed
  {
    hide Timed, Carries, Tiled, Faithful, Unacked;
    var t := Retire(n);
    UnackedTiled(s.outstanding, s.next, n.lastAck);
    UnackedFront(s.outstanding, s.next, s.lastAck, n.lastAck);
    SameTimer(s, n);
    RetireTimed(n);
    UnackedFaithful(s, t, n.lastAck);
  }

  lemma SameTimer(s: Sender, n: Sender)
    requires Timed(s) && n == s.(lastAck := n.lastAck, window := n.window, mayProbe := n.mayProbe)
    ensures Timed(n)
  {
  }

  lemma RetireTimed(n: Sender)
    requires Timed(n)
    ensures Timed(Retire(n))
  {
    hide BackedOff, Unacked;
    BackedOffZero(n.base);
  }

  /** How an operation may move the timer: only retiring a segment resets it. */
  predicate TimerKept(s: Sender, t: Sender) {
    && t.Front() >= s.Front()
    && (if t.Front() > s.Front() then t.retransmissions == 0 && t.elapsed == 0
        else t.retransmissions == s.retransmissions && t.elapsed == s.elapsed)
  }

  /** An accepted acknowledgment, once the segments it covers are retired. */
  lemma RetireKeeps(s: Sender, ackno: U32, win: U16)
    requires Sound(s) && Accepts(s, ackno)
    ensures var t := Retire(NoteAck(s, ackno, win));
            && Sound(t) && Grows(s, t)
            && TimerKept(s, t) && (t.Front() > s.Front() <==> Retires(s, t.lastAck))
            && t.lastAck == Max(s.lastAck, AckValue(s, ackno))
            && t.lastAck + t.window == Max(t.lastAck, AckValue(s, ackno) + win)
            && (t.mayProbe ==> t.window == 0 || s.mayProbe)
            && (t.window == 0 ==> t.mayProbe)
            && t.next == s.next && t.finSent == s.finSent
  {
    hide Sound, Grows, AckValue, Unacked, NoteAck, Retire;
    var n := NoteAck(s, ackno, win);
    assert s.lastAck <= s.next by { SoundBounds(s); }
    AckNoted(s, ackno, win);
    RetireSound(s, n);
    RetireOnly(n);
  }

  lemma AckNoted(s: Sender, ackno: U32, win: U16)
    requires Accepts(s, ackno) && s.lastAck <= s.next
    ensures var n := NoteAck(s, ackno, win);
            && n == s.(lastAck := n.lastAck, window := n.window, mayProbe := n.mayProbe)
            && n.lastAck == Max(s.lastAck, AckValue(s, ackno)) <= s.next
            && n.lastAck + n.window == Max(n.lastAck, AckValue(s, ackno) + win)
            && (n.mayProbe ==> n.window == 0 || s.mayProbe)
            && (n.window == 0 ==> n.mayProbe)
  {
    hide AckValue;
  }

  lemma RetireOnly(n: Sender)
    ensures var t := Retire(n);
            && t.lastAck == n.lastAck && t.window == n.window && t.mayProbe == n.mayProbe
            && t.next == n.next && t.finSent == n.finSent
  {
  }

  lemma BackedOffZero(base: U16)
    ensures BackedOff(base, 0) == base
  {
  }

  lemma DoubleLow(p: nat)
    ensures (2 * p) % 0x1_0000_0000 == (2 * (p % 0x1_0000_0000)) % 0x1_0000_0000
  {
    var q, r := p / 0x1_0000_0000, p % 0x1_0000_0000;
    if 2 * r < 0x1_0000_0000 {
      Multiple(2 * r, 2 * q);
    } else {
      Multiple(2 * r - 0x1_0000_0000, 2 * q + 1);
      Multiple(2 * r - 0x1_0000_0000, 1);
    }
  }

  lemma BackedOffNext(base: U16, k: nat)
    ensures BackedOff(base, k + 1) == (2 * BackedOff(base, k)) % TWO32
  {
    assert base * Pow2(k + 1) == 2 * (base * Pow2(k));
    DoubleLow(base * Pow2(k));
  }

  lemma TimeoutKeeps(s: Sender)
    requires Sound(s) && s.outstanding != []
    ensures Sound(Timeout(s)) && Grows(s, Timeout(s))
  {
    hide Carries, BackedOff;
    var t := Timeout(s);
    FaithfulLater(s, t);
    BackedOffNext(s.base, s.retransmissions);
    assert Carries(s.outstanding[0].seg, s.outstanding[0].abs, t.isn, t.stream, t.next);
    assert Emitted(s.outstanding[0].seg, t);
  }

  /** Ticks only retransmit: they change the timer and the queue. */
  lemma TickKeeps(s: Sender, ms: nat)
    requires Sound(s)
    ensures Sound(Tick(s, ms)) && Grows(s, Tick(s, ms))
    ensures Tick(s, ms) == s.(queue := Tick(s, ms).queue, elapsed := Tick(s, ms).elapsed,
                              rto := Tick(s, ms).rto, retransmissions := Tick(s, ms).retransmissions)
  {
    hide Sound, Grows, Timeout;
    assert s.timerOn ==> s.outstanding != [] by { TimerNeeds(s); }
    if s.timerOn {
      if (s.elapsed + ms) % TWO32 >= s.rto {
        TimeoutKeeps(s);
        TimeoutOnly(s);
      } else {
        WaitKeeps(s, (s.elapsed + ms) % TWO32);
      }
    } else {
      WaitKeeps(s, s.elapsed);
    }
  }

  lemma TimerNeeds(s: Sender)
    requires Sound(s)
    ensures s.timerOn <==> s.outstanding != []
  {
  }

  lemma TimeoutOnly(s: Sender)
    requires s.outstanding != [] && s.timerOn
    ensures var t := Timeout(s);
            t == s.(queue := t.queue, elapsed := t.elapsed, rto := t.rto, retransmissions := t.retransmissions)
  {
  }

  lemma WaitKeeps(s: Sender, elapsed: U32)
    requires Sound(s) && ((s.timerOn && elapsed < s.rto) || elapsed == s.elapsed)
    ensures Sound(s.(elapsed := elapsed)) && Grows(s, s.(elapsed := elapsed))
  {
    hide Carries, BackedOff, Tiled;
    FaithfulLater(s, s.(elapsed := elapsed));
  }

  /** The application writes to the outgoing stream, ends it, or an error is flagged on it. */
  lemma StreamKeeps(s: Sender, stream: Stream)
    requires Sound(s) && stream.Valid()
    requires s.stream.input <= stream.input && stream.read == s.stream.read
    requires s.stream.ended ==> stream.ended && stream.input == s.stream.input
    ensures Sound(s.(stream := stream)) && Grows(s, s.(stream := stream))
  {
    hide Carries, BackedOff, Tiled;
    FaithfulLater(s, s.(stream := stream));
  }

  /** Between operations the window is used up and no licence to probe is left over. */
  ghost predicate Steady(s: Sender) {
    Sound(s) && WindowUsed(s) && (s.mayProbe ==> s.finSent)
  }

  lemma GrowsTwice(s: Sender, t: Sender, u: Sender)
    requires Grows(s, t) && OnlySends(t.(mayProbe := u.mayProbe), u)
    ensures Grows(s, u)
    ensures TimerKept(s, t) ==> TimerKept(s, u)
  {
  }

  /** What an acknowledgment does. An accepted one that leaves the window closed licenses a probe
      of one sequence number. */
  lemma AckKeeps(s: Sender, ackno: U32, win: U16)
    requires Steady(s)
    ensures var t, ack := AckReceived(s, ackno, win), AckValue(s, ackno);
            && Steady(t) && Grows(s, t) && TimerKept(s, t)
            && (!Accepts(s, ackno) ==> t == s)
            && (Accepts(s, ackno) ==>
                  && t.lastAck == Max(s.lastAck, ack)
                  && (t.Front() > s.Front() <==> Retires(s, t.lastAck))
                  && t.lastAck + t.window == Max(t.lastAck, ack + win)
                  && t.next <= Max(s.next, ack + win) + (if ack + win <= t.lastAck then 1 else 0)
                  && (ack + win <= t.lastAck ==> t.next == s.next + 1 || Drained(t)))
  {
    hide Sound, AckValue, FillWindow, NoteAck, Retire;
    SoundBounds(s);
    if Accepts(s, ackno) {
      var r := Retire(NoteAck(s, ackno, win));
      RetireKeeps(s, ackno, win);
      SoundBounds(r);
      FillWindowKeeps(r);
      GrowsTwice(s, r, FillWindow(r));
    }
  }

  lemma SoundBounds(s: Sender)
    requires Sound(s)
    ensures Counted(s) && s.Front() <= s.lastAck <= s.next
  {
    LastAckBound(s);
  }

  lemma FillSteady(s: Sender)
    requires Sound(s) && (s.mayProbe ==> s.finSent)
    ensures var t := FillWindow(s);
            && Steady(t) && OnlySends(s, t)
            && t.next <= Max(s.next, s.lastAck + s.window)
  {
    hide Sound, SendLoop, SendSyn;
    FillWindowKeeps(s);
  }

  lemma BareSteady(s: Sender, seg: Segment)
    requires Steady(s) && Plain(seg) && Ordinary(seg.header) && seg.Length() == 0
    ensures Steady(SendSegment(s, seg, false)) && OnlySends(s, SendSegment(s, seg, false))
    ensures SendSegment(s, seg, false).next == s.next
  {
    BareKeeps(s, seg);
    hide Sound;
  }

  lemma TickSteady(s: Sender, ms: nat)
    requires Steady(s)
    ensures Steady(Tick(s, ms))
  {
    hide Sound, Tick;
    TickKeeps(s, ms);
  }

  /** What is in flight is the stretch from the oldest outstanding segment to the next number. */
  lemma {:induction false} InFlightIsStretch(os: seq<Outstanding>, next: nat)
    requires Tiled(os, next)
    ensures InFlight(os) == next - Start(os, next)
  {
    if os != [] {
      InFlightIsStretch(os[1..], next);
    }
  }
}
