/**
 Theorems over whole runs of one endpoint, for every list of events.
 */
module EndpointRuns {
  import opened Words
  import opened Wrapping
  import opened TcpSegments
  import opened Receivers
  import opened Senders
  import opened SenderInvariant
  import opened Connections
  import opened Endpoints

  /** A connection with what an observer notes down about it: for how much tick time segments have
      now been outstanding without one being retired, the furthest right edge that a heeded
      acknowledgment has offered, and how many heeded acknowledgments left the window closed. The
      connection never looks at these. */
  datatype Observed = Observed(conn: Connection, quiet: nat, edge: nat, closings: nat)

  function Begin(sendCapacity: nat, receiveCapacity: nat, timeout: U16, isn: U32): Observed {
    Observed(Opening(sendCapacity, receiveCapacity, timeout, isn), 0, 1, 0)
  }

  function Step(o: Observed, ev: Event): Observed
    requires o.conn.Streams()
  {
    var s, c' := o.conn.sender, Handle(o.conn, ev);
    var waited := if ev.Elapse? then o.quiet + ev.ms else o.quiet;
    var heeds := ev.Arrive? && Heeds(o.conn, ev.seg);
    Observed(c',
             if c'.sender.Front() > s.Front() || c'.sender.outstanding == [] then 0 else waited,
             if heeds then Max(o.edge, Offer(s, ev.seg)) else o.edge,
             if heeds && Closes(s, ev.seg) then o.closings + 1 else o.closings)
  }

  /** The time the timer has waited out before its k-th doubling: base + 2 base + 4 base + ... */
  function Waited(base: U16, k: nat): int {
    base * (Pow2(k) - 1)
  }

  /** The timeout stays exact up to 16 doublings of its 16-bit initial value. */
  const EXACT: nat := 16

  ghost predicate Patient(s: Sender, quiet: nat) {
    if s.retransmissions <= EXACT then quiet >= Waited(s.base, s.retransmissions) + s.elapsed
    else quiet >= Waited(s.base, EXACT)
  }

  ghost predicate Respects(s: Sender, edge: nat, closings: nat) {
    s.next <= edge + closings && s.lastAck + s.window <= edge + closings
  }

  ghost predicate Invariant(o: Observed) {
    && Good(o.conn)
    && Patient(o.conn.sender, o.quiet)
    && Respects(o.conn.sender, o.edge, o.closings)
  }

  lemma {:induction false} Pow2Bounds(k: nat)
    requires k <= EXACT
    ensures Pow2(k) <= 0x1_0000
    ensures k >= 9 ==> Pow2(k) >= 512
    decreases EXACT - k
  {
    if k < EXACT {
      Pow2Bounds(k + 1);
    }
    Pow2Values();
  }

  lemma Pow2Values()
    ensures Pow2(9) == 512 && Pow2(EXACT) == 0x1_0000
  {
    assert Pow2(5) == 32;
    assert Pow2(9) == 16 * Pow2(5);
    assert Pow2(13) == 16 * Pow2(9);
    assert Pow2(16) == 8 * Pow2(13);
  }

  lemma Grow(a: nat, b: nat, c: nat)
    requires b <= c
    ensures a * b <= a * c
  {
    assert a * c == a * b + a * (c - b);
  }

  lemma ExactTimeout(base: U16, k: nat)
    requires k <= EXACT
    ensures BackedOff(base, k) == base * Pow2(k)
  {
    Pow2Bounds(k);
    Grow(base, Pow2(k), 0x1_0000);
    var p := base * Pow2(k);
    assert 0 <= p < 0x1_0000_0000;
    assert p % 0x1_0000_0000 == p;
  }

  /** Waiting through one more timeout. */
  lemma WaitedNext(base: U16, k: nat)
    ensures Waited(base, k + 1) == Waited(base, k) + base * Pow2(k)
  {
    assert base * (2 * Pow2(k) - 1) == base * (Pow2(k) - 1) + base * Pow2(k);
  }

  lemma TickPatient(s: Sender, ms: nat, quiet: nat)
    requires Sound(s) && Patient(s, quiet)
    ensures Patient(Tick(s, ms), quiet + ms)
  {
    hide Faithful, Tiled, Waited, BackedOff;
    var k := s.retransmissions;
    if s.timerOn && k <= EXACT {
      ExactTimeout(s.base, k);
      WaitedNext(s.base, k);
      assert (s.elapsed + ms) % TWO32 <= s.elapsed + ms;
    }
  }

  lemma WaitedZero(base: U16)
    ensures Waited(base, 0) == 0
  {
  }

  lemma BeginHolds(sendCapacity: nat, receiveCapacity: nat, timeout: U16, isn: U32)
    ensures Invariant(Begin(sendCapacity, receiveCapacity, timeout, isn))
  {
    WaitedZero(timeout);
    ClosedIsSound(sendCapacity, timeout, isn);
  }

  lemma IdlePatient(s: Sender)
    requires Sound(s) && s.outstanding == []
    ensures Patient(s, 0)
  {
    hide Waited, Tiled, Faithful;
    WaitedZero(s.base);
  }

  /** One event keeps the invariant. */
  lemma StepKeeps(o: Observed, ev: Event)
    requires Invariant(o)
    ensures o.conn.Streams() && Invariant(Step(o, ev))
  {
    hide Sound, History, Handle, WindowUsed, Waited, Tick, AckValue;
    HandleGood(o.conn, ev);
    var s, t := o.conn.sender, Step(o, ev).conn.sender;
    WaitedZero(s.base);
    SoundBounds(s);
    if t.outstanding == [] {
      IdlePatient(t);
    }
    if ev.Elapse? {
      assert Sound(s);
      TickPatient(s, ev.ms, o.quiet);
      assert Tick(s, ev.ms).base == s.base by { TickKeeps(s, ev.ms); }
    }
  }

  datatype Config = Config(sendCapacity: nat, receiveCapacity: nat, timeout: U16, isn: U32)

  /** The connection after any list of events, first to last. */
  ghost function After(cfg: Config, evs: seq<Event>): (o: Observed)
    ensures Invariant(o)
  {
    if evs == [] then
      BeginHolds(cfg.sendCapacity, cfg.receiveCapacity, cfg.timeout, cfg.isn);
      Begin(cfg.sendCapacity, cfg.receiveCapacity, cfg.timeout, cfg.isn)
    else
      var before := After(cfg, evs[..|evs| - 1]);
      StepKeeps(before, evs[|evs| - 1]);
      Step(before, evs[|evs| - 1])
  }

  /** Sequence space is conserved in every run: the next number counts SYN, bytes and FIN; the
      outstanding segments lie end to end, without gap, and fill the stretch from the oldest of
      them to the next number; and the last acknowledgment falls into the oldest. */
  lemma SequenceSpaceConserved(cfg: Config, evs: seq<Event>)
    ensures var s := After(cfg, evs).conn.sender;
            && s.next == (if s.next == 0 then 0 else 1) + s.stream.read + (if s.finSent then 1 else 0)
            && Tiled(s.outstanding, s.next) && InFlight(s.outstanding) == s.next - s.Front()
            && s.Front() <= s.lastAck <= s.next
            && (s.outstanding != [] ==> s.lastAck < s.outstanding[0].End())
            && (s.outstanding == [] ==> s.lastAck == s.next)
  {
    hide After;
    var s := After(cfg, evs).conn.sender;
    SoundBounds(s);
    InFlightIsStretch(s.outstanding, s.next);
  }

  /** No sequence number that was sent and may still be missing at the peer is forgotten: it lies in
      an outstanding segment. */
  lemma NothingForgotten(cfg: Config, evs: seq<Event>, q: nat)
    ensures var s := After(cfg, evs).conn.sender;
            s.lastAck <= q < s.next ==> exists o :: o in s.outstanding && o.abs <= q < o.End()
  {
    hide After;
    var s := After(cfg, evs).conn.sender;
    SoundBounds(s);
    if s.lastAck <= q < s.next {
      var o := CoveringSegment(s.outstanding, s.next, q);
    }
  }

  lemma {:induction false} CoveringSegment(os: seq<Outstanding>, next: nat, q: nat) returns (o: Outstanding)
    requires Tiled(os, next) && Start(os, next) <= q < next
    ensures o in os && o.abs <= q < o.End()
  {
    if q < os[0].End() {
      o := os[0];
    } else {
      o := CoveringSegment(os[1..], next, q);
    }
  }

  /** Every segment ever sent, first time or again, carries exactly the application's bytes at its
      sequence number, at most 1000 of them, and FIN only where the stream ends. */
  lemma FaithfulSlices(cfg: Config, evs: seq<Event>, seg: Segment)
    ensures var c := After(cfg, evs).conn;
            seg in c.sent ==> exists x: nat :: Carries(seg, x, c.sender.isn, c.sender.stream, c.sender.next)
  {
    hide After, Good, Carries;
    var c := After(cfg, evs).conn;
    if seg in c.sent {
      SentIsEmitted(c, seg);
      var x: nat :| Carries(seg, x, c.sender.isn, c.sender.stream, c.sender.next);
    }
  }

  lemma SentIsEmitted(c: Connection, seg: Segment)
    requires Good(c) && seg in c.sent
    ensures Emitted(seg, c.sender)
  {
    hide Steady, Emitted;
  }

  /** Section 5 of RFC 6298, rules 5.1 and 5.2, in every run: the timer runs exactly while data is
      outstanding; and the timeout is the initial one doubled per counted retransmission. */
  lemma TimerDiscipline(cfg: Config, evs: seq<Event>)
    ensures var s := After(cfg, evs).conn.sender;
            && (s.timerOn <==> s.outstanding != [])
            && (!s.timerOn ==> s.elapsed == 0 && s.retransmissions == 0)
            && s.rto == (s.base * Pow2(s.retransmissions)) % TWO32
            && (s.retransmissions <= EXACT ==> s.rto == s.base * Pow2(s.retransmissions))
            && (s.retransmissions <= EXACT && s.base > 0 ==> s.elapsed < s.rto)
  {
    hide After, Faithful, Tiled, Pow2;
    var s := After(cfg, evs).conn.sender;
    if s.retransmissions <= EXACT {
      ExactTimeout(s.base, s.retransmissions);
      if s.base > 0 {
        Grow(s.base, 1, Pow2(s.retransmissions));
      }
    }
  }

  /** Rule 5.3 in section 5 of RFC 6298 restarts the timer whenever new data is acknowledged. The code
      does so exactly if the oldest outstanding segment is acknowledged as a whole, or the timer
      stood at 0 anyway; with the timer it resets the back-off. */
  lemma RestartsIff(cfg: Config, evs: seq<Event>, seg: Segment)
    ensures var c, t := After(cfg, evs).conn, After(cfg, evs + [Arrive(seg)]).conn.sender;
            Heeds(c, seg) && AckValue(c.sender, seg.header.ackno) > c.sender.lastAck ==>
              && t.lastAck == AckValue(c.sender, seg.header.ackno)
              && (t.elapsed == 0 <==> Retires(c.sender, t.lastAck) || c.sender.elapsed == 0)
              && (if Retires(c.sender, t.lastAck) then t.retransmissions == 0
                  else t.elapsed == c.sender.elapsed && t.retransmissions == c.sender.retransmissions)
  {
    hide After, Handle, Good, Step, Heeds, AckValue;
    AfterOneMore(cfg, evs, Arrive(seg));
    HandleGood(After(cfg, evs).conn, Arrive(seg));
  }

  /** A connection that gives up by itself has had segments outstanding, without an acknowledgment
      that retires one, for at least 511 times its initial timeout. */
  lemma MinimumPatience(cfg: Config, evs: seq<Event>, ms: nat)
    ensures var o, o' := After(cfg, evs), After(cfg, evs + [Elapse(ms)]);
            !o.conn.sender.stream.error && o'.conn.sender.stream.error ==> o'.quiet >= 511 * o.conn.timeout
  {
    hide Good, Patient, Respects, TickBy, Pow2, BackedOff;
    var all := evs + [Elapse(ms)];
    assert all[..|all| - 1] == evs;
    var before, o := After(cfg, evs), After(cfg, all);
    assert o.conn == TickBy(before.conn, ms);
    TickGood(before.conn, ms);
    SameTimeout(before.conn, o.conn);
    if !before.conn.sender.stream.error && o.conn.sender.stream.error {
      LongWait(o);
    }
  }

  lemma SameTimeout(c: Connection, c': Connection)
    requires Good(c) && Good(c') && Grows(c.sender, c'.sender)
    ensures c'.timeout == c.timeout == c'.sender.base
  {
  }

  lemma LongWait(o: Observed)
    requires Patient(o.conn.sender, o.quiet) && o.conn.sender.retransmissions > MAX_RETX_ATTEMPTS
    ensures o.quiet >= 511 * o.conn.sender.base
  {
    hide Pow2;
    var s := o.conn.sender;
    var m := if s.retransmissions <= EXACT then s.retransmissions else EXACT;
    Pow2Bounds(m);
    Grow(s.base, 511, Pow2(m) - 1);
  }

  /** The sender never runs ahead of the furthest window offered by more than one sequence number
      for each acknowledgment that closed the window. */
  lemma WindowRespected(cfg: Config, evs: seq<Event>)
    ensures var o := After(cfg, evs); o.conn.sender.next <= o.edge + o.closings
  {
    hide After;
    assert Invariant(After(cfg, evs));
  }

  /** It never sends less than it could, either: between events the window is full, or the stream
      is drained and its end, if known, is on the way. */
  lemma WindowUsedUp(cfg: Config, evs: seq<Event>)
    ensures var s := After(cfg, evs).conn.sender;
            || s.next >= s.lastAck + s.window
            || (s.stream.Buffered() == 0 && (s.stream.ended ==> s.finSent))
  {
    hide After;
    assert WindowUsed(After(cfg, evs).conn.sender);
  }

  /** A segment arrives at a live connection that calls for an answer: it takes up sequence numbers,
      or asks whether we are there. */
  predicate Calls(c: Connection, ev: Event, r: Receiver) {
    && ev.Arrive? && Active(c) && !ev.seg.header.rst
    && (ev.seg.Length() > 0 || IsKeepAlive(r, ev.seg))
  }

  /** In every run, whatever an event makes the connection send carries the acknowledgment and the
      window that hold after that event; and what calls for an answer gets one at once. */
  lemma EverySegmentReports(cfg: Config, evs: seq<Event>, ev: Event)
    ensures var c, c' := After(cfg, evs).conn, After(cfg, evs + [ev]).conn;
            && Reports(c.sent, c'.sent, c'.receiver)
            && (Calls(c, ev, c'.receiver) ==> |c'.sent| > |c.sent|)
  {
    hide Invariant, Good, Handle, Reports, IsKeepAlive, Active;
    var o := After(cfg, evs);
    AfterOneMore(cfg, evs, ev);
    HandleGood(o.conn, ev);
    if ev.Arrive? && Active(o.conn) && !ev.seg.header.rst {
      TakeInGood(o.conn, ev.seg);
      ArriveIs(o.conn, ev.seg);
    }
  }

  lemma ArriveIs(c: Connection, seg: Segment)
    requires c.Streams()
    ensures Handle(c, Arrive(seg)) == SegmentReceived(c, seg)
  {
  }

  lemma AfterOneMore(cfg: Config, evs: seq<Event>, ev: Event)
    ensures var o := After(cfg, evs);
            && Good(o.conn) && o.conn.Streams()
            && After(cfg, evs + [ev]) == Step(o, ev) && After(cfg, evs + [ev]).conn == Handle(o.conn, ev)
  {
    hide Good, Patient, Respects, Handle;
    var all := evs + [ev];
    assert all[..|all| - 1] == evs;
    StepKeeps(After(cfg, evs), ev);
  }

  /** The timer runs and reaches the timeout within ms. */
  predicate Expires(s: Sender, ms: nat) {
    s.timerOn && (s.elapsed + ms) % TWO32 >= s.rto
  }

  predicate Restarted(s: Sender, t: Sender, probe: bool) {
    && t.timerOn && t.elapsed == 0
    && (if probe then t.rto == s.rto && t.retransmissions == s.retransmissions
        else t.rto == (2 * s.rto) % TWO32 && t.retransmissions == s.retransmissions + 1)
  }

  /** Rules 5.4 to 5.6 in section 5 of RFC 6298: when the timer expires, the earliest segment that is
      not fully acknowledged is sent again, and nothing else, and the timer starts over. The timeout
      doubles, as rule 5.5 has it, unless the segment probes a closed window. */
  lemma RetransmitsEarliest(cfg: Config, evs: seq<Event>, ms: nat)
    ensures var c, c' := After(cfg, evs).conn, After(cfg, evs + [Elapse(ms)]).conn;
            Expires(c.sender, ms) && c'.sender.retransmissions <= 8 ==>
              && c.sender.outstanding != []
              && var o := c.sender.outstanding[0];
              && o.abs <= c.sender.lastAck < o.End()
              && c'.sent == c.sent + [Stamp(o.seg, c.receiver)]
              && Restarted(c.sender, c'.sender, o.probe)
  {
    hide Invariant, Handle;
    var c := After(cfg, evs).conn;
    AfterOneMore(cfg, evs, Elapse(ms));
    hide After;
    if Expires(c.sender, ms) {
      GoodTimeout(c, ms);
    }
    ElapseIs(c, ms);
  }

  lemma ElapseIs(c: Connection, ms: nat)
    requires c.Streams()
    ensures Handle(c, Elapse(ms)) == TickBy(c, ms)
  {
  }

  lemma GoodTimeout(c: Connection, ms: nat)
    requires Good(c) && Expires(c.sender, ms)
    ensures c.sender.outstanding != []
    ensures var o := c.sender.outstanding[0];
            && o.abs <= c.sender.lastAck < o.End()
            && (TickBy(c, ms).sender.retransmissions <= MAX_RETX_ATTEMPTS ==>
                  && TickBy(c, ms).sent == c.sent + [Stamp(o.seg, c.receiver)]
                  && Restarted(c.sender, TickBy(c, ms).sender, o.probe))
  {
    hide History, Stamp, StampAll, Tick, Sound, WindowUsed, SendReset;
    var s, r := c.sender, c.receiver;
    TickFires(s, ms);
    StampSingle(s.outstanding[0].seg, r);
    AbortKeepsCount(c.(sender := Tick(s, ms)));
  }

  lemma TickFires(s: Sender, ms: nat)
    requires Sound(s) && Expires(s, ms)
    ensures s.outstanding != [] && s.outstanding[0].abs <= s.lastAck < s.outstanding[0].End()
    ensures Tick(s, ms).queue == s.queue + [s.outstanding[0].seg]
    ensures Restarted(s, Tick(s, ms), s.outstanding[0].probe)
  {
    hide Faithful, Tiled, BackedOff;
  }

  lemma StampSingle(seg: Segment, r: Receiver)
    ensures StampAll([seg], r) == [Stamp(seg, r)] && [] + [seg] == [seg]
  {
  }

  lemma AbortKeepsCount(c: Connection)
    ensures Flush(Abort(c)).sender.retransmissions == c.sender.retransmissions
  {
    hide StampAll;
  }

  /** The youngest outstanding segment is marked as a probe, whose retransmission does not back off. */
  predicate EndsInProbe(s: Sender) {
    s.outstanding != [] && s.outstanding[|s.outstanding| - 1].probe
  }

  lemma ProbeIsLast(s: Sender)
    requires s.stream.Valid() && s.next > 0 && s.lastAck <= s.next && s.window == 0 && s.mayProbe
    ensures FillWindow(s).next > s.next ==> EndsInProbe(FillWindow(s))
  {
    if !s.finSent {
      var u := s.(mayProbe := false);
      ProbingLoop(u, 1);
      hide SendLoop;
      assert FillWindow(s) == SendLoop(u, 1, true);
    }
  }

  lemma {:induction false} ProbingLoop(u: Sender, budget: nat)
    requires u.stream.Valid()
    ensures SendLoop(u, budget, true) == u || EndsInProbe(SendLoop(u, budget, true))
    decreases budget
  {
    hide FinNow, Wrap, Emit, EndsInProbe;
    var len := Min(budget, MAX_PAYLOAD);
    var fin := FinNow(u, budget);
    var data := u.stream.Peek(len);
    if budget > 0 && (data != [] || fin) {
      EmitsProbe(u, len, fin);
      FinFits(u, budget);
      ProbingLoop(Emit(u, len, fin, true), budget - |data| - (if fin then 1 else 0));
    }
  }

  lemma FinFits(u: Sender, budget: nat)
    requires u.stream.Valid()
    ensures FinNow(u, budget) ==> budget > |u.stream.Peek(Min(budget, MAX_PAYLOAD))|
  {
  }

  lemma EmitsProbe(u: Sender, len: nat, fin: bool)
    requires u.stream.Valid() && (u.stream.Peek(len) != [] || fin)
    ensures EndsInProbe(Emit(u, len, fin, true)) && Emit(u, len, fin, true).stream.Valid()
  {
    hide Wrap;
  }

  /** An acknowledgment that closes the window makes the sender probe with one sequence number, if
      it has anything left to send. */
  lemma ClosedWindowIsProbed(cfg: Config, evs: seq<Event>, ackno: U32, win: U16)
    ensures var s := After(cfg, evs).conn.sender;
            && s.stream.Valid()
            && var t := AckReceived(s, ackno, win);
            (Accepts(s, ackno) && AckValue(s, ackno) + win <= Max(s.lastAck, AckValue(s, ackno)) ==>
               (t.next == s.next + 1 && EndsInProbe(t)) || (t.next == s.next && Drained(t)))
  {
    hide After;
    var s := After(cfg, evs).conn.sender;
    assert Steady(s);
    hide Sound, FillWindow, NoteAck, Retire, AckValue;
    SoundBounds(s);
    AckKeeps(s, ackno, win);
    if Accepts(s, ackno) && AckValue(s, ackno) + win <= Max(s.lastAck, AckValue(s, ackno)) {
      RetireKeeps(s, ackno, win);
      var r := Retire(NoteAck(s, ackno, win));
      SoundBounds(r);
      ProbeIsLast(r);
    }
  }
}
