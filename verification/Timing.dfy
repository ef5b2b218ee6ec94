/**
 The retransmission timer over whole runs: how it adds up time, and which retransmissions back off.
 */
module Timing {
  import opened Words
  import opened Wrapping
  import opened TcpSegments
  import opened Senders
  import opened SenderInvariant
  import opened Connections
  import opened Endpoints
  import opened EndpointRuns
  import opened Traffic

  /** The tick time since the timer was last started or restarted: it stands at 0 while nothing is
      outstanding, when a segment is retired, and when it has reached the timeout; otherwise every
      tick adds to it. */
  ghost function Clock(cfg: Config, evs: seq<Event>): nat {
    if evs == [] then 0
    else
      var n := |evs| - 1;
      ClockAfter(After(cfg, evs[..n]).conn.sender, After(cfg, evs).conn.sender, evs[n], Clock(cfg, evs[..n]))
  }

  /** How one event moves it. */
  function ClockAfter(s: Sender, t: Sender, ev: Event, time: nat): nat {
    var now := time + (if ev.Elapse? then ev.ms else 0);
    if t.outstanding == [] || t.Front() > s.Front() then 0
    else if ev.Elapse? && now % TWO32 >= s.rto then 0
    else now
  }

  /** In every run the timer shows exactly that time, in 32 bits. */
  lemma {:induction false} TimerAddsUp(cfg: Config, evs: seq<Event>)
    ensures After(cfg, evs).conn.sender.elapsed == Clock(cfg, evs) % TWO32
  {
    hide After, Handle, Good, Step, ClockAfter;
    if evs == [] {
      AtFirst(cfg);
    } else {
      var n := |evs| - 1;
      TimerAddsUp(cfg, evs[..n]);
      assert evs[..n] + [evs[n]] == evs;
      AfterOneMore(cfg, evs[..n], evs[n]);
      ElapsedStep(After(cfg, evs[..n]).conn, evs[n], Clock(cfg, evs[..n]));
    }
  }

  lemma AtFirst(cfg: Config)
    ensures After(cfg, []).conn.sender.elapsed == 0
  {
  }

  lemma ElapsedStep(c: Connection, ev: Event, time: nat)
    requires Good(c) && c.Streams() && c.sender.elapsed == time % TWO32
    ensures Handle(c, ev).sender.elapsed == ClockAfter(c.sender, Handle(c, ev).sender, ev, time) % TWO32
  {
    hide Handle, Steady, History, Grows, Tick, Later, Reports;
    var s, t := c.sender, Handle(c, ev).sender;
    HandleGood(c, ev);
    IdleAtZero(s);
    IdleAtZero(t);
    if ev.Elapse? {
      TickOutstanding(c, ev.ms);
      TickElapsed(s, ev.ms, time);
    }
  }

  lemma IdleAtZero(s: Sender)
    requires Steady(s)
    ensures s.outstanding == [] ==> s.elapsed == 0
    ensures s.timerOn <==> s.outstanding != []
  {
    hide Faithful, Tiled, BackedOff, WindowUsed;
  }

  lemma TickElapsed(s: Sender, ms: nat, time: nat)
    requires Steady(s) && s.elapsed == time % TWO32
    ensures s.outstanding != [] ==>
              Tick(s, ms).elapsed == if (time + ms) % TWO32 >= s.rto then 0 else (time + ms) % TWO32
  {
    hide Steady;
    AddLow32(time, ms);
    IdleAtZero(s);
  }

  lemma AddLow32(a: nat, b: nat)
    ensures (a % 0x1_0000_0000 + b) % 0x1_0000_0000 == (a + b) % 0x1_0000_0000
  {
    var q := a / 0x1_0000_0000;
    assert a + b == (a % 0x1_0000_0000 + b) + 0x1_0000_0000 * q;
  }

  lemma TickOutstanding(c: Connection, ms: nat)
    requires Good(c) && c.Streams()
    ensures Handle(c, Elapse(ms)).sender.outstanding == c.sender.outstanding
  {
    hide TickBy, Good;
    ElapseIs(c, ms);
    TickExactly(c, ms);
  }

  function Ticks(times: seq<nat>): (evs: seq<Event>)
    ensures |evs| == |times|
    ensures forall k :: 0 <= k < |times| ==> evs[k] == Elapse(times[k])
  {
    seq(|times|, k requires 0 <= k < |times| => Elapse(times[k]))
  }

  function Sum(times: seq<nat>): nat {
    if times == [] then 0 else Sum(times[..|times| - 1]) + times[|times| - 1]
  }

  /** Only time has passed from c to c'. */
  ghost predicate OnlyTime(c: Connection, c': Connection) {
    && c'.sent == c.sent && c'.receiver == c.receiver
    && c'.sender == c.sender.(elapsed := c'.sender.elapsed)
  }

  /** The first thing sent after c is what an expired timer makes c send. */
  ghost predicate Fired(c: Connection, c': Connection) {
    && c.receiver.Valid() && c.sender.outstanding != []
    && |c'.sent| > |c.sent| && c.sent <= c'.sent
    && c'.sent[|c.sent|] == Reporting(Due(c.sender), c.receiver)
  }

  /** What an expired timer sends: the oldest outstanding segment, or at the ninth time in a row a reset. */
  function Due(s: Sender): Segment
    requires s.outstanding != []
  {
    if s.retransmissions == 8 && !s.outstanding[0].probe then Bare(s.next, s.isn, true)
    else s.outstanding[0].seg
  }

  /** Ticks add up: in every run, while something is outstanding and nothing arrives, the oldest segment is
      sent again as soon as the ticks together reach the timeout, however they are divided, and nothing
      is sent before. */
  lemma {:induction false} TicksAddUp(cfg: Config, evs: seq<Event>, times: seq<nat>)
    ensures var c, c' := After(cfg, evs).conn, After(cfg, evs + Ticks(times)).conn;
            var time := Clock(cfg, evs) + Sum(times);
            c.sender.outstanding != [] && c.sender.retransmissions <= 8 && time < TWO32 ==>
              if times == [] || time < c.sender.rto
              then OnlyTime(c, c') && Clock(cfg, evs + Ticks(times)) == time
              else Fired(c, c')
    decreases |times|
  {
    hide After, Handle, Good, Step, Fired, OnlyTime, Clock;
    if times == [] {
      assert evs + Ticks(times) == evs;
      NoTime(After(cfg, evs).conn);
    } else {
      var n := |times| - 1;
      TicksAddUp(cfg, evs, times[..n]);
      var mid := evs + Ticks(times[..n]);
      assert evs + Ticks(times) == mid + [Elapse(times[n])];
      OneTick(cfg, evs, mid, times[n]);
    }
  }

  lemma NoTime(c: Connection)
    ensures OnlyTime(c, c)
  {
  }

  lemma OneTick(cfg: Config, evs: seq<Event>, mid: seq<Event>, ms: nat)
    ensures var c, d, c' := After(cfg, evs).conn, After(cfg, mid).conn, After(cfg, mid + [Elapse(ms)]).conn;
            c.sender.outstanding != [] && c.sender.retransmissions <= 8 ==>
              && (Fired(c, d) ==> Fired(c, c'))
              && (OnlyTime(c, d) && Clock(cfg, mid) + ms < TWO32 ==>
                    if Clock(cfg, mid) + ms < c.sender.rto
                    then OnlyTime(c, c') && Clock(cfg, mid + [Elapse(ms)]) == Clock(cfg, mid) + ms
                    else Fired(c, c'))
  {
    hide After, Handle, Good, Step, Fired, OnlyTime, Clock;
    var c, d := After(cfg, evs).conn, After(cfg, mid).conn;
    TimerAddsUp(cfg, mid);
    AfterOneMore(cfg, evs, Open);
    AfterOneMore(cfg, mid, Elapse(ms));
    if c.sender.outstanding != [] && c.sender.retransmissions <= 8 {
      TickFires8(c, d, ms, Clock(cfg, mid));
      if OnlyTime(c, d) && Clock(cfg, mid) + ms < c.sender.rto {
        ClockOn(cfg, mid, ms);
        StillOut(c, d);
      }
    }
  }

  lemma StillOut(c: Connection, d: Connection)
    requires OnlyTime(c, d)
    ensures d.sender.outstanding == c.sender.outstanding && d.sender.rto == c.sender.rto
  {
  }

  lemma ClockOn(cfg: Config, evs: seq<Event>, ms: nat)
    ensures var s, t := After(cfg, evs).conn.sender, After(cfg, evs + [Elapse(ms)]).conn.sender;
            s.outstanding != [] && Clock(cfg, evs) + ms < TWO32 && Clock(cfg, evs) + ms < s.rto ==>
              Clock(cfg, evs + [Elapse(ms)]) == Clock(cfg, evs) + ms
  {
    hide After, Handle, Good, Step;
    var all := evs + [Elapse(ms)];
    assert all[..|evs|] == evs;
    AfterOneMore(cfg, evs, Elapse(ms));
    TickOutstanding(After(cfg, evs).conn, ms);
  }

  lemma TickFires8(c: Connection, d: Connection, ms: nat, time: nat)
    requires Good(c) && Good(d) && d.Streams() && d.sender.elapsed == time % TWO32
    requires c.sender.outstanding != [] && c.sender.retransmissions <= 8
    ensures var c' := Handle(d, Elapse(ms));
            && (Fired(c, d) ==> Fired(c, c'))
            && (OnlyTime(c, d) && time + ms < TWO32 ==>
                  if time + ms < c.sender.rto then OnlyTime(c, c') else Fired(c, c'))
  {
    hide TickBy, Sound, History, WindowUsed, Bare, ReportingAll, Reporting;
    ElapseIs(d, ms);
    TickExactly(d, ms);
    assert d.sender.timerOn <==> d.sender.outstanding != [] by { TimerNeeds(d.sender); }
    if OnlyTime(c, d) && time + ms < TWO32 {
      if time + ms < c.sender.rto {
        QuietTick(d, ms);
      } else {
        FirstReport(Ticking(d.sender, ms), d, ms);
      }
    }
  }

  lemma FirstReport(out: seq<Segment>, d: Connection, ms: nat)
    requires d.receiver.Valid() && out != [] && TickBy(d, ms).receiver.Valid()
    requires TickBy(d, ms).sent == d.sent + ReportingAll(out, TickBy(d, ms).receiver)
    ensures |TickBy(d, ms).sent| > |d.sent| && TickBy(d, ms).sent[|d.sent|] == Reporting(out[0], d.receiver)
  {
    hide Tick, SendReset, StampAll, Wrap;
  }

  /** A tick that does not make the timer expire. */
  lemma QuietTick(c: Connection, ms: nat)
    requires Good(c) && c.sender.outstanding != [] && c.sender.retransmissions <= 8 && !Expires(c.sender, ms)
    ensures OnlyTime(c, TickBy(c, ms))
  {
    hide Steady, History;
    assert c.sent + [] == c.sent;
  }

  /** Number x was sent for the first time by the k-th event. */
  ghost predicate FirstSentBy(cfg: Config, evs: seq<Event>, k: int, x: nat) {
    0 <= k < |evs| && After(cfg, evs[..k]).conn.sender.next <= x < After(cfg, evs[..k + 1]).conn.sender.next
  }

  lemma {:induction false} NextGrows(cfg: Config, evs: seq<Event>, k: nat)
    requires k <= |evs|
    ensures After(cfg, evs[..k]).conn.sender.next <= After(cfg, evs).conn.sender.next
  {
    hide After, Handle, Good, Step;
    if k == |evs| {
      assert evs[..k] == evs;
    } else {
      var n := |evs| - 1;
      NextGrows(cfg, evs[..n], k);
      assert evs[..n][..k] == evs[..k] && evs[..n] + [evs[n]] == evs;
      AfterOneMore(cfg, evs[..n], evs[n]);
      NextStep(After(cfg, evs[..n]).conn, evs[n]);
    }
  }

  lemma NextStep(c: Connection, ev: Event)
    requires Good(c) && c.Streams()
    ensures c.sender.next <= Handle(c, ev).sender.next
  {
    hide Handle, Good, TimerKept;
    HandleGood(c, ev);
  }

  /** In every run, an outstanding segment is one that probes a closed window exactly if the event that sent
      it was an acknowledgment that closed the window. */
  lemma {:induction false} ProbeOrigin(cfg: Config, evs: seq<Event>, o: Outstanding)
    ensures o in After(cfg, evs).conn.sender.outstanding ==>
              && (exists k :: FirstSentBy(cfg, evs, k, o.abs))
              && (forall k :: FirstSentBy(cfg, evs, k, o.abs) ==>
                    (o.probe <==> ClosesWindow(After(cfg, evs[..k]).conn, evs[k])))
  {
    hide After, Handle, Good, Step, ClosesWindow;
    if evs == [] {
      NoneAtFirst(cfg);
    } else if o in After(cfg, evs).conn.sender.outstanding {
      var n := |evs| - 1;
      var c, c' := After(cfg, evs[..n]).conn, After(cfg, evs).conn;
      assert evs[..n] + [evs[n]] == evs && evs[..n + 1] == evs;
      SentExactly(cfg, evs[..n], evs[n]);
      AfterGood(cfg, evs);
      WithinNext(c'.sender, o);
      if o.abs < c.sender.next {
        ProbeOrigin(cfg, evs[..n], o);
        EarlierSent(cfg, evs, o.abs);
      } else {
        FreshIn(c'.sender.outstanding, c.sender.next, o);
        assert FirstSentBy(cfg, evs, n, o.abs);
        OnlyLast(cfg, evs, o.abs);
      }
    }
  }

  lemma NoneAtFirst(cfg: Config)
    ensures After(cfg, []).conn.sender.outstanding == []
  {
  }

  lemma WithinNext(s: Sender, o: Outstanding)
    requires Steady(s) && o in s.outstanding
    ensures o.abs < s.next
  {
    SteadyTiled(s);
    hide Steady;
    TiledWithin(s.outstanding, s.next, o);
  }

  lemma {:induction false} TiledWithin(os: seq<Outstanding>, next: nat, o: Outstanding)
    requires Tiled(os, next) && o in os
    ensures o.abs < next
  {
    TiledEnd(os, next);
    if o != os[0] {
      assert o in os[1..];
      TiledWithin(os[1..], next, o);
    }
  }

  lemma {:induction false} FreshIn(os: seq<Outstanding>, n: nat, o: Outstanding)
    requires o in os && o.abs >= n
    ensures o in SentFrom(os, n)
  {
    if os[0].abs < n {
      assert o in os[1..];
      FreshIn(os[1..], n, o);
    }
  }

  /** Numbers below the last next one were sent by earlier events, and by the same ones. */
  lemma EarlierSent(cfg: Config, evs: seq<Event>, x: nat)
    requires evs != [] && x < After(cfg, evs[..|evs| - 1]).conn.sender.next
    ensures var n := |evs| - 1;
            forall k :: FirstSentBy(cfg, evs, k, x) <==> FirstSentBy(cfg, evs[..n], k, x)
    ensures forall k :: FirstSentBy(cfg, evs, k, x) ==> k < |evs| - 1 && evs[..|evs| - 1][..k] == evs[..k]
  {
    hide After;
    var n := |evs| - 1;
    assert evs[..n + 1] == evs;
    forall k: int
      ensures FirstSentBy(cfg, evs, k, x) <==> FirstSentBy(cfg, evs[..n], k, x)
      ensures FirstSentBy(cfg, evs, k, x) ==> k < n && evs[..n][..k] == evs[..k]
    {
      if 0 <= k < n {
        assert evs[..n][..k] == evs[..k] && evs[..n][..k + 1] == evs[..k + 1];
      }
    }
  }

  lemma OnlyLast(cfg: Config, evs: seq<Event>, x: nat)
    requires evs != [] && x >= After(cfg, evs[..|evs| - 1]).conn.sender.next
    ensures forall k :: FirstSentBy(cfg, evs, k, x) ==> k == |evs| - 1
  {
    hide After;
    var n := |evs| - 1;
    forall k: int | FirstSentBy(cfg, evs, k, x)
      ensures k == n
    {
      if k < n {
        assert evs[..n][..k + 1] == evs[..k + 1];
        NextGrows(cfg, evs[..n], k + 1);
      }
    }
  }

  /** Rule 5.5 in section 5 of RFC 6298, in every run and without a look at the flag: when the timer expires
      the timeout doubles and the retransmission is counted, unless the segment was sent first by an
      acknowledgment that closed the window. */
  lemma BacksOffUnlessProbing(cfg: Config, evs: seq<Event>, ms: nat, k: nat)
    ensures var c, t := After(cfg, evs).conn, After(cfg, evs + [Elapse(ms)]).conn.sender;
            Expires(c.sender, ms) && t.retransmissions <= 8 && c.sender.outstanding != []
            && FirstSentBy(cfg, evs, k, c.sender.outstanding[0].abs) ==>
              if ClosesWindow(After(cfg, evs[..k]).conn, evs[k])
              then t.rto == c.sender.rto && t.retransmissions == c.sender.retransmissions
              else t.rto == (2 * c.sender.rto) % TWO32 && t.retransmissions == c.sender.retransmissions + 1
  {
    hide After, ClosesWindow, Expires;
    var s := After(cfg, evs).conn.sender;
    RetransmitsEarliest(cfg, evs, ms);
    if s.outstanding != [] {
      assert s.outstanding[0] in s.outstanding;
      ProbeOrigin(cfg, evs, s.outstanding[0]);
    }
  }
}
