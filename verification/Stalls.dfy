/**
 When a connection has fallen silent for good unless its peer speaks first.
 */
module Stalls {
  import opened Words
  import opened ByteStreams
  import opened Senders
  import opened SenderInvariant
  import opened Connections
  import opened Endpoints
  import opened EndpointRuns
  import opened Closing

  /** Nothing is in flight, and nothing may be sent: the FIN is out, or the window is closed and the
      licence to probe it used up. */
  predicate Stuck(s: Sender) {
    s.next > 0 && s.outstanding == [] && (s.finSent || s.window == 0)
  }

  ghost predicate NoArrivals(evs: seq<Event>) {
    forall k :: 0 <= k < |evs| ==> !evs[k].Arrive?
  }

  lemma StuckSendsNothing(s: Sender)
    requires Steady(s) && Stuck(s)
    ensures FillWindow(s) == s
    ensures forall ms: nat :: Tick(s, ms) == s
    ensures s.retransmissions == 0
  {
    hide Faithful;
  }

  lemma StuckFlush(c: Connection)
    requires c.sender.queue == []
    ensures Flush(c).sent == c.sent && Flush(c).sender == c.sender
  {
  }

  lemma StuckStream(s: Sender, stream: Stream)
    requires Steady(s) && Stuck(s) && stream.Valid()
    requires s.stream.input <= stream.input && stream.read == s.stream.read
    requires s.stream.ended ==> stream.ended && stream.input == s.stream.input
    ensures FillWindow(s.(stream := stream)) == s.(stream := stream)
  {
    hide Faithful, Tiled, Timed;
  }

  /** Without an arrival a stuck connection sends nothing and stays stuck. */
  lemma StuckStep(c: Connection, ev: Event)
    requires Good(c) && c.Streams() && Stuck(c.sender) && !ev.Arrive?
    ensures Handle(c, ev).sent == c.sent && Stuck(Handle(c, ev).sender)
  {
    hide Steady, History, FillWindow, Tick, StampAll;
    StuckSendsNothing(c.sender);
    SoundStream(c.sender);
    var s := c.sender;
    match ev
    case Open => StuckFlush(c);
    case Send(data) =>
      StuckStream(s, s.stream.Write(data));
      StuckFlush(c.(sender := s.(stream := s.stream.Write(data))));
    case Finish =>
      StuckStream(s, s.stream.(ended := true));
      StuckFlush(c.(sender := s.(stream := s.stream.(ended := true))));
    case Elapse(ms) => StuckFlush(c);
    case Fetch(len) =>
  }

  lemma SoundStream(s: Sender)
    requires Steady(s)
    ensures s.stream.Valid()
  {
  }

  lemma {:induction false} StuckRun(cfg: Config, evs: seq<Event>, more: seq<Event>)
    requires Stuck(After(cfg, evs).conn.sender) && NoArrivals(more)
    ensures After(cfg, evs + more).conn.sent == After(cfg, evs).conn.sent
    ensures Stuck(After(cfg, evs + more).conn.sender)
    decreases |more|
  {
    hide After, Handle, Good, Step, Stuck;
    if more == [] {
      assert evs + more == evs;
    } else {
      var n := |more| - 1;
      StuckRun(cfg, evs, more[..n]);
      assert evs + more == evs + more[..n] + [more[n]];
      AfterOneMore(cfg, evs + more[..n], more[n]);
      StuckStep(After(cfg, evs + more[..n]).conn, more[n]);
    }
  }

  /** A sender that is not stuck is moved to send by the application or the clock alone. */
  function Prompt(s: Sender): Event {
    if s.next == 0 then Open
    else if s.outstanding != [] then Elapse(Max(s.rto - s.elapsed, 0))
    else Finish
  }

  lemma OpenSpeaks(c: Connection)
    requires Good(c) && c.Streams() && c.sender.next == 0
    ensures |Handle(c, Open).sent| > |c.sent|
  {
    hide Sound, History, FillWindow, StampAll;
    FillSteady(c.sender);
    FillWindowKeeps(c.sender);
  }

  lemma TimeoutSpeaks(c: Connection)
    requires Good(c) && c.Streams() && c.sender.outstanding != []
    ensures |Handle(c, Prompt(c.sender)).sent| > |c.sent|
  {
    hide History, Handle, TickBy;
    var s, ms := c.sender, Max(c.sender.rto - c.sender.elapsed, 0);
    SynSent(s);
    TimerReaches(s);
    ElapseIs(c, ms);
    if TickBy(c, ms).sender.retransmissions > MAX_RETX_ATTEMPTS {
      TickAborts(c, ms);
    } else {
      GoodTimeout(c, ms);
    }
  }

  lemma SynSent(s: Sender)
    requires Sound(s) && s.outstanding != []
    ensures s.next > 0
  {
    TiledEnd(s.outstanding, s.next);
  }

  lemma TimerReaches(s: Sender)
    requires Sound(s) && s.outstanding != []
    ensures Expires(s, Max(s.rto - s.elapsed, 0))
  {
    hide Faithful, Tiled, BackedOff;
  }

  lemma FinishSpeaks(c: Connection)
    requires Good(c) && c.Streams()
    requires c.sender.next > 0 && c.sender.outstanding == [] && !c.sender.finSent && c.sender.window > 0
    ensures |Handle(c, Finish).sent| > |c.sent|
  {
    hide Faithful, Tiled, Timed, History, FillWindow, StampAll;
    var s := c.sender;
    var ended := s.stream.(ended := true);
    StreamKeeps(s, ended);
    FillSteady(s.(stream := ended));
    var t := FillWindow(s.(stream := ended));
    assert s.lastAck == s.next;
    assert t.next > s.next;
  }

  /** From here on, whatever the application does and however long it takes, nothing is sent unless a
      segment arrives. */
  ghost predicate SilentForGood(cfg: Config, evs: seq<Event>) {
    forall more: seq<Event> :: NoArrivals(more) ==> After(cfg, evs + more).conn.sent == After(cfg, evs).conn.sent
  }

  /** In every run: exactly when a connection has fallen silent for good. With the FIN out this is as it
      should be. With the window closed it is a stall: data that the application writes from now on
      is not sent, and the window is not probed, until the peer speaks. */
  lemma SilentIff(cfg: Config, evs: seq<Event>)
    ensures SilentForGood(cfg, evs) <==> Stuck(After(cfg, evs).conn.sender)
  {
    hide After, Handle, Good, Step, Stuck;
    var c := After(cfg, evs).conn;
    if Stuck(c.sender) {
      forall more: seq<Event> | NoArrivals(more)
        ensures After(cfg, evs + more).conn.sent == c.sent
      {
        StuckRun(cfg, evs, more);
      }
    } else {
      AfterOneMore(cfg, evs, Prompt(c.sender));
      Speaks(c);
      assert NoArrivals([Prompt(c.sender)]);
    }
  }

  lemma Speaks(c: Connection)
    requires Good(c) && c.Streams() && !Stuck(c.sender)
    ensures !Prompt(c.sender).Arrive? && |Handle(c, Prompt(c.sender)).sent| > |c.sent|
  {
    hide Handle, Good;
    if c.sender.next == 0 {
      OpenSpeaks(c);
    } else if c.sender.outstanding != [] {
      TimeoutSpeaks(c);
    } else {
      FinishSpeaks(c);
    }
  }
}
