/**
 The summary of a sender's state that is computed from its counters, against what has in fact
 been sent and acknowledged.
 */
module StateSummary {
  import opened Senders
  import opened SenderInvariant
  import opened Endpoints
  import opened EndpointRuns

  datatype Summary = ERROR | CLOSED | SYN_SENT | SYN_ACKED | FIN_SENT | FIN_ACKED

  /** state_summary: asks only for the next number, the bytes in flight and the stream. */
  function Summarize(s: Sender): Summary {
    if s.stream.error then ERROR
    else if s.next == 0 then CLOSED
    else if s.next == InFlight(s.outstanding) then SYN_SENT
    else if !s.stream.Eof() then SYN_ACKED
    else if s.next < |s.stream.input| + 2 then SYN_ACKED
    else if InFlight(s.outstanding) != 0 then FIN_SENT
    else FIN_ACKED
  }

  /** The summary tells the truth in every run: it names which of SYN and FIN have been sent, and
      whether the peer has acknowledged them. */
  lemma SummaryIsTrue(cfg: Config, evs: seq<Event>)
    ensures var s := After(cfg, evs).conn.sender;
            && (Summarize(s) == ERROR <==> s.stream.error)
            && (!s.stream.error ==>
                  && (Summarize(s) == CLOSED <==> s.next == 0)
                  && (Summarize(s) == SYN_SENT <==> s.next > 0 && s.lastAck == 0)
                  && (Summarize(s) == SYN_ACKED <==> s.lastAck > 0 && !s.finSent)
                  && (Summarize(s) == FIN_SENT <==> s.finSent && 0 < s.lastAck < s.next)
                  && (Summarize(s) == FIN_ACKED <==> s.finSent && s.lastAck == s.next))
  {
    hide After;
    var s := After(cfg, evs).conn.sender;
    assert Sound(s);
    if !s.stream.error {
      SummaryOfSound(s);
    }
  }

  lemma SummaryOfSound(s: Sender)
    requires Sound(s) && !s.stream.error
    ensures && (Summarize(s) == CLOSED <==> s.next == 0)
            && (Summarize(s) == SYN_SENT <==> s.next > 0 && s.lastAck == 0)
            && (Summarize(s) == SYN_ACKED <==> s.lastAck > 0 && !s.finSent)
            && (Summarize(s) == FIN_SENT <==> s.finSent && 0 < s.lastAck < s.next)
            && (Summarize(s) == FIN_ACKED <==> s.finSent && s.lastAck == s.next)
  {
    SoundBounds(s);
    InFlightIsStretch(s.outstanding, s.next);
    if s.outstanding != [] {
      SynIsFirst(s);
    }
  }

  /** The segment at absolute number 0 is the SYN alone, so it is in flight exactly as long as
      nothing is acknowledged. */
  lemma SynIsFirst(s: Sender)
    requires Sound(s) && s.outstanding != []
    ensures s.Front() == 0 <==> s.lastAck == 0
  {
    var o := s.outstanding[0];
    assert o in s.outstanding;
    assert Carries(o.seg, o.abs, s.isn, s.stream, s.next);
    SoundBounds(s);
  }
}
