/** TCP segments (section 3.1 of RFC 793; options are carried as padding only). */
module TcpSegments {
  import opened Words

  datatype Header = Header(sport: U16, dport: U16, seqno: U32, ackno: U32, doff: Byte,
                           urg: bool, ack: bool, psh: bool, rst: bool, syn: bool, fin: bool,
                           win: U16, cksum: U16, uptr: U16)

  /** A default-constructed header. */
  const BLANK: Header := Header(0, 0, 0, 0, 5, false, false, false, false, false, false, 0, 0, 0)

  datatype Segment = Segment(header: Header, payload: seq<Byte>)
  {
    /** How many sequence numbers the segment takes up: SYN and FIN take one each. */
    function Length(): nat {
      |payload| + (if header.syn then 1 else 0) + (if header.fin then 1 else 0)
    }
  }
}
