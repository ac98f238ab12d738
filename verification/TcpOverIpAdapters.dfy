/** The object `TCPOverIPv4Adapter`, which a first SYN ties to its peer. */
module TcpOverIpAdapters {
  import opened Basics
  import opened Segments
  import opened Wire
  import opened TcpOverIp
  import opened NetParsers

  class TCPOverIPv4Adapter {
    var source: Endpoint
    var destination: Endpoint
    var listening: bool

    ghost function Model(): Adapter
      reads this
    {
      Adapter(source, destination, listening)
    }

    constructor (source: Endpoint, destination: Endpoint, listening: bool)
      ensures Model() == Adapter(source, destination, listening)
    {
      this.source, this.destination, this.listening := source, destination, listening;
    }

    /** The segment is given its ports; one whose header cannot be serialized is refused. */
    method WrapTcpInIp(seg: Segment) returns (addressed: Segment, d: Option<Datagram>)
      ensures addressed == Addressed(Model(), seg)
      ensures d == if seg.header.doff < 5 then None else Some(WrapTcp(Model(), seg))
    {
      hide SegmentBytes;
      addressed := seg.(header := seg.header.(sport := source.port, dport := destination.port));
      var header := DEFAULT_IP.(src := source.ip, dst := destination.ip,
                                len := (4 * DEFAULT_IP.hlen + 4 * seg.header.doff + |seg.payload|) % TWO16);
      var payload := SerializeTcpSegment(addressed, PseudoSum(header));
      d := if payload.None? then None else Some(Datagram(header, payload.value));
    }

    method UnwrapTcpInIp(d: Datagram) returns (seg: Option<Segment>)
      modifies this
      ensures (seg, Model()) == UnwrapTcp(old(Model()), d)
    {
      hide ParseSegment;
      if !listening && d.header.dst != source.ip {
        return None;
      }
      if !listening && d.header.src != destination.ip {
        return None;
      }
      if d.header.proto != PROTO_TCP {
        return None;
      }
      var parsed := ParseTcpSegment(d.payload, PseudoSum(d.header));
      if parsed.Failed? {
        return None;
      }
      var got := parsed.value;
      if got.header.dport != source.port {
        return None;
      }
      if listening {
        if got.header.syn && !got.header.rst {
          source := Endpoint(d.header.dst, source.port);
          destination := Endpoint(d.header.src, got.header.sport);
          listening := false;
        } else {
          return None;
        }
      }
      if got.header.sport != destination.port {
        return None;
      }
      seg := Some(got);
    }
  }
}
