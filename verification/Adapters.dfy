/** What a TCP-over-IP adapter takes and what it refuses. */
module Adapters {
  import opened Basics
  import opened Segments
  import opened Checksum
  import opened Wire
  import opened TcpOverIp

  /** The segment fits one datagram. */
  predicate OneDatagram(seg: Segment)
  {
    5 <= seg.header.doff < 16 && 20 + 4 * seg.header.doff + |seg.payload| <= 0xFFFF
  }

  /** A datagram as it comes out of the parser after `b` has wrapped and serialized a segment. */
  function Arrived(b: Adapter, seg: Segment): Datagram
    requires OneDatagram(seg)
  {
    Trip(b, seg);
    ParseDatagram(DatagramBytes(WrapTcp(b, seg))).value
  }

  /** The fields of a wrapped datagram: version 4, a header of five words, not to be fragmented, with
      128 hops to live, protocol 6, and the sender's addresses. */
  lemma WrapSays(b: Adapter, seg: Segment)
    requires seg.header.doff >= 5
    ensures
      var h := WrapTcp(b, seg).header;
      && h.ver == 4 && h.hlen == 5 && h.tos == 0 && h.id == 0 && h.df && !h.mf && h.offset == 0
      && h.ttl == 128 && h.proto == 6 && h.src == b.source.ip && h.dst == b.destination.ip
      && h.len == (20 + 4 * seg.header.doff + |seg.payload|) % 0x1_0000
  {
  }

  lemma ArrivedSays(b: Adapter, seg: Segment)
    requires OneDatagram(seg)
    ensures
      var d := Arrived(b, seg);
      && d.header.proto == 6 && d.header.src == b.source.ip && d.header.dst == b.destination.ip
      && var parsed := ParseSegment(d.payload, PseudoSum(d.header));
         && parsed.Ok? && SameSegment(parsed.value, Addressed(b, seg))
         && parsed.value.header.sport == b.source.port && parsed.value.header.dport == b.destination.port
         && parsed.value.header.syn == seg.header.syn && parsed.value.header.rst == seg.header.rst
  {
    hide Sum, Value, ParseSegment, ParseDatagram, CheckIPv4, DatagramBytes, SegmentBytes, SegmentChecksum, HeaderChecksum;
    Trip(b, seg);
  }

  /** A connected adapter takes a segment exactly from its peer: both addresses and both ports agree.
      It stays as it is. */
  lemma TakesExactlyPeer(a: Adapter, b: Adapter, seg: Segment)
    requires !a.listening && OneDatagram(seg)
    ensures
      var (got, after) := UnwrapTcp(a, Arrived(b, seg));
      && (got.Some? <==> b.source == a.destination && b.destination == a.source)
      && (got.Some? ==> SameSegment(got.value, Addressed(b, seg)))
      && after == a
  {
    hide ParseSegment, PseudoSum, Arrived, Addressed;
    ArrivedSays(b, seg);
  }

  /** A listening adapter takes exactly a SYN for its port that is not a reset, from anybody, and is
      then connected to its sender; anything else leaves it listening. */
  lemma ListensExactly(a: Adapter, b: Adapter, seg: Segment)
    requires a.listening && OneDatagram(seg)
    ensures
      var (got, after) := UnwrapTcp(a, Arrived(b, seg));
      && (got.Some? <==> b.destination.port == a.source.port && seg.header.syn && !seg.header.rst)
      && (got.Some? ==> SameSegment(got.value, Addressed(b, seg)) && after == Adapter(b.destination, b.source, false))
      && (got.None? ==> after == a)
  {
    hide ParseSegment, PseudoSum, Arrived, Addressed;
    ArrivedSays(b, seg);
  }

  /** No adapter takes a datagram of another protocol, or one whose payload does not parse. */
  lemma RefusesOthers(a: Adapter, d: Datagram)
    requires d.header.proto != 6 || ParseSegment(d.payload, PseudoSum(d.header)).Failed?
    ensures UnwrapTcp(a, d) == (None, a)
  {
    hide ParseSegment, PseudoSum;
  }
}
