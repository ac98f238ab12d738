/** Segments in datagrams: serializing and parsing with checksums, and the adapter that wraps and
    unwraps them. */
module TcpOverIp {
  import opened Basics
  import opened Segments
  import opened Checksum
  import opened Wire

  datatype Datagram = Datagram(header: IPv4Header, payload: Bytes)

  // ---------------------------------------------------------------- segments

  /** The checksum of a segment over `pseudo`, its own field counting as zero. */
  function SegmentChecksum(seg: Segment, pseudo: nat): U16
    requires seg.header.doff >= 5
  {
    Value((pseudo + Sum(TcpBytes(seg.header.(cksum := 0)) + seg.payload, false)) % TWO32)
  }

  /** `TCPSegment::serialize` */
  function SegmentBytes(seg: Segment, pseudo: nat): Bytes
    requires seg.header.doff >= 5
  {
    TcpBytes(seg.header.(cksum := SegmentChecksum(seg, pseudo))) + seg.payload
  }

  /** `TCPSegment::parse`. The header parser's verdict is not consulted: a data offset that is too
      small is not an error here, and the payload then starts after the fixed header. */
  function ParseSegment(b: Bytes, pseudo: nat): Parsed<Segment>
  {
    if Value((pseudo + Sum(b, false)) % TWO32) != 0 then Failed(BadChecksum)
    else if |b| < TCP_LENGTH then Failed(PacketTooShort)
    else
      var h := TcpLayout(b);
      if h.doff < 5 then Ok(Segment(h, b[TCP_LENGTH..]))
      else if |b| < 4 * h.doff then Failed(PacketTooShort)
      else Ok(Segment(h, b[4 * h.doff..]))
  }

  /** The verdict of `TCPHeader::parse` on a segment. */
  function CheckTcp(b: Bytes): ParseResult
  {
    if TcpPrefix(b).doff < 5 then HeaderTooShort
    else if |b| < TCP_LENGTH || |b| < 4 * TcpPrefix(b).doff then PacketTooShort
    else NoError
  }

  /** The checksum field is the only part of the header bytes that depends on the checksum. */
  lemma TcpChecksumPlace(h: TcpHeader, c: U16)
    ensures
      var front := TcpFixed(h)[..16];
      var back := TcpFixed(h)[18..];
      TcpFixed(h.(cksum := c)) == front + [Byte1(c), Byte0(c)] + back
  {
    hide Byte3, Byte2, Byte1, Byte0;
    assert FlagByte(h.(cksum := c)) == FlagByte(h);
  }

  lemma TcpFilledSum(h: TcpHeader, c: U16, rest: Bytes)
    ensures Sum(TcpFixed(h.(cksum := c)) + rest, false) == Sum(TcpFixed(h.(cksum := 0)) + rest, false) + c
  {
    hide TcpFixed, Sum, Byte1, Byte0;
    var front, back := TcpFixed(h)[..16], TcpFixed(h)[18..];
    TcpChecksumPlace(h, c);
    TcpChecksumPlace(h, 0);
    ZeroBytes();
    SumFilled(front, Byte1(c), Byte0(c), back + rest);
    Split16(c);
    assert TcpFixed(h.(cksum := c)) + rest == front + [Byte1(c), Byte0(c)] + (back + rest);
    assert TcpFixed(h.(cksum := 0)) + rest == front + [0, 0] + (back + rest);
  }

  lemma ZeroBytes()
    ensures Byte1(0) == 0 && Byte0(0) == 0
  {
  }

  /** Serializing and parsing a segment over the same pseudo-header gives it back, its checksum
      filled in, and verifies. */
  lemma SegmentRoundTrip(seg: Segment, pseudo: nat)
    requires 5 <= seg.header.doff < 16
    requires pseudo <= 5 * 0xFFFF && 4 * seg.header.doff + |seg.payload| <= 0xFFFF
    ensures
      ParseSegment(SegmentBytes(seg, pseudo), pseudo) ==
      Ok(seg.(header := seg.header.(cksum := SegmentChecksum(seg, pseudo))))
  {
    hide Sum, Value, TcpLayout, TcpFixed;
    var c := SegmentChecksum(seg, pseudo);
    var h := seg.header.(cksum := c);
    var zeros := Zeros(4 * h.doff - TCP_LENGTH);
    var rest := zeros + seg.payload;
    var b := SegmentBytes(seg, pseudo);
    assert b == TcpFixed(h) + rest;
    TcpReadBack(h, rest);
    assert b[4 * h.doff..] == seg.payload;
    assert TcpBytes(seg.header.(cksum := 0)) + seg.payload == TcpFixed(seg.header.(cksum := 0)) + rest;
    TcpFilledSum(seg.header, c, rest);
    NoOverflow(TcpFixed(seg.header.(cksum := 0)) + rest, pseudo);
    NoOverflow(b, pseudo);
    FilledInVerifies(pseudo + Sum(TcpFixed(seg.header.(cksum := 0)) + rest, false));
  }

  /** A datagram's worth of bytes and a pseudo-header do not overflow the 32-bit sum. */
  lemma NoOverflow(data: Bytes, pseudo: nat)
    requires |data| <= 0xFFFF && pseudo <= 5 * 0xFFFF
    ensures (pseudo + Sum(data, false)) % TWO32 == pseudo + Sum(data, false)
  {
    hide Sum;
    SumBound(data, false);
  }

  // ---------------------------------------------------------------- datagrams

  /** `payload_length`, in 16-bit arithmetic. */
  function PayloadLength(h: IPv4Header): U16
  {
    (h.len - 4 * h.hlen) % TWO16
  }

  /** `pseudo_cksum` */
  function PseudoSum(h: IPv4Header): nat
  {
    h.src / TWO16 + h.src % TWO16 + h.dst / TWO16 + h.dst % TWO16 + h.proto + PayloadLength(h)
  }

  /** The pseudo-header of section 3.1 of RFC 793: both addresses, a zero byte, the protocol and the
      length of the segment. */
  function PseudoHeader(h: IPv4Header): Bytes
  {
    [Byte3(h.src), Byte2(h.src), Byte1(h.src), Byte0(h.src), Byte3(h.dst), Byte2(h.dst), Byte1(h.dst), Byte0(h.dst),
     0, h.proto as Byte, Byte1(PayloadLength(h)), Byte0(PayloadLength(h))]
  }

  lemma PairSum(hi: Byte, lo: Byte, rest: Bytes)
    ensures Sum([hi, lo] + rest, false) == 256 * hi as int + lo as int + Sum(rest, false)
  {
    assert ([hi, lo] + rest)[1..] == [lo] + rest;
    assert ([lo] + rest)[1..] == rest;
  }

  lemma NumberSum(v: U32, rest: Bytes)
    ensures
      Sum([Byte3(v), Byte2(v), Byte1(v), Byte0(v)] + rest, false) == v / TWO16 + v % TWO16 + Sum(rest, false)
  {
    hide Sum, Byte3, Byte2, Byte1, Byte0;
    var low := [Byte1(v), Byte0(v)] + rest;
    PairSum(Byte1(v), Byte0(v), rest);
    PairSum(Byte3(v), Byte2(v), low);
    assert [Byte3(v), Byte2(v), Byte1(v), Byte0(v)] + rest == [Byte3(v), Byte2(v)] + low;
    Halves(v);
  }

  lemma Halves(v: U32)
    ensures 256 * Byte3(v) as int + Byte2(v) as int == v / TWO16 && 256 * Byte1(v) as int + Byte0(v) as int == v % TWO16
  {
    hide Byte3, Byte2, Byte1, Byte0;
    Split32(v);
  }

  /** `pseudo_cksum` is the sum over the pseudo-header. */
  lemma PseudoSumIs(h: IPv4Header)
    ensures PseudoSum(h) == Sum(PseudoHeader(h), false)
  {
    hide Sum, Byte3, Byte2, Byte1, Byte0, PayloadLength;
    var n := PayloadLength(h);
    var none: Bytes := [];
    var tail := [Byte1(n), Byte0(n)];
    var mid := [0, h.proto as Byte] + tail;
    var last := [Byte3(h.dst), Byte2(h.dst), Byte1(h.dst), Byte0(h.dst)] + mid;
    PairSum(Byte1(n), Byte0(n), none);
    assert tail + none == tail && [Byte1(n), Byte0(n)] + none == tail;
    assert Sum(none, false) == 0 by { EmptySum(); }
    Split16(n);
    PairSum(0, h.proto as Byte, tail);
    NumberSum(h.dst, mid);
    NumberSum(h.src, last);
    assert PseudoHeader(h) == [Byte3(h.src), Byte2(h.src), Byte1(h.src), Byte0(h.src)] + last;
  }

  lemma EmptySum()
    ensures Sum([], false) == 0
  {
  }

  function HeaderChecksum(h: IPv4Header): U16
    requires h.hlen >= 5
  {
    Value(Sum(IPv4Bytes(h.(cksum := 0)), false) % TWO32)
  }

  /** `IPv4Datagram::serialize` */
  function DatagramBytes(d: Datagram): Bytes
    requires d.header.hlen >= 5
  {
    IPv4Bytes(d.header.(cksum := HeaderChecksum(d.header))) + d.payload
  }

  /** The verdict of `IPv4Header::parse` on a packet. */
  function CheckIPv4(b: Bytes): ParseResult
  {
    if |b| < IP_LENGTH then PacketTooShort
    else
      var h := IPv4Layout(b);
      if |b| < 4 * h.hlen then PacketTooShort
      else if h.ver != 4 then WrongIPVersion
      else if h.hlen < 5 then HeaderTooShort
      else if |b| != h.len then TruncatedPacket
      else if Value(Sum(b[..4 * h.hlen], false) % TWO32) != 0 then BadChecksum
      else NoError
  }

  /** `IPv4Datagram::parse`. The header parser's verdict is not consulted; what it has consumed
      decides where the payload starts. */
  function ParseDatagram(b: Bytes): Parsed<Datagram>
  {
    if |b| < IP_LENGTH then Failed(PacketTooShort)
    else
      var h := IPv4Layout(b);
      var start := if |b| >= 4 * h.hlen && h.ver == 4 && h.hlen >= 5 && |b| == h.len then 4 * h.hlen else IP_LENGTH;
      if |b| - start != PayloadLength(h) then Failed(PacketTooShort) else Ok(Datagram(h, b[start..]))
  }

  lemma IPv4ChecksumPlace(h: IPv4Header, c: U16)
    ensures
      var front := IPv4Fixed(h)[..10];
      var back := IPv4Fixed(h)[12..];
      IPv4Fixed(h.(cksum := c)) == front + [Byte1(c), Byte0(c)] + back
  {
    hide Byte3, Byte2, Byte1, Byte0;
    var w := FragmentWord(h);
    assert FragmentWord(h.(cksum := c)) == w;
  }

  lemma IPv4FilledSum(h: IPv4Header, c: U16, rest: Bytes)
    ensures Sum(IPv4Fixed(h.(cksum := c)) + rest, false) == Sum(IPv4Fixed(h.(cksum := 0)) + rest, false) + c
  {
    hide IPv4Fixed, Sum, Byte1, Byte0;
    var front, back := IPv4Fixed(h)[..10], IPv4Fixed(h)[12..];
    IPv4ChecksumPlace(h, c);
    IPv4ChecksumPlace(h, 0);
    ZeroBytes();
    SumFilled(front, Byte1(c), Byte0(c), back + rest);
    Split16(c);
    assert IPv4Fixed(h.(cksum := c)) + rest == front + [Byte1(c), Byte0(c)] + (back + rest);
    assert IPv4Fixed(h.(cksum := 0)) + rest == front + [0, 0] + (back + rest);
  }

  /** What `IPv4Header` can say on the wire. */
  ghost predicate WellFormed(d: Datagram)
  {
    && d.header.ver == 4 && 5 <= d.header.hlen < 16 && d.header.offset < 0x2000
    && d.header.len == 4 * d.header.hlen + |d.payload|
  }

  /** Serializing a well-formed datagram produces a packet whose header passes every check, and
      which parses back to the datagram with its checksum filled in. */
  lemma DatagramRoundTrip(d: Datagram)
    requires WellFormed(d)
    ensures CheckIPv4(DatagramBytes(d)) == NoError
    ensures
      ParseDatagram(DatagramBytes(d)) ==
      Ok(d.(header := d.header.(cksum := HeaderChecksum(d.header))))
  {
    hide Sum, Value, IPv4Layout, IPv4Fixed;
    var c := HeaderChecksum(d.header);
    var h := d.header.(cksum := c);
    var zeros := Zeros(4 * h.hlen - IP_LENGTH);
    var b := DatagramBytes(d);
    assert b == IPv4Fixed(h) + (zeros + d.payload);
    IPv4ReadBack(h, zeros + d.payload);
    assert b[4 * h.hlen..] == d.payload;
    assert b[..4 * h.hlen] == IPv4Fixed(h) + zeros;
    IPv4FilledSum(d.header, c, zeros);
    NoOverflow(IPv4Fixed(d.header.(cksum := 0)) + zeros, 0);
    NoOverflow(IPv4Fixed(h) + zeros, 0);
    FilledInVerifies(Sum(IPv4Fixed(d.header.(cksum := 0)) + zeros, false));
  }

  // ---------------------------------------------------------------- the adapter

  datatype Endpoint = Endpoint(ip: U32, port: U16)

  datatype Adapter = Adapter(source: Endpoint, destination: Endpoint, listening: bool)

  function Addressed(a: Adapter, seg: Segment): Segment
  {
    seg.(header := seg.header.(sport := a.source.port, dport := a.destination.port))
  }

  function DatagramHeader(a: Adapter, seg: Segment): IPv4Header
  {
    DEFAULT_IP.(src := a.source.ip, dst := a.destination.ip, len := (20 + 4 * seg.header.doff + |seg.payload|) % TWO16)
  }

  /** `wrap_tcp_in_ip` */
  function WrapTcp(a: Adapter, seg: Segment): Datagram
    requires seg.header.doff >= 5
  {
    var h := DatagramHeader(a, seg);
    Datagram(h, SegmentBytes(Addressed(a, seg), PseudoSum(h)))
  }

  /** `unwrap_tcp_in_ip`: the segment, if it is one of ours, and the adapter, which a listening one
      ties to the peer that opens the connection. */
  function UnwrapTcp(a: Adapter, d: Datagram): (Option<Segment>, Adapter)
  {
    if !a.listening && (d.header.dst != a.source.ip || d.header.src != a.destination.ip) then (None, a)
    else if d.header.proto != PROTO_TCP then (None, a)
    else
      match ParseSegment(d.payload, PseudoSum(d.header))
      case Failed(_) => (None, a)
      case Ok(seg) =>
        if seg.header.dport != a.source.port then (None, a)
        else if a.listening then
          if seg.header.syn && !seg.header.rst then
            (Some(seg), Adapter(Endpoint(d.header.dst, a.source.port), Endpoint(d.header.src, seg.header.sport), false))
          else (None, a)
        else if seg.header.sport != a.destination.port then (None, a)
        else (Some(seg), a)
  }

  /** The adapter at the other end. */
  function Mirror(a: Adapter): Adapter
  {
    Adapter(a.destination, a.source, false)
  }

  /** Everything but the checksum, which the sender fills in. */
  predicate SameSegment(a: Segment, b: Segment)
  {
    a.(header := a.header.(cksum := 0)) == b.(header := b.header.(cksum := 0))
  }

  /** A segment that fits one datagram survives the trip: wrapped, serialized, parsed and unwrapped
      at the other end it has the same header fields and payload, with the ports of its endpoints. */
  lemma TripKeepsSegment(a: Adapter, seg: Segment)
    requires 5 <= seg.header.doff < 16 && 20 + 4 * seg.header.doff + |seg.payload| <= 0xFFFF
    ensures
      var b := DatagramBytes(WrapTcp(a, seg));
      && CheckIPv4(b) == NoError
      && ParseDatagram(b).Ok?
      && UnwrapTcp(Mirror(a), ParseDatagram(b).value).0.Some?
      && SameSegment(UnwrapTcp(Mirror(a), ParseDatagram(b).value).0.value, Addressed(a, seg))
  {
    hide Sum, Value, ParseSegment, ParseDatagram, CheckIPv4, DatagramBytes, SegmentBytes, SegmentChecksum, HeaderChecksum;
    Trip(a, seg);
  }

  /** A listening adapter that a SYN reaches is afterwards the mirror image of its peer. */
  lemma SynOpensListener(a: Adapter, port: U16, ip: U32, peer: Endpoint, seg: Segment)
    requires 5 <= seg.header.doff < 16 && 20 + 4 * seg.header.doff + |seg.payload| <= 0xFFFF
    requires seg.header.syn && !seg.header.rst && port == a.destination.port
    ensures
      var b := DatagramBytes(WrapTcp(a, seg));
      && ParseDatagram(b).Ok?
      && var (got, after) := UnwrapTcp(Adapter(Endpoint(ip, port), peer, true), ParseDatagram(b).value);
         got.Some? && SameSegment(got.value, Addressed(a, seg)) && after == Mirror(a)
  {
    hide Sum, Value, ParseSegment, ParseDatagram, CheckIPv4, DatagramBytes, SegmentBytes, SegmentChecksum, HeaderChecksum;
    Trip(a, seg);
  }

  /** The datagram and the segment as they come out of the parsers. */
  lemma Trip(a: Adapter, seg: Segment)
    requires 5 <= seg.header.doff < 16 && 20 + 4 * seg.header.doff + |seg.payload| <= 0xFFFF
    ensures
      var d := WrapTcp(a, seg);
      var sent := Addressed(a, seg);
      && CheckIPv4(DatagramBytes(d)) == NoError
      && ParseDatagram(DatagramBytes(d)) == Ok(d.(header := d.header.(cksum := HeaderChecksum(d.header))))
      && ParseSegment(d.payload, PseudoSum(d.header.(cksum := HeaderChecksum(d.header)))) ==
         Ok(sent.(header := sent.header.(cksum := SegmentChecksum(sent, PseudoSum(d.header)))))
  {
    hide Sum, Value, ParseSegment, ParseDatagram, CheckIPv4, DatagramBytes, SegmentChecksum, HeaderChecksum;
    var d, sent := WrapTcp(a, seg), Addressed(a, seg);
    assert |d.payload| == 4 * seg.header.doff + |seg.payload| by { hide *; SegmentLength(sent, PseudoSum(d.header)); }
    DatagramRoundTrip(d);
    SegmentRoundTrip(sent, PseudoSum(d.header));
  }

  lemma SegmentLength(seg: Segment, pseudo: nat)
    requires seg.header.doff >= 5
    ensures |SegmentBytes(seg, pseudo)| == 4 * seg.header.doff + |seg.payload|
  {
  }
}
