/** The objects `InternetChecksum`, `NetParser` and `NetUnparser`, and the parsers and serializers
    that work through them step by step. */
module NetParsers {
  import opened Basics
  import opened Segments
  import opened Checksum
  import opened Wire
  import opened TcpOverIp

  // ---------------------------------------------------------------- the checksum

  class InternetChecksum {
    var sum: U32
    var parity: bool

    constructor (initial: U32)
      ensures sum == initial && !parity
    {
      sum, parity := initial, false;
    }

    /** Byte by byte, in 32-bit arithmetic. */
    method Add(data: Bytes)
      modifies this
      ensures sum == (old(sum) + Sum(data, old(parity))) % TWO32
      ensures parity == After(old(parity), |data|)
    {
      hide After;
      var i := 0;
      ghost var total: nat := sum;
      assert data[0..] == data;
      AfterNone(parity);
      while i < |data|
        invariant 0 <= i <= |data|
        invariant sum == total % TWO32
        invariant total + Sum(data[i..], parity) == old(sum) + Sum(data, old(parity))
        invariant parity == After(old(parity), i)
      {
        var value := data[i] as int;
        if !parity {
          value := value * 256;
        }
        assert data[i..][1..] == data[i + 1..];
        WrapsOnce(total, value);
        AfterOne(old(parity), i);
        total := total + value;
        sum := (sum + value) % TWO32;
        parity := !parity;
        i := i + 1;
      }
    }

    method Value() returns (v: U16)
      ensures v == Checksum.Value(sum)
    {
      var ret: nat := sum;
      while ret > 0xFFFF
        invariant Fold(ret) == Fold(sum)
      {
        ret := ret / TWO16 + ret % TWO16;
      }
      v := 0xFFFF - ret;
    }
  }

  lemma WrapsOnce(a: nat, b: nat)
    ensures (a % TWO32 + b) % TWO32 == (a + b) % TWO32
  {
  }

  lemma AfterNone(low: bool)
    ensures After(low, 0) == low
  {
  }

  lemma AfterOne(low: bool, n: nat)
    ensures After(low, n + 1) == !After(low, n)
  {
  }

  // ---------------------------------------------------------------- numbers

  function BigEndian(data: Bytes): nat
  {
    if data == [] then 0 else BigEndian(data[..|data| - 1]) * 256 + data[|data| - 1] as int
  }

  lemma BigEndian1(data: Bytes)
    requires |data| == 1
    ensures BigEndian(data) == data[0] as int
  {
    assert data[..0] == [];
  }

  lemma BigEndian2(data: Bytes)
    requires |data| == 2
    ensures BigEndian(data) == Get16(data, 0)
  {
    BigEndian1(data[..1]);
  }

  lemma BigEndian4(data: Bytes)
    requires |data| == 4
    ensures BigEndian(data) == Get32(data, 0)
  {
    BigEndian2(data[..2]);
    assert data[..3][..2] == data[..2] && data[..4][..3] == data[..3];
  }

  // ---------------------------------------------------------------- parsing

  class NetParser {
    var buffer: Bytes
    var error: ParseResult

    constructor (buffer: Bytes)
      ensures this.buffer == buffer && error == NoError
    {
      this.buffer, error := buffer, NoError;
    }

    method CheckSize(size: nat)
      modifies this`error
      ensures error == if size > |buffer| then PacketTooShort else old(error)
    {
      if size > |buffer| {
        error := PacketTooShort;
      }
    }

    /** Shift `len` bytes into an accumulator. Nothing is consumed once there is an error. */
    method ParseInt(len: nat) returns (v: nat)
      modifies this
      ensures error == if len > |old(buffer)| then PacketTooShort else old(error)
      ensures error == NoError ==> v == BigEndian(old(buffer)[..len]) && buffer == old(buffer)[len..]
      ensures error != NoError ==> v == 0 && buffer == old(buffer)
    {
      CheckSize(len);
      if error != NoError {
        return 0;
      }
      v := 0;
      var i := 0;
      assert buffer[..0] == [];
      while i < len
        invariant 0 <= i <= len && v == BigEndian(buffer[..i])
      {
        assert buffer[..i + 1][..i] == buffer[..i];
        v := v * 256 + buffer[i] as int;
        i := i + 1;
      }
      buffer := buffer[len..];
    }

    method RemovePrefix(n: nat)
      modifies this
      ensures error == if n > |old(buffer)| then PacketTooShort else old(error)
      ensures buffer == if error == NoError then old(buffer)[n..] else old(buffer)
    {
      CheckSize(n);
      if error != NoError {
        return;
      }
      buffer := buffer[n..];
    }

    /** Having read `k` bytes of `whole`, or run out of them. */
    ghost predicate At(whole: Bytes, k: nat)
      reads this
    {
      (k <= |whole| && error == NoError && buffer == whole[k..]) || (|whole| < k && error == PacketTooShort)
    }

    method U8(ghost whole: Bytes, ghost k: nat) returns (v: Segments.U8)
      requires At(whole, k)
      modifies this
      ensures At(whole, k + 1) && v == Peek8(whole, k)
    {
      ghost var b := buffer;
      var n := ParseInt(1);
      if error == NoError {
        BigEndian1(b[..1]);
        assert b[1..] == whole[k + 1..];
      }
      v := n;
    }

    method U16(ghost whole: Bytes, ghost k: nat) returns (v: Basics.U16)
      requires At(whole, k)
      modifies this
      ensures At(whole, k + 2) && v == Peek16(whole, k)
    {
      ghost var b := buffer;
      var n := ParseInt(2);
      if error == NoError {
        BigEndian2(b[..2]);
        assert b[2..] == whole[k + 2..];
      }
      v := n;
    }

    method U32(ghost whole: Bytes, ghost k: nat) returns (v: Basics.U32)
      requires At(whole, k)
      modifies this
      ensures At(whole, k + 4) && v == Peek32(whole, k)
    {
      ghost var b := buffer;
      var n := ParseInt(4);
      if error == NoError {
        BigEndian4(b[..4]);
        assert b[4..] == whole[k + 4..];
      }
      v := n;
    }
  }

  // ---------------------------------------------------------------- headers

  /** The field-by-field part of `TCPHeader::parse`. */
  method ReadTcpFields(p: NetParser) returns (h: TcpHeader)
    requires p.error == NoError
    modifies p
    ensures h == TcpPrefix(old(p.buffer)) && p.At(old(p.buffer), TCP_LENGTH)
  {
    hide Peek8, Peek16, Peek32, Bit;
    ghost var b := p.buffer;
    assert b[0..] == b;
    var sport := p.U16(b, 0);
    var dport := p.U16(b, 2);
    var seqno := p.U32(b, 4);
    var ackno := p.U32(b, 8);
    var offset := p.U8(b, 12);
    var flags := p.U8(b, 13);
    var win := p.U16(b, 14);
    var cksum := p.U16(b, 16);
    var uptr := p.U16(b, 18);
    var f := flags as Byte;
    h := TcpHeader(sport, dport, seqno, ackno, offset / 16,
                   Bit(f, 32), Bit(f, 16), Bit(f, 8), Bit(f, 4), Bit(f, 2), Bit(f, 1), win, cksum, uptr);
  }

  /** `TCPHeader::parse` */
  method ParseTcpHeader(p: NetParser) returns (h: TcpHeader, result: ParseResult)
    requires p.error == NoError
    modifies p
    ensures h == TcpPrefix(old(p.buffer)) && result == CheckTcp(old(p.buffer))
    ensures |old(p.buffer)| < TCP_LENGTH ==> p.error == PacketTooShort
    ensures |old(p.buffer)| >= TCP_LENGTH ==>
      && h == TcpLayout(old(p.buffer))
      && (h.doff < 5 ==> p.error == NoError && p.buffer == old(p.buffer)[TCP_LENGTH..])
      && (5 <= h.doff && 4 * h.doff <= |old(p.buffer)| ==> p.error == NoError && p.buffer == old(p.buffer)[4 * h.doff..])
      && (|old(p.buffer)| < 4 * h.doff ==> p.error == PacketTooShort)
  {
    hide TcpPrefix, TcpLayout;
    ghost var b := p.buffer;
    h := ReadTcpFields(p);
    if |b| >= TCP_LENGTH {
      PrefixIsLayout(b);
    }
    if h.doff < 5 {
      return h, HeaderTooShort;
    }
    p.RemovePrefix(4 * h.doff - TCP_LENGTH);
    assert |b| >= 4 * h.doff >= 20 ==> b[20..][4 * h.doff - 20..] == b[4 * h.doff..];
    result := p.error;
  }

  /** `TCPSegment::parse` */
  method ParseTcpSegment(buffer: Bytes, pseudo: U32) returns (r: Parsed<Segment>)
    ensures r == ParseSegment(buffer, pseudo)
  {
    hide Sum, Fold, TcpLayout;
    var check := new InternetChecksum(pseudo);
    check.Add(buffer);
    var value := check.Value();
    if value != 0 {
      return Failed(BadChecksum);
    }
    var p := new NetParser(buffer);
    var h, _ := ParseTcpHeader(p);
    r := if p.error == NoError then Ok(Segment(h, p.buffer)) else Failed(p.error);
  }

  /** The field-by-field part of `IPv4Header::parse`. */
  method ReadIPv4Fields(p: NetParser) returns (h: IPv4Header)
    requires p.error == NoError && |p.buffer| >= IP_LENGTH
    modifies p
    ensures h == IPv4Layout(old(p.buffer))
    ensures p.error == NoError && p.buffer == old(p.buffer)[IP_LENGTH..]
  {
    hide Get16, Get32;
    ghost var b := p.buffer;
    assert b[0..] == b;
    var first := p.U8(b, 0);
    var tos := p.U8(b, 1);
    var len := p.U16(b, 2);
    var id := p.U16(b, 4);
    var fo := p.U16(b, 6);
    var ttl := p.U8(b, 8);
    var proto := p.U8(b, 9);
    var cksum := p.U16(b, 10);
    var src := p.U32(b, 12);
    var dst := p.U32(b, 16);
    h := IPv4Header(first / 16, first % 16, tos, len, id,
                    fo / 0x4000 % 2 == 1, fo / 0x2000 % 2 == 1, fo % 0x2000, ttl, proto, cksum, src, dst);
  }

  /** `IPv4Header::parse`. `None` stands for a header that was left as it was. */
  method ParseIPv4Header(p: NetParser) returns (h: Option<IPv4Header>, result: ParseResult)
    requires p.error == NoError
    modifies p
    ensures result == CheckIPv4(old(p.buffer)) && p.error == NoError
    ensures h == if |old(p.buffer)| < IP_LENGTH then None else Some(IPv4Layout(old(p.buffer)))
    ensures
      p.buffer ==
        if h == None then old(p.buffer)
        else if |old(p.buffer)| >= 4 * h.value.hlen && h.value.ver == 4 && h.value.hlen >= 5 && |old(p.buffer)| == h.value.len
        then old(p.buffer)[4 * h.value.hlen..]
        else old(p.buffer)[IP_LENGTH..]
  {
    hide IPv4Layout, Sum, Fold;
    var b := p.buffer;
    if |b| < IP_LENGTH {
      return None, PacketTooShort;
    }
    var header := ReadIPv4Fields(p);
    h := Some(header);
    if |b| < 4 * header.hlen {
      return h, PacketTooShort;
    }
    if header.ver != 4 {
      return h, WrongIPVersion;
    }
    if header.hlen < 5 {
      return h, HeaderTooShort;
    }
    if |b| != header.len {
      return h, TruncatedPacket;
    }
    p.RemovePrefix(4 * header.hlen - IP_LENGTH);
    assert b[20..][4 * header.hlen - 20..] == b[4 * header.hlen..];
    var check := new InternetChecksum(0);
    check.Add(b[..4 * header.hlen]);
    var value := check.Value();
    result := if value != 0 then BadChecksum else NoError;
  }

  /** `IPv4Datagram::parse` */
  method ParseIPv4Datagram(buffer: Bytes) returns (r: Parsed<Datagram>)
    ensures r == ParseDatagram(buffer)
  {
    hide IPv4Layout, CheckIPv4;
    var p := new NetParser(buffer);
    var parsed, _ := ParseIPv4Header(p);
    var h := if parsed.Some? then parsed.value else DEFAULT_IP;
    if |p.buffer| != PayloadLength(h) {
      return Failed(PacketTooShort);
    }
    r := Ok(Datagram(h, p.buffer));
  }

  // ---------------------------------------------------------------- serializing

  /** The bytes of a number, the most significant first. */
  function BytesOf(v: nat, len: nat): Bytes
  {
    if len == 0 then [] else BytesOf(v / 256, len - 1) + [(v % 256) as Byte]
  }

  lemma Bytes2(v: Basics.U16)
    ensures BytesOf(v, 2) == [Byte1(v), Byte0(v)]
  {
    assert BytesOf(v / 256, 1) == [] + [(v / 256 % 256) as Byte];
  }

  lemma Bytes4(v: Basics.U32)
    ensures BytesOf(v, 4) == [Byte3(v), Byte2(v), Byte1(v), Byte0(v)]
  {
    var v1, v2, v3 := v / 256, v / 256 / 256, v / 256 / 256 / 256;
    assert v2 == v / 0x1_0000 && v3 == v / 0x100_0000;
    assert BytesOf(v3, 1) == [] + [(v3 % 256) as Byte];
    assert BytesOf(v2, 2) == BytesOf(v3, 1) + [(v2 % 256) as Byte];
    assert BytesOf(v1, 3) == BytesOf(v2, 2) + [(v1 % 256) as Byte];
  }

  /** A number shifted right by `n` bytes. */
  function ShiftRight(v: nat, n: nat): nat
  {
    if n == 0 then v else ShiftRight(v, n - 1) / 256
  }

  /** Append the `len` bytes of a number, shifting it right by one byte less every time. */
  method UnparseInt(s: Bytes, v: nat, len: nat) returns (r: Bytes)
    ensures r == s + BytesOf(v, len)
  {
    r := s;
    var i := 0;
    while i < len
      invariant 0 <= i <= len
      invariant r == s + BytesOf(ShiftRight(v, len - i), i)
    {
      var shifted := ShiftRight(v, len - i - 1);
      assert ShiftRight(v, len - i) == shifted / 256;
      assert BytesOf(shifted, i + 1) == BytesOf(shifted / 256, i) + [(shifted % 256) as Byte];
      r := r + [(shifted % 256) as Byte];
      i := i + 1;
    }
  }

  method Put16(s: Bytes, v: Basics.U16) returns (r: Bytes)
    ensures r == s + [Byte1(v), Byte0(v)]
  {
    Bytes2(v);
    r := UnparseInt(s, v, 2);
  }

  method Put32(s: Bytes, v: Basics.U32) returns (r: Bytes)
    ensures r == s + [Byte3(v), Byte2(v), Byte1(v), Byte0(v)]
  {
    Bytes4(v);
    r := UnparseInt(s, v, 4);
  }

  method Put8(s: Bytes, v: Byte) returns (r: Bytes)
    ensures r == s + [v]
  {
    assert BytesOf(v as int, 1) == BytesOf(v as int / 256, 0) + [v];
    r := UnparseInt(s, v as int, 1);
  }

  /** `TCPHeader::serialize`; a header that is too short is refused. */
  method SerializeTcpHeader(h: TcpHeader) returns (r: Option<Bytes>)
    ensures r == if h.doff < 5 then None else Some(TcpBytes(h))
  {
    hide Byte3, Byte2, Byte1, Byte0, FlagByte;
    if h.doff < 5 {
      return None;
    }
    var s: Bytes := [];
    s := Put16(s, h.sport);
    s := Put16(s, h.dport);
    s := Put32(s, h.seqno);
    s := Put32(s, h.ackno);
    s := Put8(s, (h.doff % 16 * 16) as Byte);
    s := Put8(s, FlagByte(h));
    s := Put16(s, h.win);
    s := Put16(s, h.cksum);
    s := Put16(s, h.uptr);
    assert s == TcpFixed(h);
    r := Some(s + Zeros(4 * h.doff - |s|));
  }

  /** `TCPSegment::serialize`: the checksum is taken over the header with a zero in its place, in
      two portions. */
  method SerializeTcpSegment(seg: Segment, pseudo: Basics.U32) returns (r: Option<Bytes>)
    ensures r == if seg.header.doff < 5 then None else Some(SegmentBytes(seg, pseudo))
  {
    hide Sum, Fold, TcpFixed;
    if seg.header.doff < 5 {
      return None;
    }
    var zero := SerializeTcpHeader(seg.header.(cksum := 0));
    var check := new InternetChecksum(pseudo);
    check.Add(zero.value);
    check.Add(seg.payload);
    SumConcat(zero.value, seg.payload, false);
    assert check.sum == (pseudo + Sum(zero.value + seg.payload, false)) % TWO32 by {
      WrapsOnce(pseudo + Sum(zero.value, false), Sum(seg.payload, After(false, |zero.value|)));
    }
    var value := check.Value();
    var header := SerializeTcpHeader(seg.header.(cksum := value));
    r := Some(header.value + seg.payload);
  }

  /** `IPv4Header::serialize`; a wrong version or a header that is too short is refused. */
  method SerializeIPv4Header(h: IPv4Header) returns (r: Option<Bytes>)
    ensures r == if h.ver != 4 || h.hlen < 5 then None else Some(IPv4Bytes(h))
  {
    if h.ver != 4 || 4 * h.hlen < IP_LENGTH {
      return None;
    }
    var s := WriteIPv4Fields(h);
    r := Some(s + Zeros(4 * h.hlen - |s|));
  }

  /** The field-by-field part of `IPv4Header::serialize`. */
  method WriteIPv4Fields(h: IPv4Header) returns (s: Bytes)
    ensures s == IPv4Fixed(h)
  {
    hide Byte3, Byte2, Byte1, Byte0, FragmentWord;
    s := [];
    s := Put8(s, (h.ver % 16 * 16 + h.hlen % 16) as Byte);
    s := Put8(s, h.tos as Byte);
    s := Put16(s, h.len);
    s := Put16(s, h.id);
    s := Put16(s, FragmentWord(h));
    assert s == IPv4Fixed(h)[..8];
    s := Put8(s, h.ttl as Byte);
    s := Put8(s, h.proto as Byte);
    s := Put16(s, h.cksum);
    assert s == IPv4Fixed(h)[..12];
    s := Put32(s, h.src);
    s := Put32(s, h.dst);
  }

  /** `IPv4Datagram::serialize`; a payload of the wrong size is refused too. */
  method SerializeIPv4Datagram(d: Datagram) returns (r: Option<Bytes>)
    ensures r == if |d.payload| != PayloadLength(d.header) || d.header.ver != 4 || d.header.hlen < 5 then None else Some(DatagramBytes(d))
  {
    hide Sum, Fold, IPv4Fixed;
    if |d.payload| != PayloadLength(d.header) {
      return None;
    }
    var zero := SerializeIPv4Header(d.header.(cksum := 0));
    if zero.None? {
      return None;
    }
    var check := new InternetChecksum(0);
    check.Add(zero.value);
    var value := check.Value();
    var header := SerializeIPv4Header(d.header.(cksum := value));
    r := Some(header.value + d.payload);
  }
}
