/** The wire formats of the TCP header (section 3.1 of RFC 793) and the IPv4 header (section 3.1 of
    RFC 791), as layouts: which byte holds what. */
module Wire {
  import opened Basics
  import opened Segments

  datatype ParseResult =
    | NoError | BadChecksum | PacketTooShort | WrongIPVersion | HeaderTooShort | TruncatedPacket | Unsupported

  datatype Parsed<+T> = Ok(value: T) | Failed(error: ParseResult)

  // ---------------------------------------------------------------- big-endian numbers

  function Byte3(v: U32): Byte { (v / 0x100_0000) as Byte }
  function Byte2(v: U32): Byte { (v / 0x1_0000 % 0x100) as Byte }
  function Byte1(v: U32): Byte { (v / 0x100 % 0x100) as Byte }
  function Byte0(v: U32): Byte { (v % 0x100) as Byte }

  function Get16(data: Bytes, i: nat): U16
    requires i + 2 <= |data|
  {
    data[i] as int * 0x100 + data[i + 1] as int
  }

  function Get32(data: Bytes, i: nat): U32
    requires i + 4 <= |data|
  {
    Get16(data, i) * 0x1_0000 + Get16(data, i + 2)
  }

  /** What a parser reads at a place: zero where the bytes run out. */
  function Peek8(data: Bytes, i: nat): U8
  {
    if i + 1 <= |data| then data[i] as int else 0
  }

  function Peek16(data: Bytes, i: nat): U16
  {
    if i + 2 <= |data| then Get16(data, i) else 0
  }

  function Peek32(data: Bytes, i: nat): U32
  {
    if i + 4 <= |data| then Get32(data, i) else 0
  }

  lemma Split16(v: U16)
    ensures Byte1(v) as int * 0x100 + Byte0(v) as int == v
  {
  }

  lemma Split32(v: U32)
    ensures (Byte3(v) as int * 0x100 + Byte2(v) as int) * 0x1_0000 + (Byte1(v) as int * 0x100 + Byte0(v) as int) == v
  {
    var q := v / 0x100;
    var hi := v / 0x1_0000;
    assert hi == q / 0x100 by { DividedTwice(v); }
    assert v / 0x100_0000 == hi / 0x100 by { DividedAgain(v); }
    assert v == q * 0x100 + Byte0(v) as int;
    assert q == hi * 0x100 + Byte1(v) as int;
    assert hi == Byte3(v) as int * 0x100 + Byte2(v) as int;
  }

  lemma DividedTwice(v: nat)
    ensures v / 0x1_0000 == v / 0x100 / 0x100
  {
  }

  lemma DividedAgain(v: nat)
    ensures v / 0x100_0000 == v / 0x1_0000 / 0x100
  {
  }

  function Bit(b: Byte, k: nat): bool
    requires k in {1, 2, 4, 8, 16, 32}
  {
    b as int / k % 2 == 1
  }

  function Flag(on: bool, k: nat): nat
  {
    if on then k else 0
  }

  function Zeros(n: nat): Bytes
  {
    seq(n, _ => 0)
  }

  // ---------------------------------------------------------------- the TCP header

  const TCP_LENGTH := 20

  function FlagByte(h: TcpHeader): Byte
  {
    (Flag(h.urg, 32) + Flag(h.ack, 16) + Flag(h.psh, 8) + Flag(h.rst, 4) + Flag(h.syn, 2) + Flag(h.fin, 1)) as Byte
  }

  /** The fixed part of the header, in the order of the standard. */
  function TcpFixed(h: TcpHeader): (b: Bytes)
    ensures |b| == TCP_LENGTH
  {
    [Byte1(h.sport), Byte0(h.sport), Byte1(h.dport), Byte0(h.dport),
     Byte3(h.seqno), Byte2(h.seqno), Byte1(h.seqno), Byte0(h.seqno),
     Byte3(h.ackno), Byte2(h.ackno), Byte1(h.ackno), Byte0(h.ackno),
     (h.doff % 16 * 16) as Byte, FlagByte(h), Byte1(h.win), Byte0(h.win),
     Byte1(h.cksum), Byte0(h.cksum), Byte1(h.uptr), Byte0(h.uptr)]
  }

  /** `TCPHeader::serialize`, padded with zeros to the advertised size. */
  function TcpBytes(h: TcpHeader): Bytes
    requires h.doff >= 5
  {
    TcpFixed(h) + Zeros(4 * h.doff - TCP_LENGTH)
  }

  /** The header that the first twenty bytes spell. */
  function TcpLayout(b: Bytes): TcpHeader
    requires |b| >= TCP_LENGTH
  {
    TcpHeader(Get16(b, 0), Get16(b, 2), Get32(b, 4), Get32(b, 8), b[12] as int / 16,
              Bit(b[13], 32), Bit(b[13], 16), Bit(b[13], 8), Bit(b[13], 4), Bit(b[13], 2), Bit(b[13], 1),
              Get16(b, 14), Get16(b, 16), Get16(b, 18))
  }

  /** The header as far as the bytes go: a field that is cut short, and every one behind it, is
      zero. */
  function TcpPrefix(b: Bytes): TcpHeader
  {
    var f := Peek8(b, 13) as Byte;
    TcpHeader(Peek16(b, 0), Peek16(b, 2), Peek32(b, 4), Peek32(b, 8), Peek8(b, 12) / 16,
              Bit(f, 32), Bit(f, 16), Bit(f, 8), Bit(f, 4), Bit(f, 2), Bit(f, 1),
              Peek16(b, 14), Peek16(b, 16), Peek16(b, 18))
  }

  lemma PrefixIsLayout(b: Bytes)
    requires |b| >= TCP_LENGTH
    ensures TcpPrefix(b) == TcpLayout(b)
  {
    hide Get16, Get32, Bit;
  }

  lemma FlagsRead(h: TcpHeader)
    ensures
      var b := FlagByte(h);
      && Bit(b, 32) == h.urg && Bit(b, 16) == h.ack && Bit(b, 8) == h.psh
      && Bit(b, 4) == h.rst && Bit(b, 2) == h.syn && Bit(b, 1) == h.fin
  {
  }

  /** Reading back what was written gives the header, whatever follows it. */
  lemma TcpReadBack(h: TcpHeader, rest: Bytes)
    requires h.doff < 16
    ensures TcpLayout(TcpFixed(h) + rest) == h
  {
    hide Bit, FlagByte, Byte3, Byte2, Byte1, Byte0;
    FlagsRead(h);
    Split16(h.sport);
    Split16(h.dport);
    Split32(h.seqno);
    Split32(h.ackno);
    Split16(h.win);
    Split16(h.cksum);
    Split16(h.uptr);
    var b := TcpFixed(h) + rest;
    assert b[..20] == TcpFixed(h);
  }

  // ---------------------------------------------------------------- the IPv4 header

  const IP_LENGTH := 20
  const PROTO_TCP: U8 := 6
  const DEFAULT_TTL: U8 := 128

  datatype IPv4Header = IPv4Header(
    ver: U8, hlen: U8, tos: U8, len: U16, id: U16, df: bool, mf: bool, offset: U16,
    ttl: U8, proto: U8, cksum: U16, src: U32, dst: U32)

  const DEFAULT_IP := IPv4Header(4, 5, 0, 0, 0, true, false, 0, DEFAULT_TTL, PROTO_TCP, 0, 0, 0)

  function FragmentWord(h: IPv4Header): U16
  {
    Flag(h.df, 0x4000) + Flag(h.mf, 0x2000) + h.offset % 0x2000
  }

  function IPv4Fixed(h: IPv4Header): (b: Bytes)
    ensures |b| == IP_LENGTH
  {
    [(h.ver % 16 * 16 + h.hlen % 16) as Byte, h.tos as Byte, Byte1(h.len), Byte0(h.len),
     Byte1(h.id), Byte0(h.id), Byte1(FragmentWord(h)), Byte0(FragmentWord(h)),
     h.ttl as Byte, h.proto as Byte, Byte1(h.cksum), Byte0(h.cksum),
     Byte3(h.src), Byte2(h.src), Byte1(h.src), Byte0(h.src),
     Byte3(h.dst), Byte2(h.dst), Byte1(h.dst), Byte0(h.dst)]
  }

  /** `IPv4Header::serialize`, padded with zeros to the advertised size. */
  function IPv4Bytes(h: IPv4Header): Bytes
    requires h.hlen >= 5
  {
    IPv4Fixed(h) + Zeros(4 * h.hlen - IP_LENGTH)
  }

  function IPv4Layout(b: Bytes): IPv4Header
    requires |b| >= IP_LENGTH
  {
    var fo := Get16(b, 6);
    IPv4Header(b[0] as int / 16, b[0] as int % 16, b[1] as int, Get16(b, 2), Get16(b, 4),
               fo / 0x4000 % 2 == 1, fo / 0x2000 % 2 == 1, fo % 0x2000,
               b[8] as int, b[9] as int, Get16(b, 10), Get32(b, 12), Get32(b, 16))
  }

  lemma FragmentRead(h: IPv4Header)
    requires h.offset < 0x2000
    ensures
      var fo := FragmentWord(h);
      (fo / 0x4000 % 2 == 1) == h.df && (fo / 0x2000 % 2 == 1) == h.mf && fo % 0x2000 == h.offset
  {
  }

  lemma IPv4ReadBack(h: IPv4Header, rest: Bytes)
    requires h.ver < 16 && h.hlen < 16 && h.offset < 0x2000
    ensures IPv4Layout(IPv4Fixed(h) + rest) == h
  {
    hide FragmentWord, Byte3, Byte2, Byte1, Byte0;
    FragmentRead(h);
    Split16(h.len);
    Split16(h.id);
    Split16(FragmentWord(h));
    Split16(h.cksum);
    Split32(h.src);
    Split32(h.dst);
    var b := IPv4Fixed(h) + rest;
    assert b[..20] == IPv4Fixed(h);
  }

  // ---------------------------------------------------------------- where each field is

  /** A big-endian number of two bytes. */
  predicate Holds16(b: Bytes, i: nat, v: nat)
  {
    i + 2 <= |b| && v == b[i] as int * 256 + b[i + 1] as int
  }

  /** A big-endian number of four bytes. */
  predicate Holds32(b: Bytes, i: nat, v: nat)
  {
    && i + 4 <= |b|
    && v == b[i] as int * 0x100_0000 + b[i + 1] as int * 0x1_0000 + b[i + 2] as int * 0x100 + b[i + 3] as int
  }

  /** Bytes spell a TCP header as the figure in section 3.1 of RFC 793 has it. */
  predicate SpellsTcp(b: Bytes, h: TcpHeader)
  {
    && Holds16(b, 0, h.sport) && Holds16(b, 2, h.dport) && Holds32(b, 4, h.seqno) && Holds32(b, 8, h.ackno)
    && |b| >= 20 && b[12] as int / 16 == h.doff
    && (h.urg <==> b[13] as int / 32 % 2 == 1) && (h.ack <==> b[13] as int / 16 % 2 == 1)
    && (h.psh <==> b[13] as int / 8 % 2 == 1) && (h.rst <==> b[13] as int / 4 % 2 == 1)
    && (h.syn <==> b[13] as int / 2 % 2 == 1) && (h.fin <==> b[13] as int % 2 == 1)
    && Holds16(b, 14, h.win) && Holds16(b, 16, h.cksum) && Holds16(b, 18, h.uptr)
  }

  /** What is read is what the bytes spell. */
  lemma TcpLayoutSpelled(b: Bytes)
    requires |b| >= TCP_LENGTH
    ensures SpellsTcp(b, TcpLayout(b))
  {
  }

  /** What is written spells the header, and leaves the reserved bits clear. */
  lemma TcpFixedSpells(h: TcpHeader, rest: Bytes)
    requires h.doff < 16
    ensures SpellsTcp(TcpFixed(h) + rest, h)
    ensures TcpFixed(h)[12] as int % 16 == 0 && TcpFixed(h)[13] < 64
  {
    hide TcpFixed, TcpLayout, SpellsTcp;
    TcpReadBack(h, rest);
    TcpLayoutSpelled(TcpFixed(h) + rest);
    assert TcpFixed(h)[12] as int % 16 == 0 && TcpFixed(h)[13] < 64 by { hide *; ReservedClear(h); }
  }

  lemma ReservedClear(h: TcpHeader)
    ensures TcpFixed(h)[12] as int % 16 == 0 && TcpFixed(h)[13] < 64
  {
    hide Byte3, Byte2, Byte1, Byte0;
  }

  /** Bytes spell an IPv4 header as the figure in section 3.1 of RFC 791 has it. */
  predicate SpellsIPv4(b: Bytes, h: IPv4Header)
  {
    && |b| >= 20 && b[0] as int / 16 == h.ver && b[0] as int % 16 == h.hlen && b[1] as int == h.tos
    && Holds16(b, 2, h.len) && Holds16(b, 4, h.id)
    && (h.df <==> b[6] as int / 64 % 2 == 1) && (h.mf <==> b[6] as int / 32 % 2 == 1)
    && h.offset == b[6] as int % 32 * 256 + b[7] as int
    && b[8] as int == h.ttl && b[9] as int == h.proto && Holds16(b, 10, h.cksum)
    && Holds32(b, 12, h.src) && Holds32(b, 16, h.dst)
  }

  lemma IPv4LayoutSpelled(b: Bytes)
    requires |b| >= IP_LENGTH
    ensures SpellsIPv4(b, IPv4Layout(b))
  {
    FragmentBits(b[6], b[7]);
  }

  lemma FragmentBits(hi: Byte, lo: Byte)
    ensures
      var w := hi as int * 256 + lo as int;
      && w / 0x4000 % 2 == hi as int / 64 % 2 && w / 0x2000 % 2 == hi as int / 32 % 2
      && w % 0x2000 == hi as int % 32 * 256 + lo as int
  {
    var h, l := hi as int, lo as int;
    assert (h * 256 + l) / 0x4000 == h / 64;
    assert (h * 256 + l) / 0x2000 == h / 32;
  }

  lemma IPv4FixedSpells(h: IPv4Header, rest: Bytes)
    requires h.ver < 16 && h.hlen < 16 && h.offset < 0x2000
    ensures SpellsIPv4(IPv4Fixed(h) + rest, h)
  {
    hide IPv4Fixed, IPv4Layout, SpellsIPv4;
    IPv4ReadBack(h, rest);
    IPv4LayoutSpelled(IPv4Fixed(h) + rest);
  }
}
