/** Exactly which packets the parsers accept, among them those whose header their own header
    parsers reject; and which errors the checksum finds. */
module ParserLimits {
  import opened Basics
  import opened Segments
  import opened Checksum
  import opened Wire
  import opened TcpOverIp

  // ---------------------------------------------------------------- datagrams

  /** A datagram is accepted exactly when its header passes, or fails only by its checksum, or when
      the payload length the header claims is what follows the first twenty bytes. */
  lemma DatagramAcceptedIff(b: Bytes)
    ensures
      ParseDatagram(b).Ok?
      <==> |b| >= IP_LENGTH
           && (CheckIPv4(b) in {NoError, BadChecksum} || |b| - IP_LENGTH == PayloadLength(IPv4Layout(b)))
  {
    hide IPv4Layout, Sum, Fold;
  }

  /** A checksum that is off by anything but a multiple of 2^16 - 1 is found by the header parser,
      and the datagram is accepted all the same. */
  lemma AnyChecksumAccepted(d: Datagram, c: U16)
    requires WellFormed(d)
    ensures
      var b := IPv4Bytes(d.header.(cksum := c)) + d.payload;
      && ParseDatagram(b) == Ok(d.(header := d.header.(cksum := c)))
      && CheckIPv4(b) == if (c - HeaderChecksum(d.header)) % 0xFFFF == 0 then NoError else BadChecksum
  {
    hide Sum, Value, IPv4Layout, IPv4Fixed;
    var h := d.header.(cksum := c);
    var zeros := Zeros(4 * h.hlen - IP_LENGTH);
    var b := IPv4Bytes(h) + d.payload;
    assert b == IPv4Fixed(h) + (zeros + d.payload);
    IPv4ReadBack(h, zeros + d.payload);
    assert b[4 * h.hlen..] == d.payload;
    assert b[..4 * h.hlen] == IPv4Fixed(h) + zeros;
    IPv4FilledSum(d.header, c, zeros);
    NoOverflow(IPv4Fixed(d.header.(cksum := 0)) + zeros, 0);
    NoOverflow(IPv4Fixed(h) + zeros, 0);
    SumPositive(d.header, zeros);
    OnlyChecksums(Sum(IPv4Fixed(d.header.(cksum := 0)) + zeros, false), c);
  }

  /** What may be added to a positive sum so that it verifies. */
  lemma OnlyChecksums(sum: nat, c: U16)
    requires sum > 0
    ensures Value(sum + c) == 0 <==> (c - Value(sum)) % 0xFFFF == 0
  {
    hide Value;
    VerifiesIff(sum + c);
    FilledInVerifies(sum);
    VerifiesIff(sum + Value(sum));
    SameRest(sum + Value(sum), c - Value(sum));
  }

  lemma SameRest(n: nat, d: int)
    requires n % 0xFFFF == 0
    ensures (n + d) % 0xFFFF == d % 0xFFFF
  {
    var k := n / 0xFFFF;
    assert n + d == d + 0xFFFF * k;
  }

  lemma SumPositive(h: IPv4Header, rest: Bytes)
    requires h.ver == 4
    ensures Sum(IPv4Fixed(h.(cksum := 0)) + rest, false) > 0
  {
    hide Byte3, Byte2, Byte1, Byte0, FragmentWord;
    var b := IPv4Fixed(h.(cksum := 0)) + rest;
    assert b[0] as int >= 64;
  }

  /** A header with the wrong version, or with a length other than twenty bytes, whose total length
      counts the payload behind the first twenty: each of the four other verdicts, and accepted. */
  lemma WrongHeaderAccepted(h: IPv4Header, payload: Bytes)
    requires h.ver < 16 && h.hlen < 16 && h.offset < 0x2000 && h.len == 4 * h.hlen + |payload|
    requires h.ver != 4 || h.hlen != 5
    ensures
      var b := IPv4Fixed(h) + payload;
      && ParseDatagram(b) == Ok(Datagram(h, payload))
      && CheckIPv4(b) == if |b| < 4 * h.hlen then PacketTooShort
                         else if h.ver != 4 then WrongIPVersion
                         else if h.hlen < 5 then HeaderTooShort
                         else TruncatedPacket
  {
    hide IPv4Layout, IPv4Fixed, Sum, Value;
    var b := IPv4Fixed(h) + payload;
    IPv4ReadBack(h, payload);
    assert b[20..] == payload;
  }

  // ---------------------------------------------------------------- segments

  /** A segment is accepted exactly when its checksum verifies, it has a whole header, and the data
      offset does not lie beyond its end: when the header parser does not object, or objects only
      that the offset lies within the header. */
  lemma SegmentAcceptedIff(b: Bytes, pseudo: nat)
    ensures
      ParseSegment(b, pseudo).Ok?
      <==> Value((pseudo + Sum(b, false)) % TWO32) == 0 && |b| >= TCP_LENGTH && CheckTcp(b) in {NoError, HeaderTooShort}
    ensures |b| >= TCP_LENGTH ==> (CheckTcp(b) in {NoError, HeaderTooShort} <==> 4 * TcpLayout(b).doff <= |b|)
  {
    if |b| >= TCP_LENGTH {
      PrefixIsLayout(b);
    }
    hide TcpLayout, TcpPrefix, Sum, Value;
  }

  /** A segment whose data offset lies within its header, which the header parser calls too short,
      is accepted with everything behind the first twenty bytes as its payload. */
  lemma ShortHeaderAccepted(h: TcpHeader, payload: Bytes, pseudo: nat)
    requires h.doff < 5 && pseudo <= 5 * 0xFFFF && TCP_LENGTH + |payload| <= 0xFFFF
    ensures
      var sum := pseudo + Sum(TcpFixed(h.(cksum := 0)) + payload, false);
      var sent := h.(cksum := Value(sum));
      var b := TcpFixed(sent) + payload;
      CheckTcp(b) == HeaderTooShort && ParseSegment(b, pseudo) == Ok(Segment(sent, payload))
  {
    hide *;
    var sent := h.(cksum := Value(pseudo + Sum(TcpFixed(h.(cksum := 0)) + payload, false)));
    var b := TcpFixed(sent) + payload;
    TcpReadBack(sent, payload);
    assert b[TCP_LENGTH..] == payload;
    FilledSegmentVerifies(h, payload, pseudo);
    ShortHeaderParsed(b, pseudo);
  }

  lemma FilledSegmentVerifies(h: TcpHeader, payload: Bytes, pseudo: nat)
    requires pseudo <= 5 * 0xFFFF && TCP_LENGTH + |payload| <= 0xFFFF
    ensures
      var c := Value(pseudo + Sum(TcpFixed(h.(cksum := 0)) + payload, false));
      Value((pseudo + Sum(TcpFixed(h.(cksum := c)) + payload, false)) % TWO32) == 0
  {
    hide TcpFixed, Sum, Value;
    var sum := pseudo + Sum(TcpFixed(h.(cksum := 0)) + payload, false);
    TcpFilledSum(h, Value(sum), payload);
    NoOverflow(TcpFixed(h.(cksum := Value(sum))) + payload, pseudo);
    FilledInVerifies(sum);
  }

  lemma ShortHeaderParsed(b: Bytes, pseudo: nat)
    requires |b| >= TCP_LENGTH && TcpLayout(b).doff < 5 && Value((pseudo + Sum(b, false)) % TWO32) == 0
    ensures CheckTcp(b) == HeaderTooShort && ParseSegment(b, pseudo) == Ok(Segment(TcpLayout(b), b[TCP_LENGTH..]))
  {
    PrefixIsLayout(b);
    hide TcpLayout, TcpPrefix, Sum, Value;
  }

  // ---------------------------------------------------------------- errors that are found

  /** One changed byte changes the sum, by less than 2^16 - 1. */
  lemma SumChanged(b: Bytes, i: nat, x: Byte)
    requires i < |b|
    ensures
      var d := x as int - b[i] as int;
      Sum(b[i := x], false) == Sum(b, false) + if After(false, i) then d else 256 * d
  {
    hide Sum;
    var front, back := b[..i], b[i + 1..];
    assert b == front + ([b[i]] + back) && b[i := x] == front + ([x] + back);
    SumConcat(front, [b[i]] + back, false);
    SumConcat(front, [x] + back, false);
    OneByte(b[i], back, After(false, i));
    OneByte(x, back, After(false, i));
  }

  lemma OneByte(x: Byte, rest: Bytes, low: bool)
    ensures Sum([x] + rest, low) == Weight(x, low) + Sum(rest, !low)
  {
    assert ([x] + rest)[1..] == rest;
  }

  lemma NotAMultiple(n: nat, d: int)
    requires n % 0xFFFF == 0 && 0 <= n + d && d != 0 && -0xFFFF < d < 0xFFFF
    ensures (n + d) % 0xFFFF != 0
  {
    SameRest(n, d);
  }

  /** Changing one byte of bytes that verify makes them fail. */
  lemma OneByteFound(b: Bytes, i: nat, x: Byte, pseudo: nat)
    requires |b| <= 0xFFFF && pseudo <= 5 * 0xFFFF && i < |b| && x != b[i]
    requires Value((pseudo + Sum(b, false)) % TWO32) == 0
    ensures Value((pseudo + Sum(b[i := x], false)) % TWO32) != 0
  {
    hide Sum, Value;
    NoOverflow(b, pseudo);
    NoOverflow(b[i := x], pseudo);
    SumChanged(b, i, x);
    VerifiesIff(pseudo + Sum(b, false));
    VerifiesIff(pseudo + Sum(b[i := x], false));
    NotAMultiple(pseudo + Sum(b, false), Sum(b[i := x], false) - Sum(b, false));
  }

  /** So no segment that is accepted is still accepted after a change of one byte. */
  lemma SegmentErrorFound(b: Bytes, i: nat, x: Byte, pseudo: nat)
    requires |b| <= 0xFFFF && pseudo <= 5 * 0xFFFF && i < |b| && x != b[i] && ParseSegment(b, pseudo).Ok?
    ensures ParseSegment(b[i := x], pseudo) == Failed(BadChecksum)
  {
    hide Sum, Value, TcpLayout;
    OneByteFound(b, i, x, pseudo);
  }

  /** Nor does a datagram's header still pass after a change of one of its bytes, unless that
      changes where the header ends. */
  lemma HeaderErrorFound(b: Bytes, i: nat, x: Byte)
    requires CheckIPv4(b) == NoError && i < 4 * IPv4Layout(b).hlen && x != b[i]
    requires i == 0 ==> x as int % 16 == IPv4Layout(b).hlen
    ensures CheckIPv4(b[i := x]) != NoError
  {
    hide Sum, Value, Get16, Get32;
    var n := 4 * IPv4Layout(b).hlen;
    assert IPv4Layout(b[i := x]).hlen == IPv4Layout(b).hlen;
    assert b[i := x][..n] == b[..n][i := x];
    OneByteFound(b[..n], i, x, 0);
  }

  /** That does happen: the header grows by four bytes of a payload that make up for the change. */
  lemma LongerHeaderNotFound(b: Bytes)
    requires CheckIPv4(b) == NoError && IPv4Layout(b).hlen == 5 && |b| >= 24 && b[20..24] == [0xFE, 0xFF, 0, 0]
    ensures CheckIPv4(b[0 := 0x46]) == NoError
  {
    hide Sum, Value, Get16, Get32;
    var b' := b[0 := 0x46];
    var more: Bytes := [0xFE, 0xFF, 0, 0];
    assert b[0] == 0x45;
    assert IPv4Layout(b').hlen == 6 && IPv4Layout(b').ver == 4 && IPv4Layout(b').len == IPv4Layout(b).len by { FieldsApart(b, b'); }
    assert b'[..24] == b[..20][0 := 0x46] + more;
    SumChanged(b[..20], 0, 0x46);
    SumConcat(b[..20][0 := 0x46], more, false);
    FourBytes();
    assert Sum(b'[..24], false) == Sum(b[..20], false) + 0xFFFF;
    NoOverflow(b[..20], 0);
    NoOverflow(b'[..24], 0);
    VerifiesIff(Sum(b[..20], false));
    VerifiesIff(Sum(b'[..24], false));
  }

  lemma FieldsApart(b: Bytes, b': Bytes)
    requires |b| >= IP_LENGTH && b[0] == 0x45 && b' == b[0 := 0x46]
    ensures IPv4Layout(b').hlen == 6 && IPv4Layout(b').ver == 4 && IPv4Layout(b').len == IPv4Layout(b).len
  {
  }

  lemma FourBytes()
    ensures Sum([0xFE, 0xFF, 0, 0], false) == 65279
  {
    hide Sum;
    TcpOverIp.EmptySum();
    PairSum(0, 0, []);
    PairSum(0xFE, 0xFF, [0, 0]);
    assert [0, 0] + [] == [0, 0] && [0xFE, 0xFF] + [0, 0] == [0xFE, 0xFF, 0, 0];
  }

  // ---------------------------------------------------------------- examples

  const EMPTY := Datagram(DEFAULT_IP.(len := 20), [])

  /** An empty datagram with a zero checksum, of version six, with a header of four words, of
      fifteen words, and of six words: the five verdicts, and every one of them accepted. */
  lemma RejectedHeadersAccepted()
    ensures
      var b := IPv4Bytes(EMPTY.header);
      CheckIPv4(b) == BadChecksum && ParseDatagram(b).Ok?
    ensures
      var b := IPv4Fixed(EMPTY.header.(ver := 6));
      CheckIPv4(b) == WrongIPVersion && ParseDatagram(b).Ok?
    ensures
      var b := IPv4Fixed(EMPTY.header.(hlen := 4, len := 16));
      CheckIPv4(b) == HeaderTooShort && ParseDatagram(b).Ok?
    ensures
      var b := IPv4Fixed(EMPTY.header.(hlen := 15, len := 60));
      CheckIPv4(b) == PacketTooShort && ParseDatagram(b).Ok?
    ensures
      var b := IPv4Fixed(EMPTY.header.(hlen := 6, len := 28)) + [0, 0, 0, 0];
      CheckIPv4(b) == TruncatedPacket && ParseDatagram(b).Ok?
  {
    hide IPv4Layout, IPv4Fixed, Sum, Value, CheckIPv4, ParseDatagram, HeaderChecksum;
    var none: Bytes := [];
    assert forall x: Bytes :: x + none == x;
    AnyChecksumAccepted(EMPTY, 0);
    NotZero();
    WrongHeaderAccepted(EMPTY.header.(ver := 6), none);
    WrongHeaderAccepted(EMPTY.header.(hlen := 4, len := 16), none);
    WrongHeaderAccepted(EMPTY.header.(hlen := 15, len := 60), none);
    WrongHeaderAccepted(EMPTY.header.(hlen := 6, len := 28), [0, 0, 0, 0]);
  }

  lemma {:induction false} ZerosSum(n: nat, low: bool)
    ensures Sum(Zeros(n), low) == 0
    decreases n
  {
    if n > 0 {
      assert Zeros(n)[1..] == Zeros(n - 1);
      ZerosSum(n - 1, !low);
    }
  }

  const WORDS: Bytes := [0x45, 0, 0, 20, 0, 0, 0x40, 0, 0x80, 6]

  lemma EmptyBytes()
    ensures IPv4Bytes(EMPTY.header) == WORDS + Zeros(10)
  {
  }

  lemma WordsSum()
    ensures Sum(WORDS, false) == 66842
  {
    hide Sum;
    TcpOverIp.EmptySum();
    var b4: Bytes := [0x80, 6];
    var b3: Bytes := [0x40, 0, 0x80, 6];
    var b2: Bytes := [0, 0, 0x40, 0, 0x80, 6];
    var b1: Bytes := [0, 20, 0, 0, 0x40, 0, 0x80, 6];
    PairSum(0x80, 6, []);
    assert [0x80, 6] + [] == b4;
    PairSum(0x40, 0, b4);
    assert [0x40, 0] + b4 == b3;
    PairSum(0, 0, b3);
    assert [0, 0] + b3 == b2;
    PairSum(0, 20, b2);
    assert [0, 20] + b2 == b1;
    PairSum(0x45, 0, b1);
    assert [0x45, 0] + b1 == WORDS;
  }

  lemma EmptyDatagramSum()
    ensures Sum(IPv4Bytes(EMPTY.header), false) == 66842
  {
    hide Sum, IPv4Bytes;
    EmptyBytes();
    WordsSum();
    ZerosSum(10, After(false, |WORDS|));
    SumConcat(WORDS, Zeros(10), false);
  }

  lemma EmptyChecksum()
    ensures HeaderChecksum(EMPTY.header) == Value(66842)
  {
    hide Sum, Value, IPv4Bytes;
    EmptyDatagramSum();
    assert EMPTY.header.(cksum := 0) == EMPTY.header;
  }

  lemma NotZero()
    ensures (0 - HeaderChecksum(EMPTY.header)) % 0xFFFF != 0
  {
    hide Sum, Value, HeaderChecksum;
    EmptyChecksum();
    assert Value(66842) != 0 by { VerifiesIff(66842); }
    OnlyChecksums(66842, 0);
  }
}
