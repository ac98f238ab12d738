/** What `NetworkInterface` computes, as functions of its state: an ARP cache with expiry, and a
    queue of datagrams that wait for the address of their next hop. */
module Arp {
  import opened Basics

  type Ethernet = x: int | 0 <= x < 0x1_0000_0000_0000

  const BROADCAST: Ethernet := 0xFFFF_FFFF_FFFF
  const OPCODE_REQUEST: U16 := 1
  const OPCODE_REPLY: U16 := 2
  const ENTRY_TTL: nat := 30000
  const REQUEST_TTL: nat := 5000

  datatype ArpMessage = ArpMessage(opcode: U16, senderEthernet: Ethernet, senderIp: U32, targetEthernet: Ethernet, targetIp: U32)

  /** The payload by frame type; `None` is one that does not parse. */
  datatype Payload = IPv4(datagram: Option<Bytes>) | ARP(message: Option<ArpMessage>) | Other

  datatype Frame = Frame(dst: Ethernet, src: Ethernet, payload: Payload)

  datatype Entry = Entry(ethernet: Ethernet, ttl: nat)

  /** A datagram and the hop it is to be sent to. */
  datatype Parcel = Parcel(hop: U32, datagram: Bytes)

  datatype Interface = Interface(
    ethernet: Ethernet,
    ip: U32,
    framesOut: seq<Frame>,
    table: map<U32, Entry>,
    pending: map<U32, nat>,
    waiting: seq<Parcel>)

  function NewInterface(ethernet: Ethernet, ip: U32): Interface
  {
    Interface(ethernet, ip, [], map[], map[], [])
  }

  function Request(i: Interface, hop: U32): Frame
  {
    Frame(BROADCAST, i.ethernet, ARP(Some(ArpMessage(OPCODE_REQUEST, i.ethernet, i.ip, 0, hop))))
  }

  function Reply(i: Interface, m: ArpMessage): Frame
  {
    Frame(m.senderEthernet, i.ethernet, ARP(Some(ArpMessage(OPCODE_REPLY, i.ethernet, i.ip, m.senderEthernet, m.senderIp))))
  }

  function DataFrame(i: Interface, dst: Ethernet, datagram: Bytes): Frame
  {
    Frame(dst, i.ethernet, IPv4(Some(datagram)))
  }

  /** `send_datagram`: send it if the hop is known, else ask for the hop unless that has been done
      already, and let the datagram wait. */
  function SendDatagram(i: Interface, p: Parcel): Interface
  {
    if p.hop in i.table then
      i.(framesOut := i.framesOut + [DataFrame(i, i.table[p.hop].ethernet, p.datagram)])
    else
      var i1 := if p.hop in i.pending then i
                else i.(framesOut := i.framesOut + [Request(i, p.hop)], pending := i.pending[p.hop := REQUEST_TTL]);
      i1.(waiting := i1.waiting + [p])
  }

  /** The parcels for one hop, in order. */
  function For(parcels: seq<Parcel>, hop: U32): seq<Parcel>
  {
    if parcels == [] then []
    else if parcels[|parcels| - 1].hop == hop then For(parcels[..|parcels| - 1], hop) + [parcels[|parcels| - 1]]
    else For(parcels[..|parcels| - 1], hop)
  }

  /** The parcels for all other hops, in order. */
  function NotFor(parcels: seq<Parcel>, hop: U32): seq<Parcel>
  {
    if parcels == [] then []
    else if parcels[|parcels| - 1].hop != hop then NotFor(parcels[..|parcels| - 1], hop) + [parcels[|parcels| - 1]]
    else NotFor(parcels[..|parcels| - 1], hop)
  }

  function DataFrames(i: Interface, dst: Ethernet, parcels: seq<Parcel>): seq<Frame>
  {
    seq(|parcels|, k requires 0 <= k < |parcels| => DataFrame(i, dst, parcels[k].datagram))
  }

  /** The message is a request for our address, or a reply to us. */
  predicate Valid(i: Interface, m: ArpMessage)
  {
    (m.opcode == OPCODE_REQUEST && m.targetIp == i.ip) || (m.opcode == OPCODE_REPLY && m.targetEthernet == i.ethernet)
  }

  /** What a valid message teaches: remember the sender, and send what has been waiting for it. */
  function Learn(i: Interface, m: ArpMessage): Interface
  {
    i.(table := i.table[m.senderIp := Entry(m.senderEthernet, ENTRY_TTL)],
       framesOut := i.framesOut + DataFrames(i, m.senderEthernet, For(i.waiting, m.senderIp)),
       waiting := NotFor(i.waiting, m.senderIp),
       pending := i.pending - {m.senderIp})
  }

  function HearArp(i: Interface, m: ArpMessage): Interface
  {
    if !Valid(i, m) then i
    else
      Learn(if m.opcode == OPCODE_REQUEST && m.targetIp == i.ip
            then i.(framesOut := i.framesOut + [Reply(i, m)]) else i, m)
  }

  predicate ForUs(i: Interface, f: Frame)
  {
    f.dst == i.ethernet || f.dst == BROADCAST
  }

  /** `recv_frame` */
  function RecvFrame(i: Interface, f: Frame): (Interface, Option<Bytes>)
  {
    if !ForUs(i, f) then (i, None)
    else
      match f.payload
      case IPv4(datagram) => (i, datagram)
      case ARP(Some(m)) => (HearArp(i, m), None)
      case ARP(None) => (i, None)
      case Other => (i, None)
  }

  // ---------------------------------------------------------------- time

  function Aged(table: map<U32, Entry>, ms: nat): map<U32, Entry>
  {
    map ip | ip in table && table[ip].ttl > ms :: table[ip].(ttl := table[ip].ttl - ms)
  }

  predicate IsLeast(s: set<U32>, m: U32)
  {
    m in s && forall x :: x in s ==> m <= x
  }

  lemma {:induction false} LeastExists(s: set<U32>)
    requires s != {}
    ensures exists m :: IsLeast(s, m)
  {
    var a :| a in s;
    if s == {a} {
      assert IsLeast(s, a);
    } else {
      LeastExists(s - {a});
      var m :| IsLeast(s - {a}, m);
      var least := if a <= m then a else m;
      forall x | x in s
        ensures least <= x
      {
        assert x != a ==> x in s - {a};
      }
      assert IsLeast(s, least);
    }
  }

  function Least(s: set<U32>): (m: U32)
    requires s != {}
    ensures IsLeast(s, m)
  {
    LeastExists(s);
    var m :| IsLeast(s, m);
    m
  }

  /** The elements in ascending order, as an ordered map lists its keys. */
  function Ascending(s: set<U32>): seq<U32>
    decreases |s|
  {
    if s == {} then [] else [Least(s)] + Ascending(s - {Least(s)})
  }

  /** The hops whose request has run out, in ascending order. */
  function Expired(pending: map<U32, nat>, keys: seq<U32>, ms: nat): seq<U32>
  {
    if keys == [] then []
    else if keys[|keys| - 1] in pending && pending[keys[|keys| - 1]] <= ms
    then Expired(pending, keys[..|keys| - 1], ms) + [keys[|keys| - 1]]
    else Expired(pending, keys[..|keys| - 1], ms)
  }

  /** Every pending timer after `ms`, with those that had run out started again. */
  function Rearmed(pending: map<U32, nat>, ms: nat): map<U32, int>
  {
    map ip | ip in pending :: if pending[ip] <= ms then REQUEST_TTL - ms else pending[ip] - ms
  }

  function Requests(i: Interface, hops: seq<U32>): seq<Frame>
  {
    seq(|hops|, k requires 0 <= k < |hops| => Request(i, hops[k]))
  }

  /** Some pending request has run out. */
  predicate AnyExpired(i: Interface, ms: nat)
  {
    exists ip :: ip in i.pending && i.pending[ip] <= ms
  }

  function Positive(pending: map<U32, int>): map<U32, nat>
    requires forall ip :: ip in pending ==> 0 <= pending[ip]
  {
    map ip | ip in pending :: pending[ip]
  }

  /** `tick`: a request that has run out is repeated and its timer is set to five seconds, which
      the same tick then subtracts from again. After five seconds or more that never ends. */
  function Tick(i: Interface, ms: nat): Outcome<Interface>
  {
    if ms >= REQUEST_TTL && AnyExpired(i, ms) then Hang
    else
      Done(i.(table := Aged(i.table, ms),
              pending := Positive(Rearmed(i.pending, ms)),
              framesOut := i.framesOut + Requests(i, Expired(i.pending, Ascending(i.pending.Keys), ms))))
  }
}
