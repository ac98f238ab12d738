/** The object `NetworkInterface`, which updates its maps and its list of datagrams in place. */
module NetworkInterfaces {
  import opened Basics
  import opened Arp
  import opened ArpLoop

  /** The table when the addresses in `done` have been aged. */
  ghost function AgedSome(table: map<U32, Entry>, done: seq<U32>, ms: nat): map<U32, Entry>
  {
    map ip | ip in table && (ip in done ==> table[ip].ttl > ms) ::
      if ip in done then table[ip].(ttl := table[ip].ttl - ms) else table[ip]
  }

  lemma AgedOne(table: map<U32, Entry>, done: seq<U32>, ip: U32, ms: nat)
    requires ip in table && ip !in done
    ensures ip in AgedSome(table, done, ms) && AgedSome(table, done, ms)[ip] == table[ip]
    ensures
      AgedSome(table, done + [ip], ms) ==
      if table[ip].ttl <= ms then AgedSome(table, done, ms) - {ip}
      else AgedSome(table, done, ms)[ip := table[ip].(ttl := table[ip].ttl - ms)]
  {
  }

  lemma AgedNoneAndAll(table: map<U32, Entry>, keys: seq<U32>, ms: nat)
    requires forall ip :: ip in table ==> ip in keys
    ensures AgedSome(table, [], ms) == table && AgedSome(table, keys, ms) == Aged(table, ms)
  {
  }

  lemma RequestsAppend(i: Interface, hops: seq<U32>, hop: U32)
    ensures Requests(i, hops + [hop]) == Requests(i, hops) + [Request(i, hop)]
  {
  }

  lemma ForAppend(parcels: seq<Parcel>, p: Parcel, hop: U32)
    ensures For(parcels + [p], hop) == if p.hop == hop then For(parcels, hop) + [p] else For(parcels, hop)
    ensures NotFor(parcels + [p], hop) == if p.hop == hop then NotFor(parcels, hop) else NotFor(parcels, hop) + [p]
  {
    assert (parcels + [p])[..|parcels|] == parcels;
  }

  class NetworkInterface {
    const ethernet: Ethernet
    const ip: U32
    var framesOut: seq<Frame>
    var table: map<U32, Entry>
    var pending: map<U32, nat>
    var waiting: seq<Parcel>

    ghost function Model(): Interface
      reads this
    {
      Interface(ethernet, ip, framesOut, table, pending, waiting)
    }

    constructor (ethernet: Ethernet, ip: U32)
      ensures Model() == NewInterface(ethernet, ip)
    {
      this.ethernet, this.ip := ethernet, ip;
      framesOut, table, pending, waiting := [], map[], map[], [];
    }

    method SendDatagram(datagram: Bytes, hop: U32)
      modifies this
      ensures Model() == Arp.SendDatagram(old(Model()), Parcel(hop, datagram))
    {
      if hop !in table {
        if hop !in pending {
          var request := ArpMessage(OPCODE_REQUEST, ethernet, ip, 0, hop);
          framesOut := framesOut + [Frame(BROADCAST, ethernet, ARP(Some(request)))];
          pending := pending[hop := REQUEST_TTL];
        }
        waiting := waiting + [Parcel(hop, datagram)];
      } else {
        framesOut := framesOut + [Frame(table[hop].ethernet, ethernet, IPv4(Some(datagram)))];
      }
    }

    /** Walk the list of waiting datagrams: send and erase those for the hop that is now known. */
    method Flush(hop: U32)
      requires hop in table
      modifies this`framesOut, this`waiting
      ensures waiting == NotFor(old(waiting), hop)
      ensures framesOut == old(framesOut) + DataFrames(old(Model()), table[hop].ethernet, For(old(waiting), hop))
    {
      hide For, NotFor, DataFrames;
      ghost var i := Model();
      ghost var dst := table[hop].ethernet;
      ghost var n := 0;
      var k := 0;
      assert i.waiting[..0] == [];
      assert framesOut == i.framesOut + DataFrames(i, dst, []) by { hide *; NoDataFrames(i, dst); }
      assert For([], hop) == [] && NotFor([], hop) == [] by { hide *; NothingFor(hop); }
      while k < |waiting|
        invariant 0 <= k <= |waiting| && 0 <= n <= |i.waiting|
        invariant waiting[..k] == NotFor(i.waiting[..n], hop)
        invariant waiting[k..] == i.waiting[n..]
        invariant framesOut == i.framesOut + DataFrames(i, dst, For(i.waiting[..n], hop))
        decreases |waiting| - k
      {
        var p := waiting[k];
        assert p == i.waiting[n];
        assert i.waiting[..n + 1] == i.waiting[..n] + [p];
        ForAppend(i.waiting[..n], p, hop);
        Erased(i.waiting, n);
        Erased(waiting, k);
        if p.hop == hop {
          framesOut := framesOut + [Frame(table[hop].ethernet, ethernet, IPv4(Some(p.datagram)))];
          waiting := waiting[..k] + waiting[k + 1..];
          DataFramesAppend(i, dst, For(i.waiting[..n], hop), p);
        } else {
          k := k + 1;
          assert waiting[..k] == waiting[..k - 1] + [p];
        }
        n := n + 1;
      }
      assert n == |i.waiting| by { assert |waiting[k..]| == |i.waiting[n..]|; }
      assert i.waiting[..n] == i.waiting;
      assert waiting[..k] == waiting;
    }

    method RecvFrame(frame: Frame) returns (datagram: Option<Bytes>)
      modifies this
      ensures (Model(), datagram) == Arp.RecvFrame(old(Model()), frame)
    {
      hide For, NotFor;
      if frame.dst != ethernet && frame.dst != BROADCAST {
        return None;
      }
      if frame.payload.IPv4? {
        return frame.payload.datagram;
      }
      if frame.payload.ARP? && frame.payload.message.Some? {
        var m := frame.payload.message.value;
        var isRequest := m.opcode == OPCODE_REQUEST && m.targetIp == ip;
        var isReply := m.opcode == OPCODE_REPLY && m.targetEthernet == ethernet;
        if isRequest {
          var reply := ArpMessage(OPCODE_REPLY, ethernet, ip, m.senderEthernet, m.senderIp);
          framesOut := framesOut + [Frame(m.senderEthernet, ethernet, ARP(Some(reply)))];
        }
        if isRequest || isReply {
          ghost var i := Model();
          table := table[m.senderIp := Entry(m.senderEthernet, ENTRY_TTL)];
          ghost var i1 := Model();
          Flush(m.senderIp);
          assert DataFrames(i1, m.senderEthernet, For(i.waiting, m.senderIp)) == DataFrames(i, m.senderEthernet, For(i.waiting, m.senderIp));
          pending := pending - {m.senderIp};
        }
      }
      datagram := None;
    }

    /** The first loop of `tick`: age the table. */
    method AgeTable(ms: nat)
      modifies this`table
      ensures table == Aged(old(table), ms)
    {
      hide AgedSome, Aged, Ascending;
      ghost var start := table;
      var keys := Ascending(table.Keys);
      AscendingIs(table.Keys);
      AgedNoneAndAll(start, keys, ms);
      var k := 0;
      assert keys[..0] == [];
      while k < |keys|
        invariant 0 <= k <= |keys| && table == AgedSome(start, keys[..k], ms)
      {
        var address := keys[k];
        assert address in keys;
        assert address !in keys[..k];
        assert keys[..k + 1] == keys[..k] + [address];
        AgedOne(start, keys[..k], address, ms);
        if table[address].ttl <= ms {
          table := table - {address};
        } else {
          table := table[address := table[address].(ttl := table[address].ttl - ms)];
        }
        k := k + 1;
      }
      assert keys[..k] == keys;
    }

    /** One iteration of the second loop of `tick`: repeat the request and start its timer again. */
    method AskAgain(hop: U32)
      requires hop in pending
      modifies this`framesOut, this`pending
      ensures framesOut == old(framesOut) + [Request(old(Model()), hop)]
      ensures pending == old(pending)[hop := REQUEST_TTL]
    {
      var request := ArpMessage(OPCODE_REQUEST, ethernet, ip, 0, hop);
      framesOut := framesOut + [Frame(BROADCAST, ethernet, ARP(Some(request)))];
      pending := pending[hop := REQUEST_TTL];
    }

    /** The second loop of `tick`. It does not move on after repeating a request; when the timer it
        has just started has run out again, it would repeat it for ever: `hung`. */
    method AgePending(ms: nat) returns (hung: bool)
      modifies this`framesOut, this`pending
      ensures hung <==> Arp.Tick(old(Model()), ms).Hang?
      ensures !hung ==>
        && pending == Arp.Tick(old(Model()), ms).value.pending
        && framesOut == old(framesOut) + Requests(old(Model()), Expired(old(pending), Ascending(old(pending).Keys), ms))
    {
      hide Ascending, Expired, Requests, Arp.Tick, Bound;
      ghost var i := Model();
      hung := false;
      var keys := Ascending(pending.Keys);
      AscendingIs(pending.Keys);
      assert Bound(i, keys, ms, At(0, pending, [])) by { hide *; BoundAtStart(i, ms); }
      ghost var asked: seq<U32> := [];
      assert framesOut == i.framesOut + Requests(i, asked) by { hide *; NoRequests(i); }
      var k := 0;
      while k < |keys|
        invariant 0 <= k <= |keys| && pending.Keys == i.pending.Keys
        invariant Bound(i, keys, ms, At(k, pending, asked))
        invariant framesOut == i.framesOut + Requests(i, asked)
        decreases |keys| - k, k < |keys| && keys[k] in pending && pending[keys[k]] <= ms
      {
        var hop := keys[k];
        assert hop in keys;
        StepOn(i, keys, ms, At(k, pending, asked));
        if pending[hop] <= ms {
          if REQUEST_TTL <= ms {
            StaysOn(i, keys, ms, At(k, pending, asked));
            hung := true;
            return;
          }
          AskAgain(hop);
          RequestsAppend(i, asked, hop);
          asked := asked + [hop];
        } else {
          pending := pending[hop := pending[hop] - ms];
          k := k + 1;
        }
      }
      LoopDone(i, keys, ms, At(k, pending, asked));
    }

    method Tick(ms: nat) returns (hung: bool)
      modifies this
      ensures hung <==> Arp.Tick(old(Model()), ms).Hang?
      ensures !hung ==> Arp.Tick(old(Model()), ms) == Done(Model())
    {
      hide Aged, Expired, Ascending;
      ghost var i := Model();
      AgeTable(ms);
      assert Requests(Model(), Expired(i.pending, Ascending(i.pending.Keys), ms)) == Requests(i, Expired(i.pending, Ascending(i.pending.Keys), ms));
      hung := AgePending(ms);
    }
  }

  /** Where the loop is bound to go from here: on for ever, or to the end that `Tick` describes. */
  ghost predicate Bound(i: Interface, keys: seq<U32>, ms: nat, c: Config)
  {
    match Arp.Tick(i, ms)
    case Hang => Diverges(keys, ms, c)
    case Done(i') => Reaches(keys, ms, c, End(i'.pending, Expired(i.pending, keys, ms)))
  }

  lemma BoundAtStart(i: Interface, ms: nat)
    ensures Bound(i, Ascending(i.pending.Keys), ms, At(0, i.pending, []))
  {
    hide Ascending, Expired, Diverges, Reaches, Arp.Tick;
    LoopIsTick(i, ms);
  }

  lemma StepOn(i: Interface, keys: seq<U32>, ms: nat, c: Config)
    requires Bound(i, keys, ms, c) && c.At?
    ensures Bound(i, keys, ms, Step(keys, ms, c))
  {
    hide Reaches, Diverges, Step, Expired, Arp.Tick;
    match Arp.Tick(i, ms) {
      case Hang => DivergesOn(keys, ms, c);
      case Done(i') => ReachesOn(keys, ms, c, End(i'.pending, Expired(i.pending, keys, ms)));
    }
  }

  lemma StaysOn(i: Interface, keys: seq<U32>, ms: nat, c: Config)
    requires Bound(i, keys, ms, c) && Increasing(keys) && ms >= REQUEST_TTL
    requires c.At? && c.k < |keys| && keys[c.k] in c.pending && c.pending[keys[c.k]] <= ms
    ensures Arp.Tick(i, ms).Hang?
  {
    hide Iterate, Step, Expired, Arp.Tick;
    assert Diverges(keys, ms, c) by {
      forall n: nat ensures Iterate(keys, ms, c, n).At? { Stays(keys, ms, c, c.k, n); }
    }
    if Arp.Tick(i, ms).Done? {
      EndsOrStays(keys, ms, c, End(Arp.Tick(i, ms).value.pending, Expired(i.pending, keys, ms)));
    }
  }

  lemma LoopDone(i: Interface, keys: seq<U32>, ms: nat, c: Config)
    requires Bound(i, keys, ms, c) && c.At? && c.k == |keys|
    ensures Arp.Tick(i, ms).Done?
    ensures c.pending == Arp.Tick(i, ms).value.pending && c.asked == Expired(i.pending, keys, ms)
  {
    hide Iterate, Expired, Arp.Tick;
    StepOn(i, keys, ms, c);
    var e := End(c.pending, c.asked);
    assert Step(keys, ms, c) == e;
    if Arp.Tick(i, ms).Hang? {
      DivergesOn(keys, ms, c);
    } else {
      var n: nat :| Iterate(keys, ms, e, n) == End(Arp.Tick(i, ms).value.pending, Expired(i.pending, keys, ms));
      EndStays(keys, ms, e, n);
    }
  }

  lemma NoRequests(i: Interface)
    ensures i.framesOut == i.framesOut + Requests(i, [])
  {
  }

  lemma NothingFor(hop: U32)
    ensures For([], hop) == [] && NotFor([], hop) == []
  {
  }

  lemma NoDataFrames(i: Interface, dst: Ethernet)
    ensures i.framesOut == i.framesOut + DataFrames(i, dst, [])
  {
  }

  lemma Erased(parcels: seq<Parcel>, k: nat)
    requires k < |parcels|
    ensures (parcels[..k] + parcels[k + 1..])[..k] == parcels[..k]
    ensures (parcels[..k] + parcels[k + 1..])[k..] == parcels[k..][1..] == parcels[k + 1..]
  {
  }

  lemma DataFramesAppend(i: Interface, dst: Ethernet, parcels: seq<Parcel>, p: Parcel)
    ensures DataFrames(i, dst, parcels + [p]) == DataFrames(i, dst, parcels) + [DataFrame(i, dst, p.datagram)]
  {
  }
}
