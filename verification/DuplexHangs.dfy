/** Exactly when a call of a connection does not return, in runs of two of them. */
module DuplexHangs {
  import opened Basics
  import opened ByteStreams
  import opened Segments
  import opened WrappingIntegers
  import opened Reassembly
  import opened ReassemblyTheorems
  import opened ReassemblyDrains
  import opened ScanLoop
  import opened Sending
  import opened SendingTheorems
  import opened Receiving
  import opened DeliveryTheorems
  import opened Connections
  import opened ConnectionTheorems
  import opened Duplex
  import opened DuplexTheorems
  import opened DuplexSteps

  // ---------------------------------------------------------------- the receiver

  /** The receiver takes the SYN, if this is the first. */
  function Opened(r: Receiver, seg: Segment): Receiver
  {
    if r.listening then r.(listening := false, isn := seg.header.seqno) else r
  }

  /** What the receiver pushes for a segment. */
  function Substring(r: Receiver, seg: Segment): Datagram
  {
    var at := Unwrap(seg.header.seqno, r.isn, r.number);
    Datagram(seg.payload, if at > 0 then at - 1 else at, seg.header.fin)
  }

  /** The receiver pushes something for the segment, and the push never returns. */
  ghost predicate Chokes(r: Receiver, seg: Segment)
  {
    && (r.listening ==> seg.header.syn)
    && var r1 := Opened(r, seg);
       && !(r1.number == 1 && Unwrap(seg.header.seqno, r1.isn, r1.number) < 1)
       && Jammed(r1.reassembler, Substring(r1, seg))
  }

  lemma ReceivedHangsIff(whole: Bytes, r: Receiver, seg: Segment)
    requires Inv(whole, r.reassembler)
    requires (r.listening ==> seg.header.syn) && r.Out().Remaining() > 0 ==>
      Good(whole, Edge(r.reassembler), Substring(Opened(r, seg), seg))
    ensures SegmentReceived(r, seg).Hang? <==> Chokes(r, seg)
  {
    hide Push, Unwrap, Good, Jammed;
    var r1 := Opened(r, seg);
    if r.Out().Remaining() > 0 {
      if r.listening ==> seg.header.syn {
        PushHangsIff(whole, r1.reassembler, Substring(r1, seg));
      }
    } else {
      FullReturns(r1.reassembler, Substring(r1, seg));
    }
  }

  lemma FullReturns(r: Reassembler, dg: Datagram)
    requires r.out.Valid() && r.out.Remaining() == 0
    ensures Push(r, dg).Done? && !Jammed(r, dg)
  {
  }

  /** What a timely packet makes the receiver push fits. */
  lemma SubstringFits(s: Sender, r: Receiver, seg: Segment, n: nat)
    requires Half(s, r) && DuplexTheorems.At(s, seg, n) && Near(n, r.number) && s.next < TWO63
    requires (r.listening ==> seg.header.syn) && r.Out().Remaining() > 0
    ensures Good(s.stream.written, Edge(r.reassembler), Substring(Opened(r, seg), seg))
  {
    hide Unwrap, Wrap, Truthful, SeqLen, Start, Slice, Flight, FlowOk;
    if seg.Len() == 0 {
      assert Harmless(Substring(Opened(r, seg), seg));
    } else {
      var i: nat :| i < |s.sent| && Matches(seg, s.sent[i]) && Start(s.sent, i) == n;
      SynOk(s);
      if i == 0 {
        assert Harmless(Substring(Opened(r, seg), seg));
      } else {
        PieceOk(s, i);
        NumberSmall(s, r, i);
        UnwrapWrapIff(n, s.isn, r.number);
        PieceFits(s, r, i);
      }
    }
  }

  /** A late empty segment: the call never returns exactly when the number of the segment is the
      start of a stored datagram that carries bytes, and everything stored in front of that ends
      right there. */
  lemma EmptyHangsIff(s: Sender, r: Receiver, seg: Segment, n: nat)
    requires Half(s, r) && !r.listening && n <= s.next < TWO63 && Near(n, r.number)
    requires seg.Len() == 0 && seg.header.seqno == Wrap(n, s.isn)
    ensures
      SegmentReceived(r, seg).Hang?
      <==> r.Out().Remaining() > 0 && r.reassembler.next < n - 1 && Touched(r.reassembler.store, n - 1)
  {
    hide Unwrap, Wrap, SenderInv, FlowOk, Slice, Push;
    var q, d := r.reassembler, Datagram([], if n > 0 then n - 1 else n, false);
    UnwrapWrapIff(n, s.isn, r.number);
    assert Substring(r, seg) == d;
    ReceivedHangsIff(s.stream.written, r, seg);
    if r.Out().Remaining() > 0 && q.next < n - 1 {
      TouchingBlocks(q.store, n - 1);
      if Touched(q.store, n - 1) {
        var k := TouchedAt(q.store, n - 1);
        assert q.store[k] in q.store && Good(s.stream.written, Edge(q), q.store[k]);
      }
    }
  }

  ghost predicate BehindTouching(store: Store, index: nat, k: nat)
  {
    && k < |store| && store[k].index == index && store[k].data != []
    && forall j :: 0 <= j < k ==> store[j].index < index == store[j].Tail()
  }

  ghost predicate Touched(store: Store, index: nat)
  {
    exists k: nat :: BehindTouching(store, index, k)
  }

  lemma TouchedAt(store: Store, index: nat) returns (k: nat)
    requires Touched(store, index)
    ensures BehindTouching(store, index, k)
  {
    k :| BehindTouching(store, index, k);
  }

  lemma TouchingBlocks(store: Store, index: nat)
    ensures Blocked(store, Datagram([], index, false)) <==> Touched(store, index)
  {
    var d := Datagram([], index, false);
    forall k: nat
      ensures Blocks(store, d, k) <==> BehindTouching(store, index, k)
    {
    }
    if Blocked(store, d) {
      var k: nat :| Blocks(store, d, k);
      assert BehindTouching(store, index, k);
    }
  }

  // ---------------------------------------------------------------- two connections

  lemma PacketHangsIff(c: Connection, p: Connection, packet: Packet)
    requires Mid(c, p) && PacketOk(p, c.sender, packet) && OnTime(p, c, packet)
    requires |p.sender.stream.written| + 3 < TWO63
    ensures Receive(c, packet.seg).Hang? <==> !packet.seg.header.rst && Chokes(c.receiver, packet.seg)
  {
    hide SegmentReceived, Reply, Chokes, Good, FlowOk, Truthful, Flight, Slice, Start, Wrap, Unwrap, QueueOk, OutOk;
    var s, r, seg := p.sender, c.receiver, packet.seg;
    if !seg.header.rst {
      var n: nat :| DuplexTheorems.At(s, seg, n) && Near(n, r.number);
      if (r.listening ==> seg.header.syn) && r.Out().Remaining() > 0 {
        SubstringFits(s, r, seg, n);
      }
      ReceivedHangsIff(s.stream.written, r, seg);
    }
  }

  /** The move delivers a packet that the near receiver chokes on. */
  ghost predicate Strands(d: Pair, move: Move)
  {
    && move.Deliver? && move.packet in d.inbox
    && !move.packet.seg.header.rst && Chokes(d.near.receiver, move.packet.seg)
  }

  lemma ActHangsIff(d: Pair, move: Move)
    requires d.Ready() && DuplexSteps.Agree(d) && DuplexSteps.Timely(d, move) && Bounded(d)
    ensures Act(d, move).Hang? <==> Strands(d, move)
  {
    hide Mid, PacketOk, OnTime, Receive, Chokes, Quiet;
    match move {
      case Local(e) => if !e.Arrival? { KeptLocal(d.near, d.far, e); }
      case Deliver(packet) => if packet in d.inbox { PacketHangsIff(d.near, d.far, packet); }
      case Lose(_) =>
    }
  }

  /** No step of the run delivers a packet that the receiver chokes on. */
  ghost predicate Unstranded(d: Pair, steps: seq<Duplex.Step>)
    requires d.Ready()
    decreases |steps|
  {
    steps != [] ==>
      && !Strands(if steps[0].near then d else d.Swap(), steps[0].move)
      && (Duplex.Advance(d, steps[0]).Done? ==> Unstranded(Duplex.Advance(d, steps[0]).value, steps[1..]))
  }

  lemma AdvanceHangsIff(d: Pair, steps: seq<Duplex.Step>, limit: nat)
    requires d.Ready() && DuplexSteps.Agree(d) && steps != [] && StepTimely(d, steps[0])
    requires Within(d, steps, limit) && limit + 3 < TWO63
    ensures Duplex.Advance(d, steps[0]).Hang? <==> Strands(if steps[0].near then d else d.Swap(), steps[0].move)
  {
    hide Mid, OutboxOk, Act, DuplexSteps.Timely, Strands, Offer;
    if steps[0].near {
      ActHangsIff(d, steps[0].move);
    } else {
      ActHangsIff(d.Swap(), steps[0].move);
    }
  }

  /** Exactly when a timely run returns. */
  lemma {:induction false} RunReturnsIff(d: Pair, steps: seq<Duplex.Step>, limit: nat)
    requires d.Ready() && DuplexSteps.Agree(d) && DuplexSteps.AllTimely(d, steps)
    requires Within(d, steps, limit) && limit + 3 < TWO63
    ensures Duplex.Run(d, steps).Done? <==> Unstranded(d, steps)
    decreases |steps|
  {
    hide DuplexSteps.Agree, Duplex.Advance, StepTimely, Within, Strands;
    if steps != [] {
      AdvanceHangsIff(d, steps, limit);
      if Duplex.Advance(d, steps[0]).Done? {
        AdvanceKeeps(d, steps, limit);
        RunReturnsIff(Duplex.Advance(d, steps[0]).value, steps[1..], limit);
      }
    }
  }
}
