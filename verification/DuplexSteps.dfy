/** Every step of two connections keeps them, and everything in transit, in agreement. */
module DuplexSteps {
  import opened Basics
  import opened ByteStreams
  import opened Segments
  import opened WrappingIntegers
  import opened Reassembly
  import opened ReassemblyTheorems
  import opened Sending
  import opened SendingTheorems
  import opened Receiving
  import opened DeliveryTheorems
  import opened Connections
  import opened ConnectionTheorems
  import opened Duplex
  import opened DuplexTheorems
  import Delivery
  import DeliveryResults

  // ---------------------------------------------------------------- the owner's calls

  /** The connection still agrees with its peer; at most `more` bytes were written. */
  ghost predicate Kept(c: Connection, c': Connection, p: Connection, more: nat)
  {
    && Mid(c', p) && c'.sender.segmentsOut == [] && Forward(c, c')
    && |c'.sender.stream.written| <= |c.sender.stream.written| + more
  }

  lemma KeptWrite(c: Connection, p: Connection, data: Bytes)
    requires Mid(c, p) && Quiet(c) && !c.sender.stream.ended
    ensures Kept(c, Write(c, data), p, |data|)
  {
    hide Truthful, Flight, Linked, FlowOk, FillAndSend, OutOk, Half, Known;
    if data != [] {
      var s := c.sender.(stream := c.sender.stream.Write(data));
      HalfWrite(c.sender, p.receiver, data);
      MidSender(c, p, s);
      MidFillAndSend(c.(sender := s), p);
      assert Forward(c, c.(sender := s));
    }
  }

  lemma KeptEnd(c: Connection, p: Connection)
    requires Mid(c, p) && Quiet(c)
    ensures Kept(c, EndInput(c), p, 0)
  {
    hide Truthful, Flight, Linked, FlowOk, FillAndSend, OutOk, Known;
    var s := c.sender.(stream := c.sender.stream.EndInput());
    EndKeeps(c.sender);
    HalfSame(c.sender, s, p.receiver);
    MidSender(c, p, s);
    MidFillAndSend(c.(sender := s), p);
    SteadyTrans(c, c.(sender := s), EndInput(c));
  }

  /** The retransmitted segment is one of the history. */
  lemma TickQueue(s: Sender, ms: nat)
    requires SenderInv(s) && s.segmentsOut == []
    ensures QueueOk(Sending.Tick(s, ms)) && Further(s, Sending.Tick(s, ms))
  {
    hide Truthful, Start, Known, Sending.Tick;
    TickKeeps(s, ms);
    var s' := Sending.Tick(s, ms);
    forall seg | seg in s'.segmentsOut
      ensures Known(s', seg) && !seg.header.ack
    {
      SentKnown(s', seg);
    }
  }

  lemma MidTick(c: Connection, p: Connection, ms: nat)
    requires Mid(c, p) && Quiet(c)
    ensures
      var c1 := SendSegmentsOut(c.(elapsed := c.elapsed + ms, sender := Sending.Tick(c.sender, ms)));
      Kept(c, c1, p, 0)
  {
    hide Truthful, Flight, Linked, FlowOk, SendSegmentsOut, OutOk, Known, Sending.Tick, QueueOk, Further;
    var s := Sending.Tick(c.sender, ms);
    HalfTick(c.sender, p.receiver, ms);
    TickKeeps(c.sender, ms);
    TickQueue(c.sender, ms);
    MidSender(c, p, s);
    var c1 := c.(elapsed := c.elapsed + ms, sender := s);
    MidSend(c1, p);
    SteadyTrans(c, c1, SendSegmentsOut(c1));
  }

  lemma MidGiveUp(c: Connection, p: Connection)
    requires Mid(c, p) && c.sender.segmentsOut == []
    ensures Kept(c, GiveUp(c), p, 0)
  {
    hide Truthful, Flight, Linked, FlowOk, Half, Known, Further, QueueOk;
    var c1 := c.(segmentsOut := [Reset(c.sender)], elapsed := 0);
    assert Mid(c1, p);
    MidAbort(c1, p);
  }

  lemma KeptTick(c: Connection, p: Connection, ms: nat)
    requires Mid(c, p) && Quiet(c)
    ensures Kept(c, Connections.Tick(c, ms), p, 0)
  {
    hide Truthful, Flight, Linked, FlowOk, Half, Known, Further, QueueOk, GiveUp, SendSegmentsOut, Sending.Tick, Wrap;
    var c1 := SendSegmentsOut(c.(elapsed := c.elapsed + ms, sender := Sending.Tick(c.sender, ms)));
    MidTick(c, p, ms);
    if c1.sender.retransmissions > MAX_RETX_ATTEMPTS {
      MidGiveUp(c1, p);
      ForwardTrans(c, c1, GiveUp(c1));
    }
  }

  lemma KeptRead(c: Connection, p: Connection, len: nat)
    requires Mid(c, p) && Quiet(c)
    ensures Kept(c, ReadInbound(c, len), p, 0)
  {
    hide Truthful, Flight, Linked, FlowOk, Known, Half;
    HalfRead(p.sender, c.receiver, len);
  }

  lemma KeptLocal(c: Connection, p: Connection, e: Event)
    requires Mid(c, p) && Quiet(c) && !e.Arrival?
    ensures Next(c, e).Done? && Kept(c, Next(c, e).value, p, Written(e))
  {
    hide Mid, Forward, Write, EndInput, Connections.Tick, ReadInbound, FillAndSend;
    Idle(c);
    match e {
      case Connect => MidFillAndSend(c, p);
      case WriteData(data) => if !c.sender.stream.ended { KeptWrite(c, p, data); }
      case EndData => KeptEnd(c, p);
      case Clock(ms) => if c.active { KeptTick(c, p, ms); }
      case ReadData(len) => KeptRead(c, p, len);
      case TakeSegment =>
    }
  }

  function Written(e: Event): nat
  {
    if e.WriteData? then |e.data| else 0
  }

  // ---------------------------------------------------------------- the pair

  ghost predicate OutboxOk(from: Connection, to: Sender, box: set<Packet>)
  {
    forall packet :: packet in box ==> PacketOk(from, to, packet)
  }

  /** The pair agrees: each direction on its own, and everything in transit. */
  ghost predicate Agree(d: Pair)
  {
    && Mid(d.near, d.far) && Quiet(d.near)
    && Mid(d.far, d.near) && Quiet(d.far)
    && OutboxOk(d.near, d.far.sender, d.outbox)
    && OutboxOk(d.far, d.near.sender, d.inbox)
  }

  /** No packet that is delivered is too late. */
  ghost predicate Timely(d: Pair, move: Move)
  {
    move.Deliver? && move.packet in d.inbox ==> OnTime(d.far, d.near, move.packet)
  }

  ghost predicate Bounded(d: Pair)
  {
    |d.near.sender.stream.written| + 3 < TWO63 && |d.far.sender.stream.written| + 3 < TWO63
  }

  lemma BoxGrows(from: Connection, from': Connection, to: Sender, to': Sender, box: set<Packet>)
    requires OutboxOk(from, to, box) && Forward(from, from')
    requires to'.isn == to.isn && (to.finSent ==> to'.finSent)
    ensures OutboxOk(from', to', box)
  {
    hide PacketOk, Forward;
    forall packet | packet in box
      ensures PacketOk(from', to', packet)
    {
      PacketGrows(from, from', to, to', packet);
    }
  }

  /** The near connection has gone on to `c`, and what it queued is sent. */
  lemma ShipAgrees(d: Pair, c: Connection, more: nat)
    requires Agree(d) && Kept(d.near, c, d.far, more)
    ensures Agree(Ship(d.(near := c)))
  {
    hide PacketOk, Half, QueueOk, OutOk, Known, Further;
    var d' := Ship(d.(near := c));
    BoxGrows(d.near, c, d.far.sender, d.far.sender, d.outbox);
    Shipped(c, d'.near, d.far, d.outbox, d'.outbox);
    assert OutboxOk(d.far, d'.near.sender, d.inbox) by {
      Idle(d.far);
      assert Further(d.near.sender, c.sender);
      FurtherIsn(d.near.sender, c.sender);
      BoxGrows(d.far, d.far, d.near.sender, c.sender, d.inbox);
    }
  }

  lemma Idle(c: Connection)
    ensures Forward(c, c)
  {
  }

  lemma FurtherIsn(s: Sender, s': Sender)
    requires Further(s, s')
    ensures s'.isn == s.isn
  {
  }

  lemma Shipped(c: Connection, c': Connection, p: Connection, box: set<Packet>, box': set<Packet>)
    requires Mid(c, p) && c' == c.(segmentsOut := []) && OutboxOk(c, p.sender, box)
    requires box' == box + (set seg | seg in c.segmentsOut :: Packet(seg, c.receiver.number))
    ensures OutboxOk(c', p.sender, box')
  {
    hide OutOk, Half, QueueOk, Known;
    forall packet | packet in box'
      ensures PacketOk(c', p.sender, packet)
    {
      if packet !in box {
        OutIsPacket(c, p, packet.seg);
      }
    }
  }

  function Offer(move: Move): nat
  {
    if move.Local? then Written(move.event) else 0
  }

  lemma ActKeeps(d: Pair, move: Move)
    requires d.Ready() && Agree(d) && Timely(d, move) && Bounded(d) && Act(d, move).Done?
    ensures
      var d' := Act(d, move).value;
      && Agree(d') && d'.far == d.far
      && |d'.near.sender.stream.written| <= |d.near.sender.stream.written| + Offer(move)
  {
    hide Mid, PacketOk, OnTime, Receive, ConnectionTheorems.Next, Forward;
    match move {
      case Local(e) =>
        if !e.Arrival? {
          KeptLocal(d.near, d.far, e);
          ShipAgrees(d, ConnectionTheorems.Next(d.near, e).value, Written(e));
        }
      case Deliver(packet) =>
        if packet in d.inbox {
          MidReceive(d.near, d.far, packet);
          assert Kept(d.near, Receive(d.near, packet.seg).value, d.far, 0);
          ShipAgrees(d, Receive(d.near, packet.seg).value, 0);
        }
      case Lose(_) =>
    }
  }

  // ---------------------------------------------------------------- runs

  ghost predicate StepTimely(d: Pair, step: Step)
  {
    if step.near then Timely(d, step.move) else Timely(d.Swap(), step.move)
  }

  /** Nothing arrives more than 2^31 sequence numbers late in the run. */
  ghost predicate AllTimely(d: Pair, steps: seq<Step>)
    requires d.Ready()
    decreases |steps|
  {
    steps != [] ==>
      && StepTimely(d, steps[0])
      && (Duplex.Advance(d, steps[0]).Done? ==> AllTimely(Duplex.Advance(d, steps[0]).value, steps[1..]))
  }

  /** How many bytes the owner of one side offers in the run. */
  function Offered(steps: seq<Step>, near: bool): nat
  {
    if steps == [] then 0
    else (if steps[0].near == near then Offer(steps[0].move) else 0) + Offered(steps[1..], near)
  }

  /** The streams stay below `limit` bytes, whatever is still offered. */
  ghost predicate Within(d: Pair, steps: seq<Step>, limit: nat)
  {
    && |d.near.sender.stream.written| + Offered(steps, true) <= limit
    && |d.far.sender.stream.written| + Offered(steps, false) <= limit
  }

  lemma AdvanceKeeps(d: Pair, steps: seq<Step>, limit: nat)
    requires d.Ready() && Agree(d) && steps != [] && StepTimely(d, steps[0])
    requires Within(d, steps, limit) && limit + 3 < TWO63 && Duplex.Advance(d, steps[0]).Done?
    ensures Agree(Duplex.Advance(d, steps[0]).value) && Within(Duplex.Advance(d, steps[0]).value, steps[1..], limit)
  {
    hide Mid, OutboxOk, Act, Timely, Offer;
    if steps[0].near {
      ActKeeps(d, steps[0].move);
    } else {
      ActKeeps(d.Swap(), steps[0].move);
    }
  }

  lemma {:induction false} RunKeeps(d: Pair, steps: seq<Step>, limit: nat)
    requires d.Ready() && Agree(d) && AllTimely(d, steps) && Within(d, steps, limit) && limit + 3 < TWO63
    ensures Duplex.Run(d, steps).Done? ==> Agree(Duplex.Run(d, steps).value)
    decreases |steps|
  {
    hide Agree, Duplex.Advance, StepTimely, Within;
    if steps != [] && Duplex.Advance(d, steps[0]).Done? {
      AdvanceKeeps(d, steps, limit);
      RunKeeps(Duplex.Advance(d, steps[0]).value, steps[1..], limit);
    }
  }

  /** What the reader at one end may rely on about the writer at the other. */
  ghost predicate Faithful(from: Connection, to: Connection)
  {
    var s, r := from.sender, to.receiver;
    // what is delivered is a prefix of what was written
    && r.Out().written <= s.stream.written
    // the sender believes no more than the receiver has counted
    && s.confirmed <= r.number
    // nothing is lost
    && (forall i: nat :: i < |s.stream.written| ==> DeliveryResults.Accounted(s, r, i))
    && (s.finSent && s.confirmed == s.next ==> r.Out().written == s.stream.written)
    // the reader sees the end only after the whole stream
    && (r.Out().ended ==> s.stream.ended && r.Out().written == s.stream.written)
    // nothing that arrives is ever truncated
    && (forall i: nat :: 1 <= i < |s.sent| && !r.listening ==>
          r.Out().Remaining() == 0 || Piece(s.sent, i).Tail() <= Edge(r.reassembler))
  }

  lemma HalfIsFaithful(from: Connection, to: Connection)
    requires Half(from.sender, to.receiver)
    ensures Faithful(from, to)
  {
    hide Truthful, Flight, Wrap, Start, Slice, DeliveryResults.Accounted;
    var s, r := from.sender, to.receiver;
    forall i: nat | i < |s.stream.written|
      ensures DeliveryResults.Accounted(s, r, i)
    {
      DeliveryResults.ByteAccounted(s, r, i);
    }
    forall i: nat | 1 <= i < |s.sent| && !r.listening && r.Out().Remaining() > 0
      ensures Piece(s.sent, i).Tail() <= Edge(r.reassembler)
    {
      RoomFor(s, r, i);
    }
  }

  lemma RoomFor(s: Sender, r: Receiver, i: nat)
    requires Half(s, r) && 1 <= i < |s.sent| && !r.listening && r.Out().Remaining() > 0
    ensures Piece(s.sent, i).Tail() <= Edge(r.reassembler)
  {
    hide Truthful, Flight, Wrap, Start, Slice;
    PieceOk(s, i);
    PieceFits(s, r, i);
  }

  lemma BootAgrees(near: Config, far: Config)
    ensures Agree(Boot(near, far))
  {
    hide Wrap, SenderInv, Start;
    NewSenderOk(near.sendCapacity, near.timeout, near.isn);
    NewSenderOk(far.sendCapacity, far.timeout, far.isn);
  }

  // ---------------------------------------------------------------- short streams

  lemma KnownEarly(s: Sender, seg: Segment, n: nat)
    requires SenderInv(s) && At(s, seg, n)
    ensures n <= |s.stream.written| + 2
  {
    hide Wrap, Start, Truthful, Flight, SeqLen;
    if i: nat :| i < |s.sent| && Matches(seg, s.sent[i]) && Start(s.sent, i) == n {
      StartMonotone(s.sent, i, |s.sent|);
      WholeHistory(s);
    }
  }

  /** Streams of at most 2^31 - 3 bytes have no late packets. */
  lemma ShortOnTime(d: Pair, packet: Packet)
    requires Agree(d) && packet in d.inbox
    requires |d.near.sender.stream.written| + 3 <= TWO31 && |d.far.sender.stream.written| + 3 <= TWO31
    ensures OnTime(d.far, d.near, packet)
  {
    hide Wrap, Start, Truthful, Flight, At, OutOk, QueueOk;
    assert PacketOk(d.far, d.near.sender, packet);
    if !packet.seg.header.rst {
      var n: nat :| At(d.far.sender, packet.seg, n);
      KnownEarly(d.far.sender, packet.seg, n);
      assert Near(n, d.near.receiver.number);
    }
  }

  lemma ShortStepTimely(d: Pair, step: Step)
    requires Agree(d)
    requires |d.near.sender.stream.written| + 3 <= TWO31 && |d.far.sender.stream.written| + 3 <= TWO31
    ensures StepTimely(d, step)
  {
    hide Mid, OutboxOk, OnTime;
    if step.move.Deliver? {
      if step.near && step.move.packet in d.inbox {
        ShortOnTime(d, step.move.packet);
      } else if !step.near && step.move.packet in d.outbox {
        ShortOnTime(d.Swap(), step.move.packet);
      }
    }
  }

  lemma {:induction false} ShortIsTimely(d: Pair, steps: seq<Step>)
    requires d.Ready() && Agree(d) && Within(d, steps, TWO31 - 3)
    ensures AllTimely(d, steps)
    decreases |steps|
  {
    hide Agree, Duplex.Advance, StepTimely;
    if steps != [] {
      ShortStepTimely(d, steps[0]);
      if Duplex.Advance(d, steps[0]).Done? {
        AdvanceKeeps(d, steps, TWO31 - 3);
        ShortIsTimely(Duplex.Advance(d, steps[0]).value, steps[1..]);
      }
    }
  }
}
