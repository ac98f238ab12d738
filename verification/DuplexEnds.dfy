/** A FIN that is acknowledged against a full buffer, and of which the reader is never told. */
module DuplexEnds {
  import opened Basics
  import opened ByteStreams
  import opened Segments
  import opened WrappingIntegers
  import opened Reassembly
  import opened ReassemblyTheorems
  import opened Sending
  import opened SendingTheorems
  import opened Receiving
  import opened DeliveryTheorems
  import opened Connections
  import opened ConnectionTheorems
  import ConnectionReplies
  import opened Duplex
  import opened DuplexTheorems
  import opened DuplexSteps
  import opened DuplexHangs
  import DuplexExample

  // ---------------------------------------------------------------- a sender that is done

  /** The FIN is sent, everything is acknowledged, and nothing is queued. */
  ghost predicate Spent(s: Sender)
  {
    s.finSent && s.outstanding == [] && s.segmentsOut == []
  }

  /** The connection goes on without another FIN. */
  ghost predicate SpentOn(c: Connection)
  {
    Spent(c.sender) && forall seg :: seg in c.segmentsOut ==> !seg.header.fin
  }

  lemma SpentAck(s: Sender, ackno: U32, window: U16)
    requires s.stream.Valid() && Spent(s)
    ensures Spent(AckReceived(s, ackno, window))
  {
    hide Unwrap;
  }

  lemma SpentTick(s: Sender, ms: nat)
    requires SenderInv(s) && Spent(s)
    ensures Sending.Tick(s, ms) == s && s.retransmissions == 0
  {
    hide Truthful, Start, SeqLen;
  }

  lemma SpentAnswer(c: Connection, seg: Segment)
    requires c.Ready() && Spent(c.sender) && c.segmentsOut == []
    ensures SpentOn(Answer(c, seg))
  {
    hide FillWindow, Stamp, Dress, SendSegmentsOut;
    if seg.Len() > 0 {
      assert FillWindow(c.sender) == c.sender by { hide *; SpentFill(c.sender); }
      DuplexExample.NoneOut(c);
      var empty := Stamp(c.sender, Segment(DEFAULT_HEADER, []));
      assert [] + [empty] == [empty];
      DuplexExample.OneOut(c.(sender := SendEmpty(c.sender)), empty);
      assert !Dress(c.receiver, empty).header.fin by { hide *; EmptyHasNoFin(c.receiver, c.sender); }
    }
  }

  lemma SpentFill(s: Sender)
    requires s.stream.Valid() && Spent(s)
    ensures FillWindow(s) == s
  {
  }

  lemma EmptyHasNoFin(r: Receiver, s: Sender)
    ensures !Dress(r, Stamp(s, Segment(DEFAULT_HEADER, []))).header.fin
  {
  }

  lemma SpentTakeAck(c: Connection, seg: Segment)
    requires c.Ready() && Spent(c.sender) && c.segmentsOut == []
    ensures Spent(TakeAck(c, seg).sender) && TakeAck(c, seg).segmentsOut == []
  {
    hide AckReceived;
    if seg.header.ack {
      SpentAck(c.sender, seg.header.ackno, seg.header.win);
    }
  }

  lemma SpentReceive(c: Connection, seg: Segment)
    requires c.Ready() && Spent(c.sender) && c.segmentsOut == [] && Receive(c, seg).Done?
    ensures SpentOn(Receive(c, seg).value)
  {
    hide SegmentReceived, TakeAck, Answer;
    if !seg.header.rst {
      var c1 := StopLingering(c.(elapsed := 0, receiver := SegmentReceived(c.receiver, seg).value));
      SpentTakeAck(c1, seg);
      SpentAnswer(TakeAck(c1, seg), seg);
    }
  }

  lemma SpentLocal(c: Connection, e: Event)
    requires c.Ready() && SenderInv(c.sender) && Spent(c.sender) && c.segmentsOut == [] && !e.Arrival?
    ensures Next(c, e).Done? && SpentOn(Next(c, e).value)
  {
    hide Truthful, Flight, SeqLen, Wrap, Sending.Tick;
    match e {
      case Clock(ms) => SpentTick(c.sender, ms);
      case _ =>
    }
  }

  // ---------------------------------------------------------------- a reader that is not told

  ghost predicate Unmarked(r: Receiver)
  {
    !r.Out().ended && forall e :: e in r.reassembler.store ==> !e.eof
  }

  lemma UnmarkedReceived(s: Sender, r: Receiver, seg: Segment, n: nat)
    requires Half(s, r) && DuplexTheorems.At(s, seg, n) && Near(n, r.number) && s.next < TWO63
    requires Unmarked(r) && !seg.header.fin && SegmentReceived(r, seg).Done?
    ensures Unmarked(SegmentReceived(r, seg).value)
  {
    hide Unwrap, Push, Good, SenderInv, FlowOk;
    if r.listening ==> seg.header.syn {
      var r1 := Opened(r, seg);
      var d := Substring(r1, seg);
      if r.Out().Remaining() > 0 {
        SubstringFits(s, r, seg, n);
        PushMarks(s.stream.written, r1.reassembler, d, false);
      } else {
        assert Push(r1.reassembler, d) == Done(r1.reassembler) by { hide *; PushFull(r1.reassembler, d); }
      }
    }
  }

  /** The far side has nothing to say any more, and no FIN of it is in transit or stored; the near
      reader has not been told. */
  ghost predicate Untold(d: Pair)
  {
    && Spent(d.far.sender) && Unmarked(d.near.receiver)
    && forall p :: p in d.inbox ==> !p.seg.header.fin
  }

  lemma ReceiveUnmarked(c: Connection, p: Connection, packet: Packet)
    requires Mid(c, p) && PacketOk(p, c.sender, packet) && OnTime(p, c, packet) && |p.sender.stream.written| + 3 < TWO63
    requires Unmarked(c.receiver) && !packet.seg.header.fin && Receive(c, packet.seg).Done?
    ensures Unmarked(Receive(c, packet.seg).value.receiver)
  {
    hide SegmentReceived, Truthful, Flight, Linked, FlowOk, QueueOk, OutOk, Wrap, Reply, Start, DuplexTheorems.At;
    if !packet.seg.header.rst {
      ConnectionReplies.AlwaysAnswers(c, packet.seg);
      var n: nat :| DuplexTheorems.At(p.sender, packet.seg, n) && Near(n, c.receiver.number);
      UnmarkedReceived(p.sender, c.receiver, packet.seg, n);
    }
  }

  lemma LocalUnmarked(c: Connection, e: Event)
    requires c.Ready() && Unmarked(c.receiver) && !e.Arrival? && Next(c, e).Done?
    ensures Unmarked(Next(c, e).value.receiver)
  {
    hide FillWindow, Sending.Tick, Dress, Wrap, SeqLen;
  }

  lemma NearUntold(d: Pair, move: Move)
    requires d.Ready() && DuplexSteps.Agree(d) && Untold(d) && Bounded(d) && DuplexSteps.Timely(d, move) && Act(d, move).Done?
    ensures Untold(Act(d, move).value)
  {
    hide Mid, PacketOk, OnTime, Receive, ConnectionTheorems.Next, Unmarked, Spent;
    match move {
      case Local(e) => if !e.Arrival? { LocalUnmarked(d.near, e); }
      case Deliver(packet) => if packet in d.inbox { ReceiveUnmarked(d.near, d.far, packet); }
      case Lose(_) =>
    }
  }

  /** The same move seen from the side that is done. */
  lemma FarUntold(d: Pair, move: Move)
    requires d.Ready() && DuplexSteps.Agree(d) && Untold(d.Swap()) && Act(d, move).Done?
    ensures Untold(Act(d, move).value.Swap())
  {
    hide PacketOk, Receive, ConnectionTheorems.Next, Unmarked, Truthful, Flight, Linked, FlowOk, QueueOk, OutOk;
    match move {
      case Local(e) => if !e.Arrival? { SpentLocal(d.near, e); }
      case Deliver(packet) => if packet in d.inbox { SpentReceive(d.near, packet.seg); }
      case Lose(_) =>
    }
  }

  lemma UntoldStep(d: Pair, step: Step)
    requires d.Ready() && DuplexSteps.Agree(d) && Untold(d) && Bounded(d) && StepTimely(d, step) && Duplex.Advance(d, step).Done?
    ensures Untold(Duplex.Advance(d, step).value)
  {
    hide Mid, OutboxOk, Act, DuplexSteps.Timely, Untold;
    if step.near {
      NearUntold(d, step.move);
    } else {
      assert d.Swap().Swap() == d;
      FarUntold(d.Swap(), step.move);
    }
  }

  /** Then the reader is never told: after every continuation the near stream is not ended, and so
      the near side never closes cleanly. */
  lemma {:induction false} NeverTold(d: Pair, steps: seq<Step>, limit: nat)
    requires d.Ready() && DuplexSteps.Agree(d) && Untold(d)
    requires DuplexSteps.AllTimely(d, steps) && Within(d, steps, limit) && limit + 3 < TWO63
    ensures
      var o := Duplex.Run(d, steps);
      o.Done? ==> Untold(o.value) && !o.value.near.receiver.Out().ended && !o.value.near.InboundEnded()
    decreases |steps|
  {
    hide DuplexSteps.Agree, Duplex.Advance, StepTimely, DuplexSteps.Offered;
    if steps != [] && Duplex.Advance(d, steps[0]).Done? {
      UntoldStep(d, steps[0]);
      AdvanceKeeps(d, steps, limit);
      NeverTold(Duplex.Advance(d, steps[0]).value, steps[1..], limit);
    }
  }
}
