/** Where two connections fail each other: after the end of a stream the receiver counts an empty
    segment too, and from then on acknowledges more than was ever sent, which the sender refuses. */
module DuplexLimits {
  import opened Basics
  import opened ByteStreams
  import opened Segments
  import opened WrappingIntegers
  import opened Reassembly
  import opened ReassemblyTheorems
  import opened Sending
  import opened SendingTheorems
  import opened Receiving
  import opened DeliveryTheorems
  import opened Connections
  import opened ConnectionTheorems
  import opened Duplex
  import opened DuplexTheorems
  import opened DuplexSteps
  import DuplexExample

  /** An empty substring writes nothing, feeds nothing back, and announces nothing. */
  lemma EmptyKeepsOutput(r: Reassembler, d: Datagram)
    requires r.out.Valid() && Harmless(d) && Push(r, d).Done?
    ensures Push(r, d).value.out == r.out
  {
    assert r.out.written + [] == r.out.written;
  }

  /** The receiver keeps within what was sent on an empty segment exactly unless it has seen the
      end and the segment stands right behind the FIN. */
  lemma CountsPastEndIff(s: Sender, r: Receiver, seg: Segment, n: nat)
    requires Half(s, r) && !r.listening && r.number <= s.next < TWO63
    requires seg.Len() == 0 && n <= s.next && seg.header.seqno == Wrap(n, s.isn) && Near(n, r.number)
    requires SegmentReceived(r, seg).Done?
    ensures
      SegmentReceived(r, seg).value.number <= s.next
      <==> !(n == r.number == s.next && r.Out().ended)
  {
    hide Unwrap, Wrap, Push, SenderInv, FlowOk, Slice;
    UnwrapWrapIff(n, s.isn, r.number);
    var d := Datagram(seg.payload, if n > 0 then n - 1 else n, false);
    if Push(r.reassembler, d).Done? {
      EmptyKeepsOutput(r.reassembler, d);
    }
  }

  /** An acknowledgment past what was sent changes nothing. */
  lemma PastNextRefused(s: Sender, n: nat, window: U16)
    requires s.stream.Valid() && s.next < n < TWO63 && Near(n, s.next)
    ensures AckReceived(s, Wrap(n, s.isn), window) == s
  {
    hide Unwrap, Wrap;
    UnwrapWrapIff(n, s.isn, s.next);
  }

  /** The near side has sent its FIN and waits for its acknowledgment, but the far side has
      counted past it. */
  ghost predicate Unheard(d: Pair)
  {
    && d.near.sender.finSent && d.near.sender.confirmed < d.near.sender.next
    && d.near.sender.next < d.far.receiver.number
  }

  /** Nothing in transit to the near side acknowledges its FIN. */
  ghost predicate Unanswered(d: Pair)
  {
    forall p :: p in d.inbox && p.seg.header.ack ==> p.number != d.near.sender.next
  }

  /** The sender has nothing left to send, and confirms at most what is below its FIN. */
  ghost predicate Waits(s: Sender, s': Sender)
  {
    s'.finSent && s'.next == s.next && s'.confirmed < s'.next
  }

  lemma LocalWaits(c: Connection, e: Event)
    requires c.Ready() && SenderInv(c.sender) && c.sender.finSent && c.sender.confirmed < c.sender.next && !e.Arrival?
    ensures Next(c, e).Done? && Waits(c.sender, Next(c, e).value.sender)
  {
    hide Truthful, Flight;
    if e.Clock? {
      TickKeeps(c.sender, e.ms);
    }
  }

  lemma AnswerWaits(c: Connection, seg: Segment)
    requires c.Ready() && c.sender.finSent && c.sender.confirmed < c.sender.next
    ensures Waits(c.sender, Answer(c, seg).sender)
  {
    hide Wrap, Dress;
  }

  /** An acknowledgment of anything but exactly the next number leaves the FIN unconfirmed. */
  lemma AckWaits(s: Sender, number: nat, window: U16)
    requires SenderInv(s) && s.finSent && s.confirmed < s.next < TWO63
    requires number != s.next && number < TWO63 && Near(number, s.next)
    ensures Waits(s, AckReceived(s, Wrap(number, s.isn), window))
  {
    hide Truthful, Flight, AckReceived, Unwrap, Wrap;
    UnwrapWrapIff(number, s.isn, s.next);
    AckReceivedKeeps(s, Wrap(number, s.isn), window);
    AckReceivedOnwards(s, AckReceived(s, Wrap(number, s.isn), window));
  }

  lemma AckReceivedOnwards(s: Sender, s': Sender)
    requires SenderInv(s) && SenderInv(s') && AcksTo(s, s') && s.finSent
    ensures s'.next == s.next
  {
    hide Truthful, Flight;
  }

  lemma TakeAckWaits(c: Connection, seg: Segment, number: nat)
    requires c.Ready() && SenderInv(c.sender) && c.sender.finSent && c.sender.confirmed < c.sender.next < TWO63
    requires seg.header.ack ==> seg.header.ackno == Wrap(number, c.sender.isn)
    requires seg.header.ack ==> number != c.sender.next && number < TWO63 && Near(number, c.sender.next)
    ensures Waits(c.sender, TakeAck(c, seg).sender)
  {
    hide Wrap, AckReceived, Dress, SenderInv;
    if seg.header.ack {
      AckWaits(c.sender, number, seg.header.win);
    }
  }

  lemma ReceiveWaits(c: Connection, packet: Packet)
    requires c.Ready() && SenderInv(c.sender) && c.sender.finSent && c.sender.confirmed < c.sender.next < TWO63
    requires Receive(c, packet.seg).Done?
    requires packet.seg.header.ack ==> packet.seg.header.ackno == Wrap(packet.number, c.sender.isn)
    requires packet.seg.header.ack ==>
      packet.number != c.sender.next && packet.number < TWO63 && Near(packet.number, c.sender.next)
    ensures Waits(c.sender, Receive(c, packet.seg).value.sender)
  {
    hide SegmentReceived, TakeAck, Answer, Wrap, SenderInv;
    if !packet.seg.header.rst {
      var c1 := StopLingering(c.(elapsed := 0, receiver := SegmentReceived(c.receiver, packet.seg).value));
      TakeAckWaits(c1, packet.seg, packet.number);
      AnswerWaits(TakeAck(c1, packet.seg), packet.seg);
    }
  }

  lemma CountedAtMost(s: Sender, r: Receiver)
    requires Linked(s, r)
    ensures r.number <= |s.stream.written| + 3
  {
  }

  lemma NearWaits(d: Pair, move: Move)
    requires d.Ready() && DuplexSteps.Agree(d) && Unheard(d) && Unanswered(d) && Bounded(d) && DuplexSteps.Timely(d, move)
    requires Act(d, move).Done?
    ensures Waits(d.near.sender, Act(d, move).value.near.sender)
  {
    hide Truthful, Flight, Linked, FlowOk, QueueOk, OutOk, Known, ConnectionTheorems.Next, Receive, Wrap, Start;
    match move {
      case Local(e) => if !e.Arrival? { LocalWaits(d.near, e); }
      case Deliver(packet) =>
        if packet in d.inbox {
          assert PacketOk(d.far, d.near.sender, packet);
          CountedAtMost(d.near.sender, d.far.receiver);
          ReceiveWaits(d.near, packet);
        }
      case Lose(_) =>
    }
  }

  /** What the far side ships is numbered with what it has counted by then. */
  lemma FarCounts(d: Pair, move: Move)
    requires d.Ready() && DuplexSteps.Agree(d) && Bounded(d) && DuplexSteps.Timely(d, move)
    requires Act(d, move).Done?
    ensures
      var d' := Act(d, move).value;
      && d.near.receiver.number <= d'.near.receiver.number
      && forall p :: p in d'.outbox && p !in d.outbox ==> p.number == d'.near.receiver.number
  {
    hide Mid, PacketOk, OnTime, Receive, ConnectionTheorems.Next, Quiet;
    match move {
      case Local(e) => if !e.Arrival? { KeptLocal(d.near, d.far, e); }
      case Deliver(packet) => if packet in d.inbox { MidReceive(d.near, d.far, packet); }
      case Lose(_) =>
    }
  }

  lemma UnheardStep(d: Pair, step: Step)
    requires d.Ready() && DuplexSteps.Agree(d) && Unheard(d) && Unanswered(d) && Bounded(d) && StepTimely(d, step)
    requires Duplex.Advance(d, step).Done?
    ensures Unheard(Duplex.Advance(d, step).value) && Unanswered(Duplex.Advance(d, step).value)
    ensures Duplex.Advance(d, step).value.near.sender.next == d.near.sender.next
  {
    hide DuplexSteps.Agree, Receive, ConnectionTheorems.Next;
    if step.near {
      NearWaits(d, step.move);
    } else {
      SwapAgrees(d);
      FarCounts(d.Swap(), step.move);
    }
  }

  lemma SwapAgrees(d: Pair)
    requires DuplexSteps.Agree(d)
    ensures DuplexSteps.Agree(d.Swap())
  {
    hide Mid;
  }

  /** Unless its acknowledgment is already in transit, the FIN is never acknowledged from then on:
      whatever either side sends, loses or repeats, the near side goes on waiting. */
  lemma {:induction false} NeverAcknowledged(d: Pair, steps: seq<Step>, limit: nat)
    requires d.Ready() && DuplexSteps.Agree(d) && Unheard(d) && Unanswered(d)
    requires DuplexSteps.AllTimely(d, steps) && Within(d, steps, limit) && limit + 3 < TWO63
    ensures Duplex.Run(d, steps).Done? ==> Unheard(Duplex.Run(d, steps).value)
    ensures Duplex.Run(d, steps).Done? ==> Duplex.Run(d, steps).value.near.sender.next == d.near.sender.next
    decreases |steps|
  {
    hide DuplexSteps.Agree, Duplex.Advance, StepTimely, Unheard, Unanswered, DuplexSteps.Offered;
    if steps != [] && Duplex.Advance(d, steps[0]).Done? {
      UnheardStep(d, steps[0]);
      AdvanceKeeps(d, steps, limit);
      NeverAcknowledged(Duplex.Advance(d, steps[0]).value, steps[1..], limit);
    }
  }

  /** And an acknowledgment of the FIN that is in transit still does its work. */
  lemma OldAnswerHeard(d: Pair, packet: Packet)
    requires d.Ready() && DuplexSteps.Agree(d) && Bounded(d) && d.near.sender.finSent && packet in d.inbox
    requires packet.seg.header.ack && !packet.seg.header.rst && packet.number == d.near.sender.next
    requires OnTime(d.far, d.near, packet) && Act(d, Deliver(packet)).Done?
    ensures Act(d, Deliver(packet)).value.near.sender.confirmed == d.near.sender.next
  {
    hide Truthful, Flight, Linked, FlowOk, QueueOk, OutOk, Known, Wrap, Start, TakeAck, Answer, SegmentReceived;
    var c, seg := d.near, packet.seg;
    assert PacketOk(d.far, c.sender, packet);
    var c1 := StopLingering(c.(elapsed := 0, receiver := SegmentReceived(c.receiver, seg).value));
    FinConfirmed(c1, seg);
    AnswerKeepsConfirmed(TakeAck(c1, seg), seg);
  }

  lemma FinConfirmed(c: Connection, seg: Segment)
    requires c.Ready() && SenderInv(c.sender) && c.sender.finSent && c.sender.next < TWO63
    requires seg.header.ack && seg.header.ackno == Wrap(c.sender.next, c.sender.isn)
    ensures TakeAck(c, seg).sender.confirmed == c.sender.next && TakeAck(c, seg).sender.finSent
  {
    hide Truthful, Start, Wrap, Unwrap, AckReceived, Dress;
    UnwrapWrapIff(c.sender.next, c.sender.isn, c.sender.next);
    AckReceivedKeeps(c.sender, seg.header.ackno, seg.header.win);
  }

  lemma AnswerKeepsConfirmed(c: Connection, seg: Segment)
    requires c.Ready() && c.sender.finSent
    ensures Answer(c, seg).sender.confirmed == c.sender.confirmed
  {
    hide Wrap, Dress;
  }

  // ---------------------------------------------------------------- such a run

  lemma OfferedCons(step: Step, steps: seq<Step>, near: bool)
    ensures
      DuplexSteps.Offered([step] + steps, near) ==
      (if step.near == near then Offer(step.move) else 0) + DuplexSteps.Offered(steps, near)
  {
    assert ([step] + steps)[1..] == steps;
  }

  lemma {:induction false} OfferedConcat(a: seq<Step>, b: seq<Step>, near: bool)
    ensures DuplexSteps.Offered(a + b, near) == DuplexSteps.Offered(a, near) + DuplexSteps.Offered(b, near)
    decreases |a|
  {
    if a == [] {
      assert a + b == b;
    } else {
      assert (a + b)[1..] == a[1..] + b;
      OfferedConcat(a[1..], b, near);
    }
  }

  lemma OfferedFew()
    ensures DuplexSteps.Offered(DuplexExample.OPENING_STEPS, true) == 0
    ensures DuplexSteps.Offered(DuplexExample.OPENING_STEPS, false) == 1
    ensures DuplexSteps.Offered(DuplexExample.CLOSING_STEPS, true) == 0
    ensures DuplexSteps.Offered(DuplexExample.CLOSING_STEPS, false) == 0
  {
    var a, b := DuplexExample.OPENING_STEPS, DuplexExample.CLOSING_STEPS;
    forall near: bool
      ensures DuplexSteps.Offered(a, near) == (if near then 0 else 1)
    {
      assert DuplexSteps.Offered([a[4]], near) == (if near then 0 else 1);
      OfferedCons(a[3], [a[4]], near);
      OfferedCons(a[2], [a[3], a[4]], near);
      OfferedCons(a[1], [a[2], a[3], a[4]], near);
      OfferedCons(a[0], [a[1], a[2], a[3], a[4]], near);
      assert a == [a[0]] + [a[1], a[2], a[3], a[4]];
    }
    forall near: bool
      ensures DuplexSteps.Offered(b, near) == 0
    {
      assert DuplexSteps.Offered([b[4]], near) == 0;
      OfferedCons(b[3], [b[4]], near);
      OfferedCons(b[2], [b[3], b[4]], near);
      OfferedCons(b[1], [b[2], b[3], b[4]], near);
      OfferedCons(b[0], [b[1], b[2], b[3], b[4]], near);
      assert b == [b[0]] + [b[1], b[2], b[3], b[4]];
    }
  }

  /** The hypotheses of `NeverAcknowledged` are met at the end of a run. */
  lemma UnheardReached()
    ensures
      var steps := DuplexExample.OPENING_STEPS + DuplexExample.CLOSING_STEPS;
      Duplex.Run(Boot(DuplexExample.SIDE, DuplexExample.SIDE), steps) == Done(DuplexExample.UNHEARD)
    ensures DuplexSteps.Agree(DuplexExample.UNHEARD)
    ensures Unheard(DuplexExample.UNHEARD) && Unanswered(DuplexExample.UNHEARD)
  {
    hide DuplexSteps.Agree, DuplexSteps.Offered, DuplexSteps.AllTimely;
    var a, b := DuplexExample.OPENING_STEPS, DuplexExample.CLOSING_STEPS;
    var d0 := Boot(DuplexExample.SIDE, DuplexExample.SIDE);
    assert Duplex.Run(DuplexExample.UNHEARD, []) == Done(DuplexExample.UNHEARD);
    hide Duplex.Run;
    DuplexExample.FinUnheard([]);
    assert b + [] == b;
    OfferedFew();
    OfferedConcat(a, b, true);
    OfferedConcat(a, b, false);
    DuplexSteps.BootAgrees(DuplexExample.SIDE, DuplexExample.SIDE);
    DuplexSteps.ShortIsTimely(d0, a + b);
    DuplexSteps.RunKeeps(d0, a + b, TWO31 - 3);
  }

  /** However that run goes on, the FIN is never acknowledged. */
  lemma FinNeverAcknowledged(more: seq<Step>)
    requires DuplexSteps.Offered(more, true) + 4 <= TWO31 && DuplexSteps.Offered(more, false) + 4 <= TWO31
    ensures
      var steps := DuplexExample.OPENING_STEPS + (DuplexExample.CLOSING_STEPS + more);
      var o := Duplex.Run(Boot(DuplexExample.SIDE, DuplexExample.SIDE), steps);
      o.Done? ==> Unheard(o.value)
  {
    hide DuplexSteps.Agree, DuplexSteps.Offered, DuplexSteps.AllTimely, Duplex.Run, Unheard, Unanswered;
    DuplexExample.FinUnheard(more);
    UnheardReached();
    DuplexSteps.ShortIsTimely(DuplexExample.UNHEARD, more);
    NeverAcknowledged(DuplexExample.UNHEARD, more, TWO31 - 3);
  }
}
