/** What the applications at the two ends may rely on, over every run. */
module DeliveryResults {
  import opened Basics
  import opened ByteStreams
  import opened Segments
  import opened WrappingIntegers
  import opened Reassembly
  import opened ReassemblyTheorems
  import opened Sending
  import opened SendingTheorems
  import opened Receiving
  import opened Delivery
  import opened DeliveryTheorems

  /** Segment `j` is outstanding and carries byte `i` of the stream. */
  ghost predicate InFlightAt(s: Sender, i: nat, j: nat)
  {
    && 1 <= j < |s.sent| && |s.sent| - |s.outstanding| <= j
    && Start(s.sent, j) - 1 <= i < Start(s.sent, j) - 1 + |s.sent[j].payload|
    && i < |s.stream.written|
    && s.sent[j].payload[i - (Start(s.sent, j) - 1)] == s.stream.written[i]
  }

  /** Byte `i` has been assembled, or is in an outstanding segment, or is still unsent. */
  ghost predicate Accounted(s: Sender, r: Receiver, i: nat)
  {
    || i < |r.Out().written|
    || (exists j: nat :: InFlightAt(s, i, j))
    || s.stream.read <= i
  }

  /** Everything the two ends may rely on. */
  ghost predicate Safe(sys: System)
  {
    // what is delivered is a prefix of what was written
    && sys.r.Out().written <= sys.s.stream.written
    // the sender believes no more than the receiver has, the receiver has no more than was sent
    && sys.s.confirmed <= sys.r.number <= sys.s.next
    // nothing is lost
    && (forall i: nat :: i < |sys.s.stream.written| ==> Accounted(sys.s, sys.r, i))
    && (sys.s.finSent && sys.s.confirmed == sys.s.next ==> sys.r.Out().written == sys.s.stream.written)
    // the reader sees the end only after the whole stream
    && (sys.r.Out().ended ==> sys.s.stream.ended && sys.r.Out().written == sys.s.stream.written)
    // the advertised window ends where the room ends
    && (!sys.r.listening && !Finished(sys.r) ==> sys.r.number + sys.r.WindowSize() == RightEdge(sys.r))
    // nothing that arrives is ever truncated
    && (forall i: nat :: 1 <= i < |sys.s.sent| && !sys.r.listening ==>
          sys.r.Out().Remaining() == 0 || Piece(sys.s.sent, i).Tail() <= Edge(sys.r.reassembler))
  }

  /** The segment of the history that covers a number below `next`. */
  lemma {:induction false} Covering(sent: seq<Segment>, n: nat) returns (j: nat)
    requires n < Start(sent, |sent|)
    ensures j < |sent| && Start(sent, j) <= n < Start(sent, j) + sent[j].Len()
    decreases |sent|
  {
    var last := |sent| - 1;
    assert sent[..|sent|] == sent;
    StartNext(sent, last);
    if Start(sent, last) <= n {
      j := last;
    } else {
      assert Start(sent[..last], last) == Start(sent, last) by { assert sent[..last][..last] == sent[..last]; }
      j := Covering(sent[..last], n);
      assert sent[..last][..j] == sent[..j];
    }
  }

  /** A byte that is not confirmed is in an outstanding segment or still unsent. */
  lemma ByteAccounted(s: Sender, r: Receiver, i: nat)
    requires SenderInv(s) && i < |s.stream.written| && (|r.Out().written| <= i ==> s.confirmed <= i + 1)
    ensures Accounted(s, r, i)
  {
    hide Wrap, SeqLen, Start, Flight;
    if |r.Out().written| <= i < s.stream.read {
      WholeHistory(s);
      var j := Covering(s.sent, i + 1);
      assert Truthful(s.sent, j, s.isn, s.stream, s.finSent);
      SynOk(s);
      assert j >= 1;
      Unconfirmed(s, i + 1, j);
      assert InFlightAt(s, i, j);
    }
  }

  /** The segment with an unconfirmed number is still outstanding. */
  lemma Unconfirmed(s: Sender, n: nat, j: nat)
    requires SenderInv(s) && j < |s.sent| && s.confirmed <= n < Start(s.sent, j) + s.sent[j].Len()
    ensures |s.sent| - |s.outstanding| <= j
  {
    hide Wrap, SeqLen, Start, Truthful;
    var oldest := |s.sent| - |s.outstanding|;
    WholeHistory(s);
    if j < oldest {
      InOrder(s, j, oldest);
    }
  }

  lemma AgreeIsSafe(sys: System)
    requires Agree(sys)
    ensures Safe(sys)
  {
    hide Wrap, SeqLen, Start, Truthful, Slice, Accounted;
    var s, r := sys.s, sys.r;
    NumberBelowNext(s, r);
    forall i: nat | i < |s.stream.written|
      ensures Accounted(s, r, i)
    {
      ByteAccounted(s, r, i);
    }
    forall i: nat | 1 <= i < |s.sent| && !r.listening && r.Out().Remaining() > 0
      ensures Piece(s.sent, i).Tail() <= Edge(r.reassembler)
    {
      ArrivesWithRoom(s, r, i);
    }
  }

  /** In every run over a network that may lose, repeat and reorder, in which nothing arrives more
      than 2^31 sequence numbers late, no call hangs and the system is safe at the end, and so
      after every prefix of the run. */
  lemma EndToEnd(sendCapacity: nat, recvCapacity: nat, timeout: U16, isn: U32, steps: seq<Step>)
    requires AllTimely(Boot(sendCapacity, recvCapacity, timeout, isn), steps)
    requires Offered(steps) + 2 < TWO63
    ensures
      var o := Delivery.Run(Boot(sendCapacity, recvCapacity, timeout, isn), steps);
      o.Done? && Safe(o.value)
  {
    hide Safe, Agree;
    BootAgrees(sendCapacity, recvCapacity, timeout, isn);
    DeliveryTheorems.RunKeeps(Boot(sendCapacity, recvCapacity, timeout, isn), steps);
    AgreeIsSafe(Delivery.Run(Boot(sendCapacity, recvCapacity, timeout, isn), steps).value);
  }

  /** A short stream has no late arrivals. */
  lemma {:induction false} ShortIsTimely(sys: System, steps: seq<Step>)
    requires Agree(sys) && Ready(sys) && |sys.s.stream.written| + Offered(steps) + 2 <= TWO31
    ensures AllTimely(sys, steps)
    decreases |steps|
  {
    hide Agree, Next;
    if steps != [] {
      StepTimely(sys, steps[0]);
      NextKeeps(sys, steps[0]);
      ShortIsTimely(Next(sys, steps[0]).value, steps[1..]);
    }
  }

  lemma StepTimely(sys: System, step: Step)
    requires Agree(sys) && |sys.s.stream.written| + 2 <= TWO31
    ensures Timely(sys, step)
  {
    hide Wrap, SeqLen, Start, Truthful, Slice;
    NumberBelowNext(sys.s, sys.r);
    match step {
      case Deliver(i) =>
        if 1 <= i < |sys.s.sent| {
          PieceOk(sys.s, i);
        } else if i < |sys.s.sent| {
          SynOk(sys.s);
        }
      case Acknowledge(k) =>
        if k < |sys.acks| {
          assert sys.acks[k] in sys.acks;
        }
      case _ =>
    }
  }

  /** For streams of at most 2^31 - 2 bytes this holds of every run whatsoever. */
  lemma EndToEndShort(sendCapacity: nat, recvCapacity: nat, timeout: U16, isn: U32, steps: seq<Step>)
    requires Offered(steps) + 2 <= TWO31
    ensures
      var o := Delivery.Run(Boot(sendCapacity, recvCapacity, timeout, isn), steps);
      o.Done? && Safe(o.value)
  {
    hide Safe, Agree;
    BootAgrees(sendCapacity, recvCapacity, timeout, isn);
    ShortIsTimely(Boot(sendCapacity, recvCapacity, timeout, isn), steps);
    EndToEnd(sendCapacity, recvCapacity, timeout, isn, steps);
  }

  // ---------------------------------------------------------------- the end of the stream

  /** When the awaited FIN arrives it is always counted, and so acknowledged; the reader learns of
      the end exactly when the buffer was not full. */
  lemma FinEndsIff(sys: System, i: nat)
    requires Agree(sys) && !sys.r.listening && 1 <= i < |sys.s.sent| && sys.s.sent[i].header.fin
    requires Start(sys.s.sent, i) == sys.r.number && sys.s.next < TWO63
    ensures
      var o := SegmentReceived(sys.r, sys.s.sent[i]);
      && o.Done?
      && o.value.number == sys.s.next
      && (o.value.Out().ended <==> sys.r.Out().Remaining() > 0)
  {
    hide Wrap, SeqLen, Start, Truthful, Slice, Unwrap, SegmentReceived;
    var s, r := sys.s, sys.r;
    PieceOk(s, i);
    NumberBelowNext(s, r);
    UnwrapWrapIff(r.number, s.isn, r.number);
    assert Fits(Start(s.sent, i), s.sent[i].Len(), RightEdge(r), r.number);
    if r.Out().Remaining() == 0 {
      PieceDropped(s, r, i);
    } else {
      PieceAwaited(s, r, i);
    }
    NumberBelowNext(s, SegmentReceived(r, s.sent[i]).value);
  }
}
