/** Delivery between two connections, in both directions at once. Their acknowledgments travel on
    the segments of the other direction, and on empty segments that the receiver takes for data. */
module DuplexTheorems {
  import opened Basics
  import opened ByteStreams
  import opened Segments
  import opened WrappingIntegers
  import opened Reassembly
  import opened ReassemblyTheorems
  import opened Sending
  import opened SendingTheorems
  import opened Receiving
  import opened DeliveryTheorems
  import opened Connections
  import opened ConnectionTheorems
  import opened Duplex
  import Delivery

  // ---------------------------------------------------------------- one direction

  /** The receiver counts no more than is out, unless everything is out and the FIN was sent. */
  ghost predicate Reached(s: Sender, r: Receiver)
  {
    || r.number <= r.reassembler.next + 1
    || (s.finSent && r.reassembler.next == |s.stream.written|)
  }

  /** What the receiver at one end owes to the sender at the other. */
  ghost predicate Linked(s: Sender, r: Receiver)
  {
    && Inv(s.stream.written, r.reassembler)
    && (forall d :: d in r.reassembler.store && d.eof ==> s.finSent)
    && (r.Out().ended ==> s.finSent)
    && (r.listening ==> r.number == 0 && r.reassembler.next == 0 && r.reassembler.store == [] && !r.Out().ended)
    && (!r.listening ==> r.isn == s.isn && 1 <= r.number && Reached(s, r))
    && r.number <= |s.stream.written| + 3
  }

  ghost predicate Half(s: Sender, r: Receiver)
  {
    SenderInv(s) && Linked(s, r) && FlowOk(s, r)
  }

  /** The same segment but for what the other end's receiver fills in. */
  predicate Matches(a: Segment, b: Segment)
  {
    && a.header.seqno == b.header.seqno && a.header.syn == b.header.syn && a.header.fin == b.header.fin
    && a.payload == b.payload
  }

  // ---------------------------------------------------------------- the receiver

  lemma {:induction false} PushMarks(whole: Bytes, q: Reassembler, d: Datagram, marked: bool)
    requires Inv(whole, q) && Good(whole, Edge(q), d)
    requires (d.eof ==> marked) && (q.out.ended ==> marked) && forall e :: e in q.store && e.eof ==> marked
    ensures Push(q, d).Done? ==>
      (Push(q, d).value.out.ended ==> marked) && forall e :: e in Push(q, d).value.store && e.eof ==> marked
    decreases |q.store|
  {
    if Pops(q, d) {
      var q1 := Absorb(q, d);
      AbsorbKeeps(whole, q, d);
      PoppedKeeps(whole, q1);
      PushMarks(whole, q1.(store := q1.store[1..]), q1.store[0], marked);
    } else if q.out.Remaining() > 0 && q.next < d.index && MissingMiddle(q, d).Done? {
      MissingMiddleMembers(whole, q, d);
    }
  }

  lemma PieceFits(s: Sender, r: Receiver, i: nat)
    requires Half(s, r) && !r.listening && 1 <= i < |s.sent| && r.Out().Remaining() > 0
    ensures Good(s.stream.written, Edge(r.reassembler), Piece(s.sent, i))
  {
    hide Wrap, Truthful, Start, Flight;
    PieceOk(s, i);
    assert Fits(Start(s.sent, i), s.sent[i].Len(), RightEdge(r), r.number);
  }

  /** Anything good that is pushed leaves the reassembler linked to the sender. */
  lemma PushLinks(s: Sender, r: Receiver, d: Datagram)
    requires Half(s, r) && !r.listening && (d.eof ==> s.finSent)
    requires r.Out().Remaining() > 0 ==> Good(s.stream.written, Edge(r.reassembler), d)
    requires Push(r.reassembler, d).Done?
    ensures Linked(s, r.(reassembler := Push(r.reassembler, d).value))
  {
    hide Truthful, Flight, FlowOk, Slice, Good, Absorb;
    if r.Out().Remaining() > 0 {
      PushKeeps(s.stream.written, r.reassembler, d);
      PushMarks(s.stream.written, r.reassembler, d, s.finSent);
    }
  }

  /** The number the receiver waits for after a matching segment at the awaited place. */
  lemma AdvanceReaches(s: Sender, r: Receiver, i: nat, q: Reassembler)
    requires Half(s, r) && !r.listening && 1 <= i < |s.sent| && Start(s.sent, i) == r.number
    requires Push(r.reassembler, Piece(s.sent, i)) == Done(q)
    ensures
      var n := Receiving.Advance(r.number, s.sent[i], q.out);
      && r.number <= n <= |s.stream.written| + 2
      && (n <= q.next + 1 || (s.finSent && q.next == |s.stream.written|))
  {
    hide Truthful, Flight, Wrap, Start, Slice, Push;
    var d := Piece(s.sent, i);
    PieceOk(s, i);
    assert Fits(Start(s.sent, i), s.sent[i].Len(), RightEdge(r), r.number);
    PushLinksPiece(s, r, i);
    if r.Out().Remaining() > 0 {
      PieceFits(s, r, i);
      assert d.Tail() <= |q.out.written| by {
        if d.index <= r.reassembler.next { PushWrites(s.stream.written, r.reassembler, d); }
      }
    } else {
      assert q == r.reassembler by { hide *; PushFull(r.reassembler, d); }
    }
  }

  lemma PushFull(q: Reassembler, d: Datagram)
    requires q.out.Valid() && q.out.Remaining() == 0
    ensures Push(q, d) == Done(q)
  {
  }

  lemma PushWrites(whole: Bytes, q: Reassembler, d: Datagram)
    requires Inv(whole, q) && Good(whole, Edge(q), d) && d.index <= q.next && q.out.Remaining() > 0 && Push(q, d).Done?
    ensures d.Tail() <= |Push(q, d).value.out.written|
  {
    AbsorbKeeps(whole, q, d);
  }

  lemma PushLinksPiece(s: Sender, r: Receiver, i: nat)
    requires Half(s, r) && !r.listening && 1 <= i < |s.sent| && Push(r.reassembler, Piece(s.sent, i)).Done?
    ensures Linked(s, r.(reassembler := Push(r.reassembler, Piece(s.sent, i)).value))
  {
    hide Truthful, Flight, Wrap, Start, Slice, Push;
    PieceOk(s, i);
    if r.Out().Remaining() > 0 {
      PieceFits(s, r, i);
    }
    PushLinks(s, r, Piece(s.sent, i));
  }

  lemma SameToReceiver(r: Receiver, a: Segment, b: Segment)
    requires r.Out().Valid() && Matches(a, b)
    ensures SegmentReceived(r, a) == SegmentReceived(r, b)
  {
    hide Push, Unwrap;
  }

  lemma SynLinks(s: Sender, r: Receiver)
    requires Half(s, r) && s.sent != [] && r.number <= TWO31
    ensures
      var o := SegmentReceived(r, s.sent[0]);
      o.Done? && Linked(s, o.value) && Moved(r, o.value)
  {
    hide Unwrap, Wrap, Push, Truthful, SeqLen, Slice, Flight, FlowOk;
    SynOk(s);
    UnwrapZero(s.isn, r.number);
    PushNothing(r.reassembler, Datagram([], 0, false));
  }

  /** A segment that was sent arrives, on time. */
  lemma PieceLinks(s: Sender, r: Receiver, i: nat)
    requires Half(s, r) && i < |s.sent| && Near(Start(s.sent, i), r.number) && s.next < TWO63
    ensures
      var o := SegmentReceived(r, s.sent[i]);
      o.Done? ==> Linked(s, o.value) && Moved(r, o.value)
  {
    hide Unwrap, Wrap, Push, Truthful, SeqLen, Start, Slice, Flight, FlowOk;
    SynOk(s);
    if i == 0 {
      SynLinks(s, r);
    } else if !r.listening && SegmentReceived(r, s.sent[i]).Done? {
      PieceOk(s, i);
      NumberSmall(s, r, i);
      UnwrapWrapIff(Start(s.sent, i), s.isn, r.number);
      var q := Push(r.reassembler, Piece(s.sent, i)).value;
      PushLinksPiece(s, r, i);
      if Start(s.sent, i) == r.number {
        AdvanceReaches(s, r, i, q);
      }
    }
  }

  lemma NumberSmall(s: Sender, r: Receiver, i: nat)
    requires SenderInv(s) && i < |s.sent| && Near(Start(s.sent, i), r.number) && s.next < TWO63
    ensures Start(s.sent, i) < TWO63 && r.number < TWO64
  {
    hide Wrap, Truthful, SeqLen, Flight;
    StartMonotone(s.sent, i, |s.sent|);
    WholeHistory(s);
  }

  /** An empty segment arrives, on time. After the end of the stream it is counted as well when
      it is at the awaited place, though it occupies no number. */
  lemma EmptyLinks(s: Sender, r: Receiver, seg: Segment, n: nat)
    requires Half(s, r) && seg.Len() == 0 && seg.header.seqno == Wrap(n, s.isn)
    requires n <= s.next < TWO63 && Near(n, r.number)
    ensures
      var o := SegmentReceived(r, seg);
      o.Done? ==> Linked(s, o.value) && Moved(r, o.value)
  {
    hide Unwrap, Wrap, Push, Truthful, SeqLen, Start, Slice, Flight, FlowOk;
    if !r.listening && SegmentReceived(r, seg).Done? {
      UnwrapWrapIff(n, s.isn, r.number);
      var d := Datagram(seg.payload, if n > 0 then n - 1 else n, false);
      if Push(r.reassembler, d).Done? {
        assert Harmless(d);
        PushLinks(s, r, d);
      }
    }
  }

  // ---------------------------------------------------------------- the sender

  /** The receiver does not notice that the sender moves on. */
  lemma LinkedGrows(s: Sender, s': Sender, r: Receiver)
    requires Linked(s, r) && s'.isn == s.isn && s'.stream.written == s.stream.written && (s.finSent ==> s'.finSent)
    ensures Linked(s', r)
  {
    hide Inv;
  }

  lemma HalfGrows(s: Sender, s': Sender, r: Receiver)
    requires Half(s, r) && SenderInv(s') && WithinWindow(s, s', r)
    ensures Half(s', r)
  {
    hide SenderInv, Linked, FlowOk;
    LinkedGrows(s, s', r);
    FlowGrows(s, s', r);
  }

  lemma HalfFill(s: Sender, r: Receiver)
    requires Half(s, r)
    ensures Half(FillWindow(s), r) && SendsOn(s, FillWindow(s)) && (s.finSent ==> FillWindow(s).finSent)
  {
    hide FillWindow, Truthful, Start, Linked;
    FillWindowKeeps(s);
    HalfGrows(s, FillWindow(s), r);
  }

  lemma HalfTick(s: Sender, r: Receiver, ms: nat)
    requires Half(s, r)
    ensures Half(Sending.Tick(s, ms), r)
  {
    hide Truthful, Start, Linked, Sending.Tick;
    TickKeeps(s, ms);
    HalfGrows(s, Sending.Tick(s, ms), r);
  }

  lemma HalfAck(s: Sender, r: Receiver, a: Delivery.Ack)
    requires Half(s, r) && DeliveryTheorems.AckOk(s, r, a) && |s.stream.written| + 3 < TWO63 && Near(a.number, s.next)
    ensures Half(AckReceived(s, a.ackno, a.window), r) && AcksTo(s, AckReceived(s, a.ackno, a.window))
  {
    hide AckReceived, Truthful, Wrap, Unwrap, Start, Linked;
    AckReceivedKeeps(s, a.ackno, a.window);
    UnwrapWrapIff(a.number, s.isn, s.next);
    HalfGrows(s, AckReceived(s, a.ackno, a.window), r);
  }

  /** The two senders agree on everything but their queues, their timers and the error flag. */
  ghost predicate SameCourse(s: Sender, s': Sender)
  {
    && s'.isn == s.isn && s'.sent == s.sent && s'.next == s.next && s'.confirmed == s.confirmed
    && s'.window == s.window && s'.finSent == s.finSent && s'.stream.written == s.stream.written
  }

  lemma HalfSame(s: Sender, s': Sender, r: Receiver)
    requires Half(s, r) && SenderInv(s') && SameCourse(s, s')
    ensures Half(s', r)
  {
    hide Truthful, Flight, Linked;
    LinkedGrows(s, s', r);
  }

  lemma QueueKeeps(s: Sender, out: seq<Segment>)
    requires SenderInv(s)
    ensures SenderInv(s.(segmentsOut := out))
  {
    hide Truthful, Flight;
  }

  lemma EndKeeps(s: Sender)
    requires SenderInv(s)
    ensures SenderInv(s.(stream := s.stream.EndInput()))
  {
    hide Start, Flight, Wrap;
    var s' := s.(stream := s.stream.EndInput());
    forall i: nat | i < |s'.sent|
      ensures Truthful(s'.sent, i, s'.isn, s'.stream, s'.finSent)
    {
      assert Truthful(s.sent, i, s.isn, s.stream, s.finSent);
    }
  }

  lemma ErrorKeeps(s: Sender)
    requires SenderInv(s)
    ensures SenderInv(s.(stream := s.stream.SetError()))
  {
    hide Start, Flight, Wrap;
    var s' := s.(stream := s.stream.SetError());
    forall i: nat | i < |s'.sent|
      ensures Truthful(s'.sent, i, s'.isn, s'.stream, s'.finSent)
    {
      assert Truthful(s.sent, i, s.isn, s.stream, s.finSent);
    }
  }

  /** Writing more, before the FIN, leaves what is stored true. */
  lemma HalfWrite(s: Sender, r: Receiver, data: Bytes)
    requires Half(s, r) && !s.stream.ended
    ensures Half(s.(stream := s.stream.Write(data)), r)
  {
    hide Truthful, Flight, Start, Wrap;
    WriteSentOk(s, data);
    var s' := s.(stream := s.stream.Write(data));
    forall d | d in r.reassembler.store
      ensures Good(s'.stream.written, Edge(r.reassembler), d)
    {
      assert Good(s.stream.written, Edge(r.reassembler), d);
    }
  }

  // ---------------------------------------------------------------- the other receiver

  /** The receiver keeps its number and its room does not shrink. */
  lemma HalfOther(s: Sender, r: Receiver, r': Receiver)
    requires Half(s, r) && Linked(s, r') && r.number <= r'.number && RightEdge(r) <= RightEdge(r')
    ensures Half(s, r')
  {
    hide SenderInv, Linked, Start;
    forall i: nat | 1 <= i < |s.sent|
      ensures Fits(Start(s.sent, i), s.sent[i].Len(), RightEdge(r'), r'.number)
    {
      assert Fits(Start(s.sent, i), s.sent[i].Len(), RightEdge(r), r.number);
    }
  }

  lemma HalfRead(s: Sender, r: Receiver, len: nat)
    requires Half(s, r)
    ensures Half(s, r.(reassembler := Reassembly.Read(r.reassembler, len)))
  {
    hide Truthful, Flight, Start, Slice, FlowOk;
    HalfOther(s, r, r.(reassembler := Reassembly.Read(r.reassembler, len)));
  }

  lemma HalfReset(s: Sender, r: Receiver)
    requires Half(s, r)
    ensures Half(s, r.(reassembler := r.reassembler.(out := r.Out().SetError())))
  {
    hide Truthful, Flight, Start, Slice, FlowOk;
    HalfOther(s, r, r.(reassembler := r.reassembler.(out := r.Out().SetError())));
  }

  // ---------------------------------------------------------------- a connection and its peer

  /** The segment is from the sender's history, but for its acknowledgment, or is empty; its
      32-bit sequence number stands for `n`. */
  ghost predicate At(s: Sender, seg: Segment, n: nat)
  {
    || (exists i: nat :: i < |s.sent| && Matches(seg, s.sent[i]) && Start(s.sent, i) == n)
    || (seg.Len() == 0 && n <= s.next && seg.header.seqno == Wrap(n, s.isn))
  }

  ghost predicate Known(s: Sender, seg: Segment)
  {
    exists n: nat :: At(s, seg, n)
  }

  ghost predicate QueueOk(s: Sender)
  {
    forall seg :: seg in s.segmentsOut ==> Known(s, seg) && !seg.header.ack
  }

  /** A segment the connection has queued; its acknowledgment is the receiver's. */
  ghost predicate OutOk(c: Connection, seg: Segment)
  {
    && (!seg.header.rst ==> Known(c.sender, seg))
    && (seg.header.ack ==>
          && !c.receiver.listening
          && seg.header.ackno == Wrap(c.receiver.number, c.receiver.isn)
          && seg.header.win == c.receiver.WindowSize() % TWO16)
  }

  /** The connection between two of its calls on sender and receiver, seen from its peer `p`. */
  ghost predicate Mid(c: Connection, p: Connection)
  {
    && c.Ready()
    && Half(c.sender, p.receiver) && Half(p.sender, c.receiver)
    && QueueOk(c.sender)
    && (forall seg :: seg in c.segmentsOut ==> OutOk(c, seg))
  }

  /** Nothing that was sent, counted or granted is taken back. */
  ghost predicate Forward(c: Connection, c': Connection)
  {
    && Further(c.sender, c'.sender)
    && (c.sender.finSent ==> c'.sender.finSent)
    && c.receiver.number <= c'.receiver.number
    && RightEdge(c.receiver) <= RightEdge(c'.receiver)
  }

  /** And nothing is written. */
  ghost predicate Steady(c: Connection, c': Connection)
  {
    Forward(c, c') && c'.sender.stream.written == c.sender.stream.written
  }

  lemma ForwardTrans(a: Connection, b: Connection, c: Connection)
    requires Forward(a, b) && Forward(b, c)
    ensures Forward(a, c)
  {
  }

  lemma SteadyTrans(a: Connection, b: Connection, c: Connection)
    requires Steady(a, b) && Steady(b, c)
    ensures Steady(a, c)
  {
  }

  /** The sender has gone on from `s` to `s'`. */
  ghost predicate Further(s: Sender, s': Sender)
  {
    s.sent <= s'.sent && s.next <= s'.next && s'.isn == s.isn
  }

  lemma AtGrows(s: Sender, s': Sender, seg: Segment, n: nat)
    requires At(s, seg, n) && Further(s, s')
    ensures At(s', seg, n)
  {
    hide Wrap, Start;
    if i: nat :| i < |s.sent| && Matches(seg, s.sent[i]) && Start(s.sent, i) == n {
      assert s'.sent[i] == s.sent[i];
      assert Start(s'.sent, i) == n by { StartSame(s.sent, s'.sent, i); }
    }
  }

  lemma StartSame(sent: seq<Segment>, sent': seq<Segment>, i: nat)
    requires i <= |sent| && sent <= sent'
    ensures Start(sent', i) == Start(sent, i)
  {
    assert sent'[..i] == sent[..i];
  }

  lemma KnownGrows(s: Sender, s': Sender, seg: Segment)
    requires Known(s, seg) && Further(s, s')
    ensures Known(s', seg)
  {
    hide At, Further;
    var n: nat :| At(s, seg, n);
    AtGrows(s, s', seg, n);
  }

  lemma SentKnown(s: Sender, seg: Segment)
    requires SentOk(s) && seg in s.sent
    ensures Known(s, seg) && !seg.header.ack
  {
    hide Wrap, Start;
    var i: nat :| i < |s.sent| && s.sent[i] == seg;
    assert Truthful(s.sent, i, s.isn, s.stream, s.finSent);
    assert At(s, seg, Start(s.sent, i));
  }

  lemma OutGrows(c: Connection, c': Connection, seg: Segment)
    requires OutOk(c, seg) && Further(c.sender, c'.sender) && c'.receiver == c.receiver
    ensures OutOk(c', seg)
  {
    hide Known, Further;
    if !seg.header.rst {
      KnownGrows(c.sender, c'.sender, seg);
    }
  }

  lemma DressedOk(c: Connection, seg: Segment)
    requires Known(c.sender, seg) && !seg.header.ack
    ensures OutOk(c, Dress(c.receiver, seg))
  {
    hide Wrap, Start;
    var n: nat :| At(c.sender, seg, n);
    assert At(c.sender, Dress(c.receiver, seg), n);
  }

  /** Moving the queued segments out keeps the middle, and empties the sender's queue. */
  lemma MidSend(c: Connection, p: Connection)
    requires Mid(c, p)
    ensures Mid(SendSegmentsOut(c), p) && SendSegmentsOut(c).sender.segmentsOut == [] && Steady(c, SendSegmentsOut(c))
  {
    hide Truthful, Flight, Start, Linked, FlowOk, Dress, OutOk;
    var c' := SendSegmentsOut(c);
    QueueKeeps(c.sender, []);
    HalfSame(c.sender, c'.sender, p.receiver);
    forall seg | seg in c'.segmentsOut
      ensures OutOk(c', seg)
    {
      if seg in c.segmentsOut {
        OutGrows(c, c', seg);
      } else {
        var k :| 0 <= k < |c.sender.segmentsOut| && seg == Dress(c.receiver, c.sender.segmentsOut[k]);
        assert c.sender.segmentsOut[k] in c.sender.segmentsOut;
        DressedOk(c, c.sender.segmentsOut[k]);
        OutGrows(c, c', seg);
      }
    }
  }

  /** The sender moves on. */
  lemma MidSender(c: Connection, p: Connection, s: Sender)
    requires Mid(c, p) && Half(s, p.receiver) && Further(c.sender, s) && QueueOk(s)
    ensures Mid(c.(sender := s), p)
  {
    hide Truthful, Flight, Linked, FlowOk, OutOk;
    var c' := c.(sender := s);
    forall seg | seg in c'.segmentsOut
      ensures OutOk(c', seg)
    {
      OutGrows(c, c', seg);
    }
  }

  lemma QueueGrows(s: Sender, s': Sender)
    requires QueueOk(s) && SentOk(s') && Further(s, s') && s'.segmentsOut == s.segmentsOut + s'.sent[|s.sent|..]
    ensures QueueOk(s')
  {
    hide Known, Truthful, Further;
    forall seg | seg in s'.segmentsOut
      ensures Known(s', seg) && !seg.header.ack
    {
      if seg in s.segmentsOut {
        KnownGrows(s, s', seg);
      } else {
        SentKnown(s', seg);
      }
    }
  }

  lemma MidFill(c: Connection, p: Connection)
    requires Mid(c, p)
    ensures Mid(c.(sender := FillWindow(c.sender)), p) && Steady(c, c.(sender := FillWindow(c.sender)))
  {
    hide Truthful, Flight, Linked, FlowOk, OutOk, FillWindow, QueueOk;
    HalfFill(c.sender, p.receiver);
    QueueGrows(c.sender, FillWindow(c.sender));
    MidSender(c, p, FillWindow(c.sender));
  }

  lemma MidFillAndSend(c: Connection, p: Connection)
    requires Mid(c, p)
    ensures Mid(FillAndSend(c), p) && FillAndSend(c).sender.segmentsOut == [] && Steady(c, FillAndSend(c))
  {
    hide Truthful, Flight, Linked, FlowOk, OutOk, FillWindow, QueueOk, SendSegmentsOut, Half, Steady;
    var c1 := c.(sender := FillWindow(c.sender));
    MidFill(c, p);
    MidSend(c1, p);
    SteadyTrans(c, c1, FillAndSend(c));
  }

  lemma MidAnswer(c: Connection, p: Connection, seg: Segment)
    requires Mid(c, p) && c.sender.segmentsOut == []
    ensures Mid(Answer(c, seg), p) && Answer(c, seg).sender.segmentsOut == [] && Steady(c, Answer(c, seg))
  {
    hide Truthful, Flight, Linked, FlowOk, OutOk, FillWindow, SendSegmentsOut, Half, Wrap;
    if seg.Len() > 0 {
      MidFillAndSend(c, p);
      var c2 := FillAndSend(c);
      var c3 := c2.(sender := SendEmpty(c2.sender));
      assert Half(c3.sender, p.receiver) by { hide *; HalfEmpty(c2.sender, p.receiver); }
      assert QueueOk(c3.sender) by { hide *; EmptyQueue(c2.sender); }
      MidSender(c2, p, c3.sender);
      MidSend(c3, p);
      SteadyTrans(c, c2, c3);
      SteadyTrans(c, c3, SendSegmentsOut(c3));
    }
  }

  lemma EmptyQueue(s: Sender)
    requires QueueOk(s)
    ensures QueueOk(SendEmpty(s))
  {
    hide Wrap, Start;
    var s' := SendEmpty(s);
    forall seg | seg in s'.segmentsOut
      ensures Known(s', seg) && !seg.header.ack
    {
      if seg in s.segmentsOut {
        KnownGrows(s, s', seg);
      } else {
        assert At(s', seg, s.next);
      }
    }
  }

  lemma HalfEmpty(s: Sender, r: Receiver)
    requires Half(s, r)
    ensures Half(SendEmpty(s), r)
  {
    hide Truthful, Flight, Linked, FlowOk, Wrap;
    QueueKeeps(s, SendEmpty(s).segmentsOut);
    HalfSame(s, SendEmpty(s), r);
  }

  // ---------------------------------------------------------------- packets

  /** A packet that `from` has sent to the connection whose sender is `to`. */
  ghost predicate PacketOk(from: Connection, to: Sender, packet: Packet)
  {
    && (!packet.seg.header.rst ==> Known(from.sender, packet.seg))
    && (packet.seg.header.ack ==>
          DeliveryTheorems.AckOk(to, from.receiver, Delivery.Ack(packet.seg.header.ackno, packet.seg.header.win, packet.number)))
  }

  /** The packet's 32-bit numbers are unambiguous where it arrives: it is at most 2^31 numbers
      late. */
  ghost predicate OnTime(from: Connection, to: Connection, packet: Packet)
  {
    && (!packet.seg.header.rst ==>
          exists n: nat :: At(from.sender, packet.seg, n) && Near(n, to.receiver.number))
    && (packet.seg.header.ack ==> Near(packet.number, to.sender.next))
  }

  lemma PacketGrows(from: Connection, from': Connection, to: Sender, to': Sender, packet: Packet)
    requires PacketOk(from, to, packet) && Forward(from, from')
    requires to'.isn == to.isn && (to.finSent ==> to'.finSent)
    ensures PacketOk(from', to', packet)
  {
    hide Wrap, Known, Further;
    if !packet.seg.header.rst {
      KnownGrows(from.sender, from'.sender, packet.seg);
    }
  }

  lemma OutIsPacket(c: Connection, p: Connection, seg: Segment)
    requires Mid(c, p) && OutOk(c, seg)
    ensures PacketOk(c, p.sender, Packet(seg, c.receiver.number))
  {
    hide Truthful, Flight, Wrap, Start, Slice;
    if seg.header.ack {
      WindowFits(c.receiver.WindowSize());
    }
  }

  // ---------------------------------------------------------------- receiving

  lemma MidTakeAck(c: Connection, p: Connection, seg: Segment, number: nat)
    requires Mid(c, p) && c.sender.segmentsOut == [] && |c.sender.stream.written| + 3 < TWO63
    requires seg.header.ack ==>
      && DeliveryTheorems.AckOk(c.sender, p.receiver, Delivery.Ack(seg.header.ackno, seg.header.win, number))
      && Near(number, c.sender.next)
    ensures Mid(TakeAck(c, seg), p) && TakeAck(c, seg).sender.segmentsOut == [] && Steady(c, TakeAck(c, seg))
  {
    hide Truthful, Flight, Linked, FlowOk, OutOk, AckReceived, SendSegmentsOut, Wrap, QueueOk;
    if seg.header.ack {
      HalfAck(c.sender, p.receiver, Delivery.Ack(seg.header.ackno, seg.header.win, number));
      var s := AckReceived(c.sender, seg.header.ackno, seg.header.win);
      QueueGrows(c.sender, s);
      MidSender(c, p, s);
      MidSend(c.(sender := s), p);
      SteadyTrans(c, c.(sender := s), TakeAck(c, seg));
    }
  }

  /** The receiver takes a packet. */
  lemma HalfReceives(s: Sender, c: Connection, from: Connection, packet: Packet)
    requires s == from.sender && Half(s, c.receiver) && PacketOk(from, c.sender, packet) && OnTime(from, c, packet)
    requires s.next < TWO63 && !packet.seg.header.rst
    requires SegmentReceived(c.receiver, packet.seg).Done?
    ensures Half(s, SegmentReceived(c.receiver, packet.seg).value)
    ensures Moved(c.receiver, SegmentReceived(c.receiver, packet.seg).value)
  {
    hide SegmentReceived, Start, Wrap, Truthful, Flight, Slice, FlowOk;
    var r := c.receiver;
    var n: nat :| At(s, packet.seg, n) && Near(n, r.number);
    if i: nat :| i < |s.sent| && Matches(packet.seg, s.sent[i]) && Start(s.sent, i) == n {
      SameToReceiver(r, packet.seg, s.sent[i]);
      PieceLinks(s, r, i);
    } else {
      EmptyLinks(s, r, packet.seg, n);
    }
    HalfOther(s, r, SegmentReceived(r, packet.seg).value);
  }

  ghost predicate Quiet(c: Connection)
  {
    c.segmentsOut == [] && c.sender.segmentsOut == []
  }

  lemma SameQueue(s: Sender, s': Sender)
    requires QueueOk(s) && Further(s, s') && s'.segmentsOut == s.segmentsOut
    ensures QueueOk(s')
  {
    hide Known, Further;
    forall seg | seg in s'.segmentsOut
      ensures Known(s', seg) && !seg.header.ack
    {
      KnownGrows(s, s', seg);
    }
  }

  lemma MidAbort(c: Connection, p: Connection)
    requires Mid(c, p)
    ensures Mid(Abort(c), p) && Steady(c, Abort(c))
  {
    hide Truthful, Flight, Linked, FlowOk, Wrap, Known;
    var s := Abort(c).sender;
    ErrorKeeps(c.sender);
    HalfSame(c.sender, s, p.receiver);
    SameQueue(c.sender, s);
    MidSender(c, p, s);
    HalfReset(p.sender, c.receiver);
  }

  lemma MidReceive(c: Connection, p: Connection, packet: Packet)
    requires Mid(c, p) && Quiet(c) && PacketOk(p, c.sender, packet) && OnTime(p, c, packet)
    requires |c.sender.stream.written| + 3 < TWO63 && |p.sender.stream.written| + 3 < TWO63
    ensures
      var o := Receive(c, packet.seg);
      o.Done? ==> Mid(o.value, p) && o.value.sender.segmentsOut == [] && Steady(c, o.value)
  {
    hide SegmentReceived, Answer, TakeAck, Truthful, Flight, SeqLen, Linked, FlowOk, QueueOk, Known, Wrap, OutOk;
    var seg := packet.seg;
    if seg.header.rst {
      MidAbort(c.(elapsed := 0), p);
    } else if SegmentReceived(c.receiver, seg).Done? {
      HalfReceives(p.sender, c, p, packet);
      var c1 := c.(elapsed := 0, receiver := SegmentReceived(c.receiver, seg).value);
      assert Mid(c1, p) && Steady(c, c1);
      var c2 := StopLingering(c1);
      assert Mid(c2, p) && Steady(c, c2);
      MidTakeAck(c2, p, seg, packet.number);
      MidAnswer(TakeAck(c2, seg), p, seg);
      SteadyTrans(c, c2, TakeAck(c2, seg));
      SteadyTrans(c, TakeAck(c2, seg), Answer(TakeAck(c2, seg), seg));
    }
  }
}
