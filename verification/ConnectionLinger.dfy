/** Which side lingers after both streams have finished: exactly the one that finished first. */
module ConnectionLinger {
  import opened Basics
  import opened ByteStreams
  import opened Reassembly
  import ReassemblyTheorems
  import opened Segments
  import opened WrappingIntegers
  import opened Sending
  import opened SendingTheorems
  import opened Receiving
  import opened Connections
  import opened ConnectionTheorems
  import opened ConnectionTimes

  /** Our stream is ended, and all of it has been read for sending. */
  ghost predicate OwnFinished(s: Sender)
  {
    s.stream.ended && s.stream.read == |s.stream.written|
  }

  /** The event is an arrival, not a reset, that leaves the peer's stream ended and no byte waiting,
      while our stream is not finished. */
  ghost predicate PeerFirst(c: Connection, e: Event)
    requires c.Ready()
  {
    && e.Arrival? && !e.seg.header.rst
    && var o := SegmentReceived(c.receiver, e.seg);
       && o.Done? && o.value.Out().ended && (forall i: nat :: !ReassemblyTheorems.Stored(o.value.reassembler.store, i))
       && !OwnFinished(c.sender)
  }

  /** Nothing else makes a connection give up lingering. */
  lemma EventLinger(c: Connection, e: Event)
    requires c.Ready() && Next(c, e).Done?
    ensures Next(c, e).value.linger <==> c.linger && !PeerFirst(c, e)
  {
    hide SegmentReceived, Reply, FillWindow, Sending.Tick, Dress, Wrap, SeqLen, StoredBytes;
    if e.Arrival? && !e.seg.header.rst {
      var r := SegmentReceived(c.receiver, e.seg).value;
      ReassemblyTheorems.StoredBytesIff(r.reassembler.store);
      ReplyLinger(c.(elapsed := 0, receiver := r), e.seg);
    }
  }

  lemma ReplyLinger(c: Connection, seg: Segment)
    requires c.Ready()
    ensures Reply(c, seg).linger <==>
      c.linger && !(c.receiver.Out().ended && StoredBytes(c.receiver.reassembler.store) == 0 && !OwnFinished(c.sender))
  {
    hide AckReceived, FillWindow, Stamp, Dress, StoredBytes;
  }

  /** Some event of the run is such. */
  ghost predicate PeerFirstDuring(c: Connection, events: seq<Event>)
    requires c.Ready()
    decreases |events|
  {
    && events != []
    && (PeerFirst(c, events[0])
        || (Next(c, events[0]).Done? && PeerFirstDuring(Next(c, events[0]).value, events[1..])))
  }

  /** Over every run: a connection has given up lingering if and only if the peer finished first. */
  lemma {:induction false} LingersUnless(c: Connection, events: seq<Event>)
    requires c.Ready() && Run(c, events).Done?
    ensures Run(c, events).value.linger <==> c.linger && !PeerFirstDuring(c, events)
    decreases |events|
  {
    hide Next, PeerFirst;
    if events != [] {
      EventLinger(c, events[0]);
      LingersUnless(Next(c, events[0]).value, events[1..]);
    }
  }

  lemma NewLingersUnless(sendCapacity: nat, recvCapacity: nat, timeout: U16, isn: U32, events: seq<Event>)
    ensures
      var c := NewConnection(sendCapacity, recvCapacity, timeout, isn);
      Run(c, events).Done? ==> (!Run(c, events).value.linger <==> PeerFirstDuring(c, events))
  {
    hide Run, PeerFirstDuring;
    var c := NewConnection(sendCapacity, recvCapacity, timeout, isn);
    if Run(c, events).Done? {
      LingersUnless(c, events);
    }
  }

  // ---------------------------------------------------------------- who finishes first

  /** The sender goes on, and its stream takes nothing more. */
  ghost predicate Continues(s: Sender, s': Sender)
  {
    && s.next <= s'.next && (s.finSent ==> s'.finSent)
    && s'.stream.written == s.stream.written && s'.stream.ended
  }

  lemma FinishedContinues(s: Sender, s': Sender)
    requires SenderInv(s) && SenderInv(s') && OwnFinished(s) && Continues(s, s')
    ensures OwnFinished(s')
  {
    hide Truthful, Flight, SeqLen;
  }

  lemma FillContinues(c: Connection)
    requires c.Ready() && SenderInv(c.sender) && c.sender.stream.ended
    ensures Continues(c.sender, FillAndSend(c).sender)
  {
    hide FillWindow, Truthful, Flight, SeqLen;
    FillWindowKeeps(c.sender);
  }

  lemma ReplyContinues(c: Connection, seg: Segment)
    requires ConnInv(c) && c.sender.next < TWO63 && c.sender.stream.ended
    ensures Continues(c.sender, Reply(c, seg).sender)
  {
    hide Truthful, Flight, FillWindow, AckReceived, TimerOk, NoStall, Reply;
    var s := Acked(c.sender, seg);
    AckReceivedKeeps(c.sender, seg.header.ackno, seg.header.win);
    AckedOk(c.sender, seg);
    ReplySender(c, seg);
    FillWindowKeeps(s);
  }

  lemma EventContinues(c: Connection, e: Event)
    requires ConnInv(c) && c.sender.next < TWO63 && c.sender.stream.ended && Next(c, e).Done?
    ensures Continues(c.sender, Next(c, e).value.sender)
  {
    hide SenderOk, Reply, SegmentReceived, FillAndSend, Sending.Tick, Connections.Tick, Summarize;
    assert SenderInv(c.sender) by { hide *; Parts(c); }
    match e {
      case Connect => FillContinues(c);
      case WriteData(_) =>
      case EndData =>
        assert c.sender.(stream := c.sender.stream.EndInput()) == c.sender;
        FillContinues(c);
      case Arrival(seg) =>
        if !seg.header.rst {
          ReplyContinues(c.(elapsed := 0, receiver := SegmentReceived(c.receiver, seg).value), seg);
        }
      case Clock(ms) =>
        TickKeeps(c.sender, ms);
        TickContinues(c, ms);
      case ReadData(_) =>
      case TakeSegment =>
    }
  }

  lemma TickContinues(c: Connection, ms: nat)
    requires c.Ready()
    ensures
      var s, s' := Sending.Tick(c.sender, ms), Connections.Tick(c, ms).sender;
      && s'.next == s.next && s'.finSent == s.finSent
      && s'.stream.written == s.stream.written && s'.stream.ended == s.stream.ended
  {
    hide Sending.Tick, Dress, Wrap, SeqLen, StoredBytes;
  }

  /** So a side that has finished its own stream while it still lingers goes on lingering, whatever
      arrives: it is the one that answers a repeated FIN of its peer. */
  lemma {:induction false} FinishedFirstLingers(c: Connection, events: seq<Event>)
    requires ConnInv(c) && |c.sender.stream.written| + Offered(events) + 2 < TWO63
    requires c.linger && OwnFinished(c.sender) && Run(c, events).Done?
    ensures Run(c, events).value.linger && OwnFinished(Run(c, events).value.sender)
    decreases |events|
  {
    hide Next, SenderOk, Summarize;
    if events != [] {
      var c1 := Next(c, events[0]).value;
      NextBelow(c);
      NextOk(c, events[0]);
      WrittenGrows(c, events[0]);
      EventLinger(c, events[0]);
      EventContinues(c, events[0]);
      assert SenderInv(c.sender) by { hide *; Parts(c); }
      assert SenderInv(c1.sender) by { hide *; Parts(c1); }
      FinishedContinues(c.sender, c1.sender);
      FinishedFirstLingers(c1, events[1..]);
    }
  }
}
