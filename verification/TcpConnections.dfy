/** The object `TCPConnection`, which owns a sender and a receiver and drains their queues. */
module TcpConnections {
  import opened Basics
  import opened ByteStreams
  import opened Reassembly
  import opened Segments
  import opened WrappingIntegers
  import opened Sending
  import opened Receiving
  import opened Connections
  import opened TcpSenders
  import opened TcpReceivers

  function MovedOne(c: Connection): Connection
    requires c.sender.segmentsOut != []
  {
    c.(segmentsOut := c.segmentsOut + [Dress(c.receiver, c.sender.segmentsOut[0])],
       sender := c.sender.(segmentsOut := c.sender.segmentsOut[1..]))
  }

  /** Moving the segments one by one is moving them all. */
  lemma MovedOneKeeps(c: Connection)
    requires c.sender.segmentsOut != []
    ensures SendSegmentsOut(MovedOne(c)) == SendSegmentsOut(c)
    ensures |MovedOne(c).sender.segmentsOut| == |c.sender.segmentsOut| - 1
  {
    hide Dress;
    var queue := c.sender.segmentsOut;
    assert SendSegmentsOut(MovedOne(c)).segmentsOut == SendSegmentsOut(c).segmentsOut;
  }

  lemma NoneToMove(c: Connection)
    requires c.sender.segmentsOut == []
    ensures SendSegmentsOut(c) == c
  {
    assert c.segmentsOut + [] == c.segmentsOut;
  }

  class TCPConnection {
    const timeout: U16
    const sender: TCPSender
    const receiver: TCPReceiver
    var segmentsOut: seq<Segment>
    var linger: bool
    var active: bool
    var elapsed: nat

    ghost function Footprint(): set<object>
    {
      {this, sender, sender.stream, receiver, receiver.reassembler, receiver.reassembler.output}
    }

    ghost predicate Valid()
      reads Footprint()
    {
      && sender.Valid() && receiver.Valid()
      && sender.stream != receiver.reassembler.output
    }

    ghost function Model(): (c: Connection)
      requires Valid()
      reads Footprint()
      ensures c.Ready()
    {
      Connection(sender.Model(), receiver.Model(), segmentsOut, linger, active, elapsed, timeout)
    }

    constructor (sendCapacity: nat, recvCapacity: nat, timeout: U16, isn: U32)
      ensures Valid() && Model() == NewConnection(sendCapacity, recvCapacity, timeout, isn)
    {
      this.timeout := timeout;
      sender := new TCPSender(sendCapacity, timeout, isn);
      receiver := new TCPReceiver(recvCapacity);
      segmentsOut, linger, active, elapsed := [], true, true, 0;
    }

    predicate InboundEnded()
      requires Valid()
      reads Footprint()
      ensures InboundEnded() == Model().InboundEnded()
    {
      receiver.reassembler.unassembledBytes == 0 && receiver.reassembler.output.inputEnded
    }

    predicate OutboundEnded()
      requires Valid()
      reads Footprint()
      ensures OutboundEnded() == Model().OutboundEnded()
    {
      && sender.stream.inputEnded && sender.stream.bufferSize == 0
      && sender.nextSeqno == sender.stream.bytesWritten + 2
      && sender.bytesInFlight == 0
    }

    /** Fill in the fields that only the receiver knows. */
    method FillIn(seg: Segment) returns (dressed: Segment)
      requires Valid()
      ensures dressed == Dress(receiver.Model(), seg)
    {
      var header := seg.header;
      var ackno := receiver.Ackno();
      if ackno.Some? {
        header := header.(ack := true, ackno := ackno.value);
      }
      var window := receiver.WindowSize();
      dressed := seg.(header := header.(win := window % TWO16));
    }

    /** One segment moves from the sender's queue to the connection's. */
    method MoveOne()
      requires Valid() && sender.segmentsOut != []
      modifies this, sender
      ensures Valid() && Model() == MovedOne(old(Model()))
    {
      hide Dress, SeqLen, StoredBytes;
      var seg := sender.ReadASegment();
      var dressed := FillIn(seg);
      segmentsOut := segmentsOut + [dressed];
    }

    method SendSegmentsOut() returns (sent: bool)
      requires Valid()
      modifies this, sender
      ensures Valid() && Model() == Connections.SendSegmentsOut(old(Model()))
      ensures sent == (old(sender.segmentsOut) != [])
    {
      hide Connections.SendSegmentsOut, MovedOne, SeqLen, StoredBytes;
      sent := false;
      ghost var goal := Connections.SendSegmentsOut(Model());
      while sender.segmentsOut != []
        invariant Valid() && Connections.SendSegmentsOut(Model()) == goal
        invariant sent || sender.segmentsOut == old(sender.segmentsOut)
        invariant sent ==> old(sender.segmentsOut) != []
        decreases |sender.segmentsOut|
      {
        sent := true;
        MovedOneKeeps(Model());
        ghost var queued := |sender.segmentsOut|;
        MoveOne();
        assert |sender.segmentsOut| == |Model().sender.segmentsOut| == queued - 1;
      }
      NoneToMove(Model());
    }

    method FillAndSend()
      requires Valid()
      modifies this, sender, sender.stream
      ensures Valid() && Model() == Connections.FillAndSend(old(Model()))
    {
      hide Sending.FillWindow, Connections.SendSegmentsOut, SeqLen, StoredBytes;
      sender.FillWindow();
      var _ := SendSegmentsOut();
    }

    method Connect()
      requires Valid()
      modifies this, sender, sender.stream
      ensures Valid() && Model() == Connections.FillAndSend(old(Model()))
    {
      FillAndSend();
    }

    method Write(data: Bytes) returns (accepted: nat)
      requires Valid()
      modifies this, sender, sender.stream
      ensures Valid() && Model() == Connections.Write(old(Model()), data)
      ensures accepted == old(Model()).sender.stream.Accepted(data)
    {
      hide Connections.FillAndSend, SeqLen, StoredBytes;
      if |data| == 0 {
        return 0;
      }
      accepted := sender.stream.Write(data);
      FillAndSend();
    }

    method EndInputStream()
      requires Valid()
      modifies this, sender, sender.stream
      ensures Valid() && Model() == EndInput(old(Model()))
    {
      hide Connections.FillAndSend, SeqLen, StoredBytes;
      sender.stream.EndInput();
      FillAndSend();
    }

    /** Both streams are in error and the connection is over. */
    method SetErrors()
      requires Valid()
      modifies this, sender.stream, receiver.reassembler.output
      ensures Valid() && Model() == Abort(old(Model()))
    {
      hide SeqLen, StoredBytes;
      sender.stream.SetError();
      receiver.reassembler.output.SetError();
      active := false;
    }

    /** The replies to a segment that the receiver has taken. */
    method ReplyTo(seg: Segment)
      requires Valid()
      modifies this, sender, sender.stream
      ensures Valid() && Model() == Reply(old(Model()), seg)
    {
      hide Sending.FillWindow, Sending.AckReceived, Connections.SendSegmentsOut, SeqLen, StoredBytes, SendEmpty;
      if InboundEnded() && !(sender.stream.inputEnded && sender.stream.bufferSize == 0) {
        linger := false;
      }
      assert Model() == StopLingering(old(Model()));
      if seg.header.ack {
        sender.AckReceived(seg.header.ackno, seg.header.win);
        var _ := SendSegmentsOut();
      }
      assert Model() == TakeAck(StopLingering(old(Model())), seg);
      AnswerTo(seg);
    }

    method AnswerTo(seg: Segment)
      requires Valid()
      modifies this, sender, sender.stream
      ensures Valid() && Model() == Answer(old(Model()), seg)
    {
      hide Sending.FillWindow, Connections.SendSegmentsOut, SeqLen, StoredBytes, SendEmpty;
      if seg.Len() > 0 {
        sender.FillWindow();
        var sent := SendSegmentsOut();
        if !sent {
          sender.SendEmptySegment();
          sent := SendSegmentsOut();
        }
      }
    }

    method SegmentReceived(seg: Segment) returns (hung: bool)
      requires Valid()
      modifies this, sender, sender.stream, receiver, receiver.reassembler, receiver.reassembler.output
      ensures hung <==> Receive(old(Model()), seg).Hang?
      ensures !hung ==> Valid() && Receive(old(Model()), seg) == Done(Model())
    {
      hide Receiving.SegmentReceived, Reply, SeqLen, StoredBytes;
      hung := false;
      elapsed := 0;
      if seg.header.rst {
        SetErrors();
        return;
      }
      hung := receiver.SegmentReceived(seg);
      if hung {
        return;
      }
      ReplyTo(seg);
    }

    method Tick(ms: nat)
      requires Valid()
      modifies this, sender, sender.stream, receiver.reassembler.output
      ensures Valid() && Model() == Connections.Tick(old(Model()), ms)
    {
      hide Sending.Tick, Connections.SendSegmentsOut, GiveUp;
      Retransmit(ms);
      if sender.retransmissions > MAX_RETX_ATTEMPTS {
        QueueReset();
      }
      CheckClosed();
    }

    /** The sender's part of a tick. */
    method Retransmit(ms: nat)
      requires Valid()
      modifies this, sender
      ensures Valid() && sender.segmentsOut == []
      ensures
        var c := old(Model());
        Model() == Connections.SendSegmentsOut(c.(elapsed := c.elapsed + ms, sender := Sending.Tick(c.sender, ms)))
    {
      hide Sending.Tick, Connections.SendSegmentsOut, SeqLen, StoredBytes, Wrap;
      elapsed := elapsed + ms;
      sender.Tick(ms);
      var _ := SendSegmentsOut();
    }

    /** After a clean close the connection stays active only to linger. */
    method CheckClosed()
      requires Valid()
      modifies this`active
      ensures Valid()
      ensures
        var c := old(Model());
        Model() == if c.InboundEnded() && c.OutboundEnded() then c.(active := c.linger && c.elapsed < 10 * c.timeout) else c
    {
      hide SeqLen, StoredBytes;
      if InboundEnded() && OutboundEnded() {
        active := !(!linger || elapsed >= 10 * timeout);
      }
    }

    /** Drop what is queued, queue a reset, and treat it as received. */
    method QueueReset()
      requires Valid() && sender.segmentsOut == []
      modifies this, sender, sender.stream, receiver.reassembler.output
      ensures Valid() && Model() == GiveUp(old(Model()))
    {
      hide SeqLen, StoredBytes, Wrap;
      sender.SendEmptySegment();
      var seg := sender.ReadASegment();
      assert sender.segmentsOut == [];
      segmentsOut, elapsed := [seg.(header := seg.header.(rst := true))], 0;
      SetErrors();
    }
  }
}
