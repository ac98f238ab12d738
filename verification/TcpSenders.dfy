/** The object `TCPSender`, which updates its queues and its timer in place. */
module TcpSenders {
  import opened Basics
  import opened ByteStreams
  import opened Segments
  import opened WrappingIntegers
  import opened Sending

  class TCPSender {
    const isn: U32
    const initialTimeout: U16
    const stream: ByteStream
    var segmentsOut: seq<Segment>
    var outstanding: seq<Segment>
    ghost var sent: seq<Segment>
    var timeout: U32
    var elapsed: nat
    var timing: bool
    var retransmissions: U16
    var nextSeqno: nat
    var confirmedSeqno: nat
    var finSent: bool
    var bytesInFlight: nat
    var receiverWindow: U16

    /** The bytes in flight are the lengths of the outstanding segments. */
    ghost predicate Valid()
      reads this, stream
    {
      stream.Valid() && bytesInFlight == SeqLen(outstanding)
    }

    ghost function Model(): (s: Sender)
      requires Valid()
      reads this, stream
      ensures s.stream.Valid()
    {
      Sender(isn, segmentsOut, outstanding, sent, initialTimeout, timeout, elapsed, timing,
             retransmissions, stream.Model(), nextSeqno, confirmedSeqno, finSent, receiverWindow)
    }

    constructor (capacity: nat, timeout: U16, isn: U32)
      ensures Valid() && fresh(stream) && Model() == NewSender(capacity, timeout, isn)
    {
      this.isn := isn;
      initialTimeout := timeout;
      stream := new ByteStream(capacity);
      segmentsOut, outstanding, sent := [], [], [];
      this.timeout, elapsed, timing, retransmissions := timeout, 0, false, 0;
      nextSeqno, confirmedSeqno, finSent, bytesInFlight, receiverWindow := 0, 0, false, 0, 0;
    }

    method SendTcpSegment(seg: Segment)
      requires Valid()
      modifies this
      ensures Valid() && Model() == Send(old(Model()), seg)
    {
      hide Wrap, SeqLen;
      var stamped := seg.(header := seg.header.(seqno := Wrap(nextSeqno, isn)));
      SeqLenAppend(outstanding, stamped);
      segmentsOut, outstanding, sent, nextSeqno, bytesInFlight :=
        segmentsOut + [stamped], outstanding + [stamped], sent + [stamped], nextSeqno + stamped.Len(), bytesInFlight + stamped.Len();
      StartTimer();
    }

    /** A timer that is running goes on. */
    method StartTimer()
      requires Valid()
      modifies this`timing, this`elapsed
      ensures Valid() && Model() == old(Model()).(timing := true, elapsed := if old(timing) then old(elapsed) else 0)
    {
      if !timing {
        timing, elapsed := true, 0;
      }
    }

    /** One round of the filling loop. */
    method FillRound(available: nat) returns (used: nat)
      requires Valid() && stream.bufferSize > 0 && available > 0
      modifies this, stream
      ensures Valid() && Model() == FillStep(old(Model()), available)
      ensures used == nextSeqno - old(nextSeqno)
    {
      hide Send;
      var size := Min(Min(stream.bufferSize, available), MAX_PAYLOAD_SIZE);
      var payload := stream.Read(size);
      var fin := stream.inputEnded && stream.bufferSize == 0 && size < available;
      if fin {
        finSent := true;
      }
      var seg := Carry(payload, fin);
      ghost var filled := Model();
      SendTcpSegment(seg);
      SendNext(filled, seg);
      used := seg.Len();
    }

    method FillWindow()
      requires Valid()
      modifies this, stream
      ensures Valid() && Model() == Sending.FillWindow(old(Model()))
    {
      hide Send, FillStep;
      if finSent {
        return;
      }
      if nextSeqno == 0 {
        SendTcpSegment(Synchronize());
        return;
      }
      var window := if receiverWindow == 0 then 1 else receiverWindow;
      if confirmedSeqno + window <= nextSeqno {
        return;
      }
      if stream.inputEnded && stream.bufferSize == 0 {
        SendTcpSegment(Carry([], true));
        finSent := true;
        return;
      }
      var available := window - (nextSeqno - confirmedSeqno);
      ghost var goal := FillLoop(Model(), available);
      while stream.bufferSize > 0 && available > 0
        invariant Valid() && available >= 0
        invariant FillLoop(Model(), available) == goal
        decreases stream.bufferSize
      {
        var used := FillRound(available);
        available := available - used;
      }
    }

    method Tick(ms: nat)
      requires Valid()
      modifies this
      ensures Valid() && Model() == Sending.Tick(old(Model()), ms)
    {
      hide SeqLen;
      if !timing {
        return;
      }
      elapsed := elapsed + ms;
      if elapsed >= timeout && |outstanding| > 0 {
        var seg := outstanding[0];
        segmentsOut, elapsed := segmentsOut + [seg], 0;
        if receiverWindow > 0 || seg.header.syn {
          retransmissions, timeout := (retransmissions + 1) % TWO16, timeout * 2 % TWO32;
        }
      }
    }

    /** Remove the oldest outstanding segment, and restart the timer with its initial timeout. */
    method PopFront()
      requires Valid() && outstanding != []
      modifies this
      ensures Valid()
      ensures
        Model() == old(Model()).(outstanding := old(outstanding)[1..],
                                 timeout := initialTimeout, retransmissions := 0, elapsed := 0)
    {
      hide SeqLen;
      PoppedLength(outstanding);
      timeout, retransmissions, elapsed := initialTimeout, 0, 0;
      bytesInFlight := bytesInFlight - outstanding[0].Len();
      outstanding := outstanding[1..];
    }

    /** The popping loop of `ack_received`; `popped` says whether it removed anything. */
    method PopConfirmed() returns (popped: bool)
      requires Valid()
      modifies this
      ensures Valid() && Model() == PopAcked(old(Model()))
      ensures outstanding == [] ==> (popped <==> old(outstanding) != [])
    {
      hide Unwrap, SeqLen;
      popped := false;
      while |outstanding| > 0
        invariant Valid() && PopAcked(Model()) == PopAcked(old(Model()))
        invariant popped || outstanding == old(outstanding)
        invariant popped ==> old(outstanding) != []
        decreases |outstanding|
      {
        var front := outstanding[0];
        if confirmedSeqno < Unwrap(front.header.seqno, isn, nextSeqno) + front.Len() {
          return;
        }
        popped := true;
        PopFront();
      }
    }

    method AckReceived(ackno: U32, window: U16)
      requires Valid()
      modifies this, stream
      ensures Valid() && Model() == Sending.AckReceived(old(Model()), ackno, window)
    {
      hide Unwrap, PopAcked, Sending.FillWindow, SeqLen;
      var absolute := Unwrap(ackno, isn, nextSeqno);
      if confirmedSeqno > absolute || absolute > nextSeqno {
        return;
      }
      confirmedSeqno := absolute;
      receiverWindow := window;
      ghost var was := Model();
      var popped := PopConfirmed();
      PopKeepsStream(was);
      if |outstanding| > 0 {
        return;
      }
      if popped {
        FillWindow();
      }
      timing := |outstanding| > 0;
    }

    method SendEmptySegment()
      requires Valid()
      modifies this
      ensures Valid() && Model() == SendEmpty(old(Model()))
    {
      segmentsOut := segmentsOut + [Segment(DEFAULT_HEADER.(seqno := Wrap(nextSeqno, isn)), [])];
    }

    /** Take the oldest segment off the outbound queue. */
    method ReadASegment() returns (seg: Segment)
      requires Valid() && segmentsOut != []
      modifies this`segmentsOut
      ensures Valid() && seg == old(segmentsOut)[0] && segmentsOut == old(segmentsOut)[1..]
    {
      seg := segmentsOut[0];
      segmentsOut := segmentsOut[1..];
    }
  }

  lemma PoppedLength(segments: seq<Segment>)
    requires segments != []
    ensures SeqLen(segments) == segments[0].Len() + SeqLen(segments[1..])
  {
    SeqLenConcat([segments[0]], segments[1..]);
    assert [segments[0]] + segments[1..] == segments;
    assert [segments[0]][..0] == [];
  }

  lemma SendNext(s: Sender, seg: Segment)
    ensures Send(s, seg).next == s.next + seg.Len()
  {
  }
}
