/** The object `TCPReceiver`. */
module TcpReceivers {
  import opened Basics
  import opened ByteStreams
  import opened Reassembly
  import opened Segments
  import opened WrappingIntegers
  import opened Receiving
  import opened StreamReassemblers

  class TCPReceiver {
    const reassembler: StreamReassembler
    const capacity: nat
    var absSeqno: nat
    var isn: U32
    var firstSegment: bool

    ghost predicate Valid()
      reads this, reassembler, reassembler.output
    {
      reassembler.Valid() && capacity == reassembler.capacity
    }

    ghost function Model(): (r: Receiver)
      requires Valid()
      reads this, reassembler, reassembler.output
      ensures r.Out().Valid()
    {
      Receiver(reassembler.Model(), absSeqno, isn, firstSegment)
    }

    constructor (capacity: nat)
      ensures Valid() && fresh(reassembler) && fresh(reassembler.output) && Model() == NewReceiver(capacity)
    {
      reassembler := new StreamReassembler(capacity);
      this.capacity := capacity;
      absSeqno, isn, firstSegment := 0, 0, true;
    }

    method SegmentReceived(seg: Segment) returns (hung: bool)
      requires Valid()
      modifies this, reassembler, reassembler.output
      ensures hung <==> Receiving.SegmentReceived(old(Model()), seg).Hang?
      ensures !hung ==> Valid() && Receiving.SegmentReceived(old(Model()), seg) == Done(Model())
    {
      hide Unwrap, Push;
      hung := false;
      if firstSegment && !seg.header.syn {
        return;
      }
      if firstSegment {
        firstSegment, isn := false, seg.header.seqno;
      }
      var at := Unwrap(seg.header.seqno, isn, absSeqno);
      if absSeqno == 1 && at < absSeqno {
        return;
      }
      var index := if at > 0 then at - 1 else at;
      hung := reassembler.PushSubstring(seg.payload, index, seg.header.fin);
      if hung || at != absSeqno {
        return;
      }
      if |seg.payload| > 0 {
        absSeqno := reassembler.output.bytesWritten + 1;
      } else if at == 0 {
        absSeqno := absSeqno + 1;
      }
      if seg.header.fin || reassembler.output.inputEnded {
        absSeqno := absSeqno + 1;
      }
    }

    method Ackno() returns (ackno: Option<U32>)
      requires Valid()
      ensures ackno == Model().Ackno()
    {
      ackno := if firstSegment then None else Some(Wrap(absSeqno, isn));
    }

    method WindowSize() returns (size: nat)
      requires Valid()
      ensures size == Model().WindowSize()
    {
      size := capacity - reassembler.output.bufferSize;
    }
  }
}
