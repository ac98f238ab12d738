/** What `TCPReceiver` computes, as functions of its state. */
module Receiving {
  import opened Basics
  import opened ByteStreams
  import opened Reassembly
  import opened Segments
  import opened WrappingIntegers

  /** `number` is the absolute sequence number the receiver waits for, `abs_seqno`; `listening`
      says that no SYN has arrived yet. */
  datatype Receiver = Receiver(reassembler: Reassembler, number: nat, isn: U32, listening: bool) {

    function Out(): Stream
    {
      reassembler.out
    }

    function WindowSize(): int
    {
      Out().Remaining()
    }

    function Ackno(): Option<U32>
    {
      if listening then None else Some(Wrap(number, isn))
    }
  }

  function NewReceiver(capacity: nat): Receiver
  {
    Receiver(NewReassembler(capacity), 0, 0, true)
  }

  /** The number after a segment at the awaited place: past the bytes that are out, or past the
      SYN, and past the end if that is known. */
  function Advance(number: nat, seg: Segment, out: Stream): nat
  {
    (if seg.payload != [] then |out.written| + 1
     else if number == 0 then 1
     else number)
    + (if seg.header.fin || out.ended then 1 else 0)
  }

  /** `segment_received` */
  function SegmentReceived(r: Receiver, seg: Segment): (o: Outcome<Receiver>)
    requires r.Out().Valid()
    ensures o.Done? ==> o.value.Out().Valid() && Extends(r.Out(), o.value.Out())
  {
    if r.listening && !seg.header.syn then Done(r)
    else
      var r1 := if r.listening then r.(listening := false, isn := seg.header.seqno) else r;
      var at := Unwrap(seg.header.seqno, r1.isn, r1.number);
      if r1.number == 1 && at < 1 then Done(r1)
      else
        var o := Push(r1.reassembler, Datagram(seg.payload, if at > 0 then at - 1 else at, seg.header.fin));
        if o.Hang? then Hang
        else
          var r2 := r1.(reassembler := o.value);
          Done(if at != r1.number then r2 else r2.(number := Advance(r1.number, seg, r2.Out())))
  }
}
