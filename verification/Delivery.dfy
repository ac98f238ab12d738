/** One-way reliable delivery as a protocol of steps: a sender, a network that may lose, repeat
    and reorder, and a receiver whose acknowledgments may be lost, repeated and reordered too. */
module Delivery {
  import opened Basics
  import opened ByteStreams
  import opened Segments
  import opened WrappingIntegers
  import opened Reassembly
  import opened Sending
  import opened Receiving

  /** An acknowledgment in transit. `number` is a history variable: what `ackno` stands for. */
  datatype Ack = Ack(ackno: U32, window: U16, number: nat)

  datatype System = System(s: Sender, r: Receiver, wire: set<Segment>, acks: seq<Ack>)

  datatype Step =
    | Write(data: Bytes)
    | End
    | Fill
    | Tick(ms: nat)
    | Transmit
    | Deliver(i: nat)
    | Emit
    | Acknowledge(k: nat)
    | Read(len: nat)

  function Boot(sendCapacity: nat, recvCapacity: nat, timeout: U16, isn: U32): System
  {
    System(NewSender(sendCapacity, timeout, isn), NewReceiver(recvCapacity), {}, [])
  }

  ghost predicate Ready(sys: System)
  {
    sys.s.stream.Valid() && sys.r.Out().Valid()
  }

  /** One step. A step that is not possible leaves the system as it is: the writer does not write
      after the end, and only what has been sent can arrive, any number of times. */
  function Next(sys: System, step: Step): (o: Outcome<System>)
    requires Ready(sys)
    ensures o.Done? ==> Ready(o.value)
  {
    var s, r := sys.s, sys.r;
    match step
    case Write(data) =>
      Done(if s.stream.ended then sys else sys.(s := s.(stream := s.stream.Write(data))))
    case End => Done(sys.(s := s.(stream := s.stream.EndInput())))
    case Fill => Done(sys.(s := FillWindow(s)))
    case Tick(ms) => Done(sys.(s := Sending.Tick(s, ms)))
    case Transmit =>
      Done(if s.segmentsOut == [] then sys
           else sys.(s := s.(segmentsOut := s.segmentsOut[1..]), wire := sys.wire + {s.segmentsOut[0]}))
    case Deliver(i) =>
      if i < |s.sent| && s.sent[i] in sys.wire then
        var o := SegmentReceived(r, s.sent[i]);
        if o.Hang? then Hang else Done(sys.(r := o.value))
      else Done(sys)
    case Emit =>
      Done(match r.Ackno()
           case None => sys
           case Some(ackno) => sys.(acks := sys.acks + [Ack(ackno, r.WindowSize() % TWO16, r.number)]))
    case Acknowledge(k) =>
      Done(if k < |sys.acks| then sys.(s := AckReceived(s, sys.acks[k].ackno, sys.acks[k].window)) else sys)
    case Read(len) =>
      Done(sys.(r := r.(reassembler := Reassembly.Read(r.reassembler, len))))
  }

  function Run(sys: System, steps: seq<Step>): (o: Outcome<System>)
    requires Ready(sys)
    ensures o.Done? ==> Ready(o.value)
    decreases |steps|
  {
    if steps == [] then Done(sys)
    else if Next(sys, steps[0]).Hang? then Hang
    else Run(Next(sys, steps[0]).value, steps[1..])
  }
}
