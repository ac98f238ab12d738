/** What `TCPSender` computes, as functions of its state.

    `sent` is a history variable: every segment handed to `send_tcp_segment`, oldest first. The
    code keeps only the unacknowledged ones, in `outstanding`. */
module Sending {
  import opened Basics
  import opened ByteStreams
  import opened Segments
  import opened WrappingIntegers

  const MAX_PAYLOAD_SIZE := 1000

  datatype Sender = Sender(
    isn: U32,
    segmentsOut: seq<Segment>,
    outstanding: seq<Segment>,
    sent: seq<Segment>,
    initialTimeout: U16,
    timeout: U32,
    elapsed: nat,
    timing: bool,
    retransmissions: U16,
    stream: Stream,
    next: nat,
    confirmed: nat,
    finSent: bool,
    window: U16)
  {
    function InFlight(): nat
    {
      SeqLen(outstanding)
    }

    /** A closed window still admits one sequence number, to probe it. */
    function LogicalWindow(): nat
    {
      if window == 0 then 1 else window
    }
  }

  function NewSender(capacity: nat, timeout: U16, isn: U32): Sender
  {
    Sender(isn, [], [], [], timeout, timeout, 0, false, 0, NewStream(capacity), 0, 0, false, 0)
  }

  function Stamp(s: Sender, seg: Segment): Segment
  {
    seg.(header := seg.header.(seqno := Wrap(s.next, s.isn)))
  }

  /** `send_tcp_segment` */
  function Send(s: Sender, seg: Segment): Sender
  {
    var stamped := Stamp(s, seg);
    s.(segmentsOut := s.segmentsOut + [stamped],
       outstanding := s.outstanding + [stamped],
       sent := s.sent + [stamped],
       next := s.next + seg.Len(),
       elapsed := if s.timing then s.elapsed else 0,
       timing := true)
  }

  function Synchronize(): Segment
  {
    Segment(DEFAULT_HEADER.(syn := true), [])
  }

  function Carry(payload: Bytes, fin: bool): Segment
  {
    Segment(DEFAULT_HEADER.(fin := fin), payload)
  }

  /** The size of the next payload when `available` sequence numbers are free. */
  function PayloadSize(s: Sender, available: nat): nat
    requires s.stream.Valid()
  {
    Min(Min(s.stream.BufferSize(), available), MAX_PAYLOAD_SIZE)
  }

  /** One round of the filling loop: read a payload, and add the FIN if it is the last one and
      there is a number left for it. */
  function FillStep(s: Sender, available: nat): (s': Sender)
    requires s.stream.Valid() && s.stream.BufferSize() > 0 && available > 0
    ensures s'.stream.Valid() && s'.stream.BufferSize() < s.stream.BufferSize()
    ensures 0 <= s'.next - s.next <= available
  {
    var n := PayloadSize(s, available);
    var rest := s.stream.Pop(n);
    var fin := rest.Eof() && n < available;
    Send(s.(stream := rest, finSent := s.finSent || fin), Carry(s.stream.Peek(n), fin))
  }

  function FillLoop(s: Sender, available: nat): (s': Sender)
    requires s.stream.Valid()
    ensures s'.stream.Valid()
    decreases s.stream.BufferSize()
  {
    if s.stream.BufferSize() == 0 || available == 0 then s
    else
      var s1 := FillStep(s, available);
      FillLoop(s1, available - (s1.next - s.next))
  }

  function FillWindow(s: Sender): (s': Sender)
    requires s.stream.Valid()
    ensures s'.stream.Valid()
  {
    if s.finSent then s
    else if s.next == 0 then Send(s, Synchronize())
    else if s.confirmed + s.LogicalWindow() <= s.next then s
    else if s.stream.Eof() then Send(s, Carry([], true)).(finSent := true)
    else FillLoop(s, s.confirmed + s.LogicalWindow() - s.next)
  }

  /** `tick`: retransmit the oldest outstanding segment when the timer runs out, and back off
      unless this was a probe of a closed window. */
  function Tick(s: Sender, ms: nat): Sender
  {
    if !s.timing then s
    else if s.elapsed + ms >= s.timeout && s.outstanding != [] then
      var seg := s.outstanding[0];
      var s1 := s.(segmentsOut := s.segmentsOut + [seg], elapsed := 0);
      if s.window > 0 || seg.header.syn
      then s1.(retransmissions := (s.retransmissions + 1) % TWO16, timeout := s.timeout * 2 % TWO32)
      else s1
    else s.(elapsed := s.elapsed + ms)
  }

  /** `front_seg_outstanding_ackno`: the number that acknowledges the oldest segment, recovered
      from its 32-bit sequence number. */
  function FrontEnd(s: Sender): nat
    requires s.outstanding != []
  {
    Unwrap(s.outstanding[0].header.seqno, s.isn, s.next) + s.outstanding[0].Len()
  }

  function PopAcked(s: Sender): Sender
    decreases |s.outstanding|
  {
    if s.outstanding == [] || s.confirmed < FrontEnd(s) then s
    else PopAcked(s.(outstanding := s.outstanding[1..],
                     timeout := s.initialTimeout, retransmissions := 0, elapsed := 0))
  }

  /** The end of `ack_received`: a partial acknowledgment returns at once, without filling the
      window; if there was something to pop and it is all gone, the window is filled. */
  function Refill(s: Sender, popped: bool): (s': Sender)
    requires s.stream.Valid()
    ensures s'.stream.Valid()
  {
    if s.outstanding != [] then s
    else
      var s1 := if popped then FillWindow(s) else s;
      s1.(timing := s1.outstanding != [])
  }

  /** `ack_received` */
  function AckReceived(s: Sender, ackno: U32, window: U16): (s': Sender)
    requires s.stream.Valid()
    ensures s'.stream.Valid()
  {
    var absolute := Unwrap(ackno, s.isn, s.next);
    if s.confirmed > absolute || absolute > s.next then s
    else
      var s0 := s.(confirmed := absolute, window := window);
      PopKeepsStream(s0);
      Refill(PopAcked(s0), s.outstanding != [])
  }

  lemma {:induction false} PopKeepsStream(s: Sender)
    ensures PopAcked(s).stream == s.stream
    decreases |s.outstanding|
  {
    if s.outstanding != [] && s.confirmed >= FrontEnd(s) {
      PopKeepsStream(s.(outstanding := s.outstanding[1..],
                        timeout := s.initialTimeout, retransmissions := 0, elapsed := 0));
    }
  }

  /** `send_empty_segment` */
  function SendEmpty(s: Sender): Sender
  {
    s.(segmentsOut := s.segmentsOut + [Stamp(s, Segment(DEFAULT_HEADER, []))])
  }
}
