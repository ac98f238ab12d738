/** What `TCPConnection` computes, as functions of its state, and the summary of its sender. */
module Connections {
  import opened Basics
  import opened ByteStreams
  import opened Reassembly
  import opened Segments
  import opened WrappingIntegers
  import opened Sending
  import opened Receiving

  const MAX_RETX_ATTEMPTS := 8

  datatype Connection = Connection(
    sender: Sender,
    receiver: Receiver,
    segmentsOut: seq<Segment>,
    linger: bool,
    active: bool,
    elapsed: nat,
    timeout: U16)
  {
    ghost predicate Ready()
    {
      sender.stream.Valid() && receiver.Out().Valid()
    }

    /** `check_inbound_ended` */
    predicate InboundEnded()
    {
      StoredBytes(receiver.reassembler.store) == 0 && receiver.Out().ended
    }

    /** `check_outbound_ended` */
    predicate OutboundEnded()
    {
      && sender.stream.Eof()
      && sender.next == |sender.stream.written| + 2
      && sender.InFlight() == 0
    }
  }

  function NewConnection(sendCapacity: nat, recvCapacity: nat, timeout: U16, isn: U32): Connection
  {
    Connection(NewSender(sendCapacity, timeout, isn), NewReceiver(recvCapacity), [], true, true, 0, timeout)
  }

  /** The receiver's fields of an outgoing segment. */
  function Dress(r: Receiver, seg: Segment): Segment
  {
    var h := match r.Ackno()
             case None => seg.header
             case Some(ackno) => seg.header.(ack := true, ackno := ackno);
    seg.(header := h.(win := r.WindowSize() % TWO16))
  }

  /** `send_segments_out` */
  function SendSegmentsOut(c: Connection): (c': Connection)
    ensures c' == c.(segmentsOut := c'.segmentsOut, sender := c.sender.(segmentsOut := []))
    ensures c.segmentsOut <= c'.segmentsOut && |c'.segmentsOut| == |c.segmentsOut| + |c.sender.segmentsOut|
  {
    c.(segmentsOut := c.segmentsOut + seq(|c.sender.segmentsOut|, i requires 0 <= i < |c.sender.segmentsOut| =>
                                          Dress(c.receiver, c.sender.segmentsOut[i])),
       sender := c.sender.(segmentsOut := []))
  }

  function FillAndSend(c: Connection): (c': Connection)
    requires c.Ready()
    ensures c'.Ready()
  {
    SendSegmentsOut(c.(sender := FillWindow(c.sender)))
  }

  /** What a reset does to the connection. */
  function Abort(c: Connection): (c': Connection)
    requires c.Ready()
    ensures c'.Ready()
  {
    var q := c.receiver.reassembler;
    c.(sender := c.sender.(stream := c.sender.stream.SetError()),
       receiver := c.receiver.(reassembler := q.(out := q.out.SetError())),
       active := false)
  }

  /** The peer finished first: no need to linger. */
  function StopLingering(c: Connection): Connection
  {
    if c.InboundEnded() && !c.sender.stream.Eof() then c.(linger := false) else c
  }

  /** Take the acknowledgment a segment carries. */
  function TakeAck(c: Connection, seg: Segment): (c': Connection)
    requires c.Ready()
    ensures c'.Ready()
  {
    if seg.header.ack
    then SendSegmentsOut(c.(sender := AckReceived(c.sender, seg.header.ackno, seg.header.win)))
    else c
  }

  /** Answer a segment that occupies sequence numbers with data, or else with an empty segment. */
  function Answer(c: Connection, seg: Segment): (c': Connection)
    requires c.Ready()
    ensures c'.Ready()
  {
    if seg.Len() == 0 then c
    else
      var c1 := c.(sender := FillWindow(c.sender));
      var c2 := SendSegmentsOut(c1);
      if c1.sender.segmentsOut != [] then c2
      else SendSegmentsOut(c2.(sender := SendEmpty(c2.sender)))
  }

  /** The replies to a segment that has been handed to the receiver. */
  function Reply(c: Connection, seg: Segment): (c': Connection)
    requires c.Ready()
    ensures c'.Ready()
  {
    Answer(TakeAck(StopLingering(c), seg), seg)
  }

  /** `segment_received` */
  function Receive(c: Connection, seg: Segment): (o: Outcome<Connection>)
    requires c.Ready()
    ensures o.Done? ==> o.value.Ready()
  {
    var c1 := c.(elapsed := 0);
    if seg.header.rst then Done(Abort(c1))
    else
      var o := SegmentReceived(c1.receiver, seg);
      if o.Hang? then Hang else Done(Reply(c1.(receiver := o.value), seg))
  }

  /** `write`; the source's method also returns how many bytes the stream accepted. */
  function Write(c: Connection, data: Bytes): (c': Connection)
    requires c.Ready()
    ensures c'.Ready()
  {
    if data == [] then c
    else FillAndSend(c.(sender := c.sender.(stream := c.sender.stream.Write(data))))
  }

  /** `end_input_stream` */
  function EndInput(c: Connection): (c': Connection)
    requires c.Ready()
    ensures c'.Ready()
  {
    FillAndSend(c.(sender := c.sender.(stream := c.sender.stream.EndInput())))
  }

  /** The segment that resets the peer. */
  function Reset(s: Sender): Segment
  {
    Segment(DEFAULT_HEADER.(seqno := Wrap(s.next, s.isn), rst := true), [])
  }

  /** Too many retransmissions: drop what is queued, queue a reset, and take it to heart. */
  function GiveUp(c: Connection): (c': Connection)
    requires c.Ready()
    ensures c'.Ready()
  {
    Abort(c.(segmentsOut := [Reset(c.sender)], elapsed := 0))
  }

  /** `tick` */
  function Tick(c: Connection, ms: nat): (c': Connection)
    requires c.Ready()
    ensures c'.Ready()
  {
    var c1 := SendSegmentsOut(c.(elapsed := c.elapsed + ms, sender := Sending.Tick(c.sender, ms)));
    var c2 := if c1.sender.retransmissions > MAX_RETX_ATTEMPTS then GiveUp(c1) else c1;
    if c2.InboundEnded() && c2.OutboundEnded()
    then c2.(active := c2.linger && c2.elapsed < 10 * c2.timeout)
    else c2
  }

  function ReadInbound(c: Connection, len: nat): (c': Connection)
    requires c.Ready()
    ensures c'.Ready()
  {
    c.(receiver := c.receiver.(reassembler := Reassembly.Read(c.receiver.reassembler, len)))
  }

  // ---------------------------------------------------------------- summaries

  datatype Summary = CLOSED | SYN_SENT | SYN_ACKED | FIN_SENT | FIN_ACKED | ERROR

  /** `state_summary` of the sender. */
  function Summarize(s: Sender): Summary
  {
    if s.stream.error then ERROR
    else if s.next == 0 then CLOSED
    else if s.next == s.InFlight() then SYN_SENT
    else if !s.stream.Eof() then SYN_ACKED
    else if s.next < |s.stream.written| + 2 then SYN_ACKED
    else if s.InFlight() > 0 then FIN_SENT
    else FIN_ACKED
  }

  function Rank(summary: Summary): nat
  {
    match summary
    case CLOSED => 0
    case SYN_SENT => 1
    case SYN_ACKED => 2
    case FIN_SENT => 3
    case FIN_ACKED => 4
    case ERROR => 5
  }
}
