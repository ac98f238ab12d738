/** Two runs of two connections, with nothing but a lost and a late packet: in one a FIN is never
    acknowledged, in the other a call never returns. */
module DuplexExample {
  import opened Basics
  import opened ByteStreams
  import opened Segments
  import opened WrappingIntegers
  import opened Reassembly
  import opened Sending
  import opened Receiving
  import opened Connections
  import opened ConnectionTheorems
  import opened Duplex
  import opened DeliveryExample
  import ReassemblyLimits

  // ---------------------------------------------------------------- segments and states

  const SIDE := Config(10, 10, 1000, 0)
  const FIN_ONE := Segment(DEFAULT_HEADER.(seqno := 1, fin := true), [])

  function Data(seqno: U32, data: Bytes): Segment
  {
    Segment(DEFAULT_HEADER.(seqno := seqno), data)
  }

  function With(seg: Segment, ackno: U32, win: U16): Segment
  {
    seg.(header := seg.header.(ack := true, ackno := ackno, win := win))
  }

  function Inbound(written: Bytes, ended: bool, number: nat, store: Store, smallest: nat): Receiver
  {
    Receiver(Reassembler(Stream(10, written, 0, ended, false), |written|, smallest, store), number, 0, false)
  }

  function Live(s: Sender, r: Receiver, linger: bool): Connection
  {
    Connection(s, r, [], linger, true, 0, 1000)
  }

  const FRESH := Inbound([], false, 1, [], 0)
  const QUIET := Idle([DeliveryExample.SYN], NewStream(10), 1, 10, false)

  // ---------------------------------------------------------------- senders

  lemma FillsNothing(s: Sender)
    requires s.stream.Valid() && s.next > 0 && (s.finSent || (s.stream.BufferSize() == 0 && !s.stream.ended))
    ensures FillWindow(s) == s
  {
  }

  lemma SendsByte(s: Sender, b: Byte)
    requires s.stream.Valid() && s.next > 0 && !s.finSent && !s.stream.ended
    requires s.stream.BufferSize() == 1 && s.stream.Peek(1) == [b] && s.next < s.confirmed + s.LogicalWindow()
    ensures FillWindow(s) == Send(s.(stream := s.stream.Pop(1)), Carry([b], false))
  {
    hide Wrap;
    var available := s.confirmed + s.LogicalWindow() - s.next;
    var s1 := FillStep(s, available);
    assert PayloadSize(s, available) == 1;
    assert s1.stream.BufferSize() == 0;
    assert FillLoop(s1, available - (s1.next - s.next)) == s1;
  }

  /** An acknowledgment that confirms nothing new. */
  lemma AckedAgain(sent: seq<Segment>, seg: Segment, stream: Stream, w: U16, finSent: bool)
    requires seg.header.seqno == 1 && seg.Len() == 1 && stream.Valid()
    ensures AckReceived(Busy(sent, seg, [], stream, 1, w, finSent), 1, w) == Busy(sent, seg, [], stream, 1, w, finSent)
  {
    hide Wrap, Unwrap;
    SmallNumbers(1, 2);
    var s := Busy(sent, seg, [], stream, 1, w, finSent);
    assert FrontEnd(s) == 2;
    assert PopAcked(s) == s;
  }

  // ---------------------------------------------------------------- connections

  /** A segment that is answered with an empty one. */
  lemma Answered(c: Connection, seg: Segment, r: Receiver, s: Sender)
    requires c.Ready() && c.segmentsOut == [] && !seg.header.rst && seg.header.ack && seg.Len() > 0
    requires SegmentReceived(c.receiver, seg) == Done(r)
    requires AckReceived(c.sender, seg.header.ackno, seg.header.win) == s && s.segmentsOut == []
    requires s.next > 0 && (s.finSent || (s.stream.BufferSize() == 0 && !s.stream.ended))
    ensures
      Receive(c, seg) ==
      Done(c.(elapsed := 0, receiver := r, sender := s, segmentsOut := [Dress(r, Stamp(s, Data(0, [])))],
              linger := StopLingering(c.(receiver := r)).linger))
  {
    hide SegmentReceived, AckReceived, FillWindow, Dress, Stamp, SendSegmentsOut;
    FillsNothing(s);
    assert [] + [Stamp(s, Data(0, []))] == [Stamp(s, Data(0, []))];
    assert SendEmpty(s).segmentsOut == [Stamp(s, Data(0, []))];
    var c1 := StopLingering(c.(elapsed := 0, receiver := r));
    NoneOut(c1.(sender := s));
    assert TakeAck(c1, seg) == c1.(sender := s);
    OneOut(c1.(sender := SendEmpty(s)), Stamp(s, Data(0, [])));
    assert SendEmpty(s).(segmentsOut := []) == s;
  }

  lemma NoneOut(c: Connection)
    requires c.sender.segmentsOut == []
    ensures SendSegmentsOut(c) == c
  {
  }

  lemma OneOut(c: Connection, seg: Segment)
    requires c.segmentsOut == [] && c.sender.segmentsOut == [seg]
    ensures SendSegmentsOut(c) == c.(segmentsOut := [Dress(c.receiver, seg)], sender := c.sender.(segmentsOut := []))
  {
  }

  /** An empty segment with an acknowledgment that leaves nothing to send. */
  lemma Silent(c: Connection, seg: Segment, r: Receiver, s: Sender)
    requires c.Ready() && c.segmentsOut == [] && !seg.header.rst && seg.header.ack && seg.Len() == 0
    requires SegmentReceived(c.receiver, seg) == Done(r)
    requires AckReceived(c.sender, seg.header.ackno, seg.header.win) == s && s.segmentsOut == []
    ensures
      Receive(c, seg) ==
      Done(c.(elapsed := 0, receiver := r, sender := s, linger := StopLingering(c.(receiver := r)).linger))
  {
    hide SegmentReceived, AckReceived, Dress;
    var c1 := StopLingering(c.(elapsed := 0, receiver := r));
    NoneOut(c1.(sender := s));
  }

  // ---------------------------------------------------------------- steps

  lemma Delivered(d: Pair, p: Packet, c: Connection, d': Pair)
    requires d.Ready() && p in d.inbox && Receive(d.near, p.seg) == Done(c) && d' == Ship(d.(near := c))
    ensures Act(d, Deliver(p)) == Done(d')
  {
    hide Receive;
  }

  lemma Acted(d: Pair, e: Event, c: Connection, d': Pair)
    requires d.Ready() && !e.Arrival? && Next(d.near, e) == Done(c) && d' == Ship(d.(near := c))
    ensures Act(d, Local(e)) == Done(d')
  {
    hide Next;
  }

  lemma NearStep(d: Pair, move: Move, steps: seq<Step>, d': Pair)
    requires d.Ready() && d'.Ready() && Act(d, move) == Done(d')
    ensures Duplex.Run(d, [Step(true, move)] + steps) == Duplex.Run(d', steps)
  {
    assert ([Step(true, move)] + steps)[1..] == steps;
  }

  lemma FarStep(d: Pair, move: Move, steps: seq<Step>, d': Pair)
    requires d.Ready() && d'.Ready() && Act(d.Swap(), move) == Done(d'.Swap())
    ensures Duplex.Run(d, [Step(false, move)] + steps) == Duplex.Run(d', steps)
  {
    assert ([Step(false, move)] + steps)[1..] == steps;
  }

  lemma ShipsOne(d: Pair, seg: Segment)
    requires d.near.segmentsOut == [seg]
    ensures Ship(d) == d.(near := d.near.(segmentsOut := []), outbox := d.outbox + {Packet(seg, d.near.receiver.number)})
  {
  }

  lemma ShipsNone(d: Pair)
    requires d.near.segmentsOut == []
    ensures Ship(d) == d
  {
    assert d.outbox + {} == d.outbox;
  }

  // ---------------------------------------------------------------- the handshake

  const OPENING := Busy([DeliveryExample.SYN], DeliveryExample.SYN, [], NewStream(10), 0, 0, false)
  const CALL := DeliveryExample.SYN.(header := DeliveryExample.SYN.header.(win := 10))
  const ANSWER := With(DeliveryExample.SYN, 1, 10)
  const THANKS := With(Data(1, []), 1, 10)

  lemma Dressed(r: Receiver, seg: Segment, ackno: U32, win: U16)
    requires r.number == ackno < 10 && r.isn == 0 && !r.listening && r.WindowSize() == win <= 10
    ensures Dress(r, seg) == With(seg, ackno, win)
  {
    hide Wrap;
    SmallNumbers(ackno, 0);
  }

  lemma Numbered(s: Sender, seg: Segment)
    requires s.isn == 0 && s.next < 10
    ensures Stamp(s, seg) == seg.(header := seg.header.(seqno := s.next))
  {
    hide Wrap;
    SmallNumbers(s.next, 0);
  }

  lemma Calls(c: Connection)
    requires c == SIDE.Open()
    ensures FillAndSend(c) == c.(sender := OPENING, segmentsOut := [CALL])
  {
    hide FillWindow, Wrap;
    SynSent(c.sender);
    assert [] + [DeliveryExample.SYN] == [DeliveryExample.SYN];
    OneOut(c.(sender := FillWindow(c.sender)), DeliveryExample.SYN);
  }

  lemma SynTaken(seg: Segment)
    requires seg.header.syn && seg.header.seqno == 0 && !seg.header.fin && seg.payload == []
    ensures SegmentReceived(NewReceiver(10), seg) == Done(FRESH)
  {
    hide Wrap, Unwrap;
    SmallNumbers(0, 0);
    assert NewReceiver(10).Out().written + [] == [];
  }

  lemma Answers(c: Connection, call: Segment)
    requires c == SIDE.Open() && call.header.syn && call.header.seqno == 0 && !call.header.fin && call.payload == []
    requires !call.header.ack && !call.header.rst
    ensures Receive(c, call) == Done(c.(sender := OPENING, receiver := FRESH, segmentsOut := [ANSWER]))
  {
    hide FillWindow, Wrap, SegmentReceived, Dress;
    SynTaken(call);
    SynSent(c.sender);
    assert [] + [DeliveryExample.SYN] == [DeliveryExample.SYN];
    var c1 := c.(receiver := FRESH, sender := FillWindow(c.sender));
    OneOut(c1, DeliveryExample.SYN);
    Dressed(FRESH, DeliveryExample.SYN, 1, 10);
  }

  lemma OpeningAcked()
    ensures AckReceived(OPENING, 1, 10) == QUIET
  {
    hide AckReceived;
    AckedIdle([DeliveryExample.SYN], DeliveryExample.SYN, NewStream(10), 0, 0, false, 10);
  }

  lemma Thanks(c: Connection)
    requires c == Live(OPENING, NewReceiver(10), true)
    ensures Receive(c, ANSWER) == Done(Live(QUIET, FRESH, true).(segmentsOut := [THANKS]))
  {
    hide AckReceived, SegmentReceived, Dress, Stamp, Receive;
    SynTaken(ANSWER);
    OpeningAcked();
    Answered(c, ANSWER, FRESH, QUIET);
    Numbered(QUIET, Data(0, []));
    Dressed(FRESH, Data(1, []), 1, 10);
  }

  lemma EmptyTaken(seg: Segment)
    requires seg.header.seqno == 1 && seg.Len() == 0
    ensures SegmentReceived(FRESH, seg) == Done(FRESH)
  {
    hide Wrap, Unwrap;
    SmallNumbers(1, 1);
    assert FRESH.Out().written + [] == [];
  }

  lemma Settles(c: Connection)
    requires c == Live(OPENING, FRESH, true)
    ensures Receive(c, THANKS) == Done(Live(QUIET, FRESH, true))
  {
    hide AckReceived, SegmentReceived, Receive;
    EmptyTaken(THANKS);
    OpeningAcked();
    Silent(c, THANKS, FRESH, QUIET);
  }

  // ---------------------------------------------------------------- one byte from the far side

  const NINE := Data(1, [9])
  const SENT_NINE := Busy([DeliveryExample.SYN, NINE], NINE, [], Stream(10, [9], 1, false, false), 1, 10, false)

  /** The owner of a quiet connection writes one byte. */
  lemma WritesFirst(c: Connection, b: Byte, r: Receiver, w: U16)
    requires c == Live(QUIET.(window := w), r, c.linger) && r.Out().Valid() && w > 0
    ensures
      Next(c, WriteData([b])) ==
      Done(c.(sender := Busy([DeliveryExample.SYN, Data(1, [b])], Data(1, [b]), [], Stream(10, [b], 1, false, false), 1, w, false),
              segmentsOut := [Dress(r, Data(1, [b]))]))
  {
    hide Wrap, FillWindow, Dress;
    var data: Bytes := [b];
    assert data[..1] == data && [] + data == data;
    var s := QUIET.(stream := Stream(10, data, 0, false, false), window := w);
    assert c.sender.stream.Write(data) == s.stream;
    assert s.stream.Peek(1) == data;
    SendsByte(s, b);
    Numbered(s, Carry(data, false));
    assert [DeliveryExample.SYN] + [Data(1, data)] == [DeliveryExample.SYN, Data(1, data)];
    OneOut(c.(sender := FillWindow(s)), Data(1, data));
  }

  lemma NineTaken()
    ensures SegmentReceived(FRESH, With(NINE, 1, 10)) == Done(Inbound([9], false, 2, [], 0))
  {
    hide Wrap, Unwrap;
    SmallNumbers(1, 1);
    var nine: Bytes := [9];
    ReassemblyLimits.WrittenInOrder(FRESH.reassembler, Datagram(nine, 0, false));
    assert FRESH.Out().written + nine == nine;
  }

  const HAS_NINE := Inbound([9], false, 2, [], 0)
  const GOT_NINE := With(Data(2, []), 2, 9)

  /** The near side takes the byte while it waits for an acknowledgment of its own, and answers
      with an empty segment. */
  lemma TakesNine(c: Connection, sent: seq<Segment>, seg: Segment, stream: Stream, finSent: bool)
    requires c == Live(Busy(sent, seg, [], stream, 1, 10, finSent), FRESH, true)
    requires seg.header.seqno == 1 && seg.Len() == 1 && stream.Valid()
    requires finSent || (stream.BufferSize() == 0 && !stream.ended)
    ensures Receive(c, With(NINE, 1, 10)) == Done(c.(receiver := HAS_NINE, segmentsOut := [GOT_NINE]))
  {
    hide AckReceived, SegmentReceived, Dress, Stamp, Receive;
    NineTaken();
    AckedAgain(sent, seg, stream, 10, finSent);
    Answered(c, With(NINE, 1, 10), HAS_NINE, c.sender);
    Numbered(c.sender, Data(0, []));
    Dressed(HAS_NINE, Data(2, []), 2, 9);
  }

  lemma NineAcked()
    ensures AckReceived(SENT_NINE, 2, 9) == Idle([DeliveryExample.SYN, NINE], Stream(10, [9], 1, false, false), 2, 9, false)
  {
    hide AckReceived;
    AckedIdle([DeliveryExample.SYN, NINE], NINE, Stream(10, [9], 1, false, false), 1, 10, false, 9);
  }

  // ---------------------------------------------------------------- the packets

  const P_CALL := Packet(CALL, 0)
  const P_ANSWER := Packet(ANSWER, 1)
  const P_THANKS := Packet(THANKS, 1)
  const P_NINE := Packet(With(NINE, 1, 10), 1)
  const P_GOT_NINE := Packet(GOT_NINE, 2)

  /** Both sides are connected, and the far side has sent a byte. */
  const TALKING := Pair(Live(QUIET, FRESH, true), Live(SENT_NINE, FRESH, true), {P_CALL, P_THANKS}, {P_ANSWER, P_NINE})

  const OPENING_STEPS :=
    [Step(true, Local(Connect)), Step(false, Deliver(P_CALL)), Step(true, Deliver(P_ANSWER)),
     Step(false, Deliver(P_THANKS)), Step(false, Local(WriteData([9])))]

  lemma ShakeHands(steps: seq<Step>, d2: Pair)
    requires d2 == Pair(Live(OPENING, NewReceiver(10), true), Live(OPENING, FRESH, true), {P_CALL}, {P_ANSWER})
    ensures Duplex.Run(Boot(SIDE, SIDE), OPENING_STEPS[..2] + steps) == Duplex.Run(d2, steps)
  {
    hide Receive, FillAndSend, Ship, Act, Duplex.Run;
    var d0, open := Boot(SIDE, SIDE), SIDE.Open();
    Calls(open);
    var d1 := Pair(Live(OPENING, NewReceiver(10), true), open, {P_CALL}, {});
    ShipsOne(d0.(near := FillAndSend(open)), CALL);
    assert {} + {P_CALL} == {P_CALL};
    Acted(d0, Connect, FillAndSend(open), d1);
    Answers(open, CALL);
    ShipsOne(d1.Swap().(near := Receive(open, CALL).value), ANSWER);
    assert {} + {P_ANSWER} == {P_ANSWER};
    Delivered(d1.Swap(), P_CALL, Receive(open, CALL).value, d2.Swap());
    FarStep(d1, Deliver(P_CALL), steps, d2);
    NearStep(d0, Local(Connect), [Step(false, Deliver(P_CALL))] + steps, d1);
    assert OPENING_STEPS[..2] + steps == [Step(true, Local(Connect))] + ([Step(false, Deliver(P_CALL))] + steps);
  }

  lemma Settled(steps: seq<Step>, d2: Pair, d4: Pair)
    requires d2 == Pair(Live(OPENING, NewReceiver(10), true), Live(OPENING, FRESH, true), {P_CALL}, {P_ANSWER})
    requires d4 == Pair(Live(QUIET, FRESH, true), Live(QUIET, FRESH, true), {P_CALL, P_THANKS}, {P_ANSWER})
    ensures Duplex.Run(d2, OPENING_STEPS[2..4] + steps) == Duplex.Run(d4, steps)
  {
    hide Receive, Ship, Act, Duplex.Run;
    Thanks(d2.near);
    var d3 := d4.(far := d2.far);
    ShipsOne(d2.(near := Receive(d2.near, ANSWER).value), THANKS);
    assert {P_CALL} + {P_THANKS} == {P_CALL, P_THANKS};
    Delivered(d2, P_ANSWER, Receive(d2.near, ANSWER).value, d3);
    Settles(d3.far);
    ShipsNone(d4.Swap());
    Delivered(d3.Swap(), P_THANKS, d4.far, d4.Swap());
    FarStep(d3, Deliver(P_THANKS), steps, d4);
    NearStep(d2, Deliver(P_ANSWER), [Step(false, Deliver(P_THANKS))] + steps, d3);
    assert OPENING_STEPS[2..4] + steps == [Step(true, Deliver(P_ANSWER))] + ([Step(false, Deliver(P_THANKS))] + steps);
  }

  lemma Talk(steps: seq<Step>)
    ensures Duplex.Run(Boot(SIDE, SIDE), OPENING_STEPS + steps) == Duplex.Run(TALKING, steps)
  {
    hide Receive, Ship, Act, Duplex.Run, ConnectionTheorems.Next, Dress;
    var d2 := Pair(Live(OPENING, NewReceiver(10), true), Live(OPENING, FRESH, true), {P_CALL}, {P_ANSWER});
    var d4 := Pair(Live(QUIET, FRESH, true), Live(QUIET, FRESH, true), {P_CALL, P_THANKS}, {P_ANSWER});
    var five := Step(false, Local(WriteData([9])));
    var e := WriteData([9]);
    WritesFirst(d4.far, 9, FRESH, 10);
    Dressed(FRESH, NINE, 1, 10);
    var c := ConnectionTheorems.Next(d4.far, e).value;
    ShipsOne(d4.Swap().(near := c), With(NINE, 1, 10));
    assert {P_ANSWER} + {P_NINE} == {P_ANSWER, P_NINE};
    Acted(d4.Swap(), e, c, TALKING.Swap());
    FarStep(d4, Local(e), steps, TALKING);
    Settled([five] + steps, d2, d4);
    ShakeHands(OPENING_STEPS[2..4] + ([five] + steps), d2);
    assert OPENING_STEPS[..2] + (OPENING_STEPS[2..4] + ([five] + steps)) == OPENING_STEPS + steps;
  }

  // ---------------------------------------------------------------- a FIN that is never acknowledged

  const CLOSING := Busy([DeliveryExample.SYN, FIN_ONE], FIN_ONE, [], Stream(10, [], 0, true, false), 1, 10, true)
  const ENDED := Inbound([], true, 2, [], 0)
  const OVERCOUNTED := Inbound([], true, 3, [Datagram([], 1, false)], 1)
  const SENT_ALL := Idle([DeliveryExample.SYN, NINE], Stream(10, [9], 1, false, false), 2, 9, false)

  const P_FIN := Packet(With(FIN_ONE, 1, 10), 1)
  const P_LOST := Packet(With(Data(2, []), 2, 10), 2)

  lemma Closes(c: Connection)
    requires c == Live(QUIET, FRESH, true)
    ensures Next(c, EndData) == Done(c.(sender := CLOSING, segmentsOut := [With(FIN_ONE, 1, 10)]))
  {
    hide Wrap, Dress;
    var s := QUIET.(stream := Stream(10, [], 0, true, false));
    Numbered(s, Carry([], true));
    assert [DeliveryExample.SYN] + [FIN_ONE] == [DeliveryExample.SYN, FIN_ONE];
    assert FillWindow(s) == CLOSING.(segmentsOut := [FIN_ONE]);
    OneOut(c.(sender := FillWindow(s)), FIN_ONE);
    Dressed(FRESH, FIN_ONE, 1, 10);
  }

  lemma FinTaken()
    ensures SegmentReceived(FRESH, With(FIN_ONE, 1, 10)) == Done(ENDED)
  {
    hide Wrap, Unwrap;
    SmallNumbers(1, 1);
    assert FRESH.Out().written + [] == [];
    assert Push(FRESH.reassembler, Datagram([], 0, true)) == Done(ENDED.reassembler);
  }

  lemma TakesFin(c: Connection)
    requires c == Live(SENT_NINE, FRESH, true)
    ensures Receive(c, With(FIN_ONE, 1, 10)) == Done(Live(SENT_NINE, ENDED, false).(segmentsOut := [P_LOST.seg]))
  {
    hide AckReceived, SegmentReceived, Dress, Stamp, Receive;
    FinTaken();
    AckedAgain([DeliveryExample.SYN, NINE], NINE, Stream(10, [9], 1, false, false), 10, false);
    Answered(c, With(FIN_ONE, 1, 10), ENDED, SENT_NINE);
    Numbered(SENT_NINE, Data(0, []));
    Dressed(ENDED, Data(2, []), 2, 10);
  }

  /** The empty segment right behind the counted FIN is counted too. */
  lemma CountsEmpty()
    ensures SegmentReceived(ENDED, GOT_NINE) == Done(OVERCOUNTED)
  {
    hide Wrap, Unwrap;
    SmallNumbers(2, 2);
    var d := Datagram([], 1, false);
    assert InsertOrdered(d, []) == [d];
    assert Push(ENDED.reassembler, d) == Done(OVERCOUNTED.reassembler);
  }

  lemma Overcounts(c: Connection)
    requires c == Live(SENT_NINE, ENDED, false)
    ensures Receive(c, GOT_NINE) == Done(Live(SENT_ALL, OVERCOUNTED, false))
  {
    hide AckReceived, SegmentReceived, Receive;
    CountsEmpty();
    NineAcked();
    Silent(c, GOT_NINE, OVERCOUNTED, SENT_ALL);
  }

  const CLOSING_STEPS :=
    [Step(true, Local(EndData)), Step(false, Deliver(P_FIN)), Step(true, Lose(P_LOST)),
     Step(true, Deliver(P_NINE)), Step(false, Deliver(P_GOT_NINE))]

  const UNHEARD :=
    Pair(Live(CLOSING, HAS_NINE, true), Live(SENT_ALL, OVERCOUNTED, false),
         {P_CALL, P_THANKS, P_FIN, P_GOT_NINE}, {P_ANSWER, P_NINE})

  lemma FinCrosses(steps: seq<Step>, d: Pair)
    requires d == TALKING.(near := Live(CLOSING, FRESH, true), far := Live(SENT_NINE, ENDED, false),
                           outbox := {P_CALL, P_THANKS, P_FIN})
    ensures Duplex.Run(TALKING, CLOSING_STEPS[..3] + steps) == Duplex.Run(d, steps)
  {
    hide Receive, Ship, Duplex.Run, ConnectionTheorems.Next;
    var d0 := TALKING;
    Closes(d0.near);
    var d1 := d0.(near := Live(CLOSING, FRESH, true), outbox := {P_CALL, P_THANKS, P_FIN});
    ShipsOne(d0.(near := ConnectionTheorems.Next(d0.near, EndData).value), P_FIN.seg);
    assert {P_CALL, P_THANKS} + {P_FIN} == {P_CALL, P_THANKS, P_FIN};
    Acted(d0, EndData, ConnectionTheorems.Next(d0.near, EndData).value, d1);
    TakesFin(d1.far);
    var d2 := d.(inbox := {P_ANSWER, P_NINE, P_LOST});
    ShipsOne(d1.Swap().(near := Receive(d1.far, P_FIN.seg).value), P_LOST.seg);
    assert {P_ANSWER, P_NINE} + {P_LOST} == {P_ANSWER, P_NINE, P_LOST};
    Delivered(d1.Swap(), P_FIN, Receive(d1.far, P_FIN.seg).value, d2.Swap());
    assert {P_ANSWER, P_NINE, P_LOST} - {P_LOST} == {P_ANSWER, P_NINE};
    NearStep(d2, Lose(P_LOST), steps, d);
    FarStep(d1, Deliver(P_FIN), [Step(true, Lose(P_LOST))] + steps, d2);
    NearStep(d0, Local(EndData), [Step(false, Deliver(P_FIN))] + ([Step(true, Lose(P_LOST))] + steps), d1);
    assert CLOSING_STEPS[..3] + steps ==
           [Step(true, Local(EndData))] + ([Step(false, Deliver(P_FIN))] + ([Step(true, Lose(P_LOST))] + steps));
  }

  lemma EmptyCounted(d: Pair, steps: seq<Step>)
    requires d == TALKING.(near := Live(CLOSING, FRESH, true), far := Live(SENT_NINE, ENDED, false),
                           outbox := {P_CALL, P_THANKS, P_FIN})
    ensures Duplex.Run(d, CLOSING_STEPS[3..] + steps) == Duplex.Run(UNHEARD, steps)
  {
    hide Receive, Ship, Act, Duplex.Run;
    TakesNine(d.near, [DeliveryExample.SYN, FIN_ONE], FIN_ONE, Stream(10, [], 0, true, false), true);
    var d1 := d.(near := UNHEARD.near, outbox := UNHEARD.outbox);
    ShipsOne(d.(near := Receive(d.near, P_NINE.seg).value), GOT_NINE);
    assert {P_CALL, P_THANKS, P_FIN} + {P_GOT_NINE} == UNHEARD.outbox;
    Delivered(d, P_NINE, Receive(d.near, P_NINE.seg).value, d1);
    Overcounts(d1.far);
    ShipsNone(UNHEARD.Swap());
    Delivered(d1.Swap(), P_GOT_NINE, UNHEARD.far, UNHEARD.Swap());
    FarStep(d1, Deliver(P_GOT_NINE), steps, UNHEARD);
    NearStep(d, Deliver(P_NINE), [Step(false, Deliver(P_GOT_NINE))] + steps, d1);
    assert CLOSING_STEPS[3..] + steps == [Step(true, Deliver(P_NINE))] + ([Step(false, Deliver(P_GOT_NINE))] + steps);
  }

  /** Data and FIN cross, the acknowledgment of the FIN is lost, and the empty acknowledgment of
      the data is counted behind the FIN. */
  lemma FinUnheard(steps: seq<Step>)
    ensures Duplex.Run(Boot(SIDE, SIDE), OPENING_STEPS + (CLOSING_STEPS + steps)) == Duplex.Run(UNHEARD, steps)
  {
    hide Duplex.Run;
    var d := TALKING.(near := Live(CLOSING, FRESH, true), far := Live(SENT_NINE, ENDED, false),
                      outbox := {P_CALL, P_THANKS, P_FIN});
    Talk(CLOSING_STEPS + steps);
    FinCrosses(CLOSING_STEPS[3..] + steps, d);
    assert CLOSING_STEPS[..3] + (CLOSING_STEPS[3..] + steps) == CLOSING_STEPS + steps;
    EmptyCounted(d, steps);
  }

  // ---------------------------------------------------------------- a call that never returns

  const SEVEN := Data(1, [7])
  const EIGHT := Data(2, [8])
  const SENT_SEVEN := Busy([DeliveryExample.SYN, SEVEN], SEVEN, [], Stream(10, [7], 1, false, false), 1, 10, false)
  const SENT_EIGHT :=
    SENT_SEVEN.(sent := [DeliveryExample.SYN, SEVEN, EIGHT], outstanding := [SEVEN, EIGHT],
                stream := Stream(10, [7, 8], 2, false, false), next := 3)
  const HOLDS_EIGHT := Inbound([], false, 1, [Datagram([8], 1, false)], 1)

  const P_SEVEN := Packet(With(SEVEN, 1, 10), 1)
  const P_EIGHT := Packet(With(EIGHT, 2, 9), 2)
  const P_AGAIN := Packet(With(Data(2, []), 1, 10), 1)

  lemma WritesSecond(c: Connection)
    requires c == Live(SENT_SEVEN, HAS_NINE, true)
    ensures Next(c, WriteData([8])) == Done(c.(sender := SENT_EIGHT, segmentsOut := [P_EIGHT.seg]))
  {
    hide Wrap, FillWindow, Dress;
    var data: Bytes := [8];
    var seven: Bytes := [7];
    assert data[..1] == data && seven + data == [7, 8];
    var s := SENT_SEVEN.(stream := Stream(10, [7, 8], 1, false, false));
    assert c.sender.stream.Write(data) == s.stream;
    assert s.stream.Peek(1) == data;
    SendsByte(s, 8);
    Numbered(s, Carry(data, false));
    assert [DeliveryExample.SYN, SEVEN] + [EIGHT] == SENT_EIGHT.sent && [SEVEN] + [EIGHT] == SENT_EIGHT.outstanding;
    assert [] + [EIGHT] == [EIGHT];
    OneOut(c.(sender := FillWindow(s)), EIGHT);
    Dressed(HAS_NINE, EIGHT, 2, 9);
  }

  lemma EightTaken()
    ensures SegmentReceived(FRESH, P_EIGHT.seg) == Done(HOLDS_EIGHT)
  {
    hide Wrap, Unwrap;
    SmallNumbers(2, 1);
    var d := Datagram([8], 1, false);
    assert InsertOrdered(d, []) == [d];
    assert Push(FRESH.reassembler, d) == Done(HOLDS_EIGHT.reassembler);
  }

  lemma TakesEight(c: Connection)
    requires c == Live(SENT_NINE, FRESH, true)
    ensures Receive(c, P_EIGHT.seg) == Done(Live(SENT_ALL, HOLDS_EIGHT, true).(segmentsOut := [P_AGAIN.seg]))
  {
    hide AckReceived, SegmentReceived, Dress, Stamp, Receive;
    EightTaken();
    NineAcked();
    Answered(c, P_EIGHT.seg, HOLDS_EIGHT, SENT_ALL);
    Numbered(SENT_ALL, Data(0, []));
    Dressed(HOLDS_EIGHT, Data(2, []), 1, 10);
  }

  /** The late empty segment has the number at which the stored byte starts. */
  lemma LateEmptyHangs()
    ensures SegmentReceived(HOLDS_EIGHT, GOT_NINE).Hang?
  {
    hide Wrap, Unwrap;
    SmallNumbers(2, 1);
    assert Scan(HOLDS_EIGHT.reassembler.store, Datagram([], 1, false)).Stuck?;
  }

  const WRITING_STEPS :=
    [Step(true, Local(WriteData([7]))), Step(true, Deliver(P_NINE)), Step(true, Local(WriteData([8]))),
     Step(false, Deliver(P_EIGHT)), Step(false, Deliver(P_GOT_NINE))]

  lemma TwoBytesSent(steps: seq<Step>, d: Pair)
    requires d == TALKING.(near := Live(SENT_EIGHT, HAS_NINE, true), outbox := {P_CALL, P_THANKS, P_SEVEN, P_GOT_NINE, P_EIGHT})
    ensures Duplex.Run(TALKING, WRITING_STEPS[..3] + steps) == Duplex.Run(d, steps)
  {
    hide Receive, Ship, Act, Duplex.Run, ConnectionTheorems.Next, Dress;
    var d0 := TALKING;
    WritesFirst(d0.near, 7, FRESH, 10);
    Dressed(FRESH, SEVEN, 1, 10);
    var d1 := d0.(near := Live(SENT_SEVEN, FRESH, true), outbox := {P_CALL, P_THANKS, P_SEVEN});
    ShipsOne(d0.(near := ConnectionTheorems.Next(d0.near, WriteData([7])).value), P_SEVEN.seg);
    assert {P_CALL, P_THANKS} + {P_SEVEN} == d1.outbox;
    Acted(d0, WriteData([7]), ConnectionTheorems.Next(d0.near, WriteData([7])).value, d1);
    TakesNine(d1.near, [DeliveryExample.SYN, SEVEN], SEVEN, Stream(10, [7], 1, false, false), false);
    var d2 := d1.(near := Live(SENT_SEVEN, HAS_NINE, true), outbox := {P_CALL, P_THANKS, P_SEVEN, P_GOT_NINE});
    ShipsOne(d1.(near := Receive(d1.near, P_NINE.seg).value), GOT_NINE);
    assert d1.outbox + {P_GOT_NINE} == d2.outbox;
    Delivered(d1, P_NINE, Receive(d1.near, P_NINE.seg).value, d2);
    WritesSecond(d2.near);
    ShipsOne(d2.(near := ConnectionTheorems.Next(d2.near, WriteData([8])).value), P_EIGHT.seg);
    assert d2.outbox + {P_EIGHT} == d.outbox;
    Acted(d2, WriteData([8]), ConnectionTheorems.Next(d2.near, WriteData([8])).value, d);
    NearStep(d2, Local(WriteData([8])), steps, d);
    NearStep(d1, Deliver(P_NINE), [Step(true, Local(WriteData([8])))] + steps, d2);
    NearStep(d0, Local(WriteData([7])), [Step(true, Deliver(P_NINE))] + ([Step(true, Local(WriteData([8])))] + steps), d1);
    assert WRITING_STEPS[..3] + steps ==
           [Step(true, Local(WriteData([7])))] + ([Step(true, Deliver(P_NINE))] + ([Step(true, Local(WriteData([8])))] + steps));
  }

  /** What is left of the run when the second byte has arrived. */
  lemma HangsAtOnce(d: Pair)
    requires d.Ready() && P_GOT_NINE in d.outbox && d.far.receiver == HOLDS_EIGHT
    ensures Duplex.Run(d, [Step(false, Deliver(P_GOT_NINE))]).Hang?
  {
    hide SegmentReceived;
    LateEmptyHangs();
    assert Receive(d.far, GOT_NINE).Hang?;
    hide Receive;
    assert Act(d.Swap(), Deliver(P_GOT_NINE)).Hang?;
  }

  lemma ThenHangs(d: Pair)
    requires d == TALKING.(near := Live(SENT_EIGHT, HAS_NINE, true), outbox := {P_CALL, P_THANKS, P_SEVEN, P_GOT_NINE, P_EIGHT})
    ensures Duplex.Run(d, WRITING_STEPS[3..]).Hang?
  {
    hide Ship, Receive, Act, Duplex.Run;
    var d1 := d.(far := Live(SENT_ALL, HOLDS_EIGHT, true), inbox := {P_ANSWER, P_NINE, P_AGAIN});
    TakesEight(d.far);
    ShipsOne(d.Swap().(near := Receive(d.far, P_EIGHT.seg).value), P_AGAIN.seg);
    assert {P_ANSWER, P_NINE} + {P_AGAIN} == d1.inbox;
    Delivered(d.Swap(), P_EIGHT, Receive(d.far, P_EIGHT.seg).value, d1.Swap());
    HangsAtOnce(d1);
    var last := [Step(false, Deliver(P_GOT_NINE))];
    FarStep(d, Deliver(P_EIGHT), last, d1);
    assert WRITING_STEPS[3..] == [Step(false, Deliver(P_EIGHT))] + last;
  }

  /** The near side writes a byte, acknowledges one with an empty segment, and writes another. The
      second byte arrives first, then the empty segment: that call never returns. */
  lemma LateEmptySegmentHangs()
    ensures Duplex.Run(Boot(SIDE, SIDE), OPENING_STEPS + WRITING_STEPS).Hang?
  {
    hide Duplex.Run;
    var d := TALKING.(near := Live(SENT_EIGHT, HAS_NINE, true), outbox := {P_CALL, P_THANKS, P_SEVEN, P_GOT_NINE, P_EIGHT});
    Talk(WRITING_STEPS);
    TwoBytesSent(WRITING_STEPS[3..], d);
    assert WRITING_STEPS[..3] + WRITING_STEPS[3..] == WRITING_STEPS;
    ThenHangs(d);
  }

  // ---------------------------------------------------------------- a write after the end

  const CLOSING_EVENTS := [Connect, TakeSegment, Arrival(ANSWER), TakeSegment, EndData]

  lemma EventCons(c: Connection, e: Event, events: seq<Event>, c': Connection)
    requires c.Ready() && c'.Ready() && Next(c, e) == Done(c')
    ensures ConnectionTheorems.Run(c, [e] + events) == ConnectionTheorems.Run(c', events)
  {
    assert ([e] + events)[1..] == events;
  }

  lemma ReachesFinSent(c: Connection)
    requires c == Live(CLOSING, FRESH, true).(segmentsOut := [P_FIN.seg])
    ensures ConnectionTheorems.Run(SIDE.Open(), CLOSING_EVENTS) == Done(c)
  {
    hide Receive, FillAndSend, EndInput, ConnectionTheorems.Run;
    var e := CLOSING_EVENTS;
    var c0 := SIDE.Open();
    Calls(c0);
    var c1 := c0.(sender := OPENING, segmentsOut := [CALL]);
    var c2 := Live(OPENING, NewReceiver(10), true);
    assert [CALL][1..] == [] && [THANKS][1..] == [];
    Thanks(c2);
    var c3 := Live(QUIET, FRESH, true).(segmentsOut := [THANKS]);
    var c4 := Live(QUIET, FRESH, true);
    Closes(c4);
    assert ConnectionTheorems.Run(c, []) == Done(c) by { hide *; NoEvents(c); }
    EventCons(c4, e[4], [], c);
    EventCons(c3, e[3], [e[4]], c4);
    EventCons(c2, e[2], [e[3], e[4]], c3);
    EventCons(c1, e[1], [e[2], e[3], e[4]], c2);
    EventCons(c0, e[0], [e[1], e[2], e[3], e[4]], c1);
    assert e == [e[0]] + [e[1], e[2], e[3], e[4]];
    assert [e[1]] + [e[2], e[3], e[4]] == [e[1], e[2], e[3], e[4]];
    assert [e[2]] + [e[3], e[4]] == [e[2], e[3], e[4]];
    assert [e[3]] + [e[4]] == [e[3], e[4]];
    assert [e[4]] + [] == [e[4]];
  }

  lemma NoEvents(c: Connection)
    requires c.Ready()
    ensures ConnectionTheorems.Run(c, []) == Done(c)
  {
  }

  /** A new connection connects, ends its input, and has its FIN out. A byte is written to it: the
      stream takes it, and the summary falls back from FIN_SENT. */
  lemma LateWriteFallsBack(b: Byte)
    ensures
      var o := ConnectionTheorems.Run(SIDE.Open(), CLOSING_EVENTS);
      && o.Done? && Summarize(o.value.sender) == FIN_SENT
      && Write(o.value, [b]).sender.stream.written == [b]
      && Summarize(Write(o.value, [b]).sender) == SYN_ACKED
  {
    hide ConnectionTheorems.Run, Wrap, Dress;
    var c := Live(CLOSING, FRESH, true).(segmentsOut := [P_FIN.seg]);
    ReachesFinSent(c);
    assert SeqLen([FIN_ONE]) == 1 by {
      SeqLenAppend([], FIN_ONE);
      assert [] + [FIN_ONE] == [FIN_ONE];
    }
    var data: Bytes := [b];
    assert data[..1] == data && [] + data == data;
    var s := CLOSING.(stream := Stream(10, [b], 0, true, false));
    assert c.sender.stream.Write(data) == s.stream;
    assert FillWindow(s) == s;
    NoneOut(c.(sender := s));
  }
}
