/** A run of two connections after which the reader of one is never told of the end. */
module DuplexEndsExample {
  import opened Basics
  import opened ByteStreams
  import opened Segments
  import opened WrappingIntegers
  import opened Reassembly
  import opened Sending
  import opened Receiving
  import opened Connections
  import opened ConnectionTheorems
  import opened Duplex
  import opened DeliveryExample
  import opened DuplexExample
  import DuplexSteps
  import DuplexEnds
  import DuplexLimits
  import ReassemblyLimits

  // ---------------------------------------------------------------- states and packets

  /** The reader has room for one byte. */
  const SMALL := Config(10, 1, 1000, 0)
  const START := [DeliveryExample.SYN]
  const FIN_TWO := Segment(DEFAULT_HEADER.(seqno := 2, fin := true), [])
  const NINE_OUT := Stream(10, [9], 1, false, false)

  const CALLING := Packet(DeliveryExample.SYN.(header := DeliveryExample.SYN.header.(win := 1)), 0)
  const READY := Packet(With(Data(1, []), 1, 1), 1)
  const FULL := Packet(With(Data(1, []), 2, 0), 2)
  const LAST := Packet(With(FIN_TWO, 1, 10), 1)
  const COUNTED := Packet(With(Data(1, []), 3, 0), 3)

  const NARROW := QUIET.(window := 1)
  const NINE_SENT := Busy([DeliveryExample.SYN, NINE], NINE, [], NINE_OUT, 1, 1, false)
  const NINE_DONE := Idle([DeliveryExample.SYN, NINE], NINE_OUT, 2, 0, false)
  const FIN_OUT := Busy([DeliveryExample.SYN, NINE, FIN_TWO], FIN_TWO, [], NINE_OUT.EndInput(), 2, 0, true)
  const ALL_DONE := Idle([DeliveryExample.SYN, NINE, FIN_TWO], NINE_OUT.EndInput(), 3, 0, true)

  // ---------------------------------------------------------------- the near side

  lemma CallsSmall(c: Connection)
    requires c == SMALL.Open()
    ensures FillAndSend(c) == c.(sender := OPENING, segmentsOut := [CALLING.seg])
  {
    hide FillWindow, Wrap;
    SynSent(c.sender);
    assert [] + START == START;
    OneOut(c.(sender := FillWindow(c.sender)), DeliveryExample.SYN);
  }

  lemma AnswerTaken()
    ensures SegmentReceived(NewReceiver(1), ANSWER) == Done(Filled([], 1))
  {
    hide Wrap, Unwrap;
    SmallNumbers(0, 0);
    assert NewReceiver(1).Out().written + [] == [];
  }

  lemma OpensSmall(c: Connection)
    requires c == Live(OPENING, NewReceiver(1), true)
    ensures Receive(c, ANSWER) == Done(Live(QUIET, Filled([], 1), true).(segmentsOut := [READY.seg]))
  {
    hide AckReceived, SegmentReceived, Dress, Stamp, Receive;
    AnswerTaken();
    OpeningAcked();
    Answered(c, ANSWER, Filled([], 1), QUIET);
    Numbered(QUIET, Data(0, []));
    Dressed(Filled([], 1), Data(1, []), 1, 1);
  }

  /** An acknowledgment of what is confirmed already. */
  lemma QuietAcked()
    ensures AckReceived(QUIET, 1, 10) == QUIET
  {
    hide Wrap, Unwrap;
    SmallNumbers(1, 1);
  }

  /** A quiet connection answers with an empty segment. */
  lemma QuietAnswers(c: Connection, seg: Segment, r: Receiver, n: U32, w: U16)
    requires c.Ready() && c == Live(QUIET, c.receiver, true) && !seg.header.rst && seg.header.ack && seg.Len() > 0
    requires seg.header.ackno == 1 && seg.header.win == 10 && SegmentReceived(c.receiver, seg) == Done(r)
    requires r.number == n < 10 && r.isn == 0 && !r.listening && r.WindowSize() == w <= 10 && !r.Out().ended
    ensures Receive(c, seg) == Done(Live(QUIET, r, true).(segmentsOut := [With(Data(1, []), n, w)]))
  {
    hide AckReceived, SegmentReceived, Dress, Stamp, Receive;
    QuietAcked();
    Answered(c, seg, r, QUIET);
    Numbered(QUIET, Data(0, []));
    Dressed(r, Data(1, []), n, w);
  }

  lemma NineFills()
    ensures SegmentReceived(Filled([], 1), With(NINE, 1, 10)) == Done(Filled([9], 2))
  {
    hide Wrap, Unwrap;
    SmallNumbers(1, 1);
    var nine: Bytes := [9];
    ReassemblyLimits.WrittenInOrder(Filled([], 1).reassembler, Datagram(nine, 0, false));
    assert Filled([], 1).Out().written + nine == nine;
  }

  lemma TakesNineSmall(c: Connection)
    requires c == Live(QUIET, Filled([], 1), true)
    ensures Receive(c, With(NINE, 1, 10)) == Done(Live(QUIET, Filled([9], 2), true).(segmentsOut := [FULL.seg]))
  {
    hide SegmentReceived, Receive;
    NineFills();
    QuietAnswers(c, With(NINE, 1, 10), Filled([9], 2), 2, 0);
  }

  lemma FinCounted()
    ensures SegmentReceived(Filled([9], 2), LAST.seg) == Done(Filled([9], 3))
  {
    hide Wrap, Unwrap;
    SmallNumbers(2, 2);
  }

  /** The FIN meets a full buffer: it is counted, and answered, and nothing else. */
  lemma CountsFin(c: Connection)
    requires c == Live(QUIET, Filled([9], 2), true)
    ensures Receive(c, LAST.seg) == Done(Live(QUIET, Filled([9], 3), true).(segmentsOut := [COUNTED.seg]))
  {
    hide SegmentReceived, Receive;
    FinCounted();
    QuietAnswers(c, LAST.seg, Filled([9], 3), 3, 0);
  }

  // ---------------------------------------------------------------- the far side

  lemma SettlesNarrow(c: Connection)
    requires c == Live(OPENING, FRESH, true)
    ensures Receive(c, READY.seg) == Done(Live(NARROW, FRESH, true))
  {
    hide AckReceived, SegmentReceived, Receive;
    EmptyTaken(READY.seg);
    AckedIdle(START, DeliveryExample.SYN, NewStream(10), 0, 0, false, 1);
    Silent(c, READY.seg, FRESH, NARROW);
  }

  lemma NineAckedFull(c: Connection)
    requires c == Live(NINE_SENT, FRESH, true)
    ensures Receive(c, FULL.seg) == Done(Live(NINE_DONE, FRESH, true))
  {
    hide AckReceived, SegmentReceived, Receive;
    EmptyTaken(FULL.seg);
    AckedIdle([DeliveryExample.SYN, NINE], NINE, NINE_OUT, 1, 1, false, 0);
    Silent(c, FULL.seg, FRESH, NINE_DONE);
  }

  lemma ClosesNarrow(c: Connection)
    requires c == Live(NINE_DONE, FRESH, true)
    ensures Next(c, EndData) == Done(c.(sender := FIN_OUT, segmentsOut := [LAST.seg]))
  {
    hide Wrap, Dress;
    var s := NINE_DONE.(stream := NINE_OUT.EndInput());
    Numbered(s, Carry([], true));
    assert s.sent + [FIN_TWO] == FIN_OUT.sent;
    assert FillWindow(s) == FIN_OUT.(segmentsOut := [FIN_TWO]);
    OneOut(c.(sender := FillWindow(s)), FIN_TWO);
    Dressed(FRESH, FIN_TWO, 1, 10);
  }

  lemma FinAcked(c: Connection)
    requires c == Live(FIN_OUT, FRESH, true)
    ensures Receive(c, COUNTED.seg) == Done(Live(ALL_DONE, FRESH, true))
  {
    hide AckReceived, SegmentReceived, Receive;
    EmptyTaken(COUNTED.seg);
    AckedIdle(FIN_OUT.sent, FIN_TWO, NINE_OUT.EndInput(), 2, 0, true, 0);
    Silent(c, COUNTED.seg, FRESH, ALL_DONE);
  }

  // ---------------------------------------------------------------- the run

  const FILLING :=
    [Step(true, Local(Connect)), Step(false, Deliver(CALLING)), Step(true, Deliver(P_ANSWER)),
     Step(false, Deliver(READY)), Step(false, Local(WriteData([9]))), Step(true, Deliver(P_NINE))]
  const ENDING :=
    [Step(false, Deliver(FULL)), Step(false, Local(EndData)), Step(true, Deliver(LAST)),
     Step(false, Deliver(COUNTED)), Step(true, Lose(LAST))]

  /** The buffer is full, the byte not yet acknowledged. */
  const FILLED :=
    Pair(Live(QUIET, Filled([9], 2), true), Live(NINE_SENT, FRESH, true), {CALLING, READY, FULL}, {P_ANSWER, P_NINE})
  const UNTOLD :=
    Pair(Live(QUIET, Filled([9], 3), true), Live(ALL_DONE, FRESH, true), {CALLING, READY, FULL, COUNTED}, {P_ANSWER, P_NINE})

  lemma OpenSmall(steps: seq<Step>, d: Pair)
    requires d == Pair(Live(QUIET, Filled([], 1), true), Live(OPENING, FRESH, true), {CALLING, READY}, {P_ANSWER})
    ensures Duplex.Run(Boot(SMALL, SIDE), FILLING[..3] + steps) == Duplex.Run(d, steps)
  {
    hide Receive, FillAndSend, Ship, Act, Duplex.Run;
    var d0 := Boot(SMALL, SIDE);
    CallsSmall(d0.near);
    var d1 := d0.(near := Live(OPENING, NewReceiver(1), true), outbox := {CALLING});
    ShipsOne(d0.(near := FillAndSend(d0.near)), CALLING.seg);
    assert {} + {CALLING} == {CALLING};
    Acted(d0, Connect, FillAndSend(d0.near), d1);
    Answers(d1.far, CALLING.seg);
    var d2 := d1.(far := Live(OPENING, FRESH, true), inbox := {P_ANSWER});
    ShipsOne(d1.Swap().(near := Receive(d1.far, CALLING.seg).value), ANSWER);
    assert {} + {P_ANSWER} == {P_ANSWER};
    Delivered(d1.Swap(), CALLING, Receive(d1.far, CALLING.seg).value, d2.Swap());
    OpensSmall(d2.near);
    ShipsOne(d2.(near := Receive(d2.near, ANSWER).value), READY.seg);
    assert {CALLING} + {READY} == {CALLING, READY};
    Delivered(d2, P_ANSWER, Receive(d2.near, ANSWER).value, d);
    NearStep(d2, Deliver(P_ANSWER), steps, d);
    FarStep(d1, Deliver(CALLING), [FILLING[2]] + steps, d2);
    NearStep(d0, Local(Connect), [FILLING[1]] + ([FILLING[2]] + steps), d1);
    assert FILLING[..3] + steps == [FILLING[0]] + ([FILLING[1]] + ([FILLING[2]] + steps));
  }

  lemma FillSmall(steps: seq<Step>, d: Pair)
    requires d == Pair(Live(QUIET, Filled([], 1), true), Live(OPENING, FRESH, true), {CALLING, READY}, {P_ANSWER})
    ensures Duplex.Run(d, FILLING[3..] + steps) == Duplex.Run(FILLED, steps)
  {
    hide Receive, Ship, Act, Duplex.Run, ConnectionTheorems.Next, Dress;
    SettlesNarrow(d.far);
    var d1 := d.(far := Live(NARROW, FRESH, true));
    ShipsNone(d1.Swap());
    Delivered(d.Swap(), READY, d1.far, d1.Swap());
    var e := WriteData([9]);
    WritesFirst(d1.far, 9, FRESH, 1);
    Dressed(FRESH, NINE, 1, 10);
    var c := ConnectionTheorems.Next(d1.far, e).value;
    var d2 := d1.(far := Live(NINE_SENT, FRESH, true), inbox := {P_ANSWER, P_NINE});
    ShipsOne(d1.Swap().(near := c), P_NINE.seg);
    assert {P_ANSWER} + {P_NINE} == {P_ANSWER, P_NINE};
    Acted(d1.Swap(), e, c, d2.Swap());
    TakesNineSmall(d2.near);
    ShipsOne(d2.(near := Receive(d2.near, P_NINE.seg).value), FULL.seg);
    assert {CALLING, READY} + {FULL} == FILLED.outbox;
    Delivered(d2, P_NINE, Receive(d2.near, P_NINE.seg).value, FILLED);
    NearStep(d2, Deliver(P_NINE), steps, FILLED);
    FarStep(d1, Local(e), [FILLING[5]] + steps, d2);
    FarStep(d, Deliver(READY), [FILLING[4]] + ([FILLING[5]] + steps), d1);
    assert FILLING[3..] + steps == [FILLING[3]] + ([FILLING[4]] + ([FILLING[5]] + steps));
  }

  lemma EndFull(steps: seq<Step>, d: Pair)
    requires d == FILLED.(far := Live(FIN_OUT, FRESH, true), inbox := {P_ANSWER, P_NINE, LAST})
    ensures Duplex.Run(FILLED, ENDING[..2] + steps) == Duplex.Run(d, steps)
  {
    hide Receive, Ship, Act, Duplex.Run, ConnectionTheorems.Next;
    NineAckedFull(FILLED.far);
    var d1 := FILLED.(far := Live(NINE_DONE, FRESH, true));
    ShipsNone(d1.Swap());
    Delivered(FILLED.Swap(), FULL, d1.far, d1.Swap());
    ClosesNarrow(d1.far);
    var c := ConnectionTheorems.Next(d1.far, EndData).value;
    ShipsOne(d1.Swap().(near := c), LAST.seg);
    assert {P_ANSWER, P_NINE} + {LAST} == d.inbox;
    Acted(d1.Swap(), EndData, c, d.Swap());
    FarStep(d1, Local(EndData), steps, d);
    FarStep(FILLED, Deliver(FULL), [ENDING[1]] + steps, d1);
    assert ENDING[..2] + steps == [ENDING[0]] + ([ENDING[1]] + steps);
  }

  lemma CountFull(steps: seq<Step>, d: Pair)
    requires d == FILLED.(far := Live(FIN_OUT, FRESH, true), inbox := {P_ANSWER, P_NINE, LAST})
    ensures Duplex.Run(d, ENDING[2..] + steps) == Duplex.Run(UNTOLD, steps)
  {
    hide Receive, Ship, Duplex.Run;
    CountsFin(d.near);
    var d1 := d.(near := UNTOLD.near, outbox := UNTOLD.outbox);
    ShipsOne(d.(near := Receive(d.near, LAST.seg).value), COUNTED.seg);
    assert FILLED.outbox + {COUNTED} == UNTOLD.outbox;
    Delivered(d, LAST, Receive(d.near, LAST.seg).value, d1);
    FinAcked(d1.far);
    var d2 := d1.(far := UNTOLD.far);
    ShipsNone(d2.Swap());
    Delivered(d1.Swap(), COUNTED, d2.far, d2.Swap());
    assert {P_ANSWER, P_NINE, LAST} - {LAST} == {P_ANSWER, P_NINE};
    NearStep(d2, Lose(LAST), steps, UNTOLD);
    FarStep(d1, Deliver(COUNTED), [ENDING[4]] + steps, d2);
    NearStep(d, Deliver(LAST), [ENDING[3]] + ([ENDING[4]] + steps), d1);
    assert ENDING[2..] + steps == [ENDING[2]] + ([ENDING[3]] + ([ENDING[4]] + steps));
  }

  /** One byte fills the reader's buffer, the FIN behind it is counted and acknowledged, and the
      network drops what copy of it there was. */
  lemma FinCountedThenLost(steps: seq<Step>)
    ensures Duplex.Run(Boot(SMALL, SIDE), FILLING + (ENDING + steps)) == Duplex.Run(UNTOLD, steps)
  {
    hide Duplex.Run;
    var d := Pair(Live(QUIET, Filled([], 1), true), Live(OPENING, FRESH, true), {CALLING, READY}, {P_ANSWER});
    var d' := FILLED.(far := Live(FIN_OUT, FRESH, true), inbox := {P_ANSWER, P_NINE, LAST});
    OpenSmall(FILLING[3..] + (ENDING + steps), d);
    assert FILLING[..3] + (FILLING[3..] + (ENDING + steps)) == FILLING + (ENDING + steps);
    FillSmall(ENDING + steps, d);
    EndFull(ENDING[2..] + steps, d');
    assert ENDING[..2] + (ENDING[2..] + steps) == ENDING + steps;
    CountFull(steps, d');
  }

  // ---------------------------------------------------------------- ever after

  lemma OfferedFew(near: bool)
    ensures DuplexSteps.Offered(FILLING, near) == (if near then 0 else 1) && DuplexSteps.Offered(ENDING, near) == 0
  {
    var a, b := FILLING, ENDING;
    assert DuplexSteps.Offered([a[5]], near) == 0;
    DuplexLimits.OfferedCons(a[4], [a[5]], near);
    DuplexLimits.OfferedCons(a[3], [a[4], a[5]], near);
    DuplexLimits.OfferedCons(a[2], [a[3], a[4], a[5]], near);
    DuplexLimits.OfferedCons(a[1], [a[2], a[3], a[4], a[5]], near);
    DuplexLimits.OfferedCons(a[0], [a[1], a[2], a[3], a[4], a[5]], near);
    assert a == [a[0]] + [a[1], a[2], a[3], a[4], a[5]];
    assert DuplexSteps.Offered([b[4]], near) == 0;
    DuplexLimits.OfferedCons(b[3], [b[4]], near);
    DuplexLimits.OfferedCons(b[2], [b[3], b[4]], near);
    DuplexLimits.OfferedCons(b[1], [b[2], b[3], b[4]], near);
    DuplexLimits.OfferedCons(b[0], [b[1], b[2], b[3], b[4]], near);
    assert b == [b[0]] + [b[1], b[2], b[3], b[4]];
  }

  /** The hypotheses of `NeverTold` are met at the end of a run. */
  lemma UntoldReached()
    ensures Duplex.Run(Boot(SMALL, SIDE), FILLING + ENDING) == Done(UNTOLD)
    ensures DuplexSteps.Agree(UNTOLD) && DuplexEnds.Untold(UNTOLD)
  {
    hide DuplexSteps.Agree, DuplexSteps.Offered, DuplexSteps.AllTimely;
    var d0 := Boot(SMALL, SIDE);
    assert Duplex.Run(UNTOLD, []) == Done(UNTOLD);
    hide Duplex.Run;
    FinCountedThenLost([]);
    assert ENDING + [] == ENDING;
    OfferedFew(true);
    OfferedFew(false);
    DuplexLimits.OfferedConcat(FILLING, ENDING, true);
    DuplexLimits.OfferedConcat(FILLING, ENDING, false);
    DuplexSteps.BootAgrees(SMALL, SIDE);
    DuplexSteps.ShortIsTimely(d0, FILLING + ENDING);
    DuplexSteps.RunKeeps(d0, FILLING + ENDING, TWO31 - 3);
  }

  /** However that run goes on, even once the reader has emptied the buffer: the whole stream is
      acknowledged, and the reader is never told that it has ended. */
  lemma EndNeverTold(more: seq<Step>)
    requires DuplexSteps.Offered(more, true) + 4 <= TWO31 && DuplexSteps.Offered(more, false) + 4 <= TWO31
    ensures
      var o := Duplex.Run(Boot(SMALL, SIDE), FILLING + (ENDING + more));
      o.Done? ==>
        && o.value.far.sender.finSent && o.value.far.sender.outstanding == []
        && !o.value.near.receiver.Out().ended
  {
    hide DuplexSteps.Agree, DuplexSteps.Offered, DuplexSteps.AllTimely, Duplex.Run;
    FinCountedThenLost(more);
    UntoldReached();
    DuplexSteps.ShortIsTimely(UNTOLD, more);
    DuplexEnds.NeverTold(UNTOLD, more, TWO31 - 3);
  }
}
