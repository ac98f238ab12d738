/** A run after which the sender has been told that everything, the FIN included, has arrived,
    while the reader has not been told that the stream has ended. */
module DeliveryExample {
  import opened Basics
  import opened ByteStreams
  import opened Segments
  import opened WrappingIntegers
  import opened Reassembly
  import opened Sending
  import opened Receiving
  import opened Delivery

  lemma RunAppend(sys: System, a: seq<Step>, b: seq<Step>)
    requires Ready(sys)
    ensures Run(sys, a + b) == if Run(sys, a).Done? then Run(Run(sys, a).value, b) else Hang
    decreases |a|
  {
    if a == [] {
      assert a + b == b;
    } else {
      assert (a + b)[1..] == a[1..] + b;
      if Next(sys, a[0]).Done? {
        RunAppend(Next(sys, a[0]).value, a[1..], b);
      }
    }
  }

  lemma SmallNumbers(v: nat, c: nat)
    requires v < 10 && c < 10
    ensures Wrap(v, 0) == v && Unwrap(v, 0, c) == v
  {
    hide Unwrap;
    UnwrapWrapIff(v, 0, c);
  }

  const SYN := Segment(DEFAULT_HEADER.(syn := true), [])
  const BYTE := Segment(DEFAULT_HEADER.(seqno := 1), [7])
  const FIN := Segment(DEFAULT_HEADER.(seqno := 2, fin := true), [])

  function Idle(sent: seq<Segment>, stream: Stream, n: nat, window: U16, finSent: bool): Sender
  {
    Sender(0, [], [], sent, 1000, 1000, 0, false, 0, stream, n, n, finSent, window)
  }

  function Busy(sent: seq<Segment>, seg: Segment, out: seq<Segment>, stream: Stream, n: nat, window: U16, finSent: bool): Sender
  {
    Sender(0, out, [seg], sent, 1000, 1000, 0, true, 0, stream, n + 1, n, finSent, window)
  }

  function Filled(written: Bytes, number: nat): Receiver
  {
    Receiver(Reassembler(Stream(1, written, 0, false, false), |written|, 0, []), number, 0, false)
  }

  /** The acknowledgment of the only outstanding segment, with nothing more to send. */
  lemma AckedIdle(sent: seq<Segment>, seg: Segment, stream: Stream, n: nat, w: U16, finSent: bool, window: U16)
    requires n < 5 && seg.header.seqno == n && seg.Len() == 1 && stream.Valid()
    requires finSent || (stream.BufferSize() == 0 && !stream.ended)
    ensures AckReceived(Busy(sent, seg, [], stream, n, w, finSent), n + 1, window) == Idle(sent, stream, n + 1, window, finSent)
  {
    hide Wrap, Unwrap;
    SmallNumbers(n + 1, n + 1);
    SmallNumbers(n, n + 1);
    var s0 := Busy(sent, seg, [], stream, n, w, finSent).(confirmed := n + 1, window := window);
    var s1 := s0.(outstanding := []);
    assert FrontEnd(s0) == n + 1;
    assert PopAcked(s0) == PopAcked(s1) == s1 by { assert s0.outstanding[1..] == []; }
    assert FillWindow(s1) == s1;
  }

  /** One segment is sent, arrives, is acknowledged, and the acknowledgment arrives. */
  lemma Round(sys: System, seg: Segment, stream: Stream, n: nat, w: U16, finSent: bool, r': Receiver)
    requires Ready(sys) && stream.Valid() && n < 5 && |sys.s.sent| == |sys.acks| == n
    requires FillWindow(sys.s) == Busy(sys.s.sent + [seg], seg, [seg], stream, n, w, finSent)
    requires SegmentReceived(sys.r, seg) == Done(r')
    requires r'.Out().Valid() && !r'.listening && r'.isn == 0 && r'.number == n + 1 && r'.WindowSize() <= 1
    requires seg.header.seqno == n && seg.Len() == 1
    requires finSent || (stream.BufferSize() == 0 && !stream.ended)
    ensures
      Run(sys, [Fill, Transmit, Deliver(n), Emit, Acknowledge(n)]) ==
      Done(System(Idle(sys.s.sent + [seg], stream, n + 1, r'.WindowSize(), finSent), r', sys.wire + {seg},
                  sys.acks + [Ack(n + 1, r'.WindowSize(), n + 1)]))
  {
    hide FillWindow, SegmentReceived, AckReceived, Wrap, Unwrap;
    SmallNumbers(n + 1, n + 1);
    var sent := sys.s.sent + [seg];
    var a := sys.(s := Busy(sent, seg, [seg], stream, n, w, finSent));
    assert Next(sys, Fill) == Done(a);
    var b := a.(s := Busy(sent, seg, [], stream, n, w, finSent), wire := sys.wire + {seg});
    assert [seg][1..] == [];
    assert Next(a, Transmit) == Done(b);
    var c := b.(r := r');
    assert Next(b, Deliver(n)) == Done(c);
    var d := c.(acks := sys.acks + [Ack(n + 1, r'.WindowSize(), n + 1)]);
    assert Next(c, Emit) == Done(d);
    AckedIdle(sent, seg, stream, n, w, finSent, r'.WindowSize());
    var e := d.(s := Idle(sent, stream, n + 1, r'.WindowSize(), finSent));
    assert Next(d, Acknowledge(n)) == Done(e);
    hide Next;
    RunCons(d, Acknowledge(n), [], e);
    RunCons(c, Emit, [Acknowledge(n)], d);
    RunCons(b, Deliver(n), [Emit, Acknowledge(n)], c);
    RunCons(a, Transmit, [Deliver(n), Emit, Acknowledge(n)], b);
    RunCons(sys, Fill, [Transmit, Deliver(n), Emit, Acknowledge(n)], a);
  }

  lemma RunCons(sys: System, step: Step, steps: seq<Step>, sys': System)
    requires Ready(sys) && Ready(sys') && Next(sys, step) == Done(sys')
    ensures Run(sys, [step] + steps) == Run(sys', steps)
  {
    assert ([step] + steps)[1..] == steps;
  }

  lemma SynSent(s: Sender)
    requires s == NewSender(10, 1000, 0)
    ensures FillWindow(s) == Busy([] + [SYN], SYN, [SYN], NewStream(10), 0, 0, false)
  {
    hide Wrap;
    SmallNumbers(0, 0);
    assert Stamp(s, Synchronize()) == SYN;
  }

  lemma SynSeen(r: Receiver)
    requires r == NewReceiver(1)
    ensures SegmentReceived(r, SYN) == Done(Filled([], 1))
  {
    hide Wrap, Unwrap;
    SmallNumbers(0, 0);
    assert r.Out().written + [] == [];
  }

  lemma SynRound(sys: System)
    requires sys == Boot(10, 1, 1000, 0)
    ensures
      Run(sys, [Fill, Transmit, Deliver(0), Emit, Acknowledge(0)]) ==
      Done(System(Idle([SYN], NewStream(10), 1, 1, false), Filled([], 1), {SYN}, [Ack(1, 1, 1)]))
  {
    hide Run, FillWindow, SegmentReceived;
    SynSent(sys.s);
    SynSeen(sys.r);
    Round(sys, SYN, NewStream(10), 0, 0, false, Filled([], 1));
    assert [] + [SYN] == [SYN] && {} + {SYN} == {SYN} && [] + [Ack(1, 1, 1)] == [Ack(1, 1, 1)];
  }

  lemma ByteSent(s: Sender)
    requires s == Idle([SYN], Stream(10, [7], 0, false, false), 1, 1, false)
    ensures FillWindow(s) == Busy([SYN] + [BYTE], BYTE, [BYTE], Stream(10, [7], 1, false, false), 1, 1, false)
  {
    hide Wrap;
    SmallNumbers(1, 1);
    assert s.stream.Peek(1) == [7];
    var s' := Busy([SYN] + [BYTE], BYTE, [BYTE], Stream(10, [7], 1, false, false), 1, 1, false);
    assert Stamp(s, Carry([7], false)) == BYTE;
    assert FillStep(s, 1) == s';
    assert FillLoop(s', 0) == s';
    assert FillWindow(s) == FillLoop(s, 1) == s';
  }

  lemma ByteSeen(r: Receiver)
    requires r == Filled([], 1)
    ensures SegmentReceived(r, BYTE) == Done(Filled([7], 2))
  {
    hide Wrap, Unwrap;
    SmallNumbers(1, 1);
    var q := r.reassembler;
    assert q.out.Write([7]) == q.out.(written := [7]) by { assert BYTE.payload[..1] == [7]; }
    assert Push(q, Datagram([7], 0, false)) == Done(Filled([7], 2).reassembler);
  }

  lemma ByteRound(sys: System)
    requires sys == System(Idle([SYN], Stream(10, [7], 0, false, false), 1, 1, false), Filled([], 1), {SYN}, [Ack(1, 1, 1)])
    ensures
      Run(sys, [Fill, Transmit, Deliver(1), Emit, Acknowledge(1)]) ==
      Done(System(Idle([SYN, BYTE], Stream(10, [7], 1, false, false), 2, 0, false), Filled([7], 2), {SYN, BYTE},
                  [Ack(1, 1, 1), Ack(2, 0, 2)]))
  {
    hide Run, FillWindow, SegmentReceived;
    ByteSent(sys.s);
    ByteSeen(sys.r);
    Round(sys, BYTE, Stream(10, [7], 1, false, false), 1, 1, false, Filled([7], 2));
    assert [SYN] + [BYTE] == [SYN, BYTE] && {SYN} + {BYTE} == {SYN, BYTE};
    assert sys.acks + [Ack(2, 0, 2)] == [Ack(1, 1, 1), Ack(2, 0, 2)];
  }

  lemma FinRound(sys: System)
    requires sys == System(Idle([SYN, BYTE], Stream(10, [7], 1, true, false), 2, 0, false), Filled([7], 2), {SYN, BYTE},
                           [Ack(1, 1, 1), Ack(2, 0, 2)])
    ensures
      Run(sys, [Fill, Transmit, Deliver(2), Emit, Acknowledge(2)]) ==
      Done(System(Idle([SYN, BYTE, FIN], Stream(10, [7], 1, true, false), 3, 0, true), Filled([7], 3), {SYN, BYTE, FIN},
                  [Ack(1, 1, 1), Ack(2, 0, 2), Ack(3, 0, 3)]))
  {
    hide Run, Wrap, Unwrap;
    SmallNumbers(2, 2);
    assert Stamp(sys.s, Carry([], true)) == FIN;
    assert FillWindow(sys.s) == Busy([SYN, BYTE] + [FIN], FIN, [FIN], sys.s.stream, 2, 0, true);
    assert SegmentReceived(sys.r, FIN) == Done(Filled([7], 3));
    Round(sys, FIN, sys.s.stream, 2, 0, true, Filled([7], 3));
    assert [SYN, BYTE] + [FIN] == [SYN, BYTE, FIN] && {SYN, BYTE} + {FIN} == {SYN, BYTE, FIN};
    assert sys.acks + [Ack(3, 0, 3)] == [Ack(1, 1, 1), Ack(2, 0, 2), Ack(3, 0, 3)];
  }

  /** A one-byte stream through a one-byte buffer that the reader has not emptied yet: the FIN is
      acknowledged, the sender is done, and the reader's stream is not ended. */
  lemma FinCountedWithoutEnd()
    ensures
      var steps :=
        [Fill, Transmit, Deliver(0), Emit, Acknowledge(0)]
        + [Write([7])] + [Fill, Transmit, Deliver(1), Emit, Acknowledge(1)]
        + [End] + [Fill, Transmit, Deliver(2), Emit, Acknowledge(2)];
      var o := Run(Boot(10, 1, 1000, 0), steps);
      && o.Done?
      && o.value.s.finSent && o.value.s.confirmed == o.value.s.next
      && o.value.r.Out().written == o.value.s.stream.written == [7]
      && !o.value.r.Out().ended
  {
    hide Next, Run;
    var p1, p2 := [Fill, Transmit, Deliver(0), Emit, Acknowledge(0)], [Fill, Transmit, Deliver(1), Emit, Acknowledge(1)];
    var p3 := [Fill, Transmit, Deliver(2), Emit, Acknowledge(2)];
    var sys0 := Boot(10, 1, 1000, 0);
    SynRound(sys0);
    var sys1 := Run(sys0, p1).value;
    var sys2 := sys1.(s := sys1.s.(stream := Stream(10, [7], 0, false, false)));
    RunAppend(sys0, p1, [Write([7])]);
    assert Run(sys1, [Write([7])]) == Done(sys2) by { hide *; WriteByte(sys1, sys2); }
    ByteRound(sys2);
    RunAppend(sys0, p1 + [Write([7])], p2);
    var sys3 := Run(sys2, p2).value;
    var sys4 := sys3.(s := sys3.s.(stream := Stream(10, [7], 1, true, false)));
    RunAppend(sys0, p1 + [Write([7])] + p2, [End]);
    assert Run(sys3, [End]) == Done(sys4) by { hide *; EndStream(sys3, sys4); }
    FinRound(sys4);
    RunAppend(sys0, p1 + [Write([7])] + p2 + [End], p3);
  }

  lemma WriteByte(sys: System, sys': System)
    requires Ready(sys) && sys.s.stream == NewStream(10)
    requires sys' == sys.(s := sys.s.(stream := Stream(10, [7], 0, false, false)))
    ensures Run(sys, [Write([7])]) == Done(sys')
  {
    var data: Bytes := [7];
    assert data[..1] == data;
    assert sys.s.stream.Write(data) == sys'.s.stream;
    assert Next(sys, Write(data)) == Done(sys');
    RunCons(sys, Write(data), [], sys');
  }

  lemma EndStream(sys: System, sys': System)
    requires Ready(sys) && sys' == sys.(s := sys.s.(stream := sys.s.stream.EndInput()))
    ensures Run(sys, [End]) == Done(sys')
  {
    assert Next(sys, End) == Done(sys');
    RunCons(sys, End, [], sys');
  }
}
