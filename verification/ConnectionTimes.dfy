/** What happens to a connection as time passes: retransmission, give-up, lingering and closing. */
module ConnectionTimes {
  import opened Basics
  import opened ByteStreams
  import opened Reassembly
  import opened Segments
  import opened WrappingIntegers
  import opened Sending
  import opened SendingTheorems
  import opened SendingExactly
  import opened Receiving
  import opened Connections
  import opened ConnectionTheorems
  import opened ConnectionReplies

  // ---------------------------------------------------------------- one tick

  /** The same segment but for what the receiver fills in. */
  predicate Copies(a: Segment, b: Segment)
  {
    a == b.(header := b.header.(ack := a.header.ack, ackno := a.header.ackno, win := a.header.win))
  }

  /** The step adds exactly one segment to the queue: an up-to-date copy of `seg`. */
  ghost predicate Repeats(c: Connection, c': Connection, seg: Segment)
  {
    && |c'.segmentsOut| == |c.segmentsOut| + 1 && c.segmentsOut <= c'.segmentsOut
    && Copies(c'.segmentsOut[|c.segmentsOut|], seg) && Informs(c.receiver, c'.segmentsOut[|c.segmentsOut|])
  }

  /** The ninth expiry that counts. */
  ghost predicate LastStraw(s: Sender, ms: nat)
  {
    Expires(s, ms) && s.retransmissions == 8 && (s.window > 0 || Oldest(s) == 0)
  }

  /** A tick of an active connection gives up, or queues one copy of the oldest unacknowledged
      segment, or queues nothing, exactly as its time has run out. */
  lemma TickSends(c: Connection, ms: nat)
    requires ConnInv(c) && c.active
    ensures
      var c' := Connections.Tick(c, ms);
      && (c'.sender.stream.error <==> LastStraw(c.sender, ms))
      && (LastStraw(c.sender, ms) ==> |c'.segmentsOut| == 1 && IsReset(c'.segmentsOut[0], c.sender))
      && (!LastStraw(c.sender, ms) && Expires(c.sender, ms) ==> Repeats(c, c', c.sender.sent[Oldest(c.sender)]))
      && (!Expires(c.sender, ms) ==> c'.segmentsOut == c.segmentsOut)
  {
    hide Truthful, Sending.Tick, Wrap, TimerOk, NoStall, Summarize, Repeats, Informs, SeqLen, Start, GiveUp;
    assert SenderInv(c.sender) && TimerOk(c.sender) by { hide *; Parts(c); }
    TickExactly(c.sender, ms);
    TickKeeps(c.sender, ms);
    var s := Sending.Tick(c.sender, ms);
    if LastStraw(c.sender, ms) {
      TickGivesUp(c, ms);
      ResetIs(c.sender);
    } else {
      assert !Connections.Tick(c, ms).sender.stream.error by { hide *; TickCloses(c, ms); }
      if Expires(c.sender, ms) {
        assert [] + [c.sender.sent[Oldest(c.sender)]] == [c.sender.sent[Oldest(c.sender)]];
        OneQueued(c, c.(elapsed := c.elapsed + ms, sender := s), Connections.Tick(c, ms), c.sender.sent[Oldest(c.sender)]);
      } else {
        NoneQueued(c.(elapsed := c.elapsed + ms, sender := s));
      }
    }
  }

  /** A segment that resets the peer: it carries nothing, and stands at the sender's next number. */
  predicate IsReset(seg: Segment, s: Sender)
  {
    && seg.header.rst && seg.header.seqno == Wrap(s.next, s.isn)
    && !seg.header.syn && !seg.header.fin && !seg.header.ack && seg.payload == []
  }

  lemma ResetIs(s: Sender)
    ensures IsReset(Reset(s), s)
  {
  }

  lemma NoneQueued(c: Connection)
    requires c.sender.segmentsOut == []
    ensures SendSegmentsOut(c) == c
  {
  }

  lemma OneQueued(c: Connection, c1: Connection, c': Connection, seg: Segment)
    requires c1.segmentsOut == c.segmentsOut && c1.receiver == c.receiver && c1.sender.segmentsOut == [seg]
    requires c'.segmentsOut == SendSegmentsOut(c1).segmentsOut
    ensures Repeats(c, c', seg)
  {
    hide Wrap;
  }

  // ---------------------------------------------------------------- retransmission over runs

  /** The time that passes in a run. */
  function Ticks(events: seq<Event>): nat
  {
    if events == [] then 0 else (if events[0].Clock? then events[0].ms else 0) + Ticks(events[1..])
  }

  /** What the sender's timer has to do with a step. */
  ghost predicate SameTimer(s: Sender, s': Sender, ms: nat)
  {
    s'.timeout == s.timeout && s'.elapsed == s.elapsed + ms && s'.outstanding != []
  }

  lemma FillSameTimer(s: Sender)
    requires SenderInv(s) && s.outstanding != []
    ensures SameTimer(s, FillWindow(s), 0) && Oldest(FillWindow(s)) == Oldest(s)
  {
    hide Truthful, FillWindow, SeqLen, Start;
    FillWindowKeeps(s);
    FillKeepsClock(s);
  }

  lemma AckSameTimer(s: Sender, seg: Segment)
    requires SenderOk(s) && s.next < TWO63 && s.outstanding != [] && Oldest(Acked(s, seg)) == Oldest(s)
    ensures SameTimer(s, Acked(s, seg), 0)
  {
    hide Truthful, AckReceived, SeqLen, Start, TimerOk;
    if seg.header.ack {
      AckReceivedKeeps(s, seg.header.ackno, seg.header.win);
      AckTimerExactly(s, seg.header.ackno, seg.header.win);
    }
  }

  lemma ReplySameTimer(c: Connection, seg: Segment)
    requires ConnInv(c) && c.sender.next < TWO63 && c.sender.outstanding != []
    ensures Oldest(c.sender) <= Oldest(Reply(c, seg).sender)
    ensures Oldest(Reply(c, seg).sender) == Oldest(c.sender) ==> SameTimer(c.sender, Reply(c, seg).sender, 0)
  {
    hide Truthful, Flight, FillWindow, Acked, TimerOk, NoStall, Reply;
    var s := Acked(c.sender, seg);
    AckedOk(c.sender, seg);
    ReplySender(c, seg);
    FillWindowKeeps(s);
    if Oldest(Reply(c, seg).sender) == Oldest(c.sender) {
      AckSameTimer(c.sender, seg);
      FillSameTimer(s);
    }
  }

  lemma OwnerSameTimer(c: Connection, s: Sender)
    requires c.Ready() && SenderInv(s) && s.outstanding != [] && c.sender == s
    ensures SameTimer(s, FillAndSend(c).sender, 0) && Oldest(FillAndSend(c).sender) == Oldest(s)
  {
    hide FillWindow, SenderInv;
    FillSameTimer(s);
  }

  /** Unless its time runs out, or something is taken off the queue, a step of a connection that
      stays active lets its timer run on. */
  lemma EventSameTimer(c: Connection, e: Event)
    requires ConnInv(c) && c.active && c.sender.next < TWO63 && c.sender.outstanding != []
    requires Next(c, e).Done? && Next(c, e).value.active
    ensures Oldest(c.sender) <= Oldest(Next(c, e).value.sender)
    ensures
      Oldest(Next(c, e).value.sender) == Oldest(c.sender) && !(e.Clock? && Expires(c.sender, e.ms)) ==>
        SameTimer(c.sender, Next(c, e).value.sender, Ticks([e]))
  {
    hide SenderOk, Reply, SegmentReceived, FillAndSend, Sending.Tick, Summarize, Expires;
    assert SenderInv(c.sender) && TimerOk(c.sender) by { hide *; Parts(c); }
    assert Ticks([e]) == if e.Clock? then e.ms else 0 by { assert [e][1..] == []; }
    match e {
      case Connect => OwnerSameTimer(c, c.sender);
      case WriteData(data) =>
        if !c.sender.stream.ended && data != [] {
          assert !c.sender.finSent by { hide *; Parts(c); }
          WriteOk(c.sender, data);
          var s := c.sender.(stream := c.sender.stream.Write(data));
          OwnerSameTimer(c.(sender := s), s);
        }
      case EndData =>
        EndOk(c.sender);
        var s := c.sender.(stream := c.sender.stream.EndInput());
        OwnerSameTimer(c.(sender := s), s);
      case Arrival(seg) =>
        if !seg.header.rst {
          ReplySameTimer(c.(elapsed := 0, receiver := SegmentReceived(c.receiver, seg).value), seg);
        }
      case Clock(ms) => TickSameTimer(c, ms);
      case ReadData(_) =>
      case TakeSegment =>
    }
  }

  lemma TickSameTimer(c: Connection, ms: nat)
    requires ConnInv(c) && c.active && c.sender.outstanding != []
    ensures Oldest(Connections.Tick(c, ms).sender) == Oldest(c.sender)
    ensures !Expires(c.sender, ms) ==> SameTimer(c.sender, Connections.Tick(c, ms).sender, ms)
  {
    hide Truthful, Sending.Tick, Wrap, TimerOk, NoStall, SeqLen, Start, Flight;
    assert SenderInv(c.sender) && TimerOk(c.sender) by { hide *; Parts(c); }
    TickExactly(c.sender, ms);
    TickSenderIs(c, ms);
    TickQueue(c.sender, ms);
  }

  /** The sender after a tick, but for its queue and its error. */
  lemma TickSenderIs(c: Connection, ms: nat)
    requires c.Ready()
    ensures
      var s, s' := Sending.Tick(c.sender, ms), Connections.Tick(c, ms).sender;
      s' == s.(segmentsOut := [], stream := s'.stream)
  {
    hide Sending.Tick, Dress, Wrap, SeqLen;
  }

  lemma TickQueue(s: Sender, ms: nat)
    ensures Sending.Tick(s, ms).outstanding == s.outstanding && Sending.Tick(s, ms).sent == s.sent
  {
  }

  // the history only grows, and the queue only loses its front

  ghost predicate Grows(s: Sender, s': Sender)
  {
    s.sent <= s'.sent && Oldest(s) <= Oldest(s')
  }

  lemma FillGrows(c: Connection)
    requires c.Ready() && SenderInv(c.sender)
    ensures Grows(c.sender, FillAndSend(c).sender)
  {
    hide FillWindow, Truthful, Flight, SeqLen;
    FillWindowKeeps(c.sender);
  }

  lemma ReplyGrows(c: Connection, seg: Segment)
    requires ConnInv(c) && c.sender.next < TWO63
    ensures Grows(c.sender, Reply(c, seg).sender)
  {
    hide Truthful, Flight, FillWindow, AckReceived, TimerOk, NoStall, Reply;
    var s := Acked(c.sender, seg);
    AckReceivedKeeps(c.sender, seg.header.ackno, seg.header.win);
    AckedOk(c.sender, seg);
    ReplySender(c, seg);
    FillWindowKeeps(s);
  }

  lemma EventGrows(c: Connection, e: Event)
    requires ConnInv(c) && c.sender.next < TWO63 && Next(c, e).Done?
    ensures Grows(c.sender, Next(c, e).value.sender)
  {
    hide SenderOk, SenderInv, Reply, SegmentReceived, FillAndSend, Sending.Tick, Connections.Tick,
         Summarize, Start, SeqLen;
    assert SenderInv(c.sender) by { hide *; Parts(c); }
    match e {
      case Connect => FillGrows(c);
      case WriteData(data) =>
        if !c.sender.stream.ended && data != [] {
          assert !c.sender.finSent by { hide *; Parts(c); }
          WriteOk(c.sender, data);
          FillGrows(c.(sender := c.sender.(stream := c.sender.stream.Write(data))));
        }
      case EndData =>
        EndOk(c.sender);
        FillGrows(c.(sender := c.sender.(stream := c.sender.stream.EndInput())));
      case Arrival(seg) =>
        if !seg.header.rst {
          ReplyGrows(c.(elapsed := 0, receiver := SegmentReceived(c.receiver, seg).value), seg);
        }
      case Clock(ms) =>
        TickSenderIs(c, ms);
        TickQueue(c.sender, ms);
      case ReadData(_) =>
      case TakeSegment =>
    }
  }

  lemma {:induction false} RunGrows(c: Connection, events: seq<Event>)
    requires ConnInv(c) && |c.sender.stream.written| + Offered(events) + 2 < TWO63 && Run(c, events).Done?
    ensures Grows(c.sender, Run(c, events).value.sender)
    decreases |events|
  {
    hide Next, Summarize, SenderOk;
    if events != [] {
      NextBelow(c);
      NextOk(c, events[0]);
      WrittenGrows(c, events[0]);
      EventGrows(c, events[0]);
      RunGrows(Next(c, events[0]).value, events[1..]);
    }
  }

  lemma ClockIs(c: Connection, ms: nat)
    requires c.Ready() && c.active
    ensures Next(c, Clock(ms)) == Done(Connections.Tick(c, ms))
  {
  }

  lemma LastStops(c: Connection, ms: nat)
    requires ConnInv(c) && c.active
    ensures LastStraw(c.sender, ms) ==> !Connections.Tick(c, ms).active
  {
    hide Truthful, Flight, Sending.Tick, TimerOk, NoStall, SeqLen, Start, Connections.Tick;
    if LastStraw(c.sender, ms) {
      assert SenderInv(c.sender) && TimerOk(c.sender) by { hide *; Parts(c); }
      TickExactly(c.sender, ms);
      TickGivesUp(c, ms);
    }
  }

  /** Some step of the run repeats `seg`. */
  ghost predicate RepeatsDuring(c: Connection, events: seq<Event>, seg: Segment)
    requires c.Ready()
    decreases |events|
  {
    && events != [] && Next(c, events[0]).Done?
    && ((events[0].Clock? && Repeats(c, Next(c, events[0]).value, seg))
        || RepeatsDuring(Next(c, events[0]).value, events[1..], seg))
  }

  /** While a connection stays active and nothing more of the oldest segment is acknowledged, then
      within the time that is left on its timer that segment is queued again. */
  lemma {:induction false} RetransmitsInTime(c: Connection, events: seq<Event>)
    requires ConnInv(c) && |c.sender.stream.written| + Offered(events) + 2 < TWO63
    requires c.sender.outstanding != [] && Run(c, events).Done? && Run(c, events).value.active
    requires Oldest(Run(c, events).value.sender) == Oldest(c.sender)
    requires c.sender.elapsed + Ticks(events) >= c.sender.timeout
    ensures RepeatsDuring(c, events, c.sender.sent[Oldest(c.sender)])
    decreases |events|
  {
    hide Next, Summarize, Repeats, Expires, Truthful, TimerOk, NoStall;
    RunOk(c, events);
    if events == [] {
      TimerRuns(c);
    } else {
      var e, c1 := events[0], Next(c, events[0]).value;
      NextBelow(c);
      NextOk(c, e);
      WrittenGrows(c, e);
      RunOk(c1, events[1..]);
      EventSameTimer(c, e);
      RunGrows(c1, events[1..]);
      EventGrows(c, e);
      if e.Clock? && Expires(c.sender, e.ms) {
        ClockIs(c, e.ms);
        TickSends(c, e.ms);
        LastStops(c, e.ms);
      } else {
        assert Ticks([e]) == (if e.Clock? then e.ms else 0) by { assert [e][1..] == []; }
        RetransmitsInTime(c1, events[1..]);
      }
    }
  }

  lemma TimerRuns(c: Connection)
    requires ConnInv(c) && c.sender.outstanding != []
    ensures c.sender.elapsed < c.sender.timeout
  {
  }

  // ---------------------------------------------------------------- closing

  /** Both streams are finished: the peer's has ended with nothing left unassembled, and everything
      of ours through the FIN is confirmed. */
  ghost predicate BothFinished(c: Connection)
  {
    && c.receiver.Out().ended && StoredBytes(c.receiver.reassembler.store) == 0
    && c.sender.finSent && c.sender.confirmed == |c.sender.stream.written| + 2
  }

  lemma FinishedIsSpent(s: Sender)
    requires SenderInv(s) && s.finSent && s.confirmed == |s.stream.written| + 2
    ensures s.outstanding == [] && s.stream.ended && !s.timing && s.retransmissions == 0
  {
    hide Truthful, SeqLen, Start;
    FlightBound(s);
  }

  lemma FinishedTick(c: Connection, ms: nat)
    requires ConnInv(c) && c.active && BothFinished(c)
    ensures
      var c' := Connections.Tick(c, ms);
      && ConnInv(c') && BothFinished(c') && c'.timeout == c.timeout && c'.linger == c.linger
      && c'.sender.next == c.sender.next
      && c'.elapsed == c.elapsed + ms
      && (!c'.active <==> !c.linger || c.elapsed + ms >= 10 * c.timeout)
  {
    hide Truthful, Flight, TimerOk, NoStall, SeqLen, Start, Summarize;
    assert SenderInv(c.sender) by { hide *; Parts(c); }
    FinishedIsSpent(c.sender);
    assert Sending.Tick(c.sender, ms) == c.sender;
    TickCloses(c, ms);
    NoneQueued(c.(elapsed := c.elapsed + ms));
  }

  /** Without an arrival nothing else touches two finished streams. */
  lemma FinishedStays(c: Connection, e: Event)
    requires ConnInv(c) && BothFinished(c) && !e.Arrival? && c.sender.next < TWO63
    ensures
      Next(c, e).Done? &&
      var c' := Next(c, e).value;
      && ConnInv(c') && BothFinished(c') && c'.timeout == c.timeout && c'.linger == c.linger
      && c'.sender.next == c.sender.next
      && (!c.active ==> !c'.active)
      && (c.active && e.Clock? ==>
            && c'.elapsed == c.elapsed + e.ms
            && (!c'.active <==> !c.linger || c.elapsed + e.ms >= 10 * c.timeout))
      && (c.active && !e.Clock? ==> c'.active && c'.elapsed == c.elapsed)
  {
    hide Truthful, Flight, TimerOk, NoStall, SeqLen, Start, Summarize, Connections.Tick, Wrap;
    assert SenderInv(c.sender) by { hide *; Parts(c); }
    FinishedIsSpent(c.sender);
    NextOk(c, e);
    if e.Clock? && c.active {
      FinishedTick(c, e.ms);
    }
  }

  /** Once both streams are finished, ten timeouts without an arrival leave the connection inactive. */
  lemma {:induction false} ClosesInTime(c: Connection, events: seq<Event>)
    requires ConnInv(c) && BothFinished(c) && c.sender.next < TWO63
    requires forall k :: 0 <= k < |events| ==> !events[k].Arrival?
    requires c.active ==> Ticks(events) > 0 && c.elapsed + Ticks(events) >= 10 * c.timeout
    ensures Run(c, events).Done? && !Run(c, events).value.active
    decreases |events|
  {
    hide SenderOk, BothFinished, Next;
    if events != [] {
      assert !events[0].Arrival?;
      FinishedStays(c, events[0]);
      ClosesInTime(Next(c, events[0]).value, events[1..]);
    }
  }

  /** The time since the last arrival: an arrival starts it anew, and only ticks add to it. */
  lemma TimeSinceArrival(c: Connection, e: Event)
    requires c.Ready() && Next(c, e).Done?
    ensures
      var c' := Next(c, e).value;
      && (e.Arrival? ==> c'.elapsed == 0)
      && (e.Clock? && c.active && Sending.Tick(c.sender, e.ms).retransmissions <= 8 ==> c'.elapsed == c.elapsed + e.ms)
      && (!e.Arrival? && !e.Clock? ==> c'.elapsed == c.elapsed)
  {
    hide FillWindow, AckReceived, SegmentReceived, Sending.Tick, Dress, Wrap, SeqLen, StoredBytes;
  }
}
