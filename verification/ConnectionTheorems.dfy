/** What every reachable state of a connection satisfies, whatever its peer sends. */
module ConnectionTheorems {
  import opened Basics
  import opened ByteStreams
  import opened Reassembly
  import opened Segments
  import opened WrappingIntegers
  import opened Sending
  import opened SendingTheorems
  import opened Receiving
  import opened Connections

  // ---------------------------------------------------------------- the sender of a connection

  /** In-flight queue, timer and progress are in order. */
  ghost predicate SenderOk(s: Sender)
  {
    SenderInv(s) && NoStall(s) && TimerOk(s) && s.retransmissions <= MAX_RETX_ATTEMPTS + 1
  }

  /** The sender moved forward: nothing already sent or confirmed was taken back. */
  ghost predicate Ahead(s: Sender, s': Sender)
  {
    && s.next <= s'.next
    && Oldest(s) <= Oldest(s')
    && (s.finSent ==> s'.finSent && s'.sent == s.sent)
    && (s.stream.error ==> s'.stream.error)
    && s'.retransmissions <= s.retransmissions + 1
    && s'.initialTimeout == s.initialTimeout
  }

  lemma FillOk(s: Sender)
    requires SenderInv(s) && TimerOk(s) && s.retransmissions <= MAX_RETX_ATTEMPTS + 1
    ensures SenderOk(FillWindow(s)) && Ahead(s, FillWindow(s)) && FillWindow(s).retransmissions == s.retransmissions
    ensures FillWindow(s).stream.error == s.stream.error
  {
    hide FillWindow, SenderInv, TimerOk;
    FillWindowKeeps(s);
    FillWindowNoStall(s);
    FillWindowTimer(s);
  }

  lemma AckOk(s: Sender, ackno: U32, window: U16)
    requires SenderOk(s) && s.next < TWO63
    ensures
      var s' := AckReceived(s, ackno, window);
      SenderOk(s') && Ahead(s, s') && s'.retransmissions <= s.retransmissions && s'.stream.error == s.stream.error
  {
    hide AckReceived, TimerOk, NoStall, Truthful, Flight;
    AckReceivedKeeps(s, ackno, window);
    AckReceivedTimer(s, ackno, window);
  }

  lemma TickOk(s: Sender, ms: nat)
    requires SenderOk(s) && s.retransmissions <= MAX_RETX_ATTEMPTS
    ensures SenderOk(Sending.Tick(s, ms)) && Ahead(s, Sending.Tick(s, ms))
    ensures Sending.Tick(s, ms).stream == s.stream
  {
    hide Truthful, Flight, TimerOk;
    TickKeeps(s, ms);
    TickTimer(s, ms);
    assert NoStall(Sending.Tick(s, ms)) by { hide *; TickNoStall(s, ms); }
  }

  lemma TickNoStall(s: Sender, ms: nat)
    requires NoStall(s)
    ensures NoStall(Sending.Tick(s, ms)) && Oldest(Sending.Tick(s, ms)) == Oldest(s)
    ensures Sending.Tick(s, ms).initialTimeout == s.initialTimeout
    ensures s.retransmissions <= 8 ==> Sending.Tick(s, ms).retransmissions <= s.retransmissions + 1
  {
  }

  lemma EndOk(s: Sender)
    requires SenderOk(s)
    ensures
      var s' := s.(stream := s.stream.EndInput());
      SenderInv(s') && TimerOk(s') && Ahead(s, s')
  {
    hide Start, Flight, Backoff, Wrap;
    var s' := s.(stream := s.stream.EndInput());
    forall i: nat | i < |s'.sent|
      ensures Truthful(s'.sent, i, s'.isn, s'.stream, s'.finSent)
    {
      assert Truthful(s.sent, i, s.isn, s.stream, s.finSent);
    }
  }

  lemma WriteOk(s: Sender, data: Bytes)
    requires SenderOk(s) && !s.finSent
    ensures
      var s' := s.(stream := s.stream.Write(data));
      SenderInv(s') && TimerOk(s') && Ahead(s, s')
  {
    hide Start, Flight, Backoff, Wrap;
    var s' := s.(stream := s.stream.Write(data));
    forall i: nat | i < |s'.sent|
      ensures Truthful(s'.sent, i, s'.isn, s'.stream, s'.finSent)
    {
      assert Truthful(s.sent, i, s.isn, s.stream, s.finSent);
    }
  }

  lemma ErrorOk(s: Sender)
    requires SenderOk(s)
    ensures
      var s' := s.(stream := s.stream.SetError());
      SenderOk(s') && Ahead(s, s')
  {
    hide Start, Flight, Backoff, Wrap;
    var s' := s.(stream := s.stream.SetError());
    forall i: nat | i < |s'.sent|
      ensures Truthful(s'.sent, i, s'.isn, s'.stream, s'.finSent)
    {
      assert Truthful(s.sent, i, s.isn, s.stream, s.finSent);
    }
  }

  lemma EmptiedOk(s: Sender, out: seq<Segment>)
    requires SenderOk(s)
    ensures SenderOk(s.(segmentsOut := out)) && Ahead(s, s.(segmentsOut := out))
  {
    hide Truthful, Flight, Backoff;
  }

  // ---------------------------------------------------------------- summaries

  /** The summary read off the history: nothing sent; the SYN unacknowledged; the FIN not sent;
      the FIN unacknowledged; done. */
  lemma SummaryMeans(s: Sender)
    requires SenderInv(s) && !s.stream.error
    ensures
      Summarize(s) ==
        if s.sent == [] then CLOSED
        else if Oldest(s) == 0 then SYN_SENT
        else if !s.finSent then SYN_ACKED
        else if s.outstanding != [] then FIN_SENT
        else FIN_ACKED
  {
    hide Wrap, SeqLen;
    NoneSentIff(s);
    FlightBound(s);
    if s.sent != [] {
      assert Truthful(s.sent, 0, s.isn, s.stream, s.finSent);
      StartNext(s.sent, 0);
      if Oldest(s) > 0 {
        StartMonotone(s.sent, 1, Oldest(s));
      } else {
        StartsAtZero(s.sent);
      }
    }
  }

  lemma StartsAtZero(sent: seq<Segment>)
    ensures Start(sent, 0) == 0
  {
  }

  /** A sender that moved forward is summarized by the same or a later state; an error stays. */
  lemma SummaryForward(s: Sender, s': Sender)
    requires SenderInv(s) && SenderInv(s') && Ahead(s, s')
    ensures Rank(Summarize(s)) <= Rank(Summarize(s'))
  {
    hide Truthful, SeqLen, Start, Wrap, Summarize;
    assert |s.outstanding| <= |s.sent| && |s'.outstanding| <= |s'.sent|;
    hide Flight;
    ErrorSummary(s');
    ErrorSummary(s);
    if !s'.stream.error {
      SummaryMeans(s);
      SummaryMeans(s');
      NoneSentIff(s);
      NoneSentIff(s');
    }
  }

  lemma ErrorSummary(s: Sender)
    ensures s.stream.error ==> Summarize(s) == ERROR
  {
  }

  // ---------------------------------------------------------------- the connection

  ghost predicate ConnInv(c: Connection)
  {
    && c.Ready()
    && SenderOk(c.sender)
    && c.sender.segmentsOut == []
    && c.sender.initialTimeout == c.timeout
    && (c.active ==> c.sender.retransmissions <= MAX_RETX_ATTEMPTS && !c.sender.stream.error)
  }

  /** What a step may do to the connection around its sender. */
  ghost predicate Onward(c: Connection, c': Connection)
  {
    && Rank(Summarize(c.sender)) <= Rank(Summarize(c'.sender))
    && c'.timeout == c.timeout
    && (!c.active ==> !c'.active)
  }

  lemma NewConnectionOk(sendCapacity: nat, recvCapacity: nat, timeout: U16, isn: U32)
    requires timeout > 0
    ensures ConnInv(NewConnection(sendCapacity, recvCapacity, timeout, isn))
  {
    hide SenderInv, Wrap;
    NewSenderOk(sendCapacity, timeout, isn);
  }

  /** Replacing the sender by one that moved forward. */
  lemma WithSender(c: Connection, c': Connection)
    requires ConnInv(c) && SenderOk(c'.sender) && c'.Ready()
    requires Ahead(c.sender, c'.sender) && c'.sender.retransmissions <= c.sender.retransmissions
    requires c'.sender.segmentsOut == [] && c'.timeout == c.timeout && c'.active == c.active
    requires c'.sender.stream.error == c.sender.stream.error
    ensures ConnInv(c') && Onward(c, c')
  {
    hide SenderInv, Summarize, TimerOk, NoStall;
    SummaryForward(c.sender, c'.sender);
  }

  lemma AheadTrans(a: Sender, b: Sender, c: Sender)
    requires Ahead(a, b) && Ahead(b, c) && c.retransmissions <= b.retransmissions
    ensures Ahead(a, c)
  {
  }

  lemma FillAndSendOk(c: Connection, s: Sender)
    requires ConnInv(c) && SenderInv(s) && TimerOk(s) && Ahead(c.sender, s) && s.retransmissions <= c.sender.retransmissions
    requires s.stream.error == c.sender.stream.error
    ensures
      var c' := FillAndSend(c.(sender := s));
      ConnInv(c') && Onward(c, c') && c'.active == c.active
  {
    hide Truthful, Flight, FillWindow, Onward, TimerOk, NoStall;
    FillOk(s);
    EmptiedOk(FillWindow(s), []);
    var c' := FillAndSend(c.(sender := s));
    AheadTrans(c.sender, s, FillWindow(s));
    AheadTrans(c.sender, FillWindow(s), c'.sender);
    WithSender(c, c');
  }

  lemma AbortOk(c: Connection)
    requires ConnInv(c)
    ensures ConnInv(Abort(c)) && Onward(c, Abort(c))
  {
    hide SenderInv, Summarize, TimerOk, NoStall;
    ErrorOk(c.sender);
    SummaryForward(c.sender, Abort(c).sender);
  }

  /** The sender after the acknowledgment in a segment, if it has one. */
  function Acked(s: Sender, seg: Segment): (s': Sender)
    requires s.stream.Valid()
    ensures s'.stream.Valid()
  {
    if seg.header.ack then AckReceived(s, seg.header.ackno, seg.header.win).(segmentsOut := []) else s
  }

  lemma AckedOk(s: Sender, seg: Segment)
    requires SenderOk(s) && s.next < TWO63
    ensures
      var s' := Acked(s, seg);
      SenderOk(s') && Ahead(s, s') && s'.retransmissions <= s.retransmissions && s'.stream.error == s.stream.error
  {
    hide SenderOk, AckReceived;
    assert s.stream.Valid() by { hide *; StreamValid(s); }
    if seg.header.ack {
      AckOk(s, seg.header.ackno, seg.header.win);
      var s' := AckReceived(s, seg.header.ackno, seg.header.win);
      EmptiedOk(s', []);
      AheadTrans(s, s', s'.(segmentsOut := []));
    } else {
      EmptiedOk(s, s.segmentsOut);
    }
  }

  lemma StreamValid(s: Sender)
    requires SenderOk(s)
    ensures s.stream.Valid()
  {
  }

  /** The sender of the replying connection is the acknowledged one, filled if the segment
      occupies sequence numbers. */
  lemma ReplySender(c: Connection, seg: Segment)
    requires c.Ready() && c.sender.segmentsOut == []
    ensures
      var c', s := Reply(c, seg), Acked(c.sender, seg);
      && c'.sender == (if seg.Len() == 0 then s else FillWindow(s).(segmentsOut := []))
      && c'.timeout == c.timeout && c'.active == c.active
  {
    hide AckReceived, FillWindow, Wrap, SendSegmentsOut, Answer;
    AnswerSender(TakeAck(StopLingering(c), seg), seg);
  }

  lemma AnswerSender(c: Connection, seg: Segment)
    requires c.Ready()
    ensures
      var c' := Answer(c, seg);
      && c'.sender == (if seg.Len() == 0 then c.sender else FillWindow(c.sender).(segmentsOut := []))
      && c'.timeout == c.timeout && c'.active == c.active
  {
    hide FillWindow, SendEmpty, SendSegmentsOut, Segment.Len;
    var c1 := c.(sender := FillWindow(c.sender));
    var c2 := SendSegmentsOut(c1);
    Drained(c1);
    EmptyQueued(c2.sender);
    Drained(c2.(sender := SendEmpty(c2.sender)));
  }

  lemma Drained(c: Connection)
    ensures SendSegmentsOut(c).sender == c.sender.(segmentsOut := [])
    ensures SendSegmentsOut(c).timeout == c.timeout && SendSegmentsOut(c).active == c.active
  {
    hide Dress;
  }

  lemma EmptyQueued(s: Sender)
    ensures SendEmpty(s).(segmentsOut := []) == s.(segmentsOut := [])
  {
    hide Stamp;
  }

  lemma ReplyOk(c: Connection, seg: Segment)
    requires ConnInv(c) && c.sender.next < TWO63
    ensures ConnInv(Reply(c, seg)) && Onward(c, Reply(c, seg))
  {
    hide Truthful, Flight, FillWindow, Acked, Onward, TimerOk, NoStall, Reply;
    var s := Acked(c.sender, seg);
    var c' := Reply(c, seg);
    AckedOk(c.sender, seg);
    ReplySender(c, seg);
    if seg.Len() > 0 {
      FillOk(s);
      EmptiedOk(FillWindow(s), []);
      AheadTrans(c.sender, s, FillWindow(s));
      AheadTrans(c.sender, FillWindow(s), c'.sender);
    } else {
      assert c'.sender.segmentsOut == [] by { hide *; AckedEmpty(c.sender, seg); }
    }
    WithSender(c, c');
  }

  lemma AckedEmpty(s: Sender, seg: Segment)
    requires s.stream.Valid() && s.segmentsOut == []
    ensures Acked(s, seg).segmentsOut == []
  {
  }

  /** Any segment whatsoever, from any peer. */
  lemma ReceiveOk(c: Connection, seg: Segment)
    requires ConnInv(c) && c.sender.next < TWO63
    ensures
      var o := Receive(c, seg);
      o.Done? ==>
        && ConnInv(o.value) && Onward(c, o.value)
        && (seg.header.rst ==> !o.value.active && o.value.sender.stream.error && o.value.receiver.Out().error)
        && (!seg.header.rst ==> o.value.active == c.active)
  {
    hide SenderOk, Reply, SegmentReceived, Summarize;
    if seg.header.rst {
      AbortOk(c.(elapsed := 0));
    } else if SegmentReceived(c.receiver, seg).Done? {
      var c1 := c.(elapsed := 0, receiver := SegmentReceived(c.receiver, seg).value);
      ReplyOk(c1, seg);
      assert Reply(c1, seg).active == c.active by { hide *; ReplySender(c1, seg); }
    }
  }

  // ---------------------------------------------------------------- ticking

  /** A sender with a counted retransmission still has its oldest segment outstanding. */
  lemma RetransmittingIsOutstanding(s: Sender)
    requires SenderInv(s) && s.retransmissions > 0
    ensures s.InFlight() > 0
  {
    hide Truthful;
    FlightBound(s);
  }

  /** On the ninth counted retransmission the connection drops its queue, queues exactly one reset,
      and is inactive; the closing check at the end of that very tick cannot undo it. */
  lemma TickGivesUp(c: Connection, ms: nat)
    requires ConnInv(c) && c.active
    requires Sending.Tick(c.sender, ms).retransmissions > MAX_RETX_ATTEMPTS
    ensures
      var c' := Connections.Tick(c, ms);
      && !c'.active && c'.sender.stream.error && c'.receiver.Out().error
      && c'.segmentsOut == [Reset(c.sender)]
      && ConnInv(c') && Onward(c, c')
  {
    hide Truthful, Flight, Sending.Tick, Wrap, TimerOk, NoStall, Summarize;
    TickOk(c.sender, ms);
    var s := Sending.Tick(c.sender, ms);
    TickKeeps(c.sender, ms);
    RetransmittingIsOutstanding(s);
    EmptiedOk(s, []);
    ErrorOk(s.(segmentsOut := []));
    var c' := Connections.Tick(c, ms);
    assert c'.sender == s.(segmentsOut := [], stream := s.stream.SetError());
    assert c'.sender.stream.error;
    assert Rank(Summarize(c'.sender)) == 5 by { hide *; ErrorSummary(c'.sender); }
    assert Rank(Summarize(c.sender)) <= 5;
  }

  /** Otherwise the connection goes inactive if and only if it closes cleanly: the peer's stream has
      ended with nothing left unassembled, everything of ours through the FIN is confirmed, and
      either nobody needs to linger or ten timeouts have passed since the last segment. */
  lemma TickCloses(c: Connection, ms: nat)
    requires ConnInv(c) && c.active
    requires Sending.Tick(c.sender, ms).retransmissions <= MAX_RETX_ATTEMPTS
    ensures
      var c' := Connections.Tick(c, ms);
      && ConnInv(c') && Onward(c, c')
      && !c'.sender.stream.error
      && (!c'.active <==>
            && c'.receiver.Out().ended && StoredBytes(c'.receiver.reassembler.store) == 0
            && c'.sender.finSent && c'.sender.confirmed == |c'.sender.stream.written| + 2
            && (!c.linger || c.elapsed + ms >= 10 * c.timeout))
  {
    hide Truthful, Sending.Tick, Wrap, TimerOk, NoStall, Summarize;
    TickOk(c.sender, ms);
    var s := Sending.Tick(c.sender, ms);
    EmptiedOk(s, []);
    AheadTrans(c.sender, s, s.(segmentsOut := []));
    SummaryForward(c.sender, s.(segmentsOut := []));
    FlightBound(s.(segmentsOut := []));
    assert s.InFlight() == s.(segmentsOut := []).InFlight();
  }

  // ---------------------------------------------------------------- runs

  datatype Event =
    | Connect
    | WriteData(data: Bytes)
    | EndData
    | Arrival(seg: Segment)
    | Clock(ms: nat)
    | ReadData(len: nat)
    | TakeSegment

  /** The owner does not write after ending the input, and ticks only an active connection. */
  function Next(c: Connection, e: Event): (o: Outcome<Connection>)
    requires c.Ready()
    ensures o.Done? ==> o.value.Ready()
  {
    match e
    case Connect => Done(FillAndSend(c))
    case WriteData(data) => Done(if c.sender.stream.ended then c else Write(c, data))
    case EndData => Done(EndInput(c))
    case Arrival(seg) => Receive(c, seg)
    case Clock(ms) => Done(if c.active then Connections.Tick(c, ms) else c)
    case ReadData(len) => Done(ReadInbound(c, len))
    case TakeSegment => Done(if c.segmentsOut == [] then c else c.(segmentsOut := c.segmentsOut[1..]))
  }

  /** The connection stopped because of a reset, sent or received, or after a clean close. */
  ghost predicate Closed(c: Connection)
  {
    || c.sender.stream.error
    || (c.receiver.Out().ended && StoredBytes(c.receiver.reassembler.store) == 0
        && c.sender.confirmed == |c.sender.stream.written| + 2)
  }

  /** Every event keeps the invariant, moves the sender's summary only forward, and stops the
      connection only by a reset or a clean close. */
  lemma NextOk(c: Connection, e: Event)
    requires ConnInv(c) && c.sender.next < TWO63
    ensures
      Next(c, e).Done? ==>
        var c' := Next(c, e).value;
        && ConnInv(c') && Onward(c, c')
        && (c.active && !c'.active ==> Closed(c'))
  {
    hide SenderOk, Receive, Connections.Tick, FillAndSend, Summarize, Sending.Tick;
    assert SenderInv(c.sender) && TimerOk(c.sender) && c.sender.stream.Valid()
      && (c.sender.finSent ==> c.sender.stream.ended) by { hide *; Parts(c); }
    hide SenderInv, TimerOk;
    match e {
      case Connect =>
        EmptiedOk(c.sender, []);
        FillAndSendOk(c, c.sender);
      case WriteData(data) =>
        if !c.sender.stream.ended && data != [] {
          WriteOk(c.sender, data);
          FillAndSendOk(c, c.sender.(stream := c.sender.stream.Write(data)));
        }
      case EndData =>
        EndOk(c.sender);
        FillAndSendOk(c, c.sender.(stream := c.sender.stream.EndInput()));
      case Arrival(seg) => ReceiveOk(c, seg);
      case Clock(ms) =>
        if c.active {
          if Sending.Tick(c.sender, ms).retransmissions > MAX_RETX_ATTEMPTS {
            TickGivesUp(c, ms);
          } else {
            TickCloses(c, ms);
          }
        }
      case ReadData(_) =>
      case TakeSegment =>
    }
  }

  lemma Parts(c: Connection)
    requires ConnInv(c)
    ensures SenderInv(c.sender) && TimerOk(c.sender) && c.sender.stream.Valid()
    ensures c.sender.finSent ==> c.sender.stream.ended
  {
  }

  function Run(c: Connection, events: seq<Event>): (o: Outcome<Connection>)
    requires c.Ready()
    ensures o.Done? ==> o.value.Ready()
    decreases |events|
  {
    if events == [] then Done(c)
    else if Next(c, events[0]).Hang? then Hang
    else Run(Next(c, events[0]).value, events[1..])
  }

  /** Bytes the application offers in a run. */
  function Offered(events: seq<Event>): nat
  {
    if events == [] then 0 else (if events[0].WriteData? then |events[0].data| else 0) + Offered(events[1..])
  }

  lemma ReplyKeepsWritten(c: Connection, seg: Segment)
    requires ConnInv(c) && c.sender.next < TWO63
    ensures Reply(c, seg).sender.stream.written == c.sender.stream.written
  {
    hide Truthful, Flight, FillWindow, AckReceived, Reply;
    var s := Acked(c.sender, seg);
    AckReceivedKeeps(c.sender, seg.header.ackno, seg.header.win);
    AckedOk(c.sender, seg);
    FillWindowKeeps(s);
    ReplySender(c, seg);
  }

  lemma FillAndSendKeepsWritten(c: Connection)
    requires c.Ready() && SenderInv(c.sender)
    ensures FillAndSend(c).sender.stream.written == c.sender.stream.written
  {
    hide Truthful, Flight, FillWindow, SeqLen;
    FillWindowKeeps(c.sender);
  }

  lemma TickKeepsWritten(c: Connection, ms: nat)
    requires c.Ready()
    ensures Connections.Tick(c, ms).sender.stream.written == c.sender.stream.written
  {
    hide Wrap, SeqLen, Dress;
    assert Sending.Tick(c.sender, ms).stream == c.sender.stream;
  }

  lemma WrittenGrows(c: Connection, e: Event)
    requires ConnInv(c) && c.sender.next < TWO63
    ensures Next(c, e).Done? ==>
      |Next(c, e).value.sender.stream.written| <= |c.sender.stream.written| + if e.WriteData? then |e.data| else 0
  {
    hide Truthful, Flight, FillAndSend, Reply, SegmentReceived, Summarize, Connections.Tick, TimerOk, NoStall;
    match e {
      case Connect => FillAndSendKeepsWritten(c);
      case WriteData(data) =>
        if !c.sender.stream.ended && data != [] {
          WriteOk(c.sender, data);
          FillAndSendKeepsWritten(c.(sender := c.sender.(stream := c.sender.stream.Write(data))));
        }
      case EndData =>
        EndOk(c.sender);
        FillAndSendKeepsWritten(c.(sender := c.sender.(stream := c.sender.stream.EndInput())));
      case Arrival(seg) =>
        if !seg.header.rst && SegmentReceived(c.receiver, seg).Done? {
          ReplyKeepsWritten(c.(elapsed := 0, receiver := SegmentReceived(c.receiver, seg).value), seg);
        }
      case Clock(ms) => TickKeepsWritten(c, ms);
      case ReadData(_) =>
      case TakeSegment =>
    }
  }

  /** The first time that the run leaves the connection inactive, this is by a reset or after a
      clean close. */
  ghost predicate StopsOnlyClosed(c: Connection, events: seq<Event>)
    requires c.Ready()
    decreases |events|
  {
    events != [] && Next(c, events[0]).Done? ==>
      var c' := Next(c, events[0]).value;
      if c'.active then StopsOnlyClosed(c', events[1..]) else Closed(c')
  }

  lemma {:induction false} RunOk(c: Connection, events: seq<Event>)
    requires ConnInv(c) && |c.sender.stream.written| + Offered(events) + 2 < TWO63
    ensures Run(c, events).Done? ==> ConnInv(Run(c, events).value) && Onward(c, Run(c, events).value)
    ensures c.active ==> StopsOnlyClosed(c, events)
    decreases |events|
  {
    hide SenderOk, Next, Summarize, Closed;
    if events != [] && Next(c, events[0]).Done? {
      NextBelow(c);
      NextOk(c, events[0]);
      WrittenGrows(c, events[0]);
      RunOk(Next(c, events[0]).value, events[1..]);
    }
  }

  lemma NextBelow(c: Connection)
    requires ConnInv(c) && |c.sender.stream.written| + 2 < TWO63
    ensures c.sender.next < TWO63
  {
    hide Truthful, Flight;
  }

  /** What holds in every reachable state of a connection. */
  ghost predicate Healthy(c: Connection)
  {
    var s := c.sender;
    // the queue is contiguous, ends at the next number, and its front contains the first
    // unconfirmed one
    && 0 <= Oldest(s) && s.outstanding == s.sent[Oldest(s)..]
    && (forall k :: 0 <= k < |s.outstanding| ==> s.outstanding[k].header.seqno == Wrap(Start(s.sent, Oldest(s) + k), s.isn))
    && s.InFlight() == s.next - Start(s.sent, Oldest(s)) <= MAX_FLIGHT
    && (s.outstanding != [] ==>
          Start(s.sent, Oldest(s)) <= s.confirmed < Start(s.sent, Oldest(s)) + s.outstanding[0].Len())
    && (s.outstanding == [] <==> s.confirmed == s.next)
    // the timer runs exactly while something is outstanding, below a timeout that has doubled
    // with every counted retransmission
    && (s.timing <==> s.outstanding != [])
    && s.timeout == Backoff(c.timeout, s.retransmissions)
    && (s.timing ==> s.elapsed < s.timeout)
    // whoever has something left to send will be woken up
    && (Unsent(s) ==> s.timing)
    // an active connection has not given up
    && (c.active ==> s.retransmissions <= MAX_RETX_ATTEMPTS)
  }

  /** Every completed run of a connection, whatever its peer sends and however late. */
  lemma AlwaysHealthy(sendCapacity: nat, recvCapacity: nat, timeout: U16, isn: U32, events: seq<Event>)
    requires timeout > 0 && Offered(events) + 2 < TWO63
    ensures
      var o := Run(NewConnection(sendCapacity, recvCapacity, timeout, isn), events);
      o.Done? ==> Healthy(o.value)
    ensures StopsOnlyClosed(NewConnection(sendCapacity, recvCapacity, timeout, isn), events)
  {
    hide SeqLen, Start, Next, Summarize, StopsOnlyClosed, Wrap;
    var c := NewConnection(sendCapacity, recvCapacity, timeout, isn);
    NewConnectionOk(sendCapacity, recvCapacity, timeout, isn);
    RunOk(c, events);
    if Run(c, events).Done? {
      var s := Run(c, events).value.sender;
      FlightBound(s);
      forall k | 0 <= k < |s.outstanding|
        ensures s.outstanding[k].header.seqno == Wrap(Start(s.sent, Oldest(s) + k), s.isn)
      {
        assert Truthful(s.sent, Oldest(s) + k, s.isn, s.stream, s.finSent);
      }
    }
  }

  // ---------------------------------------------------------------- writing after the end

  /** The stream does not refuse a write after its end. A write moves the summary backwards
      exactly when the FIN is already part of it and a byte is accepted; so the owner must not
      write after ending the input. */
  lemma LateWriteIff(c: Connection, data: Bytes)
    requires ConnInv(c)
    ensures
      Rank(Summarize(Write(c, data).sender)) < Rank(Summarize(c.sender))
      <==> Summarize(c.sender) in {FIN_SENT, FIN_ACKED} && c.sender.stream.Accepted(data) > 0
  {
    hide Truthful, SeqLen, Start, Wrap, TimerOk, NoStall, SendSegmentsOut, Write, Summarize;
    if data != [] {
      if c.sender.finSent {
        LateWrite(c, data);
      } else {
        WriteOk(c.sender, data);
        FillAndSendOk(c, c.sender.(stream := c.sender.stream.Write(data)));
        NotYetFin(c, data);
      }
    } else {
      assert Write(c, data) == c by { hide *; WriteNothing(c); }
    }
  }

  lemma WriteNothing(c: Connection)
    requires c.Ready()
    ensures Write(c, []) == c
  {
  }

  lemma NotYetFin(c: Connection, data: Bytes)
    requires ConnInv(c) && !c.sender.finSent && data != []
    ensures Write(c, data) == FillAndSend(c.(sender := c.sender.(stream := c.sender.stream.Write(data))))
    ensures Summarize(c.sender) !in {FIN_SENT, FIN_ACKED}
  {
    hide Truthful, SeqLen, Start, Wrap, TimerOk, NoStall, FillAndSend;
    if !c.sender.stream.error {
      SummaryMeans(c.sender);
    }
  }

  lemma LateWrite(c: Connection, data: Bytes)
    requires ConnInv(c) && c.sender.finSent && data != []
    ensures
      Rank(Summarize(Write(c, data).sender)) < Rank(Summarize(c.sender))
      <==> Summarize(c.sender) in {FIN_SENT, FIN_ACKED} && c.sender.stream.Accepted(data) > 0
  {
    hide Truthful, SeqLen, Start, Wrap, TimerOk, NoStall, SendSegmentsOut;
    FlightBound(c.sender);
    var s := c.sender.(stream := c.sender.stream.Write(data));
    assert FillWindow(s) == s;
  }
}
