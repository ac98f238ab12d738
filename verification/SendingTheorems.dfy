/** What every step of the sender keeps, for every peer and every acknowledgment it may see. */
module SendingTheorems {
  import opened Basics
  import opened ByteStreams
  import opened Segments
  import opened WrappingIntegers
  import opened Sending

  /** Segment `i` of the history carries exactly the stream bytes of its sequence numbers. */
  ghost predicate Truthful(sent: seq<Segment>, i: nat, isn: U32, stream: Stream, finSent: bool)
    requires i < |sent|
  {
    var seg, start := sent[i], Start(sent, i);
    && seg.header.seqno == Wrap(start, isn)
    && 1 <= seg.Len() && |seg.payload| <= MAX_PAYLOAD_SIZE
    && (seg.header.syn <==> i == 0) && !seg.header.ack && !seg.header.rst
    && (i == 0 ==> seg.payload == [] && !seg.header.fin)
    && (i > 0 ==>
          && 1 <= start && start - 1 + |seg.payload| <= |stream.written|
          && seg.payload == stream.written[start - 1..start - 1 + |seg.payload|])
    && (seg.header.fin ==>
          finSent && stream.ended && start - 1 + |seg.payload| == |stream.written|)
  }

  /** The history is the stream, cut up: SYN, then the bytes read so far, then the FIN. */
  ghost predicate SentOk(s: Sender)
  {
    && s.stream.Valid()
    && s.next == SeqLen(s.sent)
    && (forall i: nat :: i < |s.sent| ==> Truthful(s.sent, i, s.isn, s.stream, s.finSent))
    && (s.next == 0 ==> s.stream.read == 0 && !s.finSent)
    && (s.next > 0 ==> s.next == 1 + s.stream.read + if s.finSent then 1 else 0)
    && (s.finSent ==> s.stream.ended && s.stream.read == |s.stream.written|)
  }

  /** Index in the history of the oldest outstanding segment. */
  function Oldest(s: Sender): int
  {
    |s.sent| - |s.outstanding|
  }

  /** The outstanding segments are the end of the history, the first of them contains the first
      unconfirmed number, and the timer runs exactly while there are any. */
  ghost predicate Flight(sent: seq<Segment>, outstanding: seq<Segment>, next: nat, confirmed: nat, timing: bool, retransmissions: nat)
  {
    var oldest := |sent| - |outstanding|;
    && 0 <= oldest
    && outstanding == sent[oldest..]
    && (outstanding == [] ==> confirmed == next)
    && (outstanding != [] ==>
          Start(sent, oldest) <= confirmed < Start(sent, oldest) + sent[oldest].Len())
    && confirmed <= next <= confirmed + 0xFFFF
    && (timing <==> outstanding != [])
    && (outstanding == [] ==> retransmissions == 0)
  }

  ghost predicate FlightOk(s: Sender)
  {
    Flight(s.sent, s.outstanding, s.next, s.confirmed, s.timing, s.retransmissions)
  }

  ghost predicate SenderInv(s: Sender)
  {
    SentOk(s) && FlightOk(s)
  }

  lemma NewSenderOk(capacity: nat, timeout: U16, isn: U32)
    ensures SenderInv(NewSender(capacity, timeout, isn))
  {
  }

  // ---------------------------------------------------------------- sending

  /** What sending may change: the queues and the timer, never the acknowledged state. */
  ghost predicate SendsOn(s: Sender, s': Sender)
  {
    && s.sent <= s'.sent
    && s'.segmentsOut == s.segmentsOut + s'.sent[|s.sent|..]
    && Oldest(s') == Oldest(s)
    && s.next <= s'.next
    && s'.isn == s.isn && s'.confirmed == s.confirmed && s'.window == s.window
    && s'.stream.written == s.stream.written && s'.stream.ended == s.stream.ended
    && s'.stream.error == s.stream.error && s'.stream.capacity == s.stream.capacity
    && s'.initialTimeout == s.initialTimeout && s'.timeout == s.timeout
    && s'.retransmissions == s.retransmissions
    && (s'.elapsed == s.elapsed || s'.elapsed == 0)
  }

  lemma SendsOnTrans(a: Sender, b: Sender, c: Sender)
    requires SendsOn(a, b) && SendsOn(b, c)
    ensures SendsOn(a, c)
  {
    assert c.sent[|a.sent|..] == b.sent[|a.sent|..] + c.sent[|b.sent|..];
  }

  lemma SendTruthful(s: Sender, seg: Segment, i: nat, stream: Stream, finSent: bool)
    requires i < |s.sent| && Truthful(s.sent, i, s.isn, s.stream, s.finSent) && !s.finSent
    requires stream.written == s.stream.written
    ensures Truthful(Send(s, seg).sent, i, s.isn, stream, finSent)
  {
    hide Wrap;
    StartAppend(s.sent, [Stamp(s, seg)], i);
  }

  lemma FlightAppend(sent: seq<Segment>, outstanding: seq<Segment>, next: nat, confirmed: nat, timing: bool, retransmissions: nat, seg: Segment)
    requires Flight(sent, outstanding, next, confirmed, timing, retransmissions)
    requires next == SeqLen(sent) && seg.Len() >= 1 && next + seg.Len() <= confirmed + 0xFFFF
    ensures Flight(sent + [seg], outstanding + [seg], next + seg.Len(), confirmed, true, retransmissions)
  {
    hide SeqLen;
    var oldest := |sent| - |outstanding|;
    assert sent[oldest..] + [seg] == (sent + [seg])[oldest..];
    StartAppend(sent, [seg], oldest);
    assert sent[..|sent|] == sent;
  }

  lemma SendFlight(s: Sender, seg: Segment)
    requires FlightOk(s) && s.next == SeqLen(s.sent) && seg.Len() >= 1 && s.next + seg.Len() <= s.confirmed + 0xFFFF
    ensures FlightOk(Send(s, seg)) && SendsOn(s, Send(s, seg))
    ensures Send(s, seg).next == SeqLen(Send(s, seg).sent)
  {
    hide Wrap, SeqLen, Flight;
    var stamped := Stamp(s, seg);
    SeqLenAppend(s.sent, stamped);
    FlightAppend(s.sent, s.outstanding, s.next, s.confirmed, s.timing, s.retransmissions, stamped);
    assert (s.sent + [stamped])[|s.sent|..] == [stamped];
  }

  /** Sending the next piece of the stream keeps the history truthful. */
  lemma SendKeeps(s: Sender, s': Sender, seg: Segment, stream: Stream)
    requires SentOk(s) && !s.finSent
    requires stream.Valid() && stream.written == s.stream.written && stream.ended == s.stream.ended
    requires s'.sent == Send(s, seg).sent && s'.next == s.next + seg.Len() && s'.isn == s.isn
    requires s'.stream == stream && s'.finSent == seg.header.fin
    requires 1 <= seg.Len() && |seg.payload| <= MAX_PAYLOAD_SIZE
    requires (seg.header.syn <==> s.next == 0) && !seg.header.ack && !seg.header.rst
    requires s.next == 0 ==> seg.payload == [] && !seg.header.fin && stream == s.stream
    requires s.next > 0 ==>
      && stream.read == s.stream.read + |seg.payload|
      && seg.payload == s.stream.written[s.stream.read..stream.read]
    requires seg.header.fin ==> stream.Eof()
    ensures SentOk(s')
  {
    hide Wrap;
    var n := |s.sent|;
    assert s'.sent[..n] == s.sent;
    assert Start(s'.sent, n) == s.next;
    NoneSentIff(s);
    forall i: nat | i < |s'.sent|
      ensures Truthful(s'.sent, i, s'.isn, s'.stream, s'.finSent)
    {
      if i < n {
        SendTruthful(s, seg, i, stream, s'.finSent);
      }
    }
  }

  lemma NoneSentIff(s: Sender)
    requires SentOk(s)
    ensures s.next == 0 <==> s.sent == []
  {
    hide Wrap;
    if s.sent != [] {
      assert Truthful(s.sent, |s.sent| - 1, s.isn, s.stream, s.finSent);
    }
  }

  lemma FillStepFlight(s: Sender, available: nat)
    requires FlightOk(s) && s.stream.Valid() && s.next == SeqLen(s.sent)
    requires s.stream.BufferSize() > 0 && 0 < available && s.next + available <= s.confirmed + 0xFFFF
    ensures FlightOk(FillStep(s, available)) && SendsOn(s, FillStep(s, available))
  {
    hide Wrap, SeqLen, Start, Flight, Send;
    var n := PayloadSize(s, available);
    var rest := s.stream.Pop(n);
    var fin := rest.Eof() && n < available;
    var s1 := s.(stream := rest, finSent := s.finSent || fin);
    SendFlight(s1, Carry(s.stream.Peek(n), fin));
  }

  lemma FillStepSent(s: Sender, available: nat)
    requires SentOk(s) && s.next > 0 && !s.finSent
    requires s.stream.BufferSize() > 0 && 0 < available
    ensures SentOk(FillStep(s, available))
  {
    hide Wrap, Truthful, SeqLen, Start;
    var n := PayloadSize(s, available);
    var rest := s.stream.Pop(n);
    SendKeeps(s, FillStep(s, available), Carry(s.stream.Peek(n), rest.Eof() && n < available), rest);
  }

  lemma FillStepKeeps(s: Sender, available: nat)
    requires SenderInv(s) && s.next > 0 && !s.finSent
    requires s.stream.BufferSize() > 0 && 0 < available && s.next + available <= s.confirmed + 0xFFFF
    ensures
      var s' := FillStep(s, available);
      && SenderInv(s') && SendsOn(s, s')
      && (s'.finSent ==> s'.stream.BufferSize() == 0)
      && (s'.stream.BufferSize() == 0 && s'.stream.ended && !s'.finSent ==> s'.next == s.next + available)
  {
    hide Truthful, FlightOk, SendsOn;
    FillStepFlight(s, available);
    FillStepSent(s, available);
  }

  /** `s'` came from `s` by sending at most `available` numbers, and stopped only because the
      stream was drained, with the FIN if it was due, or because they were used up. */
  ghost predicate Filled(s: Sender, available: nat, s': Sender)
  {
    && SendsOn(s, s')
    && s'.next <= s.next + available
    && (s'.stream.BufferSize() > 0 ==> s'.next == s.next + available)
    && (s'.stream.ended && !s'.finSent ==> s'.next == s.next + available)
  }

  lemma FilledOn(s: Sender, available: nat, s1: Sender, s': Sender)
    requires SendsOn(s, s1) && s1.next <= s.next + available
    requires Filled(s1, available - (s1.next - s.next), s')
    ensures Filled(s, available, s')
  {
    SendsOnTrans(s, s1, s');
  }

  lemma FilledNothing(s: Sender, available: nat)
    requires s.stream.BufferSize() > 0 ==> available == 0
    requires s.stream.ended && !s.finSent ==> available == 0
    ensures Filled(s, available, s)
  {
    assert s.sent[|s.sent|..] == [];
  }

  ghost predicate MayFill(s: Sender, available: nat)
  {
    && SenderInv(s) && s.next > 0 && (s.finSent ==> s.stream.BufferSize() == 0)
    && s.next + available <= s.confirmed + 0xFFFF
    && (s.stream.BufferSize() == 0 && s.stream.ended && !s.finSent ==> available == 0)
  }

  /** The loop stops when the stream is drained or the window is used up. */
  lemma {:induction false} FillLoopKeeps(s: Sender, available: nat)
    requires MayFill(s, available)
    ensures SenderInv(FillLoop(s, available)) && Filled(s, available, FillLoop(s, available))
    decreases s.stream.BufferSize()
  {
    hide Wrap, Truthful, SeqLen, Start, Flight, FillStep;
    if s.stream.BufferSize() > 0 && available > 0 {
      var s1 := FillStep(s, available);
      FillStepKeeps(s, available);
      FillLoopKeeps(s1, available - (s1.next - s.next));
      FilledOn(s, available, s1, FillLoop(s, available));
    } else {
      FilledNothing(s, available);
    }
  }

  /** What a call of `fill_window` achieves. Afterwards the logical window is full, or everything
      there is has been sent, the FIN included. */
  ghost predicate WindowFilled(s: Sender, s': Sender)
  {
    && SendsOn(s, s')
    && (s.finSent ==> s' == s)
    && (s.next == 0 ==> s'.next == 1)
    && (s.next > 0 ==> s'.next <= Max(s.next, s.confirmed + s.LogicalWindow()))
    && (s.next > 0 ==>
          || s'.finSent
          || s.confirmed + s.LogicalWindow() <= s'.next
          || (s'.stream.BufferSize() == 0 && !s'.stream.ended))
  }

  lemma FirstFill(s: Sender)
    requires SenderInv(s) && s.next == 0
    ensures SenderInv(FillWindow(s)) && WindowFilled(s, FillWindow(s))
  {
    hide Wrap;
    NoneSentIff(s);
    SendFlight(s, Synchronize());
    SendKeeps(s, FillWindow(s), Synchronize(), s.stream);
  }

  lemma LastFill(s: Sender)
    requires SenderInv(s) && s.next > 0 && !s.finSent && s.stream.Eof()
    requires s.next < s.confirmed + s.LogicalWindow()
    ensures SenderInv(FillWindow(s)) && WindowFilled(s, FillWindow(s))
  {
    hide Wrap, Truthful, SeqLen, Start;
    SendFlight(s, Carry([], true));
    SendKeeps(s, FillWindow(s), Carry([], true), s.stream);
  }

  /** Filling the window keeps the invariant, never sends past the logical window, and is
      maximal. */
  lemma FillWindowKeeps(s: Sender)
    requires SenderInv(s)
    ensures SenderInv(FillWindow(s)) && WindowFilled(s, FillWindow(s))
  {
    hide Truthful, FlightOk, SendsOn, Send, FillLoop;
    if s.finSent {
      FilledNothing(s, 0);
    } else if s.next == 0 {
      FirstFill(s);
    } else if s.confirmed + s.LogicalWindow() <= s.next {
      FilledNothing(s, 0);
    } else if s.stream.Eof() {
      LastFill(s);
    } else {
      FillLoopKeeps(s, s.confirmed + s.LogicalWindow() - s.next);
    }
  }

  // ---------------------------------------------------------------- the clock

  lemma TickKeeps(s: Sender, ms: nat)
    requires SenderInv(s)
    ensures SenderInv(Tick(s, ms))
    ensures
      var s' := Tick(s, ms);
      && s'.sent == s.sent && s'.stream == s.stream && s'.next == s.next && s'.confirmed == s.confirmed
      && s'.window == s.window && s'.finSent == s.finSent && s'.isn == s.isn
      && (s'.segmentsOut == s.segmentsOut
          || (s.outstanding != [] && s'.segmentsOut == s.segmentsOut + [s.sent[Oldest(s)]]))
  {
    hide Wrap, Truthful, SeqLen, Start;
  }

  // ---------------------------------------------------------------- acknowledgments

  /** The largest number of sequence numbers that can be in flight: a full window, and the part
      of the oldest segment that is already confirmed. */
  const MAX_FLIGHT := 0xFFFF + MAX_PAYLOAD_SIZE

  /** The bytes in flight are the numbers from the oldest outstanding segment up to the next one,
      and there are never more than a full window and a payload of them. */
  lemma FlightBound(s: Sender)
    requires SenderInv(s)
    ensures s.InFlight() == s.next - Start(s.sent, Oldest(s)) <= MAX_FLIGHT
    ensures s.outstanding == [] <==> s.confirmed == s.next
    ensures s.InFlight() == 0 <==> s.outstanding == []
  {
    hide Wrap;
    var oldest := Oldest(s);
    SeqLenConcat(s.sent[..oldest], s.outstanding);
    assert s.sent == s.sent[..oldest] + s.outstanding;
    if s.outstanding != [] {
      assert Truthful(s.sent, oldest, s.isn, s.stream, s.finSent);
      StartNext(s.sent, oldest);
      StartMonotone(s.sent, oldest + 1, |s.sent|);
      assert s.sent[..|s.sent|] == s.sent;
    }
  }

  /** An acknowledgment number is accepted exactly when it stands for a number between the first
      unconfirmed one and the next one to be sent, both included. */
  lemma AcceptedIff(s: Sender, ackno: U32)
    requires SenderInv(s) && s.next < TWO63
    ensures
      s.confirmed <= Unwrap(ackno, s.isn, s.next) <= s.next
      <==> exists v: nat :: s.confirmed <= v <= s.next && Wrap(v, s.isn) == ackno
  {
    hide Wrap, Unwrap, Truthful, SeqLen;
    UnwrapWraps(ackno, s.isn, s.next);
    if v: nat :| s.confirmed <= v <= s.next && Wrap(v, s.isn) == ackno {
      UnwrapWrapIff(v, s.isn, s.next);
    }
  }

  /** The queue while it is being popped: still the end of the history, starting no later than
      the confirmed number, and near enough to `next` for 32-bit numbers to be unambiguous. */
  ghost predicate Popping(s: Sender)
  {
    && SentOk(s)
    && 0 <= Oldest(s)
    && s.outstanding == s.sent[Oldest(s)..]
    && Start(s.sent, Oldest(s)) <= s.confirmed <= s.next < TWO63
    && s.next - Start(s.sent, Oldest(s)) < TWO31
  }

  /** 32-bit bookkeeping is exact: the number that acknowledges the oldest segment is recovered. */
  lemma FrontEndExact(s: Sender)
    requires Popping(s) && s.outstanding != []
    ensures FrontEnd(s) == Start(s.sent, Oldest(s)) + s.sent[Oldest(s)].Len()
  {
    hide Wrap, Unwrap;
    var start := Start(s.sent, Oldest(s));
    assert Truthful(s.sent, Oldest(s), s.isn, s.stream, s.finSent);
    UnwrapWrapIff(start, s.isn, s.next);
  }

  /** What popping leaves alone. */
  ghost predicate PopsTo(s: Sender, s': Sender)
  {
    && s' == s.(outstanding := s'.outstanding, timeout := s'.timeout,
                retransmissions := s'.retransmissions, elapsed := s'.elapsed)
    && |s'.outstanding| <= |s.outstanding|
    && (|s'.outstanding| < |s.outstanding| ==>
          s'.timeout == s.initialTimeout && s'.retransmissions == 0 && s'.elapsed == 0)
    && (|s'.outstanding| == |s.outstanding| ==> s' == s)
  }

  lemma PoppedOne(s: Sender)
    requires Popping(s) && s.outstanding != [] && FrontEnd(s) <= s.confirmed
    ensures Popping(s.(outstanding := s.outstanding[1..],
                       timeout := s.initialTimeout, retransmissions := 0, elapsed := 0))
  {
    hide Wrap, Unwrap, Truthful;
    FrontEndExact(s);
    StartNext(s.sent, Oldest(s));
    assert s.outstanding[1..] == s.sent[Oldest(s) + 1..];
  }

  /** Popping removes exactly the segments that are confirmed to their end. */
  lemma {:induction false} PopAckedKeeps(s: Sender)
    requires Popping(s)
    ensures
      var s' := PopAcked(s);
      && Popping(s') && PopsTo(s, s')
      && (s'.outstanding != [] ==>
            s'.confirmed < Start(s'.sent, Oldest(s')) + s'.sent[Oldest(s')].Len())
    decreases |s.outstanding|
  {
    hide Wrap, Unwrap, Truthful, SeqLen;
    if s.outstanding != [] {
      FrontEndExact(s);
      if s.confirmed >= FrontEnd(s) {
        PoppedOne(s);
        PopAckedKeeps(s.(outstanding := s.outstanding[1..],
                         timeout := s.initialTimeout, retransmissions := 0, elapsed := 0));
      }
    }
  }

  /** With the timer at zero it makes no difference to sending whether it is running. */
  lemma SendIgnoresTiming(s: Sender, seg: Segment)
    requires s.elapsed == 0
    ensures Send(s, seg) == Send(s.(timing := false), seg)
  {
    hide Wrap;
  }

  lemma FillStepIgnoresTiming(s: Sender, available: nat)
    requires s.stream.Valid() && s.elapsed == 0 && s.stream.BufferSize() > 0 && available > 0
    ensures FillStep(s, available) == FillStep(s.(timing := false), available)
  {
    hide Send;
    var n := PayloadSize(s, available);
    var rest := s.stream.Pop(n);
    var fin := rest.Eof() && n < available;
    SendIgnoresTiming(s.(stream := rest, finSent := s.finSent || fin), Carry(s.stream.Peek(n), fin));
  }

  /** Nor to filling, apart from the timer flag of a call that sends nothing. */
  lemma FillIgnoresTiming(s: Sender)
    requires s.stream.Valid() && s.elapsed == 0
    ensures FillWindow(s) == FillWindow(s.(timing := false))
      || (FillWindow(s) == s && FillWindow(s.(timing := false)) == s.(timing := false))
  {
    hide Send, FillStep;
    SendIgnoresTiming(s, Synchronize());
    SendIgnoresTiming(s, Carry([], true));
    if !s.finSent && s.next > 0 && s.confirmed + s.LogicalWindow() > s.next && s.stream.BufferSize() > 0 {
      FillStepIgnoresTiming(s, s.confirmed + s.LogicalWindow() - s.next);
    }
  }

  /** What an acknowledgment may change. */
  ghost predicate AcksTo(s: Sender, s': Sender)
  {
    && s.sent <= s'.sent
    && s'.segmentsOut == s.segmentsOut + s'.sent[|s.sent|..]
    && s'.isn == s.isn && s.confirmed <= s'.confirmed && s.next <= s'.next
    && Oldest(s) <= Oldest(s')
    && s'.next <= Max(s.next, s'.confirmed + s'.LogicalWindow())
    && (s.finSent ==> s'.finSent && s'.sent == s.sent)
    && s'.stream.written == s.stream.written && s'.stream.ended == s.stream.ended
    && s'.stream.error == s.stream.error && s'.stream.capacity == s.stream.capacity
    && s'.initialTimeout == s.initialTimeout
  }

  /** Something is left to send: bytes, or the FIN. */
  ghost predicate Unsent(s: Sender)
  {
    s.next > 0 && (s.stream.BufferSize() > 0 || (s.stream.ended && !s.finSent))
  }

  /** Whoever still has something to send has a segment outstanding, and so a timer running. */
  ghost predicate NoStall(s: Sender)
  {
    Unsent(s) ==> s.outstanding != []
  }

  /** Even a closed window lets an idle sender send something. */
  lemma FillWindowNoStall(s: Sender)
    requires SenderInv(s)
    ensures NoStall(FillWindow(s))
  {
    hide Truthful, FillWindow, SeqLen, Start;
    FillWindowKeeps(s);
  }

  lemma RefillKeeps(s: Sender, popped: bool)
    requires SentOk(s) && Flight(s.sent, s.outstanding, s.next, s.confirmed, s.outstanding != [], s.retransmissions)
    requires s.outstanding != [] ==> s.timing
    requires popped ==> s.outstanding != [] || (s.elapsed == 0 && s.next > 0)
    ensures
      var s' := Refill(s, popped);
      && SenderInv(s') && SendsOn(s, s')
      && s'.next <= Max(s.next, s.confirmed + s.LogicalWindow())
      && (s.finSent ==> s'.finSent && s'.sent == s.sent)
      && (s.outstanding != [] ==> s' == s)
      && (s.outstanding == [] && !popped ==> s' == s.(timing := false))
      && (s.outstanding == [] && popped ==> NoStall(s'))
  {
    hide Truthful, FillWindow, SeqLen, Start;
    assert s.sent[|s.sent|..] == [];
    if s.outstanding == [] && popped {
      FillIgnoresTiming(s);
      FillWindowKeeps(s.(timing := false));
      FillWindowNoStall(s.(timing := false));
    }
  }

  lemma PopAckedOk(s: Sender, absolute: nat, window: U16)
    requires SenderInv(s) && s.next < TWO63 && s.confirmed <= absolute <= s.next
    ensures
      var s0 := s.(confirmed := absolute, window := window);
      var s1 := PopAcked(s0);
      && PopsTo(s0, s1) && SentOk(s1)
      && Flight(s1.sent, s1.outstanding, s1.next, s1.confirmed, s1.outstanding != [], s1.retransmissions)
  {
    hide Wrap, Truthful, SeqLen, PopAcked;
    var s0 := s.(confirmed := absolute, window := window);
    FlightBound(s);
    assert Popping(s0);
    PopAckedKeeps(s0);
    assert s0.sent[..|s0.sent|] == s0.sent;
  }

  /** Every acknowledgment, from any peer, keeps the invariant and lets nothing stall. */
  lemma AckReceivedKeeps(s: Sender, ackno: U32, window: U16)
    requires SenderInv(s) && s.next < TWO63
    ensures SenderInv(AckReceived(s, ackno, window))
    ensures AcksTo(s, AckReceived(s, ackno, window))
    ensures NoStall(s) ==> NoStall(AckReceived(s, ackno, window))
    ensures
      if s.confirmed <= Unwrap(ackno, s.isn, s.next) <= s.next
      then
        && AckReceived(s, ackno, window).confirmed == Unwrap(ackno, s.isn, s.next)
        && AckReceived(s, ackno, window).window == window
      else AckReceived(s, ackno, window) == s
  {
    hide Wrap, Unwrap, Truthful, Refill, PopAcked, SeqLen, Start;
    var absolute := Unwrap(ackno, s.isn, s.next);
    assert s.sent[|s.sent|..] == [];
    if s.confirmed <= absolute <= s.next {
      PopAckedOk(s, absolute, window);
      NoneSentIff(s);
      RefillKeeps(PopAcked(s.(confirmed := absolute, window := window)), s.outstanding != []);
    }
  }

  // ---------------------------------------------------------------- the retransmission timer

  /** The initial timeout doubled `n` times. */
  function Backoff(initial: nat, n: nat): nat
  {
    if n == 0 then initial else 2 * Backoff(initial, n - 1)
  }

  /** Section 5 of RFC 6298: the timeout doubles with every counted retransmission, and what has
      elapsed is below it whenever the timer runs. */
  ghost predicate TimerOk(s: Sender)
  {
    && s.initialTimeout > 0
    && s.timeout == Backoff(s.initialTimeout, s.retransmissions)
    && (s.timing ==> s.elapsed < s.timeout)
  }

  lemma {:induction false} BackoffBound(n: nat, initial: U16)
    requires n <= 9 && initial > 0
    ensures 0 < Backoff(initial, n) <= 0xFFFF * 512
  {
    var b := Backoff(initial, 0);
    assert b == initial;
    assert Backoff(initial, 1) == 2 * b && Backoff(initial, 2) == 4 * b && Backoff(initial, 3) == 8 * b;
    assert Backoff(initial, 4) == 16 * b && Backoff(initial, 5) == 32 * b && Backoff(initial, 6) == 64 * b;
    assert Backoff(initial, 7) == 128 * b && Backoff(initial, 8) == 256 * b && Backoff(initial, 9) == 512 * b;
  }

  /** A tick while at most eight retransmissions have been counted: no 32-bit overflow. */
  lemma TickTimer(s: Sender, ms: nat)
    requires SenderInv(s) && TimerOk(s) && s.retransmissions <= 8
    ensures TimerOk(Tick(s, ms)) && Tick(s, ms).retransmissions <= s.retransmissions + 1
    ensures Tick(s, ms).retransmissions > s.retransmissions ==> s.elapsed + ms >= s.timeout
  {
    hide SentOk, SeqLen, Start;
    BackoffBound(s.retransmissions, s.initialTimeout);
    BackoffBound(s.retransmissions + 1, s.initialTimeout);
    DoubledFits(s.timeout);
    SmallCount(s.retransmissions);
  }

  lemma DoubledFits(timeout: U32)
    requires timeout <= 0xFFFF * 512
    ensures timeout * 2 % TWO32 == 2 * timeout
  {
  }

  lemma SmallCount(n: U16)
    requires n <= 8
    ensures (n + 1) % TWO16 == n + 1
  {
  }

  lemma FillWindowTimer(s: Sender)
    requires SenderInv(s) && TimerOk(s) && s.retransmissions <= 9
    ensures TimerOk(FillWindow(s)) && FillWindow(s).retransmissions == s.retransmissions
  {
    hide Truthful, SeqLen, Start, FillWindow;
    FillWindowKeeps(s);
    BackoffBound(s.retransmissions, s.initialTimeout);
    FillKeepsClock(s);
  }

  /** Filling resets the elapsed time only when it starts the timer. */
  lemma FillKeepsClock(s: Sender)
    requires SenderInv(s)
    ensures s.timing ==> FillWindow(s).elapsed == s.elapsed
    ensures !s.timing && FillWindow(s).timing ==> FillWindow(s).elapsed == 0
  {
    hide Wrap, SeqLen, Start, Truthful, Flight, FillLoop;
    if !s.finSent && s.next > 0 && s.confirmed + s.LogicalWindow() > s.next && !s.stream.Eof() {
      LoopKeepsClock(s, s.confirmed + s.LogicalWindow() - s.next);
    }
  }

  lemma StepKeepsClock(s: Sender, available: nat)
    requires s.stream.Valid() && s.stream.BufferSize() > 0 && available > 0
    ensures FillStep(s, available).timing && FillStep(s, available).elapsed == (if s.timing then s.elapsed else 0)
  {
    hide Wrap;
  }

  lemma {:induction false} LoopKeepsClock(s: Sender, available: nat)
    requires s.stream.Valid()
    ensures
      var s' := FillLoop(s, available);
      && (s.timing ==> s'.elapsed == s.elapsed && s'.timing)
      && (!s.timing && s'.timing ==> s'.elapsed == 0)
    decreases s.stream.BufferSize()
  {
    hide FillStep;
    if s.stream.BufferSize() > 0 && available > 0 {
      var s1 := FillStep(s, available);
      StepKeepsClock(s, available);
      LoopKeepsClock(s1, available - (s1.next - s.next));
    }
  }

  lemma AckReceivedTimer(s: Sender, ackno: U32, window: U16)
    requires SenderInv(s) && s.next < TWO63 && TimerOk(s) && s.retransmissions <= 9
    ensures
      var s' := AckReceived(s, ackno, window);
      TimerOk(s') && s'.retransmissions <= s.retransmissions
  {
    hide Wrap, Unwrap, Truthful, PopAcked, FillWindow, SeqLen, Start;
    var absolute := Unwrap(ackno, s.isn, s.next);
    if s.confirmed <= absolute <= s.next {
      var s0 := s.(confirmed := absolute, window := window);
      PopAckedOk(s, absolute, window);
      var s1 := PopAcked(s0);
      assert Backoff(s.initialTimeout, 0) == s.initialTimeout;
      if s1.outstanding == [] && s.outstanding != [] {
        var p := s1.(timing := false);
        FillIgnoresTiming(s1);
        FillWindowTimer(p);
        FillWindowKeeps(p);
      }
    }
  }
}
