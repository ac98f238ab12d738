/** What the sender puts on the wire, and when: exactly, in terms of its history and its timer. */
module SendingExactly {
  import opened Basics
  import opened ByteStreams
  import opened Segments
  import opened WrappingIntegers
  import opened Sending
  import opened SendingTheorems

  // ---------------------------------------------------------------- the clock

  /** Something is unacknowledged, and its time has run out. */
  ghost predicate Expires(s: Sender, ms: nat)
  {
    s.outstanding != [] && s.elapsed + ms >= s.timeout
  }

  /** A tick sends the oldest unacknowledged segment again if and only if its time has run out, and
      nothing else. The expiry is counted if and only if the window is open or the segment is the
      SYN. */
  lemma TickExactly(s: Sender, ms: nat)
    requires SenderInv(s) && TimerOk(s)
    ensures
      var s', expires := Tick(s, ms), Expires(s, ms);
      && s'.segmentsOut == (if expires then s.segmentsOut + [s.sent[Oldest(s)]] else s.segmentsOut)
      && s'.elapsed == (if expires then 0 else if s.outstanding != [] then s.elapsed + ms else s.elapsed)
      && s'.retransmissions ==
         (if expires && (s.window > 0 || Oldest(s) == 0) then (s.retransmissions + 1) % TWO16 else s.retransmissions)
      && (s'.retransmissions == s.retransmissions ==> s'.timeout == s.timeout)
  {
    hide Wrap, SeqLen, Start;
    if s.outstanding != [] {
      assert Truthful(s.sent, Oldest(s), s.isn, s.stream, s.finSent);
      assert s.outstanding[0] == s.sent[Oldest(s)];
    }
  }

  // ---------------------------------------------------------------- acknowledgments

  /** Nothing more may be sent now. */
  ghost predicate Full(s: Sender)
  {
    s.finSent || s.confirmed + s.LogicalWindow() <= s.next || (s.stream.BufferSize() == 0 && !s.stream.ended)
  }

  /** An acknowledgment that takes a segment off the queue starts the timer anew, with its initial
      timeout and no retransmissions; any other leaves the timer alone. */
  lemma AckTimerExactly(s: Sender, ackno: U32, window: U16)
    requires SenderInv(s) && s.next < TWO63
    ensures
      var s' := AckReceived(s, ackno, window);
      if Oldest(s) < Oldest(s')
      then s'.timeout == s.initialTimeout && s'.retransmissions == 0 && s'.elapsed == 0
      else s'.timeout == s.timeout && s'.retransmissions == s.retransmissions && s'.elapsed == s.elapsed
  {
    hide Wrap, Unwrap, Truthful, PopAcked, FillWindow, SeqLen, Start;
    var absolute := Unwrap(ackno, s.isn, s.next);
    if s.confirmed <= absolute <= s.next {
      PopAckedOk(s, absolute, window);
      var s1 := PopAcked(s.(confirmed := absolute, window := window));
      if s1.outstanding == [] && s.outstanding != [] {
        FillIgnoresTiming(s1);
        FillWindowKeeps(s1.(timing := false));
        FillKeepsClock(s1.(timing := false));
      }
    }
  }

  /** An acknowledgment makes the sender send more only if it confirms everything and something was
      unconfirmed; and then it sends all it may. */
  lemma AckSendsExactly(s: Sender, ackno: U32, window: U16)
    requires SenderInv(s) && s.next < TWO63
    ensures
      var s', absolute := AckReceived(s, ackno, window), Unwrap(ackno, s.isn, s.next);
      && (s'.sent != s.sent ==> s.outstanding != [] && absolute == s.next)
      && (s.outstanding != [] && absolute == s.next ==> Full(s'))
  {
    hide Wrap, Unwrap, Truthful, PopAcked, FillWindow, SeqLen, Start;
    var absolute := Unwrap(ackno, s.isn, s.next);
    if s.confirmed <= absolute <= s.next {
      PopAckedOk(s, absolute, window);
      NoneSentIff(s);
      var s1 := PopAcked(s.(confirmed := absolute, window := window));
      AllPopped(s1);
      if s1.outstanding == [] && s.outstanding != [] {
        FillIgnoresTiming(s1);
        FillWindowKeeps(s1.(timing := false));
      }
    }
  }

  lemma AllPopped(s: Sender)
    requires SentOk(s) && Flight(s.sent, s.outstanding, s.next, s.confirmed, s.outstanding != [], s.retransmissions)
    ensures s.outstanding == [] <==> s.confirmed == s.next
  {
    hide Wrap;
    var oldest := Oldest(s);
    if s.outstanding != [] {
      StartNext(s.sent, oldest);
      StartMonotone(s.sent, oldest + 1, |s.sent|);
      assert s.sent[..|s.sent|] == s.sent;
    }
  }

  // ---------------------------------------------------------------- filling

  /** Segment `i` is as large as the bytes that are there, the window up to `edge` and a payload of
      1000 bytes allow, and carries the FIN if and only if it ends the stream and leaves a number
      for it. */
  ghost predicate Sized(sent: seq<Segment>, i: nat, stream: Stream, edge: nat)
    requires i < |sent|
  {
    var at, size := Start(sent, i), |sent[i].payload|;
    && size == Min(Min(|stream.written| - (at - 1), edge - at), 1000)
    && (sent[i].header.fin <==> stream.ended && size == |stream.written| - (at - 1) && size < edge - at)
  }

  lemma SizedSame(sent: seq<Segment>, sent': seq<Segment>, i: nat, stream: Stream, stream': Stream, edge: nat)
    requires i < |sent| && sent <= sent' && Sized(sent, i, stream, edge)
    requires stream'.written == stream.written && stream'.ended == stream.ended
    ensures Sized(sent', i, stream', edge)
  {
    assert sent'[..i] == sent[..i];
  }

  lemma StepSized(s: Sender, available: nat)
    requires SenderInv(s) && s.next > 0 && !s.finSent && s.stream.BufferSize() > 0 && available > 0
    ensures
      var s' := FillStep(s, available);
      |s'.sent| == |s.sent| + 1 && Sized(s'.sent, |s.sent|, s.stream, s.next + available)
  {
    hide Wrap, Truthful, Flight;
    var s' := FillStep(s, available);
    assert s'.sent[..|s.sent|] == s.sent;
  }

  lemma {:induction false} LoopSized(s: Sender, available: nat, i: nat)
    requires MayFill(s, available) && |s.sent| <= i < |FillLoop(s, available).sent|
    requires s.stream.BufferSize() > 0 ==> !s.finSent
    ensures Sized(FillLoop(s, available).sent, i, s.stream, s.next + available)
    decreases s.stream.BufferSize()
  {
    hide Wrap, Truthful, Flight, FillStep, Sized, SeqLen, Start;
    if s.stream.BufferSize() > 0 && available > 0 {
      var s1 := FillStep(s, available);
      var s' := FillLoop(s, available);
      FillStepKeeps(s, available);
      FillLoopKeeps(s1, available - (s1.next - s.next));
      StepSized(s, available);
      if i == |s.sent| {
        SizedSame(s1.sent, s'.sent, i, s.stream, s.stream, s.next + available);
      } else {
        LoopSized(s1, available - (s1.next - s.next), i);
        SizedSame(s'.sent, s'.sent, i, s1.stream, s.stream, s.next + available);
      }
    }
  }

  /** Every segment that a call of `fill_window` sends after the SYN. */
  lemma FillSized(s: Sender, i: nat)
    requires SenderInv(s) && s.next > 0 && |s.sent| <= i < |FillWindow(s).sent|
    ensures Sized(FillWindow(s).sent, i, s.stream, s.confirmed + s.LogicalWindow())
  {
    hide Wrap, Truthful, Sized, SeqLen, Start, FillLoop;
    if s.stream.Eof() {
      LastSized(s);
    } else {
      LoopSized(s, s.confirmed + s.LogicalWindow() - s.next, i);
    }
  }

  lemma LastSized(s: Sender)
    requires SenderInv(s) && s.next > 0 && !s.finSent && s.stream.Eof() && s.next < s.confirmed + s.LogicalWindow()
    ensures
      var s' := FillWindow(s);
      |s'.sent| == |s.sent| + 1 && Sized(s'.sent, |s.sent|, s.stream, s.confirmed + s.LogicalWindow())
  {
    hide Wrap, Truthful, Flight;
    assert FillWindow(s).sent[..|s.sent|] == s.sent;
  }
}
