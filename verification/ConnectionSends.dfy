/** Nothing that the sender sends is withheld by the connection, and nothing that may be sent is
    withheld by the sender. */
module ConnectionSends {
  import opened Basics
  import opened ByteStreams
  import opened Reassembly
  import opened Segments
  import opened WrappingIntegers
  import opened Sending
  import opened SendingTheorems
  import opened SendingExactly
  import opened Receiving
  import opened Connections
  import opened ConnectionTheorems
  import opened ConnectionReplies
  import opened ConnectionTimes

  ghost predicate AllCopies(queued: seq<Segment>, sent: seq<Segment>)
  {
    |queued| == |sent| && forall k :: 0 <= k < |sent| ==> Copies(queued[k], sent[k])
  }

  /** What is new in the sender's history comes next in the connection's queue, in the same order,
      and the queue keeps what it had. */
  ghost predicate Passes(c: Connection, c': Connection)
  {
    && c.sender.sent <= c'.sender.sent && c.segmentsOut <= c'.segmentsOut
    && var first, news := |c.segmentsOut|, c'.sender.sent[|c.sender.sent|..];
       first + |news| <= |c'.segmentsOut| && AllCopies(c'.segmentsOut[first..first + |news|], news)
  }

  lemma PassesTrans(a: Connection, b: Connection, c: Connection)
    requires Passes(a, b) && Passes(b, c) && |b.segmentsOut| == |a.segmentsOut| + |b.sender.sent| - |a.sender.sent|
    ensures Passes(a, c)
  {
    hide Copies;
    var x, y := b.sender.sent[|a.sender.sent|..], c.sender.sent[|b.sender.sent|..];
    assert c.sender.sent[|a.sender.sent|..] == x + y;
    var first := |a.segmentsOut|;
    var n, m := first + |x|, first + |x| + |y|;
    assert c.segmentsOut[first..m] == b.segmentsOut[first..n] + c.segmentsOut[n..m];
  }

  /** The sender has gone on to `s'` and queued what it sent. */
  lemma SentIsPassed(c: Connection, s': Sender)
    requires c.sender.sent <= s'.sent && s'.segmentsOut == s'.sent[|c.sender.sent|..]
    ensures
      var c' := SendSegmentsOut(c.(sender := s'));
      Passes(c, c') && |c'.segmentsOut| == |c.segmentsOut| + |s'.sent| - |c.sender.sent|
  {
    hide Wrap;
    var c' := SendSegmentsOut(c.(sender := s'));
    var first, n := |c.segmentsOut|, |s'.segmentsOut|;
    forall k | 0 <= k < n
      ensures Copies(c'.segmentsOut[first..first + n][k], s'.segmentsOut[k])
    {
      assert c'.segmentsOut[first..first + n][k] == Dress(c.receiver, s'.segmentsOut[k]);
    }
  }

  lemma FillPasses(c: Connection)
    requires c.Ready() && SenderInv(c.sender) && c.sender.segmentsOut == []
    ensures
      var c' := FillAndSend(c);
      && Passes(c, c') && |c'.segmentsOut| == |c.segmentsOut| + |c'.sender.sent| - |c.sender.sent|
      && (c.sender.next > 0 ==> Full(c'.sender))
      && (c.sender.next == 0 ==> |c'.sender.sent| == 1 && c'.sender.sent[0].header.syn)
  {
    hide FillWindow, SendSegmentsOut, Passes, Truthful, Flight, SeqLen, Start, Wrap;
    FillWindowKeeps(c.sender);
    assert [] + FillWindow(c.sender).sent[|c.sender.sent|..] == FillWindow(c.sender).sent[|c.sender.sent|..];
    SentIsPassed(c, FillWindow(c.sender));
    if c.sender.next == 0 {
      FirstIsSyn(c.sender);
    }
  }

  lemma FirstIsSyn(s: Sender)
    requires SenderInv(s) && s.next == 0
    ensures |FillWindow(s).sent| == 1 && FillWindow(s).sent[0].header.syn
  {
    hide Wrap;
    NoneSentIff(s);
  }

  /** Every call of the owner that may have something to send leaves the window full or nothing to
      send, and queues one copy of each new segment, in order. */
  lemma OwnerSends(c: Connection, e: Event)
    requires ConnInv(c)
    requires e.Connect? || e.EndData? || (e.WriteData? && e.data != [] && !c.sender.stream.ended)
    ensures
      var c' := Next(c, e).value;
      && Passes(c, c') && |c'.segmentsOut| == |c.segmentsOut| + |c'.sender.sent| - |c.sender.sent|
      && (c.sender.next > 0 ==> Full(c'.sender))
      && (c.sender.next == 0 ==> |c'.sender.sent| == 1 && c'.sender.sent[0].header.syn)
  {
    hide SenderOk, FillAndSend, Passes, Full;
    assert SenderInv(c.sender) by { hide *; Parts(c); }
    match e {
      case Connect => FillPasses(c);
      case WriteData(data) =>
        assert !c.sender.finSent by { hide *; Parts(c); }
        WriteOk(c.sender, data);
        var c1 := c.(sender := c.sender.(stream := c.sender.stream.Write(data)));
        FillPasses(c1);
        SameHistory(c, c1, FillAndSend(c1));
      case EndData =>
        EndOk(c.sender);
        var c1 := c.(sender := c.sender.(stream := c.sender.stream.EndInput()));
        FillPasses(c1);
        SameHistory(c, c1, FillAndSend(c1));
    }
  }

  lemma SameHistory(c: Connection, c1: Connection, c': Connection)
    requires Passes(c1, c') && c1.sender.sent == c.sender.sent && c1.segmentsOut == c.segmentsOut
    ensures Passes(c, c')
  {
  }

  lemma TakeAckPasses(c: Connection, seg: Segment)
    requires c.Ready() && SenderInv(c.sender) && c.sender.segmentsOut == [] && c.sender.next < TWO63
    ensures
      var c' := TakeAck(c, seg);
      && Passes(c, c') && |c'.segmentsOut| == |c.segmentsOut| + |c'.sender.sent| - |c.sender.sent|
      && SenderInv(c'.sender) && c'.sender.segmentsOut == []
      && (c.sender.next > 0 ==> c'.sender.next > 0)
  {
    hide AckReceived, SendSegmentsOut, Truthful, Flight, SeqLen, Start, Wrap, Unwrap, Copies;
    if seg.header.ack {
      var s := AckReceived(c.sender, seg.header.ackno, seg.header.win);
      AckReceivedKeeps(c.sender, seg.header.ackno, seg.header.win);
      assert [] + s.sent[|c.sender.sent|..] == s.sent[|c.sender.sent|..];
      SentIsPassed(c, s);
      assert SenderInv(s.(segmentsOut := [])) by { hide *; QueueNoMatter(s); }
    }
  }

  lemma QueueNoMatter(s: Sender)
    requires SenderInv(s)
    ensures SenderInv(s.(segmentsOut := []))
  {
    hide Truthful, Flight;
  }

  /** A bare acknowledgment: it carries nothing, and stands at the sender's next number. */
  predicate Bare(seg: Segment, s: Sender)
  {
    && seg.payload == [] && seg.header.seqno == Wrap(s.next, s.isn)
    && !seg.header.syn && !seg.header.fin && !seg.header.rst
  }

  /** The queue grows by the new segments and, after something that occupies numbers but is not
      answered with data, by a bare acknowledgment. */
  ghost predicate Answered(c: Connection, c': Connection, seg: Segment)
  {
    var bare := seg.Len() > 0 && |c'.sender.sent| == |c.sender.sent|;
    && |c'.segmentsOut| == |c.segmentsOut| + |c'.sender.sent| - |c.sender.sent| + (if bare then 1 else 0)
    && (bare ==> Bare(c'.segmentsOut[|c.segmentsOut|], c'.sender))
  }

  lemma AnswerPasses(c: Connection, seg: Segment)
    requires c.Ready() && SenderInv(c.sender) && c.sender.segmentsOut == []
    ensures Passes(c, Answer(c, seg)) && Answered(c, Answer(c, seg), seg)
    ensures seg.Len() > 0 && c.sender.next > 0 ==> Full(Answer(c, seg).sender)
  {
    hide FillWindow, SendSegmentsOut, Truthful, Flight, SeqLen, Start, Stamp, Copies, Full, Bare, Wrap;
    if seg.Len() > 0 {
      var c2 := FillAndSend(c);
      FillPasses(c);
      assert c2.sender == FillWindow(c.sender).(segmentsOut := []) by { hide *; Drained(c.(sender := FillWindow(c.sender))); }
      FillWindowKeeps(c.sender);
      var c3 := SendSegmentsOut(c2.(sender := SendEmpty(c2.sender)));
      assert Passes(c2, c3) by { hide Passes; EmptyPasses(c2); }
      PassesTrans(c, c2, c3);
      EmptyIsBare(c2);
      assert c.sender.next > 0 ==> Full(c3.sender) by { hide *; FullNoMatter(c2.sender, c3.sender); }
    }
  }

  lemma EmptyIsBare(c: Connection)
    requires c.sender.segmentsOut == []
    ensures
      var c' := SendSegmentsOut(c.(sender := SendEmpty(c.sender)));
      && |c'.segmentsOut| == |c.segmentsOut| + 1 && c'.sender == c.sender
      && Bare(c'.segmentsOut[|c.segmentsOut|], c.sender)
  {
    hide Wrap;
  }

  lemma FullNoMatter(s: Sender, s': Sender)
    requires s'.(segmentsOut := []) == s.(segmentsOut := [])
    ensures Full(s') <==> Full(s)
  {
  }

  lemma EmptyPasses(c: Connection)
    ensures Passes(c, SendSegmentsOut(c.(sender := SendEmpty(c.sender))))
  {
    hide Stamp;
  }

  /** The sender once it has taken the acknowledgment that a segment may carry. */
  function Confirmed(s: Sender, seg: Segment): Sender
    requires s.stream.Valid()
  {
    if seg.header.ack then AckReceived(s, seg.header.ackno, seg.header.win) else s
  }

  /** An arrival that is not a reset: one copy of each new segment is queued, in order; after one
      that occupies numbers the window is full or nothing is left to send; and a bare acknowledgment
      is added exactly if it occupies numbers and nothing is sent after its own acknowledgment is
      taken. */
  lemma ArrivalSends(c: Connection, seg: Segment)
    requires ConnInv(c) && c.sender.next < TWO63 && !seg.header.rst && Receive(c, seg).Done?
    ensures Passes(c, Receive(c, seg).value)
    ensures seg.Len() > 0 && c.sender.next > 0 ==> Full(Receive(c, seg).value.sender)
    ensures
      var c' := Receive(c, seg).value;
      var bare := seg.Len() > 0 && |c'.sender.sent| == |Confirmed(c.sender, seg).sent|;
      && |c'.segmentsOut| == |c.segmentsOut| + |c'.sender.sent| - |c.sender.sent| + (if bare then 1 else 0)
      && (bare ==> Bare(c'.segmentsOut[|c'.segmentsOut| - 1], c'.sender))
  {
    hide SegmentReceived, TakeAck, Answer, SenderOk, Full, Passes, Bare, AckReceived;
    assert SenderInv(c.sender) by { hide *; Parts(c); }
    var c2 := StopLingering(c.(elapsed := 0, receiver := SegmentReceived(c.receiver, seg).value));
    var c3 := TakeAck(c2, seg);
    TakeAckPasses(c2, seg);
    assert c3.sender.sent == Confirmed(c.sender, seg).sent by { hide SegmentReceived, AckReceived; TakenHistory(c2, seg); }
    AnswerPasses(c3, seg);
    PassesTrans(c2, c3, Answer(c3, seg));
    SameHistory(c, c2, Answer(c3, seg));
  }

  lemma TakenHistory(c: Connection, seg: Segment)
    requires c.Ready()
    ensures TakeAck(c, seg).sender.sent == Confirmed(c.sender, seg).sent
  {
    hide AckReceived, Dress;
  }
}
