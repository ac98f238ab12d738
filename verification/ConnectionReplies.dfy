/** What a connection says in reply to a segment. */
module ConnectionReplies {
  import opened Basics
  import opened ByteStreams
  import opened Segments
  import opened WrappingIntegers
  import opened Reassembly
  import opened Sending
  import opened SendingTheorems
  import opened Receiving
  import opened Connections
  import opened ConnectionTheorems

  /** The segment tells the peer what the receiver waits for and how much room it has. */
  predicate Informs(r: Receiver, seg: Segment)
  {
    && seg.header.win == r.WindowSize() % TWO16
    && (!r.listening ==> seg.header.ack && seg.header.ackno == Wrap(r.number, r.isn))
  }

  /** The connection has only added to its queue, and everything it added is up to date. */
  ghost predicate Adds(c: Connection, c': Connection)
  {
    && c'.receiver == c.receiver && c.segmentsOut <= c'.segmentsOut
    && forall i :: |c.segmentsOut| <= i < |c'.segmentsOut| ==> Informs(c'.receiver, c'.segmentsOut[i])
  }

  lemma SendAdds(c: Connection)
    ensures Adds(c, SendSegmentsOut(c))
  {
    hide Wrap;
  }

  lemma AddsTrans(a: Connection, b: Connection, c: Connection)
    requires Adds(a, b) && Adds(b, c)
    ensures Adds(a, c)
  {
    hide Informs;
    forall i | |a.segmentsOut| <= i < |c.segmentsOut|
      ensures Informs(c.receiver, c.segmentsOut[i])
    {
      if i < |b.segmentsOut| {
        assert c.segmentsOut[i] == b.segmentsOut[i];
      }
    }
  }

  lemma TakeAckAdds(c: Connection, seg: Segment)
    requires c.Ready()
    ensures Adds(c, TakeAck(c, seg))
  {
    hide Informs, AckReceived, SendSegmentsOut;
    if seg.header.ack {
      SendAdds(c.(sender := AckReceived(c.sender, seg.header.ackno, seg.header.win)));
    }
  }

  lemma AnswerAdds(c: Connection, seg: Segment)
    requires c.Ready()
    ensures Adds(c, Answer(c, seg)) && (seg.Len() > 0 ==> |c.segmentsOut| < |Answer(c, seg).segmentsOut|)
  {
    hide Informs, FillWindow, SendSegmentsOut, Wrap;
    if seg.Len() > 0 {
      var c1 := c.(sender := FillWindow(c.sender));
      var c2 := SendSegmentsOut(c1);
      SendAdds(c1);
      if c1.sender.segmentsOut == [] {
        SendAdds(c2.(sender := SendEmpty(c2.sender)));
        AddsTrans(c1, c2, Answer(c, seg));
      }
    }
  }

  /** Whatever occupies sequence numbers is answered at once, and every reply acknowledges what
      the receiver has after taking the segment. */
  lemma AlwaysAnswers(c: Connection, seg: Segment)
    requires c.Ready() && !seg.header.rst && Receive(c, seg).Done?
    ensures
      var c', r := Receive(c, seg).value, SegmentReceived(c.receiver, seg).value;
      && c'.receiver == r && c.segmentsOut <= c'.segmentsOut
      && (seg.Len() > 0 ==> |c.segmentsOut| < |c'.segmentsOut|)
      && forall i :: |c.segmentsOut| <= i < |c'.segmentsOut| ==> Informs(r, c'.segmentsOut[i])
  {
    hide Informs, SegmentReceived, TakeAck, Answer;
    var c1 := c.(elapsed := 0, receiver := SegmentReceived(c.receiver, seg).value);
    var c2 := StopLingering(c1);
    TakeAckAdds(c2, seg);
    AnswerAdds(TakeAck(c2, seg), seg);
    AddsTrans(c2, TakeAck(c2, seg), Reply(c1, seg));
  }

  lemma AckSendsNew(s: Sender, ackno: U32, window: U16, seg: Segment)
    requires SenderInv(s) && s.segmentsOut == [] && s.next < TWO63
    requires seg in AckReceived(s, ackno, window).segmentsOut
    ensures seg.Len() > 0
  {
    hide AckReceived, Start, Wrap, Flight;
    AckReceivedKeeps(s, ackno, window);
    var s' := AckReceived(s, ackno, window);
    var i: nat :| i < |s'.sent| && s'.sent[i] == seg;
    assert Truthful(s'.sent, i, s'.isn, s'.stream, s'.finSent);
  }

  lemma DressLen(r: Receiver, seg: Segment)
    ensures Dress(r, seg).Len() == seg.Len()
  {
  }

  lemma TakesNewData(c: Connection, seg: Segment, i: nat)
    requires SenderInv(c.sender) && c.sender.segmentsOut == [] && c.Ready() && c.sender.next < TWO63
    requires |c.segmentsOut| <= i < |TakeAck(c, seg).segmentsOut|
    ensures TakeAck(c, seg).segmentsOut[i].Len() > 0
  {
    hide AckReceived, SenderInv, Dress;
    var s, k := AckReceived(c.sender, seg.header.ackno, seg.header.win), i - |c.segmentsOut|;
    assert s.segmentsOut[k] in s.segmentsOut;
    AckSendsNew(c.sender, seg.header.ackno, seg.header.win, s.segmentsOut[k]);
    DressLen(c.receiver, s.segmentsOut[k]);
  }

  /** An empty segment is answered only with new data, never with another empty segment: two
      connections cannot keep each other busy with acknowledgments. */
  lemma NoEmptyEcho(c: Connection, seg: Segment, i: nat)
    requires ConnInv(c) && c.sender.next < TWO63 && seg.Len() == 0 && !seg.header.rst && Receive(c, seg).Done?
    requires |c.segmentsOut| <= i < |Receive(c, seg).value.segmentsOut|
    ensures Receive(c, seg).value.segmentsOut[i].Len() > 0
  {
    hide SegmentReceived, TakeAck, Truthful, Flight, TimerOk, NoStall, Summarize;
    var c1 := c.(elapsed := 0, receiver := SegmentReceived(c.receiver, seg).value);
    TakesNewData(StopLingering(c1), seg, i);
  }
}
