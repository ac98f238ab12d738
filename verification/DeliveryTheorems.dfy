/** Whole-run safety of one-way delivery. */
module DeliveryTheorems {
  import opened Basics
  import opened ByteStreams
  import opened Segments
  import opened WrappingIntegers
  import opened Reassembly
  import opened ReassemblyTheorems
  import opened ReassemblyAligned
  import opened Sending
  import opened SendingTheorems
  import opened Receiving
  import opened Delivery

  // ---------------------------------------------------------------- segments as slices

  /** What segment `i` of the history is to the reassembler. */
  function Piece(sent: seq<Segment>, i: nat): Datagram
    requires i < |sent|
  {
    Datagram(sent[i].payload, if Start(sent, i) > 0 then Start(sent, i) - 1 else 0, sent[i].header.fin)
  }

  function Pieces(sent: seq<Segment>): set<Datagram>
  {
    set i: nat | 1 <= i < |sent| :: Piece(sent, i)
  }

  lemma PieceOk(s: Sender, i: nat)
    requires SentOk(s) && 1 <= i < |s.sent|
    ensures Slice(s.stream.written, Piece(s.sent, i)) && Useful(Piece(s.sent, i))
    ensures Start(s.sent, i) == Piece(s.sent, i).index + 1
    ensures s.sent[i].Len() == |s.sent[i].payload| + if s.sent[i].header.fin then 1 else 0
    ensures s.sent[i].header.seqno == Wrap(Start(s.sent, i), s.isn)
    ensures s.sent[i].header.fin ==> s.finSent && Piece(s.sent, i).Tail() == |s.stream.written|
    ensures Start(s.sent, i) + s.sent[i].Len() <= s.next
    ensures Piece(s.sent, i) in Pieces(s.sent)
  {
    hide Wrap;
    assert Truthful(s.sent, i, s.isn, s.stream, s.finSent);
    StartNext(s.sent, i);
    StartMonotone(s.sent, i + 1, |s.sent|);
    assert s.sent[..|s.sent|] == s.sent;
  }

  /** Later segments start where earlier ones have ended. */
  lemma InOrder(s: Sender, i: nat, j: nat)
    requires SentOk(s) && i < j <= |s.sent|
    ensures Start(s.sent, i) < Start(s.sent, i) + s.sent[i].Len() <= Start(s.sent, j)
  {
    hide Wrap;
    assert Truthful(s.sent, i, s.isn, s.stream, s.finSent);
    StartNext(s.sent, i);
    StartMonotone(s.sent, i + 1, j);
  }

  lemma PiecesDisjoint(s: Sender)
    requires SentOk(s)
    ensures Disjoint(Pieces(s.sent))
  {
    hide Truthful, Start, SentOk, Wrap, SeqLen;
    forall a, b | a in Pieces(s.sent) && b in Pieces(s.sent)
      ensures (a.index == b.index ==> a == b) && (a.index < b.index ==> a.Tail() <= b.index)
    {
      var i: nat :| 1 <= i < |s.sent| && a == Piece(s.sent, i);
      var j: nat :| 1 <= j < |s.sent| && b == Piece(s.sent, j);
      PieceOk(s, i);
      PieceOk(s, j);
      if i < j {
        InOrder(s, i, j);
      } else if j < i {
        InOrder(s, j, i);
      }
    }
  }

  // ---------------------------------------------------------------- the invariant

  /** The receiver waits for the start of a segment: the one after the last byte that is out, or
      past the FIN. */
  ghost predicate Awaits(s: Sender, r: Receiver)
  {
    && (exists k: nat :: 1 <= k <= |s.sent| && r.number == Start(s.sent, k))
    && ((r.number == r.reassembler.next + 1 && !r.Out().ended)
        || (r.number == r.reassembler.next + 2 && s.finSent && r.reassembler.next == |s.stream.written|))
  }

  /** The FIN has been counted. */
  predicate Finished(r: Receiver)
  {
    r.number == r.reassembler.next + 2
  }

  ghost predicate StoreOk(s: Sender, q: Reassembler)
  {
    forall d :: d in q.store ==> d in Pieces(s.sent) && Useful(d) && EndFits(Edge(q), d)
  }

  ghost predicate ReceiverOk(s: Sender, r: Receiver)
  {
    && Inv(s.stream.written, r.reassembler) && Drained(r.reassembler) && EndSeen(r.reassembler)
    && StoreOk(s, r.reassembler)
    && (r.listening ==> r.number == 0 && r.reassembler.next == 0 && r.reassembler.store == [] && !r.Out().ended)
    && (!r.listening ==> r.isn == s.isn && Awaits(s, r))
  }

  /** The first number the receiver has no room for, as long as it has not counted the FIN. */
  function RightEdge(r: Receiver): nat
  {
    1 + Edge(r.reassembler)
  }

  /** A segment of `len` numbers from `start` was sent into the room, or is a one-number probe
      of a closed window that the receiver has reached. */
  ghost predicate Fits(start: nat, len: nat, edge: nat, number: nat)
  {
    start + len <= edge || (len == 1 && start <= number)
  }

  ghost predicate FlowOk(s: Sender, r: Receiver)
  {
    && (forall i: nat :: 1 <= i < |s.sent| ==> Fits(Start(s.sent, i), s.sent[i].Len(), RightEdge(r), r.number))
    && s.confirmed <= r.number
    && (s.finSent || s.confirmed + s.window <= RightEdge(r))
  }

  ghost predicate AckOk(s: Sender, r: Receiver, a: Ack)
  {
    && a.ackno == Wrap(a.number, s.isn)
    && 1 <= a.number <= r.number
    && (s.finSent || a.number + a.window <= RightEdge(r))
  }

  ghost predicate Agree(sys: System)
  {
    && SenderInv(sys.s)
    && (forall seg :: seg in sys.s.segmentsOut ==> seg in sys.s.sent)
    && (forall seg :: seg in sys.wire ==> seg in sys.s.sent)
    && ReceiverOk(sys.s, sys.r)
    && FlowOk(sys.s, sys.r)
    && (forall a :: a in sys.acks ==> AckOk(sys.s, sys.r, a))
  }

  lemma BootAgrees(sendCapacity: nat, recvCapacity: nat, timeout: U16, isn: U32)
    ensures Agree(Boot(sendCapacity, recvCapacity, timeout, isn))
  {
    hide Wrap, SenderInv, Start;
    NewSenderOk(sendCapacity, timeout, isn);
  }

  // ---------------------------------------------------------------- the receiver

  /** The receiver has counted nothing the sender has not sent. */
  lemma NumberBelowNext(s: Sender, r: Receiver)
    requires SentOk(s) && ReceiverOk(s, r)
    ensures r.number <= s.next
    ensures !r.listening && !Finished(r) ==> r.number == r.reassembler.next + 1 && !r.Out().ended
    ensures Finished(r) && !r.listening ==> r.number == s.next && s.finSent && r.reassembler.next == |s.stream.written|
  {
    hide Wrap, Truthful;
    if !r.listening {
      var k: nat :| 1 <= k <= |s.sent| && r.number == Start(s.sent, k);
      StartMonotone(s.sent, k, |s.sent|);
      assert s.sent[..|s.sent|] == s.sent;
    }
  }

  /** Flow control at the receiver: whatever arrives either fits, with its FIN, or meets a full
      buffer. */
  lemma ArrivesWithRoom(s: Sender, r: Receiver, i: nat)
    requires SentOk(s) && ReceiverOk(s, r) && FlowOk(s, r) && !r.listening && 1 <= i < |s.sent|
    requires r.Out().Remaining() > 0
    ensures
      var d := Piece(s.sent, i);
      d.Tail() <= Edge(r.reassembler) && EndFits(Edge(r.reassembler), d)
  {
    hide Wrap, Truthful, Start;
    PieceOk(s, i);
    NumberBelowNext(s, r);
    assert Fits(Start(s.sent, i), s.sent[i].Len(), RightEdge(r), r.number);
  }

  /** The reassembler after a piece arrives with room: no hang, and everything it promises. */
  lemma PiecePushed(s: Sender, r: Receiver, i: nat)
    requires SentOk(s) && ReceiverOk(s, r) && FlowOk(s, r) && !r.listening && 1 <= i < |s.sent|
    requires r.Out().Remaining() > 0
    ensures
      var q, d := r.reassembler, Piece(s.sent, i);
      && Push(q, d).Done?
      && var q' := Push(q, d).value;
         && Inv(s.stream.written, q') && Drained(q') && EndSeen(q') && StoreOk(s, q')
         && (q'.next == q.next || AtBoundary(Pieces(s.sent), q'))
         && q.next <= q'.next
         && (q'.out.ended && !q.out.ended ==> s.finSent)
  {
    hide Wrap, Truthful, Start, Push, Slice;
    var whole, q, d, family := s.stream.written, r.reassembler, Piece(s.sent, i), Pieces(s.sent);
    PieceOk(s, i);
    ArrivesWithRoom(s, r, i);
    PiecesDisjoint(s);
    PushDisjoint(whole, q, d, family);
    PushKeeps(whole, q, d);
    PushDrains(whole, q, d);
    PushEnds(whole, q, d);
    if !s.finSent && !q.out.ended {
      forall e | e in q.store || e == d
        ensures !e.eof
      {
        var j: nat :| 1 <= j < |s.sent| && e == Piece(s.sent, j);
        PieceOk(s, j);
      }
      NoEndWithoutMarker(q, d);
    }
  }

  /** What `arrived` leaves for the rest of the system: the receiver moved forward only. */
  ghost predicate Moved(r: Receiver, r': Receiver)
  {
    && r.number <= r'.number
    && r'.Out().read == r.Out().read && r'.Out().capacity == r.Out().capacity
  }

  lemma SynOk(s: Sender)
    requires SentOk(s) && s.sent != []
    ensures s.sent[0].header.syn && s.sent[0].payload == [] && !s.sent[0].header.fin && s.sent[0].Len() == 1
    ensures s.sent[0].header.seqno == s.isn == Wrap(0, s.isn) && Start(s.sent, 0) == 0
    ensures Start(s.sent, 1) == 1
    ensures forall i: nat :: 1 <= i < |s.sent| ==> !s.sent[i].header.syn
  {
    assert Truthful(s.sent, 0, s.isn, s.stream, s.finSent);
    StartNext(s.sent, 0);
    forall i: nat | 1 <= i < |s.sent|
      ensures !s.sent[i].header.syn
    {
      assert Truthful(s.sent, i, s.isn, s.stream, s.finSent);
    }
  }

  /** An empty substring that is already reached changes nothing. */
  lemma PushNothing(q: Reassembler, d: Datagram)
    requires q.out.Valid() && d.data == [] && !d.eof && d.index <= q.next
    ensures Push(q, d) == Done(q)
  {
    assert q.out.written + [] == q.out.written;
  }

  lemma UnwrapZero(isn: U32, n: nat)
    requires n <= TWO31
    ensures Unwrap(isn, isn, n) == 0
  {
    hide Unwrap;
    UnwrapWrapIff(0, isn, n);
    assert Wrap(0, isn) == isn;
  }

  lemma SynArrives(s: Sender, r: Receiver)
    requires SentOk(s) && ReceiverOk(s, r) && s.sent != [] && r.number <= TWO31
    ensures
      var o := SegmentReceived(r, s.sent[0]);
      o.Done? && ReceiverOk(s, o.value) && Moved(r, o.value)
  {
    hide Unwrap, Wrap, Push, Truthful, SeqLen, Slice;
    SynOk(s);
    UnwrapZero(s.isn, r.number);
    PushNothing(r.reassembler, Datagram([], 0, false));
    if r.listening {
      var r' := SegmentReceived(r, s.sent[0]).value;
      assert r' == r.(listening := false, isn := s.isn, number := 1);
      assert 1 <= 1 <= |s.sent| && r'.number == Start(s.sent, 1);
    }
  }

  /** A piece that meets a full buffer is dropped whole. A bare FIN is counted all the same. */
  lemma PieceDropped(s: Sender, r: Receiver, i: nat)
    requires SentOk(s) && ReceiverOk(s, r) && FlowOk(s, r) && !r.listening && 1 <= i < |s.sent|
    requires r.Out().Remaining() == 0
    requires Unwrap(s.sent[i].header.seqno, s.isn, r.number) == Start(s.sent, i)
    ensures
      var o := SegmentReceived(r, s.sent[i]);
      && o.Done? && ReceiverOk(s, o.value) && Moved(r, o.value)
      && o.value == r.(number := if Start(s.sent, i) == r.number && s.sent[i].payload == [] then r.number + 1 else r.number)
  {
    hide Unwrap, Wrap, Truthful, SeqLen, Start;
    PieceOk(s, i);
    SynOk(s);
    NumberBelowNext(s, r);
    assert Fits(Start(s.sent, i), s.sent[i].Len(), RightEdge(r), r.number);
    if Start(s.sent, i) == r.number && s.sent[i].payload == [] {
      assert s.next == Start(s.sent, |s.sent|) by { hide *; WholeHistory(s); }
    }
  }

  lemma WholeHistory(s: Sender)
    requires SentOk(s)
    ensures s.next == Start(s.sent, |s.sent|)
  {
    assert s.sent[..|s.sent|] == s.sent;
  }

  /** A piece ahead of, or behind, the awaited number moves nothing. */
  lemma PieceAside(s: Sender, r: Receiver, i: nat)
    requires SentOk(s) && ReceiverOk(s, r) && FlowOk(s, r) && !r.listening && 1 <= i < |s.sent|
    requires r.Out().Remaining() > 0 && Start(s.sent, i) != r.number
    requires Unwrap(s.sent[i].header.seqno, s.isn, r.number) == Start(s.sent, i)
    ensures
      var o := SegmentReceived(r, s.sent[i]);
      o.Done? && ReceiverOk(s, o.value) && Moved(r, o.value) && o.value.number == r.number
  {
    hide Unwrap, Wrap, Truthful, SeqLen, Start, Push, Slice;
    var q, d := r.reassembler, Piece(s.sent, i);
    PieceOk(s, i);
    SynOk(s);
    NumberBelowNext(s, r);
    PiecePushed(s, r, i);
    if !Finished(r) {
      ArrivesWithRoom(s, r, i);
      if Start(s.sent, i) < r.number {
        var k: nat :| 1 <= k <= |s.sent| && r.number == Start(s.sent, k);
        if k <= i {
          StartMonotone(s.sent, k, i);
        } else {
          InOrder(s, i, k);
        }
        assert d.Tail() <= q.next && !d.eof by { hide *; OldPieceHasNoEnd(s, r, i, k); }
      }
      OldPushKeepsOutput(s.stream.written, q, d);
    }
  }

  lemma OldPieceHasNoEnd(s: Sender, r: Receiver, i: nat, k: nat)
    requires SentOk(s) && ReceiverOk(s, r) && !r.listening && !Finished(r)
    requires 1 <= i < k <= |s.sent| && r.number == Start(s.sent, k)
    ensures Piece(s.sent, i).Tail() <= r.reassembler.next && !Piece(s.sent, i).eof
  {
    hide Unwrap, Wrap, Truthful, SeqLen, Start;
    PieceOk(s, i);
    NumberBelowNext(s, r);
    InOrder(s, i, k);
  }

  /** The awaited piece: what is out grows to the end of some piece, and the number follows. */
  lemma PieceAwaited(s: Sender, r: Receiver, i: nat)
    requires SentOk(s) && ReceiverOk(s, r) && FlowOk(s, r) && !r.listening && 1 <= i < |s.sent|
    requires r.Out().Remaining() > 0 && Start(s.sent, i) == r.number
    requires Unwrap(s.sent[i].header.seqno, s.isn, r.number) == Start(s.sent, i)
    ensures
      var o := SegmentReceived(r, s.sent[i]);
      && o.Done? && ReceiverOk(s, o.value) && Moved(r, o.value)
      && (s.sent[i].header.fin ==> o.value.Out().ended)
  {
    hide Unwrap, Wrap, Truthful, SeqLen, Start, Push, Slice;
    var q, d := r.reassembler, Piece(s.sent, i);
    PieceOk(s, i);
    SynOk(s);
    NumberBelowNext(s, r);
    PiecePushed(s, r, i);
    ArrivesWithRoom(s, r, i);
    PushReaches(s.stream.written, q, d);
    if d.eof {
      PushAnnounces(s.stream.written, q, d);
    }
    var r' := SegmentReceived(r, s.sent[i]).value;
    assert Awaits(s, r') by {
      if r'.Out().ended {
        assert s.next == Start(s.sent, |s.sent|) by { hide *; WholeHistory(s); }
        assert r'.number == |s.stream.written| + 2;
        assert 1 <= |s.sent| && r'.number == Start(s.sent, |s.sent|);
      } else {
        assert r'.number == r'.reassembler.next + 1;
        BoundaryIsStart(s, r'.reassembler);
      }
    }
  }

  /** An output that stops at the end of a piece, but not of the stream, is followed by the start
      of the next one. */
  lemma BoundaryIsStart(s: Sender, q: Reassembler)
    requires SentOk(s) && AtBoundary(Pieces(s.sent), q) && !q.out.ended
    ensures exists k: nat :: 1 <= k <= |s.sent| && q.next + 1 == Start(s.sent, k)
  {
    hide Wrap, Truthful, SeqLen, Start;
    var d :| d in Pieces(s.sent) && d.Tail() == q.next && (d.eof ==> q.out.ended);
    var j: nat :| 1 <= j < |s.sent| && d == Piece(s.sent, j);
    PieceOk(s, j);
    StartNext(s.sent, j);
    assert 1 <= j + 1 <= |s.sent| && q.next + 1 == Start(s.sent, j + 1);
  }

  /** Near enough to the awaited number for its 32 bits to tell where it belongs. */
  ghost predicate Near(a: int, b: int)
  {
    -TWO31 <= a - b < TWO31
  }

  /** Any segment ever sent may arrive at any time, any number of times. */
  lemma DeliverKeeps(s: Sender, r: Receiver, i: nat)
    requires SenderInv(s) && ReceiverOk(s, r) && FlowOk(s, r) && i < |s.sent|
    requires Near(Start(s.sent, i), r.number) && s.next < TWO63
    ensures
      var o := SegmentReceived(r, s.sent[i]);
      o.Done? && ReceiverOk(s, o.value) && Moved(r, o.value)
  {
    hide Unwrap, Wrap, Truthful, SeqLen, Start, Push, Slice, SegmentReceived;
    SynOk(s);
    if i == 0 {
      SynArrives(s, r);
    } else if r.listening {
      assert SegmentReceived(r, s.sent[i]) == Done(r) by { hide *; Deaf(r, s.sent[i]); }
    } else {
      PieceOk(s, i);
      NumberBelowNext(s, r);
      UnwrapWrapIff(Start(s.sent, i), s.isn, r.number);
      if r.Out().Remaining() == 0 {
        PieceDropped(s, r, i);
      } else if Start(s.sent, i) != r.number {
        PieceAside(s, r, i);
      } else {
        PieceAwaited(s, r, i);
      }
    }
  }

  lemma Deaf(r: Receiver, seg: Segment)
    requires r.Out().Valid() && r.listening && !seg.header.syn
    ensures SegmentReceived(r, seg) == Done(r)
  {
  }

  /** While nothing but the SYN is counted, whatever stands at its number is ignored: data in a
      repeated SYN does not become the first byte. */
  lemma SynNumberIgnored(r: Receiver, seg: Segment)
    requires r.Out().Valid() && !r.listening && r.number == 1 && seg.header.seqno == r.isn
    ensures SegmentReceived(r, seg) == Done(r)
  {
    hide Unwrap, Push;
    SynNumber(r.isn);
  }

  lemma SynNumber(isn: U32)
    ensures Unwrap(isn, isn, 1) == 0
  {
    UnwrapWrapIff(0, isn, 1);
    hide Unwrap;
  }

  // ---------------------------------------------------------------- the sender

  lemma PiecesGrow(sent: seq<Segment>, sent': seq<Segment>)
    requires sent <= sent'
    ensures Pieces(sent) <= Pieces(sent')
    ensures forall k: nat :: k <= |sent| ==> Start(sent', k) == Start(sent, k)
  {
    hide SeqLen;
    var more := sent'[|sent|..];
    assert sent' == sent + more;
    forall k: nat | k <= |sent|
      ensures Start(sent', k) == Start(sent, k)
    {
      StartAppend(sent, more, k);
    }
    forall d | d in Pieces(sent)
      ensures d in Pieces(sent')
    {
      var i: nat :| 1 <= i < |sent| && d == Piece(sent, i);
      assert d == Piece(sent', i);
    }
  }

  /** Sending more does not disturb the receiver. */
  lemma ReceiverOkGrows(s: Sender, s': Sender, r: Receiver)
    requires ReceiverOk(s, r) && s.sent <= s'.sent && s'.isn == s.isn
    requires s'.stream.written == s.stream.written && (s.finSent ==> s'.finSent)
    ensures ReceiverOk(s', r)
  {
    hide SeqLen, Start, Slice;
    PiecesGrow(s.sent, s'.sent);
    if !r.listening {
      var k: nat :| 1 <= k <= |s.sent| && r.number == Start(s.sent, k);
      assert 1 <= k <= |s'.sent| && r.number == Start(s'.sent, k);
    }
  }

  /** The sender went from `s` to `s'` within the window it has been offered. */
  ghost predicate WithinWindow(s: Sender, s': Sender, r: Receiver)
  {
    && s.sent <= s'.sent && s.next <= s'.next && s'.isn == s.isn
    && s'.stream.written == s.stream.written
    && (s.finSent ==> s'.finSent && s'.sent == s.sent)
    && (s.next == 0 ==> s'.next <= 1)
    && (s.next > 0 ==> s'.next <= Max(s.next, s'.confirmed + s'.LogicalWindow()))
    && s'.confirmed <= r.number && s'.confirmed <= s.next
    && (s.finSent || s'.confirmed + s'.window <= RightEdge(r))
  }

  /** Flow control at the sender: a newly sent segment fits the room, or is a probe of one number
      that the receiver has reached. */
  lemma NewSegmentFits(s: Sender, s': Sender, r: Receiver, i: nat)
    requires SenderInv(s) && SenderInv(s') && WithinWindow(s, s', r)
    requires 1 <= i && |s.sent| <= i < |s'.sent|
    ensures Fits(Start(s'.sent, i), s'.sent[i].Len(), RightEdge(r), r.number)
  {
    hide Wrap, Truthful, SeqLen, Start;
    PiecesGrow(s.sent, s'.sent);
    WholeHistory(s);
    StartMonotone(s'.sent, |s.sent|, i);
    PieceOk(s', i);
    InOrder(s', i, i + 1);
  }

  lemma FlowGrows(s: Sender, s': Sender, r: Receiver)
    requires SenderInv(s) && SenderInv(s') && FlowOk(s, r) && WithinWindow(s, s', r)
    ensures FlowOk(s', r)
  {
    hide Wrap, Truthful, SeqLen, Start, Fits;
    PiecesGrow(s.sent, s'.sent);
    forall i: nat | 1 <= i < |s'.sent|
      ensures Fits(Start(s'.sent, i), s'.sent[i].Len(), RightEdge(r), r.number)
    {
      if i < |s.sent| {
        assert Fits(Start(s.sent, i), s.sent[i].Len(), RightEdge(r), r.number);
      } else {
        NewSegmentFits(s, s', r, i);
      }
    }
  }

  /** A sender step inside the window keeps the system in agreement. */
  lemma SenderStepKeeps(sys: System, s': Sender)
    requires Agree(sys) && SenderInv(s') && WithinWindow(sys.s, s', sys.r)
    requires forall seg :: seg in s'.segmentsOut ==> seg in s'.sent
    ensures Agree(sys.(s := s'))
  {
    hide SenderInv, ReceiverOk, FlowOk, Wrap;
    ReceiverOkGrows(sys.s, s', sys.r);
    FlowGrows(sys.s, s', sys.r);
  }

  lemma OutStaysSent(s: Sender, s': Sender)
    requires s.sent <= s'.sent && s'.segmentsOut == s.segmentsOut + s'.sent[|s.sent|..]
    requires forall seg :: seg in s.segmentsOut ==> seg in s.sent
    ensures forall seg :: seg in s'.segmentsOut ==> seg in s'.sent
  {
    forall seg | seg in s'.segmentsOut
      ensures seg in s'.sent
    {
      if seg in s.segmentsOut {
        assert seg in s.sent;
        var k :| 0 <= k < |s.sent| && s.sent[k] == seg;
        assert s'.sent[k] == seg;
      }
    }
  }

  lemma FillStepAgrees(sys: System)
    requires Agree(sys)
    ensures Agree(sys.(s := FillWindow(sys.s)))
  {
    hide FillWindow, ReceiverOk, Truthful, Start;
    FillWindowKeeps(sys.s);
    OutStaysSent(sys.s, FillWindow(sys.s));
    SenderStepKeeps(sys, FillWindow(sys.s));
  }

  lemma TickAgrees(sys: System, ms: nat)
    requires Agree(sys)
    ensures Agree(sys.(s := Sending.Tick(sys.s, ms)))
  {
    hide ReceiverOk, Truthful, Start, Sending.Tick;
    TickKeeps(sys.s, ms);
    SenderStepKeeps(sys, Sending.Tick(sys.s, ms));
  }

  lemma AcknowledgeAgrees(sys: System, k: nat)
    requires Agree(sys) && k < |sys.acks| && sys.s.next < TWO63 && Near(sys.acks[k].number, sys.s.next)
    ensures Agree(sys.(s := AckReceived(sys.s, sys.acks[k].ackno, sys.acks[k].window)))
  {
    hide AckReceived, Truthful, FlightOk, Wrap, Unwrap;
    var s, a := sys.s, sys.acks[k];
    assert a in sys.acks;
    NumberBelowNext(s, sys.r);
    UnwrapWrapIff(a.number, s.isn, s.next);
    AckReceivedKeeps(s, a.ackno, a.window);
    var s' := AckReceived(s, a.ackno, a.window);
    OutStaysSent(s, s');
    SenderStepKeeps(sys, s');
  }

  // ---------------------------------------------------------------- writing and reading

  lemma WriteSentOk(s: Sender, data: Bytes)
    requires SentOk(s) && !s.stream.ended
    ensures SentOk(s.(stream := s.stream.Write(data)))
  {
    hide Wrap, Start;
    var s' := s.(stream := s.stream.Write(data));
    forall i: nat | i < |s'.sent|
      ensures Truthful(s'.sent, i, s'.isn, s'.stream, s'.finSent)
    {
      assert Truthful(s.sent, i, s.isn, s.stream, s.finSent);
    }
  }

  lemma WriteReceiverOk(s: Sender, r: Receiver, data: Bytes)
    requires SentOk(s) && ReceiverOk(s, r) && !s.stream.ended
    ensures ReceiverOk(s.(stream := s.stream.Write(data)), r)
  {
    hide Wrap, Start, Truthful;
    var s' := s.(stream := s.stream.Write(data));
    WriteSentOk(s, data);
    forall d | d in r.reassembler.store
      ensures Slice(s'.stream.written, d)
    {
      var i: nat :| 1 <= i < |s.sent| && d == Piece(s.sent, i);
      PieceOk(s', i);
    }
  }

  lemma WriteAgrees(sys: System, data: Bytes)
    requires Agree(sys) && !sys.s.stream.ended
    ensures Agree(sys.(s := sys.s.(stream := sys.s.stream.Write(data))))
  {
    hide Wrap, Start, Truthful, Flight, Slice;
    WriteSentOk(sys.s, data);
    WriteReceiverOk(sys.s, sys.r, data);
  }

  lemma EndAgrees(sys: System)
    requires Agree(sys)
    ensures Agree(sys.(s := sys.s.(stream := sys.s.stream.EndInput())))
  {
    hide Wrap, Start, Flight, Inv, Drained, EndSeen, StoreOk;
    var s' := sys.s.(stream := sys.s.stream.EndInput());
    forall i: nat | i < |s'.sent|
      ensures Truthful(s'.sent, i, s'.isn, s'.stream, s'.finSent)
    {
      assert Truthful(sys.s.sent, i, sys.s.isn, sys.s.stream, sys.s.finSent);
    }
    assert StoreOk(s', sys.r.reassembler) by { hide *; StoreOkSame(sys.s, s', sys.r.reassembler); }
  }

  lemma StoreOkSame(s: Sender, s': Sender, q: Reassembler)
    requires StoreOk(s, q) && s'.sent == s.sent
    ensures StoreOk(s', q)
  {
  }

  /** The receiver moved forward, its room did not shrink: the rest of the system still agrees. */
  lemma ReceiverStepKeeps(sys: System, r': Receiver)
    requires Agree(sys) && ReceiverOk(sys.s, r')
    requires sys.r.number <= r'.number && RightEdge(sys.r) <= RightEdge(r')
    ensures Agree(sys.(r := r'))
  {
    hide SenderInv, ReceiverOk, Wrap, Start;
    var s, r := sys.s, sys.r;
    forall i: nat | 1 <= i < |s.sent|
      ensures Fits(Start(s.sent, i), s.sent[i].Len(), RightEdge(r'), r'.number)
    {
      assert Fits(Start(s.sent, i), s.sent[i].Len(), RightEdge(r), r.number);
    }
  }

  lemma ReadAgrees(sys: System, len: nat)
    requires Agree(sys)
    ensures Agree(sys.(r := sys.r.(reassembler := Reassembly.Read(sys.r.reassembler, len))))
  {
    hide SenderInv, Wrap, Start, Slice, FlowOk;
    var r' := sys.r.(reassembler := Reassembly.Read(sys.r.reassembler, len));
    assert Edge(sys.r.reassembler) <= Edge(r'.reassembler);
    assert ReceiverOk(sys.s, r');
    ReceiverStepKeeps(sys, r');
  }

  lemma DeliverAgrees(sys: System, i: nat)
    requires Agree(sys) && i < |sys.s.sent| && sys.s.next < TWO63 && Near(Start(sys.s.sent, i), sys.r.number)
    ensures SegmentReceived(sys.r, sys.s.sent[i]).Done?
    ensures Agree(sys.(r := SegmentReceived(sys.r, sys.s.sent[i]).value))
  {
    hide SenderInv, SegmentReceived, Wrap, Start, FlowOk, Awaits;
    DeliverKeeps(sys.s, sys.r, i);
    ReceiverStepKeeps(sys, SegmentReceived(sys.r, sys.s.sent[i]).value);
  }

  lemma EmitAgrees(sys: System)
    requires Agree(sys) && !sys.r.listening
    ensures Agree(sys.(acks := sys.acks + [Ack(Wrap(sys.r.number, sys.r.isn), sys.r.WindowSize() % TWO16, sys.r.number)]))
  {
    hide Truthful, Flight, FlowOk, Wrap, Slice, Start;
    NumberBelowNext(sys.s, sys.r);
    WindowFits(sys.r.WindowSize());
    var a := Ack(Wrap(sys.r.number, sys.r.isn), sys.r.WindowSize() % TWO16, sys.r.number);
    assert AckOk(sys.s, sys.r, a);
  }

  lemma WindowFits(n: nat)
    ensures n % TWO16 <= n
  {
  }

  lemma TransmitAgrees(sys: System)
    requires Agree(sys) && sys.s.segmentsOut != []
    ensures Agree(sys.(s := sys.s.(segmentsOut := sys.s.segmentsOut[1..]), wire := sys.wire + {sys.s.segmentsOut[0]}))
  {
    hide Truthful, Flight, Wrap, Start, Inv, Drained, EndSeen, Fits;
    assert sys.s.segmentsOut[0] in sys.s.segmentsOut;
  }

  // ---------------------------------------------------------------- runs

  /** What arrives in this step is near enough for its 32 bits to be unambiguous: no segment or
      acknowledgment is more than 2^31 numbers late. */
  ghost predicate Timely(sys: System, step: Step)
  {
    match step
    case Deliver(i) => i < |sys.s.sent| ==> Near(Start(sys.s.sent, i), sys.r.number)
    case Acknowledge(k) => k < |sys.acks| ==> Near(sys.acks[k].number, sys.s.next)
    case _ => true
  }

  ghost predicate AllTimely(sys: System, steps: seq<Step>)
    requires Ready(sys)
    decreases |steps|
  {
    steps != [] ==>
      && Timely(sys, steps[0])
      && (Next(sys, steps[0]).Done? ==> AllTimely(Next(sys, steps[0]).value, steps[1..]))
  }

  /** Bytes the application offers in a run. */
  function Offered(steps: seq<Step>): nat
  {
    if steps == [] then 0 else (if steps[0].Write? then |steps[0].data| else 0) + Offered(steps[1..])
  }

  ghost predicate Advances(sys: System, sys': System)
  {
    && sys.r.number <= sys'.r.number
    && sys.s.confirmed <= sys'.s.confirmed
    && RightEdge(sys.r) <= RightEdge(sys'.r)
  }

  /** Every step succeeds and keeps the system in agreement. */
  lemma NextKeeps(sys: System, step: Step)
    requires Agree(sys) && Ready(sys) && Timely(sys, step) && |sys.s.stream.written| + 2 < TWO63
    ensures Next(sys, step).Done? && Agree(Next(sys, step).value)
    ensures |Next(sys, step).value.s.stream.written| <= |sys.s.stream.written| + if step.Write? then |step.data| else 0
  {
    hide Agree, FillWindow, Sending.Tick, SegmentReceived, AckReceived, Start, Wrap;
    NextBelow(sys);
    match step {
      case Write(data) => if !sys.s.stream.ended { WriteAgrees(sys, data); }
      case End => EndAgrees(sys);
      case Fill =>
        FillStepAgrees(sys);
        SameStream(sys, step);
      case Tick(ms) =>
        TickAgrees(sys, ms);
        SameStream(sys, step);
      case Transmit => if sys.s.segmentsOut != [] { TransmitAgrees(sys); }
      case Deliver(i) => if i < |sys.s.sent| && sys.s.sent[i] in sys.wire { DeliverAgrees(sys, i); }
      case Emit => if !sys.r.listening { EmitAgrees(sys); }
      case Acknowledge(k) =>
        if k < |sys.acks| {
          AcknowledgeAgrees(sys, k);
          SameStream(sys, step);
        }
      case Read(len) => ReadAgrees(sys, len);
    }
  }

  lemma NextBelow(sys: System)
    requires Agree(sys) && |sys.s.stream.written| + 2 < TWO63
    ensures sys.s.next < TWO63
  {
    hide Truthful, Flight, ReceiverOk, FlowOk;
  }

  lemma SameStream(sys: System, step: Step)
    requires Agree(sys) && Ready(sys) && sys.s.next < TWO63
    requires step.Fill? || step.Tick? || step.Acknowledge?
    ensures Next(sys, step).value.s.stream.written == sys.s.stream.written
  {
    hide Truthful, Flight, ReceiverOk, FlowOk, FillWindow, AckReceived, Wrap;
    FillWindowKeeps(sys.s);
    if step.Acknowledge? && step.k < |sys.acks| {
      AckReceivedKeeps(sys.s, sys.acks[step.k].ackno, sys.acks[step.k].window);
    }
  }

  /** No step takes anything back: what is received and confirmed only grows, and the right edge
      of the receiver's window never moves left. */
  lemma NextAdvances(sys: System, step: Step)
    requires Agree(sys) && Ready(sys) && Timely(sys, step) && sys.s.next < TWO63
    ensures Next(sys, step).Done? ==> Advances(sys, Next(sys, step).value)
  {
    hide ReceiverOk, FlowOk, Truthful, Flight, FillWindow, SegmentReceived, AckReceived, Start, Wrap;
    match step {
      case Fill => FillWindowKeeps(sys.s);
      case Deliver(i) => if i < |sys.s.sent| { DeliverKeeps(sys.s, sys.r, i); }
      case Acknowledge(k) => if k < |sys.acks| { AckReceivedKeeps(sys.s, sys.acks[k].ackno, sys.acks[k].window); }
      case _ =>
    }
  }

  lemma {:induction false} RunKeeps(sys: System, steps: seq<Step>)
    requires Agree(sys) && Ready(sys) && AllTimely(sys, steps)
    requires |sys.s.stream.written| + Offered(steps) + 2 < TWO63
    ensures Delivery.Run(sys, steps).Done? && Agree(Delivery.Run(sys, steps).value)
    decreases |steps|
  {
    hide Agree, Next, Timely;
    if steps != [] {
      NextKeeps(sys, steps[0]);
      RunKeeps(Next(sys, steps[0]).value, steps[1..]);
    }
  }

  /** Over whole runs what is counted, confirmed and granted never moves left. */
  lemma {:induction false} RunAdvances(sys: System, steps: seq<Step>)
    requires Agree(sys) && Ready(sys) && AllTimely(sys, steps)
    requires |sys.s.stream.written| + Offered(steps) + 2 < TWO63
    ensures Delivery.Run(sys, steps).Done? && Advances(sys, Delivery.Run(sys, steps).value)
    decreases |steps|
  {
    hide Agree, Next, Timely;
    if steps != [] {
      NextKeeps(sys, steps[0]);
      NextBelow(sys);
      NextAdvances(sys, steps[0]);
      RunAdvances(Next(sys, steps[0]).value, steps[1..]);
    }
  }
}
