/** What the interface says and hands up: every request, every reply and every datagram, field by
    field. */
module ArpFrames {
  import opened Basics
  import opened Arp
  import opened ArpTheorems
  import ArpLoop

  /** The frames of one kind, in order. */
  function Only(frames: seq<Frame>, kind: Frame -> bool): seq<Frame>
  {
    if frames == [] then []
    else if kind(frames[|frames| - 1]) then Only(frames[..|frames| - 1], kind) + [frames[|frames| - 1]]
    else Only(frames[..|frames| - 1], kind)
  }

  predicate IsArp(f: Frame)
  {
    f.payload.ARP?
  }

  predicate IsReply(f: Frame)
  {
    f.payload.ARP? && f.payload.message.Some? && f.payload.message.value.opcode == 2
  }

  lemma {:induction false} OnlyConcat(a: seq<Frame>, b: seq<Frame>, kind: Frame -> bool)
    ensures Only(a + b, kind) == Only(a, kind) + Only(b, kind)
    decreases |b|
  {
    if b == [] {
      assert a + b == a;
    } else {
      assert (a + b)[..|a + b| - 1] == a + b[..|b| - 1];
      OnlyConcat(a, b[..|b| - 1], kind);
    }
  }

  lemma {:induction false} OnlyNone(frames: seq<Frame>, kind: Frame -> bool)
    requires forall f :: f in frames ==> !kind(f)
    ensures Only(frames, kind) == []
    decreases |frames|
  {
    if frames != [] {
      OnlyNone(frames[..|frames| - 1], kind);
    }
  }

  lemma {:induction false} OnlyAll(frames: seq<Frame>, kind: Frame -> bool)
    requires forall f :: f in frames ==> kind(f)
    ensures Only(frames, kind) == frames
    decreases |frames|
  {
    if frames != [] {
      OnlyAll(frames[..|frames| - 1], kind);
      assert frames == frames[..|frames| - 1] + [frames[|frames| - 1]];
    }
  }

  // ---------------------------------------------------------------- receiving

  /** The frame reaches us and asks for our address. */
  predicate Asks(i: Interface, f: Frame)
  {
    && (f.dst == i.ethernet || f.dst == 0xFFFF_FFFF_FFFF)
    && f.payload.ARP? && f.payload.message.Some?
    && f.payload.message.value.opcode == 1 && f.payload.message.value.targetIp == i.ip
  }

  /** Our address, told to the station that asked. */
  function Told(ethernet: Ethernet, ip: U32, m: ArpMessage): Frame
  {
    Frame(m.senderEthernet, ethernet, ARP(Some(ArpMessage(2, ethernet, ip, m.senderEthernet, m.senderIp))))
  }

  /** The answer that a frame calls for. */
  function Answer(i: Interface, f: Frame): seq<Frame>
  {
    if Asks(i, f) then [Told(i.ethernet, i.ip, f.payload.message.value)] else []
  }

  lemma Unlearned(i: Interface, f: Frame)
    requires Lesson(i, f).None?
    ensures RecvFrame(i, f).0 == i && !Asks(i, f)
  {
  }

  lemma Heeded(i: Interface, f: Frame)
    requires Lesson(i, f).Some?
    ensures
      var m := Lesson(i, f).value;
      RecvFrame(i, f).0.framesOut == i.framesOut + Answer(i, f) + DataFrames(i, m.senderEthernet, For(i.waiting, m.senderIp))
  {
    hide For, NotFor;
    var m := Lesson(i, f).value;
    var i1 := i.(framesOut := i.framesOut + [Reply(i, m)]);
    var parcels := For(i.waiting, m.senderIp);
    assert DataFrames(i1, m.senderEthernet, parcels) == DataFrames(i, m.senderEthernet, parcels);
    assert i.framesOut + [] == i.framesOut;
  }

  /** Of ARP frames, a received frame makes the interface push exactly the answer it calls for. */
  lemma AnswersExactly(i: Interface, f: Frame)
    ensures
      var i' := RecvFrame(i, f).0;
      i.framesOut <= i'.framesOut && Only(NewFrames(i, i'), IsArp) == Answer(i, f)
  {
    hide For, NotFor, RecvFrame, Only, Lesson;
    var i' := RecvFrame(i, f).0;
    if Lesson(i, f).None? {
      Unlearned(i, f);
      assert NewFrames(i, i') == [];
      OnlyNone([], IsArp);
    } else {
      Heeded(i, f);
      var m := Lesson(i, f).value;
      var data := DataFrames(i, m.senderEthernet, For(i.waiting, m.senderIp));
      assert NewFrames(i, i') == Answer(i, f) + data;
      OnlyConcat(Answer(i, f), data, IsArp);
      OnlyAll(Answer(i, f), IsArp);
      OnlyNone(data, IsArp);
      assert Answer(i, f) + [] == Answer(i, f);
    }
  }

  /** A datagram is handed up exactly when it comes in a frame for us or for everybody. */
  lemma HandsUpIff(i: Interface, f: Frame, datagram: Bytes)
    ensures
      RecvFrame(i, f).1 == Some(datagram)
      <==> (f.dst == i.ethernet || f.dst == 0xFFFF_FFFF_FFFF) && f.payload == IPv4(Some(datagram))
  {
  }

  // ---------------------------------------------------------------- asking

  /** A question to everybody: who has this address? */
  function Question(ethernet: Ethernet, ip: U32, hop: U32): Frame
  {
    Frame(0xFFFF_FFFF_FFFF, ethernet, ARP(Some(ArpMessage(1, ethernet, ip, 0, hop))))
  }

  /** A datagram for an unknown hop makes the interface ask for the hop, unless it has asked; one for
      a known hop goes to its station. */
  lemma SubmitSays(i: Interface, p: Parcel)
    ensures
      SendDatagram(i, p).framesOut == i.framesOut +
        if p.hop in i.table then [Frame(i.table[p.hop].ethernet, i.ethernet, IPv4(Some(p.datagram)))]
        else if p.hop in i.pending then []
        else [Question(i.ethernet, i.ip, p.hop)]
  {
    assert i.framesOut + [] == i.framesOut;
  }

  /** A tick that returns asks again for exactly the hops whose time has run out, each once, in
      ascending order. */
  lemma TickSays(i: Interface, ms: nat)
    requires Tick(i, ms).Done?
    ensures
      var hops := Expired(i.pending, Ascending(i.pending.Keys), ms);
      && ArpLoop.Increasing(hops) && (forall hop :: hop in hops <==> hop in i.pending && i.pending[hop] <= ms)
      && Tick(i, ms).value.framesOut == i.framesOut + Questions(i.ethernet, i.ip, hops)
  {
    hide Expired, Ascending;
    ArpLoop.AscendingIs(i.pending.Keys);
    ArpLoop.ExpiredIs(i.pending, Ascending(i.pending.Keys), ms);
  }

  function Questions(ethernet: Ethernet, ip: U32, hops: seq<U32>): seq<Frame>
  {
    seq(|hops|, k requires 0 <= k < |hops| => Question(ethernet, ip, hops[k]))
  }

  // ---------------------------------------------------------------- runs

  /** The answers that the frames received in a run call for. */
  function AnswersDue(w: World, steps: seq<Step>): seq<Frame>
    decreases |steps|
  {
    if steps == [] || Next(w, steps[0]).Hang? then []
    else (if steps[0].Receive? then Answer(w.iface, steps[0].frame) else []) + AnswersDue(Next(w, steps[0]).value, steps[1..])
  }

  lemma StepAnswers(w: World, step: Step)
    requires Next(w, step).Done?
    ensures
      Only(Next(w, step).value.pushed, IsReply) ==
      Only(w.pushed, IsReply) + if step.Receive? then Answer(w.iface, step.frame) else []
  {
    hide RecvFrame, SendDatagram, Tick, Only, For, NotFor, Lesson;
    var i, w' := w.iface, Next(w, step).value;
    var added := NewFrames(i, w'.iface);
    match step {
      case Submit(p) =>
        SubmitSays(i, p);
        OnlyConcat(w.pushed, added, IsReply);
        OnlyNone(added, IsReply);
      case Elapse(ms) =>
        TickSays(i, ms);
        OnlyConcat(w.pushed, added, IsReply);
        OnlyNone(added, IsReply);
      case Receive(f) =>
        OnlyConcat(w.pushed, added, IsReply);
        RepliesPushed(i, f);
      case TakeFrame =>
    }
  }

  lemma RepliesPushed(i: Interface, f: Frame)
    ensures Only(NewFrames(i, RecvFrame(i, f).0), IsReply) == Answer(i, f)
  {
    hide For, NotFor, RecvFrame, Only, Lesson;
    var i' := RecvFrame(i, f).0;
    if Lesson(i, f).None? {
      Unlearned(i, f);
      assert NewFrames(i, i') == [];
      OnlyNone([], IsReply);
    } else {
      Heeded(i, f);
      var m := Lesson(i, f).value;
      var data := DataFrames(i, m.senderEthernet, For(i.waiting, m.senderIp));
      assert NewFrames(i, i') == Answer(i, f) + data;
      OnlyConcat(Answer(i, f), data, IsReply);
      OnlyAll(Answer(i, f), IsReply);
      OnlyNone(data, IsReply);
      assert Answer(i, f) + [] == Answer(i, f);
    }
  }

  /** Over every run that returns, the replies that went out are, in order, one for each request for
      our address that came in. */
  lemma {:induction false} EveryRequestAnswered(w: World, steps: seq<Step>)
    requires Run(w, steps).Done?
    ensures Only(Run(w, steps).value.pushed, IsReply) == Only(w.pushed, IsReply) + AnswersDue(w, steps)
    decreases |steps|
  {
    hide Next, Only;
    if steps != [] {
      StepAnswers(w, steps[0]);
      EveryRequestAnswered(Next(w, steps[0]).value, steps[1..]);
    }
  }
}
