/** What the interface keeps over every run of submissions, frames and ticks. */
module ArpTheorems {
  import opened Basics
  import opened Arp

  /** A datagram that went out: to which hop, in a frame to which station, at what time, and after
      how many valid ARP messages. */
  datatype Emission = Emission(parcel: Parcel, dst: Ethernet, time: nat, heard: nat)

  /** A valid ARP message: who claimed which address, and when. */
  datatype Heard = Heard(ip: U32, ethernet: Ethernet, time: nat)

  /** The interface with its history. */
  datatype World = World(
    iface: Interface,
    clock: nat,
    submitted: seq<Parcel>,
    emitted: seq<Emission>,
    heard: seq<Heard>,
    pushed: seq<Frame>)

  datatype Step = Submit(parcel: Parcel) | Receive(frame: Frame) | Elapse(ms: nat) | TakeFrame

  function NewWorld(ethernet: Ethernet, ip: U32): World
  {
    World(NewInterface(ethernet, ip), 0, [], [], [], [])
  }

  function Emissions(parcels: seq<Parcel>, dst: Ethernet, time: nat, heard: nat): seq<Emission>
  {
    seq(|parcels|, k requires 0 <= k < |parcels| => Emission(parcels[k], dst, time, heard))
  }

  /** The frames a call has pushed. */
  function NewFrames(i: Interface, i': Interface): seq<Frame>
  {
    if |i.framesOut| <= |i'.framesOut| then i'.framesOut[|i.framesOut|..] else []
  }

  /** What a frame teaches: it is for us or for everybody, and says who has an address, as a request
      (1) for ours or as a reply (2) to us. */
  function Lesson(i: Interface, f: Frame): Option<ArpMessage>
  {
    if (f.dst == i.ethernet || f.dst == 0xFFFF_FFFF_FFFF) && f.payload.ARP? && f.payload.message.Some?
    then
      var m := f.payload.message.value;
      if (m.opcode == 1 && m.targetIp == i.ip) || (m.opcode == 2 && m.targetEthernet == i.ethernet) then Some(m) else None
    else None
  }

  function Next(w: World, step: Step): Outcome<World>
  {
    var i := w.iface;
    match step
    case Submit(p) =>
      var i' := SendDatagram(i, p);
      Done(w.(iface := i',
              submitted := w.submitted + [p],
              pushed := w.pushed + NewFrames(i, i'),
              emitted := if p.hop in i.table
                         then w.emitted + [Emission(p, i.table[p.hop].ethernet, w.clock, |w.heard|)] else w.emitted))
    case Receive(f) =>
      var i' := RecvFrame(i, f).0;
      var w' := w.(iface := i', pushed := w.pushed + NewFrames(i, i'));
      Done(match Lesson(i, f)
           case None => w'
           case Some(m) =>
             w'.(heard := w.heard + [Heard(m.senderIp, m.senderEthernet, w.clock)],
                 emitted := w.emitted
                            + Emissions(For(i.waiting, m.senderIp), m.senderEthernet, w.clock, |w.heard| + 1)))
    case Elapse(ms) =>
      (match Tick(i, ms)
       case Hang => Hang
       case Done(i') => Done(w.(iface := i', clock := w.clock + ms, pushed := w.pushed + NewFrames(i, i'))))
    case TakeFrame =>
      Done(if i.framesOut == [] then w else w.(iface := i.(framesOut := i.framesOut[1..])))
  }

  // ---------------------------------------------------------------- filtering

  lemma {:induction false} ForConcat(a: seq<Parcel>, b: seq<Parcel>, hop: U32)
    ensures For(a + b, hop) == For(a, hop) + For(b, hop)
    decreases |b|
  {
    if b == [] {
      assert a + b == a;
    } else {
      var front := b[..|b| - 1];
      assert (a + b)[..|a + b| - 1] == a + front;
      ForConcat(a, front, hop);
    }
  }

  lemma {:induction false} ForNotFor(parcels: seq<Parcel>, h: U32, hop: U32)
    ensures For(NotFor(parcels, h), hop) == if h == hop then [] else For(parcels, hop)
    decreases |parcels|
  {
    if parcels != [] {
      var front, last := parcels[..|parcels| - 1], parcels[|parcels| - 1];
      ForNotFor(front, h, hop);
      ForConcat(NotFor(front, h), [last], hop);
      assert [last][..0] == [];
    }
  }

  lemma {:induction false} ForFor(parcels: seq<Parcel>, h: U32, hop: U32)
    ensures For(For(parcels, h), hop) == if h == hop then For(parcels, hop) else []
    decreases |parcels|
  {
    if parcels != [] {
      var front, last := parcels[..|parcels| - 1], parcels[|parcels| - 1];
      ForFor(front, h, hop);
      ForConcat(For(front, h), [last], hop);
      assert [last][..0] == [];
    }
  }

  lemma {:induction false} ForMembers(parcels: seq<Parcel>, hop: U32)
    ensures forall p :: p in For(parcels, hop) <==> p in parcels && p.hop == hop
    ensures forall p :: p in NotFor(parcels, hop) <==> p in parcels && p.hop != hop
    decreases |parcels|
  {
    if parcels != [] {
      ForMembers(parcels[..|parcels| - 1], hop);
      assert parcels == parcels[..|parcels| - 1] + [parcels[|parcels| - 1]];
    }
  }

  lemma ForNone(parcels: seq<Parcel>, hop: U32)
    requires forall p :: p in parcels ==> p.hop != hop
    ensures For(parcels, hop) == []
  {
    ForMembers(parcels, hop);
    if For(parcels, hop) != [] {
      assert For(parcels, hop)[0] in For(parcels, hop);
    }
  }

  // ---------------------------------------------------------------- conservation and order

  function Parcels(emitted: seq<Emission>): seq<Parcel>
  {
    seq(|emitted|, k requires 0 <= k < |emitted| => emitted[k].parcel)
  }

  /** For each hop, what was submitted is what went out, followed by what still waits: nothing is
      lost, nothing is sent twice, nothing overtakes. */
  ghost predicate Conserved(w: World)
  {
    forall hop: U32 :: For(w.submitted, hop) == For(Parcels(w.emitted), hop) + For(w.iface.waiting, hop)
  }

  /** The hops asked for are exactly those something waits for, and none of them is known. */
  ghost predicate Queued(i: Interface)
  {
    && (forall p :: p in i.waiting ==> p.hop in i.pending)
    && (forall hop :: hop in i.pending ==> exists p :: p in i.waiting && p.hop == hop)
    && i.pending.Keys !! i.table.Keys
  }

  /** Every timer is above zero and at most five seconds. */
  ghost predicate Armed(i: Interface)
  {
    forall hop :: hop in i.pending ==> 0 < i.pending[hop] <= 5000
  }

  lemma KnownHasNoneWaiting(i: Interface, hop: U32)
    requires Queued(i) && hop in i.table
    ensures For(i.waiting, hop) == []
  {
    ForNone(i.waiting, hop);
  }

  lemma ForOne(p: Parcel, hop: U32)
    ensures For([p], hop) == if p.hop == hop then [p] else []
  {
    assert [p][..0] == [];
  }

  lemma SubmitConserves(w: World, p: Parcel)
    requires Conserved(w) && Queued(w.iface)
    ensures Conserved(Next(w, Submit(p)).value)
  {
    hide For, Queued;
    var w' := Next(w, Submit(p)).value;
    var known := p.hop in w.iface.table;
    if known {
      assert Parcels(w'.emitted) == Parcels(w.emitted) + [p];
    }
    assert w'.iface.waiting == if known then w.iface.waiting else w.iface.waiting + [p];
    forall hop: U32
      ensures For(w'.submitted, hop) == For(Parcels(w'.emitted), hop) + For(w'.iface.waiting, hop)
    {
      ForConcat(w.submitted, [p], hop);
      ForConcat(Parcels(w.emitted), [p], hop);
      ForConcat(w.iface.waiting, [p], hop);
      ForOne(p, hop);
      if known && hop == p.hop {
        KnownHasNoneWaiting(w.iface, hop);
      }
    }
  }

  lemma LearnConserves(w: World, w': World, m: ArpMessage)
    requires Conserved(w)
    requires w'.submitted == w.submitted && w'.iface.waiting == NotFor(w.iface.waiting, m.senderIp)
    requires w'.emitted == w.emitted + Emissions(For(w.iface.waiting, m.senderIp), m.senderEthernet, w.clock, |w.heard| + 1)
    ensures Conserved(w')
  {
    var flushed := For(w.iface.waiting, m.senderIp);
    assert Parcels(w'.emitted) == Parcels(w.emitted) + flushed;
    forall hop: U32
      ensures For(w'.submitted, hop) == For(Parcels(w'.emitted), hop) + For(w'.iface.waiting, hop)
    {
      ForConcat(Parcels(w.emitted), flushed, hop);
      ForFor(w.iface.waiting, m.senderIp, hop);
      ForNotFor(w.iface.waiting, m.senderIp, hop);
    }
  }

  // ---------------------------------------------------------------- freshness

  /** The latest valid message from an address. */
  function LastHeard(heard: seq<Heard>, ip: U32): Option<Heard>
  {
    if heard == [] then None
    else if heard[|heard| - 1].ip == ip then Some(heard[|heard| - 1])
    else LastHeard(heard[..|heard| - 1], ip)
  }

  /** An address is known exactly while its latest message is under thirty seconds old, and then
      by what that message said. */
  ghost predicate KnownExactly(table: map<U32, Entry>, heard: seq<Heard>, clock: nat, ip: U32)
  {
    match LastHeard(heard, ip)
    case None => ip !in table
    case Some(h) =>
      && h.time <= clock
      && (ip in table <==> clock - h.time < 30000)
      && (ip in table ==> table[ip] == Entry(h.ethernet, 30000 - (clock - h.time)))
  }

  ghost predicate TableExact(w: World)
  {
    forall ip: U32 :: KnownExactly(w.iface.table, w.heard, w.clock, ip)
  }

  /** A datagram went to the station that the latest valid message from its hop had named less
      than thirty seconds before. */
  ghost predicate Fresh(e: Emission, heard: seq<Heard>)
  {
    && e.heard <= |heard|
    && match LastHeard(heard[..e.heard], e.parcel.hop)
       case None => false
       case Some(h) => h.ethernet == e.dst && h.time <= e.time < h.time + 30000
  }

  ghost predicate AllFresh(w: World)
  {
    forall e :: e in w.emitted ==> Fresh(e, w.heard)
  }

  lemma FreshGrows(e: Emission, heard: seq<Heard>, h: Heard)
    requires Fresh(e, heard)
    ensures Fresh(e, heard + [h])
  {
    assert (heard + [h])[..e.heard] == heard[..e.heard];
  }

  lemma LastHeardAppend(heard: seq<Heard>, h: Heard, ip: U32)
    ensures LastHeard(heard + [h], ip) == if h.ip == ip then Some(h) else LastHeard(heard, ip)
  {
    assert (heard + [h])[..|heard|] == heard;
  }

  // ---------------------------------------------------------------- frames

  function DataOf(frames: seq<Frame>): seq<Frame>
  {
    if frames == [] then []
    else if frames[|frames| - 1].payload.IPv4? then DataOf(frames[..|frames| - 1]) + [frames[|frames| - 1]]
    else DataOf(frames[..|frames| - 1])
  }

  lemma {:induction false} DataOfConcat(a: seq<Frame>, b: seq<Frame>)
    ensures DataOf(a + b) == DataOf(a) + DataOf(b)
    decreases |b|
  {
    if b == [] {
      assert a + b == a;
    } else {
      assert (a + b)[..|a + b| - 1] == a + b[..|b| - 1];
      DataOfConcat(a, b[..|b| - 1]);
    }
  }

  lemma {:induction false} DataOfAll(frames: seq<Frame>)
    requires forall f :: f in frames ==> f.payload.IPv4?
    ensures DataOf(frames) == frames
    decreases |frames|
  {
    if frames != [] {
      DataOfAll(frames[..|frames| - 1]);
      assert frames == frames[..|frames| - 1] + [frames[|frames| - 1]];
    }
  }

  lemma {:induction false} DataOfNone(frames: seq<Frame>)
    requires forall f :: f in frames ==> !f.payload.IPv4?
    ensures DataOf(frames) == []
    decreases |frames|
  {
    if frames != [] {
      DataOfNone(frames[..|frames| - 1]);
    }
  }

  function FramesOf(i: Interface, emitted: seq<Emission>): seq<Frame>
  {
    seq(|emitted|, k requires 0 <= k < |emitted| =>
      Frame(emitted[k].dst, i.ethernet, IPv4(Some(emitted[k].parcel.datagram))))
  }

  /** The IPv4 frames ever pushed are the frames of the emissions, in order. */
  ghost predicate FramesMatch(w: World)
  {
    DataOf(w.pushed) == FramesOf(w.iface, w.emitted)
  }

  ghost predicate Inv(w: World)
  {
    Queued(w.iface) && Armed(w.iface) && Conserved(w) && TableExact(w) && AllFresh(w) && FramesMatch(w)
  }

  lemma NewWorldOk(ethernet: Ethernet, ip: U32)
    ensures Inv(NewWorld(ethernet, ip))
  {
    assert Parcels([]) == [];
  }

  // ---------------------------------------------------------------- submitting

  lemma SubmitQueues(i: Interface, p: Parcel)
    requires Queued(i) && Armed(i)
    ensures Queued(SendDatagram(i, p)) && Armed(SendDatagram(i, p))
  {
    var i' := SendDatagram(i, p);
    if p.hop !in i.table {
      assert i'.waiting == i.waiting + [p];
      assert p in i'.waiting;
      forall hop | hop in i'.pending
        ensures exists q :: q in i'.waiting && q.hop == hop
      {
        if hop != p.hop {
          var q :| q in i.waiting && q.hop == hop;
          assert q in i'.waiting;
        }
      }
    }
  }

  lemma SubmitFrames(w: World, p: Parcel)
    requires FramesMatch(w)
    ensures FramesMatch(Next(w, Submit(p)).value)
  {
    hide DataOf;
    var i := w.iface;
    var w' := Next(w, Submit(p)).value;
    var added := NewFrames(i, w'.iface);
    DataOfConcat(w.pushed, added);
    if p.hop in i.table {
      assert added == [DataFrame(i, i.table[p.hop].ethernet, p.datagram)];
      DataOfAll(added);
      assert FramesOf(w'.iface, w'.emitted) == FramesOf(i, w.emitted) + added;
    } else {
      assert added == [] || added == [Request(i, p.hop)];
      DataOfNone(added);
      assert FramesOf(w'.iface, w'.emitted) == FramesOf(i, w.emitted);
    }
  }

  lemma SubmitKeeps(w: World, p: Parcel)
    requires Inv(w)
    ensures Inv(Next(w, Submit(p)).value)
  {
    hide Queued, Armed, Conserved, FramesMatch;
    var w' := Next(w, Submit(p)).value;
    SubmitQueues(w.iface, p);
    SubmitConserves(w, p);
    SubmitFrames(w, p);
    assert TableExact(w') by { assert w'.iface.table == w.iface.table; }
    if p.hop in w.iface.table {
      assert KnownExactly(w.iface.table, w.heard, w.clock, p.hop);
      assert w.heard[..|w.heard|] == w.heard;
    }
  }

  // ---------------------------------------------------------------- receiving

  lemma LearnQueues(i: Interface, m: ArpMessage)
    requires Queued(i) && Armed(i)
    ensures Queued(Learn(i, m)) && Armed(Learn(i, m))
  {
    ForMembers(i.waiting, m.senderIp);
    var i' := Learn(i, m);
    forall hop | hop in i'.pending
      ensures exists q :: q in i'.waiting && q.hop == hop
    {
      var q :| q in i.waiting && q.hop == hop;
      assert q in i'.waiting;
    }
  }

  lemma LearnTable(w: World, m: ArpMessage)
    requires TableExact(w)
    ensures
      var table := w.iface.table[m.senderIp := Entry(m.senderEthernet, ENTRY_TTL)];
      var heard := w.heard + [Heard(m.senderIp, m.senderEthernet, w.clock)];
      forall ip: U32 :: KnownExactly(table, heard, w.clock, ip)
  {
    var h := Heard(m.senderIp, m.senderEthernet, w.clock);
    var table := w.iface.table[m.senderIp := Entry(m.senderEthernet, ENTRY_TTL)];
    forall ip: U32
      ensures KnownExactly(table, w.heard + [h], w.clock, ip)
    {
      LastHeardAppend(w.heard, h, ip);
      assert KnownExactly(w.iface.table, w.heard, w.clock, ip);
    }
  }

  lemma LearnFresh(w: World, m: ArpMessage)
    requires AllFresh(w)
    ensures
      var heard := w.heard + [Heard(m.senderIp, m.senderEthernet, w.clock)];
      var flushed := Emissions(For(w.iface.waiting, m.senderIp), m.senderEthernet, w.clock, |w.heard| + 1);
      forall e :: e in w.emitted + flushed ==> Fresh(e, heard)
  {
    var h := Heard(m.senderIp, m.senderEthernet, w.clock);
    var heard := w.heard + [h];
    var flushed := Emissions(For(w.iface.waiting, m.senderIp), m.senderEthernet, w.clock, |w.heard| + 1);
    ForMembers(w.iface.waiting, m.senderIp);
    forall e | e in w.emitted + flushed
      ensures Fresh(e, heard)
    {
      if e in w.emitted {
        FreshGrows(e, w.heard, h);
      } else {
        var k :| 0 <= k < |flushed| && flushed[k] == e;
        assert e.parcel in For(w.iface.waiting, m.senderIp);
        assert heard[..e.heard] == heard;
      }
    }
  }

  lemma HearFrames(i: Interface, m: ArpMessage)
    requires Valid(i, m)
    ensures
      var i' := HearArp(i, m);
      && i.framesOut <= i'.framesOut
      && DataOf(NewFrames(i, i')) == DataFrames(i, m.senderEthernet, For(i.waiting, m.senderIp))
  {
    hide For, NotFor, DataOf;
    var data := DataFrames(i, m.senderEthernet, For(i.waiting, m.senderIp));
    var i' := HearArp(i, m);
    var added := NewFrames(i, i');
    DataOfAll(data);
    if m.opcode == OPCODE_REQUEST && m.targetIp == i.ip {
      var i1 := i.(framesOut := i.framesOut + [Reply(i, m)]);
      assert DataFrames(i1, m.senderEthernet, For(i.waiting, m.senderIp)) == data;
      assert added == [Reply(i, m)] + data;
      DataOfConcat([Reply(i, m)], data);
      DataOfNone([Reply(i, m)]);
    } else {
      assert added == data;
    }
  }

  /** What a valid message changes, whether or not a reply is due. */
  lemma HearIs(i: Interface, m: ArpMessage)
    requires Valid(i, m)
    ensures HearArp(i, m) == Learn(i, m).(framesOut := HearArp(i, m).framesOut)
  {
  }

  lemma LessonKeeps(w: World, f: Frame)
    requires Inv(w) && Lesson(w.iface, f).Some?
    ensures Inv(Next(w, Receive(f)).value)
  {
    hide Queued, Armed, Conserved, TableExact, AllFresh, For, NotFor, DataOf;
    var i, m := w.iface, Lesson(w.iface, f).value;
    var w' := Next(w, Receive(f)).value;
    HearIs(i, m);
    LearnQueues(i, m);
    assert Queued(w'.iface) && Armed(w'.iface) by { hide *; SameQueues(Learn(i, m), w'.iface); }
    LearnConserves(w, w', m);
    LearnTable(w, m);
    assert TableExact(w') by { hide *; TableIs(w'); }
    LearnFresh(w, m);
    assert AllFresh(w') by { hide *; FreshIs(w'); }
    HearFrames(i, m);
    DataOfConcat(w.pushed, NewFrames(i, w'.iface));
    var flushed := For(i.waiting, m.senderIp);
    assert FramesOf(w'.iface, w'.emitted) == FramesOf(i, w.emitted) + DataFrames(i, m.senderEthernet, flushed);
  }

  lemma SameQueues(i: Interface, i': Interface)
    requires Queued(i) && Armed(i) && i' == i.(framesOut := i'.framesOut)
    ensures Queued(i') && Armed(i')
  {
  }

  lemma TableIs(w: World)
    requires forall ip: U32 :: KnownExactly(w.iface.table, w.heard, w.clock, ip)
    ensures TableExact(w)
  {
  }

  lemma FreshIs(w: World)
    requires forall e :: e in w.emitted ==> Fresh(e, w.heard)
    ensures AllFresh(w)
  {
  }

  lemma NoLessonKeeps(w: World, f: Frame)
    requires Inv(w) && Lesson(w.iface, f).None?
    ensures Inv(Next(w, Receive(f)).value)
  {
    assert RecvFrame(w.iface, f).0 == w.iface;
    assert w.pushed + NewFrames(w.iface, w.iface) == w.pushed;
    assert Next(w, Receive(f)).value == w;
  }

  // ---------------------------------------------------------------- ticking

  lemma TickQueues(i: Interface, ms: nat)
    requires Queued(i) && Armed(i) && Tick(i, ms).Done?
    ensures Queued(Tick(i, ms).value) && Armed(Tick(i, ms).value)
  {
    var i' := Tick(i, ms).value;
    assert i'.pending.Keys == i.pending.Keys && i'.waiting == i.waiting;
    assert i'.table.Keys <= i.table.Keys;
    forall hop | hop in i'.pending
      ensures 0 < i'.pending[hop] <= REQUEST_TTL
    {
      assert hop in i.pending;
    }
  }

  lemma TickTable(w: World, ms: nat, later: nat)
    requires TableExact(w) && later == w.clock + ms
    ensures forall ip: U32 :: KnownExactly(Aged(w.iface.table, ms), w.heard, later, ip)
  {
    forall ip: U32
      ensures KnownExactly(Aged(w.iface.table, ms), w.heard, later, ip)
    {
      assert KnownExactly(w.iface.table, w.heard, w.clock, ip);
    }
  }

  lemma TickKeeps(w: World, ms: nat)
    requires Inv(w) && Tick(w.iface, ms).Done?
    ensures Inv(Next(w, Elapse(ms)).value)
  {
    hide Queued, Armed, Conserved, TableExact, AllFresh, For, DataOf, Ascending, Expired;
    var i := w.iface;
    var w' := Next(w, Elapse(ms)).value;
    TickQueues(i, ms);
    TickTable(w, ms, w.clock + ms);
    assert TableExact(w') by { hide *; TableIs(w'); }
    assert Conserved(w') by { hide *; SameHistory(w, w'); }
    assert AllFresh(w') by { hide *; SameHistory(w, w'); }
    var added := NewFrames(i, w'.iface);
    assert added == Requests(i, Expired(i.pending, Ascending(i.pending.Keys), ms));
    DataOfNone(added);
    DataOfConcat(w.pushed, added);
    assert FramesOf(w'.iface, w'.emitted) == FramesOf(i, w.emitted);
  }

  lemma SameHistory(w: World, w': World)
    requires Conserved(w) && AllFresh(w)
    requires w'.submitted == w.submitted && w'.emitted == w.emitted && w'.heard == w.heard
    requires w'.iface.waiting == w.iface.waiting
    ensures Conserved(w') && AllFresh(w')
  {
  }

  // ---------------------------------------------------------------- runs

  /** Every step that returns keeps the invariant. */
  lemma NextKeeps(w: World, step: Step)
    requires Inv(w)
    ensures Next(w, step).Done? ==> Inv(Next(w, step).value)
  {
    hide Inv, SendDatagram, RecvFrame, Tick;
    match step {
      case Submit(p) => SubmitKeeps(w, p);
      case Receive(f) =>
        if Lesson(w.iface, f).Some? { LessonKeeps(w, f); } else { NoLessonKeeps(w, f); }
      case Elapse(ms) => if Tick(w.iface, ms).Done? { TickKeeps(w, ms); }
      case TakeFrame =>
        if w.iface.framesOut != [] {
          assert Inv(Next(w, TakeFrame).value) by { hide *; TakeKeeps(w); }
        }
    }
  }

  lemma TakeKeeps(w: World)
    requires Inv(w) && w.iface.framesOut != []
    ensures Inv(w.(iface := w.iface.(framesOut := w.iface.framesOut[1..])))
    ensures Next(w, TakeFrame) == Done(w.(iface := w.iface.(framesOut := w.iface.framesOut[1..])))
  {
    hide For, DataOf;
    var w' := w.(iface := w.iface.(framesOut := w.iface.framesOut[1..]));
    assert FramesOf(w'.iface, w'.emitted) == FramesOf(w.iface, w.emitted);
  }

  function Run(w: World, steps: seq<Step>): Outcome<World>
    decreases |steps|
  {
    if steps == [] then Done(w)
    else if Next(w, steps[0]).Hang? then Hang
    else Run(Next(w, steps[0]).value, steps[1..])
  }

  lemma {:induction false} RunKeeps(w: World, steps: seq<Step>)
    requires Inv(w)
    ensures Run(w, steps).Done? ==> Inv(Run(w, steps).value)
    decreases |steps|
  {
    hide Inv, Next;
    if steps != [] && Next(w, steps[0]).Done? {
      NextKeeps(w, steps[0]);
      RunKeeps(Next(w, steps[0]).value, steps[1..]);
    }
  }

  /** Over every run that returns: nothing is lost, repeated or overtaken on the way to a hop; each
      datagram went to the station its hop had last named, under thirty seconds before; and the
      requests that are out are exactly those that something waits for. */
  lemma AlwaysInOrderAndFresh(ethernet: Ethernet, ip: U32, steps: seq<Step>)
    ensures Run(NewWorld(ethernet, ip), steps).Done? ==> Inv(Run(NewWorld(ethernet, ip), steps).value)
  {
    hide Inv;
    NewWorldOk(ethernet, ip);
    RunKeeps(NewWorld(ethernet, ip), steps);
  }

  /** On any reachable interface a tick hangs exactly when five seconds or more have passed and
      some request is out. */
  lemma TickHangsIff(i: Interface, ms: nat)
    requires Armed(i)
    ensures Tick(i, ms).Hang? <==> ms >= 5000 && i.pending != map[]
  {
    if i.pending != map[] {
      var hop :| hop in i.pending;
      assert i.pending[hop] <= REQUEST_TTL;
    }
  }

  /** With ticks under five seconds every run returns. */
  lemma {:induction false} RunReturns(w: World, steps: seq<Step>)
    requires Inv(w) && forall k :: 0 <= k < |steps| && steps[k].Elapse? ==> steps[k].ms < 5000
    ensures Run(w, steps).Done?
    decreases |steps|
  {
    hide Inv, SendDatagram, RecvFrame;
    if steps != [] {
      NextKeeps(w, steps[0]);
      RunReturns(Next(w, steps[0]).value, steps[1..]);
    }
  }

  /** No step lets five seconds or more pass while a request is out. */
  ghost predicate Unhurried(w: World, steps: seq<Step>)
    decreases |steps|
  {
    steps != [] ==>
      && !(steps[0].Elapse? && steps[0].ms >= 5000 && w.iface.pending != map[])
      && (Next(w, steps[0]).Done? ==> Unhurried(Next(w, steps[0]).value, steps[1..]))
  }

  /** Exactly when a run returns. */
  lemma {:induction false} RunReturnsIff(w: World, steps: seq<Step>)
    requires Inv(w)
    ensures Run(w, steps).Done? <==> Unhurried(w, steps)
    decreases |steps|
  {
    hide SendDatagram, RecvFrame, Tick, Queued, Conserved, TableExact, AllFresh, FramesMatch;
    if steps != [] {
      if steps[0].Elapse? {
        TickHangsIff(w.iface, steps[0].ms);
      }
      if Next(w, steps[0]).Done? {
        NextKeeps(w, steps[0]);
        RunReturnsIff(Next(w, steps[0]).value, steps[1..]);
      }
    }
  }

  /** One datagram for an unknown hop, and five seconds without a tick. */
  lemma FiveSecondsHang(ethernet: Ethernet, ip: U32, p: Parcel)
    ensures Run(NewWorld(ethernet, ip), [Submit(p), Elapse(5000)]).Hang?
  {
    var w := NewWorld(ethernet, ip);
    var w1 := Next(w, Submit(p)).value;
    assert p.hop in w1.iface.pending && w1.iface.pending[p.hop] == REQUEST_TTL;
    assert Next(w1, Elapse(5000)).Hang?;
    assert [Submit(p), Elapse(5000)][1..] == [Elapse(5000)];
    assert Run(w1, [Elapse(5000)]).Hang?;
  }
}
