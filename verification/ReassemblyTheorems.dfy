/** What the reassembler promises when everything pushed is a true slice of one stream. */
module ReassemblyTheorems {
  import opened Basics
  import opened ByteStreams
  import opened Reassembly

  ghost predicate Sorted(store: Store)
  {
    forall i, j :: 0 <= i < j < |store| ==> store[i].index <= store[j].index
  }

  /** `d` is what the stream `whole` has at its place, and claims the end only at the end. */
  ghost predicate Slice(whole: Bytes, d: Datagram)
  {
    && d.Tail() <= |whole|
    && d.data == whole[d.index..d.Tail()]
    && (d.eof ==> d.Tail() == |whole|)
  }

  /** Carries nothing and claims nothing. */
  ghost predicate Harmless(d: Datagram)
  {
    d.data == [] && !d.eof
  }

  /** Harmless, or a true slice that ends within the room. */
  ghost predicate Good(whole: Bytes, edge: nat, d: Datagram)
  {
    Harmless(d) || (Slice(whole, d) && d.Tail() <= edge)
  }

  ghost predicate Holds(d: Datagram, i: nat)
  {
    d.index <= i < d.Tail()
  }

  ghost predicate Stored(store: Store, i: nat)
  {
    exists d :: d in store && Holds(d, i)
  }

  // ---------------------------------------------------------------- the scan

  lemma {:induction false} ScanShape(store: Store, dg: Datagram)
    requires Sorted(store)
    ensures
      match Scan(store, dg)
      case Stuck => true
      case Dropped(kept) => Sorted(kept) && forall e :: e in kept ==> e in store
      case Placed(kept, d) => Sorted(kept) && (forall e :: e in kept ==> e in store) && d.index == dg.index
    decreases |store|
  {
    if store != [] {
      var p := store[0];
      ScanShape(store[1..], dg);
      if dg.index < p.index < dg.Tail() < p.Tail() {
        ScanShape(store[1..], Merge(dg, p));
      }
      match Scan(store[1..], dg) {
        case Stuck =>
        case Dropped(kept) => SortedCons(p, kept);
        case Placed(kept, _) => SortedCons(p, kept);
      }
    }
  }

  /** What is placed is again a true slice, and reaches no farther than the farthest before. */
  lemma {:induction false} ScanSlices(whole: Bytes, edge: nat, store: Store, dg: Datagram)
    requires Good(whole, edge, dg)
    requires forall e :: e in store ==> Good(whole, edge, e)
    ensures
      match Scan(store, dg)
      case Placed(_, d) => Good(whole, edge, d) && (dg.eof ==> d == dg)
      case _ => true
    decreases |store|
  {
    if store != [] {
      var p := store[0];
      assert p in store;
      ScanSlices(whole, edge, store[1..], dg);
      if dg.index < p.index < dg.Tail() < p.Tail() {
        MergeSlices(whole, dg, p);
        ScanSlices(whole, edge, store[1..], Merge(dg, p));
      }
    }
  }

  lemma MergeSlices(whole: Bytes, dg: Datagram, p: Datagram)
    requires Slice(whole, dg) && Slice(whole, p)
    requires dg.index < p.index < dg.Tail() < p.Tail()
    ensures Slice(whole, Merge(dg, p)) && Merge(dg, p).Tail() == p.Tail() && !dg.eof
  {
    assert p.data[dg.Tail() - p.index..] == whole[dg.Tail()..p.Tail()];
    assert whole[dg.index..dg.Tail()] + whole[dg.Tail()..p.Tail()] == whole[dg.index..p.Tail()];
  }

  /** The scan neither loses nor invents a byte position. */
  lemma {:induction false} ScanCovers(store: Store, dg: Datagram, i: nat)
    ensures
      match Scan(store, dg)
      case Stuck => true
      case Dropped(kept) => Stored(kept, i) <==> Stored(store, i) || Holds(dg, i)
      case Placed(kept, d) => Stored(kept, i) || Holds(d, i) <==> Stored(store, i) || Holds(dg, i)
    decreases |store|
  {
    if store != [] {
      var p := store[0];
      StoredCons(p, store[1..], i);
      assert store == [p] + store[1..];
      ScanCovers(store[1..], dg, i);
      if dg.index < p.index < dg.Tail() < p.Tail() {
        ScanCovers(store[1..], Merge(dg, p), i);
      }
      match Scan(store[1..], dg) {
        case Stuck =>
        case Dropped(kept) => StoredCons(p, kept, i);
        case Placed(kept, _) => StoredCons(p, kept, i);
      }
    }
  }

  lemma StoredCons(p: Datagram, store: Store, i: nat)
    ensures Stored([p] + store, i) <==> Holds(p, i) || Stored(store, i)
  {
    if Holds(p, i) {
      assert p in [p] + store;
    }
    if Stored(store, i) {
      var d :| d in store && Holds(d, i);
      assert d in [p] + store;
    }
  }

  /** The count of waiting bytes is zero exactly when no byte waits. */
  lemma {:induction false} StoredBytesIff(store: Store)
    ensures StoredBytes(store) > 0 <==> exists i: nat :: Stored(store, i)
    decreases |store|
  {
    if store != [] {
      var p := store[0];
      assert store == [p] + store[1..];
      StoredBytesIff(store[1..]);
      if p.data != [] {
        StoredCons(p, store[1..], p.index);
      } else if i: nat :| Stored(store, i) {
        StoredCons(p, store[1..], i);
      }
      if i: nat :| Stored(store[1..], i) {
        StoredCons(p, store[1..], i);
      }
    }
  }

  // ---------------------------------------------------------------- insertion

  lemma {:induction false} InsertMembers(dg: Datagram, store: Store)
    ensures forall e :: e in InsertOrdered(dg, store) <==> e == dg || e in store
    decreases |store|
  {
    if store != [] {
      assert store == [store[0]] + store[1..];
      InsertMembers(dg, store[1..]);
    }
  }

  lemma {:induction false} InsertSorted(dg: Datagram, store: Store)
    requires Sorted(store)
    ensures Sorted(InsertOrdered(dg, store))
    decreases |store|
  {
    if store != [] && dg.index > store[0].index {
      InsertSorted(dg, store[1..]);
      InsertMembers(dg, store[1..]);
      SortedCons(store[0], InsertOrdered(dg, store[1..]));
    }
  }

  lemma SortedCons(p: Datagram, store: Store)
    requires Sorted(store) && forall e :: e in store ==> p.index <= e.index
    ensures Sorted([p] + store)
  {
    forall i, j | 0 <= i < j < |[p] + store|
      ensures ([p] + store)[i].index <= ([p] + store)[j].index
    {
      assert ([p] + store)[j] == store[j - 1];
      assert store[j - 1] in store;
    }
  }

  // ---------------------------------------------------------------- one push

  /** The index one past the last byte there is room for. */
  function Edge(r: Reassembler): nat
  {
    r.out.read + r.out.capacity
  }

  ghost predicate Inv(whole: Bytes, r: Reassembler)
  {
    && r.out.Valid()
    && r.next == |r.out.written| <= |whole|
    && r.out.written == whole[..r.next]
    && (r.out.ended ==> r.next == |whole|)
    && Sorted(r.store)
    && (forall d :: d in r.store ==> Good(whole, Edge(r), d))
    && (r.store != [] ==> r.smallest <= r.store[0].index)
  }

  lemma MissingMiddleKeeps(whole: Bytes, r: Reassembler, dg: Datagram)
    requires Inv(whole, r) && Good(whole, Edge(r), dg)
    ensures
      var o := MissingMiddle(r, dg);
      o.Done? ==> Inv(whole, o.value) && forall d :: d in o.value.store ==> d in r.store || d.index == dg.index
  {
    ScanShape(r.store, dg);
    ScanSlices(whole, Edge(r), r.store, dg);
    match Scan(r.store, dg) {
      case Stuck =>
      case Dropped(kept) =>
        if kept != [] {
          assert kept[0] in r.store;
        }
      case Placed(kept, d) =>
        InsertMembers(d, kept);
        InsertSorted(d, kept);
    }
  }

  lemma AbsorbKeeps(whole: Bytes, r: Reassembler, dg: Datagram)
    requires Inv(whole, r) && Good(whole, Edge(r), dg) && dg.index <= r.next
    ensures Inv(whole, Absorb(r, dg)) && Absorb(r, dg).next == Max(r.next, dg.Tail()) && !Exceeded(r, dg)
  {
    if dg.Tail() > r.next {
      assert dg.data[r.next - dg.index..] == whole[r.next..dg.Tail()];
      assert whole[..r.next] + whole[r.next..dg.Tail()] == whole[..dg.Tail()];
    } else if dg.index == r.next {
      assert dg.data == [];
    }
  }

  lemma PoppedKeeps(whole: Bytes, r: Reassembler)
    requires Inv(whole, r) && r.store != []
    ensures Inv(whole, r.(store := r.store[1..]))
    ensures Good(whole, Edge(r), r.store[0])
  {
    assert r.store[0] in r.store;
  }

  /** Safety with arbitrary overlaps: a completed push of a true slice that ends within the room,
      or of an empty substring anywhere, leaves the output a prefix of the stream, counts exactly
      what was written, keeps only true slices, and ends the input only when the whole stream is
      out. */
  lemma {:induction false} PushKeeps(whole: Bytes, r: Reassembler, dg: Datagram)
    requires Inv(whole, r) && Good(whole, Edge(r), dg)
    ensures Push(r, dg).Done? ==> Inv(whole, Push(r, dg).value)
    decreases |r.store|
  {
    if r.out.Remaining() == 0 || dg.index >= r.Limit() {
    } else if dg.index > r.next {
      MissingMiddleKeeps(whole, r, dg);
    } else {
      var r1 := Absorb(r, dg);
      AbsorbKeeps(whole, r, dg);
      if r1.next >= r1.smallest && dg.data != [] && r1.store != [] {
        PoppedKeeps(whole, r1);
        PushKeeps(whole, r1.(store := r1.store[1..]), r1.store[0]);
      }
    }
  }

  // ---------------------------------------------------------------- draining

  /** Nothing in the store can be written now. */
  ghost predicate Drained(r: Reassembler)
  {
    forall d :: d in r.store ==> r.next < d.index || d.Tail() <= r.next
  }

  /** No end of stream is left waiting in the store once its bytes are out. */
  ghost predicate EndSeen(r: Reassembler)
  {
    forall d :: d in r.store && d.eof && d.Tail() <= r.next ==> r.out.ended
  }

  /** Carries a byte, or marks the end. */
  ghost predicate Useful(d: Datagram)
  {
    d.data != [] || d.eof
  }

  /** Leaves room for the end marker too. */
  ghost predicate EndFits(edge: nat, d: Datagram)
  {
    d.eof ==> d.Tail() < edge
  }

  ghost predicate Leads(dg: Datagram, store: Store)
  {
    forall d :: d in store ==> dg.index <= d.index
  }

  lemma FrontLeads(store: Store)
    requires Sorted(store) && store != []
    ensures Leads(store[0], store[1..])
  {
  }

  lemma MissingMiddleMembers(whole: Bytes, r: Reassembler, dg: Datagram)
    requires Inv(whole, r) && Good(whole, Edge(r), dg)
    requires MissingMiddle(r, dg).Done?
    ensures
      forall d :: d in MissingMiddle(r, dg).value.store ==>
        d in r.store || (d.index == dg.index && (d.eof ==> d == dg) && (Useful(dg) ==> Useful(d)))
    ensures MissingMiddle(r, dg).value.out == r.out && MissingMiddle(r, dg).value.next == r.next
  {
    ScanShape(r.store, dg);
    ScanSlices(whole, Edge(r), r.store, dg);
    ScanGrows(r.store, dg);
    match Scan(r.store, dg) {
      case Stuck =>
      case Dropped(kept) =>
      case Placed(kept, d) => InsertMembers(d, kept);
    }
  }

  lemma {:induction false} ScanGrows(store: Store, dg: Datagram)
    ensures
      match Scan(store, dg)
      case Placed(_, d) => |dg.data| <= |d.data| && d.eof == dg.eof
      case _ => true
    decreases |store|
  {
    if store != [] {
      ScanGrows(store[1..], dg);
      if dg.index < store[0].index < dg.Tail() < store[0].Tail() {
        ScanGrows(store[1..], Merge(dg, store[0]));
      }
    }
  }

  /** A completed push leaves nothing in the store that could be written, although `smallest`
      may be out of date. */
  lemma {:induction false} PushDrains(whole: Bytes, r: Reassembler, dg: Datagram)
    requires Inv(whole, r) && Slice(whole, dg) && dg.Tail() <= Edge(r)
    requires Useful(dg) && forall d :: d in r.store ==> Useful(d)
    requires Drained(r) || Leads(dg, r.store)
    ensures Push(r, dg).Done? ==>
      Drained(Push(r, dg).value) && forall d :: d in Push(r, dg).value.store ==> Useful(d)
    decreases |r.store|
  {
    if r.out.Remaining() == 0 || dg.index >= r.Limit() {
    } else if dg.index > r.next {
      if MissingMiddle(r, dg).Done? {
        MissingMiddleMembers(whole, r, dg);
      }
    } else {
      var r1 := Absorb(r, dg);
      AbsorbKeeps(whole, r, dg);
      if r1.next >= r1.smallest && dg.data != [] && r1.store != [] {
        PoppedKeeps(whole, r1);
        FrontLeads(r1.store);
        assert Useful(r1.store[0]);
        PushDrains(whole, r1.(store := r1.store[1..]), r1.store[0]);
      }
    }
  }

  /** The popped front is fed back into a state with the same room. */
  ghost predicate Pops(r: Reassembler, dg: Datagram)
    requires r.out.Valid()
  {
    && r.out.Remaining() > 0 && dg.index <= r.next
    && Absorb(r, dg).next >= r.smallest && dg.data != [] && r.store != []
  }

  /** A push that feeds nothing back: the end of stream is announced or still ahead. */
  lemma LastPushEnds(whole: Bytes, r: Reassembler, dg: Datagram)
    requires Inv(whole, r) && Slice(whole, dg) && dg.Tail() <= Edge(r) && Useful(dg)
    requires EndFits(Edge(r), dg) && forall d :: d in r.store ==> EndFits(Edge(r), d)
    requires EndSeen(r) || Leads(dg, r.store)
    requires !Pops(r, dg) && Push(r, dg).Done?
    ensures EndSeen(Push(r, dg).value)
    ensures forall d :: d in Push(r, dg).value.store ==> EndFits(Edge(r), d)
  {
    if r.out.Remaining() == 0 || dg.index >= r.Limit() {
    } else if dg.index > r.next {
      MissingMiddleMembers(whole, r, dg);
    } else {
      AbsorbKeeps(whole, r, dg);
    }
  }

  /** When every end marker fits, a completed push never leaves a reached end unannounced. */
  lemma {:induction false} PushEnds(whole: Bytes, r: Reassembler, dg: Datagram)
    requires Inv(whole, r) && Slice(whole, dg) && dg.Tail() <= Edge(r)
    requires Useful(dg) && forall d :: d in r.store ==> Useful(d)
    requires EndFits(Edge(r), dg) && forall d :: d in r.store ==> EndFits(Edge(r), d)
    requires EndSeen(r) || Leads(dg, r.store)
    requires Push(r, dg).Done?
    ensures EndSeen(Push(r, dg).value)
    ensures forall d :: d in Push(r, dg).value.store ==> EndFits(Edge(r), d)
    decreases |r.store|
  {
    hide Slice, MissingMiddle, Absorb;
    if Pops(r, dg) {
      var r1 := Absorb(r, dg);
      AbsorbKeeps(whole, r, dg);
      PoppedKeeps(whole, r1);
      FrontLeads(r1.store);
      assert Useful(r1.store[0]) && EndFits(Edge(r), r1.store[0]);
      PushEnds(whole, r1.(store := r1.store[1..]), r1.store[0]);
    } else {
      LastPushEnds(whole, r, dg);
    }
  }

  /** An end marker that is reached and has room is announced at once. */
  lemma PushAnnounces(whole: Bytes, r: Reassembler, dg: Datagram)
    requires Inv(whole, r) && Slice(whole, dg) && dg.Tail() <= Edge(r)
    requires dg.eof && dg.index <= r.next && r.out.Remaining() > 0
    ensures Push(r, dg).Done? ==> Push(r, dg).value.out.ended
  {
    AbsorbKeeps(whole, r, dg);
  }

  // ---------------------------------------------------------------- coverage

  /** Byte `i` has been written or is waiting. */
  ghost predicate Covers(r: Reassembler, i: nat)
  {
    i < r.next || Stored(r.store, i)
  }

  lemma MissingMiddleCovers(r: Reassembler, dg: Datagram, i: nat)
    requires MissingMiddle(r, dg).Done?
    ensures Covers(MissingMiddle(r, dg).value, i) <==> Covers(r, i) || Holds(dg, i)
  {
    ScanCovers(r.store, dg, i);
    match Scan(r.store, dg) {
      case Stuck =>
      case Dropped(kept) =>
      case Placed(kept, d) =>
        InsertMembers(d, kept);
        assert Stored(InsertOrdered(d, kept), i) <==> Holds(d, i) || Stored(kept, i);
    }
  }

  /** A completed push adds exactly the pushed positions to what is written or waiting: nothing
      that fits is ever lost, whatever overlaps, merges and replacements take place. */
  lemma {:induction false} PushCovers(whole: Bytes, r: Reassembler, dg: Datagram, i: nat)
    requires Inv(whole, r) && Good(whole, Edge(r), dg)
    ensures Push(r, dg).Done? ==> (Covers(Push(r, dg).value, i) <==> Covers(r, i) || Holds(dg, i))
    decreases |r.store|
  {
    if r.out.Remaining() == 0 || dg.index >= r.Limit() {
    } else if dg.index > r.next {
      if MissingMiddle(r, dg).Done? {
        MissingMiddleCovers(r, dg, i);
      }
    } else {
      var r1 := Absorb(r, dg);
      AbsorbKeeps(whole, r, dg);
      if r1.next >= r1.smallest && dg.data != [] && r1.store != [] {
        PoppedKeeps(whole, r1);
        StoredCons(r1.store[0], r1.store[1..], i);
        assert r1.store == [r1.store[0]] + r1.store[1..];
        PushCovers(whole, r1.(store := r1.store[1..]), r1.store[0], i);
      }
    }
  }

  // ---------------------------------------------------------------- whole runs

  datatype Op = PushOp(dg: Datagram) | ReadOp(len: nat)

  function Apply(r: Reassembler, op: Op): (o: Outcome<Reassembler>)
    requires r.out.Valid()
    ensures o.Done? ==> o.value.out.Valid()
  {
    match op
    case PushOp(dg) => Push(r, dg)
    case ReadOp(len) => Done(Read(r, len))
  }

  function Run(r: Reassembler, ops: seq<Op>): Outcome<Reassembler>
    requires r.out.Valid()
    decreases |ops|
  {
    if ops == [] then Done(r)
    else if Apply(r, ops[0]).Hang? then Hang
    else Run(Apply(r, ops[0]).value, ops[1..])
  }

  /** Every push of the run is a useful true slice that ends within the room at that moment. */
  ghost predicate Admissible(whole: Bytes, r: Reassembler, ops: seq<Op>)
    requires r.out.Valid()
    decreases |ops|
  {
    ops != [] ==>
      && (ops[0].PushOp? ==> Slice(whole, ops[0].dg) && Useful(ops[0].dg) && ops[0].dg.Tail() <= Edge(r))
      && (Apply(r, ops[0]).Done? ==> Admissible(whole, Apply(r, ops[0]).value, ops[1..]))
  }

  ghost predicate Pushed(ops: seq<Op>, i: nat)
  {
    exists k :: 0 <= k < |ops| && ops[k].PushOp? && Holds(ops[k].dg, i)
  }

  lemma PushedCons(op: Op, ops: seq<Op>, i: nat)
    ensures Pushed([op] + ops, i) <==> (op.PushOp? && Holds(op.dg, i)) || Pushed(ops, i)
  {
    var all := [op] + ops;
    if op.PushOp? && Holds(op.dg, i) {
      assert all[0] == op;
    }
    if Pushed(ops, i) {
      var k :| 0 <= k < |ops| && ops[k].PushOp? && Holds(ops[k].dg, i);
      assert all[k + 1] == ops[k];
    }
    if Pushed(all, i) {
      var k :| 0 <= k < |all| && all[k].PushOp? && Holds(all[k].dg, i);
      assert k > 0 ==> ops[k - 1] == all[k];
    }
  }

  ghost predicate Settled(whole: Bytes, r: Reassembler)
  {
    Inv(whole, r) && Drained(r) && forall d :: d in r.store ==> Useful(d)
  }

  lemma ApplyKeeps(whole: Bytes, r: Reassembler, op: Op)
    requires Settled(whole, r)
    requires op.PushOp? ==> Slice(whole, op.dg) && Useful(op.dg) && op.dg.Tail() <= Edge(r)
    requires Apply(r, op).Done?
    ensures Settled(whole, Apply(r, op).value)
    ensures forall i :: Covers(Apply(r, op).value, i) <==> Covers(r, i) || (op.PushOp? && Holds(op.dg, i))
  {
    match op {
      case PushOp(dg) =>
        PushKeeps(whole, r, dg);
        PushDrains(whole, r, dg);
        forall i: nat
          ensures Covers(Apply(r, op).value, i) <==> Covers(r, i) || Holds(dg, i)
        {
          PushCovers(whole, r, dg, i);
        }
      case ReadOp(_) =>
    }
  }

  lemma {:induction false} RunKeeps(whole: Bytes, r: Reassembler, ops: seq<Op>, i: nat)
    requires Settled(whole, r) && Admissible(whole, r, ops) && Run(r, ops).Done?
    ensures Settled(whole, Run(r, ops).value)
    ensures Covers(Run(r, ops).value, i) <==> Covers(r, i) || Pushed(ops, i)
    decreases |ops|
  {
    if ops != [] {
      ApplyKeeps(whole, r, ops[0]);
      RunKeeps(whole, Apply(r, ops[0]).value, ops[1..], i);
      PushedCons(ops[0], ops[1..], i);
      assert ops == [ops[0]] + ops[1..];
    }
  }

  /** Over every completed run, whatever the order, repetition and overlap of the pushes, the
      output is exactly the longest prefix of the stream all of whose bytes have been pushed. */
  lemma ReassembledExactly(whole: Bytes, capacity: nat, ops: seq<Op>)
    requires Admissible(whole, NewReassembler(capacity), ops)
    requires Run(NewReassembler(capacity), ops).Done?
    ensures
      var out := Run(NewReassembler(capacity), ops).value.out;
      && out.written <= whole
      && (forall i :: 0 <= i < |out.written| ==> Pushed(ops, i))
      && !Pushed(ops, |out.written|)
      && (out.ended ==> out.written == whole)
  {
    var r0 := NewReassembler(capacity);
    var r := Run(r0, ops).value;
    RunKeeps(whole, r0, ops, r.next);
    assert !Covers(r, r.next);
    forall i | 0 <= i < |r.out.written|
      ensures Pushed(ops, i)
    {
      RunKeeps(whole, r0, ops, i);
      assert !Covers(r0, i);
    }
  }
}
