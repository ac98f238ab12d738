/** Exactly when a push loses the end marker of the stream. */
module ReassemblyEnds {
  import opened Basics
  import opened ByteStreams
  import opened Reassembly
  import opened ReassemblyTheorems
  import opened ScanLoop
  import opened ReassemblyLimits

  ghost predicate Marks(store: Store)
  {
    exists d :: d in store && d.eof
  }

  /** The end is announced, or its marker is stored. */
  ghost predicate Marked(r: Reassembler)
  {
    r.out.ended || Marks(r.store)
  }

  // ---------------------------------------------------------------- the scan

  /** A repetition of `p`, or a later part of it. */
  ghost predicate Within(dg: Datagram, p: Datagram)
  {
    || (dg.index == p.index && dg.Tail() == p.Tail())
    || (p.index < dg.index < p.Tail() && dg.Tail() <= p.Tail())
  }

  ghost predicate Shadows(store: Store, dg: Datagram, k: nat)
  {
    && k < |store| && Within(dg, store[k])
    && forall j :: 0 <= j < k ==> Gives(dg, store[j])
  }

  /** Some stored datagram has it all, and nothing in front of that stops the walk. */
  ghost predicate Shadowed(store: Store, dg: Datagram)
  {
    exists k: nat :: Shadows(store, dg, k)
  }

  lemma ShadowedCons(store: Store, dg: Datagram)
    requires store != []
    ensures Shadowed(store, dg) <==> Within(dg, store[0]) || (Gives(dg, store[0]) && Shadowed(store[1..], dg))
  {
    if Within(dg, store[0]) {
      assert Shadows(store, dg, 0);
    }
    if Gives(dg, store[0]) && Shadowed(store[1..], dg) {
      var k: nat :| Shadows(store[1..], dg, k);
      assert Shadows(store, dg, k + 1);
    }
    if Shadowed(store, dg) {
      var k: nat :| Shadows(store, dg, k);
      if k > 0 {
        assert store[1..][k - 1] == store[k];
        assert Shadows(store[1..], dg, k - 1);
      }
    }
  }

  lemma AheadNotShadowed(store: Store, dg: Datagram)
    requires forall d :: d in store ==> dg.index < d.index
    ensures !Shadowed(store, dg)
  {
    assert forall k: nat :: k < |store| ==> store[k] in store;
  }

  /** Exactly when the scan drops what comes in. It may have erased shorter datagrams with the same
      start before. */
  lemma {:induction false} DroppedIff(store: Store, dg: Datagram)
    requires Sorted(store)
    ensures Scan(store, dg).Dropped? <==> Shadowed(store, dg)
    decreases |store|
  {
    if store != [] {
      hide Shadowed;
      var p := store[0];
      ShadowedCons(store, dg);
      if dg.index < p.index {
        var dg' := if p.index < dg.Tail() < p.Tail() then Merge(dg, p) else dg;
        DroppedIff(store[1..], dg');
        AheadNotShadowed(store[1..], dg');
        AheadNotShadowed(store[1..], dg);
      } else {
        DroppedIff(store[1..], dg);
      }
    } else {
      assert !Shadowed(store, dg);
    }
  }

  /** A marker is stored behind the chain of overlapping datagrams that reaches to `tail` and,
      through those it swallows, beyond. */
  ghost predicate MarksBeyond(store: Store, tail: nat)
    decreases |store|
  {
    && store != []
    && if store[0].index < tail then MarksBeyond(store[1..], Max(tail, store[0].Tail())) else Marks(store)
  }

  /** What is placed, or kept beside it, carries a marker. Only a datagram that starts no later
      than the whole store swallows anything. */
  ghost predicate Stays(store: Store, dg: Datagram)
  {
    if Shadowed(store, dg) then Marks(store)
    else
      || dg.eof
      || (if dg.data == [] || (store != [] && store[0].index < dg.index) then Marks(store)
          else MarksBeyond(store, dg.Tail()))
  }

  lemma MarksCons(p: Datagram, store: Store)
    ensures Marks([p] + store) <==> p.eof || Marks(store)
  {
    if p.eof {
      assert p in [p] + store;
    }
    if Marks(store) {
      var d :| d in store && d.eof;
      assert d in [p] + store;
    }
  }

  lemma StoreCons(store: Store)
    requires store != []
    ensures store == [store[0]] + store[1..] && (Marks(store) <==> store[0].eof || Marks(store[1..]))
  {
    MarksCons(store[0], store[1..]);
    assert store == [store[0]] + store[1..];
  }

  /** What is dropped takes no marker with it: the shorter datagrams it removes do not reach the
      end of the stream. */
  lemma {:induction false} DroppedMarks(whole: Bytes, edge: nat, store: Store, dg: Datagram)
    requires Good(whole, edge, dg) && forall d :: d in store ==> Good(whole, edge, d)
    requires Sorted(store) && Scan(store, dg).Dropped?
    ensures Marks(Scan(store, dg).store) <==> Marks(store)
    decreases |store|
  {
    hide Marks;
    if store != [] {
      var p := store[0];
      StoreCons(store);
      assert p in store;
      if dg.index < p.index {
        DroppedIff(store, dg);
        AheadNotShadowed(store, dg);
      } else if Gives(dg, p) {
        DroppedMarks(whole, edge, store[1..], dg);
        if dg.data == [] {
          MarksCons(p, Scan(store[1..], dg).store);
        }
      }
    }
  }

  lemma {:induction false} NothingSwallowed(store: Store, dg: Datagram)
    requires Sorted(store) && Scan(store, dg).Placed?
    requires dg.data == [] || (store != [] && store[0].index < dg.index) || forall d :: d in store ==> dg.Tail() <= d.index
    ensures Scan(store, dg) == Placed(store, dg)
    decreases |store|
  {
    if store != [] {
      assert store[0] in store;
      assert store == [store[0]] + store[1..];
      if dg.index < store[0].index || (dg.data == [] && dg.index == store[0].Tail()) {
        NothingSwallowed(store[1..], dg);
      }
    }
  }

  lemma {:induction false} Swallowed(store: Store, dg: Datagram)
    requires Sorted(store) && Scan(store, dg).Placed?
    requires dg.data != [] && forall d :: d in store ==> dg.index <= d.index
    ensures Marks(Scan(store, dg).store) <==> MarksBeyond(store, dg.Tail())
    decreases |store|
  {
    if store != [] {
      var p := store[0];
      assert p in store;
      if p.index < dg.Tail() {
        Swallowed(store[1..], if p.Tail() <= dg.Tail() then dg else Merge(dg, p));
      } else {
        NothingSwallowed(store, dg);
      }
    }
  }

  /** A datagram stored ahead: exactly when a marker stays in store. */
  lemma ScanMarksIff(whole: Bytes, edge: nat, store: Store, dg: Datagram)
    requires Good(whole, edge, dg) && forall d :: d in store ==> Good(whole, edge, d)
    requires Sorted(store) && !Scan(store, dg).Stuck?
    ensures
      Stays(store, dg) <==>
        match Scan(store, dg)
        case Dropped(kept) => Marks(kept)
        case Placed(kept, d) => d.eof || Marks(kept)
        case Stuck => false
  {
    hide Marks, Shadowed, Good, MarksBeyond;
    DroppedIff(store, dg);
    ScanGrows(store, dg);
    if Shadowed(store, dg) {
      DroppedMarks(whole, edge, store, dg);
    } else if dg.data == [] || (store != [] && store[0].index < dg.index) {
      NothingSwallowed(store, dg);
    } else {
      Swallowed(store, dg);
    }
  }

  lemma AheadMarkedIff(whole: Bytes, r: Reassembler, dg: Datagram)
    requires Inv(whole, r) && Good(whole, Edge(r), dg) && MissingMiddle(r, dg).Done?
    ensures Marked(MissingMiddle(r, dg).value) <==> r.out.ended || Stays(r.store, dg)
  {
    hide Stays;
    ScanMarksIff(whole, Edge(r), r.store, dg);
    match Scan(r.store, dg) {
      case Stuck =>
      case Dropped(kept) =>
      case Placed(kept, d) =>
        InsertMembers(d, kept);
        assert d in InsertOrdered(d, kept);
    }
  }

  // ---------------------------------------------------------------- the drain

  /** Feeding the store back in, with `n` bytes out, leaves a marker in the store or announces
      the end. A datagram that is fed back to a full stream, or that lies alone and too far
      ahead, is gone. */
  ghost predicate Outlasts(edge: nat, capacity: nat, store: Store, n: nat)
    decreases |store|
  {
    && store != []
    && var front, rest := store[0], store[1..];
       if n == edge then Marks(rest)
       else if front.index > n then
         if rest == [] && front.index >= capacity + n then false else Stays(rest, front)
       else
         front.eof || (if front.data == [] then Marks(rest) else Outlasts(edge, capacity, rest, Max(n, front.Tail())))
  }

  /** What decides whether a marker is announced or stored after a push. */
  ghost predicate Retains(r: Reassembler, dg: Datagram)
  {
    || r.out.ended
    || (if r.out.Remaining() == 0 || dg.index >= r.Limit() then Marks(r.store)
        else if dg.index > r.next then Stays(r.store, dg)
        else
          || dg.eof
          || (if dg.data != [] && Max(r.next, dg.Tail()) >= r.smallest
              then Outlasts(Edge(r), r.out.capacity, r.store, Max(r.next, dg.Tail()))
              else Marks(r.store)))
  }

  lemma AfterPop(whole: Bytes, r: Reassembler)
    requires Inv(whole, r) && r.store != [] && r.smallest <= r.next && !r.out.ended
    ensures Retains(r.(store := r.store[1..]), r.store[0]) <==> Outlasts(Edge(r), r.out.capacity, r.store, r.next)
  {
    hide Stays, Good, Slice;
    NoneLeft();
  }

  lemma NoneLeft()
    ensures !Marks([])
  {
  }

  /** Exactly when, after a completed push, the end is announced or its marker is still stored. */
  lemma {:induction false} PushRetainsIff(whole: Bytes, r: Reassembler, dg: Datagram)
    requires Inv(whole, r) && Good(whole, Edge(r), dg) && Push(r, dg).Done?
    ensures Marked(Push(r, dg).value) <==> Retains(r, dg)
    decreases |r.store|
  {
    hide Good, Stays, Marks;
    if r.out.Remaining() == 0 || dg.index >= r.Limit() {
    } else if dg.index > r.next {
      AheadMarkedIff(whole, r, dg);
    } else {
      var r1 := Absorb(r, dg);
      AbsorbKeeps(whole, r, dg);
      if Pops(r, dg) {
        PoppedKeeps(whole, r1);
        PushRetainsIff(whole, r1.(store := r1.store[1..]), r1.store[0]);
        if !r.out.ended {
          AfterPop(whole, r1);
        }
      } else if r.store == [] {
        NoneLeft();
      }
    }
  }

  // ---------------------------------------------------------------- four ways to lose it

  /** The whole stream is written, nothing is stored, and the end is not announced. */
  ghost predicate EndLost(o: Outcome<Reassembler>)
  {
    o.Done? && o.value.out.written == [1, 2, 3, 4] && o.value.store == [] && !o.value.out.ended
  }

  /** Two substrings of which an unmarked `m` stays, and then what is missing in front of it. */
  lemma LeftUnmarked(a: Datagram, b: Datagram, m: Datagram, first: Datagram)
    requires 0 < a.index < 8 && 0 < b.index < 8 && m.index == first.Tail()
    requires Scan([a], b) == Placed([], m) || (Scan([a], b) == Dropped([a]) && m == a)
    requires first.index == 0 && first.data != [] && !first.eof && !m.eof && first.data + m.data == [1, 2, 3, 4]
    ensures EndLost(Run(NewReassembler(8), [PushOp(a), PushOp(b), PushOp(first)]))
  {
    var r0 := NewReassembler(8);
    var ops := [PushOp(a), PushOp(b), PushOp(first)];
    var r1 := r0.(store := [a], smallest := a.index);
    StoredAlone(r0, a, a);
    var r2 := r1.(store := [m], smallest := m.index);
    if Scan([a], b).Placed? {
      Unmoved([a], b);
      StoredAlone(r1, b, m);
    }
    assert Push(r1, b) == Done(r2);
    var r4 := r2.(out := r2.out.(written := [1, 2, 3, 4]), next := 4, store := []);
    hide Push;
    FilledUnmarked(r2, m, first);
    RunCons(r0, ops[0], [ops[1], ops[2]], r1);
    RunCons(r1, ops[1], [ops[2]], r2);
    RunCons(r2, ops[2], [], r4);
    assert ops == [ops[0]] + [ops[1], ops[2]];
  }

  lemma FilledUnmarked(r: Reassembler, m: Datagram, first: Datagram)
    requires 0 < m.index == first.Tail() && first.index == 0 && !first.eof && !m.eof
    requires first.data + m.data == [1, 2, 3, 4]
    requires r == NewReassembler(8).(store := [m], smallest := m.index)
    ensures Push(r, first) == Done(r.(out := r.out.(written := [1, 2, 3, 4]), next := 4, store := []))
  {
    var r3 := r.(out := r.out.(written := first.data), next := m.index, store := []);
    assert |first.data + m.data| == 4;
    WritesAll(r.out, first.data);
    WrittenInOrder(r3, m);
    assert r.out.written + first.data == first.data;
    assert Absorb(r, first).(store := []) == r3;
  }

  lemma Unmoved(store: Store, dg: Datagram)
    requires Sorted(store) && Scan(store, dg).Placed?
    ensures Scan(store, dg).dg.index == dg.index
  {
    ScanShape(store, dg);
  }

  /** A merge forgets the marker of the datagram it absorbs. */
  lemma MergeForgetsEnd()
    ensures
      EndLost(Run(NewReassembler(8), [PushOp(Datagram([3, 4], 2, true)), PushOp(Datagram([2, 3], 1, false)),
                                      PushOp(Datagram([1], 0, false))]))
  {
    var last, middle := Datagram([3, 4], 2, true), Datagram([2, 3], 1, false);
    var merged := Datagram([2, 3, 4], 1, false);
    assert Merge(middle, last) == merged;
    assert [1] + merged.data == [1, 2, 3, 4];
    LeftUnmarked(last, middle, merged, Datagram([1], 0, false));
  }

  /** A repetition is dropped although only it carries the marker. */
  lemma RepeatForgetsEnd()
    ensures
      EndLost(Run(NewReassembler(8), [PushOp(Datagram([3, 4], 2, false)), PushOp(Datagram([3, 4], 2, true)),
                                      PushOp(Datagram([1, 2], 0, false))]))
  {
    var last := Datagram([3, 4], 2, false);
    assert [1, 2] + last.data == [1, 2, 3, 4];
    LeftUnmarked(last, last.(eof := true), last, Datagram([1, 2], 0, false));
  }

  /** So is a marked part of what is stored. */
  lemma SuffixForgetsEnd()
    ensures
      EndLost(Run(NewReassembler(8), [PushOp(Datagram([2, 3, 4], 1, false)), PushOp(Datagram([3, 4], 2, true)),
                                      PushOp(Datagram([1], 0, false))]))
  {
    var rest := Datagram([2, 3, 4], 1, false);
    assert [1] + rest.data == [1, 2, 3, 4];
    LeftUnmarked(rest, Datagram([3, 4], 2, true), rest, Datagram([1], 0, false));
  }

  /** A replacement erases the marked datagram it contains. */
  lemma ReplacementForgetsEnd()
    ensures
      EndLost(Run(NewReassembler(8), [PushOp(Datagram([3, 4], 2, true)), PushOp(Datagram([2, 3, 4], 1, false)),
                                      PushOp(Datagram([1], 0, false))]))
  {
    var rest := Datagram([2, 3, 4], 1, false);
    assert [1] + rest.data == [1, 2, 3, 4];
    LeftUnmarked(Datagram([3, 4], 2, true), rest, rest, Datagram([1], 0, false));
  }
}
