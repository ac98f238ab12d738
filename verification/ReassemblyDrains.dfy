/** Exactly when a push does not return, and exactly when it leaves something behind that could be
    written. */
module ReassemblyDrains {
  import opened Basics
  import opened ByteStreams
  import opened Reassembly
  import opened ReassemblyTheorems
  import opened ScanLoop
  import opened ReassemblyLimits

  // ---------------------------------------------------------------- termination

  /** Feeding the store back in, with `n` bytes out, gets stuck: every datagram it takes carries
      bytes and is reached, up to one that is not reached and is blocked by those behind it. */
  ghost predicate Jams(store: Store, n: nat)
    decreases |store|
  {
    && store != []
    && if store[0].index > n then Blocked(store[1..], store[0])
       else store[0].data != [] && Jams(store[1..], Max(n, store[0].Tail()))
  }

  ghost predicate Jammed(r: Reassembler, dg: Datagram)
  {
    && r.out.Remaining() > 0 && dg.index < r.Limit()
    && if dg.index > r.next then Blocked(r.store, dg)
       else
         && dg.data != [] && Max(r.next, dg.Tail()) >= r.smallest
         && Jams(r.store, Max(r.next, dg.Tail()))
  }

  /** With the room used up nothing is left to get stuck on. */
  lemma {:induction false} FullNeverJams(whole: Bytes, edge: nat, store: Store)
    requires Sorted(store) && forall d :: d in store ==> Good(whole, edge, d)
    ensures !Jams(store, edge)
    decreases |store|
  {
    if store != [] {
      assert store[0] in store;
      if store[0].index > edge {
        assert forall k: nat :: k < |store[1..]| ==> store[1..][k] in store;
        assert !Blocked(store[1..], store[0]);
      } else if store[0].data != [] {
        FullNeverJams(whole, edge, store[1..]);
      }
    }
  }

  /** Exactly when a call of `push_substring` never returns. */
  lemma {:induction false} PushHangsIff(whole: Bytes, r: Reassembler, dg: Datagram)
    requires Inv(whole, r) && Good(whole, Edge(r), dg)
    ensures Push(r, dg).Hang? <==> Jammed(r, dg)
    decreases |r.store|
  {
    hide Blocked, Good;
    if r.out.Remaining() == 0 || dg.index >= r.Limit() {
    } else if dg.index > r.next {
      StuckIff(r.store, dg);
    } else {
      var r1 := Absorb(r, dg);
      AbsorbKeeps(whole, r, dg);
      if r1.next >= r1.smallest && dg.data != [] && r1.store != [] {
        PoppedKeeps(whole, r1);
        var r2 := r1.(store := r1.store[1..]);
        PushHangsIff(whole, r2, r1.store[0]);
        if r1.out.Remaining() == 0 {
          FullNeverJams(whole, Edge(r), r1.store);
        } else if r1.store[0].index >= r2.Limit() {
          StuckIff(r2.store, r1.store[0]);
        }
      }
    }
  }

  /** No push of the run gets stuck. */
  ghost predicate Unjammed(r: Reassembler, ops: seq<Op>)
    requires r.out.Valid()
    decreases |ops|
  {
    ops != [] ==>
      && (ops[0].PushOp? ==> !Jammed(r, ops[0].dg))
      && (Apply(r, ops[0]).Done? ==> Unjammed(Apply(r, ops[0]).value, ops[1..]))
  }

  /** Every push of the run is a true slice that fits the room at that moment, or is empty. */
  ghost predicate Fitting(whole: Bytes, r: Reassembler, ops: seq<Op>)
    requires r.out.Valid()
    decreases |ops|
  {
    ops != [] ==>
      && (ops[0].PushOp? ==> Good(whole, Edge(r), ops[0].dg))
      && (Apply(r, ops[0]).Done? ==> Fitting(whole, Apply(r, ops[0]).value, ops[1..]))
  }

  /** Exactly when such a run returns. */
  lemma {:induction false} RunReturnsIff(whole: Bytes, r: Reassembler, ops: seq<Op>)
    requires Inv(whole, r) && Fitting(whole, r, ops)
    ensures Run(r, ops).Done? <==> Unjammed(r, ops)
    decreases |ops|
  {
    hide Push, Jammed, Slice;
    if ops != [] {
      if ops[0].PushOp? {
        PushHangsIff(whole, r, ops[0].dg);
        PushKeeps(whole, r, ops[0].dg);
      } else {
        ReadKeeps(whole, r, ops[0].len);
      }
      if Apply(r, ops[0]).Done? {
        RunReturnsIff(whole, Apply(r, ops[0]).value, ops[1..]);
      }
    }
  }

  lemma ReadKeeps(whole: Bytes, r: Reassembler, len: nat)
    requires Inv(whole, r)
    ensures Inv(whole, Read(r, len))
  {
  }

  /** No datagram behind another with the same start is longer, nor longer than the incoming one. */
  ghost predicate NoneLonger(store: Store, dg: Datagram)
  {
    && (forall i, j :: 0 <= i < j < |store| && store[i].index == store[j].index ==> |store[j].data| <= |store[i].data|)
    && (forall d :: d in store && d.index == dg.index ==> |d.data| <= |dg.data|)
  }

  lemma NotStuck(store: Store, dg: Datagram)
    requires Sorted(store) && NoneLonger(store, dg)
    ensures !Scan(store, dg).Stuck?
  {
    StuckIff(store, dg);
    assert forall k: nat :: k < |store| ==> store[k] in store && !Longer(dg, store[k]);
  }

  /** Then the restarting scan and the recursive drain both come to an end, whatever the bytes. */
  lemma {:induction false} PushCompletes(r: Reassembler, dg: Datagram)
    requires r.out.Valid() && Sorted(r.store) && NoneLonger(r.store, dg)
    ensures Push(r, dg).Done?
    decreases |r.store|
  {
    if Pops(r, dg) {
      PushCompletes(Absorb(r, dg).(store := r.store[1..]), r.store[0]);
    } else {
      NotStuck(r.store, dg);
    }
  }

  /** Repeating a substring that has meanwhile been merged into a longer one never returns. */
  lemma RepeatAfterMergeHangs()
    ensures
      Run(NewReassembler(8), [PushOp(Datagram([3, 4], 2, false)), PushOp(Datagram([2, 3], 1, false)),
                              PushOp(Datagram([2, 3], 1, false))]).Hang?
  {
    var r0 := NewReassembler(8);
    var last, middle := Datagram([3, 4], 2, false), Datagram([2, 3], 1, false);
    var ops := [PushOp(last), PushOp(middle), PushOp(middle)];
    var r1 := r0.(store := [last], smallest := 2);
    StoredAlone(r0, last, last);
    var merged := Datagram([2, 3, 4], 1, false);
    assert Merge(middle, last) == merged;
    assert Scan([last], middle) == Placed([], merged);
    var r2 := r1.(store := [merged], smallest := 1);
    StoredAlone(r1, middle, merged);
    assert Push(r2, middle).Hang?;
    RunCons(r0, ops[0], [ops[1], ops[2]], r1);
    RunCons(r1, ops[1], [ops[2]], r2);
    assert ops == [ops[0]] + [ops[1], ops[2]];
  }

  const FOURTH := Datagram([4], 3, false)
  const SIXTH := Datagram([6], 5, false)
  const EMPTY := Datagram([], 5, false)
  const FIRST := Datagram([1, 2, 3], 0, false)

  lemma EmptyInFront(r0: Reassembler, r3: Reassembler)
    requires r0 == NewReassembler(8) && r3 == r0.(store := [FOURTH, EMPTY, SIXTH], smallest := 3)
    ensures Run(r0, [PushOp(FOURTH), PushOp(SIXTH), PushOp(EMPTY), PushOp(FIRST)]) == Run(r3, [PushOp(FIRST)])
  {
    var ops := [PushOp(FOURTH), PushOp(SIXTH), PushOp(EMPTY), PushOp(FIRST)];
    var r1 := r0.(store := [FOURTH], smallest := 3);
    var r2 := r1.(store := [FOURTH, SIXTH]);
    StoredAlone(r0, FOURTH, FOURTH);
    assert InsertOrdered(SIXTH, [FOURTH]) == [FOURTH, SIXTH] by { assert InsertOrdered(SIXTH, []) == [SIXTH]; }
    assert Push(r1, SIXTH) == Done(r2);
    assert InsertOrdered(EMPTY, r2.store) == r3.store by { assert InsertOrdered(EMPTY, [SIXTH]) == [EMPTY, SIXTH]; }
    assert Push(r2, EMPTY) == Done(r3);
    hide Push;
    RunCons(r0, ops[0], [ops[1], ops[2], ops[3]], r1);
    RunCons(r1, ops[1], [ops[2], ops[3]], r2);
    RunCons(r2, ops[2], [ops[3]], r3);
    assert ops == [ops[0]] + [ops[1], ops[2], ops[3]];
  }

  lemma EmptyInFrontJams(r: Reassembler)
    requires r == NewReassembler(8).(store := [FOURTH, EMPTY, SIXTH], smallest := 3)
    ensures Push(r, FIRST).Hang?
  {
    var whole: Bytes := [1, 2, 3, 4, 5, 6];
    assert FIRST.data == whole[0..3] && FOURTH.data == whole[3..4] && SIXTH.data == whole[5..6];
    assert Inv(whole, r);
    hide Push, Slice;
    PushHangsIff(whole, r, FIRST);
    assert r.store[1..] == [EMPTY, SIXTH] && [EMPTY, SIXTH][1..] == [SIXTH];
    assert Blocks([SIXTH], EMPTY, 0);
    assert Jams([EMPTY, SIXTH], 4);
  }

  /** An ordinary push in order can hang as well, in the drain: an empty substring is stored in
      front of a longer one with its start. */
  lemma InOrderPushHangs()
    ensures Run(NewReassembler(8), [PushOp(FOURTH), PushOp(SIXTH), PushOp(EMPTY), PushOp(FIRST)]).Hang?
  {
    hide Push;
    var r := NewReassembler(8).(store := [FOURTH, EMPTY, SIXTH], smallest := 3);
    EmptyInFront(NewReassembler(8), r);
    EmptyInFrontJams(r);
  }

  // ---------------------------------------------------------------- draining

  /** Lies across the end of the `n` bytes that are out. */
  ghost predicate Reaches(d: Datagram, n: nat)
  {
    d.index <= n < d.Tail()
  }

  /** Feeding the store back in, with `n` bytes out, meets an empty datagram, and stops there,
      while a reached one lies behind it. */
  ghost predicate Halts(store: Store, n: nat)
    decreases |store|
  {
    && store != [] && store[0].index <= n
    && if store[0].data == [] then exists d :: d in store[1..] && Reaches(d, n)
       else Halts(store[1..], Max(n, store[0].Tail()))
  }

  lemma {:induction false} FullNeverHalts(whole: Bytes, edge: nat, store: Store)
    requires forall d :: d in store ==> Good(whole, edge, d)
    ensures !Halts(store, edge)
    decreases |store|
  {
    if store != [] {
      assert forall d :: d in store[1..] ==> d in store && Good(whole, edge, d);
      assert store[0] in store;
      if store[0].data != [] {
        FullNeverHalts(whole, edge, store[1..]);
      }
    }
  }

  /** Storing ahead touches nothing that is reached. */
  lemma {:induction false} ScanKeepsReached(store: Store, dg: Datagram, n: nat, d: Datagram)
    requires Sorted(store) && n < dg.index && Reaches(d, n) && d in store
    ensures
      match Scan(store, dg)
      case Stuck => true
      case Dropped(kept) => d in kept
      case Placed(kept, _) => d in kept
    decreases |store|
  {
    var p := store[0];
    if d != p {
      assert d in store[1..];
      ScanKeepsReached(store[1..], dg, n, d);
    }
  }

  lemma AheadDrainedIff(whole: Bytes, r: Reassembler, dg: Datagram)
    requires Inv(whole, r) && Good(whole, Edge(r), dg) && r.next < dg.index && MissingMiddle(r, dg).Done?
    ensures Drained(MissingMiddle(r, dg).value) <==> Drained(r)
  {
    MissingMiddleMembers(whole, r, dg);
    if !Drained(r) {
      var d :| d in r.store && Reaches(d, r.next);
      ScanKeepsReached(r.store, dg, r.next, d);
      match Scan(r.store, dg) {
        case Stuck =>
        case Dropped(kept) =>
        case Placed(kept, p) => InsertMembers(p, kept);
      }
      assert d in MissingMiddle(r, dg).value.store;
    }
  }

  /** What decides whether something is left behind. */
  ghost predicate LeavesReached(r: Reassembler, dg: Datagram)
  {
    if r.out.Remaining() > 0 && dg.index <= r.next && dg.data != []
    then Halts(r.store, Max(r.next, dg.Tail()))
    else !Drained(r)
  }

  /** Feeding back the front is going on with the drain. */
  lemma AfterPop(whole: Bytes, r: Reassembler)
    requires Inv(whole, r) && r.store != []
    ensures LeavesReached(r.(store := r.store[1..]), r.store[0]) <==> Halts(r.store, r.next)
  {
    assert forall d :: d in r.store[1..] ==> d in r.store && Good(whole, Edge(r), d);
    if r.out.Remaining() == 0 {
      FullNeverHalts(whole, Edge(r), r.store);
    }
  }

  lemma WithoutPop(whole: Bytes, r: Reassembler, dg: Datagram)
    requires Inv(whole, r) && Good(whole, Edge(r), dg) && r.out.Remaining() > 0 && dg.index <= r.next && !Pops(r, dg)
    ensures Drained(Absorb(r, dg)) <==> !LeavesReached(r, dg)
  {
    AbsorbKeeps(whole, r, dg);
  }

  /** Exactly when a completed push leaves something in the store that could be written. */
  lemma {:induction false} PushDrainedIff(whole: Bytes, r: Reassembler, dg: Datagram)
    requires Inv(whole, r) && Good(whole, Edge(r), dg) && Push(r, dg).Done?
    ensures Drained(Push(r, dg).value) <==> !LeavesReached(r, dg)
    decreases |r.store|
  {
    hide Good;
    if r.out.Remaining() == 0 || dg.index >= r.Limit() {
    } else if dg.index > r.next {
      AheadDrainedIff(whole, r, dg);
    } else {
      var r1 := Absorb(r, dg);
      AbsorbKeeps(whole, r, dg);
      if Pops(r, dg) {
        var r2 := r1.(store := r1.store[1..]);
        PoppedKeeps(whole, r1);
        PushDrainedIff(whole, r2, r1.store[0]);
        AfterPop(whole, r1);
      } else {
        WithoutPop(whole, r, dg);
      }
    }
  }

  /** An empty substring that is not the end is stored like any other, and stops the drain: the
      next missing byte is in the store and stays there. */
  lemma EmptySubstringBlocksDrain()
    ensures
      var r0 := NewReassembler(8);
      var ops := [PushOp(Datagram([], 1, false)), PushOp(Datagram([3], 2, false)),
                  PushOp(Datagram([1, 2], 0, false))];
      && Run(r0, ops).Done?
      && !Drained(Run(r0, ops).value)
  {
    var r0 := NewReassembler(8);
    var empty, third, first := Datagram([], 1, false), Datagram([3], 2, false), Datagram([1, 2], 0, false);
    var ops := [PushOp(empty), PushOp(third), PushOp(first)];
    var r1 := r0.(store := [empty], smallest := 1);
    StoredAlone(r0, empty, empty);
    assert InsertOrdered(third, []) == [third];
    assert InsertOrdered(third, [empty]) == [empty, third];
    var r2 := r1.(store := [empty, third]);
    assert Push(r1, third) == Done(r2);
    var r3 := r2.(out := r2.out.(written := [1, 2]), next := 2, store := [third]);
    WritesAll(r2.out, [1, 2]);
    assert Absorb(r2, first).(store := [third]) == r3;
    assert Push(r3, empty) == Done(r3);
    assert Push(r2, first) == Done(r3);
    assert third in r3.store;
    RunCons(r0, ops[0], [ops[1], ops[2]], r1);
    RunCons(r1, ops[1], [ops[2]], r2);
    RunCons(r2, ops[2], [], r3);
    assert ops == [ops[0]] + [ops[1], ops[2]];
  }
}
