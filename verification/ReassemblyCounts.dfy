/** Exactly when a byte that was pushed more than once is counted once among the bytes waiting. */
module ReassemblyCounts {
  import opened Basics
  import opened ByteStreams
  import opened Reassembly
  import opened ReassemblyTheorems
  import opened ReassemblyLimits
  import ReassemblyEnds

  ghost function Span(d: Datagram): set<nat>
  {
    set i: nat | i < d.Tail() && Holds(d, i)
  }

  /** The positions that are waiting, each once. */
  ghost function Positions(store: Store): set<nat>
  {
    if store == [] then {} else Span(store[0]) + Positions(store[1..])
  }

  predicate Overlap(a: Datagram, b: Datagram)
  {
    Max(a.index, b.index) < Min(a.Tail(), b.Tail())
  }

  ghost predicate Apart(store: Store)
  {
    forall i, j :: 0 <= i < j < |store| ==> !Overlap(store[i], store[j])
  }

  lemma {:induction false} PositionsAre(store: Store, i: nat)
    ensures i in Positions(store) <==> Stored(store, i)
    decreases |store|
  {
    if store != [] {
      PositionsAre(store[1..], i);
      StoredCons(store[0], store[1..], i);
      assert store == [store[0]] + store[1..];
    }
  }

  lemma {:induction false} SpanSize(d: Datagram)
    ensures |Span(d)| == |d.data|
    decreases |d.data|
  {
    if d.data == [] {
      assert Span(d) == {};
    } else {
      var d' := d.(data := d.data[1..], index := d.index + 1);
      SpanSize(d');
      var first: set<nat> := {d.index};
      forall i: nat
        ensures i in Span(d) <==> i in Span(d') + first
      {
        assert Holds(d, i) <==> Holds(d', i) || i == d.index;
      }
      assert Span(d) == Span(d') + first;
    }
  }

  lemma SizeOfUnion(a: set<nat>, b: set<nat>)
    ensures |a + b| <= |a| + |b| && (|a + b| == |a| + |b| <==> a !! b)
  {
    var c := b - a;
    assert a + b == a + c && b == c + (a * b);
    assert |a + c| == |a| + |c| && |c + (a * b)| == |c| + |a * b|;
  }

  /** The front overlaps something behind it exactly when they share a position. */
  lemma FrontApart(store: Store)
    requires store != []
    ensures Span(store[0]) !! Positions(store[1..]) <==> forall j :: 0 < j < |store| ==> !Overlap(store[0], store[j])
  {
    var p := store[0];
    if j :| 0 < j < |store| && Overlap(p, store[j]) {
      var i := Max(p.index, store[j].index);
      assert store[1..][j - 1] == store[j];
      assert Holds(store[j], i);
      PositionsAre(store[1..], i);
      assert i in Span(p) && i in Positions(store[1..]);
    }
    if i: nat :| i in Span(p) && i in Positions(store[1..]) {
      PositionsAre(store[1..], i);
      var d :| d in store[1..] && Holds(d, i);
      var j :| 0 <= j < |store[1..]| && store[1..][j] == d;
      assert store[j + 1] == d && Overlap(p, store[j + 1]);
    }
  }

  lemma ApartCons(store: Store)
    requires store != []
    ensures Apart(store) <==> Apart(store[1..]) && forall j :: 0 < j < |store| ==> !Overlap(store[0], store[j])
  {
    var rest := store[1..];
    assert forall k :: 0 <= k < |rest| ==> rest[k] == store[k + 1];
    if Apart(store) {
      forall i, j | 0 <= i < j < |rest|
        ensures !Overlap(rest[i], rest[j])
      {
        assert !Overlap(store[i + 1], store[j + 1]);
      }
    }
    if Apart(rest) && forall j :: 0 < j < |store| ==> !Overlap(store[0], store[j]) {
      forall i, j | 0 <= i < j < |store|
        ensures !Overlap(store[i], store[j])
      {
        if i > 0 {
          assert !Overlap(rest[i - 1], rest[j - 1]);
        }
      }
    }
  }

  /** The count of waiting bytes counts every position once exactly when the stored datagrams are
      apart; otherwise it is too large. */
  lemma {:induction false} CountedOnceIff(store: Store)
    ensures |Positions(store)| <= StoredBytes(store)
    ensures StoredBytes(store) == |Positions(store)| <==> Apart(store)
    decreases |store|
  {
    if store != [] {
      CountedOnceIff(store[1..]);
      SpanSize(store[0]);
      SizeOfUnion(Span(store[0]), Positions(store[1..]));
      FrontApart(store);
      ApartCons(store);
    }
  }

  // ---------------------------------------------------------------- what a push does

  ghost predicate ClearOf(d: Datagram, store: Store)
  {
    forall e :: e in store ==> !Overlap(d, e)
  }

  lemma Symmetric(a: Datagram, b: Datagram)
    ensures Overlap(a, b) <==> Overlap(b, a)
  {
  }

  lemma ApartWith(p: Datagram, store: Store)
    ensures Apart([p] + store) <==> Apart(store) && ClearOf(p, store)
  {
    var all := [p] + store;
    assert all[1..] == store;
    ApartCons(all);
    if ClearOf(p, store) {
      assert forall j :: 0 < j < |all| ==> all[j] in store;
    }
    if forall j :: 0 < j < |all| ==> !Overlap(p, all[j]) {
      forall e | e in store
        ensures !Overlap(p, e)
      {
        var k :| 0 <= k < |store| && store[k] == e;
        assert all[k + 1] == e;
      }
    }
  }

  /** The walk stops at once in front of a store it reaches into: what comes in starts behind the
      front and ends behind it, and overlaps something. */
  ghost predicate Doubles(store: Store, dg: Datagram)
  {
    && store != [] && store[0].index < dg.index && store[0].Tail() < dg.Tail()
    && !ClearOf(dg, store)
  }

  function Kept(v: Verdict): Store
    requires !v.Stuck?
  {
    match v
    case Dropped(store) => store
    case Placed(store, _) => store
  }

  lemma {:induction false} KeptApart(store: Store, dg: Datagram)
    requires Sorted(store) && Apart(store) && !Scan(store, dg).Stuck?
    ensures Apart(Kept(Scan(store, dg)))
    decreases |store|
  {
    hide Apart, Overlap;
    if store != [] {
      var p, rest := store[0], store[1..];
      assert store == [p] + rest;
      ApartWith(p, rest);
      if !Scan(rest, dg).Stuck? {
        KeptApart(rest, dg);
        ScanShape(rest, dg);
        ApartWith(p, Kept(Scan(rest, dg)));
      }
      if dg.index < p.index < dg.Tail() < p.Tail() {
        KeptApart(rest, Merge(dg, p));
      }
    }
  }

  /** Starting no later than the whole store, it ends up clear of what it has not swallowed. */
  lemma {:induction false} PlacedClear(store: Store, dg: Datagram)
    requires Sorted(store) && Apart(store) && Scan(store, dg).Placed?
    requires dg.data == [] || forall e :: e in store ==> dg.index <= e.index
    ensures ClearOf(Scan(store, dg).dg, Scan(store, dg).store)
    decreases |store|
  {
    if dg.data == [] {
      ReassemblyEnds.NothingSwallowed(store, dg);
    } else if store != [] {
      var p := store[0];
      assert p in store;
      ApartCons(store);
      if p.index < dg.Tail() {
        PlacedClear(store[1..], if p.Tail() <= dg.Tail() then dg else Merge(dg, p));
      } else {
        ReassemblyEnds.NothingSwallowed(store, dg);
      }
    }
  }

  lemma ScanApartIff(store: Store, dg: Datagram)
    requires Sorted(store) && Apart(store) && !Scan(store, dg).Stuck?
    ensures
      match Scan(store, dg)
      case Stuck => true
      case Dropped(kept) => Apart(kept) && !Doubles(store, dg)
      case Placed(kept, d) => Apart(kept) && (ClearOf(d, kept) <==> !Doubles(store, dg))
  {
    KeptApart(store, dg);
    if Scan(store, dg).Placed? && (store == [] || dg.index <= store[0].index || dg.data == []) {
      PlacedClear(store, dg);
    }
  }

  lemma {:induction false} InsertApart(d: Datagram, store: Store)
    ensures Apart(InsertOrdered(d, store)) <==> Apart(store) && ClearOf(d, store)
    decreases |store|
  {
    hide Apart, Overlap;
    ApartWith(d, store);
    if store != [] && d.index > store[0].index {
      var p, rest := store[0], store[1..];
      assert store == [p] + rest;
      InsertApart(d, rest);
      InsertMembers(d, rest);
      ApartWith(p, rest);
      ApartWith(p, InsertOrdered(d, rest));
      assert ClearOf(p, InsertOrdered(d, rest)) <==> !Overlap(p, d) && ClearOf(p, rest) by {
        assert d in InsertOrdered(d, rest);
      }
      assert ClearOf(d, store) <==> !Overlap(d, p) && ClearOf(d, rest);
      assert Overlap(d, p) <==> Overlap(p, d) by { Symmetric(d, p); }
    }
  }

  /** While every byte is counted once, a completed push keeps that exactly when it does not store
      a datagram that the walk has not compared with those it overlaps. */
  lemma {:induction false} PushCountsOnceIff(r: Reassembler, dg: Datagram)
    requires r.out.Valid() && Sorted(r.store) && Apart(r.store) && Push(r, dg).Done?
    ensures
      Apart(Push(r, dg).value.store)
      <==> !(r.out.Remaining() > 0 && r.next < dg.index < r.Limit() && Doubles(r.store, dg))
    decreases |r.store|
  {
    hide Overlap, ClearOf;
    if Pops(r, dg) {
      ApartCons(r.store);
      PushCountsOnceIff(Absorb(r, dg).(store := r.store[1..]), r.store[0]);
    } else if r.out.Remaining() > 0 && r.next < dg.index < r.Limit() {
      ScanApartIff(r.store, dg);
      match Scan(r.store, dg) {
        case Stuck =>
        case Dropped(kept) =>
        case Placed(kept, d) => InsertApart(d, kept);
      }
    }
  }

  /** What `empty` answers. */
  predicate SaysEmpty(r: Reassembler)
  {
    StoredBytes(r.store) != 0
  }

  /** `empty` is documented to tell whether no substring waits. It does so exactly when some do and
      none of them carries a byte. */
  lemma EmptyAgreesIff(r: Reassembler)
    ensures (SaysEmpty(r) <==> r.store == []) <==> r.store != [] && forall d :: d in r.store ==> d.data == []
  {
    NoBytesIff(r.store);
  }

  lemma {:induction false} NoBytesIff(store: Store)
    ensures StoredBytes(store) == 0 <==> forall d :: d in store ==> d.data == []
    decreases |store|
  {
    if store != [] {
      NoBytesIff(store[1..]);
      assert store == [store[0]] + store[1..];
    }
  }

  /** A new reassembler says that it is not empty. */
  lemma NewSaysNotEmpty(capacity: nat)
    ensures !SaysEmpty(NewReassembler(capacity)) && NewReassembler(capacity).store == []
  {
  }

  /** Two overlapping substrings ahead of the output: three bytes are waiting, four are counted. */
  lemma OverlapCountedTwice()
    ensures
      var o := Run(NewReassembler(8), [PushOp(Datagram([2, 3], 1, false)), PushOp(Datagram([3, 4], 2, false))]);
      && o.Done? && StoredBytes(o.value.store) == 4 && |Positions(o.value.store)| == 3
  {
    var r0, a, b := NewReassembler(8), Datagram([2, 3], 1, false), Datagram([3, 4], 2, false);
    var r1 := r0.(store := [a], smallest := 1);
    StoredAlone(r0, a, a);
    assert InsertOrdered(b, [a]) == [a, b] by { assert InsertOrdered(b, []) == [b]; }
    var r2 := r1.(store := [a, b]);
    assert Push(r1, b) == Done(r2);
    hide Push;
    RunCons(r0, PushOp(a), [PushOp(b)], r1);
    RunCons(r1, PushOp(b), [], r2);
    assert [PushOp(a), PushOp(b)] == [PushOp(a)] + [PushOp(b)];
    ThreePositions(a, b);
  }

  lemma ThreePositions(a: Datagram, b: Datagram)
    requires a.index == 1 && b.index == 2 && |a.data| == |b.data| == 2
    ensures StoredBytes([a, b]) == 4 && |Positions([a, b])| == 3
  {
    assert [a, b][1..] == [b] && [b][1..] == [];
    assert Holds(a, 1) && Holds(a, 2) && Holds(b, 2) && Holds(b, 3);
    assert Span(a) == {1, 2} && Span(b) == {2, 3};
    assert StoredBytes([b]) == 2;
    assert Positions([b]) == {2, 3};
    assert Positions([a, b]) == {1, 2, 3};
  }
}
