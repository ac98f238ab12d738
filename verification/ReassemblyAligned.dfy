/** The reassembler fed with the segments of one sender: each start belongs to one segment, and
    different segments do not overlap. Nothing is ever merged, and every call returns. */
module ReassemblyAligned {
  import opened Basics
  import opened ByteStreams
  import opened Reassembly
  import opened ReassemblyTheorems

  ghost predicate Disjoint(family: set<Datagram>)
  {
    forall a, b :: a in family && b in family ==>
      (a.index == b.index ==> a == b) && (a.index < b.index ==> a.Tail() <= b.index)
  }

  lemma {:induction false} ScanDisjoint(family: set<Datagram>, store: Store, dg: Datagram)
    requires Disjoint(family) && dg in family && forall d :: d in store ==> d in family
    ensures Scan(store, dg) == Placed(store, dg) || (Scan(store, dg) == Dropped(store) && dg in store)
    decreases |store|
  {
    if store != [] {
      assert store[0] in family;
      ScanDisjoint(family, store[1..], dg);
      assert [store[0]] + store[1..] == store;
    }
  }

  /** The output stops at the end of a segment, announced if that is the last one. */
  ghost predicate AtBoundary(family: set<Datagram>, r: Reassembler)
  {
    exists d :: d in family && d.Tail() == r.next && (d.eof ==> r.out.ended)
  }

  /** Every push completes, keeps only segments of the family, and stops at the end of one. */
  lemma {:induction false} PushDisjoint(whole: Bytes, r: Reassembler, dg: Datagram, family: set<Datagram>)
    requires Inv(whole, r) && Good(whole, Edge(r), dg)
    requires Disjoint(family) && dg in family && forall d :: d in r.store ==> d in family
    ensures Push(r, dg).Done?
    ensures forall d :: d in Push(r, dg).value.store ==> d in family
    ensures Push(r, dg).value.next == r.next || AtBoundary(family, Push(r, dg).value)
    decreases |r.store|
  {
    if Pops(r, dg) {
      var r1 := Absorb(r, dg);
      AbsorbKeeps(whole, r, dg);
      PoppedKeeps(whole, r1);
      PushDisjoint(whole, r1.(store := r1.store[1..]), r1.store[0], family);
      KeepsBoundary(r, dg, family);
    } else {
      ScanDisjoint(family, r.store, dg);
      InsertMembers(dg, r.store);
      if r.out.Remaining() > 0 && dg.index <= r.next {
        AbsorbKeeps(whole, r, dg);
      }
    }
  }

  lemma KeepsBoundary(r: Reassembler, dg: Datagram, family: set<Datagram>)
    requires r.out.Valid() && Pops(r, dg) && dg in family && !Exceeded(r, dg)
    requires Absorb(r, dg).next == Max(r.next, dg.Tail())
    requires
      var r1 := Absorb(r, dg);
      var o := Push(r1.(store := r1.store[1..]), r1.store[0]);
      o.Done? && (o.value.next == r1.next || AtBoundary(family, o.value))
    ensures Push(r, dg).value.next == r.next || AtBoundary(family, Push(r, dg).value)
  {
    var r1 := Absorb(r, dg);
    var inner := Push(r1.(store := r1.store[1..]), r1.store[0]).value;
    if AtBoundary(family, inner) {
      var d :| d in family && d.Tail() == inner.next && (d.eof ==> inner.out.ended);
      assert d.Tail() == Push(r, dg).value.next;
    } else if r1.next != r.next {
      assert dg.Tail() == Push(r, dg).value.next;
    }
  }

  /** A reached push writes at least to its end. */
  lemma PushReaches(whole: Bytes, r: Reassembler, dg: Datagram)
    requires Inv(whole, r) && Slice(whole, dg) && dg.Tail() <= Edge(r)
    requires dg.index <= r.next && r.out.Remaining() > 0 && Push(r, dg).Done?
    ensures dg.Tail() <= |Push(r, dg).value.out.written|
  {
    AbsorbKeeps(whole, r, dg);
  }

  /** Repeating what is already out changes neither the output nor its end. */
  lemma {:induction false} OldPushKeepsOutput(whole: Bytes, r: Reassembler, dg: Datagram)
    requires Inv(whole, r) && Good(whole, Edge(r), dg)
    requires Drained(r) && EndSeen(r)
    requires r.next < dg.index || (dg.Tail() <= r.next && (dg.eof ==> r.out.ended))
    requires Push(r, dg).Done?
    ensures Push(r, dg).value.out == r.out && Push(r, dg).value.next == r.next
    decreases |r.store|
  {
    if Pops(r, dg) {
      var r1 := Absorb(r, dg);
      AbsorbKeeps(whole, r, dg);
      SameOutput(r, dg);
      PoppedKeeps(whole, r1);
      assert r1.store[0] in r.store;
      OldPushKeepsOutput(whole, r1.(store := r1.store[1..]), r1.store[0]);
    } else if r.out.Remaining() > 0 && dg.index <= r.next {
      SameOutput(r, dg);
    }
  }

  lemma SameOutput(r: Reassembler, dg: Datagram)
    requires r.out.Valid() && dg.index <= r.next && dg.Tail() <= r.next
    ensures Absorb(r, dg) == r
  {
    assert r.out.written + [] == r.out.written;
    if dg.index == r.next {
      assert dg.data == [];
    }
  }

  /** Without an end marker the input does not end. */
  lemma {:induction false} NoEndWithoutMarker(r: Reassembler, dg: Datagram)
    requires r.out.Valid() && !r.out.ended && !dg.eof && forall d :: d in r.store ==> !d.eof
    ensures Push(r, dg).Done? ==> !Push(r, dg).value.out.ended
    decreases |r.store|
  {
    if Pops(r, dg) {
      assert r.store[0] in r.store;
      NoEndWithoutMarker(Absorb(r, dg).(store := r.store[1..]), r.store[0]);
    }
  }
}
