/** The object `StreamReassembler`, which updates its list of datagrams in place. */
module StreamReassemblers {
  import opened Basics
  import opened ByteStreams
  import opened Reassembly
  import opened ReassemblyTheorems
  import opened ScanLoop

  // ---------------------------------------------------------------- the list

  /** The stable sort by index that the list is given after every insertion. */
  function StableSort(store: Store): Store
  {
    if store == [] then [] else InsertOrdered(store[0], StableSort(store[1..]))
  }

  lemma {:induction false} StableSortSorted(store: Store)
    requires Sorted(store)
    ensures StableSort(store) == store
    decreases |store|
  {
    if store != [] {
      StableSortSorted(store[1..]);
      assert [store[0]] + store[1..] == store;
    }
  }

  lemma {:induction false} StoredBytesInsert(dg: Datagram, store: Store)
    ensures StoredBytes(InsertOrdered(dg, store)) == |dg.data| + StoredBytes(store)
    decreases |store|
  {
    if store != [] && dg.index > store[0].index {
      StoredBytesInsert(dg, store[1..]);
      assert InsertOrdered(dg, store)[1..] == InsertOrdered(dg, store[1..]);
    } else {
      assert ([dg] + store)[1..] == store;
    }
  }

  lemma PassedFirst(store: Store, dg: Datagram)
    requires store != [] && Passes(dg, store[0])
    ensures Scan(store, dg) == Keep(store[0], Scan(store[1..], dg))
  {
  }

  /** Datagrams that were passed do not influence the verdict on the rest. */
  lemma {:induction false} ScanPassed(store: Store, dg: Datagram, i: nat)
    requires i <= |store| && forall k :: 0 <= k < i ==> Passes(dg, store[k])
    ensures
      match Scan(store[i..], dg)
      case Stuck => Scan(store, dg) == Stuck
      case Dropped(kept) => Scan(store, dg) == Dropped(store[..i] + kept)
      case Placed(kept, d) => Scan(store, dg) == Placed(store[..i] + kept, d)
    decreases i
  {
    hide Scan, Passes;
    if i == 0 {
      assert store[0..] == store;
    } else {
      var p, rest := store[0], store[1..];
      forall k | 0 <= k < i - 1
        ensures Passes(dg, rest[k])
      {
        assert rest[k] == store[k + 1];
      }
      ScanPassed(rest, dg, i - 1);
      assert rest[i - 1..] == store[i..];
      PassedFirst(store, dg);
      match Scan(store[i..], dg) {
        case Stuck =>
        case Dropped(kept) => assert [p] + (rest[..i - 1] + kept) == store[..i] + kept;
        case Placed(kept, _) => assert [p] + (rest[..i - 1] + kept) == store[..i] + kept;
      }
    }
  }

  /** What one iteration of the scan means for the verdict. */
  lemma IterationKeeps(store: Store, dg: Datagram, i: nat)
    requires Sorted(store) && i < |store| && forall k :: 0 <= k < i ==> Passes(dg, store[k])
    ensures
      var p := store[i];
      if dg.index == p.index && dg.Tail() == p.Tail() then Scan(store, dg) == Dropped(store)
      else if dg.index > p.index && dg.Tail() > p.Tail() then Scan(store, dg) == Placed(store, dg)
      else if p.index < dg.index < p.Tail() then Scan(store, dg) == Dropped(store)
      else if dg.index < p.index < dg.Tail() then
        i == 0 && Scan(store, dg) == Scan(store[1..], if p.Tail() <= dg.Tail() then dg else Merge(dg, p))
      else if dg.index == p.index then
        (if |dg.data| > |p.data| then i == 0 && Scan(store, dg) == Scan(store[1..], dg) else Scan(store, dg) == Stuck)
      else Passes(dg, p)
  {
    ScanPassed(store, dg, i);
    assert store[..i] + store[i..] == store;
    if i > 0 {
      assert Passes(dg, store[i - 1]);
      PassedMeansNoneAbsorbed(dg, store[i - 1], store[i]);
    }
  }

  lemma ScanExhausted(store: Store, dg: Datagram)
    requires forall k :: 0 <= k < |store| ==> Passes(dg, store[k])
    ensures Scan(store, dg) == Placed(store, dg)
  {
    ScanPassed(store, dg, |store|);
    assert store[..|store|] + [] == store;
  }

  class StreamReassembler {
    const output: ByteStream
    const capacity: nat
    var nextAssembling: nat
    var smallest: nat
    var unassembledBytes: nat
    var storage: Store

    ghost predicate Valid()
      reads this, output
    {
      && output.Valid()
      && capacity == output.capacity
      && Sorted(storage)
      && unassembledBytes == StoredBytes(storage)
    }

    ghost function Model(): (r: Reassembler)
      requires Valid()
      reads this, output
      ensures r.out.Valid()
    {
      Reassembler(output.Model(), nextAssembling, smallest, storage)
    }

    constructor (capacity: nat)
      ensures Valid() && fresh(output) && Model() == NewReassembler(capacity)
    {
      output := new ByteStream(capacity);
      this.capacity := capacity;
      nextAssembling, smallest, unassembledBytes, storage := 0, 0, 0, [];
    }

    /** The scan of `missing_middle_handler`. It starts over at the front of the list whenever it
        has erased a datagram. When it would start over without having changed anything, it would
        do so for ever: that is the verdict `Stuck`. */
    method ScanStorage(incoming: Datagram) returns (ghost verdict: Verdict, place: bool, hung: bool, dg: Datagram)
      requires Valid()
      modifies this
      ensures verdict == Scan(old(storage), incoming)
      ensures hung <==> verdict.Stuck?
      ensures nextAssembling == old(nextAssembling) && smallest == old(smallest)
      ensures !hung ==> Valid() && verdict == if place then Placed(storage, dg) else Dropped(storage)
    {
      hung, place, dg := false, true, incoming;
      var ptr := 0;
      verdict := Scan(storage, incoming);
      hide Scan;
      while ptr < |storage|
        invariant 0 <= ptr <= |storage|
        invariant Valid() && nextAssembling == old(nextAssembling) && smallest == old(smallest)
        invariant Scan(storage, dg) == verdict
        invariant forall k :: 0 <= k < ptr ==> Passes(dg, storage[k])
        decreases |storage|, |storage| - ptr
      {
        var p := storage[ptr];
        IterationKeeps(storage, dg, ptr);
        if dg.index == p.index && dg.Tail() == p.Tail() {
          place := false;
          return;
        }
        if dg.index > p.index && dg.Tail() > p.Tail() {
          return;
        }
        if dg.index > p.index && dg.index < p.Tail() {
          place := false;
          return;
        } else if dg.index < p.index && p.index < dg.Tail() {
          if p.Tail() > dg.Tail() {
            dg := Merge(dg, p);
          }
          Erase(ptr);
          ptr := 0;
        } else if dg.index == p.index {
          if |dg.data| <= |p.data| {
            hung := true;
            return;
          }
          Erase(ptr);
          ptr := 0;
        } else {
          ptr := ptr + 1;
        }
      }
      ScanExhausted(storage, dg);
    }

    /** Remove a datagram from the front of the list. */
    method Erase(ptr: nat)
      requires Valid() && ptr == 0 && storage != []
      modifies this`storage, this`unassembledBytes
      ensures Valid() && storage == old(storage)[1..]
    {
      assert storage[..ptr] + storage[ptr + 1..] == storage[1..];
      unassembledBytes := unassembledBytes - |storage[ptr].data|;
      storage := storage[..ptr] + storage[ptr + 1..];
    }

    /** Put a datagram into the list and sort it. */
    method Place(dg: Datagram)
      requires Valid()
      modifies this
      ensures Valid() && storage == InsertOrdered(dg, old(storage)) && smallest == storage[0].index
      ensures nextAssembling == old(nextAssembling)
    {
      StableSortSorted(storage);
      StoredBytesInsert(dg, storage);
      InsertSorted(dg, storage);
      assert ([dg] + storage)[1..] == storage;
      storage := StableSort([dg] + storage);
      unassembledBytes := unassembledBytes + |dg.data|;
      smallest := storage[0].index;
    }

    method MissingMiddleHandler(incoming: Datagram) returns (hung: bool)
      requires Valid()
      modifies this
      ensures hung <==> MissingMiddle(old(Model()), incoming).Hang?
      ensures !hung ==> Valid() && MissingMiddle(old(Model()), incoming) == Done(Model())
    {
      hide Scan, InsertOrdered;
      ghost var verdict;
      var place, dg;
      verdict, place, hung, dg := ScanStorage(incoming);
      if !hung && place {
        Place(dg);
      }
    }

    /** `overlap_handler`: write what lies beyond the bytes already counted, and count all of it. */
    method OverlapHandler(dg: Datagram) returns (exceeded: bool)
      requires Valid() && dg.index < nextAssembling < dg.Tail()
      modifies this, output
      ensures Valid() && Model() == Absorb(old(Model()), dg)
      ensures exceeded == Exceeded(old(Model()), dg)
    {
      var beyond := dg.data[nextAssembling - dg.index..];
      var _ := output.Write(beyond);
      nextAssembling := nextAssembling + |beyond|;
      exceeded := nextAssembling > output.bytesWritten;
    }

    /** The writing part of `push_substring`. */
    method Accept(dg: Datagram) returns (exceeded: bool)
      requires Valid() && dg.index <= nextAssembling
      modifies this, output
      ensures Valid() && Model() == Absorb(old(Model()), dg)
      ensures exceeded == Exceeded(old(Model()), dg)
    {
      exceeded := false;
      if dg.index == nextAssembling {
        var room := output.capacity - output.bufferSize;
        nextAssembling := nextAssembling + if |dg.data| > room then room else |dg.data|;
        var _ := output.Write(dg.data);
      } else if dg.Tail() > nextAssembling {
        exceeded := OverlapHandler(dg);
      }
    }

    /** Take the first datagram off the list. */
    method PopFront() returns (front: Datagram)
      requires Valid() && storage != []
      modifies this`storage, this`unassembledBytes
      ensures Valid() && front == old(storage)[0] && Model() == old(Model()).(store := old(storage)[1..])
    {
      front := storage[0];
      storage := storage[1..];
      unassembledBytes := unassembledBytes - |front.data|;
    }

    method PushSubstring(data: Bytes, index: nat, eof: bool) returns (hung: bool)
      requires Valid()
      modifies this, output
      ensures hung <==> Push(old(Model()), Datagram(data, index, eof)).Hang?
      ensures !hung ==> Valid() && Push(old(Model()), Datagram(data, index, eof)) == Done(Model())
      decreases |storage|
    {
      hide Absorb, Exceeded, MissingMiddle, Sorted, StoredBytes;
      hung := false;
      if output.capacity - output.bufferSize == 0 {
        return;
      }
      var first := if storage == [] then 0 else storage[0].index;
      var limit := if first >= nextAssembling then capacity + first else capacity + nextAssembling;
      if index >= limit {
        return;
      }
      var dg := Datagram(data, index, eof);
      if index > nextAssembling {
        hung := MissingMiddleHandler(dg);
        return;
      }
      var exceeded := Accept(dg);
      if nextAssembling >= smallest && |data| > 0 && |storage| > 0 {
        var front := PopFront();
        hung := PushSubstring(front.data, front.index, front.eof);
        if hung {
          return;
        }
      }
      if eof && !exceeded {
        output.EndInput();
      }
    }

    method UnassembledBytes() returns (n: nat)
      requires Valid()
      ensures n == StoredBytes(Model().store)
    {
      n := unassembledBytes;
    }

    /** `empty`; the source turns the count into a truth value as it is. */
    method Empty() returns (empty: bool)
      requires Valid()
      ensures empty == (StoredBytes(Model().store) != 0)
      ensures empty <==> exists i: nat :: Stored(Model().store, i)
    {
      var n := UnassembledBytes();
      empty := n != 0;
      StoredBytesIff(storage);
    }
  }
}
