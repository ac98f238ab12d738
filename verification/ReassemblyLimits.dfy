/** Where the reassembler does not keep what its interface promises, and exactly when it does. */
module ReassemblyLimits {
  import opened Basics
  import opened ByteStreams
  import opened Reassembly
  import opened ReassemblyTheorems

  // ---------------------------------------------------------------- beyond the room

  /** What a reader of the output relies on. */
  ghost predicate Sound(whole: Bytes, r: Reassembler)
  {
    && r.next == |r.out.written|
    && r.out.written <= whole
    && (r.out.ended ==> r.out.written == whole)
  }

  /** The push reaches past the room, and either overlaps what is written or carries the end. */
  predicate Overruns(r: Reassembler, dg: Datagram)
  {
    && r.out.Remaining() > 0
    && dg.index <= r.next
    && dg.Tail() > Edge(r)
    && (dg.index < r.next || dg.eof)
  }

  /** Bytes beyond the room are not always silently discarded. From a good state a completed push
      of a true slice keeps the output sound exactly when it does not overrun. */
  lemma PushSoundIff(whole: Bytes, r: Reassembler, dg: Datagram)
    requires Inv(whole, r) && Slice(whole, dg)
    requires Push(r, dg).Done?
    ensures Sound(whole, Push(r, dg).value) <==> !Overruns(r, dg)
  {
    if dg.Tail() <= Edge(r) {
      PushKeeps(whole, r, dg);
    } else if r.out.Remaining() > 0 && dg.index <= r.next {
      Fills(whole, r, dg);
    }
  }

  lemma PrefixOfSlice(whole: Bytes, from: nat, n: nat, to: nat)
    requires from + n <= to <= |whole|
    ensures whole[from..to][..n] == whole[from..from + n]
  {
  }

  /** A push past the room fills the stream, so nothing more is written in that call. */
  lemma Fills(whole: Bytes, r: Reassembler, dg: Datagram)
    requires Inv(whole, r) && Slice(whole, dg)
    requires r.out.Remaining() > 0 && dg.index <= r.next && dg.Tail() > Edge(r)
    ensures
      var r1 := Absorb(r, dg);
      && r1.out.written == whole[..Edge(r)] && r1.out.Remaining() == 0
      && r1.next == (if dg.index < r.next then dg.Tail() else Edge(r))
      && Push(r, dg).Done?
      && Push(r, dg).value.next == r1.next
      && Push(r, dg).value.out == (if dg.eof && dg.index == r.next then r1.out.EndInput() else r1.out)
  {
    var unseen := dg.data[r.next - dg.index..];
    assert unseen == whole[r.next..dg.Tail()];
    PrefixOfSlice(whole, r.next, r.out.Remaining(), dg.Tail());
    assert whole[..r.next] + whole[r.next..Edge(r)] == whole[..Edge(r)];
    if dg.index == r.next {
      assert dg.data == unseen;
    }
  }

  /** Which substrings are too far ahead: those that start a capacity or more beyond both the next
      missing byte and the first stored one. They change nothing; any other substring ahead is kept
      to its last byte. */
  lemma TooFarAheadIff(r: Reassembler, dg: Datagram, i: nat)
    requires r.out.Valid() && r.out.Remaining() > 0 && r.next < dg.index && Push(r, dg).Done?
    ensures
      var front := if r.store == [] then 0 else r.store[0].index;
      if dg.index >= r.next + r.out.capacity && dg.index >= front + r.out.capacity
      then Push(r, dg).value == r
      else Covers(Push(r, dg).value, i) <==> Covers(r, i) || Holds(dg, i)
  {
    hide Stored, Scan;
    if dg.index < r.Limit() {
      MissingMiddleCovers(r, dg, i);
    }
  }

  lemma WritesAll(s: Stream, data: Bytes)
    requires s.Valid() && |data| <= s.Remaining()
    ensures s.Write(data) == s.(written := s.written + data)
  {
    assert data[..|data|] == data;
  }

  lemma WrittenInOrder(r: Reassembler, dg: Datagram)
    requires r.out.Valid() && 0 < r.out.Remaining() && |dg.data| <= r.out.Remaining()
    requires r.store == [] && dg.index == r.next && !dg.eof
    ensures Push(r, dg) == Done(r.(next := dg.Tail(), out := r.out.(written := r.out.written + dg.data)))
  {
    WritesAll(r.out, dg.data);
  }

  /** A substring ahead of the output that ends up alone in the store. */
  lemma StoredAlone(r: Reassembler, dg: Datagram, d: Datagram)
    requires r.out.Valid() && r.out.Remaining() > 0 && r.next < dg.index < r.Limit()
    requires Scan(r.store, dg) == Placed([], d)
    ensures Push(r, dg) == Done(r.(store := [d], smallest := d.index))
  {
    assert InsertOrdered(d, []) == [d];
  }

  /** A substring that overlaps the output and passes the room corrupts the stream: the byte
      that was refused is never asked for again. */
  lemma OverlapPastRoomCorrupts()
    ensures
      var r0 := NewReassembler(2);
      var ops := [PushOp(Datagram([1], 0, false)), PushOp(Datagram([1, 2, 3], 0, false)),
                  ReadOp(2), PushOp(Datagram([4], 3, false))];
      && Run(r0, ops).Done?
      && Run(r0, ops).value.out.written == [1, 2, 4]
  {
    var r0 := NewReassembler(2);
    var ops := [PushOp(Datagram([1], 0, false)), PushOp(Datagram([1, 2, 3], 0, false)),
                ReadOp(2), PushOp(Datagram([4], 3, false))];
    var r1 := Reassembler(Stream(2, [1], 0, false, false), 1, 0, []);
    WrittenInOrder(r0, ops[0].dg);
    assert r0.out.written + ops[0].dg.data == [1];
    RunCons(r0, ops[0], [ops[1], ops[2], ops[3]], r1);
    var r2 := Reassembler(Stream(2, [1, 2], 0, false, false), 3, 0, []);
    OverlapPastRoom(r1, ops[1].dg, r2);
    RunCons(r1, ops[1], [ops[2], ops[3]], r2);
    var r3 := Reassembler(Stream(2, [1, 2], 2, false, false), 3, 0, []);
    RunCons(r2, ops[2], [ops[3]], r3);
    WrittenInOrder(r3, ops[3].dg);
    assert r3.out.written + ops[3].dg.data == [1, 2, 4];
    RunCons(r3, ops[3], [], Reassembler(Stream(2, [1, 2, 4], 2, false, false), 4, 0, []));
    assert ops == [ops[0]] + [ops[1], ops[2], ops[3]];
  }

  lemma OverlapPastRoom(r: Reassembler, dg: Datagram, r': Reassembler)
    requires r == Reassembler(Stream(2, [1], 0, false, false), 1, 0, [])
    requires dg == Datagram([1, 2, 3], 0, false)
    requires r' == Reassembler(Stream(2, [1, 2], 0, false, false), 3, 0, [])
    ensures Push(r, dg) == Done(r')
  {
    assert dg.data[1..] == [2, 3] && dg.data[1..][..1] == [2];
    assert r.out.Write(dg.data[1..]).written == [1, 2];
  }

  lemma RunCons(r: Reassembler, op: Op, ops: seq<Op>, r': Reassembler)
    requires r.out.Valid() && r'.out.Valid() && Apply(r, op) == Done(r')
    ensures Run(r, [op] + ops) == Run(r', ops)
  {
    assert ([op] + ops)[1..] == ops;
  }
}
