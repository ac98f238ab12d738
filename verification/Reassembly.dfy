/** What `StreamReassembler` computes, as functions of its state.

    A call whose scan restarts without having changed anything never returns; such a call has
    the outcome `Hang` (module `ScanLoop` shows that it is exactly the diverging ones). */
module Reassembly {
  import opened Basics
  import opened ByteStreams

  datatype Datagram = Datagram(data: Bytes, index: nat, eof: bool) {
    function Tail(): nat
    {
      index + |data|
    }
  }

  type Store = seq<Datagram>

  /** What the scan of the store decides about an incoming datagram. */
  datatype Verdict =
    | Dropped(store: Store)
    | Placed(store: Store, dg: Datagram)
    | Stuck

  /** The datagram `dg` extended by the part of `next` that lies behind it; `next.eof` is not kept. */
  function Merge(dg: Datagram, next: Datagram): Datagram
    requires next.index <= dg.Tail() <= next.Tail()
  {
    dg.(data := dg.data + next.data[dg.Tail() - next.index..])
  }

  /** One pass over a store sorted by index. */
  function Scan(store: Store, dg: Datagram): Verdict
    decreases |store|
  {
    if store == [] then Placed([], dg)
    else
      var p := store[0];
      if dg.index == p.index && dg.Tail() == p.Tail() then Dropped(store)
      else if dg.index > p.index && dg.Tail() > p.Tail() then Placed(store, dg)
      else if p.index < dg.index < p.Tail() then Dropped(store)
      else if dg.index < p.index < dg.Tail() then
        Scan(store[1..], if p.Tail() <= dg.Tail() then dg else Merge(dg, p))
      else if dg.index == p.index then
        if |dg.data| > |p.data| then Scan(store[1..], dg) else Stuck
      else Keep(p, Scan(store[1..], dg))
  }

  function Keep(p: Datagram, v: Verdict): Verdict
  {
    match v
    case Dropped(store) => Dropped([p] + store)
    case Placed(store, dg) => Placed([p] + store, dg)
    case Stuck => Stuck
  }

  /** In front of the first datagram that does not start earlier. */
  function InsertOrdered(dg: Datagram, store: Store): (placed: Store)
    ensures |placed| == |store| + 1
    decreases |store|
  {
    if store == [] || dg.index <= store[0].index then [dg] + store
    else [store[0]] + InsertOrdered(dg, store[1..])
  }

  /** Bytes waiting in a store, each as often as it is stored. */
  function StoredBytes(store: Store): nat
  {
    if store == [] then 0 else |store[0].data| + StoredBytes(store[1..])
  }

  datatype Reassembler = Reassembler(out: Stream, next: nat, smallest: nat, store: Store) {

    /** The first index that is too far ahead to be kept. */
    function Limit(): nat
    {
      out.capacity + Max(if store == [] then 0 else store[0].index, next)
    }
  }

  function NewReassembler(capacity: nat): Reassembler
  {
    Reassembler(NewStream(capacity), 0, 0, [])
  }

  /** `missing_middle_handler`: keep a datagram that starts beyond the next missing byte. */
  function MissingMiddle(r: Reassembler, dg: Datagram): Outcome<Reassembler>
  {
    match Scan(r.store, dg)
    case Stuck => Hang
    case Dropped(store) => Done(r.(store := store))
    case Placed(store, d) =>
      var placed := InsertOrdered(d, store);
      Done(r.(store := placed, smallest := placed[0].index))
  }

  /** `later` is `s` after some writes and perhaps the end of its input. */
  predicate Extends(s: Stream, later: Stream)
  {
    && later.capacity == s.capacity && later.read == s.read && later.error == s.error
    && s.written <= later.written
    && (s.ended ==> later.ended)
  }

  /** The part of `push_substring` that writes. An exact fit counts only what the stream took;
      an overlap counts every byte handed over, even those the stream refused. */
  function Absorb(r: Reassembler, dg: Datagram): (r': Reassembler)
    requires r.out.Valid()
    requires dg.index <= r.next
    ensures r'.out.Valid() && Extends(r.out, r'.out) && r'.store == r.store && r'.smallest == r.smallest
  {
    if dg.index == r.next then
      r.(next := r.next + Min(|dg.data|, r.out.Remaining()), out := r.out.Write(dg.data))
    else if dg.Tail() > r.next then
      r.(next := dg.Tail(), out := r.out.Write(dg.data[r.next - dg.index..]))
    else r
  }

  predicate Exceeded(r: Reassembler, dg: Datagram)
    requires r.out.Valid()
    requires dg.index <= r.next
  {
    dg.index < r.next < dg.Tail() && Absorb(r, dg).next > |Absorb(r, dg).out.written|
  }

  /** `push_substring`: write what fits, then feed the front of the store back in. */
  function Push(r: Reassembler, dg: Datagram): (o: Outcome<Reassembler>)
    requires r.out.Valid()
    ensures o.Done? ==> o.value.out.Valid() && Extends(r.out, o.value.out)
    decreases |r.store|
  {
    if r.out.Remaining() == 0 || dg.index >= r.Limit() then Done(r)
    else if dg.index > r.next then MissingMiddle(r, dg)
    else
      var r1 := Absorb(r, dg);
      var o :=
        if r1.next >= r1.smallest && dg.data != [] && r1.store != []
        then Push(r1.(store := r1.store[1..]), r1.store[0])
        else Done(r1);
      if o.Done? && dg.eof && !Exceeded(r, dg) then Done(o.value.(out := o.value.out.EndInput())) else o
  }

  function Read(r: Reassembler, len: nat): Reassembler
    requires r.out.Valid()
  {
    r.(out := r.out.Pop(len))
  }
}
