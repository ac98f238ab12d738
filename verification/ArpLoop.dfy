/** The loop of `NetworkInterface::tick` over the pending requests, one iteration at a time. It
    walks the hops in ascending order, and does not go on to the next hop after repeating a
    request. */
module ArpLoop {
  import opened Basics
  import opened Arp

  datatype Config = At(k: nat, pending: map<U32, nat>, asked: seq<U32>) | End(pending: map<U32, nat>, asked: seq<U32>)

  /** One iteration. */
  function Step(keys: seq<U32>, ms: nat, c: Config): Config
  {
    match c
    case End(_, _) => c
    case At(k, pending, asked) =>
      if k >= |keys| then End(pending, asked)
      else
        var hop := keys[k];
        var timer := if hop in pending then pending[hop] else 0;
        if timer <= ms then At(k, pending[hop := REQUEST_TTL], asked + [hop])
        else At(k + 1, pending[hop := timer - ms], asked)
  }

  function Iterate(keys: seq<U32>, ms: nat, c: Config, n: nat): Config
    decreases n
  {
    if n == 0 then c else Iterate(keys, ms, Step(keys, ms, c), n - 1)
  }

  ghost predicate Reaches(keys: seq<U32>, ms: nat, c: Config, e: Config)
  {
    exists n: nat :: Iterate(keys, ms, c, n) == e
  }

  lemma ReachesAfter(keys: seq<U32>, ms: nat, c: Config, e: Config)
    requires Reaches(keys, ms, Step(keys, ms, c), e)
    ensures Reaches(keys, ms, c, e)
  {
    var n: nat :| Iterate(keys, ms, Step(keys, ms, c), n) == e;
    assert Iterate(keys, ms, c, n + 1) == e;
  }

  lemma ReachesOn(keys: seq<U32>, ms: nat, c: Config, e: Config)
    requires Reaches(keys, ms, c, e) && c.At? && e.End?
    ensures Reaches(keys, ms, Step(keys, ms, c), e)
  {
    var n: nat :| Iterate(keys, ms, c, n) == e;
    assert Iterate(keys, ms, Step(keys, ms, c), n - 1) == e;
  }

  ghost predicate Diverges(keys: seq<U32>, ms: nat, c: Config)
  {
    forall n: nat :: Iterate(keys, ms, c, n).At?
  }

  lemma DivergesOn(keys: seq<U32>, ms: nat, c: Config)
    requires Diverges(keys, ms, c)
    ensures Diverges(keys, ms, Step(keys, ms, c)) && Step(keys, ms, c).At?
  {
    forall n: nat
      ensures Iterate(keys, ms, Step(keys, ms, c), n).At?
    {
      assert Iterate(keys, ms, c, n + 1).At?;
    }
    assert Iterate(keys, ms, Step(keys, ms, c), 0).At?;
  }

  lemma EndStays(keys: seq<U32>, ms: nat, c: Config, n: nat)
    requires c.End?
    ensures Iterate(keys, ms, c, n) == c
    decreases n
  {
  }

  /** A loop cannot both come to an end and stay on an expired hop. */
  lemma EndsOrStays(keys: seq<U32>, ms: nat, c: Config, e: Config)
    requires Reaches(keys, ms, c, e) && e.End?
    ensures !Diverges(keys, ms, c)
  {
    var n: nat :| Iterate(keys, ms, c, n) == e;
  }

  // ---------------------------------------------------------------- the hops, in order

  ghost predicate Increasing(keys: seq<U32>)
  {
    forall i, j :: 0 <= i < j < |keys| ==> keys[i] < keys[j]
  }

  lemma {:induction false} AscendingIs(s: set<U32>)
    ensures Increasing(Ascending(s)) && forall x :: x in Ascending(s) <==> x in s
    decreases |s|
  {
    if s != {} {
      var m, rest := Least(s), s - {Least(s)};
      AscendingIs(rest);
      assert Ascending(s) == [m] + Ascending(rest);
      hide Ascending, Least;
      IncreasingCons(m, Ascending(rest), s);
    }
  }

  lemma IncreasingCons(m: U32, keys: seq<U32>, s: set<U32>)
    requires IsLeast(s, m) && Increasing(keys) && forall x :: x in keys <==> x in s - {m}
    ensures Increasing([m] + keys) && forall x :: x in [m] + keys <==> x in s
  {
    forall i, j | 0 <= i < j < |[m] + keys|
      ensures ([m] + keys)[i] < ([m] + keys)[j]
    {
      assert ([m] + keys)[j] == keys[j - 1];
      assert keys[j - 1] in keys;
    }
  }

  /** The hops asked again are exactly the expired ones, each once, in ascending order. */
  lemma {:induction false} ExpiredIs(pending: map<U32, nat>, keys: seq<U32>, ms: nat)
    requires Increasing(keys)
    ensures Increasing(Expired(pending, keys, ms))
    ensures forall x :: x in Expired(pending, keys, ms) <==> x in keys && x in pending && pending[x] <= ms
    decreases |keys|
  {
    if keys != [] {
      var front, last := keys[..|keys| - 1], keys[|keys| - 1];
      assert keys == front + [last];
      ExpiredIs(pending, front, ms);
      var e := Expired(pending, front, ms);
      forall i, j | 0 <= i < j < |e + [last]|
        ensures (e + [last])[i] < (e + [last])[j]
      {
        assert e[i] in e;
        assert e[i] in front;
      }
    }
  }

  // ---------------------------------------------------------------- when it ends

  /** The map when the hops in `done` have been served. */
  function Served(pending: map<U32, nat>, done: seq<U32>, ms: nat): map<U32, nat>
  {
    map ip | ip in pending :: if ip !in done then pending[ip] else Restarted(pending[ip], ms)
  }

  /** What a tick leaves of a timer. */
  function Restarted(timer: nat, ms: nat): nat
  {
    if timer > ms then timer - ms else if ms < REQUEST_TTL then REQUEST_TTL - ms else 0
  }

  /** Where the loop stands when it comes to hop `k`. */
  function Before(pending: map<U32, nat>, keys: seq<U32>, ms: nat, k: nat): Config
    requires k <= |keys|
  {
    At(k, Served(pending, keys[..k], ms), Expired(pending, keys[..k], ms))
  }

  lemma ServedOne(pending: map<U32, nat>, done: seq<U32>, hop: U32, ms: nat)
    requires hop in pending && hop !in done
    ensures Served(pending, done, ms).Keys == pending.Keys && Served(pending, done, ms)[hop] == pending[hop]
    ensures Served(pending, done + [hop], ms) == Served(pending, done, ms)[hop := Restarted(pending[hop], ms)]
  {
  }

  /** One hop takes one iteration, or two if its request is repeated. */
  lemma OneHop(pending: map<U32, nat>, keys: seq<U32>, ms: nat, k: nat)
    requires ms < REQUEST_TTL || forall ip :: ip in pending ==> pending[ip] > ms
    requires Increasing(keys) && k < |keys| && keys[k] in pending
    ensures
      var c, c' := Before(pending, keys, ms, k), Before(pending, keys, ms, k + 1);
      c' == if pending[keys[k]] <= ms then Step(keys, ms, Step(keys, ms, c)) else Step(keys, ms, c)
  {
    hide Served;
    var hop, done := keys[k], keys[..k];
    assert keys[..k + 1] == done + [hop];
    assert (done + [hop])[..k] == done;
    assert hop !in done;
    ServedOne(pending, done, hop, ms);
    var p := Served(pending, done, ms);
    if pending[hop] <= ms {
      var left: nat := REQUEST_TTL - ms;
      var again: map<U32, nat> := p[hop := REQUEST_TTL];
      assert again[hop := left] == p[hop := left];
    }
  }

  lemma {:induction false} Walk(pending: map<U32, nat>, keys: seq<U32>, ms: nat, k: nat)
    requires ms < REQUEST_TTL || forall ip :: ip in pending ==> pending[ip] > ms
    requires Increasing(keys) && k <= |keys| && forall x :: x in keys ==> x in pending
    ensures Reaches(keys, ms, Before(pending, keys, ms, k), End(Served(pending, keys, ms), Expired(pending, keys, ms)))
    decreases |keys| - k
  {
    hide Served;
    var c, e := Before(pending, keys, ms, k), End(Served(pending, keys, ms), Expired(pending, keys, ms));
    if k == |keys| {
      assert keys[..k] == keys;
      assert Iterate(keys, ms, c, 1) == e;
    } else {
      hide Before, Step;
      OneHop(pending, keys, ms, k);
      Walk(pending, keys, ms, k + 1);
      if pending[keys[k]] <= ms {
        ReachesAfter(keys, ms, Step(keys, ms, c), e);
      }
      ReachesAfter(keys, ms, c, e);
    }
  }

  lemma {:induction false} Stays(keys: seq<U32>, ms: nat, c: Config, j: nat, n: nat)
    requires Increasing(keys) && ms >= REQUEST_TTL
    requires c.At? && c.k <= j < |keys| && keys[j] in c.pending && c.pending[keys[j]] <= ms
    ensures Iterate(keys, ms, c, n).At?
    decreases n
  {
    if n > 0 {
      Stays(keys, ms, Step(keys, ms, c), j, n - 1);
    }
  }

  /** The loop computes what `Tick` says, and runs for ever exactly when `Tick` hangs. */
  lemma LoopIsTick(i: Interface, ms: nat)
    ensures
      var keys := Ascending(i.pending.Keys);
      var start := At(0, i.pending, []);
      match Tick(i, ms)
      case Hang => Diverges(keys, ms, start)
      case Done(i') => Reaches(keys, ms, start, End(i'.pending, Expired(i.pending, keys, ms)))
  {
    hide Ascending, Iterate, Reaches, Served;
    var keys, start := Ascending(i.pending.Keys), At(0, i.pending, []);
    AscendingIs(i.pending.Keys);
    match Tick(i, ms) {
      case Hang =>
        var hop :| hop in i.pending && i.pending[hop] <= ms;
        assert hop in keys;
        var j :| 0 <= j < |keys| && keys[j] == hop;
        forall n: nat ensures Iterate(keys, ms, start, n).At? { Stays(keys, ms, start, j, n); }
      case Done(i') =>
        Walk(i.pending, keys, ms, 0);
        assert Before(i.pending, keys, ms, 0) == start && i'.pending == Served(i.pending, keys, ms)
          by { hide Expired; NoneAndAllServed(i, keys, ms); }
    }
  }

  lemma NoneAndAllServed(i: Interface, keys: seq<U32>, ms: nat)
    requires Tick(i, ms).Done? && forall x :: x in keys <==> x in i.pending
    ensures Before(i.pending, keys, ms, 0) == At(0, i.pending, [])
    ensures Tick(i, ms).value.pending == Served(i.pending, keys, ms)
  {
    assert Served(i.pending, keys[..0], ms) == i.pending;
  }
}
