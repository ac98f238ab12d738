/** The restarting loop of `missing_middle_handler`, one iteration at a time.

    The loop walks the store from the front and starts over whenever it has absorbed a datagram.
    On a sorted store this is the single pass `Scan`, and it runs for ever exactly when that
    pass says `Stuck`. */
module ScanLoop {
  import opened Basics
  import opened Reassembly
  import opened ReassemblyTheorems

  datatype Config = At(store: Store, dg: Datagram, i: nat) | Final(verdict: Verdict)

  function Without(store: Store, i: nat): Store
    requires i < |store|
  {
    store[..i] + store[i + 1..]
  }

  /** Start over at the front, or leave the loop when nothing is left to scan. */
  function Restart(store: Store, dg: Datagram): Config
  {
    if store == [] then Final(Placed([], dg)) else At(store, dg, 0)
  }

  /** One iteration. */
  function Step(c: Config): Config
  {
    match c
    case Final(_) => c
    case At(store, dg, i) =>
      if i >= |store| then Final(Placed(store, dg))
      else
        var p := store[i];
        if dg.index == p.index && dg.Tail() == p.Tail() then Final(Dropped(store))
        else if dg.index > p.index && dg.Tail() > p.Tail() then Final(Placed(store, dg))
        else if p.index < dg.index < p.Tail() then Final(Dropped(store))
        else if dg.index < p.index < dg.Tail() then
          Restart(Without(store, i), if p.Tail() <= dg.Tail() then dg else Merge(dg, p))
        else if dg.index == p.index then
          Restart(if |dg.data| > |p.data| then Without(store, i) else store, dg)
        else At(store, dg, i + 1)
  }

  function Iterate(c: Config, n: nat): Config
    decreases n
  {
    if n == 0 then c else Iterate(Step(c), n - 1)
  }

  ghost predicate Reaches(c: Config, v: Verdict)
  {
    exists n: nat :: Iterate(c, n) == Final(v)
  }

  ghost predicate Diverges(c: Config)
  {
    forall n: nat :: Iterate(c, n).At?
  }

  lemma ReachesAfter(c: Config, v: Verdict)
    requires Reaches(Step(c), v)
    ensures Reaches(c, v)
  {
    var n: nat :| Iterate(Step(c), n) == Final(v);
    assert Iterate(c, n + 1) == Final(v);
  }

  lemma DivergesAfter(c: Config)
    requires c.At? && Diverges(Step(c))
    ensures Diverges(c)
  {
    forall n: nat
      ensures Iterate(c, n).At?
    {
      if n > 0 {
        assert Iterate(Step(c), n - 1).At?;
      }
    }
  }

  /** The walk goes past `p` without doing anything. */
  ghost predicate Passes(dg: Datagram, p: Datagram)
  {
    (dg.index < p.index && dg.Tail() <= p.index) || (dg.data == [] && p.index < dg.index == p.Tail())
  }

  ghost predicate Longer(dg: Datagram, p: Datagram)
  {
    p.index == dg.index && |p.data| > |dg.data|
  }

  /** The walk meets a longer datagram with the same start before anything else happens. */
  ghost predicate StuckAt(store: Store, dg: Datagram, j: nat)
  {
    && j < |store| && Longer(dg, store[j])
    && forall k :: 0 <= k < j ==> Passes(dg, store[k])
  }

  lemma {:induction false} Circles(store: Store, dg: Datagram, j: nat, i: nat, n: nat)
    requires StuckAt(store, dg, j) && i <= j
    ensures Iterate(At(store, dg, i), n).At?
    decreases n
  {
    if n > 0 {
      Circles(store, dg, j, if i == j then 0 else i + 1, n - 1);
      assert i < j ==> Passes(dg, store[i]);
    }
  }

  /** Behind a datagram that was passed, nothing is absorbed any more. */
  lemma PassedMeansNoneAbsorbed(dg: Datagram, p: Datagram, e: Datagram)
    requires Passes(dg, p) && p.index <= e.index
    ensures !(dg.index < e.index < dg.Tail())
    ensures !(dg.index == e.index && |dg.data| > |e.data|)
  {
  }

  lemma {:induction false} WalkOn(store: Store, dg: Datagram, i: nat)
    requires Sorted(store) && 0 < i <= |store|
    requires forall k :: 0 <= k < i ==> Passes(dg, store[k])
    ensures
      match Scan(store[i..], dg)
      case Stuck => exists j: nat :: StuckAt(store, dg, j)
      case Dropped(kept) => kept == store[i..] && Reaches(At(store, dg, i), Dropped(store))
      case Placed(kept, d) => kept == store[i..] && d == dg && Reaches(At(store, dg, i), Placed(store, dg))
    decreases |store| - i
  {
    var c := At(store, dg, i);
    if i == |store| {
      assert Iterate(c, 1) == Final(Placed(store, dg));
    } else {
      var p := store[i];
      PassedMeansNoneAbsorbed(dg, store[i - 1], p);
      assert store[i..][1..] == store[i + 1..];
      assert store[i..] == [p] + store[i + 1..];
      if Longer(dg, p) {
        assert StuckAt(store, dg, i);
      } else if Passes(dg, p) {
        WalkOn(store, dg, i + 1);
        match Scan(store[i + 1..], dg) {
          case Stuck =>
          case Dropped(_) => ReachesAfter(c, Dropped(store));
          case Placed(_, _) => ReachesAfter(c, Placed(store, dg));
        }
      } else {
        assert Step(c).Final?;
        assert Iterate(c, 1) == Step(c);
      }
    }
  }

  /** On a sorted store the loop computes `Scan`, and never ends exactly when `Scan` is stuck. */
  lemma {:induction false} LoopIsScan(store: Store, dg: Datagram)
    requires Sorted(store)
    ensures Scan(store, dg).Stuck? ==> Diverges(At(store, dg, 0))
    ensures !Scan(store, dg).Stuck? ==> Reaches(At(store, dg, 0), Scan(store, dg))
    decreases |store|
  {
    var c := At(store, dg, 0);
    if store == [] {
      assert Iterate(c, 1) == Final(Placed(store, dg));
    } else {
      var p := store[0];
      assert Without(store, 0) == store[1..];
      if Passes(dg, p) {
        FirstPassed(store, dg);
      } else if dg.index < p.index < dg.Tail() {
        Absorbed(store, dg, if p.Tail() <= dg.Tail() then dg else Merge(dg, p));
      } else if dg.index == p.index && |dg.data| > |p.data| {
        Absorbed(store, dg, dg);
      } else {
        FirstDecides(store, dg);
      }
    }
  }

  /** The first datagram either ends the loop or sends it round in circles. */
  lemma FirstDecides(store: Store, dg: Datagram)
    requires store != [] && !Passes(dg, store[0])
    requires !(dg.index < store[0].index < dg.Tail())
    requires !(dg.index == store[0].index && |dg.data| > |store[0].data|)
    ensures Scan(store, dg).Stuck? ==> Diverges(At(store, dg, 0))
    ensures !Scan(store, dg).Stuck? ==> Reaches(At(store, dg, 0), Scan(store, dg))
  {
    var c := At(store, dg, 0);
    if Longer(dg, store[0]) {
      assert StuckAt(store, dg, 0);
      forall n: nat ensures Iterate(c, n).At? { Circles(store, dg, 0, 0, n); }
    } else {
      assert Iterate(c, 1) == Step(c) == Final(Scan(store, dg));
    }
  }

  lemma {:induction false} Absorbed(store: Store, dg: Datagram, dg': Datagram)
    requires Sorted(store) && store != []
    requires Step(At(store, dg, 0)) == Restart(store[1..], dg')
    requires Scan(store, dg) == Scan(store[1..], dg')
    ensures Scan(store, dg).Stuck? ==> Diverges(At(store, dg, 0))
    ensures !Scan(store, dg).Stuck? ==> Reaches(At(store, dg, 0), Scan(store, dg))
    decreases |store|, 0
  {
    var c := At(store, dg, 0);
    if store[1..] == [] {
      assert Iterate(c, 1) == Step(c);
    } else {
      LoopIsScan(store[1..], dg');
      if Scan(store[1..], dg').Stuck? {
        DivergesAfter(c);
      } else {
        ReachesAfter(c, Scan(store, dg));
      }
    }
  }

  lemma FirstPassed(store: Store, dg: Datagram)
    requires Sorted(store) && store != [] && Passes(dg, store[0])
    ensures Scan(store, dg).Stuck? ==> Diverges(At(store, dg, 0))
    ensures !Scan(store, dg).Stuck? ==> Reaches(At(store, dg, 0), Scan(store, dg))
  {
    var c := At(store, dg, 0);
    WalkOn(store, dg, 1);
    assert store == [store[0]] + store[1..];
    match Scan(store[1..], dg) {
      case Stuck =>
        var j: nat :| StuckAt(store, dg, j);
        forall n: nat ensures Iterate(c, n).At? { Circles(store, dg, j, 0, n); }
      case Dropped(_) => ReachesAfter(c, Dropped(store));
      case Placed(_, _) => ReachesAfter(c, Placed(store, dg));
    }
  }

  /** A shorter datagram with the same start or, for an empty datagram, one that ends where it
      stands. */
  ghost predicate Gives(dg: Datagram, p: Datagram)
  {
    || (p.index == dg.index && |p.data| < |dg.data|)
    || (dg.data == [] && p.index < dg.index == p.Tail())
  }

  /** Nothing in front of a longer datagram with the same start stops the walk. */
  ghost predicate Blocks(store: Store, dg: Datagram, k: nat)
  {
    && k < |store| && Longer(dg, store[k])
    && forall j :: 0 <= j < k ==> Gives(dg, store[j])
  }

  ghost predicate Blocked(store: Store, dg: Datagram)
  {
    exists k: nat :: Blocks(store, dg, k)
  }

  lemma BlockedCons(store: Store, dg: Datagram)
    requires store != []
    ensures Blocked(store, dg) <==> Longer(dg, store[0]) || (Gives(dg, store[0]) && Blocked(store[1..], dg))
  {
    if Longer(dg, store[0]) {
      assert Blocks(store, dg, 0);
    }
    if Gives(dg, store[0]) && Blocked(store[1..], dg) {
      var k: nat :| Blocks(store[1..], dg, k);
      assert Blocks(store, dg, k + 1);
    }
    if Blocked(store, dg) {
      var k: nat :| Blocks(store, dg, k);
      if k > 0 {
        assert store[1..][k - 1] == store[k];
        assert Blocks(store[1..], dg, k - 1);
      }
    }
  }

  lemma AheadNotBlocked(store: Store, dg: Datagram)
    requires forall d :: d in store ==> dg.index < d.index
    ensures !Blocked(store, dg)
  {
  }

  /** Exactly when the loop never ends: the first same-start datagram that is not shorter is
      strictly longer, and nothing in front of it stops the walk. */
  lemma {:induction false} StuckIff(store: Store, dg: Datagram)
    requires Sorted(store)
    ensures Scan(store, dg).Stuck? <==> Blocked(store, dg)
    decreases |store|
  {
    if store != [] {
      hide Blocked;
      var p := store[0];
      BlockedCons(store, dg);
      if dg.index < p.index {
        var dg' := if p.index < dg.Tail() < p.Tail() then Merge(dg, p) else dg;
        StuckIff(store[1..], dg');
        AheadNotBlocked(store[1..], dg');
      } else {
        StuckIff(store[1..], dg);
      }
    } else {
      assert !Blocked(store, dg);
    }
  }
}
