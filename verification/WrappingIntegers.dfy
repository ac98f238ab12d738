/** 32-bit sequence numbers and their 64-bit absolute counterparts. */
module WrappingIntegers {
  import opened Basics

  /** `wrap`: truncate the absolute number to 32 bits and add it to the initial number. */
  function Wrap(n: nat, isn: U32): U32
  {
    (isn + n % TWO32) % TWO32
  }

  /** The signed 32-bit difference of two raw numbers. */
  function Distance(a: U32, b: U32): int
  {
    var d := (a - b) % TWO32;
    if d < TWO31 then d else d - TWO32
  }

  /** A 64-bit pattern read as a signed number. */
  function Signed64(x: int): int
  {
    var y := x % TWO64;
    if y < TWO63 then y else y - TWO64
  }

  /** `unwrap`: step from the checkpoint by the signed difference, in 64-bit arithmetic. */
  function Unwrap(n: U32, isn: U32, checkpoint: nat): nat
  {
    var absolute := Signed64(checkpoint + Distance(n, Wrap(checkpoint, isn)));
    if absolute >= 0 then absolute else (absolute + TWO32) % TWO64
  }

  /** `r` wraps to `n`, fits 64 bits, and no other such number is closer to the checkpoint. */
  ghost predicate ClosestTo(r: nat, n: U32, isn: U32, checkpoint: nat)
  {
    && r < TWO64
    && Wrap(r, isn) == n
    && forall v: nat :: v < TWO64 && Wrap(v, isn) == n ==> Gap(r, checkpoint) <= Gap(v, checkpoint)
  }

  function Gap(a: int, b: int): nat
  {
    if a <= b then b - a else a - b
  }

  /** Stepping by the signed difference lands on a number that wraps to `n`. */
  lemma DistanceWraps(n: U32, isn: U32, checkpoint: nat)
    ensures
      var d := Distance(n, Wrap(checkpoint, isn));
      -TWO31 <= d < TWO31 && (isn + checkpoint + d) % TWO32 == n
  {
    var w := Wrap(checkpoint, isn);
    var turns := (isn + checkpoint % TWO32) / TWO32 + checkpoint / TWO32;
    assert w == isn + checkpoint - turns * TWO32;
    var d := Distance(n, w);
    var back := if (n - w) % TWO32 < TWO31 then (n - w) / TWO32 else (n - w) / TWO32 + 1;
    assert d == n - w - back * TWO32;
    Turns(n, turns - back);
  }

  lemma Turns(n: U32, k: int)
    ensures (n + k * TWO32) % TWO32 == n
  {
  }

  lemma WrapsTo(v: nat, n: U32, isn: U32)
    ensures Wrap(v, isn) == n <==> (isn + v) % TWO32 == n
  {
  }

  /** Every number that wraps to `n` is a whole number of turns from checkpoint + distance. */
  lemma WrapClass(v: nat, n: U32, isn: U32, checkpoint: nat) returns (k: int)
    requires Wrap(v, isn) == n
    ensures v == checkpoint + Distance(n, Wrap(checkpoint, isn)) + k * TWO32
  {
    DistanceWraps(n, isn, checkpoint);
    WrapsTo(v, n, isn);
    var d := Distance(n, Wrap(checkpoint, isn));
    k := (isn + v) / TWO32 - (isn + checkpoint + d) / TWO32;
  }

  /** Where the signed 64-bit test sends the sum `x` of checkpoint and distance. */
  function Landing(x: int): (r: int)
    requires -TWO31 <= x < TWO64 + TWO31
    ensures 0 <= r < TWO64 && r % TWO32 == x % TWO32
  {
    if x < 0 then x + TWO32
    else if x < TWO63 then x
    else if x < TWO64 - TWO32 then x + TWO32
    else if x < TWO64 then x + TWO32 - TWO64
    else x - TWO64
  }

  lemma UnwrapLands(n: U32, isn: U32, checkpoint: nat)
    requires checkpoint < TWO64
    ensures
      var x := checkpoint + Distance(n, Wrap(checkpoint, isn));
      -TWO31 <= x < TWO64 + TWO31 && Unwrap(n, isn, checkpoint) == Landing(x)
  {
    hide Wrap, Distance;
    DistanceWraps(n, isn, checkpoint);
  }

  lemma SameClass(x: int, r: nat, n: U32, isn: U32)
    requires (isn + x) % TWO32 == n && r % TWO32 == x % TWO32
    ensures Wrap(r, isn) == n
  {
  }

  /** Whatever the checkpoint, the result wraps back to the number that was given. */
  lemma UnwrapWraps(n: U32, isn: U32, checkpoint: nat)
    requires checkpoint < TWO64
    ensures Unwrap(n, isn, checkpoint) < TWO64
    ensures Wrap(Unwrap(n, isn, checkpoint), isn) == n
  {
    hide Wrap, Distance, Unwrap;
    DistanceWraps(n, isn, checkpoint);
    UnwrapLands(n, isn, checkpoint);
    SameClass(checkpoint + Distance(n, Wrap(checkpoint, isn)), Unwrap(n, isn, checkpoint), n, isn);
  }

  lemma NoTurnIsCloser(checkpoint: nat, d: int, k: int)
    requires checkpoint < TWO64 && -TWO31 <= d < TWO31
    requires checkpoint + d < TWO63 || (d == -TWO31 && checkpoint + d + TWO32 < TWO64)
    requires 0 <= checkpoint + d + k * TWO32 < TWO64
    ensures Gap(Landing(checkpoint + d), checkpoint) <= Gap(checkpoint + d + k * TWO32, checkpoint)
  {
    var far := k * TWO32;
    assert k >= 1 ==> far >= TWO32;
    assert k <= -1 ==> far <= -TWO32;
  }

  /** The documented promise (the result is the closest number to the checkpoint) holds exactly
      when the step stays below 2^63, or is the largest backward step and the wrong turn it then
      takes is equally far. Above that the signed test mistakes the sum for a negative number. */
  lemma UnwrapClosestIff(n: U32, isn: U32, checkpoint: nat)
    requires checkpoint < TWO64
    ensures
      var d := Distance(n, Wrap(checkpoint, isn));
      ClosestTo(Unwrap(n, isn, checkpoint), n, isn, checkpoint)
      <==> checkpoint + d < TWO63 || (d == -TWO31 && checkpoint + d + TWO32 < TWO64)
  {
    hide Wrap, Distance, Unwrap;
    var d := Distance(n, Wrap(checkpoint, isn));
    var x := checkpoint + d;
    DistanceWraps(n, isn, checkpoint);
    UnwrapLands(n, isn, checkpoint);
    UnwrapWraps(n, isn, checkpoint);
    if x < TWO63 || (d == -TWO31 && x + TWO32 < TWO64) {
      forall v: nat | v < TWO64 && Wrap(v, isn) == n
        ensures Gap(Landing(x), checkpoint) <= Gap(v, checkpoint)
      {
        var k := WrapClass(v, n, isn, checkpoint);
        NoTurnIsCloser(checkpoint, d, k);
      }
    } else {
      // the number one turn nearer is a better answer
      var better := if x < TWO64 then x else x - TWO32;
      SameClass(x, better, n, isn);
      assert Gap(better, checkpoint) < Gap(Landing(x), checkpoint);
    }
  }

  /** At a checkpoint of 2^63 a number that wraps to zero is sent one turn too far: 2^63 itself wraps
      to zero. */
  lemma UnwrapTooFar()
    ensures Unwrap(0, 0, TWO63) == TWO63 + TWO32 && !ClosestTo(Unwrap(0, 0, TWO63), 0, 0, TWO63)
  {
    UnwrapClosestIff(0, 0, TWO63);
  }

  lemma OnlyOneTurn(a: int, b: int, k: int)
    requires -TWO31 <= a < TWO31 && -TWO31 <= b < TWO31 && a == b + k * TWO32
    ensures a == b
  {
  }

  /** Wrapping and unwrapping near a checkpoint gives the number back exactly when it is
      below 2^63. */
  lemma UnwrapWrapIff(v: nat, isn: U32, checkpoint: nat)
    requires v < TWO64 && checkpoint < TWO64
    requires -TWO31 <= v - checkpoint < TWO31
    ensures Unwrap(Wrap(v, isn), isn, checkpoint) == v <==> v < TWO63
  {
    hide Wrap, Distance, Unwrap;
    var k := WrapClass(v, Wrap(v, isn), isn, checkpoint);
    DistanceWraps(Wrap(v, isn), isn, checkpoint);
    OnlyOneTurn(v - checkpoint, Distance(Wrap(v, isn), Wrap(checkpoint, isn)), k);
    UnwrapLands(Wrap(v, isn), isn, checkpoint);
  }
}
