/** The Internet checksum (RFC 1071). */
module Checksum {
  import opened Basics

  /** What a byte adds to the sum: the high byte of a 16-bit word, or the low one. */
  function Weight(b: Byte, low: bool): nat
  {
    if low then b as int else b as int * 256
  }

  /** The sum of the 16-bit words of `data`, the first byte being a low one if `low`. */
  function Sum(data: Bytes, low: bool): nat
  {
    if data == [] then 0 else Weight(data[0], low) + Sum(data[1..], !low)
  }

  /** Is the next byte a low one, after `n` more bytes? */
  function After(low: bool, n: nat): bool
  {
    if n % 2 == 0 then low else !low
  }

  /** Splitting the input makes no difference. */
  lemma {:induction false} SumConcat(a: Bytes, b: Bytes, low: bool)
    ensures Sum(a + b, low) == Sum(a, low) + Sum(b, After(low, |a|))
    decreases |a|
  {
    if a == [] {
      assert a + b == b;
    } else {
      assert (a + b)[1..] == a[1..] + b;
      SumConcat(a[1..], b, !low);
    }
  }

  lemma {:induction false} SumBound(data: Bytes, low: bool)
    ensures Sum(data, low) <= 65280 * |data|
    decreases |data|
  {
    if data != [] {
      SumBound(data[1..], !low);
    }
  }

  /** Fold the carries back in until 16 bits are left. */
  function Fold(x: nat): nat
  {
    if x > 0xFFFF then Fold(x / TWO16 + x % TWO16) else x
  }

  /** `value`: the complement of the folded sum. */
  function Value(sum: nat): U16
  {
    FoldBound(sum);
    0xFFFF - Fold(sum)
  }

  lemma {:induction false} FoldBound(x: nat)
    ensures Fold(x) <= 0xFFFF
    decreases x
  {
    if x > 0xFFFF {
      FoldBound(x / TWO16 + x % TWO16);
    }
  }

  lemma FoldStep(x: nat)
    ensures (x / TWO16 + x % TWO16) % 0xFFFF == x % 0xFFFF
    ensures x > 0 ==> x / TWO16 + x % TWO16 > 0
  {
    var q, r := x / TWO16, x % TWO16;
    assert x == (q + r) + 0xFFFF * q;
    Multiple(q + r, q);
  }

  lemma Multiple(n: nat, k: nat)
    ensures (n + 0xFFFF * k) % 0xFFFF == n % 0xFFFF
  {
  }

  /** Folding keeps the value modulo 2^16 - 1, and only zero folds to zero. */
  lemma {:induction false} FoldKeeps(x: nat)
    ensures Fold(x) <= 0xFFFF && Fold(x) % 0xFFFF == x % 0xFFFF && (Fold(x) == 0 <==> x == 0)
    decreases x
  {
    if x > 0xFFFF {
      FoldStep(x);
      FoldKeeps(x / TWO16 + x % TWO16);
    }
  }

  /** A sum verifies exactly when it is a positive multiple of 2^16 - 1. */
  lemma VerifiesIff(sum: nat)
    ensures Value(sum) == 0 <==> sum > 0 && sum % 0xFFFF == 0
  {
    FoldKeeps(sum);
  }

  /** Adding the checksum of a sum to it makes it verify. */
  lemma FilledInVerifies(sum: nat)
    ensures Value(sum + Value(sum)) == 0
  {
    FoldKeeps(sum);
    VerifiesIff(sum + Value(sum));
    var f := Fold(sum);
    assert (sum + (0xFFFF - f)) % 0xFFFF == 0 by {
      var k, j := sum / 0xFFFF, f / 0xFFFF;
      assert sum - f == 0xFFFF * (k - j);
      Multiple(0, k - j + 1);
    }
  }

  /** Bytes with a zero word at an even place, and the same with that word filled in. */
  lemma SumFilled(front: Bytes, hi: Byte, lo: Byte, back: Bytes)
    requires |front| % 2 == 0
    ensures Sum(front + [hi, lo] + back, false) == Sum(front + [0, 0] + back, false) + 256 * hi as int + lo as int
  {
    SumConcat(front + [hi, lo], back, false);
    SumConcat(front + [0, 0], back, false);
    SumConcat(front, [hi, lo], false);
    SumConcat(front, [0, 0], false);
    assert [hi, lo][1..] == [lo] && [lo][1..] == [];
    var z: Bytes := [0, 0];
    assert z[1..] == [0] && z[1..][1..] == [];
  }
}
