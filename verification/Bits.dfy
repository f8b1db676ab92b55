/** Bits of natural numbers, and masking. */
module Bits {
  import opened Modulo

  /** Bit `k`, the lowest being 0. */
  function Bit(a: nat, k: nat): (b: nat) {
    if k == 0 then a % 2 else Bit(a / 2, k - 1)
  }

  /** Bitwise and. */
  function And(a: nat, b: nat): (c: nat)
    ensures b == 0 ==> c == 0
  {
    if a == 0 || b == 0 then 0 else (if a % 2 == 1 && b % 2 == 1 then 1 else 0) + 2 * And(a / 2, b / 2)
  }

  /** A bit of an and is set exactly where both operands have it. */
  lemma {:induction false} AndBits(a: nat, b: nat, k: nat)
    ensures Bit(And(a, b), k) == if Bit(a, k) == 1 && Bit(b, k) == 1 then 1 else 0
  {
    var c := And(a, b);
    if a == 0 || b == 0 {
      BitsOfZero(k);
    } else {
      assert c / 2 == And(a / 2, b / 2) && c % 2 == if a % 2 == 1 && b % 2 == 1 then 1 else 0;
      if k > 0 {
        AndBits(a / 2, b / 2, k - 1);
      } else {
        assert Bit(a, 0) == a % 2 && Bit(b, 0) == b % 2;
      }
    }
  }

  lemma {:induction false} BitsOfZero(k: nat)
    ensures Bit(0, k) == 0
  {
    if k > 0 {
      BitsOfZero(k - 1);
    }
  }

  function Pow2(k: nat): (p: nat)
    ensures p > 0
  {
    if k == 0 then 1 else 2 * Pow2(k - 1)
  }

  /** What is left of a number above a mask of `k` bits is a multiple of two to the `k`. */
  lemma {:induction false} MaskSplits(a: nat, k: nat) returns (q: nat)
    ensures And(a, Pow2(k) - 1) < Pow2(k)
    ensures a == q * Pow2(k) + And(a, Pow2(k) - 1)
  {
    if k == 0 || a == 0 {
      q := a;
      assert a == q * Pow2(k);
    } else {
      var m := Pow2(k - 1);
      q := MaskSplits(a / 2, k - 1);
      AndOdd(a, m - 1);
      Doubled(q, m);
    }
  }

  lemma {:induction false} AndOdd(a: nat, b: nat)
    ensures And(a, 2 * b + 1) == a % 2 + 2 * And(a / 2, b)
  {
    assert (2 * b + 1) / 2 == b;
  }

  lemma {:induction false} Doubled(q: nat, m: nat)
    ensures q * (2 * m) == 2 * (q * m)
  {
  }

  /** Masking with one less than a power of two is the remainder by it. */
  lemma {:induction false} MaskIsModulo(a: nat, m: nat, k: nat)
    requires m == Pow2(k)
    ensures And(a, m - 1) == a % m
  {
    var q := MaskSplits(a, k);
    ModUnique(q, And(a, m - 1), m);
  }
}
