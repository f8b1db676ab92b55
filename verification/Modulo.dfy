/** Remainders by a number that is not a literal. */
module Modulo {

  lemma {:induction false} Multiples(d: int, n: nat)
    ensures d >= 1 ==> d * n >= n
    ensures d <= -1 ==> d * n <= -(n as int)
    ensures d == 0 ==> d * n == 0
  {
  }

  lemma {:induction false} ModUnique(q: nat, r: nat, n: nat)
    requires r < n
    ensures (q * n + r) % n == r
  {
    var x := q * n + r;
    var d := x / n - q;
    assert x == n * (x / n) + x % n;
    assert x / n * n == q * n + d * n;
    assert d * n == r - x % n;
    Multiples(d, n);
  }

  lemma {:induction false} ModPlus(a: nat, i: nat, n: nat)
    requires n > 0
    ensures (a % n + i) % n == (a + i) % n
  {
    var b := a % n + i;
    assert a + i == n * (a / n) + b;
    assert b == n * (b / n) + b % n;
    assert n * (a / n) + n * (b / n) == (a / n + b / n) * n;
    assert a + i == (a / n + b / n) * n + b % n;
    ModUnique(a / n + b / n, b % n, n);
  }

  lemma {:induction false} ModNext(a: nat, n: nat)
    requires n > 0
    ensures (a % n + 1) % n == (a + 1) % n
  {
    ModPlus(a, 1, n);
  }

  lemma {:induction false} ModMinus(a: nat, n: nat)
    requires n > 0 && a >= n
    ensures (a - n) % n == a % n
  {
    var b := a - n;
    assert b == n * (b / n) + b % n;
    assert (b / n + 1) * n == n * (b / n) + n;
    ModUnique(b / n + 1, b % n, n);
  }

  lemma {:induction false} ModDistinct(a: nat, b: nat, n: nat)
    requires a < b < a + n
    ensures a % n != b % n
  {
    var d := b / n - a / n;
    assert d * n == (b - b % n) - (a - a % n);
    Multiples(d, n);
  }
}
