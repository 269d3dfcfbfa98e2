/** Quotients and remainders of integers. */
module Remainders {
  lemma ModMultiple(n: int, q: int, m: nat)
    requires m > 0
    ensures (n + q * m) % m == n % m
  {
    var d, r := n / m, n % m;
    assert n + q * m == (d + q) * m + r;
    RemainderUnique(n + q * m, d + q, r, m);
  }

  lemma {:induction false} NonNegativeProduct(a: nat, b: nat)
    ensures a * b >= 0
  {
  }

  /** A multiple of `m` other than 0 is at least `m` away from 0. */
  lemma MultipleIsFar(e: int, m: int)
    requires m > 0
    ensures e > 0 ==> e * m >= m
    ensures e < 0 ==> e * m <= -m
  {
    if e > 0 {
      NonNegativeProduct(e - 1, m);
      assert e * m == (e - 1) * m + m;
    } else if e < 0 {
      NonNegativeProduct(-e - 1, m);
      assert e * m == -((-e - 1) * m) - m;
    }
  }

  lemma RemainderUnique(n: int, d: int, r: nat, m: nat)
    requires n == d * m + r && r < m
    ensures n % m == r
  {
    var d1, r1 := n / m, n % m;
    assert n == d1 * m + r1;
    assert (d - d1) * m == d * m - d1 * m;
    MultipleIsFar(d - d1, m);
  }

  lemma Division(n: int, m: nat) returns (d: int, r: nat)
    requires m > 0
    ensures n == d * m + r && r < m && n % m == r && r % m == r
  {
    d, r := n / m, n % m;
    RemainderUnique(r, 0, r, m);
  }
}
