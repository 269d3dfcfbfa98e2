/** C integer conversions on a machine whose `long` has as many octets as a pointer. */
module MachineWords {
  import opened Octets
  import opened Remainders

  /** An integer type of C. */
  datatype CInt = CInt(octets: nat, signed: bool)

  predicate InRange(t: CInt, n: int) {
    if t.signed then 0 <= 2 * n + Pow256(t.octets) < 2 * Pow256(t.octets) else 0 <= n < Pow256(t.octets)
  }

  /** Conversion to an unsigned type of `octets` octets. */
  function ToUnsigned(n: int, octets: nat): (r: nat)
    ensures r < Pow256(octets)
  {
    n % Pow256(octets)
  }

  /** Conversion to a signed type: the representative in two's complement range. */
  function ToSigned(n: int, octets: nat): int {
    var u := ToUnsigned(n, octets);
    if 2 * u < Pow256(octets) then u else u - Pow256(octets)
  }

  function Convert(t: CInt, n: int): int {
    if t.signed then ToSigned(n, t.octets) else ToUnsigned(n, t.octets)
  }

  /** What the callee finds in a `long` slot into which the caller put the `unsigned long` `n`. */
  function Delivered(n: int, octets: nat): int { ToSigned(ToUnsigned(n, octets), octets) }

  // ---------------------------------------------------------------- laws

  lemma {:induction false} Pow256Sum(a: nat, b: nat)
    ensures Pow256(a + b) == Pow256(a) * Pow256(b)
  {
    if a > 0 {
      Pow256Sum(a - 1, b);
      assert Pow256(a) * Pow256(b) == 256 * (Pow256(a - 1) * Pow256(b));
    }
  }

  /** Delivery changes a number by a multiple of the word size. */
  lemma DeliveredModulo(n: int, octets: nat) returns (q: int)
    ensures Delivered(n, octets) == n + q * Pow256(octets)
  {
    hide Pow256;
    var m := Pow256(octets);
    var d, r := Division(n, m);
    assert ToUnsigned(n, octets) == r && ToUnsigned(r, octets) == r;
    q := if 2 * r < m then -d else -d - 1;
    assert q * m == if 2 * r < m then -(d * m) else -(d * m) - m;
  }

  /** A value of an integer type no wider than a word survives the conversion to `unsigned long`,
      the delivery as `long`, and the conversion back to its type. */
  lemma NarrowRoundTrip(t: CInt, n: int, octets: nat)
    requires t.octets <= octets && InRange(t, n)
    ensures Convert(t, Delivered(n, octets)) == n
  {
    hide Delivered;
    var m := Pow256(t.octets);
    var q := DeliveredModulo(n, octets);
    Pow256Sum(octets - t.octets, t.octets);
    var k := q * Pow256(octets - t.octets);
    assert q * Pow256(octets) == k * m;
    ModMultiple(n, k, m);
    if n >= 0 {
      RemainderUnique(n, 0, n, m);
    } else {
      RemainderUnique(n, -1, n + m, m);
    }
  }

  /** An address survives as well. */
  lemma AddressRoundTrip(n: nat, octets: nat)
    requires n < Pow256(octets)
    ensures ToUnsigned(Delivered(n, octets), octets) == n
  {
    NarrowRoundTrip(CInt(octets, false), n, octets);
  }
}
