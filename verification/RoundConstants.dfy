/** The round constants of the two hash functions as sections 4.2.1, 4.2.2 and 5.3.3 of FIPS 180-4
    define them: fractional parts of roots of the first primes. */
module RoundConstants {
  import opened Octets
  import opened Remainders
  import Sha1
  import Sha256

  // ---------------------------------------------------------------- primes

  predicate IsPrime(n: nat) { n >= 2 && forall d :: 2 <= d < n ==> n % d != 0 }

  /** The number of primes below `n`. */
  function PrimesBelow(n: nat): nat {
    if n == 0 then 0 else PrimesBelow(n - 1) + (if IsPrime(n - 1) then 1 else 0)
  }

  /** `p` is the prime with exactly `t` primes below it. */
  predicate IsNthPrime(p: nat, t: nat) { IsPrime(p) && PrimesBelow(p) == t }

  lemma {:induction false} PrimesBelowGrows(p: nat, q: nat)
    requires IsPrime(p) && p < q
    ensures PrimesBelow(p) < PrimesBelow(q)
    decreases q
  {
    hide IsPrime;
    if p + 1 < q { PrimesBelowGrows(p, q - 1); }
  }

  lemma NthPrimeIsUnique(p: nat, q: nat, t: nat)
    requires IsNthPrime(p, t) && IsNthPrime(q, t)
    ensures p == q
  {
    if p < q { PrimesBelowGrows(p, q); }
    if q < p { PrimesBelowGrows(q, p); }
  }

  /** A factor below 18 other than the number itself: enough for every composite below 19 * 19. */
  predicate SmallFactor(n: nat) {
    || (n > 2 && n % 2 == 0) || (n > 3 && n % 3 == 0) || (n > 5 && n % 5 == 0) || (n > 7 && n % 7 == 0)
    || (n > 11 && n % 11 == 0) || (n > 13 && n % 13 == 0) || (n > 17 && n % 17 == 0)
  }

  lemma SmallFactorIsComposite(n: nat)
    requires SmallFactor(n)
    ensures !IsPrime(n)
  {
  }

  predicate AllComposite(n: nat, q: nat)
    decreases q - n
  {
    n >= q || (SmallFactor(n) && AllComposite(n + 1, q))
  }

  lemma {:induction false} NoPrimesBetween(n: nat, q: nat)
    requires n <= q && AllComposite(n, q)
    ensures PrimesBelow(q) == PrimesBelow(n)
    decreases q - n
  {
    hide IsPrime, SmallFactor;
    if n < q {
      SmallFactorIsComposite(n);
      NoPrimesBetween(n + 1, q);
    }
  }

  /** Below 19 * 19 a number without a small factor is prime. */
  lemma SmallPrime(n: nat)
    requires 2 <= n < 361 && !SmallFactor(n)
    ensures IsPrime(n)
  {
    forall d | 2 <= d < n ensures n % d != 0 {
      if n % d == 0 { DivisorBelow(n, d); }
    }
  }

  lemma DivisorBelow(n: nat, d: nat)
    requires 2 <= d < n < 361 && n % d == 0
    ensures SmallFactor(n)
  {
    hide SmallFactor;
    var e := n / d;
    assert n == d * e;
    if d < 19 {
      FactorOf(n, d, e);
    } else {
      SmallCofactor(d, e);
      assert d * e == e * d;
      FactorOf(n, e, d);
    }
  }

  lemma SmallCofactor(d: nat, e: nat)
    requires d >= 19 && 2 <= d < d * e < 361
    ensures 2 <= e < 19
  {
    if e >= 19 { LargeProduct(d, e); }
  }

  lemma LargeProduct(d: nat, e: nat)
    requires d >= 19 && e >= 19
    ensures d * e >= 361
  {
    NonNegativeProduct(d - 19, e);
    assert d * e == (d - 19) * e + 19 * e;
  }

  lemma MultipleOf(m: nat, q: nat)
    requires m > 0
    ensures m * q % m == 0
  {
    ModMultiple(0, q, m);
    assert q * m == m * q;
  }

  /** A factor below 19 has a prime factor below 18. */
  lemma FactorOf(n: nat, d: nat, e: nat)
    requires 2 <= d < 19 && n == d * e && d < n
    ensures SmallFactor(n)
  {
    if d % 2 == 0 {
      HalfOf(d, e, 2);
    } else if d % 3 == 0 {
      HalfOf(d, e, 3);
    } else {
      MultipleOf(d, e);
      assert d == 5 || d == 7 || d == 11 || d == 13 || d == 17;
    }
  }

  lemma HalfOf(d: nat, e: nat, m: nat)
    requires m > 0 && d % m == 0
    ensures d * e % m == 0
  {
    var h := d / m;
    assert d == m * h;
    assert m * h * e == m * (h * e);
    MultipleOf(m, h * e);
  }

  // ---------------------------------------------------------------- the first 64 primes

  lemma NextPrime(p: nat, n: nat, q: nat, t: nat)
    requires IsNthPrime(p, t) && n == p + 1 && 2 <= p < q < 361 && !SmallFactor(q) && AllComposite(n, q)
    ensures IsNthPrime(q, t + 1)
  {
    hide IsPrime, SmallFactor, AllComposite;
    NoPrimesBetween(n, q);
    SmallPrime(q);
  }

  lemma FirstPrime()
    ensures IsNthPrime(2, 0)
  {
    assert PrimesBelow(1) == 0;
  }

  /** The primes of a row are those from number `8 * r` on. */
  ghost predicate PrimeRow(r: nat, ps: seq<nat>) { |ps| == 8 && forall j :: 0 <= j < 8 ==> IsNthPrime(ps[j], 8 * r + j) }

  const P0: seq<nat> := [2, 3, 5, 7, 11, 13, 17, 19]
  const P1: seq<nat> := [23, 29, 31, 37, 41, 43, 47, 53]
  const P2: seq<nat> := [59, 61, 67, 71, 73, 79, 83, 89]
  const P3: seq<nat> := [97, 101, 103, 107, 109, 113, 127, 131]
  const P4: seq<nat> := [137, 139, 149, 151, 157, 163, 167, 173]
  const P5: seq<nat> := [179, 181, 191, 193, 197, 199, 211, 223]
  const P6: seq<nat> := [227, 229, 233, 239, 241, 251, 257, 263]
  const P7: seq<nat> := [269, 271, 277, 281, 283, 293, 307, 311]

  lemma Primes0()
    ensures PrimeRow(0, P0)
  {
    hide IsNthPrime;
    FirstPrime();
    NextPrime(2, 3, 3, 0);
    NextPrime(3, 4, 5, 1);
    NextPrime(5, 6, 7, 2);
    NextPrime(7, 8, 11, 3);
    NextPrime(11, 12, 13, 4);
    NextPrime(13, 14, 17, 5);
    NextPrime(17, 18, 19, 6);
  }

  lemma Primes1()
    ensures PrimeRow(1, P1)
  {
    hide IsNthPrime;
    Primes0();
    assert IsNthPrime(P0[7], 7);
    NextPrime(19, 20, 23, 7);
    NextPrime(23, 24, 29, 8);
    NextPrime(29, 30, 31, 9);
    NextPrime(31, 32, 37, 10);
    NextPrime(37, 38, 41, 11);
    NextPrime(41, 42, 43, 12);
    NextPrime(43, 44, 47, 13);
    NextPrime(47, 48, 53, 14);
  }

  lemma Primes2()
    ensures PrimeRow(2, P2)
  {
    hide IsNthPrime;
    Primes1();
    assert IsNthPrime(P1[7], 15);
    NextPrime(53, 54, 59, 15);
    NextPrime(59, 60, 61, 16);
    NextPrime(61, 62, 67, 17);
    NextPrime(67, 68, 71, 18);
    NextPrime(71, 72, 73, 19);
    NextPrime(73, 74, 79, 20);
    NextPrime(79, 80, 83, 21);
    NextPrime(83, 84, 89, 22);
  }

  lemma Primes3()
    ensures PrimeRow(3, P3)
  {
    hide IsNthPrime;
    Primes2();
    assert IsNthPrime(P2[7], 23);
    NextPrime(89, 90, 97, 23);
    NextPrime(97, 98, 101, 24);
    NextPrime(101, 102, 103, 25);
    NextPrime(103, 104, 107, 26);
    NextPrime(107, 108, 109, 27);
    NextPrime(109, 110, 113, 28);
    NextPrime(113, 114, 127, 29);
    NextPrime(127, 128, 131, 30);
  }

  lemma Primes4()
    ensures PrimeRow(4, P4)
  {
    hide IsNthPrime;
    Primes3();
    assert IsNthPrime(P3[7], 31);
    NextPrime(131, 132, 137, 31);
    NextPrime(137, 138, 139, 32);
    NextPrime(139, 140, 149, 33);
    NextPrime(149, 150, 151, 34);
    NextPrime(151, 152, 157, 35);
    NextPrime(157, 158, 163, 36);
    NextPrime(163, 164, 167, 37);
    NextPrime(167, 168, 173, 38);
  }

  lemma Primes5()
    ensures PrimeRow(5, P5)
  {
    hide IsNthPrime;
    Primes4();
    assert IsNthPrime(P4[7], 39);
    NextPrime(173, 174, 179, 39);
    NextPrime(179, 180, 181, 40);
    NextPrime(181, 182, 191, 41);
    NextPrime(191, 192, 193, 42);
    NextPrime(193, 194, 197, 43);
    NextPrime(197, 198, 199, 44);
    NextPrime(199, 200, 211, 45);
    NextPrime(211, 212, 223, 46);
  }

  lemma Primes6()
    ensures PrimeRow(6, P6)
  {
    hide IsNthPrime;
    Primes5();
    assert IsNthPrime(P5[7], 47);
    NextPrime(223, 224, 227, 47);
    NextPrime(227, 228, 229, 48);
    NextPrime(229, 230, 233, 49);
    NextPrime(233, 234, 239, 50);
    NextPrime(239, 240, 241, 51);
    NextPrime(241, 242, 251, 52);
    NextPrime(251, 252, 257, 53);
    NextPrime(257, 258, 263, 54);
  }

  lemma Primes7()
    ensures PrimeRow(7, P7)
  {
    hide IsNthPrime;
    Primes6();
    assert IsNthPrime(P6[7], 55);
    NextPrime(263, 264, 269, 55);
    NextPrime(269, 270, 271, 56);
    NextPrime(271, 272, 277, 57);
    NextPrime(277, 278, 281, 58);
    NextPrime(281, 282, 283, 59);
    NextPrime(283, 284, 293, 60);
    NextPrime(293, 294, 307, 61);
    NextPrime(307, 308, 311, 62);
  }

  // ---------------------------------------------------------------- SHA-256: cube and square roots

  /** `x` is the cube root of `p` in units of 2^-32, rounded down. */
  predicate CubeRoot(x: nat, p: nat) {
    x * x * x <= p * 0x1_00000000_00000000_00000000 < (x + 1) * (x + 1) * (x + 1)
  }

  predicate SquareRoot(x: nat, p: nat) { x * x <= p * 0x1_00000000_00000000 < (x + 1) * (x + 1) }

  function Number(k: bv32): nat { k as nat }

  /** `k` is the fraction of such a number: its low 32 bits. */
  predicate Fraction(k: bv32, x: nat) { Number(k) == x % 0x1_0000_0000 }

  ghost predicate CubeRootRow(xs: seq<nat>, ps: seq<nat>) {
    && |xs| == |ps| == 8
    && CubeRoot(xs[0], ps[0]) && CubeRoot(xs[1], ps[1]) && CubeRoot(xs[2], ps[2]) && CubeRoot(xs[3], ps[3])
    && CubeRoot(xs[4], ps[4]) && CubeRoot(xs[5], ps[5]) && CubeRoot(xs[6], ps[6]) && CubeRoot(xs[7], ps[7])
  }

  ghost predicate SquareRootRow(xs: seq<nat>, ps: seq<nat>) {
    && |xs| == |ps| == 8
    && SquareRoot(xs[0], ps[0]) && SquareRoot(xs[1], ps[1]) && SquareRoot(xs[2], ps[2]) && SquareRoot(xs[3], ps[3])
    && SquareRoot(xs[4], ps[4]) && SquareRoot(xs[5], ps[5]) && SquareRoot(xs[6], ps[6]) && SquareRoot(xs[7], ps[7])
  }

  ghost predicate FractionRow(ks: seq<bv32>, xs: seq<nat>) {
    && |ks| == |xs| == 8
    && Fraction(ks[0], xs[0]) && Fraction(ks[1], xs[1]) && Fraction(ks[2], xs[2]) && Fraction(ks[3], xs[3])
    && Fraction(ks[4], xs[4]) && Fraction(ks[5], xs[5]) && Fraction(ks[6], xs[6]) && Fraction(ks[7], xs[7])
  }

  const X0: seq<nat> := [0x1428a2f98, 0x171374491, 0x1b5c0fbcf, 0x1e9b5dba5, 0x23956c25b, 0x259f111f1, 0x2923f82a4, 0x2ab1c5ed5]
  const X1: seq<nat> := [0x2d807aa98, 0x312835b01, 0x3243185be, 0x3550c7dc3, 0x372be5d74, 0x380deb1fe, 0x39bdc06a7, 0x3c19bf174]
  const X2: seq<nat> := [0x3e49b69c1, 0x3efbe4786, 0x40fc19dc6, 0x4240ca1cc, 0x42de92c6f, 0x44a7484aa, 0x45cb0a9dc, 0x476f988da]
  const X3: seq<nat> := [0x4983e5152, 0x4a831c66d, 0x4b00327c8, 0x4bf597fc7, 0x4c6e00bf3, 0x4d5a79147, 0x506ca6351, 0x514292967]
  const X4: seq<nat> := [0x527b70a85, 0x52e1b2138, 0x54d2c6dfc, 0x553380d13, 0x5650a7354, 0x5766a0abb, 0x581c2c92e, 0x592722c85]
  const X5: seq<nat> := [0x5a2bfe8a1, 0x5a81a664b, 0x5c24b8b70, 0x5c76c51a3, 0x5d192e819, 0x5d6990624, 0x5f40e3585, 0x6106aa070]
  const X6: seq<nat> := [0x619a4c116, 0x61e376c08, 0x62748774c, 0x634b0bcb5, 0x6391c0cb3, 0x64ed8aa4a, 0x65b9cca4f, 0x6682e6ff3]
  const X7: seq<nat> := [0x6748f82ee, 0x678a5636f, 0x684c87814, 0x68cc70208, 0x690befffa, 0x6a4506ceb, 0x6bef9a3f7, 0x6c67178f2]
  const Y0: seq<nat> := [0x16a09e667, 0x1bb67ae85, 0x23c6ef372, 0x2a54ff53a, 0x3510e527f, 0x39b05688c, 0x41f83d9ab, 0x45be0cd19]

  lemma Roots0() ensures CubeRootRow(X0, P0) {}
  lemma Roots1() ensures CubeRootRow(X1, P1) {}
  lemma Roots2() ensures CubeRootRow(X2, P2) {}
  lemma Roots3() ensures CubeRootRow(X3, P3) {}
  lemma Roots4() ensures CubeRootRow(X4, P4) {}
  lemma Roots5() ensures CubeRootRow(X5, P5) {}
  lemma Roots6() ensures CubeRootRow(X6, P6) {}
  lemma Roots7() ensures CubeRootRow(X7, P7) {}
  lemma Squares0() ensures SquareRootRow(Y0, P0) {}

  lemma Fractions0() ensures FractionRow(Sha256.ConstantRow(0), X0) {}
  lemma Fractions1() ensures FractionRow(Sha256.ConstantRow(1), X1) {}
  lemma Fractions2() ensures FractionRow(Sha256.ConstantRow(2), X2) {}
  lemma Fractions3() ensures FractionRow(Sha256.ConstantRow(3), X3) {}
  lemma Fractions4() ensures FractionRow(Sha256.ConstantRow(4), X4) {}
  lemma Fractions5() ensures FractionRow(Sha256.ConstantRow(5), X5) {}
  lemma Fractions6() ensures FractionRow(Sha256.ConstantRow(6), X6) {}
  lemma Fractions7() ensures FractionRow(Sha256.ConstantRow(7), X7) {}

  /** One row: whatever number counts as its prime `t`, its cube root gives the constant. */
  lemma RowOfRoots(r: nat, t: nat, p: nat, ps: seq<nat>, xs: seq<nat>)
    requires r < 8 && 8 * r <= t < 8 * r + 8 && IsNthPrime(p, t)
    requires PrimeRow(r, ps) && CubeRootRow(xs, ps) && FractionRow(Sha256.ConstantRow(r), xs)
    ensures exists x :: CubeRoot(x, p) && Fraction(Sha256.RoundConstant(t), x)
  {
    hide IsNthPrime, CubeRoot, Fraction, Sha256.ConstantRow;
    var j := t - 8 * r;
    assert IsNthPrime(ps[j], 8 * r + j);
    NthPrimeIsUnique(p, ps[j], t);
    assert CubeRoot(xs[j], ps[j]);
  }

  /** Section 4.2.2: constant `t` is the fraction, in 32 bits, of the cube root of prime `t`. */
  lemma ConstantsAreCubeRoots(t: nat, p: nat)
    requires t < 64 && IsNthPrime(p, t)
    ensures exists x :: CubeRoot(x, p) && Fraction(Sha256.RoundConstant(t), x)
  {
    hide IsNthPrime, CubeRootRow, FractionRow, PrimeRow, Sha256.RoundConstant, Sha256.ConstantRow, Fraction, CubeRoot;
    match t / 8 {
      case 0 => Primes0(); Roots0(); Fractions0(); RowOfRoots(0, t, p, P0, X0);
      case 1 => Primes1(); Roots1(); Fractions1(); RowOfRoots(1, t, p, P1, X1);
      case 2 => Primes2(); Roots2(); Fractions2(); RowOfRoots(2, t, p, P2, X2);
      case 3 => Primes3(); Roots3(); Fractions3(); RowOfRoots(3, t, p, P3, X3);
      case 4 => Primes4(); Roots4(); Fractions4(); RowOfRoots(4, t, p, P4, X4);
      case 5 => Primes5(); Roots5(); Fractions5(); RowOfRoots(5, t, p, P5, X5);
      case 6 => Primes6(); Roots6(); Fractions6(); RowOfRoots(6, t, p, P6, X6);
      case _ => Primes7(); Roots7(); Fractions7(); RowOfRoots(7, t, p, P7, X7);
    }
  }

  /** The initial values in order. */
  function InitialWords(s: Sha256.State): seq<bv32> { [s.a, s.b, s.c, s.d, s.e, s.f, s.g, s.h] }

  lemma InitialFractions()
    ensures FractionRow(InitialWords(Sha256.INITIAL), Y0)
  {
  }

  /** Section 5.3.3: the same with the square roots of the first eight primes. */
  lemma InitialIsSquareRoots(t: nat, p: nat)
    requires t < 8 && IsNthPrime(p, t)
    ensures exists x :: SquareRoot(x, p) && Fraction(InitialWords(Sha256.INITIAL)[t], x)
  {
    hide IsNthPrime, SquareRoot, Fraction, InitialWords;
    Primes0();
    Squares0();
    InitialFractions();
    assert IsNthPrime(P0[t], 8 * 0 + t);
    NthPrimeIsUnique(p, P0[t], t);
    assert SquareRoot(Y0[t], P0[t]);
  }

  // ---------------------------------------------------------------- SHA-1: square roots

  /** `x` is the square root of `n` in units of 2^-30, rounded down. */
  predicate SquareRoot30(x: nat, n: nat) { x * x <= n * 0x1000_0000_0000_0000 < (x + 1) * (x + 1) }

  /** The constants of SHA-1 are, for twenty rounds each, the square roots of 2, 3, 5 and 10. */
  lemma Sha1ConstantsAreSquareRoots(t: nat)
    requires t < 80
    ensures var n := if t < 20 then 2 else if t < 40 then 3 else if t < 60 then 5 else 10;
            exists x :: SquareRoot30(x, n) && Fraction(Sha1.RoundConstant(t), x)
  {
    hide SquareRoot30, Fraction;
    assert SquareRoot30(0x5a827999, 2) && SquareRoot30(0x6ed9eba1, 3) by { SquareRoots30(); }
    assert SquareRoot30(0x8f1bbcdc, 5) && SquareRoot30(0xca62c1d6, 10) by { SquareRoots30(); }
    Fractions30();
    assert Sha1.RoundConstant(t) == if t < 20 then 0x5a827999 else if t < 40 then 0x6ed9eba1
                                    else if t < 60 then 0x8f1bbcdc else 0xca62c1d6;
  }

  lemma SquareRoots30()
    ensures SquareRoot30(0x5a827999, 2) && SquareRoot30(0x6ed9eba1, 3)
    ensures SquareRoot30(0x8f1bbcdc, 5) && SquareRoot30(0xca62c1d6, 10)
  {
  }

  lemma Fractions30()
    ensures Fraction(0x5a827999, 0x5a827999) && Fraction(0x6ed9eba1, 0x6ed9eba1)
    ensures Fraction(0x8f1bbcdc, 0x8f1bbcdc) && Fraction(0xca62c1d6, 0xca62c1d6)
  {
  }
}
