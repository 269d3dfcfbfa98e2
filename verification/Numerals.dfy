/** What a numeral denotes, by the positions of its digits, and that the parser reads and the decompiler
    writes exactly that (lang/parser.cc uses `std::stoull`; lang/sif.cc prints with `<<`). */
module Numerals {
  import opened Octets
  import opened Lexing
  import opened Parsing
  import opened Printing
  import opened TextRoundTrip

  const DIGITS: Bytes := "0123456789"

  type Places = ds: seq<nat> | forall d <- ds :: d < 10

  /** The characters of digits. */
  function Spelled(ds: Places): (r: Bytes)
    ensures |r| == |ds|
  {
    if ds == [] then [] else [DIGITS[ds[0]]] + Spelled(ds[1..])
  }

  function Power(n: nat): nat { if n == 0 then 1 else 10 * Power(n - 1) }

  /** The first digit counts as many powers of ten as digits follow it. */
  function Total(ds: Places): nat {
    if ds == [] then 0 else ds[0] * Power(|ds| - 1) + Total(ds[1..])
  }

  lemma DigitIs(d: nat)
    requires d < 10
    ensures IsDigit(DIGITS[d]) && DIGITS[d] as int - '0' as int == d && Digit(d) == DIGITS[d]
  {
    match d
    case 0 => assert DIGITS[0] == '0';
    case 1 => assert DIGITS[1] == '1';
    case 2 => assert DIGITS[2] == '2';
    case 3 => assert DIGITS[3] == '3';
    case 4 => assert DIGITS[4] == '4';
    case 5 => assert DIGITS[5] == '5';
    case 6 => assert DIGITS[6] == '6';
    case 7 => assert DIGITS[7] == '7';
    case 8 => assert DIGITS[8] == '8';
    case _ => assert DIGITS[9] == '9';
  }

  lemma {:induction false} SpelledSnoc(ds: Places, d: nat)
    requires d < 10
    ensures Spelled(ds + [d]) == Spelled(ds) + [DIGITS[d]]
    decreases |ds|
  {
    hide DIGITS;
    if ds == [] {
      assert ds + [d] == [d];
    } else {
      assert (ds + [d])[1..] == ds[1..] + [d];
      SpelledSnoc(ds[1..], d);
    }
  }

  lemma {:induction false} TotalSnoc(ds: Places, d: nat)
    requires d < 10
    ensures Total(ds + [d]) == 10 * Total(ds) + d
    decreases |ds|
  {
    if ds == [] {
      assert ds + [d] == [d] && Total([d]) == d * Power(0) + Total([d][1..]);
    } else {
      assert (ds + [d])[1..] == ds[1..] + [d];
      TotalSnoc(ds[1..], d);
      TenTimes(ds[0], |ds|);
    }
  }

  lemma TenTimes(d: nat, n: nat)
    requires n > 0
    ensures d * Power(n) == 10 * (d * Power(n - 1))
  {
  }

  lemma {:induction false} ValueIs(ds: Places)
    ensures (forall c <- Spelled(ds) :: IsDigit(c)) && Value(Spelled(ds)) == Total(ds)
    decreases |ds|
  {
    hide DIGITS, Digit, IsDigit;
    if ds != [] {
      var n := |ds| - 1;
      assert ds == ds[..n] + [ds[n]];
      ValueIs(ds[..n]);
      SpelledSnoc(ds[..n], ds[n]);
      TotalSnoc(ds[..n], ds[n]);
      DigitIs(ds[n]);
      assert Spelled(ds)[..n] == Spelled(ds[..n]);
    }
  }

  /** Reading the digits in front of `k`, leading zeros or not: their number, or an error when there is
      none or it is 2^64 or more. */
  lemma NumberIsRead(ds: Places, k: Bytes)
    requires k != [] ==> k[0] !in DIGITS
    ensures Stoull(Spelled(ds) + k)
            == if ds == [] || Total(ds) >= 18446744073709551616 then Err(BadNumber) else Ok(Total(ds))
  {
    hide Value, Total, Spelled, DIGITS;
    ValueIs(ds);
    if k != [] && IsDigit(k[0]) { DigitListed(k[0]); }
    SpanAppend(IsDigit, Spelled(ds), k);
    assert (Spelled(ds) + k)[..|ds|] == Spelled(ds);
  }

  lemma DigitListed(c: byte)
    requires IsDigit(c)
    ensures c in DIGITS
  {
    DigitIs(c as int - '0' as int);
  }

  /** Every text starts with such digits. */
  lemma {:induction false} DigitsInFront(s: Bytes) returns (ds: Places, k: Bytes)
    ensures s == Spelled(ds) + k && (k != [] ==> k[0] !in DIGITS)
  {
    hide DIGITS;
    if s == [] || s[0] !in DIGITS {
      ds, k := [], s;
    } else {
      var d :| 0 <= d < |DIGITS| && DIGITS[d] == s[0];
      TenDigits();
      ds, k := DigitsInFront(s[1..]);
      var rest := ds;
      ds := [d] + ds;
      assert ds[1..] == rest;
      assert s == [s[0]] + s[1..];
    }
  }

  lemma TenDigits()
    ensures |DIGITS| == 10
  {
  }

  /** The decimal text of a number: the digits that add up to it, without a leading zero. */
  lemma {:induction false} DecimalIs(n: nat) returns (ds: Places)
    ensures Decimal(n) == Spelled(ds) && Total(ds) == n && ds != [] && (ds[0] == 0 ==> ds == [0])
  {
    hide DIGITS, Digit;
    if n < 10 {
      ds := [n];
      DigitIs(n);
      TotalSnoc([], n);
      assert [] + [n] == [n];
    } else {
      ds := DecimalIs(n / 10);
      SpelledSnoc(ds, n % 10);
      TotalSnoc(ds, n % 10);
      DigitIs(n % 10);
      assert ds == [0] ==> Total(ds) == 0 by { TotalSnoc([], 0); assert [] + [0] == [0]; }
      ds := ds + [n % 10];
    }
  }
}
