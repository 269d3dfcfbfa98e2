/** Identities between the bit operations of FIPS 180-4 and those of the sha1 class. */
module BitLaws {
  /** Section 4.1.1. */
  function Ch(x: bv32, y: bv32, z: bv32): bv32 { (x & y) ^ (!x & z) }
  function Parity(x: bv32, y: bv32, z: bv32): bv32 { x ^ y ^ z }
  function Maj(x: bv32, y: bv32, z: bv32): bv32 { (x & y) ^ (x & z) ^ (y & z) }

  /** Section 2.2.2: the circular left shift, by the distances that SHA-1 uses. */
  function Rotl(x: bv32, n: nat): bv32
    requires n == 1 || n == 5 || n == 30
  {
    if n == 1 then (x << 1) | (x >> 31) else if n == 5 then (x << 5) | (x >> 27) else (x << 30) | (x >> 2)
  }

  /** `left_rotate`, which joins the two parts with an exclusive or. */
  function LeftRotate(value: bv32, count: nat): bv32
    requires count == 1 || count == 5 || count == 30
  {
    if count == 1 then (value << 1) ^ (value >> 31)
    else if count == 5 then (value << 5) ^ (value >> 27)
    else (value << 30) ^ (value >> 2)
  }

  /** The round functions as the class writes them, with disjunctions. */
  function Choose(b: bv32, c: bv32, d: bv32): bv32 { (b & c) | (!b & d) }
  function Majority(b: bv32, c: bv32, d: bv32): bv32 { (b & c) | (b & d) | (c & d) }

  lemma ChooseBits(x: bv32, y: bv32, z: bv32)
    ensures (x & y) | (!x & z) == (x & y) ^ (!x & z)
  {
  }

  lemma MajorityBits(x: bv32, y: bv32, z: bv32)
    ensures (x & y) | (x & z) | (y & z) == (x & y) ^ (x & z) ^ (y & z)
  {
  }

  lemma ChooseIsCh(x: bv32, y: bv32, z: bv32)
    ensures Choose(x, y, z) == Ch(x, y, z)
  {
    ChooseBits(x, y, z);
  }

  lemma MajorityIsMaj(x: bv32, y: bv32, z: bv32)
    ensures Majority(x, y, z) == Maj(x, y, z)
  {
    MajorityBits(x, y, z);
  }

  lemma LeftRotateIsRotl(x: bv32, n: nat)
    requires n == 1 || n == 5 || n == 30
    ensures LeftRotate(x, n) == Rotl(x, n)
  {
    assert (x << 1) ^ (x >> 31) == (x << 1) | (x >> 31);
    assert (x << 5) ^ (x >> 27) == (x << 5) | (x >> 27);
    assert (x << 30) ^ (x >> 2) == (x << 30) | (x >> 2);
  }

  /** All of it at once. */
  lemma RoundLaws()
    ensures forall x, y, z :: Choose(x, y, z) == Ch(x, y, z)
    ensures forall x, y, z :: Majority(x, y, z) == Maj(x, y, z)
    ensures forall x :: LeftRotate(x, 1) == Rotl(x, 1) && LeftRotate(x, 5) == Rotl(x, 5)
    ensures forall x :: LeftRotate(x, 30) == Rotl(x, 30)
  {
    hide *;
    forall x, y, z ensures Choose(x, y, z) == Ch(x, y, z) { ChooseIsCh(x, y, z); }
    forall x, y, z ensures Majority(x, y, z) == Maj(x, y, z) { MajorityIsMaj(x, y, z); }
    forall x ensures LeftRotate(x, 1) == Rotl(x, 1) && LeftRotate(x, 5) == Rotl(x, 5) {
      LeftRotateIsRotl(x, 1);
      LeftRotateIsRotl(x, 5);
    }
    forall x ensures LeftRotate(x, 30) == Rotl(x, 30) { LeftRotateIsRotl(x, 30); }
  }
}
