/** The one padded block of the message "abc", and digests as octets. */
module KnownBlock {
  import opened Octets
  import opened BlockHash

  /** The schedule words of the block: the message with its marker, zeros, and the bit count 24. */
  lemma BlockOfAbc()
    ensures |Padded("abc")| == 64 && WordAt(Padded("abc"), 0) == 0x61626380 && WordAt(Padded("abc"), 15) == 24
    ensures forall t :: 1 <= t < 15 ==> WordAt(Padded("abc"), t) == 0
  {
    hide Word;
    LengthOfAbc();
    ZeroAt(52);
    PaddedAbc();
    OctetsOf(Padded("abc"), Zeros(52), BE(24, 8));
    WordsOfAbc();
  }

  lemma PaddedAbc()
    ensures Padded("abc") == ['a', 'b', 'c', 0x80 as char] + (Zeros(52) + BE(24, 8))
  {
    hide Zeros, BE;
    var abc: Bytes := "abc";
    assert Padded(abc) == abc + ([0x80 as char] + (Zeros(52) + BE(24, 8)));
  }

  lemma OctetsOf(p: Bytes, zeros: Bytes, length: Bytes)
    requires |zeros| == 52 && |length| == 8 && length[7] == 24 as char
    requires p == ['a', 'b', 'c', 0x80 as char] + (zeros + length)
    requires (forall j :: 0 <= j < 52 ==> zeros[j] == 0 as char) && forall j :: 0 <= j < 7 ==> length[j] == 0 as char
    ensures |p| == 64 && p[0] == 'a' && p[1] == 'b' && p[2] == 'c' && p[3] == 0x80 as char && p[63] == 24 as char
    ensures forall j :: 4 <= j < 63 ==> p[j] == 0 as char
  {
    assert p[63] == length[7];
    forall j | 4 <= j < 63 ensures p[j] == 0 as char {
      if j >= 56 { assert p[j] == length[j - 56]; } else { assert p[j] == zeros[j - 4]; }
    }
  }

  lemma LengthOfAbc()
    ensures BE(24, 8)[7] == 24 as char && forall j :: 0 <= j < 7 ==> BE(24, 8)[j] == 0 as char
  {
    assert BE(0, 4) == [0 as char, 0 as char, 0 as char, 0 as char];
    assert BE(0, 7) == BE(0, 4) + [0 as char, 0 as char, 0 as char];
  }

  lemma {:induction false} ZeroAt(n: nat)
    ensures forall j :: 0 <= j < n ==> Zeros(n)[j] == 0 as char
  {
    if n > 0 { ZeroAt(n - 1); }
  }

  lemma WordsOfAbc()
    ensures Word('a', 'b', 'c', 0x80 as char) == 0x61626380
    ensures Word(0 as char, 0 as char, 0 as char, 24 as char) == 24
    ensures Word(0 as char, 0 as char, 0 as char, 0 as char) == 0
  {
  }

  lemma OneBlock<S>(f: (S, Bytes) -> S, s: S, block: Bytes)
    requires |block| == 64
    ensures Absorb(f, s, block) == f(s, block)
  {
    assert block[..64] == block && block[64..] == [];
  }

  /** A word in front of others, given by its octets. */
  lemma FrontWord(w: bv32, ws: seq<bv32>, a: byte, b: byte, c: byte, d: byte)
    requires OctetOf(w, 3) == a && OctetOf(w, 2) == b && OctetOf(w, 1) == c && OctetOf(w, 0) == d
    ensures WordsToOctets([w] + ws) == [a, b, c, d] + WordsToOctets(ws)
  {
    hide OctetOf;
    assert ([w] + ws)[1..] == ws;
  }

  lemma Parts(a: Bytes, b: Bytes, c: Bytes, d: Bytes)
    ensures a + (b + (c + (d + []))) == a + b + c + d
    ensures d == [] ==> a + (b + (c + [])) == a + b + c
  {
  }

  lemma FrontWords(v: bv32, w: bv32, ws: seq<bv32>, octets: Bytes)
    requires |octets| == 8
    requires OctetOf(v, 3) == octets[0] && OctetOf(v, 2) == octets[1]
    requires OctetOf(v, 1) == octets[2] && OctetOf(v, 0) == octets[3]
    requires OctetOf(w, 3) == octets[4] && OctetOf(w, 2) == octets[5]
    requires OctetOf(w, 1) == octets[6] && OctetOf(w, 0) == octets[7]
    ensures WordsToOctets([v, w] + ws) == octets + WordsToOctets(ws)
  {
    hide OctetOf, WordsToOctets;
    FrontWord(w, ws, octets[4], octets[5], octets[6], octets[7]);
    FrontWord(v, [w] + ws, octets[0], octets[1], octets[2], octets[3]);
    assert [v] + ([w] + ws) == [v, w] + ws;
  }

  // ---------------------------------------------------------------- the padding of every message

  /** The number that octets denote, the most significant one first. */
  function BigEndian(b: Bytes): nat {
    if b == [] then 0 else b[0] as int * Pow256(|b| - 1) + BigEndian(b[1..])
  }

  lemma {:induction false} BigEndianSnoc(b: Bytes, c: byte)
    ensures BigEndian(b + [c]) == 256 * BigEndian(b) + c as int
    decreases |b|
  {
    if b == [] {
      assert b + [c] == [c] && BigEndian([c]) == c as int * Pow256(0) + BigEndian([c][1..]);
    } else {
      assert (b + [c])[1..] == b[1..] + [c];
      BigEndianSnoc(b[1..], c);
      assert b[0] as int * Pow256(|b|) == 256 * (b[0] as int * Pow256(|b| - 1));
    }
  }

  lemma {:induction false} LengthIsBigEndian(n: nat, w: nat)
    requires n < Pow256(w)
    ensures BigEndian(BE(n, w)) == n
  {
    if w > 0 {
      LengthIsBigEndian(n / 256, w - 1);
      BigEndianSnoc(BE(n / 256, w - 1), (n % 256) as char);
    }
  }

  /** Section 5.1.1 for messages of less than 2^64 bits: the octet 0x80, the fewest zeros that fill up whole
      blocks, and eight octets that denote the number of bits. */
  lemma PaddingIs(m: Bytes) returns (z: nat, length: Bytes)
    requires 8 * |m| < 0x1_0000_0000_0000_0000
    ensures Padded(m) == m + [0x80 as char] + Zeros(z) + length
    ensures |Padded(m)| % 64 == 0 && z < 64 && |length| == 8 && BigEndian(length) == 8 * |m|
  {
    hide BE, Zeros, Pow256;
    Pow256Values();
    z, length := ZeroCount(|m|), BE(8 * |m|, 8);
    LengthIsBigEndian(8 * |m|, 8);
    assert m + ([0x80 as char] + (Zeros(z) + length)) == m + [0x80 as char] + Zeros(z) + length;
  }
}
