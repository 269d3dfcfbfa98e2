/** What SHA-1 and SHA-256 share: the padding of section 5.1.1 of FIPS 180-4 and the absorption of
    64-octet blocks, both as one-shot functions of the message. */
module BlockHash {
  import opened Octets

  /** The low `w` octets of `n`, most significant first. */
  function BE(n: nat, w: nat): (r: Bytes)
    ensures |r| == w
  {
    if w == 0 then [] else BE(n / 256, w - 1) + [(n % 256) as char]
  }

  /** The number of zero octets between the marker and the length of an `n`-octet message:
      the least one that leaves 8 octets of the last block free. */
  function ZeroCount(n: nat): (z: nat)
    ensures z < 64 && (n + 1 + z) % 64 == 56
  {
    if n % 64 < 56 then 55 - n % 64 else 119 - n % 64
  }

  /** The message with its marker and zeros. */
  function Marked(m: Bytes): (r: Bytes)
    ensures |r| % 64 == 56
  {
    m + [0x80 as char] + Zeros(ZeroCount(|m|))
  }

  lemma WholeBlocks(n: nat)
    requires n % 64 == 56
    ensures (n + 8) % 64 == 0
  {
  }

  /** Section 5.1.1: the message, one 1 bit, zeros, and the bit length as a 64-bit number. */
  function Padded(m: Bytes): (r: Bytes)
    ensures |r| % 64 == 0
  {
    var z := ZeroCount(|m|);
    var length := BE(8 * |m|, 8);
    WholeBlocks(|m| + 1 + z);
    m + ([0x80 as char] + (Zeros(z) + length))
  }

  lemma {:induction false} ZerosAppend(a: nat, b: nat)
    ensures Zeros(a) + Zeros(b) == Zeros(a + b)
  {
    if a == 0 {
      assert [] + Zeros(b) == Zeros(b);
    } else {
      ZerosAppend(a - 1, b);
      assert Zeros(a) + Zeros(b) == [0 as char] + (Zeros(a - 1) + Zeros(b));
    }
  }

  /** `n >> 8 * i`. */
  function ShiftOctets(n: nat, i: nat): nat {
    if i == 0 then n else ShiftOctets(n, i - 1) / 256
  }

  lemma {:induction false} ShiftInside(n: nat, k: nat)
    ensures ShiftOctets(n / 256, k) == ShiftOctets(n, k + 1)
  {
    if k > 0 { ShiftInside(n, k - 1); }
  }

  /** Only the low `w` octets of the number matter. */
  lemma {:induction false} BEIgnoresHigh(n: nat, q: nat, w: nat)
    ensures BE(n + Pow256(w) * q, w) == BE(n, w)
  {
    if w > 0 {
      var high := Pow256(w - 1) * q;
      assert Pow256(w) * q == 256 * high;
      assert (n + 256 * high) / 256 == n / 256 + high;
      assert (n + 256 * high) % 256 == n % 256;
      BEIgnoresHigh(n / 256, q, w - 1);
    }
  }

  lemma BELow64(n: nat)
    ensures BE(n % TWO64, 8) == BE(n, 8)
  {
    hide BE;
    Pow256Values();
    var low, high := n % TWO64, n / TWO64;
    assert n == low + TWO64 * high;
    BEIgnoresHigh(low, high, 8);
  }

  lemma BitCountStep(total: nat, more: nat)
    ensures (8 * total % TWO64 + more * 8) % TWO64 == 8 * (total + more) % TWO64
  {
  }

  /** A 64-bit counter that wraps still yields the padding. */
  lemma PaddedParts(m: Bytes, bitCount: nat)
    requires bitCount == 8 * |m| % TWO64
    ensures Padded(m) == Marked(m) + BE(bitCount, 8)
  {
    hide BE, Zeros, ZeroCount;
    BELow64(8 * |m|);
    var z, length := Zeros(ZeroCount(|m|)), BE(8 * |m|, 8);
    assert m + ([0x80 as char] + (z + length)) == m + [0x80 as char] + z + length;
  }

  lemma IndexInBlock(n: nat, index: nat)
    requires index < 64 && index <= n && (n - index) % 64 == 0
    ensures index == n % 64
  {
  }

  /** Folds the compression function over the whole 64-octet blocks at the front of `m`. */
  function Absorb<S>(f: (S, Bytes) -> S, s: S, m: Bytes): S {
    if |m| < 64 then s else Absorb(f, f(s, m[..64]), m[64..])
  }

  lemma {:induction false} AbsorbAppend<S>(f: (S, Bytes) -> S, s: S, m: Bytes, t: Bytes)
    requires |m| % 64 == 0
    ensures Absorb(f, s, m + t) == Absorb(f, Absorb(f, s, m), t)
  {
    if m == [] {
      assert m + t == t;
    } else {
      assert (m + t)[..64] == m[..64] && (m + t)[64..] == m[64..] + t;
      AbsorbAppend(f, f(s, m[..64]), m[64..], t);
    }
  }

  lemma AbsorbBlock<S>(f: (S, Bytes) -> S, s: S, m: Bytes, block: Bytes)
    requires |m| % 64 == 0 && |block| == 64
    ensures Absorb(f, s, m + block) == f(Absorb(f, s, m), block)
  {
    AbsorbAppend(f, s, m, block);
    assert block[..64] == block && block[64..] == [];
  }

  // ---------------------------------------------------------------- octets and 32-bit words

  /** Addition modulo 2^32. */
  function Add(x: bv32, y: bv32): bv32 { x + y }

  function Word(a: byte, b: byte, c: byte, d: byte): bv32 {
    ((a as bv32) << 24) | ((b as bv32) << 16) | ((c as bv32) << 8) | (d as bv32)
  }

  function WordAt(block: Bytes, i: nat): bv32
    requires 4 * i + 3 < |block|
  {
    Word(block[4 * i], block[4 * i + 1], block[4 * i + 2], block[4 * i + 3])
  }

  /** Octet `i` of a word, counted from the least significant. */
  function OctetOf(w: bv32, i: nat): byte
    requires i < 4
  {
    (((w >> (8 * i)) & 0xff) as bv8) as char
  }

  /** The words of a digest, most significant octet first. */
  function WordsToOctets(ws: seq<bv32>): (r: Bytes)
    ensures |r| == 4 * |ws|
  {
    if ws == [] then []
    else [OctetOf(ws[0], 3), OctetOf(ws[0], 2), OctetOf(ws[0], 1), OctetOf(ws[0], 0)] + WordsToOctets(ws[1..])
  }

  lemma {:induction false} WordsSnoc(ws: seq<bv32>, w: bv32)
    ensures WordsToOctets(ws + [w]) ==
            WordsToOctets(ws) + [OctetOf(w, 3), OctetOf(w, 2), OctetOf(w, 1), OctetOf(w, 0)]
  {
    hide OctetOf;
    if ws == [] {
      assert ws + [w] == [w];
    } else {
      assert (ws + [w])[1..] == ws[1..] + [w];
      WordsSnoc(ws[1..], w);
    }
  }

  lemma NoWords()
    ensures WordsToOctets([]) == []
  {
  }

  /** The octets of word `i` of a digest, behind those of the words before it. */
  method PutWord(d: array<byte>, i: nat, w: bv32, ghost ws: seq<bv32>)
    requires 4 * i + 4 <= d.Length && |ws| == i && d[..4 * i] == WordsToOctets(ws)
    modifies d
    ensures d[..4 * (i + 1)] == WordsToOctets(ws + [w])
  {
    hide OctetOf, WordsToOctets;
    d[4 * i], d[4 * i + 1] := OctetOf(w, 3), OctetOf(w, 2);
    d[4 * i + 2], d[4 * i + 3] := OctetOf(w, 1), OctetOf(w, 0);
    WordsSnoc(ws, w);
    assert d[..4 * i] == old(d[..4 * i]);
    assert d[..4 * (i + 1)] == d[..4 * i] + [d[4 * i], d[4 * i + 1], d[4 * i + 2], d[4 * i + 3]];
  }
}
