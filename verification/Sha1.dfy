/** SHA-1 as sections 4.1.1, 5 and 6.1 of FIPS 180-4 define it, and the octet-at-a-time class of
    include/uuid.h:113-288 proved to compute it for messages below 2^29 octets. */
module Sha1 {
  import opened Octets
  import opened BitLaws
  import opened BlockHash
  import opened Remainders

  // ---------------------------------------------------------------- specification

  function F(t: nat, x: bv32, y: bv32, z: bv32): bv32
    requires t < 80
  {
    if t < 20 then Ch(x, y, z) else if 40 <= t < 60 then Maj(x, y, z) else Parity(x, y, z)
  }

  function RoundConstant(t: nat): bv32
    requires t < 80
  {
    if t < 20 then 0x5a827999 else if t < 40 then 0x6ed9eba1 else if t < 60 then 0x8f1bbcdc else 0xca62c1d6
  }

  function Xor4(a: bv32, b: bv32, c: bv32, d: bv32): bv32 { a ^ b ^ c ^ d }

  function Schedule(block: Bytes, t: nat): bv32
    requires |block| == 64
  {
    if t < 16 then WordAt(block, t)
    else Rotl(Xor4(Schedule(block, t - 3), Schedule(block, t - 8), Schedule(block, t - 14), Schedule(block, t - 16)), 1)
  }

  lemma ScheduleStep(block: Bytes, t: nat)
    requires |block| == 64
    ensures t < 16 ==> Schedule(block, t) == WordAt(block, t)
    ensures t >= 16 ==>
              Schedule(block, t) ==
              Rotl(Xor4(Schedule(block, t - 3), Schedule(block, t - 8), Schedule(block, t - 14),
                        Schedule(block, t - 16)), 1)
  {
  }

  datatype State = State(a: bv32, b: bv32, c: bv32, d: bv32, e: bv32)

  const INITIAL: State := State(0x67452301, 0xefcdab89, 0x98badcfe, 0x10325476, 0xc3d2e1f0)

  function Round(v: State, t: nat, w: bv32): State
    requires t < 80
  {
    State(Add(Add(Add(Add(Rotl(v.a, 5), F(t, v.b, v.c, v.d)), v.e), RoundConstant(t)), w),
          v.a, Rotl(v.b, 30), v.c, v.d)
  }

  function Rounds(block: Bytes, t: nat, v: State): State
    requires |block| == 64 && t <= 80
  {
    if t == 0 then v else Round(Rounds(block, t - 1, v), t - 1, Schedule(block, t - 1))
  }

  function Compress(s: State, block: Bytes): State {
    if |block| != 64 then s
    else
      Sum(s, Rounds(block, 80, s))
  }

  function Sum(s: State, v: State): State {
    State(Add(s.a, v.a), Add(s.b, v.b), Add(s.c, v.c), Add(s.d, v.d), Add(s.e, v.e))
  }

  lemma NoRounds(block: Bytes, s: State)
    requires |block| == 64
    ensures Rounds(block, 0, s) == s
  {
  }

  lemma OneRound(block: Bytes, t: nat, s: State)
    requires |block| == 64 && t < 80
    ensures Rounds(block, t + 1, s) == Round(Rounds(block, t, s), t, Schedule(block, t))
  {
    hide Round, Schedule;
  }

  lemma CompressIsSum(block: Bytes, s: State)
    requires |block| == 64
    ensures Compress(s, block) == Sum(s, Rounds(block, 80, s))
  {
    hide Rounds, Sum;
  }

  function Output(s: State): (r: Bytes)
    ensures |r| == 20
  {
    WordsToOctets([s.a, s.b, s.c, s.d, s.e])
  }

  function Hash(m: Bytes): (r: Bytes)
    ensures |r| == 20
  {
    Output(Absorb(Compress, INITIAL, Padded(m)))
  }

  // ---------------------------------------------------------------- the length field of the class

  /** What the class computes. */
  function ClassHash(m: Bytes): (r: Bytes)
    ensures |r| == 20
  {
    Output(Absorb(Compress, INITIAL, ShortPadded(m)))
  }

  /** The padding with the 32-bit length that the class writes. */
  function ShortPadded(m: Bytes): Bytes {
    Marked(m) + (Zeros(4) + BE(8 * |m|, 4))
  }

  lemma {:induction false} BESplit(n: nat, w: nat, k: nat)
    ensures BE(n, w + k) == BE(ShiftOctets(n, k), w) + BE(n, k)
    decreases k
  {
    if k == 0 {
      assert BE(n, w) + [] == BE(n, w);
    } else {
      BESplit(n / 256, w, k - 1);
      ShiftInside(n, k - 1);
    }
  }

  lemma ShiftFour(n: nat)
    ensures ShiftOctets(n, 4) == n / TWO32
  {
    assert ShiftOctets(n, 1) == n / 256;
    assert ShiftOctets(n, 2) == n / 256 / 256;
    assert ShiftOctets(n, 3) == n / 256 / 256 / 256;
  }

  lemma FourOctets(n: nat)
    ensures Zeros(4) == [0 as char, 0 as char, 0 as char, 0 as char]
    ensures BE(n, 4) == [(n / 0x100_0000 % 256) as char, (n / 0x1_0000 % 256) as char,
                         (n / 0x100 % 256) as char, (n % 256) as char]
  {
    assert Zeros(2) == [0 as char, 0 as char];
    assert BE(n / 0x100_0000, 1) == [(n / 0x100_0000 % 256) as char];
    assert n / 0x1_0000 / 256 == n / 0x100_0000 && n / 0x100 / 256 == n / 0x1_0000;
    assert BE(n / 0x1_0000, 2) == [(n / 0x100_0000 % 256) as char, (n / 0x1_0000 % 256) as char];
    assert BE(n / 0x100, 3) == [(n / 0x100_0000 % 256) as char, (n / 0x1_0000 % 256) as char, (n / 0x100 % 256) as char];
  }

  lemma MultipleStep(h: nat, p: nat)
    requires p > 0
    ensures h % (256 * p) == 0 <==> h % 256 == 0 && h / 256 % p == 0
  {
    if h % (256 * p) == 0 {
      var q := h / (256 * p);
      assert h == 256 * p * q == 256 * (p * q);
      assert h / 256 == p * q == 0 + q * p;
      ModMultiple(0, q, p);
    }
    if h % 256 == 0 && h / 256 % p == 0 {
      var q := h / 256 / p;
      assert h / 256 == p * q;
      assert h == 0 + q * (256 * p);
      ModMultiple(0, q, 256 * p);
    }
  }

  lemma {:induction false} OctetsZero(h: nat, w: nat)
    ensures BE(h, w) == Zeros(w) <==> h % Pow256(w) == 0
  {
    if w > 0 {
      OctetsZero(h / 256, w - 1);
      assert BE(h, w) == BE(h / 256, w - 1) + [(h % 256) as char] && Pow256(w) == 256 * Pow256(w - 1);
      assert Zeros(w) == Zeros(w - 1) + [0 as char] by { ZerosAppend(w - 1, 1); NoZeros(); }
      hide BE, Zeros, Pow256;
      MultipleStep(h, Pow256(w - 1));
      SameLast(BE(h / 256, w - 1), (h % 256) as char, Zeros(w - 1), 0 as char);
    }
  }

  lemma SameLast(a: Bytes, x: byte, b: Bytes, y: byte)
    requires |a| == |b|
    ensures a + [x] == b + [y] <==> a == b && x == y
  {
    if a + [x] == b + [y] {
      assert (a + [x])[..|a|] == a && (b + [y])[..|b|] == b;
      assert (a + [x])[|a|] == x && (b + [y])[|b|] == y;
    }
  }

  lemma HighOctetsZero(n: nat)
    ensures BE(n / TWO32, 4) == Zeros(4) <==> n % TWO64 < TWO32
  {
    hide BE, Zeros, Pow256;
    Pow256Values();
    OctetsZero(n / TWO32, 4);
    var q, r := n / TWO64, n % TWO64;
    assert n / TWO32 == q * TWO32 + r / TWO32;
  }

  /** The class pads as the standard says exactly when the length field has no high half: for
      messages below 2^61 octets, when they are below 2^29 octets. */
  lemma ShortPaddingIsStandard(m: Bytes)
    ensures ShortPadded(m) == Padded(m) <==> 8 * |m| % TWO64 < TWO32
    ensures |m| < 0x2000_0000_0000_0000 ==> (8 * |m| % TWO64 < TWO32 <==> |m| < 0x2000_0000)
  {
    hide BE, Zeros, ZeroCount;
    var n := 8 * |m|;
    BESplit(n, 4, 4);
    ShiftFour(n);
    HighOctetsZero(n);
    var front := Marked(m);
    assert Padded(m) == front + BE(n, 8);
    SameFront(front, Zeros(4) + BE(n, 4), BE(n, 8));
    SameBack(Zeros(4), BE(n / TWO32, 4), BE(n, 4));
  }

  lemma SameFront(front: Bytes, a: Bytes, b: Bytes)
    ensures front + a == front + b <==> a == b
  {
    if front + a == front + b {
      assert (front + a)[|front|..] == a && (front + b)[|front|..] == b;
    }
  }

  lemma SameBack(a: Bytes, b: Bytes, back: Bytes)
    requires |a| == |b|
    ensures a + back == b + back <==> a == b
  {
    if a + back == b + back {
      assert (a + back)[..|a|] == a && (b + back)[..|b|] == b;
    }
  }

  // ---------------------------------------------------------------- the class

  class Hasher {
    const digest: array<bv32>
    const block: array<byte>
    var blockByteIndex: nat
    var byteCount: u64
    ghost var message: Bytes   // every octet processed since the last reset

    ghost predicate Valid()
      reads this, digest, block
    {
      Absorbed(message) && blockByteIndex < 64 && byteCount == |message| % TWO64
    }

    /** The digest words and the block hold exactly the octets `m`. */
    ghost predicate Absorbed(m: Bytes)
      reads this`blockByteIndex, digest, block
    {
      && digest.Length == 5 && block.Length == 64
      && blockByteIndex <= 64 && blockByteIndex <= |m| && (|m| - blockByteIndex) % 64 == 0
      && Words() == Absorb(Compress, INITIAL, m[..|m| - blockByteIndex])
      && block[..blockByteIndex] == m[|m| - blockByteIndex..]
    }

    ghost function Words(): State
      requires digest.Length == 5
      reads digest
    {
      State(digest[0], digest[1], digest[2], digest[3], digest[4])
    }

    constructor ()
      ensures Valid() && message == []
      ensures fresh(digest) && fresh(block)
    {
      hide Compress;
      digest := new bv32[5][0x67452301, 0xefcdab89, 0x98badcfe, 0x10325476, 0xc3d2e1f0];
      block := new byte[64](_ => 0 as char);
      blockByteIndex, byteCount, message := 0, 0, [];
    }

    method Reset()
      requires digest.Length == 5 && block.Length == 64
      modifies this, digest
      ensures Valid() && message == []
    {
      hide Compress, Absorb;
      NothingAbsorbed();
      digest[0], digest[1], digest[2], digest[3], digest[4] :=
        0x67452301, 0xefcdab89, 0x98badcfe, 0x10325476, 0xc3d2e1f0;
      blockByteIndex, byteCount, message := 0, 0, [];
    }

    /** The message schedule of the full block. */
    method ExpandBlock() returns (w: array<bv32>)
      requires block.Length == 64
      ensures fresh(w) && w.Length == 80
      ensures forall j :: 0 <= j < 80 ==> w[j] == Schedule(block[..], j)
    {
      hide Word, Rotl, LeftRotate, Xor4, Schedule;
      ghost var m := block[..];
      RoundLaws();
      w := new bv32[80](_ => 0);
      var i := 0;
      while i < 16
        invariant i <= 16
        invariant forall j :: 0 <= j < i ==> w[j] == Schedule(m, j)
      {
        ScheduleStep(m, i);
        w[i] := Word(block[i * 4], block[i * 4 + 1], block[i * 4 + 2], block[i * 4 + 3]);
        i := i + 1;
      }
      while i < 80
        invariant 16 <= i <= 80
        invariant forall j :: 0 <= j < i ==> w[j] == Schedule(m, j)
      {
        ScheduleStep(m, i);
        w[i] := LeftRotate(Xor4(w[i - 3], w[i - 8], w[i - 14], w[i - 16]), 1);
        i := i + 1;
      }
    }

    /** Compresses the full block into the digest words. */
    method ProcessBlock()
      requires digest.Length == 5 && block.Length == 64
      modifies digest
      ensures Words() == Compress(old(Words()), block[..])
    {
      hide Add, Rotl, LeftRotate, Choose, Majority, Ch, Maj, Parity, Xor4, Schedule, Rounds, Compress;
      ghost var m := block[..];
      ghost var start := Words();
      var w := ExpandBlock();
      RoundLaws();
      assert block[..] == m;
      NoRounds(m, start);
      var a, b, c, d, e := digest[0], digest[1], digest[2], digest[3], digest[4];
      var i := 0;
      while i < 80
        invariant i <= 80
        invariant State(a, b, c, d, e) == Rounds(m, i, start)
        invariant Words() == start && forall j :: 0 <= j < 80 ==> w[j] == Schedule(m, j)
      {
        OneRound(m, i, start);
        var f, k: bv32 := 0, 0;
        if i < 20 {
          f, k := Choose(b, c, d), 0x5a827999;
        } else if i < 40 {
          f, k := Parity(b, c, d), 0x6ed9eba1;
        } else if i < 60 {
          f, k := Majority(b, c, d), 0x8f1bbcdc;
        } else {
          f, k := Parity(b, c, d), 0xca62c1d6;
        }
        var temp := Add(Add(Add(Add(LeftRotate(a, 5), f), e), k), w[i]);
        e, d, c, b, a := d, c, LeftRotate(b, 30), a, temp;
        i := i + 1;
      }
      AddToDigest(a, b, c, d, e);
      assert block[..] == m;
      CompressIsSum(m, start);
    }

    method AddToDigest(a: bv32, b: bv32, c: bv32, d: bv32, e: bv32)
      requires digest.Length == 5
      modifies digest
      ensures Words() == Sum(old(Words()), State(a, b, c, d, e))
    {
      hide Add;
      digest[0] := Add(digest[0], a);
      digest[1] := Add(digest[1], b);
      digest[2] := Add(digest[2], c);
      digest[3] := Add(digest[3], d);
      digest[4] := Add(digest[4], e);
    }

    /** Appends an octet to the block. */
    method PutByte(octet: byte, ghost m: Bytes)
      requires Absorbed(m) && blockByteIndex < 64
      modifies this`blockByteIndex, block
      ensures blockByteIndex == old(blockByteIndex) + 1 && Absorbed(m + [octet])
    {
      hide Compress, Absorb;
      ghost var whole := |m| - blockByteIndex;
      ghost var before := block[..blockByteIndex];
      block[blockByteIndex] := octet;
      blockByteIndex := blockByteIndex + 1;
      assert block[..blockByteIndex] == before + [octet];
      assert (m + [octet])[..whole] == m[..whole];
      assert (m + [octet])[whole..] == m[whole..] + [octet];
    }

    /** Compresses a full block. */
    method Flush(ghost m: Bytes)
      requires Absorbed(m) && blockByteIndex == 64
      modifies this`blockByteIndex, digest
      ensures blockByteIndex == 0 && Absorbed(m)
    {
      hide Compress, Absorb;
      ghost var full := block[..];
      blockByteIndex := 0;
      ProcessBlock();
      assert m[..|m| - 64] + full == m;
      AbsorbBlock(Compress, INITIAL, m[..|m| - 64], full);
      assert m[..|m|] == m;
    }

    method ProcessByte(octet: byte)
      requires Valid()
      modifies this, digest, block
      ensures Valid() && message == old(message) + [octet]
      ensures blockByteIndex == (old(blockByteIndex) + 1) % 64
    {
      hide Absorbed;
      PutByte(octet, message);
      byteCount := (byteCount + 1) % TWO64;
      message := message + [octet];
      if blockByteIndex == 64 { Flush(message); }
    }

    method ProcessBytes(data: Bytes)
      requires Valid()
      modifies this, digest, block
      ensures Valid() && message == old(message) + data
    {
      hide Absorbed;
      var i := 0;
      while i < |data|
        invariant i <= |data| && Valid() && message == old(message) + data[..i]
      {
        ProcessByte(data[i]);
        assert data[..i + 1] == data[..i] + [data[i]];
        i := i + 1;
      }
      assert data[..i] == data;
    }

    /** Appends zeros up to the start of the next block. */
    method FillBlock()
      requires Valid() && blockByteIndex != 0
      modifies this, digest, block
      ensures Valid() && message == old(message) + Zeros(64 - old(blockByteIndex)) && blockByteIndex == 0
    {
      hide Absorbed, Zeros;
      ghost var start, z := blockByteIndex, 0;
      NoZeros();
      while blockByteIndex != 0
        invariant Valid() && 0 <= z <= 64 - start
        invariant blockByteIndex == (start + z) % 64
        invariant message == old(message) + Zeros(z)
        decreases 64 - start - z
      {
        ProcessByte(0 as char);
        ZerosAppend(z, 1);
        z := z + 1;
      }
    }

    /** Appends zeros up to block position 56. */
    method FillTo56()
      requires Valid() && blockByteIndex <= 56
      modifies this, digest, block
      ensures Valid() && message == old(message) + Zeros(56 - old(blockByteIndex)) && blockByteIndex == 56
    {
      hide Absorbed, Zeros;
      ghost var start := blockByteIndex;
      NoZeros();
      while blockByteIndex < 56
        invariant Valid() && start <= blockByteIndex <= 56
        invariant message == old(message) + Zeros(blockByteIndex - start)
      {
        ZerosAppend(blockByteIndex - start, 1);
        ProcessByte(0 as char);
      }
    }

    /** The marker octet and zeros up to the length field, through a second block if needed. */
    method PutMarker()
      requires Valid()
      modifies this, digest, block
      ensures Valid() && blockByteIndex == 56
      ensures message == Marked(old(message))
    {
      hide Absorbed, Zeros;
      ghost var marked, z := message + [0x80 as char], 0;
      assert blockByteIndex == |message| % 64 by { IndexOfMessage(); }
      NoZeros();
      ProcessByte(0x80 as char);
      if blockByteIndex > 56 {
        z := 64 - blockByteIndex;
        FillBlock();
      }
      ghost var more := 56 - blockByteIndex;
      FillTo56();
      ZerosAppend(z, more);
      assert marked + Zeros(z) + Zeros(more) == marked + (Zeros(z) + Zeros(more));
    }

    lemma IndexOfMessage()
      requires Valid()
      ensures blockByteIndex == |message| % 64
    {
      hide Absorb, Compress;
      IndexInBlock(|message|, blockByteIndex);
    }

    /** The bit count in 32 bits, behind four zero octets. */
    method PutLength(bitCount: nat)
      requires Valid() && blockByteIndex == 56
      modifies this, digest, block
      ensures Valid() && message == old(message) + (Zeros(4) + BE(bitCount, 4))
    {
      hide Absorbed;
      ProcessBytes([0 as char, 0 as char, 0 as char, 0 as char]);
      ProcessBytes([(bitCount / 0x100_0000 % 256) as char, (bitCount / 0x1_0000 % 256) as char,
                    (bitCount / 0x100 % 256) as char, (bitCount % 256) as char]);
      FourOctets(bitCount);
    }

    /** Pads the message and returns the octets of the digest. */
    method GetDigestBytes() returns (octets: Bytes)
      requires Valid()
      modifies this, digest, block
      ensures octets == ClassHash(old(message))
      ensures 8 * |old(message)| % TWO64 < TWO32 ==> octets == Hash(old(message))
    {
      hide Absorb, Absorbed, Compress, BE, Zeros, ZeroCount, Output, ShortPadded, Padded;
      ghost var m := message;
      var bitCount := byteCount * 8 % TWO64;
      PutMarker();
      PutLength(bitCount);
      ShortPaddedParts(m, bitCount);
      WholeMessage();
      octets := ReadDigest();
      ShortPaddingIsStandard(m);
    }

    lemma WholeMessage()
      requires Valid() && |message| % 64 == 0
      ensures digest.Length == 5 && Words() == Absorb(Compress, INITIAL, message)
    {
      hide Absorb, Compress;
      assert message[..|message|] == message;
    }

    method ReadDigest() returns (octets: Bytes)
      requires digest.Length == 5
      ensures octets == Output(Words())
    {
      hide OctetOf, WordsToOctets;
      ghost var words := digest[..];
      var d := new byte[20](_ => 0 as char);
      NoWords();
      for i := 0 to 5
        invariant d[..4 * i] == WordsToOctets(words[..i])
      {
        PutWord(d, i, digest[i], words[..i]);
        assert words[..i + 1] == words[..i] + [digest[i]];
      }
      assert words[..5] == words == [digest[0], digest[1], digest[2], digest[3], digest[4]];
      assert d[..20] == d[..];
      octets := d[..];
    }
  }

  /** The wrapped 64-bit counter has the low 32 bits of the bit count. */
  lemma BitCountOctets(n: nat, bitCount: nat)
    requires bitCount == n % TWO64 * 8 % TWO64
    ensures BE(bitCount, 4) == BE(8 * n, 4)
  {
    hide BE;
    Pow256Values();
    var q := 8 * n / TWO64;
    assert n % TWO64 * 8 % TWO64 == 8 * n % TWO64 by { BitCountStep(0, n); WrapTimes8(n); }
    assert 8 * n == bitCount + TWO32 * (TWO32 * q);
    BEIgnoresHigh(bitCount, TWO32 * q, 4);
  }

  lemma ShortPaddedParts(m: Bytes, bitCount: nat)
    requires bitCount == |m| % TWO64 * 8 % TWO64
    ensures ShortPadded(m) == Marked(m) + (Zeros(4) + BE(bitCount, 4))
    ensures |ShortPadded(m)| % 64 == 0
  {
    hide BE, Marked, Zeros;
    BitCountOctets(|m|, bitCount);
    WholeBlocks(|Marked(m)|);
  }

  lemma WrapTimes8(n: nat)
    ensures n % TWO64 * 8 % TWO64 == 8 * n % TWO64
  {
    var q, r := n / TWO64, n % TWO64;
    assert 8 * n == 8 * r + TWO64 * (8 * q);
  }

  lemma NothingAbsorbed()
    ensures Absorb(Compress, INITIAL, []) == INITIAL
  {
  }

  lemma NoZeros()
    ensures Zeros(0) == [] && Zeros(1) == [0 as char]
  {
  }
}
