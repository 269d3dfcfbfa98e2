/** SHA-256 as sections 5 and 6.2 of FIPS 180-4 define it, and the streaming class of
    lang/sif.cc:36-179 proved to compute it however its input is split. */
module Sha256 {
  import opened Octets
  import opened BitLaws
  import opened BlockHash
  import opened SifFormat

  // ---------------------------------------------------------------- specification

  /** Section 4.2.2, eight constants a row. */
  function ConstantRow(r: nat): (ks: seq<bv32>)
    requires r < 8
    ensures |ks| == 8
  {
    match r
    case 0 => [0x428a2f98, 0x71374491, 0xb5c0fbcf, 0xe9b5dba5, 0x3956c25b, 0x59f111f1, 0x923f82a4, 0xab1c5ed5]
    case 1 => [0xd807aa98, 0x12835b01, 0x243185be, 0x550c7dc3, 0x72be5d74, 0x80deb1fe, 0x9bdc06a7, 0xc19bf174]
    case 2 => [0xe49b69c1, 0xefbe4786, 0x0fc19dc6, 0x240ca1cc, 0x2de92c6f, 0x4a7484aa, 0x5cb0a9dc, 0x76f988da]
    case 3 => [0x983e5152, 0xa831c66d, 0xb00327c8, 0xbf597fc7, 0xc6e00bf3, 0xd5a79147, 0x06ca6351, 0x14292967]
    case 4 => [0x27b70a85, 0x2e1b2138, 0x4d2c6dfc, 0x53380d13, 0x650a7354, 0x766a0abb, 0x81c2c92e, 0x92722c85]
    case 5 => [0xa2bfe8a1, 0xa81a664b, 0xc24b8b70, 0xc76c51a3, 0xd192e819, 0xd6990624, 0xf40e3585, 0x106aa070]
    case 6 => [0x19a4c116, 0x1e376c08, 0x2748774c, 0x34b0bcb5, 0x391c0cb3, 0x4ed8aa4a, 0x5b9cca4f, 0x682e6ff3]
    case _ => [0x748f82ee, 0x78a5636f, 0x84c87814, 0x8cc70208, 0x90befffa, 0xa4506ceb, 0xbef9a3f7, 0xc67178f2]
  }

  function RoundConstant(t: nat): bv32
    requires t < 64
  {
    ConstantRow(t / 8)[t % 8]
  }

  /** Section 4.1.2: `ROTR^n(x)` is `(x >> n) | (x << 32 - n)`. */
  function BigSigma0(x: bv32): bv32 { ((x >> 2) | (x << 30)) ^ ((x >> 13) | (x << 19)) ^ ((x >> 22) | (x << 10)) }
  function BigSigma1(x: bv32): bv32 { ((x >> 6) | (x << 26)) ^ ((x >> 11) | (x << 21)) ^ ((x >> 25) | (x << 7)) }
  function SmallSigma0(x: bv32): bv32 { ((x >> 7) | (x << 25)) ^ ((x >> 18) | (x << 14)) ^ (x >> 3) }
  function SmallSigma1(x: bv32): bv32 { ((x >> 17) | (x << 15)) ^ ((x >> 19) | (x << 13)) ^ (x >> 10) }

  /** Word `t` of the message schedule. */
  function Schedule(block: Bytes, t: nat): bv32
    requires |block| == 64
  {
    if t < 16 then WordAt(block, t)
    else Add(Add(SmallSigma1(Schedule(block, t - 2)), Schedule(block, t - 7)),
             Add(SmallSigma0(Schedule(block, t - 15)), Schedule(block, t - 16)))
  }

  lemma ScheduleStep(block: Bytes, t: nat)
    requires |block| == 64
    ensures t < 16 ==> Schedule(block, t) == WordAt(block, t)
    ensures t >= 16 ==>
              Schedule(block, t) ==
              Add(Add(SmallSigma1(Schedule(block, t - 2)), Schedule(block, t - 7)),
                  Add(SmallSigma0(Schedule(block, t - 15)), Schedule(block, t - 16)))
  {
  }

  datatype State = State(a: bv32, b: bv32, c: bv32, d: bv32, e: bv32, f: bv32, g: bv32, h: bv32)

  const INITIAL: State := State(
    0x6a09e667, 0xbb67ae85, 0x3c6ef372, 0xa54ff53a, 0x510e527f, 0x9b05688c, 0x1f83d9ab, 0x5be0cd19)

  function Round(v: State, k: bv32, w: bv32): State {
    var t1 := Add(Add(Add(Add(v.h, BigSigma1(v.e)), Ch(v.e, v.f, v.g)), k), w);
    var t2 := Add(BigSigma0(v.a), Maj(v.a, v.b, v.c));
    State(Add(t1, t2), v.a, v.b, v.c, Add(v.d, t1), v.e, v.f, v.g)
  }

  function Rounds(block: Bytes, t: nat, v: State): State
    requires |block| == 64 && t <= 64
  {
    if t == 0 then v else Round(Rounds(block, t - 1, v), RoundConstant(t - 1), Schedule(block, t - 1))
  }

  function Compress(s: State, block: Bytes): State {
    if |block| != 64 then s
    else
      Sum(s, Rounds(block, 64, s))
  }

  function Sum(s: State, v: State): State {
    State(Add(s.a, v.a), Add(s.b, v.b), Add(s.c, v.c), Add(s.d, v.d),
          Add(s.e, v.e), Add(s.f, v.f), Add(s.g, v.g), Add(s.h, v.h))
  }

  lemma NoRounds(block: Bytes, s: State)
    requires |block| == 64
    ensures Rounds(block, 0, s) == s
  {
  }

  lemma OneRound(block: Bytes, t: nat, s: State)
    requires |block| == 64 && t < 64
    ensures Rounds(block, t + 1, s) == Round(Rounds(block, t, s), RoundConstant(t), Schedule(block, t))
  {
    hide Round, RoundConstant, Schedule;
  }

  lemma CompressIsSum(block: Bytes, s: State)
    requires |block| == 64
    ensures Compress(s, block) == Sum(s, Rounds(block, 64, s))
  {
    hide Rounds, Sum;
  }

  function Output(s: State): Digest {
    WordsToOctets([s.a, s.b, s.c, s.d, s.e, s.f, s.g, s.h])
  }

  function Hash(m: Bytes): Digest { Output(Absorb(Compress, INITIAL, Padded(m))) }

  lemma InitialWords()
    ensures INITIAL == State(0x6a09e667, 0xbb67ae85, 0x3c6ef372, 0xa54ff53a, 0x510e527f, 0x9b05688c, 0x1f83d9ab, 0x5be0cd19)
  {
  }

  lemma NothingAbsorbed()
    ensures Absorb(Compress, INITIAL, []) == INITIAL
  {
    hide Compress;
  }

  // ---------------------------------------------------------------- the streaming class

  class Hasher {
    const state: array<bv32>
    const buffer: array<byte>
    var bitCount: u64
    var bufferSize: nat
    ghost var message: Bytes   // everything passed to Update so far

    ghost predicate Valid()
      reads this, state, buffer
    {
      Absorbed(message) && bufferSize < 64 && bitCount == 8 * |message| % TWO64
    }

    ghost function Words(): State
      requires state.Length == 8
      reads state
    {
      State(state[0], state[1], state[2], state[3], state[4], state[5], state[6], state[7])
    }

    constructor ()
      ensures Valid() && message == []
      ensures fresh(state) && fresh(buffer)
    {
      hide Compress, Absorb, INITIAL;
      var words := new bv32[8][
        0x6a09e667, 0xbb67ae85, 0x3c6ef372, 0xa54ff53a, 0x510e527f, 0x9b05688c, 0x1f83d9ab, 0x5be0cd19];
      state := words;
      buffer := new byte[64](_ => 0 as char);
      bitCount, bufferSize, message := 0, 0, [];
      new;
      InitialWords();
      assert Words() == INITIAL;
      NothingAbsorbed();
    }

    /** The message schedule of the full buffer. */
    method ExpandBlock() returns (w: array<bv32>)
      requires buffer.Length == 64
      ensures fresh(w) && w.Length == 64
      ensures forall j :: 0 <= j < 64 ==> w[j] == Schedule(buffer[..], j)
    {
      hide Word, Add, SmallSigma0, SmallSigma1, Schedule;
      ghost var block := buffer[..];
      w := new bv32[64](_ => 0);
      var i := 0;
      while i < 16
        invariant i <= 16
        invariant forall j :: 0 <= j < i ==> w[j] == Schedule(block, j)
      {
        ScheduleStep(block, i);
        w[i] := Word(buffer[i * 4], buffer[i * 4 + 1], buffer[i * 4 + 2], buffer[i * 4 + 3]);
        i := i + 1;
      }
      while i < 64
        invariant 16 <= i <= 64
        invariant forall j :: 0 <= j < i ==> w[j] == Schedule(block, j)
      {
        ScheduleStep(block, i);
        var s0 := SmallSigma0(w[i - 15]);
        var s1 := SmallSigma1(w[i - 2]);
        w[i] := Add(Add(s1, w[i - 7]), Add(s0, w[i - 16]));
        i := i + 1;
      }
    }

    /** Replaces the state by the compression of itself with the full buffer. */
    method Transform()
      requires state.Length == 8 && buffer.Length == 64 
      modifies state
      ensures Words() == Compress(old(Words()), buffer[..])
    {
      hide Add, BigSigma0, BigSigma1, Ch, Maj, RoundConstant, Schedule, Rounds, Compress;
      ghost var block := buffer[..];
      ghost var start := Words();
      var w := ExpandBlock();
      assert buffer[..] == block;
      NoRounds(block, start);
      var a, b, c, d := state[0], state[1], state[2], state[3];
      var e, f, g, h := state[4], state[5], state[6], state[7];
      var i := 0;
      while i < 64
        invariant i <= 64
        invariant State(a, b, c, d, e, f, g, h) == Rounds(block, i, start)
        invariant Words() == start && forall j :: 0 <= j < 64 ==> w[j] == Schedule(block, j)
      {
        OneRound(block, i, start);
        var temp1 := Add(Add(Add(Add(h, BigSigma1(e)), Ch(e, f, g)), RoundConstant(i)), w[i]);
        var temp2 := Add(BigSigma0(a), Maj(a, b, c));
        h, g, f, e, d, c, b, a := g, f, e, Add(d, temp1), c, b, a, Add(temp1, temp2);
        i := i + 1;
      }
      AddToState(a, b, c, d, e, f, g, h);
      assert buffer[..] == block;
      CompressIsSum(block, start);
    }

    method AddToState(a: bv32, b: bv32, c: bv32, d: bv32, e: bv32, f: bv32, g: bv32, h: bv32)
      requires state.Length == 8
      modifies state
      ensures Words() == Sum(old(Words()), State(a, b, c, d, e, f, g, h))
    {
      hide Add;
      state[0] := Add(state[0], a);
      state[1] := Add(state[1], b);
      state[2] := Add(state[2], c);
      state[3] := Add(state[3], d);
      state[4] := Add(state[4], e);
      state[5] := Add(state[5], f);
      state[6] := Add(state[6], g);
      state[7] := Add(state[7], h);
    }

    /** The state and the buffer hold exactly the octets `m`. */
    ghost predicate Absorbed(m: Bytes)
      reads this`bufferSize, state, buffer
    {
      && state.Length == 8 && buffer.Length == 64
      && bufferSize <= 64 && bufferSize <= |m| && (|m| - bufferSize) % 64 == 0
      && Words() == Absorb(Compress, INITIAL, m[..|m| - bufferSize])
      && buffer[..bufferSize] == m[|m| - bufferSize..]
    }

    /** `memcpy` of `piece` behind the octets already buffered. */
    method CopyIn(piece: Bytes, ghost m: Bytes)
      requires Absorbed(m) && bufferSize + |piece| <= 64
      modifies this`bufferSize, buffer
      ensures bufferSize == old(bufferSize) + |piece| && Absorbed(m + piece)
    {
      hide Compress;
      var i := 0;
      while i < |piece|
        invariant i <= |piece| && bufferSize == old(bufferSize)
        invariant buffer[..bufferSize + i] == old(buffer[..bufferSize]) + piece[..i]
      {
        buffer[bufferSize + i] := piece[i];
        i := i + 1;
      }
      bufferSize := bufferSize + |piece|;
      var whole := |m| - old(bufferSize);
      assert (m + piece)[..whole] == m[..whole];
      assert (m + piece)[whole..] == m[whole..] + piece;
      assert piece[..i] == piece;
    }

    /** Compresses a full buffer. */
    method Flush(ghost m: Bytes)
      requires Absorbed(m) && bufferSize == 64
      modifies this`bufferSize, state
      ensures bufferSize == 0 && Absorbed(m)
    {
      hide Compress;
      ghost var block := buffer[..];
      Transform();
      bufferSize := 0;
      assert m[..|m| - 64] + block == m;
      AbsorbBlock(Compress, INITIAL, m[..|m| - 64], block);
      assert m[..|m|] == m;
    }

    /** Appends `data`: fills the buffer piece by piece and compresses whenever it is full. */
    method Update(data: Bytes)
      requires Valid()
      modifies this, state, buffer
      ensures Valid() && message == old(message) + data
    {
      hide Absorbed;
      BitCountStep(|message|, |data|);
      bitCount := (bitCount + |data| * 8) % TWO64;
      ghost var count := bitCount;
      message := message + data;
      var done := 0;
      assert message == old(message) + data && old(message) + data[..0] == old(message);
      while done < |data|
        invariant done <= |data| && bufferSize < 64
        invariant Absorbed(old(message) + data[..done])
        invariant message == old(message) + data && bitCount == count
      {
        var copySize := if |data| - done < 64 - bufferSize then |data| - done else 64 - bufferSize;
        CopyIn(data[done..done + copySize], old(message) + data[..done]);
        assert old(message) + data[..done + copySize] ==
               old(message) + data[..done] + data[done..done + copySize];
        done := done + copySize;
        if bufferSize == 64 { Flush(old(message) + data[..done]); }
      }
      assert data[..done] == data;
    }

    /** Appends zeros until the buffer holds `limit` octets. */
    method PadTo(limit: nat, ghost m: Bytes)
      requires Absorbed(m) && bufferSize <= limit <= 64
      modifies this`bufferSize, buffer
      ensures bufferSize == limit && Absorbed(m + Zeros(limit - old(bufferSize)))
    {
      hide Absorbed;
      assert m + Zeros(0) == m;
      while bufferSize < limit
        invariant old(bufferSize) <= bufferSize <= limit
        invariant Absorbed(m + Zeros(bufferSize - old(bufferSize)))
      {
        ghost var z := bufferSize - old(bufferSize);
        ZerosAppend(z, 1);
        assert m + Zeros(z + 1) == m + Zeros(z) + [0 as char];
        CopyIn([0 as char], m + Zeros(z));
      }
    }

    /** Appends the marker octet and zeros up to the length field, through a second block if needed. */
    method PutMarker()
      requires Absorbed(message) && bufferSize < 64 && bufferSize == |message| % 64
      modifies this`bufferSize, state, buffer
      ensures bufferSize == 56
      ensures Absorbed(Marked(message))
    {
      hide Absorbed, Zeros, Compress;
      ghost var marked := message + [0x80 as char];
      CopyIn([0x80 as char], message);
      ghost var z := 0;
      assert marked + Zeros(0) == marked by { assert Zeros(0) == [] by { ZerosAppend(0, 0); } }
      if bufferSize > 56 {
        z := 64 - bufferSize;
        PadTo(64, marked);
        Flush(marked + Zeros(z));
      }
      ghost var more := 56 - bufferSize;
      PadTo(56, marked + Zeros(z));
      ZerosAppend(z, more);
      assert marked + Zeros(z) + Zeros(more) == marked + (Zeros(z) + Zeros(more));
      assert z + more == ZeroCount(|message|);
    }

    /** Pads the message and returns its digest; the object is spent afterwards. */
    method Finish() returns (digest: Digest)
      requires Valid()
      modifies this, state, buffer
      ensures digest == Hash(old(message))
    {
      hide Absorbed, Absorb, Compress, BE, Zeros, ZeroCount, Output, Padded;
      IndexOfMessage();
      PutMarker();
      PutLength(Marked(message));
      PaddedParts(message, bitCount);
      Flush(Padded(message));
      WholeIsAbsorbed(Padded(message));
      digest := ReadDigest();
    }

    lemma IndexOfMessage()
      requires Valid()
      ensures bufferSize == |message| % 64
    {
      hide Absorb, Compress;
      IndexInBlock(|message|, bufferSize);
    }

    lemma WholeIsAbsorbed(m: Bytes)
      requires Absorbed(m) && bufferSize == 0
      ensures state.Length == 8 && Words() == Absorb(Compress, INITIAL, m)
    {
      hide Absorb, Compress;
      assert m[..|m|] == m;
    }

    /** Appends the bit count, most significant octet first. */
    method PutLength(ghost m: Bytes)
      requires Absorbed(m) && bufferSize == 56
      modifies this`bufferSize, buffer
      ensures bufferSize == 64 && Absorbed(m + BE(bitCount, 8))
    {
      hide Absorbed;
      var i := 8;
      assert m + BE(ShiftOctets(bitCount, 8), 0) == m;
      while i > 0
        invariant 0 <= i <= 8 && bufferSize == 64 - i
        invariant Absorbed(m + BE(ShiftOctets(bitCount, i), 8 - i))
      {
        i := i - 1;
        ghost var before := m + BE(ShiftOctets(bitCount, i + 1), 7 - i);
        CopyIn([(ShiftOctets(bitCount, i) % 256) as char], before);
        assert m + BE(ShiftOctets(bitCount, i), 8 - i) ==
               before + [(ShiftOctets(bitCount, i) % 256) as char];
      }
    }

    method ReadDigest() returns (digest: Digest)
      requires state.Length == 8
      ensures digest == Output(Words())
    {
      hide OctetOf, WordsToOctets;
      ghost var words := state[..];
      var d := new byte[32](_ => 0 as char);
      NoWords();
      for i := 0 to 8
        invariant d[..4 * i] == WordsToOctets(words[..i])
      {
        PutWord(d, i, state[i], words[..i]);
        assert words[..i + 1] == words[..i] + [state[i]];
      }
      assert words[..8] == words == [state[0], state[1], state[2], state[3], state[4], state[5], state[6], state[7]];
      assert d[..32] == d[..];
      digest := d[..];
    }
  }
}
