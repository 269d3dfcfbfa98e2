/** The mask macros of a bitfield (lang/c_header_generator.cc:279-300). */
module BitfieldMasks {
  import opened Octets
  import opened Ast

  function Pow2(n: nat): (r: nat)
    ensures r > 0
  {
    if n == 0 then 1 else 2 * Pow2(n - 1)
  }

  predicate HasBit(n: nat, j: nat) {
    if j == 0 then n % 2 == 1 else HasBit(n / 2, j - 1)
  }

  /** `(ones ULL << shift)`. */
  datatype Mask = Mask(field: Bytes, ones: u64, shift: u64) {
    function Value(): nat { ones * Pow2(shift) }
  }

  /** `1ULL << bits` needs `bits < 64`. */
  predicate Shiftable(fs: seq<BitfieldField>) { forall j :: 0 <= j < |fs| ==> fs[j].bits < 64 }

  function Width(fs: seq<BitfieldField>): nat {
    if fs == [] then 0 else Width(fs[..|fs| - 1]) + fs[|fs| - 1].bits
  }

  /** `(1ULL << bits) - 1`. */
  function Ones(bits: nat): (r: u64)
    requires bits < 64
  {
    Pow2Bound(bits);
    Pow2(bits) - 1
  }

  lemma {:induction false} Pow2Monotone(a: nat, b: nat)
    requires a <= b
    ensures Pow2(a) <= Pow2(b)
    decreases b - a
  {
    if a < b { Pow2Monotone(a + 1, b); }
  }

  lemma Pow2Bound(bits: nat)
    requires bits <= 64
    ensures Pow2(bits) <= TWO64
    ensures bits < 64 ==> 2 * Pow2(bits) <= TWO64
  {
    Pow2Monotone(bits, 64);
    assert Pow2(8) == 0x100;
    assert Pow2(16) == 0x100 * Pow2(8) by { Pow2Sum(8, 8); }
    assert Pow2(32) == 0x1_0000 * Pow2(16) by { Pow2Sum(16, 16); }
    assert Pow2(64) == TWO32 * Pow2(32) by { Pow2Sum(32, 32); }
    if bits < 64 { Pow2Monotone(bits + 1, 64); }
  }

  lemma {:induction false} Pow2Sum(a: nat, b: nat)
    ensures Pow2(a + b) == Pow2(a) * Pow2(b)
  {
    if a > 0 {
      Pow2Sum(a - 1, b);
      assert Pow2(a) * Pow2(b) == 2 * (Pow2(a - 1) * Pow2(b));
    }
  }

  function Masks(fs: seq<BitfieldField>): (r: seq<Mask>)
    requires Shiftable(fs)
    ensures |r| == |fs|
  {
    if fs == [] then []
    else
      var n := |fs| - 1;
      Masks(fs[..n]) + [Mask(fs[n].name, Ones(fs[n].bits), Width(fs[..n]) % TWO64)]
  }

  /** `visit(BitfieldNode)`: the running `offset` is a 64-bit counter. */
  method EmitMasks(fs: seq<BitfieldField>) returns (masks: seq<Mask>)
    requires Shiftable(fs)
    ensures masks == Masks(fs)
  {
    hide Ones;
    masks := [];
    var offset: u64 := 0;
    for k := 0 to |fs|
      invariant masks == Masks(fs[..k]) && offset == Width(fs[..k]) % TWO64
    {
      assert fs[..k + 1][..k] == fs[..k];
      masks := masks + [Mask(fs[k].name, Ones(fs[k].bits), offset)];
      WrapStep(Width(fs[..k]), fs[k].bits);
      offset := (offset + fs[k].bits) % TWO64;
    }
    assert fs[..|fs|] == fs;
  }

  lemma WrapStep(n: nat, bits: nat)
    ensures (n % TWO64 + bits) % TWO64 == (n + bits) % TWO64
  {
  }

  // ---------------------------------------------------------------- which bits a mask has

  lemma {:induction false} OnesBits(w: nat, j: nat)
    ensures HasBit(Pow2(w) - 1, j) <==> j < w
  {
    if w == 0 {
      NoBits(j);
    } else if j > 0 {
      assert (Pow2(w) - 1) / 2 == Pow2(w - 1) - 1;
      OnesBits(w - 1, j - 1);
    }
  }

  lemma {:induction false} NoBits(j: nat)
    ensures !HasBit(0, j)
  {
    if j > 0 { NoBits(j - 1); }
  }

  lemma {:induction false} ShiftedBits(n: nat, shift: nat, j: nat)
    ensures HasBit(n * Pow2(shift), j) <==> j >= shift && HasBit(n, j - shift)
  {
    if shift > 0 {
      var half := n * Pow2(shift - 1);
      assert n * Pow2(shift) == 2 * half;
      if j > 0 { ShiftedBits(n, shift - 1, j - 1); }
    }
  }

  lemma {:induction false} MasksAt(fs: seq<BitfieldField>, k: nat)
    requires Shiftable(fs) && Width(fs) <= 64 && k < |fs|
    ensures Width(fs[..k]) + fs[k].bits == Width(fs[..k + 1]) <= Width(fs)
    ensures Masks(fs)[k] == Mask(fs[k].name, Ones(fs[k].bits), Width(fs[..k]))
    decreases |fs|
  {
    hide Ones;
    var n := |fs| - 1;
    assert fs[..k + 1][..k] == fs[..k];
    if k < n {
      assert fs[..n][..k] == fs[..k] && fs[..n][..k + 1] == fs[..k + 1];
      MasksAt(fs[..n], k);
    } else {
      assert fs[..k + 1] == fs;
    }
  }

  /** A mask has the bits from the sum of the widths before its field up to its own width. */
  lemma {:induction false} MaskBits(fs: seq<BitfieldField>, k: nat, j: nat)
    requires Shiftable(fs) && Width(fs) <= 64 && k < |fs|
    ensures HasBit(Masks(fs)[k].Value(), j) <==> Width(fs[..k]) <= j < Width(fs[..k + 1])
  {
    hide HasBit, Pow2, Width, Masks;
    MasksAt(fs, k);
    var shift := Width(fs[..k]);
    ShiftedBits(Ones(fs[k].bits), shift, j);
    if j >= shift { OnesBits(fs[k].bits, j - shift); }
  }

  lemma {:induction false} WidthMonotone(fs: seq<BitfieldField>, k: nat, l: nat)
    requires k <= l <= |fs|
    ensures Width(fs[..k]) <= Width(fs[..l])
    decreases l
  {
    if k < l {
      assert fs[..l][..l - 1] == fs[..l - 1];
      WidthMonotone(fs, k, l - 1);
    }
  }

  /** The field that a bit below the total width belongs to. */
  lemma {:induction false} Owner(fs: seq<BitfieldField>, j: nat) returns (k: nat)
    requires j < Width(fs)
    ensures k < |fs| && Width(fs[..k]) <= j < Width(fs[..k + 1])
    decreases |fs|
  {
    var n := |fs| - 1;
    if j < Width(fs[..n]) {
      k := Owner(fs[..n], j);
      assert fs[..n][..k] == fs[..k] && fs[..n][..k + 1] == fs[..k + 1];
    } else {
      k := n;
      assert fs[..n + 1] == fs;
    }
  }

  /** No two masks share a bit. */
  lemma {:induction false} MasksDisjoint(fs: seq<BitfieldField>, k: nat, l: nat, j: nat)
    requires Shiftable(fs) && Width(fs) <= 64 && k < l < |fs|
    ensures !(HasBit(Masks(fs)[k].Value(), j) && HasBit(Masks(fs)[l].Value(), j))
  {
    hide HasBit, Width, Masks;
    MaskBits(fs, k, j);
    MaskBits(fs, l, j);
    WidthMonotone(fs, k + 1, l);
  }

  /** Together the masks have exactly the low `Width(fs)` bits. */
  lemma {:induction false} MasksCover(fs: seq<BitfieldField>, j: nat)
    requires Shiftable(fs) && Width(fs) <= 64
    ensures (exists k :: 0 <= k < |fs| && HasBit(Masks(fs)[k].Value(), j)) <==> j < Width(fs)
  {
    hide HasBit, Width, Masks;
    if j < Width(fs) {
      var k := Owner(fs, j);
      MaskBits(fs, k, j);
    }
    forall k | 0 <= k < |fs| && HasBit(Masks(fs)[k].Value(), j) ensures j < Width(fs) {
      MaskBits(fs, k, j);
      WidthMonotone(fs, k + 1, |fs|);
      assert fs[..|fs|] == fs;
    }
  }

  /** Every mask is a 64-bit constant, and C defines its shift unless its field is empty and stands
      behind 64 used bits. */
  lemma {:induction false} MaskIsConstant(fs: seq<BitfieldField>, k: nat)
    requires Shiftable(fs) && Width(fs) <= 64 && k < |fs|
    ensures Masks(fs)[k].Value() < TWO64
    ensures Masks(fs)[k].shift < 64 <==> !(fs[k].bits == 0 && Width(fs[..k]) == 64)
  {
    hide Pow2, Width, Masks;
    MasksAt(fs, k);
    var shift, bits := Width(fs[..k]), fs[k].bits;
    Pow2Sum(bits, shift);
    Pow2Bound(bits + shift);
    assert (Pow2(bits) - 1) * Pow2(shift) == Pow2(bits) * Pow2(shift) - Pow2(shift);
  }

  const FULL_THEN_EMPTY: seq<BitfieldField> :=
    [BitfieldField("a", 63), BitfieldField("b", 1), BitfieldField("c", 0)]

  /** Such a bitfield: widths 63, 1 and 0 put the last mask behind a shift by 64. */
  lemma ShiftIsUndefined()
    ensures Shiftable(FULL_THEN_EMPTY) && Width(FULL_THEN_EMPTY) == 64
    ensures Masks(FULL_THEN_EMPTY)[2].shift == 64
  {
    hide Masks;
    var fs := FULL_THEN_EMPTY;
    assert fs[..1][..0] == [] && fs[..2][..1] == fs[..1] && fs[..3] == fs;
    assert Width(fs[..1]) == 63 && Width(fs[..2]) == 64 && Width(fs) == 64;
    MasksAt(fs, 2);
  }
}
