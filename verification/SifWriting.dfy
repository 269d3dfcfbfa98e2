/** The SIF writer as the source has it (lang/sif.cc:181-253, 338-760, 982-1028): an object that
    appends to its output and the loops over the tree. Each method is proved against the format
    functions; `ok` is false where the source throws. */
module SifWriting {
  import opened Octets
  import opened Ast
  import opened BlockHash
  import opened SifFormat
  import opened SifArtifact
  import Sha256

  // ---------------------------------------------------------------- what a write adds

  /** `after` is `before` and the encoding of `v`, in front of whatever is written next. */
  ghost predicate Wrote<T>(put: (T, Bytes) -> Bytes, v: T, before: Bytes, after: Bytes) {
    forall k :: after + k == before + put(v, k)
  }

  ghost predicate WroteMany<T>(put: (T, Bytes) -> Bytes, vs: seq<T>, before: Bytes, after: Bytes) {
    forall k :: after + k == before + PutMany(put, vs, k)
  }

  ghost predicate WroteList<T>(put: (T, Bytes) -> Bytes, vs: seq<T>, before: Bytes, after: Bytes) {
    forall k :: after + k == before + PutList(put, vs, k)
  }

  ghost predicate WroteByte(b: byte, before: Bytes, after: Bytes) {
    forall k :: after + k == before + PutByte(b, k)
  }

  ghost predicate WroteBlock(b: Bytes, before: Bytes, after: Bytes) {
    forall k :: after + k == before + PutBlock(b, k)
  }

  ghost predicate WroteZeros(n: nat, before: Bytes, after: Bytes) {
    forall k :: after + k == before + PutZeros(n, k)
  }

  ghost predicate WroteU32(n: nat, before: Bytes, after: Bytes) {
    forall k :: after + k == before + PutU32(n, k)
  }

  ghost predicate WroteU64(n: nat, before: Bytes, after: Bytes) {
    forall k :: after + k == before + PutU64(n, k)
  }

  ghost predicate WroteString(v: Bytes, before: Bytes, after: Bytes) {
    forall k :: after + k == before + PutString(v, k)
  }

  function PutByte(b: byte, k: Bytes): Bytes { [b] + k }

  function PutBlock(b: Bytes, k: Bytes): Bytes { b + k }

  lemma ByteWritten(b: byte, before: Bytes)
    ensures WroteByte(b, before, before + [b])
  {
    assert forall k :: before + [b] + k == before + ([b] + k);
  }

  lemma BlockWritten(b: Bytes, before: Bytes)
    ensures WroteBlock(b, before, before + b)
  {
    assert forall k :: before + b + k == before + (b + k);
  }

  lemma {:induction false} ManySnoc<T>(put: (T, Bytes) -> Bytes, vs: seq<T>, i: nat, k: Bytes)
    requires i < |vs|
    ensures PutMany(put, vs[..i + 1], k) == PutMany(put, vs[..i], put(vs[i], k))
  {
    if i > 0 {
      assert vs[..i + 1][1..] == vs[1..][..i] && vs[..i][1..] == vs[1..][..i - 1];
      ManySnoc(put, vs[1..], i - 1, k);
    } else {
      assert vs[..1][1..] == [];
    }
  }

  lemma NothingWritten<T>(put: (T, Bytes) -> Bytes, vs: seq<T>, before: Bytes)
    ensures WroteMany(put, vs[..0], before, before)
  {
  }

  lemma OneMoreWritten<T>(put: (T, Bytes) -> Bytes, vs: seq<T>, i: nat, start: Bytes, before: Bytes, after: Bytes)
    requires i < |vs| && WroteMany(put, vs[..i], start, before) && Wrote(put, vs[i], before, after)
    ensures WroteMany(put, vs[..i + 1], start, after)
  {
    hide PutMany;
    forall k ensures after + k == start + PutMany(put, vs[..i + 1], k) {
      ManySnoc(put, vs, i, k);
      assert before + put(vs[i], k) == start + PutMany(put, vs[..i], put(vs[i], k));
    }
  }

  lemma ListWritten<T>(put: (T, Bytes) -> Bytes, vs: seq<T>, start: Bytes, counted: Bytes, after: Bytes)
    requires WroteU32(|vs|, start, counted) && WroteMany(put, vs[..|vs|], counted, after)
    ensures WroteList(put, vs, start, after)
  {
    hide PutMany, PutU32;
    assert vs[..|vs|] == vs;
    forall k ensures after + k == start + PutList(put, vs, k) {
      assert counted + PutMany(put, vs, k) == start + PutU32(|vs|, PutMany(put, vs, k));
    }
  }

  // ---------------------------------------------------------------- integers and strings

  /** `(n >> (i * 8)) & 0xff`. */
  function OctetAt(n: nat, i: nat): byte { (ShiftOctets(n, i) % 256) as char }

  lemma {:induction false} LESnoc(n: nat, i: nat, k: Bytes)
    ensures PutLE(n, i + 1, k) == PutLE(n, i, PutByte(OctetAt(n, i), k))
  {
    if i > 0 {
      ShiftInside(n, i - 1);
      LESnoc(n / 256, i - 1, k);
    }
  }

  /** The low `i` octets of `n` have been written. */
  ghost predicate WroteLE(n: nat, i: nat, before: Bytes, after: Bytes) {
    forall k :: after + k == before + PutLE(n, i, k)
  }

  lemma NoOctets(n: nat, before: Bytes)
    ensures WroteLE(n, 0, before, before)
  {
  }

  lemma OneMoreOctet(n: nat, i: nat, start: Bytes, before: Bytes, after: Bytes)
    requires WroteLE(n, i, start, before) && WroteByte(OctetAt(n, i), before, after)
    ensures WroteLE(n, i + 1, start, after)
  {
    hide PutLE, OctetAt, PutByte;
    var octet := OctetAt(n, i);
    forall k ensures after + k == start + PutLE(n, i + 1, k) {
      LESnoc(n, i, k);
      assert before + PutByte(octet, k) == start + PutLE(n, i, PutByte(octet, k));
    }
  }

  lemma {:induction false} ZerosSnoc(n: nat, k: Bytes)
    ensures PutZeros(n + 1, k) == PutZeros(n, PutByte(0 as char, k))
  {
    if n > 0 { ZerosSnoc(n - 1, k); }
  }

  lemma OneMoreZero(i: nat, start: Bytes, before: Bytes, after: Bytes)
    requires WroteZeros(i, start, before) && WroteByte(0 as char, before, after)
    ensures WroteZeros(i + 1, start, after)
  {
    hide PutZeros, PutByte;
    forall k ensures after + k == start + PutZeros(i + 1, k) {
      ZerosSnoc(i, k);
      assert before + PutByte(0 as char, k) == start + PutZeros(i, PutByte(0 as char, k));
    }
  }

  lemma StringWritten(v: Bytes, s0: Bytes, s1: Bytes, s2: Bytes, s3: Bytes)
    requires WroteU32(|v|, s0, s1) && WroteBlock(v, s1, s2) && WroteZeros(Padding(|v|), s2, s3)
    ensures WroteString(v, s0, s3)
  {
    hide PutU32, PutZeros;
    forall k ensures s3 + k == s0 + PutString(v, k) {
      var zeros := PutZeros(Padding(|v|), k);
      assert s2 + zeros == s1 + PutBlock(v, zeros);
      assert s1 + (v + zeros) == s0 + PutU32(|v|, v + zeros);
    }
  }

  // ---------------------------------------------------------------- nodes, part after part

  function ExpressionKind(v: Expression): byte {
    match v
    case StringLiteral(_) => 1 as char
    case NumberLiteral(_) => 2 as char
    case Identifier(_) => 3 as char
  }

  lemma ExpressionWritten(v: Expression, s0: Bytes, s1: Bytes, s2: Bytes)
    requires WroteByte(ExpressionKind(v), s0, s1)
    requires v.StringLiteral? ==> WroteString(v.value, s1, s2)
    requires v.NumberLiteral? ==> WroteU64(v.number, s1, s2)
    requires v.Identifier? ==> WroteString(v.name, s1, s2)
    ensures Wrote(PutExpression, v, s0, s2)
  {
    hide PutString, PutU64;
    forall k ensures s2 + k == s0 + PutExpression(v, k) {
      var k1 := match v
        case StringLiteral(value) => PutString(value, k)
        case NumberLiteral(number) => PutU64(number, k)
        case Identifier(name) => PutString(name, k);
      assert s2 + k == s1 + k1;
      assert s1 + k1 == s0 + PutByte(ExpressionKind(v), k1);
    }
  }

  lemma TypeWritten(v: Type, s0: Bytes, s1: Bytes, s2: Bytes, s3: Bytes)
    requires WroteByte((if v.isConst then 1 else 0) as char, s0, s1)
    requires WroteByte((match v { case Named(_, _) => 1 case Ptr(_, _) => 2 case Array(_, _) => 3 }) as char, s1, s2)
    requires v.Named? ==> WroteString(v.name, s2, s3)
    requires !v.Named? ==> Wrote(PutType, v.inner, s2, s3)
    ensures Wrote(PutType, v, s0, s3)
  {
    hide PutString;
    forall k ensures s3 + k == s0 + PutType(v, k) {
      var k2 := if v.Named? then PutString(v.name, k) else PutType(v.inner, k);
      assert s3 + k == s2 + k2;
      var kind := (match v { case Named(_, _) => 1 case Ptr(_, _) => 2 case Array(_, _) => 3 }) as char;
      var k1 := PutByte(kind, k2);
      assert s2 + k2 == s1 + k1;
      var flag := (if v.isConst then 1 else 0) as char;
      assert s1 + k1 == s0 + PutByte(flag, k1);
    }
  }

  lemma AnnotationWritten(v: Annotation, s0: Bytes, s1: Bytes, s2: Bytes)
    requires WroteString(v.name, s0, s1)
    requires WroteList(PutExpression, v.args, s1, s2)
    ensures Wrote(PutAnnotation, v, s0, s2)
  {
    hide PutString, PutList;
    forall k ensures s2 + k == s0 + PutAnnotation(v, k) {
      var k1 := PutList(PutExpression, v.args, k);
      assert s2 + k == s1 + k1;
      var k0 := PutString(v.name, k1);
      assert s1 + k1 == s0 + k0;
    }
  }

  lemma ParameterWritten(v: Parameter, s0: Bytes, s1: Bytes, s2: Bytes, s3: Bytes, s4: Bytes)
    requires WroteByte(DirectionCode(v.direction) as char, s0, s1)
    requires Wrote(PutAnnotations, v.annotations, s1, s2)
    requires Wrote(PutType, v.ty, s2, s3)
    requires WroteString(v.name, s3, s4)
    ensures Wrote(PutParameter, v, s0, s4)
  {
    hide PutAnnotations, PutType, PutString;
    forall k ensures s4 + k == s0 + PutParameter(v, k) {
      var k3 := PutString(v.name, k);
      assert s4 + k == s3 + k3;
      var k2 := PutType(v.ty, k3);
      assert s3 + k3 == s2 + k2;
      var k1 := PutAnnotations(v.annotations, k2);
      assert s2 + k2 == s1 + k1;
      var k0 := PutByte(DirectionCode(v.direction) as char, k1);
      assert s1 + k1 == s0 + k0;
    }
  }

  lemma FunctionWritten(v: Function, s0: Bytes, s1: Bytes, s2: Bytes, s3: Bytes, s4: Bytes)
    requires WroteU32(v.id, s0, s1)
    requires WroteString(v.name, s1, s2)
    requires Wrote(PutAnnotations, v.annotations, s2, s3)
    requires WroteList(PutParameter, v.parameters, s3, s4)
    ensures Wrote(PutFunction, v, s0, s4)
  {
    hide PutU32, PutString, PutAnnotations, PutList;
    forall k ensures s4 + k == s0 + PutFunction(v, k) {
      var k3 := PutList(PutParameter, v.parameters, k);
      assert s4 + k == s3 + k3;
      var k2 := PutAnnotations(v.annotations, k3);
      assert s3 + k3 == s2 + k2;
      var k1 := PutString(v.name, k2);
      assert s2 + k2 == s1 + k1;
      var k0 := PutU32(v.id, k1);
      assert s1 + k1 == s0 + k0;
    }
  }

  lemma StructFieldWritten(v: StructField, s0: Bytes, s1: Bytes, s2: Bytes)
    requires Wrote(PutType, v.ty, s0, s1)
    requires WroteString(v.name, s1, s2)
    ensures Wrote(PutStructField, v, s0, s2)
  {
    hide PutType, PutString;
    forall k ensures s2 + k == s0 + PutStructField(v, k) {
      var k1 := PutString(v.name, k);
      assert s2 + k == s1 + k1;
      var k0 := PutType(v.ty, k1);
      assert s1 + k1 == s0 + k0;
    }
  }

  lemma StructWritten(v: Struct, s0: Bytes, s1: Bytes, s2: Bytes, s3: Bytes)
    requires WroteString(v.name, s0, s1)
    requires Wrote(PutAnnotations, v.annotations, s1, s2)
    requires WroteList(PutStructField, v.fields, s2, s3)
    ensures Wrote(PutStruct, v, s0, s3)
  {
    hide PutString, PutAnnotations, PutList;
    forall k ensures s3 + k == s0 + PutStruct(v, k) {
      var k2 := PutList(PutStructField, v.fields, k);
      assert s3 + k == s2 + k2;
      var k1 := PutAnnotations(v.annotations, k2);
      assert s2 + k2 == s1 + k1;
      var k0 := PutString(v.name, k1);
      assert s1 + k1 == s0 + k0;
    }
  }

  lemma BitfieldFieldWritten(v: BitfieldField, s0: Bytes, s1: Bytes, s2: Bytes)
    requires WroteString(v.name, s0, s1)
    requires WroteU64(v.bits, s1, s2)
    ensures Wrote(PutBitfieldField, v, s0, s2)
  {
    hide PutString, PutU64;
    forall k ensures s2 + k == s0 + PutBitfieldField(v, k) {
      var k1 := PutU64(v.bits, k);
      assert s2 + k == s1 + k1;
      var k0 := PutString(v.name, k1);
      assert s1 + k1 == s0 + k0;
    }
  }

  lemma BitfieldWritten(v: Bitfield, s0: Bytes, s1: Bytes, s2: Bytes, s3: Bytes, s4: Bytes)
    requires WroteString(v.name, s0, s1)
    requires Wrote(PutAnnotations, v.annotations, s1, s2)
    requires Wrote(PutType, v.baseType, s2, s3)
    requires WroteList(PutBitfieldField, v.fields, s3, s4)
    ensures Wrote(PutBitfield, v, s0, s4)
  {
    hide PutString, PutAnnotations, PutType, PutList;
    forall k ensures s4 + k == s0 + PutBitfield(v, k) {
      var k3 := PutList(PutBitfieldField, v.fields, k);
      assert s4 + k == s3 + k3;
      var k2 := PutType(v.baseType, k3);
      assert s3 + k3 == s2 + k2;
      var k1 := PutAnnotations(v.annotations, k2);
      assert s2 + k2 == s1 + k1;
      var k0 := PutString(v.name, k1);
      assert s1 + k1 == s0 + k0;
    }
  }

  lemma EnumMemberWritten(v: EnumMember, s0: Bytes, s1: Bytes, s2: Bytes, s3: Bytes)
    requires WroteString(v.name, s0, s1)
    requires WroteU64(v.value, s1, s2)
    requires Wrote(PutAnnotations, v.annotations, s2, s3)
    ensures Wrote(PutEnumMember, v, s0, s3)
  {
    hide PutString, PutU64, PutAnnotations;
    forall k ensures s3 + k == s0 + PutEnumMember(v, k) {
      var k2 := PutAnnotations(v.annotations, k);
      assert s3 + k == s2 + k2;
      var k1 := PutU64(v.value, k2);
      assert s2 + k2 == s1 + k1;
      var k0 := PutString(v.name, k1);
      assert s1 + k1 == s0 + k0;
    }
  }

  lemma EnumWritten(v: Enum, s0: Bytes, s1: Bytes, s2: Bytes, s3: Bytes, s4: Bytes)
    requires WroteString(v.name, s0, s1)
    requires Wrote(PutAnnotations, v.annotations, s1, s2)
    requires Wrote(PutType, v.baseType, s2, s3)
    requires WroteList(PutEnumMember, v.members, s3, s4)
    ensures Wrote(PutEnum, v, s0, s4)
  {
    hide PutString, PutAnnotations, PutType, PutList;
    forall k ensures s4 + k == s0 + PutEnum(v, k) {
      var k3 := PutList(PutEnumMember, v.members, k);
      assert s4 + k == s3 + k3;
      var k2 := PutType(v.baseType, k3);
      assert s3 + k3 == s2 + k2;
      var k1 := PutAnnotations(v.annotations, k2);
      assert s2 + k2 == s1 + k1;
      var k0 := PutString(v.name, k1);
      assert s1 + k1 == s0 + k0;
    }
  }

  lemma BodyWritten(v: Revision, s0: Bytes, s1: Bytes, s2: Bytes, s3: Bytes, s4: Bytes, s5: Bytes)
    requires Wrote(PutAnnotations, v.annotations, s0, s1)
    requires WroteList(PutBitfield, v.bitfields, s1, s2)
    requires WroteList(PutEnum, v.enums, s2, s3)
    requires WroteList(PutStruct, v.structs, s3, s4)
    requires WroteList(PutFunction, v.functions, s4, s5)
    ensures Wrote(PutBody, v, s0, s5)
  {
    hide PutAnnotations, PutList;
    forall k ensures s5 + k == s0 + PutBody(v, k) {
      var k4 := PutList(PutFunction, v.functions, k);
      assert s5 + k == s4 + k4;
      var k3 := PutList(PutStruct, v.structs, k4);
      assert s4 + k4 == s3 + k3;
      var k2 := PutList(PutEnum, v.enums, k3);
      assert s3 + k3 == s2 + k2;
      var k1 := PutList(PutBitfield, v.bitfields, k2);
      assert s2 + k2 == s1 + k1;
      assert s1 + k1 == s0 + PutAnnotations(v.annotations, k1);
    }
  }

  ghost predicate WroteTree(v: Revision, previous: Digest, before: Bytes, after: Bytes) {
    forall k :: after + k == before + PutTree(v, previous, k)
  }

  lemma TreeWritten(v: Revision, previous: Digest, s0: Bytes, s1: Bytes, s2: Bytes, s3: Bytes)
    requires WroteU64(v.version, s0, s1) && WroteBlock(previous, s1, s2) && Wrote(PutBody, v, s2, s3)
    ensures WroteTree(v, previous, s0, s3)
  {
    hide PutU64, PutBody;
    forall k ensures s3 + k == s0 + PutTree(v, previous, k) {
      var k2 := PutBody(v, k);
      assert s3 + k == s2 + k2;
      var k1 := PutBlock(previous, k2);
      assert s2 + k2 == s1 + k1;
      assert s1 + k1 == s0 + PutU64(v.version, k1);
    }
  }

  // ---------------------------------------------------------------- the writer object

  /** The sink is a byte vector or a file, which collect octets in `sunk`, or a hash object. */
  class BinaryWriter {
    const hasher: Sha256.Hasher?
    var sunk: Bytes
    ghost var out: Bytes          // everything written
    ghost const repr: set<object>

    ghost predicate Valid()
      reads this, repr
    {
      && this in repr
      && (hasher == null ==> sunk == out)
      && (hasher != null ==>
            && hasher in repr && hasher.state in repr && hasher.buffer in repr
            && hasher.Valid() && hasher.message == out)
    }

    constructor ToBytes()
      ensures Valid() && hasher == null && out == [] && fresh(repr)
    {
      hasher, sunk, out, repr := null, [], [], {this};
    }

    constructor ToHash(target: Sha256.Hasher)
      requires target.Valid()
      ensures Valid() && hasher == target && out == target.message
      ensures repr == {this, target, target.state, target.buffer}
    {
      hasher, sunk, out, repr := target, [], target.message, {this, target, target.state, target.buffer};
    }

    method WriteU8(value: byte)
      requires Valid()
      modifies repr
      ensures Valid()
      ensures out == old(out) + [value] && WroteByte(value, old(out), out)
    {
      hide WroteByte;
      ByteWritten(value, out);
      WriteBytes([value]);
    }

    method WriteBytes(data: Bytes)
      requires Valid()
      modifies repr
      ensures Valid()
      ensures out == old(out) + data && WroteBlock(data, old(out), out)
    {
      hide WroteBlock;
      BlockWritten(data, out);
      if hasher == null {
        sunk := sunk + data;
      } else {
        hasher.Update(data);
      }
      out := out + data;
    }

    /** The octets `value >> (i * 8)`, one after the other. */
    method WriteLE(value: nat, w: nat)
      requires Valid()
      modifies repr
      ensures Valid()
      ensures WroteLE(value, w, old(out), out)
    {
      hide OctetAt, WroteLE, WroteByte;
      ghost var start := out;
      NoOctets(value, start);
      for i := 0 to w
        invariant Valid()
        invariant WroteLE(value, i, start, out)
      {
        ghost var before := out;
        WriteU8(OctetAt(value, i));
        OneMoreOctet(value, i, start, before, out);
      }
    }

    method WriteU32(value: u32)
      requires Valid()
      modifies repr
      ensures Valid()
      ensures WroteU32(value, old(out), out)
    {
      WriteLE(value, 4);
    }

    method WriteU64(value: u64)
      requires Valid()
      modifies repr
      ensures Valid()
      ensures WroteU64(value, old(out), out)
    {
      WriteLE(value, 8);
    }

    method WriteString(value: Bytes) returns (ok: bool)
      requires Valid()
      modifies repr
      ensures Valid()
      ensures ok == FitsCount(|value|)
      ensures ok ==> WroteString(value, old(out), out)
    {
      ok := |value| < TWO32;
      if !ok { return; }
      ghost var s0 := out;
      WriteU32(|value|);
      ghost var s1 := out;
      WriteBytes(value);
      ghost var s2 := out;
      assert WroteZeros(0, s2, s2);
      hide WroteByte, WroteU32, WroteBlock, WroteZeros, WroteString;
      var padding := (4 - |value| % 4) % 4;
      for i := 0 to padding
        invariant Valid()
        invariant WroteZeros(i, s2, out)
      {
        ghost var before := out;
        WriteU8(0 as char);
        OneMoreZero(i, s2, before, out);
      }
      StringWritten(value, s0, s1, s2, out);
    }

    method WriteCount(n: nat) returns (ok: bool)
      requires Valid()
      modifies repr
      ensures Valid()
      ensures ok == FitsCount(n)
      ensures ok ==> WroteU32(n, old(out), out)
    {
      ok := n < TWO32;
      if ok { WriteU32(n); }
    }

    // -------------------------------------------------------------- nodes

    method WriteExpression(v: Expression) returns (ok: bool)
      requires Valid()
      modifies repr
      ensures Valid()
      ensures ok == FitsExpression(v)
      ensures ok ==> Wrote(PutExpression, v, old(out), out)
    {
      hide WroteString, WroteU64, WroteByte, Wrote;
      ghost var s0 := out;
      match v {
        case StringLiteral(value) =>
          WriteU8(1 as char);
          ghost var s1 := out;
          ok := WriteString(value);
          if ok { ExpressionWritten(v, s0, s1, out); }
        case NumberLiteral(number) =>
          WriteU8(2 as char);
          ghost var s1 := out;
          WriteU64(number);
          ok := true;
          ExpressionWritten(v, s0, s1, out);
        case Identifier(name) =>
          WriteU8(3 as char);
          ghost var s1 := out;
          ok := WriteString(name);
          if ok { ExpressionWritten(v, s0, s1, out); }
      }
    }

    method WriteType(v: Type) returns (ok: bool)
      requires Valid()
      modifies repr
      ensures Valid()
      decreases v
      ensures ok == FitsType(v)
      ensures ok ==> Wrote(PutType, v, old(out), out)
    {
      hide WroteString, WroteByte, Wrote;
      ghost var s0 := out;
      WriteU8((if v.isConst then 1 else 0) as char);
      ghost var s1 := out;
      WriteU8((match v { case Named(_, _) => 1 case Ptr(_, _) => 2 case Array(_, _) => 3 }) as char);
      ghost var s2 := out;
      match v {
        case Named(_, name) => ok := WriteString(name);
        case Ptr(_, inner) => ok := WriteType(inner);
        case Array(_, inner) => ok := WriteType(inner);
      }
      if ok { TypeWritten(v, s0, s1, s2, out); }
    }

    method WriteExpressions(vs: seq<Expression>) returns (ok: bool)
      requires Valid()
      modifies repr
      ensures Valid()
      ensures ok == (FitsCount(|vs|) && forall v <- vs :: FitsExpression(v))
      ensures ok ==> WroteList(PutExpression, vs, old(out), out)
    {
      hide Wrote, WroteU32, WroteMany, WroteList, FitsCount, FitsExpression;
      ghost var start := out;
      ok := WriteCount(|vs|);
      if !ok { return; }
      ghost var counted := out;
      NothingWritten(PutExpression, vs, counted);
      for i := 0 to |vs|
        invariant Valid()
        invariant ok && forall j :: 0 <= j < i ==> FitsExpression(vs[j])
        invariant WroteMany(PutExpression, vs[..i], counted, out)
      {
        ghost var before := out;
        ok := WriteExpression(vs[i]);
        if !ok { return; }
        OneMoreWritten(PutExpression, vs, i, counted, before, out);
      }
      ListWritten(PutExpression, vs, start, counted, out);
    }

    method WriteAnnotation(v: Annotation) returns (ok: bool)
      requires Valid()
      modifies repr
      ensures Valid()
      ensures ok == FitsAnnotation(v)
      ensures ok ==> Wrote(PutAnnotation, v, old(out), out)
    {
      hide Wrote, WroteByte, WroteU32, WroteU64, WroteString, WroteList, FitsExpression;
      ghost var s0 := out;
      ok := WriteString(v.name);
      if !ok { return; }
      ghost var s1 := out;
      ok := WriteExpressions(v.args);
      if !ok { return; }
      ghost var s2 := out;
      AnnotationWritten(v, s0, s1, s2);
    }

    method WriteAnnotations(vs: seq<Annotation>) returns (ok: bool)
      requires Valid()
      modifies repr
      ensures Valid()
      ensures ok == FitsAnnotations(vs)
      ensures ok ==> Wrote(PutAnnotations, vs, old(out), out)
    {
      hide PutList, FitsAnnotation;
      ok := WriteAnnotationList(vs);
    }

    method WriteAnnotationList(vs: seq<Annotation>) returns (ok: bool)
      requires Valid()
      modifies repr
      ensures Valid()
      ensures ok == (FitsCount(|vs|) && forall v <- vs :: FitsAnnotation(v))
      ensures ok ==> WroteList(PutAnnotation, vs, old(out), out)
    {
      hide Wrote, WroteU32, WroteMany, WroteList, FitsCount, FitsAnnotation;
      ghost var start := out;
      ok := WriteCount(|vs|);
      if !ok { return; }
      ghost var counted := out;
      NothingWritten(PutAnnotation, vs, counted);
      for i := 0 to |vs|
        invariant Valid()
        invariant ok && forall j :: 0 <= j < i ==> FitsAnnotation(vs[j])
        invariant WroteMany(PutAnnotation, vs[..i], counted, out)
      {
        ghost var before := out;
        ok := WriteAnnotation(vs[i]);
        if !ok { return; }
        OneMoreWritten(PutAnnotation, vs, i, counted, before, out);
      }
      ListWritten(PutAnnotation, vs, start, counted, out);
    }

    method WriteParameter(v: Parameter) returns (ok: bool)
      requires Valid()
      modifies repr
      ensures Valid()
      ensures ok == FitsParameter(v)
      ensures ok ==> Wrote(PutParameter, v, old(out), out)
    {
      hide Wrote, WroteByte, WroteU32, WroteU64, WroteString, WroteList, FitsAnnotations, FitsType;
      ghost var s0 := out;
      WriteU8(DirectionCode(v.direction) as char);
      ghost var s1 := out;
      ok := WriteAnnotations(v.annotations);
      if !ok { return; }
      ghost var s2 := out;
      ok := WriteType(v.ty);
      if !ok { return; }
      ghost var s3 := out;
      ok := WriteString(v.name);
      if !ok { return; }
      ghost var s4 := out;
      ParameterWritten(v, s0, s1, s2, s3, s4);
    }

    method WriteParameters(vs: seq<Parameter>) returns (ok: bool)
      requires Valid()
      modifies repr
      ensures Valid()
      ensures ok == (FitsCount(|vs|) && forall v <- vs :: FitsParameter(v))
      ensures ok ==> WroteList(PutParameter, vs, old(out), out)
    {
      hide Wrote, WroteU32, WroteMany, WroteList, FitsCount, FitsParameter;
      ghost var start := out;
      ok := WriteCount(|vs|);
      if !ok { return; }
      ghost var counted := out;
      NothingWritten(PutParameter, vs, counted);
      for i := 0 to |vs|
        invariant Valid()
        invariant ok && forall j :: 0 <= j < i ==> FitsParameter(vs[j])
        invariant WroteMany(PutParameter, vs[..i], counted, out)
      {
        ghost var before := out;
        ok := WriteParameter(vs[i]);
        if !ok { return; }
        OneMoreWritten(PutParameter, vs, i, counted, before, out);
      }
      ListWritten(PutParameter, vs, start, counted, out);
    }

    method WriteFunction(v: Function) returns (ok: bool)
      requires Valid()
      modifies repr
      ensures Valid()
      ensures ok == FitsFunction(v)
      ensures ok ==> Wrote(PutFunction, v, old(out), out)
    {
      hide Wrote, WroteByte, WroteU32, WroteU64, WroteString, WroteList, FitsAnnotations, FitsParameter;
      ghost var s0 := out;
      WriteU32(v.id);
      ghost var s1 := out;
      ok := WriteString(v.name);
      if !ok { return; }
      ghost var s2 := out;
      ok := WriteAnnotations(v.annotations);
      if !ok { return; }
      ghost var s3 := out;
      ok := WriteParameters(v.parameters);
      if !ok { return; }
      ghost var s4 := out;
      FunctionWritten(v, s0, s1, s2, s3, s4);
    }

    method WriteStructField(v: StructField) returns (ok: bool)
      requires Valid()
      modifies repr
      ensures Valid()
      ensures ok == FitsStructField(v)
      ensures ok ==> Wrote(PutStructField, v, old(out), out)
    {
      hide Wrote, WroteByte, WroteU32, WroteU64, WroteString, WroteList, FitsAnnotations, FitsType;
      ghost var s0 := out;
      ok := WriteType(v.ty);
      if !ok { return; }
      ghost var s1 := out;
      ok := WriteString(v.name);
      if !ok { return; }
      ghost var s2 := out;
      StructFieldWritten(v, s0, s1, s2);
    }

    method WriteStructFields(vs: seq<StructField>) returns (ok: bool)
      requires Valid()
      modifies repr
      ensures Valid()
      ensures ok == (FitsCount(|vs|) && forall v <- vs :: FitsStructField(v))
      ensures ok ==> WroteList(PutStructField, vs, old(out), out)
    {
      hide Wrote, WroteU32, WroteMany, WroteList, FitsCount, FitsStructField;
      ghost var start := out;
      ok := WriteCount(|vs|);
      if !ok { return; }
      ghost var counted := out;
      NothingWritten(PutStructField, vs, counted);
      for i := 0 to |vs|
        invariant Valid()
        invariant ok && forall j :: 0 <= j < i ==> FitsStructField(vs[j])
        invariant WroteMany(PutStructField, vs[..i], counted, out)
      {
        ghost var before := out;
        ok := WriteStructField(vs[i]);
        if !ok { return; }
        OneMoreWritten(PutStructField, vs, i, counted, before, out);
      }
      ListWritten(PutStructField, vs, start, counted, out);
    }

    method WriteStruct(v: Struct) returns (ok: bool)
      requires Valid()
      modifies repr
      ensures Valid()
      ensures ok == FitsStruct(v)
      ensures ok ==> Wrote(PutStruct, v, old(out), out)
    {
      hide Wrote, WroteByte, WroteU32, WroteU64, WroteString, WroteList, FitsAnnotations, FitsStructField;
      ghost var s0 := out;
      ok := WriteString(v.name);
      if !ok { return; }
      ghost var s1 := out;
      ok := WriteAnnotations(v.annotations);
      if !ok { return; }
      ghost var s2 := out;
      ok := WriteStructFields(v.fields);
      if !ok { return; }
      ghost var s3 := out;
      StructWritten(v, s0, s1, s2, s3);
    }

    method WriteBitfieldField(v: BitfieldField) returns (ok: bool)
      requires Valid()
      modifies repr
      ensures Valid()
      ensures ok == FitsBitfieldField(v)
      ensures ok ==> Wrote(PutBitfieldField, v, old(out), out)
    {
      hide Wrote, WroteByte, WroteU32, WroteU64, WroteString, WroteList, FitsAnnotations;
      ghost var s0 := out;
      ok := WriteString(v.name);
      if !ok { return; }
      ghost var s1 := out;
      WriteU64(v.bits);
      ghost var s2 := out;
      BitfieldFieldWritten(v, s0, s1, s2);
    }

    method WriteBitfieldFields(vs: seq<BitfieldField>) returns (ok: bool)
      requires Valid()
      modifies repr
      ensures Valid()
      ensures ok == (FitsCount(|vs|) && forall v <- vs :: FitsBitfieldField(v))
      ensures ok ==> WroteList(PutBitfieldField, vs, old(out), out)
    {
      hide Wrote, WroteU32, WroteMany, WroteList, FitsCount, FitsBitfieldField;
      ghost var start := out;
      ok := WriteCount(|vs|);
      if !ok { return; }
      ghost var counted := out;
      NothingWritten(PutBitfieldField, vs, counted);
      for i := 0 to |vs|
        invariant Valid()
        invariant ok && forall j :: 0 <= j < i ==> FitsBitfieldField(vs[j])
        invariant WroteMany(PutBitfieldField, vs[..i], counted, out)
      {
        ghost var before := out;
        ok := WriteBitfieldField(vs[i]);
        if !ok { return; }
        OneMoreWritten(PutBitfieldField, vs, i, counted, before, out);
      }
      ListWritten(PutBitfieldField, vs, start, counted, out);
    }

    method WriteBitfield(v: Bitfield) returns (ok: bool)
      requires Valid()
      modifies repr
      ensures Valid()
      ensures ok == FitsBitfield(v)
      ensures ok ==> Wrote(PutBitfield, v, old(out), out)
    {
      hide Wrote, WroteByte, WroteU32, WroteU64, WroteString, WroteList, FitsAnnotations, FitsType, FitsBitfieldField;
      ghost var s0 := out;
      ok := WriteString(v.name);
      if !ok { return; }
      ghost var s1 := out;
      ok := WriteAnnotations(v.annotations);
      if !ok { return; }
      ghost var s2 := out;
      ok := WriteType(v.baseType);
      if !ok { return; }
      ghost var s3 := out;
      ok := WriteBitfieldFields(v.fields);
      if !ok { return; }
      ghost var s4 := out;
      BitfieldWritten(v, s0, s1, s2, s3, s4);
    }

    method WriteEnumMember(v: EnumMember) returns (ok: bool)
      requires Valid()
      modifies repr
      ensures Valid()
      ensures ok == FitsEnumMember(v)
      ensures ok ==> Wrote(PutEnumMember, v, old(out), out)
    {
      hide Wrote, WroteByte, WroteU32, WroteU64, WroteString, WroteList, FitsAnnotations;
      ghost var s0 := out;
      ok := WriteString(v.name);
      if !ok { return; }
      ghost var s1 := out;
      WriteU64(v.value);
      ghost var s2 := out;
      ok := WriteAnnotations(v.annotations);
      if !ok { return; }
      ghost var s3 := out;
      EnumMemberWritten(v, s0, s1, s2, s3);
    }

    method WriteEnumMembers(vs: seq<EnumMember>) returns (ok: bool)
      requires Valid()
      modifies repr
      ensures Valid()
      ensures ok == (FitsCount(|vs|) && forall v <- vs :: FitsEnumMember(v))
      ensures ok ==> WroteList(PutEnumMember, vs, old(out), out)
    {
      hide Wrote, WroteU32, WroteMany, WroteList, FitsCount, FitsEnumMember;
      ghost var start := out;
      ok := WriteCount(|vs|);
      if !ok { return; }
      ghost var counted := out;
      NothingWritten(PutEnumMember, vs, counted);
      for i := 0 to |vs|
        invariant Valid()
        invariant ok && forall j :: 0 <= j < i ==> FitsEnumMember(vs[j])
        invariant WroteMany(PutEnumMember, vs[..i], counted, out)
      {
        ghost var before := out;
        ok := WriteEnumMember(vs[i]);
        if !ok { return; }
        OneMoreWritten(PutEnumMember, vs, i, counted, before, out);
      }
      ListWritten(PutEnumMember, vs, start, counted, out);
    }

    method WriteEnum(v: Enum) returns (ok: bool)
      requires Valid()
      modifies repr
      ensures Valid()
      ensures ok == FitsEnum(v)
      ensures ok ==> Wrote(PutEnum, v, old(out), out)
    {
      hide Wrote, WroteByte, WroteU32, WroteU64, WroteString, WroteList, FitsAnnotations, FitsType, FitsEnumMember;
      ghost var s0 := out;
      ok := WriteString(v.name);
      if !ok { return; }
      ghost var s1 := out;
      ok := WriteAnnotations(v.annotations);
      if !ok { return; }
      ghost var s2 := out;
      ok := WriteType(v.baseType);
      if !ok { return; }
      ghost var s3 := out;
      ok := WriteEnumMembers(v.members);
      if !ok { return; }
      ghost var s4 := out;
      EnumWritten(v, s0, s1, s2, s3, s4);
    }

    method WriteBitfields(vs: seq<Bitfield>) returns (ok: bool)
      requires Valid()
      modifies repr
      ensures Valid()
      ensures ok == (FitsCount(|vs|) && forall v <- vs :: FitsBitfield(v))
      ensures ok ==> WroteList(PutBitfield, vs, old(out), out)
    {
      hide Wrote, WroteU32, WroteMany, WroteList, FitsCount, FitsBitfield;
      ghost var start := out;
      ok := WriteCount(|vs|);
      if !ok { return; }
      ghost var counted := out;
      NothingWritten(PutBitfield, vs, counted);
      for i := 0 to |vs|
        invariant Valid()
        invariant ok && forall j :: 0 <= j < i ==> FitsBitfield(vs[j])
        invariant WroteMany(PutBitfield, vs[..i], counted, out)
      {
        ghost var before := out;
        ok := WriteBitfield(vs[i]);
        if !ok { return; }
        OneMoreWritten(PutBitfield, vs, i, counted, before, out);
      }
      ListWritten(PutBitfield, vs, start, counted, out);
    }

    method WriteEnums(vs: seq<Enum>) returns (ok: bool)
      requires Valid()
      modifies repr
      ensures Valid()
      ensures ok == (FitsCount(|vs|) && forall v <- vs :: FitsEnum(v))
      ensures ok ==> WroteList(PutEnum, vs, old(out), out)
    {
      hide Wrote, WroteU32, WroteMany, WroteList, FitsCount, FitsEnum;
      ghost var start := out;
      ok := WriteCount(|vs|);
      if !ok { return; }
      ghost var counted := out;
      NothingWritten(PutEnum, vs, counted);
      for i := 0 to |vs|
        invariant Valid()
        invariant ok && forall j :: 0 <= j < i ==> FitsEnum(vs[j])
        invariant WroteMany(PutEnum, vs[..i], counted, out)
      {
        ghost var before := out;
        ok := WriteEnum(vs[i]);
        if !ok { return; }
        OneMoreWritten(PutEnum, vs, i, counted, before, out);
      }
      ListWritten(PutEnum, vs, start, counted, out);
    }

    method WriteStructs(vs: seq<Struct>) returns (ok: bool)
      requires Valid()
      modifies repr
      ensures Valid()
      ensures ok == (FitsCount(|vs|) && forall v <- vs :: FitsStruct(v))
      ensures ok ==> WroteList(PutStruct, vs, old(out), out)
    {
      hide Wrote, WroteU32, WroteMany, WroteList, FitsCount, FitsStruct;
      ghost var start := out;
      ok := WriteCount(|vs|);
      if !ok { return; }
      ghost var counted := out;
      NothingWritten(PutStruct, vs, counted);
      for i := 0 to |vs|
        invariant Valid()
        invariant ok && forall j :: 0 <= j < i ==> FitsStruct(vs[j])
        invariant WroteMany(PutStruct, vs[..i], counted, out)
      {
        ghost var before := out;
        ok := WriteStruct(vs[i]);
        if !ok { return; }
        OneMoreWritten(PutStruct, vs, i, counted, before, out);
      }
      ListWritten(PutStruct, vs, start, counted, out);
    }

    method WriteFunctions(vs: seq<Function>) returns (ok: bool)
      requires Valid()
      modifies repr
      ensures Valid()
      ensures ok == (FitsCount(|vs|) && forall v <- vs :: FitsFunction(v))
      ensures ok ==> WroteList(PutFunction, vs, old(out), out)
    {
      hide Wrote, WroteU32, WroteMany, WroteList, FitsCount, FitsFunction;
      ghost var start := out;
      ok := WriteCount(|vs|);
      if !ok { return; }
      ghost var counted := out;
      NothingWritten(PutFunction, vs, counted);
      for i := 0 to |vs|
        invariant Valid()
        invariant ok && forall j :: 0 <= j < i ==> FitsFunction(vs[j])
        invariant WroteMany(PutFunction, vs[..i], counted, out)
      {
        ghost var before := out;
        ok := WriteFunction(vs[i]);
        if !ok { return; }
        OneMoreWritten(PutFunction, vs, i, counted, before, out);
      }
      ListWritten(PutFunction, vs, start, counted, out);
    }

    method WriteRevisionTree(v: Revision, previous: Digest) returns (ok: bool)
      requires Valid()
      modifies repr
      ensures Valid()
      ensures ok == FitsRevision(v)
      ensures ok ==> WroteTree(v, previous, old(out), out)
    {
      hide Wrote, WroteU64, WroteBlock, WroteList, WroteTree, FitsAnnotations, FitsBitfield, FitsEnum,
           FitsStruct, FitsFunction;
      ghost var s0 := out;
      WriteU64(v.version);
      ghost var s1 := out;
      WriteBytes(previous);
      ghost var s2 := out;
      ok := WriteAnnotations(v.annotations);
      if !ok { return; }
      ghost var s3 := out;
      ok := WriteBitfields(v.bitfields);
      if !ok { return; }
      ghost var s4 := out;
      ok := WriteEnums(v.enums);
      if !ok { return; }
      ghost var s5 := out;
      ok := WriteStructs(v.structs);
      if !ok { return; }
      ghost var s6 := out;
      ok := WriteFunctions(v.functions);
      if !ok { return; }
      BodyWritten(v, s2, s3, s4, s5, s6, out);
      TreeWritten(v, previous, s0, s1, s2, out);
    }
  }
}
