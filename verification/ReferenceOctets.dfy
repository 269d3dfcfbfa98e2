/** The octets of every node kind written out in one piece, with all their tags (lang/sif.cc:187-764):
    a second definition of the format, and the proof that the writer follows it. */
module ReferenceOctets {
  import opened Octets
  import opened Ast
  import opened SifFormat
  import opened SifArtifact

  // ---------------------------------------------------------------- numbers, strings, lists

  /** Octet `j` of a number, counted from the least significant. */
  function OctetAt(n: nat, j: nat): byte
    requires j < 8
  {
    var unit := match j
      case 0 => 1 case 1 => 0x100 case 2 => 0x1_0000 case 3 => 0x100_0000 case 4 => 0x1_0000_0000
      case 5 => 0x100_0000_0000 case 6 => 0x1_0000_0000_0000 case _ => 0x100_0000_0000_0000;
    (n / unit % 0x100) as char
  }

  function Four(n: nat): Bytes { [OctetAt(n, 0), OctetAt(n, 1), OctetAt(n, 2), OctetAt(n, 3)] }

  function Eight(n: nat): Bytes { Four(n) + [OctetAt(n, 4), OctetAt(n, 5), OctetAt(n, 6), OctetAt(n, 7)] }

  /** Zeros up to a multiple of four. */
  function Filling(n: nat): Bytes {
    var z := 0 as char;
    match n % 4
    case 0 => []
    case 1 => [z, z, z]
    case 2 => [z, z]
    case _ => [z]
  }

  function Str(v: Bytes): Bytes { Four(|v|) + v + Filling(|v|) }

  function Joined<T>(f: T -> Bytes, vs: seq<T>): Bytes { if vs == [] then [] else f(vs[0]) + Joined(f, vs[1..]) }

  function Counted<T>(f: T -> Bytes, vs: seq<T>): Bytes { Four(|vs|) + Joined(f, vs) }

  lemma FourOctets(n: nat, k: Bytes)
    ensures PutU32(n, k) == Four(n) + k
  {
    DivideTwice(n);
    LowFour(n, k);
  }

  lemma DivideTwice(n: nat)
    ensures n / 0x100 / 0x100 == n / 0x1_0000 && n / 0x100 / 0x100 / 0x100 == n / 0x100_0000
  {
  }

  /** Four steps of the loop that writes a number. */
  lemma LowFour(n: nat, k: Bytes)
    ensures PutLE(n, 4, k)
            == [(n % 256) as char, (n / 256 % 256) as char, (n / 256 / 256 % 256) as char,
                (n / 256 / 256 / 256 % 256) as char] + k
  {
    var n1, n2, n3 := n / 256, n / 256 / 256, n / 256 / 256 / 256;
    var k3 := [(n3 % 256) as char] + k;
    var k2 := [(n2 % 256) as char] + k3;
    var k1 := [(n1 % 256) as char] + k2;
    assert PutLE(n3 / 256, 0, k) == k;
    assert PutLE(n3, 1, k) == k3;
    assert PutLE(n2, 2, k) == k2;
    assert PutLE(n1, 3, k) == k1;
    assert PutLE(n, 4, k) == [(n % 256) as char] + k1;
  }

  lemma EightOctets(n: nat, k: Bytes)
    ensures PutU64(n, k) == Eight(n) + k
  {
    var high := n / 0x1_0000_0000;
    FourOctets(n, PutU32(high, k));
    FourOctets(high, k);
    PutLEParts(n, k);
    HighOctets(n);
    assert Four(n) + (Four(high) + k) == Eight(n) + k;
  }

  lemma PutLEParts(n: nat, k: Bytes)
    ensures PutLE(n, 8, k) == PutLE(n, 4, PutLE(n / 0x1_0000_0000, 4, k))
  {
    PutLESplit(n, 4, 4, k);
    assert Shifted(n, 4) == n / 256 / 256 / 256 / 256 == n / 0x1_0000_0000 by {
      assert Shifted(n / 256 / 256 / 256 / 256, 0) == n / 256 / 256 / 256 / 256;
      assert Shifted(n / 256 / 256 / 256, 1) == n / 256 / 256 / 256 / 256;
      assert Shifted(n / 256 / 256, 2) == n / 256 / 256 / 256 / 256;
      DivideTwice(n);
    }
  }

  function Shifted(n: nat, w: nat): nat { if w == 0 then n else Shifted(n / 256, w - 1) }

  lemma {:induction false} PutLESplit(n: nat, w: nat, v: nat, k: Bytes)
    ensures PutLE(n, w + v, k) == PutLE(n, w, PutLE(Shifted(n, w), v, k))
    decreases w
  {
    if w > 0 { PutLESplit(n / 256, w - 1, v, k); }
  }

  lemma HighOctets(n: nat)
    ensures Four(n / 0x1_0000_0000) == [OctetAt(n, 4), OctetAt(n, 5), OctetAt(n, 6), OctetAt(n, 7)]
  {
    var h := n / 0x1_0000_0000;
    assert h / 0x100 == n / 0x100_0000_0000;
    assert h / 0x1_0000 == n / 0x1_0000_0000_0000;
    assert h / 0x100_0000 == n / 0x100_0000_0000_0000;
  }

  lemma StringOctets(v: Bytes, k: Bytes)
    ensures PutString(v, k) == Str(v) + k
  {
    hide PutU32;
    FillingIs(|v|, k);
    FourOctets(|v|, v + (Filling(|v|) + k));
  }

  lemma FillingIs(n: nat, k: Bytes)
    ensures PutZeros(Padding(n), k) == Filling(n) + k
  {
    hide PutZeros;
    FewZeros(k);
    match n % 4 case 0 => case 1 => case 2 => case _ =>
  }

  lemma FewZeros(k: Bytes)
    ensures PutZeros(0, k) == k && PutZeros(1, k) == [0 as char] + k
    ensures PutZeros(2, k) == [0 as char, 0 as char] + k
    ensures PutZeros(3, k) == [0 as char, 0 as char, 0 as char] + k
  {
    var k1 := [0 as char] + k;
    var k2 := [0 as char] + k1;
    assert PutZeros(0, k) == k;
    assert PutZeros(1, k) == k1;
    assert PutZeros(2, k) == k2;
    assert PutZeros(3, k) == [0 as char] + k2;
  }

  lemma {:induction false} JoinedOctets<T>(put: (T, Bytes) -> Bytes, f: T -> Bytes, vs: seq<T>, k: Bytes)
    requires forall v, j :: put(v, j) == f(v) + j
    ensures PutMany(put, vs, k) == Joined(f, vs) + k
    decreases |vs|
  {
    if vs != [] { JoinedOctets(put, f, vs[1..], k); }
  }

  lemma ListOctets<T>(put: (T, Bytes) -> Bytes, f: T -> Bytes, vs: seq<T>, k: Bytes)
    requires forall v, j :: put(v, j) == f(v) + j
    ensures PutList(put, vs, k) == Counted(f, vs) + k
  {
    hide PutU32;
    JoinedOctets(put, f, vs, k);
    FourOctets(|vs|, Joined(f, vs) + k);
  }

  // ---------------------------------------------------------------- nodes

  function Tag(n: nat): Bytes
    requires n < 4
  {
    [n as char]
  }

  function OfExpression(v: Expression): Bytes {
    match v
    case StringLiteral(value) => Tag(1) + Str(value)
    case NumberLiteral(number) => Tag(2) + Eight(number)
    case Identifier(name) => Tag(3) + Str(name)
  }

  function OfAnnotation(v: Annotation): Bytes { Str(v.name) + Counted(OfExpression, v.args) }

  function OfAnnotations(vs: seq<Annotation>): Bytes { Counted(OfAnnotation, vs) }

  function OfType(v: Type): Bytes {
    var flag := if v.isConst then Tag(1) else Tag(0);
    match v
    case Named(_, name) => flag + Tag(1) + Str(name)
    case Ptr(_, inner) => flag + Tag(2) + OfType(inner)
    case Array(_, inner) => flag + Tag(3) + OfType(inner)
  }

  function OfParameter(v: Parameter): Bytes {
    (match v.direction case In => Tag(0) case Out => Tag(1) case InOut => Tag(2))
    + OfAnnotations(v.annotations) + OfType(v.ty) + Str(v.name)
  }

  function OfFunction(v: Function): Bytes {
    Four(v.id) + Str(v.name) + OfAnnotations(v.annotations) + Counted(OfParameter, v.parameters)
  }

  function OfStructField(v: StructField): Bytes { OfType(v.ty) + Str(v.name) }

  function OfStruct(v: Struct): Bytes {
    Str(v.name) + OfAnnotations(v.annotations) + Counted(OfStructField, v.fields)
  }

  function OfBitfieldField(v: BitfieldField): Bytes { Str(v.name) + Eight(v.bits) }

  function OfBitfield(v: Bitfield): Bytes {
    Str(v.name) + OfAnnotations(v.annotations) + OfType(v.baseType) + Counted(OfBitfieldField, v.fields)
  }

  function OfEnumMember(v: EnumMember): Bytes { Str(v.name) + Eight(v.value) + OfAnnotations(v.annotations) }

  function OfEnum(v: Enum): Bytes {
    Str(v.name) + OfAnnotations(v.annotations) + OfType(v.baseType) + Counted(OfEnumMember, v.members)
  }

  /** The declarations of a revision. */
  function OfBody(v: Revision): Bytes {
    OfAnnotations(v.annotations) + Counted(OfBitfield, v.bitfields) + Counted(OfEnum, v.enums)
    + Counted(OfStruct, v.structs) + Counted(OfFunction, v.functions)
  }

  /** Number and previous hash in front. */
  function OfTree(v: Revision, previous: Digest): Bytes { Eight(v.version) + previous + OfBody(v) }

  /** The magic octets, the format version 0, and the identity. */
  function OfHeader(i: Interface): Bytes {
    ['S', 'I', 'F', 0 as char] + Four(0) + Str(i.name) + i.uuidNamespace + Str(i.uuidName) + Str(i.prefix)
    + OfAnnotations(i.annotations)
  }

  /** What is hashed for a revision. */
  function OfPreimage(uuid: Uuid, v: Revision, previous: Digest): Bytes {
    Str("strata.sif.revision.v0") + uuid + OfTree(v, previous)
  }

  // ---------------------------------------------------------------- the writer follows them

  lemma ExpressionOctets()
    ensures forall v, k :: PutExpression(v, k) == OfExpression(v) + k
  {
    hide PutString, PutU64, Str, Eight;
    forall v, k ensures PutExpression(v, k) == OfExpression(v) + k {
      match v {
        case StringLiteral(value) => StringOctets(value, k);
        case NumberLiteral(number) => EightOctets(number, k);
        case Identifier(name) => StringOctets(name, k);
      }
    }
  }

  lemma AnnotationsOctets()
    ensures forall vs, k :: PutAnnotations(vs, k) == OfAnnotations(vs) + k
  {
    hide PutString, PutList, PutExpression, Str, Counted, OfExpression;
    ExpressionOctets();
    forall v, k ensures PutAnnotation(v, k) == OfAnnotation(v) + k {
      ListOctets(PutExpression, OfExpression, v.args, k);
      StringOctets(v.name, Counted(OfExpression, v.args) + k);
    }
    hide PutAnnotation, OfAnnotation;
    forall vs, k ensures PutAnnotations(vs, k) == OfAnnotations(vs) + k {
      ListOctets(PutAnnotation, OfAnnotation, vs, k);
    }
  }

  lemma {:induction false} TypeOctets(v: Type, k: Bytes)
    ensures PutType(v, k) == OfType(v) + k
    decreases v
  {
    hide PutString, Str;
    match v {
      case Named(_, name) => StringOctets(name, k);
      case Ptr(_, inner) => TypeOctets(inner, k);
      case Array(_, inner) => TypeOctets(inner, k);
    }
  }

  lemma ParameterOctets()
    ensures forall v, k :: PutParameter(v, k) == OfParameter(v) + k
  {
    hide PutString, PutAnnotations, PutType, Str, OfAnnotations, OfType;
    AnnotationsOctets();
    forall v, k ensures PutParameter(v, k) == OfParameter(v) + k {
      StringOctets(v.name, k);
      TypeOctets(v.ty, Str(v.name) + k);
    }
  }

  lemma FunctionOctets()
    ensures forall v, k :: PutFunction(v, k) == OfFunction(v) + k
  {
    hide PutU32, PutString, PutAnnotations, PutList, PutParameter, Str, Four, OfAnnotations, Counted, OfParameter;
    AnnotationsOctets();
    ParameterOctets();
    forall v, k ensures PutFunction(v, k) == OfFunction(v) + k {
      var k1 := Counted(OfParameter, v.parameters) + k;
      ListOctets(PutParameter, OfParameter, v.parameters, k);
      var k2 := OfAnnotations(v.annotations) + k1;
      StringOctets(v.name, k2);
      FourOctets(v.id, Str(v.name) + k2);
    }
  }

  lemma StructOctets()
    ensures forall v, k :: PutStruct(v, k) == OfStruct(v) + k
  {
    hide PutString, PutAnnotations, PutType, PutList, Str, OfAnnotations, OfType, Counted;
    AnnotationsOctets();
    forall v, k ensures PutStructField(v, k) == OfStructField(v) + k {
      StringOctets(v.name, k);
      TypeOctets(v.ty, Str(v.name) + k);
    }
    hide PutStructField, OfStructField;
    forall v, k ensures PutStruct(v, k) == OfStruct(v) + k {
      ListOctets(PutStructField, OfStructField, v.fields, k);
      StringOctets(v.name, OfAnnotations(v.annotations) + (Counted(OfStructField, v.fields) + k));
    }
  }

  lemma BitfieldOctets()
    ensures forall v, k :: PutBitfield(v, k) == OfBitfield(v) + k
  {
    hide PutString, PutU64, PutAnnotations, PutType, PutList, Str, Eight, OfAnnotations, OfType, Counted;
    AnnotationsOctets();
    forall v, k ensures PutBitfieldField(v, k) == OfBitfieldField(v) + k {
      EightOctets(v.bits, k);
      StringOctets(v.name, Eight(v.bits) + k);
    }
    hide PutBitfieldField, OfBitfieldField;
    forall v, k ensures PutBitfield(v, k) == OfBitfield(v) + k {
      var k1 := Counted(OfBitfieldField, v.fields) + k;
      ListOctets(PutBitfieldField, OfBitfieldField, v.fields, k);
      TypeOctets(v.baseType, k1);
      StringOctets(v.name, OfAnnotations(v.annotations) + (OfType(v.baseType) + k1));
    }
  }

  lemma EnumOctets()
    ensures forall v, k :: PutEnum(v, k) == OfEnum(v) + k
  {
    hide PutString, PutU64, PutAnnotations, PutType, PutList, Str, Eight, OfAnnotations, OfType, Counted;
    AnnotationsOctets();
    forall v, k ensures PutEnumMember(v, k) == OfEnumMember(v) + k {
      EightOctets(v.value, OfAnnotations(v.annotations) + k);
      StringOctets(v.name, Eight(v.value) + (OfAnnotations(v.annotations) + k));
    }
    hide PutEnumMember, OfEnumMember;
    forall v, k ensures PutEnum(v, k) == OfEnum(v) + k {
      var k1 := Counted(OfEnumMember, v.members) + k;
      ListOctets(PutEnumMember, OfEnumMember, v.members, k);
      TypeOctets(v.baseType, k1);
      StringOctets(v.name, OfAnnotations(v.annotations) + (OfType(v.baseType) + k1));
    }
  }

  lemma TreeOctets(v: Revision, previous: Digest, k: Bytes)
    ensures PutTree(v, previous, k) == OfTree(v, previous) + k
  {
    hide PutU64, PutAnnotations, PutList, PutBitfield, PutEnum, PutStruct, PutFunction, Eight, OfAnnotations, Counted,
         OfBitfield, OfEnum, OfStruct, OfFunction;
    AnnotationsOctets();
    BitfieldOctets();
    EnumOctets();
    StructOctets();
    FunctionOctets();
    var k1 := Counted(OfFunction, v.functions) + k;
    ListOctets(PutFunction, OfFunction, v.functions, k);
    var k2 := Counted(OfStruct, v.structs) + k1;
    ListOctets(PutStruct, OfStruct, v.structs, k1);
    var k3 := Counted(OfEnum, v.enums) + k2;
    ListOctets(PutEnum, OfEnum, v.enums, k2);
    var k4 := Counted(OfBitfield, v.bitfields) + k3;
    ListOctets(PutBitfield, OfBitfield, v.bitfields, k3);
    assert PutBody(v, k) == OfAnnotations(v.annotations) + k4 == OfBody(v) + k;
    EightOctets(v.version, previous + (OfBody(v) + k));
  }

  // ---------------------------------------------------------------- whole artifacts

  /** The trees one after the other, each with the hash of the one before. */
  function OfTrees(vs: seq<Revision>, table: seq<Digest>, previous: Digest): Bytes
    requires |table| == |vs|
  {
    if vs == [] then [] else OfTree(vs[0], previous) + OfTrees(vs[1..], table[1..], table[0])
  }

  lemma {:induction false} TreesOctets(vs: seq<Revision>, table: seq<Digest>, previous: Digest, k: Bytes)
    requires |table| == |vs|
    ensures PutTrees(vs, table, previous, k) == OfTrees(vs, table, previous) + k
    decreases |vs|
  {
    hide PutTree, OfTree;
    if vs != [] {
      TreesOctets(vs[1..], table[1..], table[0], k);
      TreeOctets(vs[0], previous, OfTrees(vs[1..], table[1..], table[0]) + k);
    }
  }

  function Same(v: Digest): Bytes { v }

  /** Header, number of revisions, root hash, hash table, and the trees, the first one linked to zeros. */
  lemma ArtifactOctets(cr: Crypto, i: Interface)
    requires i.revisions != []
    ensures forall j :: 0 <= j < 32 ==> ZERO_HASH[j] == 0 as char
    ensures var table := HashTable(cr, InterfaceUuid(cr, i), i.revisions, ZERO_HASH);
            PutArtifact(cr, i, []) ==
            OfHeader(i) + Four(|table|) + table[0] + Joined(Same, table) + OfTrees(i.revisions, table, ZERO_HASH)
  {
    hide PutU32, PutString, PutAnnotations, PutMany, PutTrees, HashTable, Four, Str, OfAnnotations, Joined, OfTrees,
         InterfaceUuid;
    ZeroHashIsZero();
    var table := HashTable(cr, InterfaceUuid(cr, i), i.revisions, ZERO_HASH);
    var trees := OfTrees(i.revisions, table, ZERO_HASH);
    TreesOctets(i.revisions, table, ZERO_HASH, []);
    assert trees + [] == trees;
    JoinedOctets(PutDigest, Same, table, trees);
    var k1 := table[0] + (Joined(Same, table) + trees);
    FourOctets(|table|, k1);
    HeaderOctets(i, Four(|table|) + k1);
  }

  lemma HeaderOctets(i: Interface, k: Bytes)
    ensures MAGIC + PutU32(0, PutIdentity(i, k)) == OfHeader(i) + k
  {
    hide PutU32, PutString, PutAnnotations, Four, Str, OfAnnotations;
    AnnotationsOctets();
    var k1 := OfAnnotations(i.annotations) + k;
    StringOctets(i.prefix, k1);
    StringOctets(i.uuidName, Str(i.prefix) + k1);
    StringOctets(i.name, i.uuidNamespace + (Str(i.uuidName) + (Str(i.prefix) + k1)));
    FourOctets(0, Str(i.name) + (i.uuidNamespace + (Str(i.uuidName) + (Str(i.prefix) + k1))));
  }

  lemma ZeroHashIsZero()
    ensures forall j :: 0 <= j < 32 ==> ZERO_HASH[j] == 0 as char
  {
    ZerosAreZero(32);
  }

  lemma {:induction false} ZerosAreZero(n: nat)
    ensures forall j :: 0 <= j < n ==> Zeros(n)[j] == 0 as char
  {
    if n > 0 { ZerosAreZero(n - 1); }
  }

  /** The octets that a revision hash is taken of. */
  lemma PreimageOctets(uuid: Uuid, v: Revision, previous: Digest)
    ensures Preimage(uuid, v, previous) == OfPreimage(uuid, v, previous)
  {
    hide PutString, PutTree, Str, OfTree;
    TreeOctets(v, previous, []);
    assert OfTree(v, previous) + [] == OfTree(v, previous);
    StringOctets(TAG, uuid + OfTree(v, previous));
    TagIs();
  }

  lemma TagIs()
    ensures TAG == "strata.sif.revision.v0"
  {
  }
}
