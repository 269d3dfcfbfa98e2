/** The SIF byte format as pure functions (lang/sif.cc). `PutX(v, k)` is the encoding of `v`
    followed by the octets `k`; `GetX(s)` reads one `X` off the front of the input `s`. */
module SifFormat {
  import opened Octets
  import opened Ast

  datatype SifError =
    | UnexpectedEnd | NonZeroPadding | BadExpressionKind | BadTypeKind | BadDirection
    | BadMagic | UnsupportedVersion | NoRevisions | RootHashMismatch | NotContiguous
    | PreviousHashMismatch | RevisionHashMismatch | TrailingData
    | TooLarge | NoUuid | NoPrefix

  /** The input stream: the octets left, and whether every const flag read so far was 0 or 1. */
  datatype Input = Input(bytes: Bytes, canonical: bool)

  type Got<+T> = Result<(T, Input), SifError>

  // ---------------------------------------------------------------- octets and integers

  function GetU8(s: Input): (r: Got<byte>)
    ensures r.Ok? ==> |r.value.1.bytes| < |s.bytes|
  {
    if s.bytes == [] then Err(UnexpectedEnd)
    else Ok((s.bytes[0], Input(s.bytes[1..], s.canonical)))
  }

  /** `n` as `w` octets, least significant first. */
  function PutLE(n: nat, w: nat, k: Bytes): Bytes {
    if w == 0 then k else [(n % 256) as char] + PutLE(n / 256, w - 1, k)
  }

  function GetLE(w: nat, s: Input): (r: Got<nat>)
    ensures r.Ok? ==> r.value.0 < Pow256(w)
  {
    if w == 0 then Ok((0, s))
    else
      var (b, s1) :- GetU8(s);
      var (high, s2) :- GetLE(w - 1, s1);
      Ok((b as int + 256 * high, s2))
  }

  function PutU32(n: nat, k: Bytes): Bytes { PutLE(n, 4, k) }

  function GetU32(s: Input): Got<u32> {
    Pow256Values();
    GetLE(4, s)
  }

  function PutU64(n: nat, k: Bytes): Bytes { PutLE(n, 8, k) }

  function GetU64(s: Input): Got<u64> {
    Pow256Values();
    GetLE(8, s)
  }

  /** A block of known length: hashes, UUIDs and the body of a string. */
  function GetBlock(n: nat, s: Input): (r: Got<Bytes>)
    ensures r.Ok? ==> |r.value.0| == n
  {
    if |s.bytes| < n then Err(UnexpectedEnd)
    else Ok((s.bytes[..n], Input(s.bytes[n..], s.canonical)))
  }

  function Padding(n: nat): nat { (4 - n % 4) % 4 }

  function PutZeros(n: nat, k: Bytes): Bytes {
    if n == 0 then k else [0 as char] + PutZeros(n - 1, k)
  }

  function SkipZeros(n: nat, s: Input): Result<Input, SifError> {
    if n == 0 then Ok(s)
    else
      var (b, s1) :- GetU8(s);
      if b != 0 as char then Err(NonZeroPadding) else SkipZeros(n - 1, s1)
  }

  predicate FitsCount(n: nat) { n < TWO32 }

  function PutString(v: Bytes, k: Bytes): Bytes {
    PutU32(|v|, v + PutZeros(Padding(|v|), k))
  }

  function GetString(s: Input): (r: Got<Bytes>)
    ensures r.Ok? ==> FitsCount(|r.value.0|)
  {
    var (n, s1) :- GetU32(s);
    var (v, s2) :- GetBlock(n, s1);
    var s3 :- SkipZeros(Padding(n), s2);
    Ok((v, s3))
  }

  // ---------------------------------------------------------------- counted lists

  function PutMany<T>(put: (T, Bytes) -> Bytes, vs: seq<T>, k: Bytes): Bytes {
    if vs == [] then k else put(vs[0], PutMany(put, vs[1..], k))
  }

  function PutList<T>(put: (T, Bytes) -> Bytes, vs: seq<T>, k: Bytes): Bytes {
    PutU32(|vs|, PutMany(put, vs, k))
  }

  function GetMany<T>(get: Input -> Got<T>, n: nat, s: Input): (r: Got<seq<T>>)
    ensures r.Ok? ==> |r.value.0| == n
  {
    if n == 0 then Ok(([], s))
    else
      var (v, s1) :- get(s);
      var (vs, s2) :- GetMany(get, n - 1, s1);
      Ok(([v] + vs, s2))
  }

  function GetList<T>(get: Input -> Got<T>, s: Input): (r: Got<seq<T>>)
    ensures r.Ok? ==> FitsCount(|r.value.0|)
  {
    var (n, s1) :- GetU32(s);
    GetMany(get, n, s1)
  }

  // ---------------------------------------------------------------- expressions, annotations

  function PutExpression(v: Expression, k: Bytes): Bytes {
    match v
    case StringLiteral(value) => [1 as char] + PutString(value, k)
    case NumberLiteral(number) => [2 as char] + PutU64(number, k)
    case Identifier(name) => [3 as char] + PutString(name, k)
  }

  function GetExpression(s: Input): Got<Expression> {
    var (kind, s1) :- GetU8(s);
    if kind == 1 as char then
      var (value, s2) :- GetString(s1);
      Ok((StringLiteral(value), s2))
    else if kind == 2 as char then
      var (number, s2) :- GetU64(s1);
      Ok((NumberLiteral(number), s2))
    else if kind == 3 as char then
      var (name, s2) :- GetString(s1);
      Ok((Identifier(name), s2))
    else Err(BadExpressionKind)
  }

  function PutAnnotation(v: Annotation, k: Bytes): Bytes {
    PutString(v.name, PutList(PutExpression, v.args, k))
  }

  function GetAnnotation(s: Input): Got<Annotation> {
    var (name, s1) :- GetString(s);
    var (args, s2) :- GetList(GetExpression, s1);
    Ok((Annotation(name, args), s2))
  }

  function PutAnnotations(v: seq<Annotation>, k: Bytes): Bytes { PutList(PutAnnotation, v, k) }

  function GetAnnotations(s: Input): Got<seq<Annotation>> { GetList(GetAnnotation, s) }

  // ---------------------------------------------------------------- types

  function PutType(v: Type, k: Bytes): Bytes {
    [(if v.isConst then 1 else 0) as char] +
    match v
    case Named(_, name) => [1 as char] + PutString(name, k)
    case Ptr(_, inner) => [2 as char] + PutType(inner, k)
    case Array(_, inner) => [3 as char] + PutType(inner, k)
  }

  function GetType(s: Input): Got<Type>
    decreases |s.bytes|
  {
    var (flag, s0) :- GetU8(s);
    var (kind, s1) :- GetU8(Input(s0.bytes, s0.canonical && flag as int <= 1));
    var isConst := flag != 0 as char;
    if kind == 1 as char then
      var (name, s2) :- GetString(s1);
      Ok((Named(isConst, name), s2))
    else if kind == 2 as char then
      var (inner, s2) :- GetType(s1);
      Ok((Ptr(isConst, inner), s2))
    else if kind == 3 as char then
      var (inner, s2) :- GetType(s1);
      Ok((Array(isConst, inner), s2))
    else Err(BadTypeKind)
  }

  // ---------------------------------------------------------------- parameters and functions

  function DirectionCode(d: Direction): nat {
    match d
    case In => 0
    case Out => 1
    case InOut => 2
  }

  function PutParameter(v: Parameter, k: Bytes): Bytes {
    [DirectionCode(v.direction) as char] +
    PutAnnotations(v.annotations, PutType(v.ty, PutString(v.name, k)))
  }

  function GetParameter(s: Input): Got<Parameter> {
    var (code, s1) :- GetU8(s);
    if code as int > 2 then Err(BadDirection)
    else
      var (annotations, s2) :- GetAnnotations(s1);
      var (ty, s3) :- GetType(s2);
      var (name, s4) :- GetString(s3);
      var direction := if code as int == 0 then In else if code as int == 1 then Out else InOut;
      Ok((Parameter(direction, annotations, ty, name), s4))
  }

  function PutFunction(v: Function, k: Bytes): Bytes {
    PutU32(v.id, PutString(v.name, PutAnnotations(v.annotations, PutList(PutParameter, v.parameters, k))))
  }

  function GetFunction(s: Input): Got<Function> {
    var (id, s1) :- GetU32(s);
    var (name, s2) :- GetString(s1);
    var (annotations, s3) :- GetAnnotations(s2);
    var (parameters, s4) :- GetList(GetParameter, s3);
    Ok((Function(id, name, annotations, parameters), s4))
  }

  // ---------------------------------------------------------------- structs, bitfields, enums

  function PutStructField(v: StructField, k: Bytes): Bytes { PutType(v.ty, PutString(v.name, k)) }

  function GetStructField(s: Input): Got<StructField> {
    var (ty, s1) :- GetType(s);
    var (name, s2) :- GetString(s1);
    Ok((StructField(ty, name), s2))
  }

  function PutStruct(v: Struct, k: Bytes): Bytes {
    PutString(v.name, PutAnnotations(v.annotations, PutList(PutStructField, v.fields, k)))
  }

  function GetStruct(s: Input): Got<Struct> {
    var (name, s1) :- GetString(s);
    var (annotations, s2) :- GetAnnotations(s1);
    var (fields, s3) :- GetList(GetStructField, s2);
    Ok((Struct(name, annotations, fields), s3))
  }

  function PutBitfieldField(v: BitfieldField, k: Bytes): Bytes { PutString(v.name, PutU64(v.bits, k)) }

  function GetBitfieldField(s: Input): Got<BitfieldField> {
    var (name, s1) :- GetString(s);
    var (bits, s2) :- GetU64(s1);
    Ok((BitfieldField(name, bits), s2))
  }

  function PutBitfield(v: Bitfield, k: Bytes): Bytes {
    PutString(v.name,
      PutAnnotations(v.annotations, PutType(v.baseType, PutList(PutBitfieldField, v.fields, k))))
  }

  function GetBitfield(s: Input): Got<Bitfield> {
    var (name, s1) :- GetString(s);
    var (annotations, s2) :- GetAnnotations(s1);
    var (baseType, s3) :- GetType(s2);
    var (fields, s4) :- GetList(GetBitfieldField, s3);
    Ok((Bitfield(name, annotations, baseType, fields), s4))
  }

  function PutEnumMember(v: EnumMember, k: Bytes): Bytes {
    PutString(v.name, PutU64(v.value, PutAnnotations(v.annotations, k)))
  }

  function GetEnumMember(s: Input): Got<EnumMember> {
    var (name, s1) :- GetString(s);
    var (value, s2) :- GetU64(s1);
    var (annotations, s3) :- GetAnnotations(s2);
    Ok((EnumMember(name, value, annotations), s3))
  }

  function PutEnum(v: Enum, k: Bytes): Bytes {
    PutString(v.name,
      PutAnnotations(v.annotations, PutType(v.baseType, PutList(PutEnumMember, v.members, k))))
  }

  function GetEnum(s: Input): Got<Enum> {
    var (name, s1) :- GetString(s);
    var (annotations, s2) :- GetAnnotations(s1);
    var (baseType, s3) :- GetType(s2);
    var (members, s4) :- GetList(GetEnumMember, s3);
    Ok((Enum(name, annotations, baseType, members), s4))
  }

  // ---------------------------------------------------------------- revision trees

  type Digest = b: Bytes | |b| == 32 witness Zeros(32)

  /** The declarations of a revision: everything after its number and previous hash. */
  function PutBody(v: Revision, k: Bytes): Bytes {
    PutAnnotations(v.annotations,
      PutList(PutBitfield, v.bitfields,
        PutList(PutEnum, v.enums,
          PutList(PutStruct, v.structs,
            PutList(PutFunction, v.functions, k)))))
  }

  function GetBody(version: u64, s: Input): Got<Revision> {
    var (annotations, s1) :- GetAnnotations(s);
    var (bitfields, s2) :- GetList(GetBitfield, s1);
    var (enums, s3) :- GetList(GetEnum, s2);
    var (structs, s4) :- GetList(GetStruct, s3);
    var (functions, s5) :- GetList(GetFunction, s4);
    Ok((Revision(version, annotations, bitfields, enums, structs, functions), s5))
  }

  function PutTree(v: Revision, previous: Digest, k: Bytes): Bytes {
    PutU64(v.version, previous + PutBody(v, k))
  }

  // ---------------------------------------------------------------- what the 32-bit lengths can hold

  predicate FitsExpression(v: Expression) {
    match v
    case StringLiteral(value) => FitsCount(|value|)
    case NumberLiteral(_) => true
    case Identifier(name) => FitsCount(|name|)
  }

  predicate FitsAnnotation(v: Annotation) {
    FitsCount(|v.name|) && FitsCount(|v.args|) && forall a <- v.args :: FitsExpression(a)
  }

  predicate FitsAnnotations(v: seq<Annotation>) {
    FitsCount(|v|) && forall a <- v :: FitsAnnotation(a)
  }

  predicate FitsType(v: Type) {
    match v
    case Named(_, name) => FitsCount(|name|)
    case Ptr(_, inner) => FitsType(inner)
    case Array(_, inner) => FitsType(inner)
  }

  predicate FitsParameter(v: Parameter) {
    FitsAnnotations(v.annotations) && FitsType(v.ty) && FitsCount(|v.name|)
  }

  predicate FitsFunction(v: Function) {
    && FitsCount(|v.name|) && FitsAnnotations(v.annotations)
    && FitsCount(|v.parameters|) && forall p <- v.parameters :: FitsParameter(p)
  }

  predicate FitsStructField(v: StructField) { FitsType(v.ty) && FitsCount(|v.name|) }

  predicate FitsStruct(v: Struct) {
    && FitsCount(|v.name|) && FitsAnnotations(v.annotations)
    && FitsCount(|v.fields|) && forall f <- v.fields :: FitsStructField(f)
  }

  predicate FitsBitfieldField(v: BitfieldField) { FitsCount(|v.name|) }

  predicate FitsBitfield(v: Bitfield) {
    && FitsCount(|v.name|) && FitsAnnotations(v.annotations) && FitsType(v.baseType)
    && FitsCount(|v.fields|) && forall f <- v.fields :: FitsBitfieldField(f)
  }

  predicate FitsEnumMember(v: EnumMember) { FitsCount(|v.name|) && FitsAnnotations(v.annotations) }

  predicate FitsEnum(v: Enum) {
    && FitsCount(|v.name|) && FitsAnnotations(v.annotations) && FitsType(v.baseType)
    && FitsCount(|v.members|) && forall m <- v.members :: FitsEnumMember(m)
  }

  predicate FitsRevision(v: Revision) {
    && FitsAnnotations(v.annotations)
    && FitsCount(|v.bitfields|) && (forall b <- v.bitfields :: FitsBitfield(b))
    && FitsCount(|v.enums|) && (forall e <- v.enums :: FitsEnum(e))
    && FitsCount(|v.structs|) && (forall d <- v.structs :: FitsStruct(d))
    && FitsCount(|v.functions|) && (forall f <- v.functions :: FitsFunction(f))
  }
}
