/** The grammar of SIDL as relations between token strings and trees: `XPhrase(u, v)` says that the
    string `u` is a phrase for `v`. */
module Grammar {
  import opened Octets
  import opened Ast
  import opened Lexing
  import opened Parsing
  import opened TextRoundTrip

  type Ts = seq<Token>

  // ---------------------------------------------------------------- lists

  /** Phrases one after the other. */
  ghost predicate Many<T(!new)>(p: (Ts, T) -> bool, u: Ts, vs: seq<T>)
    decreases |vs|
  {
    if vs == [] then u == [] else exists a, b :: p(a, vs[0]) && Many(p, b, vs[1..]) && u == a + b
  }

  /** Phrases with commas between them; a comma may also follow the last one. */
  ghost predicate CommaList<T(!new)>(p: (Ts, T) -> bool, u: Ts, vs: seq<T>)
    decreases |vs|
  {
    if vs == [] then u == []
    else if |vs| == 1 then exists a :: p(a, vs[0]) && (u == a || u == a + [Punct(',')])
    else exists a, b :: p(a, vs[0]) && CommaList(p, b, vs[1..]) && u == a + [Punct(',')] + b
  }

  // ---------------------------------------------------------------- phrases

  /** The token is a number with this value. */
  predicate Means(t: Token, n: u64) { t.Number? && Stoull(t.digits) == Ok(n) }

  ghost predicate ExpressionPhrase(u: Ts, v: Expression) {
    && |u| == 1
    && match v
       case Identifier(name) => u[0].Ident? && u[0].name == name
       case StringLiteral(value) => u[0].Text? && u[0].quoted == value
       case NumberLiteral(number) => Means(u[0], number)
  }

  /** `@name(arguments)`. */
  ghost predicate AnnotationPhrase(u: Ts, v: Annotation) {
    && IsIdentifier(v.name)
    && exists b :: CommaList(ExpressionPhrase, b, v.args)
                   && u == [Punct('@'), Ident(v.name), Punct('(')] + b + [Punct(')')]
  }

  ghost predicate AnnotationsPhrase(u: Ts, vs: seq<Annotation>) { Many(AnnotationPhrase, u, vs) }

  function ConstPrefix(isConst: bool): Ts { if isConst then [Reserved(KwConst)] else [] }

  /** `name`, `ptr<type>` or `array<type>`, with `const` in front or not. */
  ghost predicate TypePhrase(u: Ts, v: Type)
    decreases v
  {
    match v
    case Named(isConst, name) => IsIdentifier(name) && u == ConstPrefix(isConst) + [Ident(name)]
    case Ptr(isConst, inner) =>
      exists b :: TypePhrase(b, inner) && u == ConstPrefix(isConst) + [Reserved(KwPtr), Punct('<')] + b + [Punct('>')]
    case Array(isConst, inner) =>
      exists b :: TypePhrase(b, inner) && u == ConstPrefix(isConst) + [Reserved(KwArray), Punct('<')] + b + [Punct('>')]
  }

  function DirectionToken(d: Direction): Token {
    match d
    case In => Reserved(KwIn)
    case Out => Reserved(KwOut)
    case InOut => Reserved(KwInout)
  }

  /** Annotations, direction, type and name. */
  ghost predicate ParameterPhrase(u: Ts, v: Parameter) {
    && IsIdentifier(v.name)
    && exists a, b :: AnnotationsPhrase(a, v.annotations) && TypePhrase(b, v.ty)
                      && u == a + [DirectionToken(v.direction)] + b + [Ident(v.name)]
  }

  ghost predicate ParametersPhrase(u: Ts, vs: seq<Parameter>) { CommaList(ParameterPhrase, u, vs) }

  /** `type name;`. */
  ghost predicate StructFieldPhrase(u: Ts, v: StructField) {
    IsIdentifier(v.name) && exists b :: TypePhrase(b, v.ty) && u == b + [Ident(v.name), Punct(';')]
  }

  /** A declaration without its annotations: `struct name { fields };`. */
  ghost predicate StructPhrase(u: Ts, v: Struct) {
    && IsIdentifier(v.name)
    && exists b :: Many(StructFieldPhrase, b, v.fields)
                   && u == [Reserved(KwStruct), Ident(v.name), Punct('{')] + b + [Punct('}'), Punct(';')]
  }

  /** `name : bits;`. */
  ghost predicate BitfieldFieldPhrase(u: Ts, v: BitfieldField) {
    && IsIdentifier(v.name) && |u| == 4 && Means(u[2], v.bits)
    && u == [Ident(v.name), Punct(':'), u[2], Punct(';')]
  }

  /** `keyword<type> name {`. */
  ghost predicate HeadPhrase(u: Ts, keyword: Keyword, ty: Type, name: Bytes) {
    && IsIdentifier(name)
    && exists b :: TypePhrase(b, ty)
                   && u == [Reserved(keyword), Punct('<')] + b + [Punct('>'), Ident(name), Punct('{')]
  }

  ghost predicate BitfieldPhrase(u: Ts, v: Bitfield) {
    exists a, b :: HeadPhrase(a, KwBitfield, v.baseType, v.name) && Many(BitfieldFieldPhrase, b, v.fields)
                   && u == a + b + [Punct('}'), Punct(';')]
  }

  /** Annotations, then `name = value`. */
  ghost predicate EnumMemberPhrase(u: Ts, v: EnumMember) {
    && IsIdentifier(v.name)
    && exists a, n :: AnnotationsPhrase(a, v.annotations) && Means(n, v.value)
                      && u == a + [Ident(v.name), Punct('='), n]
  }

  ghost predicate EnumPhrase(u: Ts, v: Enum) {
    exists a, b :: HeadPhrase(a, KwEnum, v.baseType, v.name) && CommaList(EnumMemberPhrase, b, v.members)
                   && u == a + b + [Punct('}'), Punct(';')]
  }

  /** `function name(parameters);`. */
  ghost predicate FunctionPhrase(u: Ts, v: Function) {
    && IsIdentifier(v.name)
    && exists b :: ParametersPhrase(b, v.parameters)
                   && u == [Reserved(KwFunction), Ident(v.name), Punct('(')] + b + [Punct(')'), Punct(';')]
  }

  /** A declaration of a revision. */
  datatype Item =
    | BitfieldItem(bitfield: Bitfield) | EnumItem(enumeration: Enum) | StructItem(struct: Struct)
    | FunctionItem(function_: Function)

  function Notes(it: Item): seq<Annotation> {
    match it
    case BitfieldItem(v) => v.annotations
    case EnumItem(v) => v.annotations
    case StructItem(v) => v.annotations
    case FunctionItem(v) => v.annotations
  }

  ghost predicate BarePhrase(u: Ts, it: Item) {
    match it
    case BitfieldItem(v) => BitfieldPhrase(u, v)
    case EnumItem(v) => EnumPhrase(u, v)
    case StructItem(v) => StructPhrase(u, v)
    case FunctionItem(v) => FunctionPhrase(u, v)
  }

  /** Annotations and the declaration they belong to. */
  ghost predicate ItemPhrase(u: Ts, it: Item) {
    exists a, b :: AnnotationsPhrase(a, Notes(it)) && BarePhrase(b, it) && u == a + b
  }

  /** Declarations in any order, and annotations behind the last one, which belong to nothing. */
  ghost predicate BodyPhrase(u: Ts, its: seq<Item>) {
    exists a, b, lost :: Many(ItemPhrase, a, its) && AnnotationsPhrase(b, lost) && u == a + b
  }

  function Add(v: Revision, it: Item): Revision {
    match it
    case BitfieldItem(d) => v.(bitfields := v.bitfields + [d])
    case EnumItem(d) => v.(enums := v.enums + [d])
    case StructItem(d) => v.(structs := v.structs + [d])
    case FunctionItem(d) => v.(functions := v.functions + [d])
  }

  /** The revision with the declarations, each kind in the order of the source. */
  function AddAll(v: Revision, its: seq<Item>): Revision
    decreases |its|
  {
    if its == [] then v else AddAll(Add(v, its[0]), its[1..])
  }

  /** `abirevision number { declarations }`, with functions numbered from `id`. */
  ghost predicate RevisionPhrase(u: Ts, v: Revision, id: u32) {
    && Numbered(v.functions, id)
    && exists b, its, n :: BodyPhrase(b, its) && Means(n, v.version) && v == AddAll(EmptyRevision(v.version), its)
                           && u == [Reserved(KwAbirevision), n, Punct('{')] + b + [Punct('}')]
  }

  /** Revisions with contiguous numbers from `next`, and functions numbered across them. */
  ghost predicate RevisionsPhrase(u: Ts, vs: seq<Revision>, next: u64, id: u32)
    decreases |vs|
  {
    if vs == [] then u == []
    else
      exists a, b ::
        && RevisionPhrase(a, vs[0], id)
        && RevisionsPhrase(b, vs[1..], (next + 1) % TWO64, IdAfter(vs[0].functions, id))
        && vs[0].version == next && u == a + b
  }

  /** Annotations, then `interface name { revisions }`. */
  ghost predicate InterfacePhrase(u: Ts, i: Interface, first: u64, id: u32) {
    && IsIdentifier(i.name)
    && i == Interface(i.name, false, NIL_UUID, [], false, [], i.annotations, i.revisions,
                      IdAfterRevisions(i.revisions, id))
    && exists a, b :: AnnotationsPhrase(a, i.annotations) && RevisionsPhrase(b, i.revisions, first, id)
                      && u == a + [Reserved(KwInterface), Ident(i.name), Punct('{')] + b + [Punct('}')]
  }
}
