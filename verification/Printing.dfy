/** The decompiler's text (lang/sif.cc:766-978, 1084-1107) as functions: `PrintX(v, k)` is the SIDL
    text of `v` followed by the text `k`. */
module Printing {
  import opened Octets
  import opened Ast
  import opened Lexing
  import opened UuidText

  /** A word, number or string literal followed by `k`. */
  function W(w: Bytes, k: Bytes): Bytes { w + k }

  /** One character followed by `k`. */
  function C(c: byte, k: Bytes): Bytes { [c] + k }

  /** `write_indent`: four spaces a level. */
  function Indent(level: nat, k: Bytes): Bytes {
    if level == 0 then k else C(' ', C(' ', C(' ', C(' ', Indent(level - 1, k)))))
  }

  function Digit(d: nat): byte
    requires d < 10
  {
    ('0' as int + d) as char
  }

  function Decimal(n: nat): Bytes {
    if n < 10 then [Digit(n)] else Decimal(n / 10) + [Digit(n % 10)]
  }

  function PrintExpression(v: Expression, k: Bytes): Bytes {
    match v
    case StringLiteral(value) => W(value, k)
    case NumberLiteral(number) => W(Decimal(number), k)
    case Identifier(name) => W(name, k)
  }

  function PrintArguments(vs: seq<Expression>, k: Bytes): Bytes {
    if vs == [] then k
    else PrintExpression(vs[0], if |vs| == 1 then k else C(',', C(' ', PrintArguments(vs[1..], k))))
  }

  function PrintAnnotation(v: Annotation, k: Bytes): Bytes {
    C('@', W(v.name, C('(', PrintArguments(v.args, C(')', k)))))
  }

  /** `decompile_annotations`: one annotation a line. */
  function PrintAnnotations(vs: seq<Annotation>, level: nat, k: Bytes): Bytes {
    if vs == [] then k
    else Indent(level, PrintAnnotation(vs[0], C('\n', PrintAnnotations(vs[1..], level, k))))
  }

  function PrintType(v: Type, k: Bytes): Bytes
    decreases v, 1
  {
    if v.isConst then W(Spelling(KwConst), C(' ', PrintPlainType(v, k))) else PrintPlainType(v, k)
  }

  function PrintPlainType(v: Type, k: Bytes): Bytes
    decreases v, 0
  {
    match v
    case Named(_, name) => W(name, k)
    case Ptr(_, inner) => W(Spelling(KwPtr), C('<', PrintType(inner, C('>', k))))
    case Array(_, inner) => W(Spelling(KwArray), C('<', PrintType(inner, C('>', k))))
  }

  function PrintStructField(v: StructField, k: Bytes): Bytes {
    Indent(3, PrintType(v.ty, C(' ', W(v.name, C(';', C('\n', k))))))
  }

  function PrintStructFields(vs: seq<StructField>, k: Bytes): Bytes {
    if vs == [] then k else PrintStructField(vs[0], PrintStructFields(vs[1..], k))
  }

  /** The closing line of a declaration with braces. */
  function PrintClose(k: Bytes): Bytes { Indent(2, C('}', C(';', C('\n', k)))) }

  function PrintBareStruct(v: Struct, k: Bytes): Bytes {
    Indent(2, W(Spelling(KwStruct), C(' ', W(v.name, C(' ', C('{', C('\n',
      PrintStructFields(v.fields, PrintClose(k)))))))))
  }

  function PrintStruct(v: Struct, k: Bytes): Bytes {
    PrintAnnotations(v.annotations, 2, PrintBareStruct(v, k))
  }

  /** `keyword<type> name {`. */
  function PrintTypedHead(keyword: Keyword, ty: Type, name: Bytes, k: Bytes): Bytes {
    Indent(2, W(Spelling(keyword), C('<', PrintType(ty, C('>', C(' ', W(name, C(' ', C('{', C('\n', k))))))))))
  }

  function PrintBitfieldField(v: BitfieldField, k: Bytes): Bytes {
    Indent(3, W(v.name, C(' ', C(':', C(' ', W(Decimal(v.bits), C(';', C('\n', k))))))))
  }

  function PrintBitfieldFields(vs: seq<BitfieldField>, k: Bytes): Bytes {
    if vs == [] then k else PrintBitfieldField(vs[0], PrintBitfieldFields(vs[1..], k))
  }

  function PrintBareBitfield(v: Bitfield, k: Bytes): Bytes {
    PrintTypedHead(KwBitfield, v.baseType, v.name, PrintBitfieldFields(v.fields, PrintClose(k)))
  }

  function PrintBitfield(v: Bitfield, k: Bytes): Bytes {
    PrintAnnotations(v.annotations, 2, PrintBareBitfield(v, k))
  }

  function PrintEnumMember(v: EnumMember, k: Bytes): Bytes {
    PrintAnnotations(v.annotations, 3,
      Indent(3, W(v.name, C(' ', C('=', C(' ', W(Decimal(v.value), k)))))))
  }

  function PrintEnumMembers(vs: seq<EnumMember>, k: Bytes): Bytes {
    if vs == [] then k
    else
      PrintEnumMember(vs[0],
        if |vs| == 1 then C('\n', k) else C(',', C('\n', PrintEnumMembers(vs[1..], k))))
  }

  function PrintBareEnum(v: Enum, k: Bytes): Bytes {
    PrintTypedHead(KwEnum, v.baseType, v.name, PrintEnumMembers(v.members, PrintClose(k)))
  }

  function PrintEnum(v: Enum, k: Bytes): Bytes {
    PrintAnnotations(v.annotations, 2, PrintBareEnum(v, k))
  }

  /** A parameter's annotations stand on the same line. */
  function PrintInlineAnnotations(vs: seq<Annotation>, k: Bytes): Bytes {
    if vs == [] then k else PrintAnnotation(vs[0], C(' ', PrintInlineAnnotations(vs[1..], k)))
  }

  function DirectionWord(d: Direction): Keyword {
    match d
    case In => KwIn
    case Out => KwOut
    case InOut => KwInout
  }

  function PrintParameter(v: Parameter, k: Bytes): Bytes {
    PrintInlineAnnotations(v.annotations,
      W(Spelling(DirectionWord(v.direction)), C(' ', PrintType(v.ty, C(' ', W(v.name, k))))))
  }

  function PrintParameters(vs: seq<Parameter>, k: Bytes): Bytes {
    if vs == [] then k
    else PrintParameter(vs[0], if |vs| == 1 then k else C(',', C(' ', PrintParameters(vs[1..], k))))
  }

  function PrintBareFunction(v: Function, k: Bytes): Bytes {
    Indent(2, W(Spelling(KwFunction), C(' ', W(v.name, C('(',
      PrintParameters(v.parameters, C(')', C(';', C('\n', k)))))))))
  }

  function PrintFunction(v: Function, k: Bytes): Bytes {
    PrintAnnotations(v.annotations, 2, PrintBareFunction(v, k))
  }

  /** The declarations of one kind, blank lines between them; `blank` says whether one came before. */
  function PrintMany<T>(render: (T, Bytes) -> Bytes, vs: seq<T>, blank: bool, k: Bytes): Bytes {
    if vs == [] then k
    else
      var rest := render(vs[0], PrintMany(render, vs[1..], true, k));
      if blank then C('\n', rest) else rest
  }

  /** The declarations of a revision, one kind after the other, with blank lines between them. */
  function PrintItems(v: Revision, k: Bytes): Bytes {
    var b1 := v.bitfields != [];
    var b2 := b1 || v.enums != [];
    var b3 := b2 || v.structs != [];
    PrintMany(PrintBitfield, v.bitfields, false,
      PrintMany(PrintEnum, v.enums, b1,
        PrintMany(PrintStruct, v.structs, b2,
          PrintMany(PrintFunction, v.functions, b3, k))))
  }

  function PrintRevision(v: Revision, k: Bytes): Bytes {
    PrintAnnotations(v.annotations, 1,
      Indent(1, W(Spelling(KwAbirevision), C(' ', W(Decimal(v.version), C(' ', C('{', C('\n',
        PrintItems(v, Indent(1, C('}', C('\n', k))))))))))))
  }

  function Quote(s: Bytes): Bytes { ['"'] + s + ['"'] }

  /** `sif_decompile` on an interface with its identity: metadata first, then the annotations. */
  function PrintInterface(i: Interface, k: Bytes): Bytes {
    C('@', W("uuid", C('(', W(Quote(UuidString(i.uuidNamespace)), C(',', C(' ', W(Quote(i.uuidName), C(')', C('\n',
      C('@', W("prefix", C('(', W(Quote(i.prefix), C(')', C('\n',
        PrintAnnotations(i.annotations, 0,
          W(Spelling(KwInterface), C(' ', W(i.name, C(' ', C('{', C('\n',
            PrintMany(PrintRevision, i.revisions, false, C('}', C('\n', k)))))))))))))))))))))))))
  }
}
