/** The decompiler's text as a list of lines, with every margin, keyword and blank line written out
    (lang/sif.cc:766-978, 1084-1107): a second definition of it, and the proof that the printer follows it. */
module ReferenceText {
  import opened Octets
  import opened Ast
  import opened Lexing
  import opened UuidText
  import opened Printing

  type Lines = seq<Bytes>

  // ---------------------------------------------------------------- lines

  function Text(ls: Lines): Bytes { if ls == [] then [] else ls[0] + (['\n'] + Text(ls[1..])) }

  lemma {:induction false} TextAppend(a: Lines, b: Lines)
    ensures Text(a + b) == Text(a) + Text(b)
  {
    if a == [] {
      assert a + b == b;
    } else {
      assert (a + b)[1..] == a[1..] + b;
      TextAppend(a[1..], b);
      assert a[0] + (['\n'] + (Text(a[1..]) + Text(b))) == (a[0] + (['\n'] + Text(a[1..]))) + Text(b);
    }
  }

  /** Lines `a` and `b` in front of `k`. */
  lemma TextThen(a: Lines, b: Lines, k: Bytes)
    ensures Text(a + b) + k == Text(a) + (Text(b) + k)
  {
    TextAppend(a, b);
  }

  lemma TextLine(l: Bytes, k: Bytes)
    ensures Text([l]) + k == l + C('\n', k)
  {
    assert Text([l]) == l + (['\n'] + []);
  }

  function Each<T>(f: T -> Lines, vs: seq<T>): Lines { if vs == [] then [] else f(vs[0]) + Each(f, vs[1..]) }

  /** Texts with a comma and a space between them. */
  function Commas<T>(f: T -> Bytes, vs: seq<T>): Bytes {
    if vs == [] then [] else if |vs| == 1 then f(vs[0]) else f(vs[0]) + ", " + Commas(f, vs[1..])
  }

  /** Blocks of lines with an empty line between them. */
  function Spaced(blocks: seq<Lines>): Lines {
    if blocks == [] then [] else if |blocks| == 1 then blocks[0] else blocks[0] + [""] + Spaced(blocks[1..])
  }

  function Mapped<T>(f: T -> Lines, vs: seq<T>): seq<Lines> {
    if vs == [] then [] else [f(vs[0])] + Mapped(f, vs[1..])
  }

  function Margin(level: nat): Bytes
    requires level < 4
  {
    match level case 0 => "" case 1 => "    " case 2 => "        " case _ => "            "
  }

  // ---------------------------------------------------------------- the text of each kind of node

  function ExpressionText(v: Expression): Bytes {
    match v
    case StringLiteral(value) => value
    case NumberLiteral(number) => Decimal(number)
    case Identifier(name) => name
  }

  function NoteText(v: Annotation): Bytes { "@" + v.name + "(" + Commas(ExpressionText, v.args) + ")" }

  function NoteLines(margin: Bytes, vs: seq<Annotation>): Lines {
    if vs == [] then [] else [margin + NoteText(vs[0])] + NoteLines(margin, vs[1..])
  }

  function TypeText(v: Type): Bytes {
    (if v.isConst then "const " else "") +
    match v
    case Named(_, name) => name
    case Ptr(_, inner) => "ptr<" + TypeText(inner) + ">"
    case Array(_, inner) => "array<" + TypeText(inner) + ">"
  }

  function StructFieldLines(v: StructField): Lines { [Margin(3) + TypeText(v.ty) + " " + v.name + ";"] }

  function StructLines(v: Struct): Lines {
    NoteLines(Margin(2), v.annotations) + [Margin(2) + "struct " + v.name + " {"] + Each(StructFieldLines, v.fields)
    + [Margin(2) + "};"]
  }

  function BitfieldFieldLines(v: BitfieldField): Lines { [Margin(3) + v.name + " : " + Decimal(v.bits) + ";"] }

  function BitfieldLines(v: Bitfield): Lines {
    NoteLines(Margin(2), v.annotations) + [Margin(2) + "bitfield<" + TypeText(v.baseType) + "> " + v.name + " {"]
    + Each(BitfieldFieldLines, v.fields) + [Margin(2) + "};"]
  }

  /** A comma behind every member but the last. */
  function MemberLines(vs: seq<EnumMember>): Lines {
    if vs == [] then []
    else
      NoteLines(Margin(3), vs[0].annotations)
      + [Margin(3) + vs[0].name + " = " + Decimal(vs[0].value) + if |vs| == 1 then "" else ","]
      + MemberLines(vs[1..])
  }

  function EnumLines(v: Enum): Lines {
    NoteLines(Margin(2), v.annotations) + [Margin(2) + "enum<" + TypeText(v.baseType) + "> " + v.name + " {"]
    + MemberLines(v.members) + [Margin(2) + "};"]
  }

  function InlineNotes(vs: seq<Annotation>): Bytes {
    if vs == [] then [] else NoteText(vs[0]) + " " + InlineNotes(vs[1..])
  }

  function DirectionText(d: Direction): Bytes { match d case In => "in " case Out => "out " case InOut => "inout " }

  function ParameterText(v: Parameter): Bytes {
    InlineNotes(v.annotations) + DirectionText(v.direction) + TypeText(v.ty) + " " + v.name
  }

  function FunctionLines(v: Function): Lines {
    NoteLines(Margin(2), v.annotations)
    + [Margin(2) + "function " + v.name + "(" + Commas(ParameterText, v.parameters) + ");"]
  }

  /** Bitfields, enums, structs and functions. */
  function Blocks(v: Revision): seq<Lines> {
    Mapped(BitfieldLines, v.bitfields) + Mapped(EnumLines, v.enums) + Mapped(StructLines, v.structs)
    + Mapped(FunctionLines, v.functions)
  }

  function RevisionHead(version: nat): Bytes { Margin(1) + "abirevision " + Decimal(version) + " {" }

  function RevisionLines(v: Revision): Lines {
    NoteLines(Margin(1), v.annotations) + [RevisionHead(v.version)] + Spaced(Blocks(v)) + [Margin(1) + "}"]
  }

  function UuidLine(i: Interface): Bytes {
    "@uuid(\"" + UuidString(i.uuidNamespace) + "\", \"" + i.uuidName + "\")"
  }

  function PrefixLine(i: Interface): Bytes { "@prefix(\"" + i.prefix + "\")" }

  function InterfaceHead(name: Bytes): Bytes { "interface " + name + " {" }

  function InterfaceLines(i: Interface): Lines {
    var end: Bytes := "}";
    var metadata: Lines := [UuidLine(i), PrefixLine(i)];
    metadata + NoteLines(Margin(0), i.annotations) + [InterfaceHead(i.name)]
    + Spaced(Mapped(RevisionLines, i.revisions)) + [end]
  }

  // ---------------------------------------------------------------- the printer follows it

  lemma Glue3(a: Bytes, b: Bytes, c: Bytes, k: Bytes)
    ensures a + b + c + k == a + (b + (c + k))
  {
  }

  lemma Glue4(a: Bytes, b: Bytes, c: Bytes, d: Bytes, k: Bytes)
    ensures a + b + c + d + k == a + (b + (c + (d + k)))
  {
    Glue3(a, b, c, d + k);
  }

  lemma Glue5(a: Bytes, b: Bytes, c: Bytes, d: Bytes, e: Bytes, k: Bytes)
    ensures a + b + c + d + e + k == a + (b + (c + (d + (e + k))))
  {
    Glue4(a, b, c, d, e + k);
  }

  lemma Glue6(a: Bytes, b: Bytes, c: Bytes, d: Bytes, e: Bytes, f: Bytes, k: Bytes)
    ensures a + b + c + d + e + f + k == a + (b + (c + (d + (e + (f + k)))))
  {
    Glue5(a, b, c, d, e, f + k);
  }

  lemma {:induction false} IndentIs(level: nat, k: Bytes)
    requires level < 4
    ensures Indent(level, k) == Margin(level) + k
  {
    hide Margin;
    if level == 0 {
      MarginStep(0);
    } else {
      IndentIs(level - 1, k);
      MarginStep(level);
      FourSpaces(Indent(level - 1, k));
      Margin4(Margin(level - 1), k);
    }
  }

  lemma MarginStep(level: nat)
    requires level < 4
    ensures Margin(level) == if level == 0 then [] else "    " + Margin(level - 1)
  {
    match level case 0 => case 1 => case 2 => case _ =>
  }

  lemma FourSpaces(k: Bytes)
    ensures C(' ', C(' ', C(' ', C(' ', k)))) == "    " + k
  {
  }

  lemma Margin4(m: Bytes, k: Bytes)
    ensures "    " + m + k == "    " + (m + k)
  {
  }

  lemma ExpressionIs(v: Expression, k: Bytes)
    ensures PrintExpression(v, k) == ExpressionText(v) + k
  {
  }

  lemma CommaSpace(k: Bytes)
    ensures C(',', C(' ', k)) == ", " + k
  {
  }

  lemma {:induction false} ArgumentsAre(vs: seq<Expression>, k: Bytes)
    ensures PrintArguments(vs, k) == Commas(ExpressionText, vs) + k
    decreases |vs|
  {
    hide ExpressionText, PrintExpression;
    if vs != [] {
      ArgumentsAre(vs[1..], k);
      CommaSpace(PrintArguments(vs[1..], k));
      ExpressionIs(vs[0], if |vs| == 1 then k else C(',', C(' ', PrintArguments(vs[1..], k))));
      Glue3(ExpressionText(vs[0]), ", ", Commas(ExpressionText, vs[1..]), k);
    }
  }

  lemma NoteIs(v: Annotation, k: Bytes)
    ensures PrintAnnotation(v, k) == NoteText(v) + k
  {
    hide Commas, PrintArguments;
    ArgumentsAre(v.args, C(')', k));
    Glue5("@", v.name, "(", Commas(ExpressionText, v.args), ")", k);
  }

  lemma {:induction false} NotesAre(vs: seq<Annotation>, level: nat, k: Bytes)
    requires level < 4
    ensures PrintAnnotations(vs, level, k) == Text(NoteLines(Margin(level), vs)) + k
    decreases |vs|
  {
    hide NoteText, PrintAnnotation, Indent, Margin;
    if vs != [] {
      var rest := PrintAnnotations(vs[1..], level, k);
      NotesAre(vs[1..], level, k);
      NoteIs(vs[0], C('\n', rest));
      IndentIs(level, PrintAnnotation(vs[0], C('\n', rest)));
      var line := Margin(level) + NoteText(vs[0]);
      TextThen([line], NoteLines(Margin(level), vs[1..]), k);
      TextLine(line, rest);
    }
  }

  lemma ConstIs(k: Bytes)
    ensures W(Spelling(KwConst), C(' ', k)) == "const " + k
  {
  }

  lemma PointerIs(inner: Bytes, k: Bytes)
    ensures W(Spelling(KwPtr), C('<', inner + C('>', k))) == "ptr<" + inner + ">" + k
    ensures W(Spelling(KwArray), C('<', inner + C('>', k))) == "array<" + inner + ">" + k
  {
    Glue3("ptr<", inner, ">", k);
    Glue3("array<", inner, ">", k);
  }

  lemma {:induction false} TypeIs(v: Type, k: Bytes)
    ensures PrintType(v, k) == TypeText(v) + k
    decreases v
  {
    hide W, Spelling, C;
    match v {
      case Named(_, name) => PlainName(name, k);
      case Ptr(_, inner) => TypeIs(inner, C('>', k)); PointerIs(TypeText(inner), k);
      case Array(_, inner) => TypeIs(inner, C('>', k)); PointerIs(TypeText(inner), k);
    }
    ConstIs(PrintPlainType(v, k));
  }

  lemma PlainName(name: Bytes, k: Bytes)
    ensures W(name, k) == name + k
  {
  }

  // ---------------------------------------------------------------- declarations

  lemma Words(k: Bytes)
    ensures W(Spelling(KwStruct), C(' ', k)) == "struct " + k
    ensures W(Spelling(KwBitfield), C('<', k)) == "bitfield<" + k
    ensures W(Spelling(KwEnum), C('<', k)) == "enum<" + k
    ensures W(Spelling(KwFunction), C(' ', k)) == "function " + k
    ensures W(Spelling(KwAbirevision), C(' ', k)) == "abirevision " + k
    ensures W(Spelling(KwInterface), C(' ', k)) == "interface " + k
  {
  }

  lemma Marks(k: Bytes)
    ensures C(' ', C('{', k)) == " {" + k && C('>', C(' ', k)) == "> " + k
    ensures C(')', C(';', k)) == ");" + k && C('}', C(';', k)) == "};" + k
    ensures C(' ', C(':', C(' ', k))) == " : " + k && C(' ', C('=', C(' ', k))) == " = " + k
    ensures C('(', k) == "(" + k && C('}', k) == "}" + k && C(' ', k) == " " + k && C(';', k) == ";" + k
    ensures C(',', k) == "," + k
  {
  }

  lemma StructFieldIs(v: StructField, k: Bytes)
    ensures PrintStructField(v, k) == Text(StructFieldLines(v)) + k
  {
    hide Indent, Margin, C, TypeText, PrintType;
    var end := C('\n', k);
    Marks(end);
    Marks(W(v.name, C(';', end)));
    TypeIs(v.ty, C(' ', W(v.name, C(';', end))));
    IndentIs(3, PrintType(v.ty, C(' ', W(v.name, C(';', end)))));
    Glue5(Margin(3), TypeText(v.ty), " ", v.name, ";", end);
    TextLine(Margin(3) + TypeText(v.ty) + " " + v.name + ";", k);
  }

  lemma {:induction false} StructFieldsAre(vs: seq<StructField>, k: Bytes)
    ensures PrintStructFields(vs, k) == Text(Each(StructFieldLines, vs)) + k
    decreases |vs|
  {
    hide StructFieldLines, PrintStructField;
    if vs != [] {
      StructFieldsAre(vs[1..], k);
      StructFieldIs(vs[0], PrintStructFields(vs[1..], k));
      TextThen(StructFieldLines(vs[0]), Each(StructFieldLines, vs[1..]), k);
    }
  }

  lemma CloseIs(k: Bytes)
    ensures PrintClose(k) == Text([Margin(2) + "};"]) + k
  {
    hide Indent, Margin, C;
    var end := C('\n', k);
    Marks(end);
    IndentIs(2, C('}', C(';', end)));
    TextLine(Margin(2) + "};", k);
  }

  /** Annotations, a head, the lines of the members, and the closing line. */
  lemma BlockIs(notes: Lines, head: Bytes, members: Lines, end: Bytes, k: Bytes)
    ensures Text(notes) + (head + C('\n', Text(members) + (Text([end]) + k)))
            == Text(notes + [head] + members + [end]) + k
  {
    hide Text;
    TextThen(notes + [head] + members, [end], k);
    TextThen(notes + [head], members, Text([end]) + k);
    TextThen(notes, [head], Text(members) + (Text([end]) + k));
    TextLine(head, Text(members) + (Text([end]) + k));
  }

  lemma StructIs(v: Struct, k: Bytes)
    ensures PrintStruct(v, k) == Text(StructLines(v)) + k
  {
    hide Indent, Margin, C, Each, PrintStructFields, PrintClose, PrintAnnotations, NoteLines;
    CloseIs(k);
    StructFieldsAre(v.fields, PrintClose(k));
    var end := C('\n', PrintStructFields(v.fields, PrintClose(k)));
    Marks(end);
    Words(W(v.name, C(' ', C('{', end))));
    IndentIs(2, W(Spelling(KwStruct), C(' ', W(v.name, C(' ', C('{', end))))));
    Glue4(Margin(2), "struct ", v.name, " {", end);
    NotesAre(v.annotations, 2, PrintBareStruct(v, k));
    BlockIs(NoteLines(Margin(2), v.annotations), Margin(2) + "struct " + v.name + " {",
            Each(StructFieldLines, v.fields), Margin(2) + "};", k);
  }

  lemma BitfieldFieldIs(v: BitfieldField, k: Bytes)
    ensures PrintBitfieldField(v, k) == Text(BitfieldFieldLines(v)) + k
  {
    hide Indent, Margin, C, Decimal;
    var end := C('\n', k);
    var number := W(Decimal(v.bits), C(';', end));
    Marks(end);
    Marks(number);
    IndentIs(3, W(v.name, C(' ', C(':', C(' ', number)))));
    Glue5(Margin(3), v.name, " : ", Decimal(v.bits), ";", end);
    TextLine(Margin(3) + v.name + " : " + Decimal(v.bits) + ";", k);
  }

  lemma {:induction false} BitfieldFieldsAre(vs: seq<BitfieldField>, k: Bytes)
    ensures PrintBitfieldFields(vs, k) == Text(Each(BitfieldFieldLines, vs)) + k
    decreases |vs|
  {
    hide BitfieldFieldLines, PrintBitfieldField;
    if vs != [] {
      BitfieldFieldsAre(vs[1..], k);
      BitfieldFieldIs(vs[0], PrintBitfieldFields(vs[1..], k));
      TextThen(BitfieldFieldLines(vs[0]), Each(BitfieldFieldLines, vs[1..]), k);
    }
  }

  /** `keyword<type> name {`. */
  lemma HeadIs(keyword: Keyword, word: Bytes, ty: Type, name: Bytes, k: Bytes)
    requires forall j :: W(Spelling(keyword), C('<', j)) == word + j
    ensures PrintTypedHead(keyword, ty, name, k)
            == Margin(2) + word + TypeText(ty) + "> " + name + " {" + C('\n', k)
  {
    hide Indent, Margin, C, TypeText, PrintType, Spelling;
    var end := C('\n', k);
    var named := W(name, C(' ', C('{', end)));
    Marks(end);
    Marks(named);
    TypeIs(ty, C('>', C(' ', named)));
    var typed := PrintType(ty, C('>', C(' ', named)));
    IndentIs(2, W(Spelling(keyword), C('<', typed)));
    Glue6(Margin(2), word, TypeText(ty), "> ", name, " {", end);
  }

  lemma BitfieldIs(v: Bitfield, k: Bytes)
    ensures PrintBitfield(v, k) == Text(BitfieldLines(v)) + k
  {
    hide Margin, C, Each, PrintBitfieldFields, PrintClose, PrintAnnotations, NoteLines, PrintTypedHead, W, Spelling,
         TypeText;
    CloseIs(k);
    BitfieldFieldsAre(v.fields, PrintClose(k));
    forall j ensures W(Spelling(KwBitfield), C('<', j)) == "bitfield<" + j { Words(j); }
    HeadIs(KwBitfield, "bitfield<", v.baseType, v.name, PrintBitfieldFields(v.fields, PrintClose(k)));
    NotesAre(v.annotations, 2, PrintBareBitfield(v, k));
    BlockIs(NoteLines(Margin(2), v.annotations),
            Margin(2) + "bitfield<" + TypeText(v.baseType) + "> " + v.name + " {",
            Each(BitfieldFieldLines, v.fields), Margin(2) + "};", k);
  }

  lemma MemberIs(v: EnumMember, k: Bytes)
    ensures PrintEnumMember(v, k)
            == Text(NoteLines(Margin(3), v.annotations)) + (Margin(3) + v.name + " = " + Decimal(v.value) + k)
  {
    hide Indent, Margin, C, Decimal, PrintAnnotations, NoteLines;
    var number := W(Decimal(v.value), k);
    Marks(number);
    var line := W(v.name, C(' ', C('=', C(' ', number))));
    IndentIs(3, line);
    Glue4(Margin(3), v.name, " = ", Decimal(v.value), k);
    NotesAre(v.annotations, 3, Indent(3, line));
  }

  lemma {:induction false} MembersAre(vs: seq<EnumMember>, k: Bytes)
    ensures PrintEnumMembers(vs, k) == Text(MemberLines(vs)) + k
    decreases |vs|
  {
    hide Margin, C, Decimal, PrintEnumMember, NoteLines, Text;
    if vs == [] {
      assert Text([]) == [] by { NoLines(); }
    } else {
      var notes := NoteLines(Margin(3), vs[0].annotations);
      var stem := Margin(3) + vs[0].name + " = " + Decimal(vs[0].value);
      MembersAre(vs[1..], k);
      if |vs| == 1 {
        MemberIs(vs[0], C('\n', k));
        NoLines();
        LineOfMember(notes, stem, "", [], k);
        assert MemberLines(vs[1..]) == [];
      } else {
        var end := C('\n', PrintEnumMembers(vs[1..], k));
        Marks(end);
        MemberIs(vs[0], C(',', end));
        LineOfMember(notes, stem, ",", MemberLines(vs[1..]), k);
      }
    }
  }

  lemma NoLines()
    ensures Text([]) == []
  {
  }

  lemma LineOfMember(notes: Lines, stem: Bytes, comma: Bytes, rest: Lines, k: Bytes)
    ensures Text(notes + [stem + comma] + rest) + k
            == Text(notes) + (stem + (comma + C('\n', Text(rest) + k)))
  {
    hide Text;
    TextThen(notes + [stem + comma], rest, k);
    TextThen(notes, [stem + comma], Text(rest) + k);
    TextLine(stem + comma, Text(rest) + k);
  }

  lemma EnumIs(v: Enum, k: Bytes)
    ensures PrintEnum(v, k) == Text(EnumLines(v)) + k
  {
    hide Margin, C, PrintEnumMembers, MemberLines, PrintClose, PrintAnnotations, NoteLines, PrintTypedHead, W, Spelling,
         TypeText;
    CloseIs(k);
    MembersAre(v.members, PrintClose(k));
    forall j ensures W(Spelling(KwEnum), C('<', j)) == "enum<" + j { Words(j); }
    HeadIs(KwEnum, "enum<", v.baseType, v.name, PrintEnumMembers(v.members, PrintClose(k)));
    NotesAre(v.annotations, 2, PrintBareEnum(v, k));
    BlockIs(NoteLines(Margin(2), v.annotations),
            Margin(2) + "enum<" + TypeText(v.baseType) + "> " + v.name + " {",
            MemberLines(v.members), Margin(2) + "};", k);
  }

  // ---------------------------------------------------------------- functions

  lemma {:induction false} InlineNotesAre(vs: seq<Annotation>, k: Bytes)
    ensures PrintInlineAnnotations(vs, k) == InlineNotes(vs) + k
    decreases |vs|
  {
    hide PrintAnnotation, NoteText, C;
    if vs != [] {
      var rest := PrintInlineAnnotations(vs[1..], k);
      InlineNotesAre(vs[1..], k);
      Marks(rest);
      NoteIs(vs[0], C(' ', rest));
      Glue3(NoteText(vs[0]), " ", InlineNotes(vs[1..]), k);
    }
  }

  lemma DirectionIs(d: Direction, k: Bytes)
    ensures W(Spelling(DirectionWord(d)), C(' ', k)) == DirectionText(d) + k
  {
    match d case In => case Out => case InOut =>
  }

  lemma ParameterIs(v: Parameter, k: Bytes)
    ensures PrintParameter(v, k) == ParameterText(v) + k
  {
    hide C, Spelling, TypeText, PrintType, InlineNotes, PrintInlineAnnotations, DirectionText;
    var name := W(v.name, k);
    Marks(name);
    TypeIs(v.ty, C(' ', name));
    var typed := PrintType(v.ty, C(' ', name));
    DirectionIs(v.direction, typed);
    InlineNotesAre(v.annotations, W(Spelling(DirectionWord(v.direction)), C(' ', typed)));
    Glue5(InlineNotes(v.annotations), DirectionText(v.direction), TypeText(v.ty), " ", v.name, k);
  }

  lemma {:induction false} ParametersAre(vs: seq<Parameter>, k: Bytes)
    ensures PrintParameters(vs, k) == Commas(ParameterText, vs) + k
    decreases |vs|
  {
    hide ParameterText, PrintParameter;
    if vs != [] {
      ParametersAre(vs[1..], k);
      CommaSpace(PrintParameters(vs[1..], k));
      ParameterIs(vs[0], if |vs| == 1 then k else C(',', C(' ', PrintParameters(vs[1..], k))));
      Glue3(ParameterText(vs[0]), ", ", Commas(ParameterText, vs[1..]), k);
    }
  }

  lemma FunctionIs(v: Function, k: Bytes)
    ensures PrintFunction(v, k) == Text(FunctionLines(v)) + k
  {
    hide Indent, Margin, C, Spelling, Commas, PrintParameters, PrintAnnotations, NoteLines, Text;
    var end := C('\n', k);
    Marks(end);
    ParametersAre(v.parameters, C(')', C(';', end)));
    var ps := PrintParameters(v.parameters, C(')', C(';', end)));
    Marks(ps);
    Words(W(v.name, C('(', ps)));
    IndentIs(2, W(Spelling(KwFunction), C(' ', W(v.name, C('(', ps)))));
    Glue6(Margin(2), "function ", v.name, "(", Commas(ParameterText, v.parameters), ");", end);
    NotesAre(v.annotations, 2, PrintBareFunction(v, k));
    var line := Margin(2) + "function " + v.name + "(" + Commas(ParameterText, v.parameters) + ");";
    TextLine(line, k);
    TextThen(NoteLines(Margin(2), v.annotations), [line], k);
  }

  // ---------------------------------------------------------------- revisions and the interface

  /** Blocks with an empty line in front of each, except of the first one unless `blank`. */
  function After(blocks: seq<Lines>, blank: bool): Lines
    decreases |blocks|
  {
    if blocks == [] then [] else (if blank then [""] else []) + blocks[0] + After(blocks[1..], true)
  }

  lemma {:induction false} AfterIsSpaced(blocks: seq<Lines>)
    ensures After(blocks, false) == Spaced(blocks)
    ensures blocks != [] ==> After(blocks, true) == [""] + Spaced(blocks)
    decreases |blocks|
  {
    if blocks != [] { AfterIsSpaced(blocks[1..]); }
  }

  lemma {:induction false} AfterAppend(a: seq<Lines>, b: seq<Lines>, blank: bool)
    ensures After(a + b, blank) == After(a, blank) + After(b, blank || a != [])
    decreases |a|
  {
    if a == [] {
      assert a + b == b;
    } else {
      assert (a + b)[1..] == a[1..] + b;
      AfterAppend(a[1..], b, true);
    }
  }

  lemma {:induction false} ManyAre<T>(render: (T, Bytes) -> Bytes, f: T -> Lines, vs: seq<T>, blank: bool, k: Bytes)
    requires forall v, j :: render(v, j) == Text(f(v)) + j
    ensures PrintMany(render, vs, blank, k) == Text(After(Mapped(f, vs), blank)) + k
    ensures Mapped(f, vs) == [] <==> vs == []
    decreases |vs|
  {
    if vs != [] {
      ManyAre(render, f, vs[1..], true, k);
      BlankThen(f(vs[0]), After(Mapped(f, vs[1..]), true), k);
      assert Mapped(f, vs)[1..] == Mapped(f, vs[1..]);
    }
  }

  lemma BlankThen(block: Lines, rest: Lines, k: Bytes)
    ensures Text([] + block + rest) + k == Text(block) + (Text(rest) + k)
    ensures Text([""] + block + rest) + k == C('\n', Text(block) + (Text(rest) + k))
  {
    hide Text;
    TextThen(block, rest, k);
    assert [] + block == block;
    TextThen([""] + block, rest, k);
    TextThen([""], block, Text(rest) + k);
    TextLine("", Text(block) + (Text(rest) + k));
  }

  lemma ItemsAre(v: Revision, k: Bytes)
    ensures PrintItems(v, k) == Text(Spaced(Blocks(v))) + k
  {
    hide PrintMany, After, Mapped, Text;
    hide PrintBitfield, PrintEnum, PrintStruct, PrintFunction, BitfieldLines, EnumLines, StructLines, FunctionLines;
    forall d: Bitfield, j ensures PrintBitfield(d, j) == Text(BitfieldLines(d)) + j { BitfieldIs(d, j); }
    forall d: Enum, j ensures PrintEnum(d, j) == Text(EnumLines(d)) + j { EnumIs(d, j); }
    forall d: Struct, j ensures PrintStruct(d, j) == Text(StructLines(d)) + j { StructIs(d, j); }
    forall d: Function, j ensures PrintFunction(d, j) == Text(FunctionLines(d)) + j { FunctionIs(d, j); }
    var b1 := v.bitfields != [];
    var b2 := b1 || v.enums != [];
    var b3 := b2 || v.structs != [];
    var k3 := PrintMany(PrintFunction, v.functions, b3, k);
    var k2 := PrintMany(PrintStruct, v.structs, b2, k3);
    var k1 := PrintMany(PrintEnum, v.enums, b1, k2);
    ManyAre(PrintFunction, FunctionLines, v.functions, b3, k);
    ManyAre(PrintStruct, StructLines, v.structs, b2, k3);
    ManyAre(PrintEnum, EnumLines, v.enums, b1, k2);
    ManyAre(PrintBitfield, BitfieldLines, v.bitfields, false, k1);
    FourKinds(Mapped(BitfieldLines, v.bitfields), Mapped(EnumLines, v.enums), Mapped(StructLines, v.structs),
              Mapped(FunctionLines, v.functions), k);
  }

  lemma FourKinds(a: seq<Lines>, b: seq<Lines>, c: seq<Lines>, d: seq<Lines>, k: Bytes)
    ensures Text(Spaced(a + b + c + d)) + k
            == Text(After(a, false)) + (Text(After(b, a != [])) + (Text(After(c, a != [] || b != []))
               + (Text(After(d, a != [] || b != [] || c != [])) + k)))
  {
    hide Text, After, Spaced;
    AfterIsSpaced(a + b + c + d);
    AfterAppend(a + b + c, d, false);
    AfterAppend(a + b, c, false);
    AfterAppend(a, b, false);
    var kd := Text(After(d, a != [] || b != [] || c != [])) + k;
    var kc := Text(After(c, a != [] || b != [])) + kd;
    assert a + b + c == [] <==> a == [] && b == [] && c == [];
    assert a + b == [] <==> a == [] && b == [];
    TextThen(After(a + b + c, false), After(d, a != [] || b != [] || c != []), k);
    TextThen(After(a + b, false), After(c, a != [] || b != []), kd);
    TextThen(After(a, false), After(b, a != []), kc);
  }

  lemma RevisionIs(v: Revision, k: Bytes)
    ensures PrintRevision(v, k) == Text(RevisionLines(v)) + k
  {
    hide Indent, Margin, C, Spelling, PrintItems, Spaced, Blocks, PrintAnnotations, NoteLines, Text, Decimal;
    var last := C('\n', k);
    Marks(last);
    IndentIs(1, C('}', last));
    TextLine(Margin(1) + "}", k);
    var close := Indent(1, C('}', last));
    assert close == Text([Margin(1) + "}"]) + k;
    ItemsAre(v, close);
    var end := C('\n', PrintItems(v, close));
    Marks(end);
    var number := W(Decimal(v.version), C(' ', C('{', end)));
    Words(number);
    IndentIs(1, W(Spelling(KwAbirevision), C(' ', number)));
    Glue4(Margin(1), "abirevision ", Decimal(v.version), " {", end);
    NotesAre(v.annotations, 1, Indent(1, W(Spelling(KwAbirevision), C(' ', number))));
    BlockIs(NoteLines(Margin(1), v.annotations), RevisionHead(v.version), Spaced(Blocks(v)), Margin(1) + "}", k);
  }

  lemma UuidLineIs(i: Interface, k: Bytes)
    ensures var u, n := Quote(UuidString(i.uuidNamespace)), Quote(i.uuidName);
            C('@', W("uuid", C('(', W(u, C(',', C(' ', W(n, C(')', k)))))))) == UuidLine(i) + k
  {
    hide UuidString;
    var u, n := UuidString(i.uuidNamespace), i.uuidName;
    Glue5("@uuid(\"", u, "\", \"", n, "\")", k);
    assert W(Quote(n), C(')', k)) == ['"'] + (n + ("\")" + k));
    var k1 := n + ("\")" + k);
    assert W(Quote(u), C(',', C(' ', ['"'] + k1))) == ['"'] + (u + ("\", \"" + k1));
    var k2 := u + ("\", \"" + k1);
    assert C('@', W("uuid", C('(', ['"'] + k2))) == "@uuid(\"" + k2;
  }

  lemma PrefixLineIs(i: Interface, k: Bytes)
    ensures C('@', W("prefix", C('(', W(Quote(i.prefix), C(')', k))))) == PrefixLine(i) + k
  {
    assert W(Quote(i.prefix), C(')', k)) == ['"'] + (i.prefix + ("\")" + k));
    Glue3("@prefix(\"", i.prefix, "\")", k);
  }

  lemma HeadLineIs(name: Bytes, k: Bytes)
    ensures W(Spelling(KwInterface), C(' ', W(name, C(' ', C('{', k))))) == InterfaceHead(name) + k
  {
    hide Spelling, C;
    Marks(k);
    Words(W(name, C(' ', C('{', k))));
    Glue3("interface ", name, " {", k);
  }

  /** The text of a decompiled interface is its lines. */
  lemma InterfaceIs(i: Interface, k: Bytes)
    ensures PrintInterface(i, k) == Text(InterfaceLines(i)) + k
  {
    hide C, W, Spelling, PrintMany, Mapped, After, Spaced, PrintAnnotations, NoteLines, Text, UuidLine, PrefixLine,
         InterfaceHead, Quote, PrintRevision, RevisionLines, Margin;
    forall v: Revision, j ensures PrintRevision(v, j) == Text(RevisionLines(v)) + j { RevisionIs(v, j); }
    var last := C('}', C('\n', k));
    Marks(C('\n', k));
    TextLine("}", k);
    ManyAre(PrintRevision, RevisionLines, i.revisions, false, last);
    AfterIsSpaced(Mapped(RevisionLines, i.revisions));
    var all := PrintMany(PrintRevision, i.revisions, false, last);
    HeadLineIs(i.name, C('\n', all));
    var head := InterfaceHead(i.name) + C('\n', all);
    NotesAre(i.annotations, 0, head);
    var notes := PrintAnnotations(i.annotations, 0, head);
    PrefixLineIs(i, C('\n', notes));
    UuidLineIs(i, C('\n', PrefixLine(i) + C('\n', notes)));
    MetadataThen(UuidLine(i), PrefixLine(i), NoteLines(Margin(0), i.annotations), InterfaceHead(i.name),
                 Spaced(Mapped(RevisionLines, i.revisions)), "}", k);
  }

  lemma MetadataThen(u: Bytes, p: Bytes, notes: Lines, head: Bytes, body: Lines, end: Bytes, k: Bytes)
    ensures Text([u, p] + notes + [head] + body + [end]) + k
            == u + C('\n', p + C('\n', Text(notes) + (head + C('\n', Text(body) + (Text([end]) + k)))))
  {
    hide Text;
    BlockIs(notes, head, body, end, k);
    var rest := notes + [head] + body + [end];
    assert [u, p] + notes + [head] + body + [end] == [u] + ([p] + rest);
    TextThen([u], [p] + rest, k);
    TextThen([p], rest, k);
    TextLine(u, Text([p] + rest) + k);
    TextLine(p, Text(rest) + k);
  }
}
