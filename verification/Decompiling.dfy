/** The decompiler as the source has it (lang/sif.cc:766-978, 1084-1107): an output that is appended
    to, piece by piece, in loops over the tree. The ghost field `rest` is the text that is still
    due; every method takes its own text off the front of it. */
module Decompiling {
  import opened Octets
  import opened Ast
  import opened Lexing
  import opened Printing
  import opened Compiling
  import opened SifArtifact
  import opened SifFormat
  import opened NameUuids
  import SifFiles
  import UuidText

  class Decompiler {
    var out: Bytes
    ghost var rest: Bytes

    /** What has been written and what is due. */
    ghost function Total(): Bytes
      reads this
    {
      out + rest
    }

    constructor (ghost text: Bytes)
      ensures out == [] && rest == text && Total() == text
    {
      out, rest := [], text;
    }

    /** `out << w`. */
    method Put(w: Bytes)
      requires exists k :: rest == W(w, k)
      modifies this
      ensures Total() == old(Total()) && forall k :: old(rest) == W(w, k) ==> rest == k
    {
      ghost var k :| rest == W(w, k);
      assert out + (w + k) == (out + w) + k;
      forall j | rest == W(w, j) ensures j == k {
        assert W(w, j)[|w|..] == j && W(w, k)[|w|..] == k;
      }
      out := out + w;
      rest := k;
    }

    method PutChar(c: byte)
      requires exists k :: rest == C(c, k)
      modifies this
      ensures Total() == old(Total()) && forall k :: old(rest) == C(c, k) ==> rest == k
    {
      ghost var k :| rest == C(c, k);
      assert out + ([c] + k) == (out + [c]) + k;
      forall j | rest == C(c, j) ensures j == k {
        assert C(c, j)[1..] == j && C(c, k)[1..] == k;
      }
      out := out + [c];
      rest := k;
    }

    method WriteIndent(level: nat, ghost k: Bytes)
      requires rest == Indent(level, k)
      modifies this
      ensures Total() == old(Total()) && rest == k
    {
      hide W, C;
      for i := 0 to level
        invariant rest == Indent(level - i, k) && Total() == old(Total())
      {
        PutChar(' ');
        PutChar(' ');
        PutChar(' ');
        PutChar(' ');
      }
    }

    method DecompileExpression(v: Expression, ghost k: Bytes)
      requires rest == PrintExpression(v, k)
      modifies this
      ensures Total() == old(Total()) && rest == k
    {
      hide W, Decimal;
      match v {
        case StringLiteral(value) => Put(value);
        case NumberLiteral(number) => Put(Decimal(number));
        case Identifier(name) => Put(name);
      }
    }

    /** `@name(arguments)`. */
    method DecompileAnnotation(v: Annotation, ghost k: Bytes)
      requires rest == PrintAnnotation(v, k)
      modifies this
      ensures Total() == old(Total()) && rest == k
    {
      hide W, C, PrintExpression;
      PutChar('@');
      Put(v.name);
      PutChar('(');
      ghost var close := C(')', k);
      assert v.args[0..] == v.args;
      for i := 0 to |v.args|
        invariant rest == PrintArguments(v.args[i..], close) && Total() == old(Total())
      {
        assert v.args[i..][0] == v.args[i] && v.args[i..][1..] == v.args[i + 1..];
        ghost var next := if i + 1 == |v.args| then close else C(',', C(' ', PrintArguments(v.args[i + 1..], close)));
        DecompileExpression(v.args[i], next);
        if i + 1 < |v.args| {
          PutChar(',');
          PutChar(' ');
        }
      }
      PutChar(')');
    }

    method DecompileAnnotations(vs: seq<Annotation>, level: nat, ghost k: Bytes)
      requires rest == PrintAnnotations(vs, level, k)
      modifies this
      ensures Total() == old(Total()) && rest == k
    {
      hide W, C, PrintAnnotation, Indent;
      assert vs[0..] == vs;
      for i := 0 to |vs|
        invariant rest == PrintAnnotations(vs[i..], level, k) && Total() == old(Total())
      {
        assert vs[i..][0] == vs[i] && vs[i..][1..] == vs[i + 1..];
        ghost var line := C('\n', PrintAnnotations(vs[i + 1..], level, k));
        WriteIndent(level, PrintAnnotation(vs[i], line));
        DecompileAnnotation(vs[i], line);
        PutChar('\n');
      }
    }

    method DecompileType(v: Type, ghost k: Bytes)
      requires rest == PrintType(v, k)
      modifies this
      decreases v
      ensures Total() == old(Total()) && rest == k
    {
      hide W, C, Spelling;
      if v.isConst {
        Put(Spelling(KwConst));
        PutChar(' ');
      }
      match v {
        case Named(_, name) => Put(name);
        case Ptr(_, inner) =>
          Put(Spelling(KwPtr));
          PutChar('<');
          DecompileType(inner, C('>', k));
          PutChar('>');
        case Array(_, inner) =>
          Put(Spelling(KwArray));
          PutChar('<');
          DecompileType(inner, C('>', k));
          PutChar('>');
      }
    }

    /** The closing line of a declaration. */
    method Close(ghost k: Bytes)
      requires rest == PrintClose(k)
      modifies this
      ensures Total() == old(Total()) && rest == k
    {
      hide W, C, Indent;
      WriteIndent(2, C('}', C(';', C('\n', k))));
      PutChar('}');
      PutChar(';');
      PutChar('\n');
    }

    method DecompileStruct(v: Struct, ghost k: Bytes)
      requires rest == PrintStruct(v, k)
      modifies this
      ensures Total() == old(Total()) && rest == k
    {
      hide W, C, Indent, Spelling, PrintAnnotations, PrintType, PrintClose;
      DecompileAnnotations(v.annotations, 2, PrintBareStruct(v, k));
      ghost var close := PrintClose(k);
      ghost var fields := PrintStructFields(v.fields, close);
      WriteIndent(2, W(Spelling(KwStruct), C(' ', W(v.name, C(' ', C('{', C('\n', fields)))))));
      Put(Spelling(KwStruct));
      PutChar(' ');
      Put(v.name);
      PutChar(' ');
      PutChar('{');
      PutChar('\n');
      assert v.fields[0..] == v.fields;
      for i := 0 to |v.fields|
        invariant rest == PrintStructFields(v.fields[i..], close) && Total() == old(Total())
      {
        assert v.fields[i..][0] == v.fields[i] && v.fields[i..][1..] == v.fields[i + 1..];
        ghost var next := PrintStructFields(v.fields[i + 1..], close);
        ghost var named := C(' ', W(v.fields[i].name, C(';', C('\n', next))));
        WriteIndent(3, PrintType(v.fields[i].ty, named));
        DecompileType(v.fields[i].ty, named);
        PutChar(' ');
        Put(v.fields[i].name);
        PutChar(';');
        PutChar('\n');
      }
      Close(k);
    }

    /** `keyword<type> name {`. */
    method DecompileTypedHead(keyword: Keyword, ty: Type, name: Bytes, ghost k: Bytes)
      requires rest == PrintTypedHead(keyword, ty, name, k)
      modifies this
      ensures Total() == old(Total()) && rest == k
    {
      hide W, C, Indent, Spelling, PrintType;
      ghost var named := C('>', C(' ', W(name, C(' ', C('{', C('\n', k))))));
      WriteIndent(2, W(Spelling(keyword), C('<', PrintType(ty, named))));
      Put(Spelling(keyword));
      PutChar('<');
      DecompileType(ty, named);
      PutChar('>');
      PutChar(' ');
      Put(name);
      PutChar(' ');
      PutChar('{');
      PutChar('\n');
    }

    method DecompileBitfield(v: Bitfield, ghost k: Bytes)
      requires rest == PrintBitfield(v, k)
      modifies this
      ensures Total() == old(Total()) && rest == k
    {
      hide W, C, Indent, Decimal, PrintAnnotations, PrintTypedHead, PrintClose;
      DecompileAnnotations(v.annotations, 2, PrintBareBitfield(v, k));
      ghost var close := PrintClose(k);
      DecompileTypedHead(KwBitfield, v.baseType, v.name, PrintBitfieldFields(v.fields, close));
      assert v.fields[0..] == v.fields;
      for i := 0 to |v.fields|
        invariant rest == PrintBitfieldFields(v.fields[i..], close) && Total() == old(Total())
      {
        assert v.fields[i..][0] == v.fields[i] && v.fields[i..][1..] == v.fields[i + 1..];
        var f := v.fields[i];
        ghost var next := PrintBitfieldFields(v.fields[i + 1..], close);
        WriteIndent(3, W(f.name, C(' ', C(':', C(' ', W(Decimal(f.bits), C(';', C('\n', next))))))));
        Put(f.name);
        PutChar(' ');
        PutChar(':');
        PutChar(' ');
        Put(Decimal(f.bits));
        PutChar(';');
        PutChar('\n');
      }
      Close(k);
    }

    method DecompileEnumMember(v: EnumMember, ghost k: Bytes)
      requires rest == PrintEnumMember(v, k)
      modifies this
      ensures Total() == old(Total()) && rest == k
    {
      hide W, C, Indent, Decimal, PrintAnnotations;
      ghost var named := W(v.name, C(' ', C('=', C(' ', W(Decimal(v.value), k)))));
      DecompileAnnotations(v.annotations, 3, Indent(3, named));
      WriteIndent(3, named);
      Put(v.name);
      PutChar(' ');
      PutChar('=');
      PutChar(' ');
      Put(Decimal(v.value));
    }

    method DecompileEnum(v: Enum, ghost k: Bytes)
      requires rest == PrintEnum(v, k)
      modifies this
      ensures Total() == old(Total()) && rest == k
    {
      hide W, C, PrintAnnotations, PrintTypedHead, PrintClose, PrintEnumMember;
      DecompileAnnotations(v.annotations, 2, PrintBareEnum(v, k));
      ghost var close := PrintClose(k);
      DecompileTypedHead(KwEnum, v.baseType, v.name, PrintEnumMembers(v.members, close));
      assert v.members[0..] == v.members;
      for i := 0 to |v.members|
        invariant rest == PrintEnumMembers(v.members[i..], close) && Total() == old(Total())
      {
        assert v.members[i..][0] == v.members[i] && v.members[i..][1..] == v.members[i + 1..];
        ghost var more := PrintEnumMembers(v.members[i + 1..], close);
        DecompileEnumMember(v.members[i], if i + 1 == |v.members| then C('\n', close) else C(',', C('\n', more)));
        if i + 1 < |v.members| { PutChar(','); }
        PutChar('\n');
      }
      Close(k);
    }

    method DecompileParameter(v: Parameter, ghost k: Bytes)
      requires rest == PrintParameter(v, k)
      modifies this
      ensures Total() == old(Total()) && rest == k
    {
      hide W, C, Spelling, PrintAnnotation, PrintType;
      ghost var named := C(' ', W(v.name, k));
      ghost var typed := W(Spelling(DirectionWord(v.direction)), C(' ', PrintType(v.ty, named)));
      assert v.annotations[0..] == v.annotations;
      for i := 0 to |v.annotations|
        invariant rest == PrintInlineAnnotations(v.annotations[i..], typed) && Total() == old(Total())
      {
        assert v.annotations[i..][0] == v.annotations[i] && v.annotations[i..][1..] == v.annotations[i + 1..];
        DecompileAnnotation(v.annotations[i], C(' ', PrintInlineAnnotations(v.annotations[i + 1..], typed)));
        PutChar(' ');
      }
      Put(Spelling(DirectionWord(v.direction)));
      PutChar(' ');
      DecompileType(v.ty, named);
      PutChar(' ');
      Put(v.name);
    }

    method DecompileFunction(v: Function, ghost k: Bytes)
      requires rest == PrintFunction(v, k)
      modifies this
      ensures Total() == old(Total()) && rest == k
    {
      hide W, C, Spelling, PrintAnnotations, PrintParameter, Indent;
      DecompileAnnotations(v.annotations, 2, PrintBareFunction(v, k));
      ghost var close := C(')', C(';', C('\n', k)));
      WriteIndent(2, W(Spelling(KwFunction), C(' ', W(v.name, C('(', PrintParameters(v.parameters, close))))));
      Put(Spelling(KwFunction));
      PutChar(' ');
      Put(v.name);
      PutChar('(');
      assert v.parameters[0..] == v.parameters;
      for i := 0 to |v.parameters|
        invariant rest == PrintParameters(v.parameters[i..], close) && Total() == old(Total())
      {
        assert v.parameters[i..][0] == v.parameters[i] && v.parameters[i..][1..] == v.parameters[i + 1..];
        ghost var more := PrintParameters(v.parameters[i + 1..], close);
        DecompileParameter(v.parameters[i], if i + 1 == |v.parameters| then close else C(',', C(' ', more)));
        if i + 1 < |v.parameters| {
          PutChar(',');
          PutChar(' ');
        }
      }
      PutChar(')');
      PutChar(';');
      PutChar('\n');
    }

    /** The loop over the bitfields of a revision; a blank line stands before each but the first
        declaration. */
    method DecompileBitfields(vs: seq<Bitfield>, blank: bool, ghost k: Bytes) returns (needsBlank: bool)
      requires rest == PrintMany(PrintBitfield, vs, blank, k)
      modifies this
      ensures Total() == old(Total()) && rest == k && needsBlank == (blank || vs != [])
    {
      hide C, PrintBitfield;
      needsBlank := blank;
      assert vs[0..] == vs;
      for i := 0 to |vs|
        invariant rest == PrintMany(PrintBitfield, vs[i..], needsBlank, k) && Total() == old(Total())
        invariant needsBlank == (blank || i > 0)
      {
        assert vs[i..][0] == vs[i] && vs[i..][1..] == vs[i + 1..];
        if needsBlank { PutChar('\n'); }
        DecompileBitfield(vs[i], PrintMany(PrintBitfield, vs[i + 1..], true, k));
        needsBlank := true;
      }
    }

    /** The loop over the enums of a revision; a blank line stands before each but the first
        declaration. */
    method DecompileEnums(vs: seq<Enum>, blank: bool, ghost k: Bytes) returns (needsBlank: bool)
      requires rest == PrintMany(PrintEnum, vs, blank, k)
      modifies this
      ensures Total() == old(Total()) && rest == k && needsBlank == (blank || vs != [])
    {
      hide C, PrintEnum;
      needsBlank := blank;
      assert vs[0..] == vs;
      for i := 0 to |vs|
        invariant rest == PrintMany(PrintEnum, vs[i..], needsBlank, k) && Total() == old(Total())
        invariant needsBlank == (blank || i > 0)
      {
        assert vs[i..][0] == vs[i] && vs[i..][1..] == vs[i + 1..];
        if needsBlank { PutChar('\n'); }
        DecompileEnum(vs[i], PrintMany(PrintEnum, vs[i + 1..], true, k));
        needsBlank := true;
      }
    }

    /** The loop over the structs of a revision; a blank line stands before each but the first
        declaration. */
    method DecompileStructs(vs: seq<Struct>, blank: bool, ghost k: Bytes) returns (needsBlank: bool)
      requires rest == PrintMany(PrintStruct, vs, blank, k)
      modifies this
      ensures Total() == old(Total()) && rest == k && needsBlank == (blank || vs != [])
    {
      hide C, PrintStruct;
      needsBlank := blank;
      assert vs[0..] == vs;
      for i := 0 to |vs|
        invariant rest == PrintMany(PrintStruct, vs[i..], needsBlank, k) && Total() == old(Total())
        invariant needsBlank == (blank || i > 0)
      {
        assert vs[i..][0] == vs[i] && vs[i..][1..] == vs[i + 1..];
        if needsBlank { PutChar('\n'); }
        DecompileStruct(vs[i], PrintMany(PrintStruct, vs[i + 1..], true, k));
        needsBlank := true;
      }
    }

    /** The loop over the functions of a revision; a blank line stands before each but the first
        declaration. */
    method DecompileFunctions(vs: seq<Function>, blank: bool, ghost k: Bytes) returns (needsBlank: bool)
      requires rest == PrintMany(PrintFunction, vs, blank, k)
      modifies this
      ensures Total() == old(Total()) && rest == k && needsBlank == (blank || vs != [])
    {
      hide C, PrintFunction;
      needsBlank := blank;
      assert vs[0..] == vs;
      for i := 0 to |vs|
        invariant rest == PrintMany(PrintFunction, vs[i..], needsBlank, k) && Total() == old(Total())
        invariant needsBlank == (blank || i > 0)
      {
        assert vs[i..][0] == vs[i] && vs[i..][1..] == vs[i + 1..];
        if needsBlank { PutChar('\n'); }
        DecompileFunction(vs[i], PrintMany(PrintFunction, vs[i + 1..], true, k));
        needsBlank := true;
      }
    }

    method DecompileAbirevision(v: Revision, ghost k: Bytes)
      requires rest == PrintRevision(v, k)
      modifies this
      ensures Total() == old(Total()) && rest == k
    {
      hide W, C, Spelling, Decimal, Indent, PrintAnnotations, PrintBitfield, PrintEnum, PrintStruct, PrintFunction,
           PrintMany;
      ghost var b1 := v.bitfields != [];
      ghost var b2 := b1 || v.enums != [];
      ghost var b3 := b2 || v.structs != [];
      ghost var end := Indent(1, C('}', C('\n', k)));
      ghost var functions := PrintMany(PrintFunction, v.functions, b3, end);
      ghost var structs := PrintMany(PrintStruct, v.structs, b2, functions);
      ghost var enums := PrintMany(PrintEnum, v.enums, b1, structs);
      ghost var bitfields := PrintMany(PrintBitfield, v.bitfields, false, enums);
      ghost var head := W(Spelling(KwAbirevision), C(' ', W(Decimal(v.version), C(' ', C('{', C('\n', bitfields))))));
      DecompileAnnotations(v.annotations, 1, Indent(1, head));
      WriteIndent(1, head);
      Put(Spelling(KwAbirevision));
      PutChar(' ');
      Put(Decimal(v.version));
      PutChar(' ');
      PutChar('{');
      PutChar('\n');
      var needsBlank := DecompileBitfields(v.bitfields, false, enums);
      needsBlank := DecompileEnums(v.enums, needsBlank, structs);
      needsBlank := DecompileStructs(v.structs, needsBlank, functions);
      needsBlank := DecompileFunctions(v.functions, needsBlank, end);
      WriteIndent(1, C('}', C('\n', k)));
      PutChar('}');
      PutChar('\n');
    }

    /** The `@uuid` and `@prefix` lines. */
    method DecompileMetadata(i: Interface, ghost k: Bytes)
      requires rest == PrintMetadata(i, k)
      modifies this
      ensures Total() == old(Total()) && rest == k
    {
      hide W, C, Quote, UuidText.UuidString;
      var uuid := UuidText.ToString(i.uuidNamespace);
      PutChar('@');
      Put(UUID_NAME);
      PutChar('(');
      Put(Quote(uuid));
      PutChar(',');
      PutChar(' ');
      Put(Quote(i.uuidName));
      PutChar(')');
      PutChar('\n');
      PutChar('@');
      Put(PREFIX_NAME);
      PutChar('(');
      Put(Quote(i.prefix));
      PutChar(')');
      PutChar('\n');
    }

    /** `sif_decompile` of an interface with its identity. */
    method DecompileInterface(i: Interface)
      requires rest == PrintInterface(i, [])
      modifies this
      ensures Total() == old(Total()) && rest == []
    {
      hide W, C, Spelling, PrintAnnotations, PrintRevision, PrintMetadata, PrintInterface;
      InterfaceByMetadata(i, []);
      ghost var end := C('}', C('\n', []));
      ghost var revisions := PrintMany(PrintRevision, i.revisions, false, end);
      ghost var body := W(Spelling(KwInterface), C(' ', W(i.name, C(' ', C('{', C('\n', revisions))))));
      DecompileMetadata(i, PrintAnnotations(i.annotations, 0, body));
      DecompileAnnotations(i.annotations, 0, body);
      Put(Spelling(KwInterface));
      PutChar(' ');
      Put(i.name);
      PutChar(' ');
      PutChar('{');
      PutChar('\n');
      assert i.revisions[0..] == i.revisions;
      for j := 0 to |i.revisions|
        invariant rest == PrintMany(PrintRevision, i.revisions[j..], j > 0, end) && Total() == old(Total())
      {
        assert i.revisions[j..][0] == i.revisions[j] && i.revisions[j..][1..] == i.revisions[j + 1..];
        if j != 0 { PutChar('\n'); }
        DecompileAbirevision(i.revisions[j], PrintMany(PrintRevision, i.revisions[j + 1..], true, end));
      }
      PutChar('}');
      PutChar('\n');
    }
  }

  function PrintMetadata(i: Interface, k: Bytes): Bytes {
    C('@', W(UUID_NAME, C('(', W(Quote(UuidText.UuidString(i.uuidNamespace)), C(',', C(' ', W(Quote(i.uuidName),
      C(')', C('\n', C('@', W(PREFIX_NAME, C('(', W(Quote(i.prefix), C(')', C('\n', k)))))))))))))))
  }

  lemma InterfaceByMetadata(i: Interface, k: Bytes)
    ensures PrintInterface(i, k) ==
            PrintMetadata(i, PrintAnnotations(i.annotations, 0,
              W(Spelling(KwInterface), C(' ', W(i.name, C(' ', C('{', C('\n',
                PrintMany(PrintRevision, i.revisions, false, C('}', C('\n', k)))))))))))
  {
    hide W, C, Spelling, Quote, PrintAnnotations, PrintMany, UuidText.UuidString;
  }

  /** `command_decompile`, from the octets of the artifact to the text. */
  method CommandDecompile(b: Bytes) returns (r: Result<Bytes, SifError>)
    ensures r == Decompile(LINKED, b)
  {
    hide SifRead, PrintInterface;
    var i :- SifFiles.ReadFile(b);
    if !i.hasUuid { return Err(NoUuid); }
    if !i.hasPrefix { return Err(NoPrefix); }
    var d := new Decompiler(PrintInterface(i, []));
    d.DecompileInterface(i);
    assert d.Total() == d.out;
    r := Ok(d.out);
  }
}
