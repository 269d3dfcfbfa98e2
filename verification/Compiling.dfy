/** The compile command (core/main.cc): metadata normalisation, the checks on an extension, and the
    artifacts that `compile` and `compile -b` produce. */
module Compiling {
  import opened Octets
  import opened Ast
  import opened SifFormat
  import opened SifArtifact
  import opened Lexing
  import opened Parsing
  import opened Printing
  import opened UuidText

  datatype CompileError =
    | Parse(parse: ParseError)
    | DuplicateUuid | DuplicatePrefix | BadUuidArguments | BadPrefixArguments
    | NotAStringLiteral | InvalidNamespace | MissingUuid | MissingPrefix
    | NameMismatch | UuidMismatch | PrefixMismatch | AnnotationMismatch
    | Base(base: SifError) | Write(write: SifError)

  // ---------------------------------------------------------------- interface metadata

  const UUID_NAME: Bytes := "uuid"
  const PREFIX_NAME: Bytes := "prefix"

  /** `get_string_literal_arg`: the text between the quotes. */
  function LiteralArgument(v: Expression): Result<Bytes, CompileError> {
    if !v.StringLiteral? then Err(NotAStringLiteral)
    else
      var s := v.value;
      if |s| < 2 || s[0] != '"' || s[|s| - 1] != '"' then Err(NotAStringLiteral)
      else Ok(s[1..|s| - 1])
  }

  function ReadUuid(i: Interface, a: Annotation): Result<Interface, CompileError> {
    if |a.args| != 2 then Err(BadUuidArguments)
    else
      var ns :- LiteralArgument(a.args[0]);
      var name :- LiteralArgument(a.args[1]);
      match UuidOf(ns)
      case None => Err(InvalidNamespace)
      case Some(u) => Ok(i.(uuidNamespace := u, uuidName := name, hasUuid := true))
  }

  function ReadPrefix(i: Interface, a: Annotation): Result<Interface, CompileError> {
    if |a.args| != 1 then Err(BadPrefixArguments)
    else
      var prefix :- LiteralArgument(a.args[0]);
      Ok(i.(prefix := prefix, hasPrefix := true))
  }

  /** The loop of `normalize_interface_metadata` over the annotations `todo`. */
  function NormaliseFrom(
    i: Interface, todo: seq<Annotation>, foundUuid: bool, foundPrefix: bool, remaining: seq<Annotation>)
    : Result<Interface, CompileError>
    decreases |todo|
  {
    if todo == [] then
      if !foundUuid then Err(MissingUuid)
      else if !foundPrefix then Err(MissingPrefix)
      else Ok(i.(annotations := remaining))
    else
      var a := todo[0];
      if a.name == UUID_NAME then
        if foundUuid then Err(DuplicateUuid)
        else
          var j :- ReadUuid(i, a);
          NormaliseFrom(j, todo[1..], true, foundPrefix, remaining)
      else if a.name == PREFIX_NAME then
        if foundPrefix then Err(DuplicatePrefix)
        else
          var j :- ReadPrefix(i, a);
          NormaliseFrom(j, todo[1..], foundUuid, true, remaining)
      else NormaliseFrom(i, todo[1..], foundUuid, foundPrefix, remaining + [a])
  }

  function Normalise(i: Interface): Result<Interface, CompileError> {
    NormaliseFrom(i, i.annotations, false, false, [])
  }

  // ---------------------------------------------------------------- extension checks

  function ExpressionKey(v: Expression): Bytes {
    match v
    case StringLiteral(value) => "s:" + value
    case NumberLiteral(number) => "n:" + Decimal(number)
    case Identifier(name) => "i:" + name
  }

  function ArgumentsKey(vs: seq<Expression>): Bytes {
    if vs == [] then []
    else ExpressionKey(vs[0]) + (if |vs| == 1 then [] else [','] + ArgumentsKey(vs[1..]))
  }

  function AnnotationKey(v: Annotation): Bytes { v.name + ['('] + ArgumentsKey(v.args) + [')'] }

  function AnnotationsKey(vs: seq<Annotation>): Bytes {
    if vs == [] then [] else AnnotationKey(vs[0]) + ['\n'] + AnnotationsKey(vs[1..])
  }

  /** `validate_extension_interface`. */
  function Validate(base: Interface, extension: Interface): Option<CompileError> {
    if base.name != extension.name then Some(NameMismatch)
    else if !base.hasUuid || !extension.hasUuid || base.uuidNamespace != extension.uuidNamespace
            || base.uuidName != extension.uuidName then Some(UuidMismatch)
    else if !base.hasPrefix || !extension.hasPrefix || base.prefix != extension.prefix then Some(PrefixMismatch)
    else if AnnotationsKey(base.annotations) != AnnotationsKey(extension.annotations) then Some(AnnotationMismatch)
    else None
  }

  // ---------------------------------------------------------------- the command

  /** `parse_interface_file`, from the text of the file. */
  function ParseSource(source: Bytes, firstRevision: u64, firstFuncid: u32): Result<Interface, CompileError> {
    match ParseInterface(Lexing.Tokens(source), firstRevision, firstFuncid)
    case Err(e) => Err(Parse(e))
    case Ok(i) => Normalise(i)
  }

  function WriteOrError(cr: Crypto, i: Interface, extensions: seq<Interface>): Result<Bytes, CompileError> {
    match SifWrite(cr, i, extensions)
    case Err(e) => Err(Write(e))
    case Ok(b) => Ok(b)
  }

  /** `compile source`. */
  function Compile(cr: Crypto, source: Bytes): Result<Bytes, CompileError> {
    var i :- ParseSource(source, 0, 0);
    WriteOrError(cr, i, [])
  }

  /** `compile -b base source`. */
  function Extend(cr: Crypto, base: Bytes, source: Bytes): Result<Bytes, CompileError> {
    match SifRead(cr, base)
    case Err(e) => Err(Base(e))
    case Ok(i) =>
      var j :- ParseSource(source, |i.revisions| % TWO64, i.currentFuncid);
      match Validate(i, j)
      case Some(e) => Err(e)
      case None => WriteOrError(cr, i, [j])
  }

  /** `decompile`. */
  function Decompile(cr: Crypto, b: Bytes): Result<Bytes, SifError> {
    var i :- SifRead(cr, b);
    if !i.hasUuid then Err(NoUuid)
    else if !i.hasPrefix then Err(NoPrefix)
    else Ok(PrintInterface(i, []))
  }
}
