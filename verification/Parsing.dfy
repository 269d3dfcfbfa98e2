/** The recursive-descent grammar (lang/parser.cc) as functions over the token list, together with
    what every parsed value satisfies: it can be printed again. */
module Parsing {
  import opened Octets
  import opened Ast
  import opened Lexing

  type Tokens = seq<Token>

  /** `Unexpected` is the handled error of the source; `BadNumber` is the `std::stoull` failure
      that its handler does not catch. */
  datatype ParseError = Unexpected | BadNumber | NotContiguousRevision

  type Parsed<+T> = Result<(T, Tokens), ParseError>

  function Peek(ts: Tokens): Token { if ts == [] then Eof else ts[0] }

  function Consume(ts: Tokens, t: Token): (r: Result<Tokens, ParseError>)
    ensures r.Ok? ==> |r.value| < |ts| && ts == [t] + r.value
  {
    if ts != [] && ts[0] == t then Ok(ts[1..]) else Err(Unexpected)
  }

  function ParseIdentifier(ts: Tokens): (r: Parsed<IdentifierText>)
    ensures r.Ok? ==> |r.value.1| < |ts|
  {
    if Peek(ts).Ident? then Ok((ts[0].name, ts[1..])) else Err(Unexpected)
  }

  /** The value of a digit string, most significant digit first. */
  function Value(digits: Bytes): nat
    requires forall c <- digits :: IsDigit(c)
  {
    if digits == [] then 0
    else
      assert IsDigit(digits[|digits| - 1]);
      Value(digits[..|digits| - 1]) * 10 + (digits[|digits| - 1] as int - '0' as int)
  }

  /** `std::stoull` in base 10: the longest digit prefix, which must be present and below 2^64. */
  function Stoull(text: Bytes): Result<u64, ParseError> {
    var n := Span(IsDigit, text);
    if n == 0 then Err(BadNumber)
    else
      var v := Value(text[..n]);
      if v >= TWO64 then Err(BadNumber) else Ok(v)
  }

  function ParseNumber(ts: Tokens): (r: Parsed<u64>)
    ensures r.Ok? ==> |r.value.1| < |ts|
  {
    if Peek(ts).Number? then
      var v :- Stoull(ts[0].digits);
      Ok((v, ts[1..]))
    else Err(Unexpected)
  }

  // ---------------------------------------------------------------- printable values

  predicate PrintableExpression(v: Expression) {
    match v
    case StringLiteral(value) => IsQuoted(value)
    case NumberLiteral(_) => true
    case Identifier(name) => IsIdentifier(name)
  }

  predicate PrintableAnnotation(v: Annotation) {
    IsIdentifier(v.name) && forall a <- v.args :: PrintableExpression(a)
  }

  predicate PrintableAnnotations(v: seq<Annotation>) { forall a <- v :: PrintableAnnotation(a) }

  predicate PrintableType(v: Type) {
    match v
    case Named(_, name) => IsIdentifier(name)
    case Ptr(_, inner) => PrintableType(inner)
    case Array(_, inner) => PrintableType(inner)
  }

  predicate PrintableParameter(v: Parameter) {
    PrintableAnnotations(v.annotations) && PrintableType(v.ty) && IsIdentifier(v.name)
  }

  predicate PrintableFunction(v: Function) {
    && IsIdentifier(v.name) && PrintableAnnotations(v.annotations)
    && forall p <- v.parameters :: PrintableParameter(p)
  }

  predicate PrintableStructField(v: StructField) { PrintableType(v.ty) && IsIdentifier(v.name) }

  predicate PrintableStruct(v: Struct) {
    && IsIdentifier(v.name) && PrintableAnnotations(v.annotations)
    && forall f <- v.fields :: PrintableStructField(f)
  }

  predicate PrintableBitfieldField(v: BitfieldField) { IsIdentifier(v.name) }

  predicate PrintableBitfield(v: Bitfield) {
    && IsIdentifier(v.name) && PrintableAnnotations(v.annotations) && PrintableType(v.baseType)
    && forall f <- v.fields :: PrintableBitfieldField(f)
  }

  predicate PrintableEnumMember(v: EnumMember) {
    IsIdentifier(v.name) && PrintableAnnotations(v.annotations)
  }

  predicate PrintableEnum(v: Enum) {
    && IsIdentifier(v.name) && PrintableAnnotations(v.annotations) && PrintableType(v.baseType)
    && forall m <- v.members :: PrintableEnumMember(m)
  }

  predicate PrintableRevision(v: Revision) {
    && v.annotations == []
    && (forall b <- v.bitfields :: PrintableBitfield(b))
    && (forall e <- v.enums :: PrintableEnum(e))
    && (forall s <- v.structs :: PrintableStruct(s))
    && (forall f <- v.functions :: PrintableFunction(f))
  }

  // ---------------------------------------------------------------- annotations

  function ParseExpression(ts: Tokens): (r: Parsed<Expression>)
    ensures r.Ok? ==> |r.value.1| < |ts| && PrintableExpression(r.value.0)
  {
    match Peek(ts)
    case Ident(name) => Ok((Identifier(name), ts[1..]))
    case Text(quoted) => Ok((StringLiteral(quoted), ts[1..]))
    case Number(_) =>
      var (v, ts1) :- ParseNumber(ts);
      Ok((NumberLiteral(v), ts1))
    case _ => Err(Unexpected)
  }

  /** After an item of a comma-separated list: the closing token, or a comma before the next item. */
  function SkipComma(ts: Tokens, close: Token): (r: Result<Tokens, ParseError>)
    ensures r.Ok? ==> |r.value| <= |ts|
  {
    if Peek(ts) == close then Ok(ts) else Consume(ts, Punct(','))
  }

  function ParseArguments(ts: Tokens): (r: Parsed<seq<Expression>>)
    ensures r.Ok? ==> |r.value.1| <= |ts| && forall a <- r.value.0 :: PrintableExpression(a)
    decreases |ts|
  {
    if Peek(ts) == Punct(')') then Ok(([], ts))
    else
      var (v, ts1) :- ParseExpression(ts);
      var ts2 :- SkipComma(ts1, Punct(')'));
      var (vs, ts3) :- ParseArguments(ts2);
      Ok(([v] + vs, ts3))
  }

  function ParseAnnotation(ts: Tokens): (r: Parsed<Annotation>)
    ensures r.Ok? ==> |r.value.1| < |ts| && PrintableAnnotation(r.value.0)
  {
    var ts1 :- Consume(ts, Punct('@'));
    var (name, ts2) :- ParseIdentifier(ts1);
    var ts3 :- Consume(ts2, Punct('('));
    var (args, ts4) :- ParseArguments(ts3);
    var ts5 :- Consume(ts4, Punct(')'));
    Ok((Annotation(name, args), ts5))
  }

  function ParseAnnotations(ts: Tokens): (r: Parsed<seq<Annotation>>)
    ensures r.Ok? ==> |r.value.1| <= |ts| && PrintableAnnotations(r.value.0)
    decreases |ts|
  {
    if Peek(ts) != Punct('@') then Ok(([], ts))
    else
      var (v, ts1) :- ParseAnnotation(ts);
      var (vs, ts2) :- ParseAnnotations(ts1);
      Ok(([v] + vs, ts2))
  }

  // ---------------------------------------------------------------- types and parameters

  function ParseType(ts: Tokens): (r: Parsed<Type>)
    ensures r.Ok? ==> |r.value.1| < |ts| && PrintableType(r.value.0)
    decreases |ts|, 1
  {
    if Peek(ts) == Reserved(KwConst) then ParsePlainType(ts[1..], true) else ParsePlainType(ts, false)
  }

  function ParsePlainType(ts: Tokens, isConst: bool): (r: Parsed<Type>)
    ensures r.Ok? ==> |r.value.1| < |ts| && PrintableType(r.value.0)
    decreases |ts|, 0
  {
    if Peek(ts) == Reserved(KwPtr) then
      var (inner, ts1) :- ParseInnerType(ts);
      Ok((Ptr(isConst, inner), ts1))
    else if Peek(ts) == Reserved(KwArray) then
      var (inner, ts1) :- ParseInnerType(ts);
      Ok((Array(isConst, inner), ts1))
    else
      var (name, ts1) :- ParseIdentifier(ts);
      Ok((Named(isConst, name), ts1))
  }

  /** `<type>` behind the `ptr` or `array` keyword that `ts` starts with. */
  function ParseInnerType(ts: Tokens): (r: Parsed<Type>)
    requires ts != []
    ensures r.Ok? ==> |r.value.1| < |ts| && PrintableType(r.value.0)
    decreases |ts|, -1
  {
    var ts1 :- Consume(ts[1..], Punct('<'));
    var (inner, ts2) :- ParseType(ts1);
    var ts3 :- Consume(ts2, Punct('>'));
    Ok((inner, ts3))
  }

  function ParseDirection(ts: Tokens): (r: Parsed<Direction>)
    ensures r.Ok? ==> |r.value.1| < |ts|
  {
    if Peek(ts) == Reserved(KwInout) then Ok((InOut, ts[1..]))
    else if Peek(ts) == Reserved(KwIn) then Ok((In, ts[1..]))
    else if Peek(ts) == Reserved(KwOut) then Ok((Out, ts[1..]))
    else Err(Unexpected)
  }

  function ParseParameter(ts: Tokens): (r: Parsed<Parameter>)
    ensures r.Ok? ==> |r.value.1| < |ts| && PrintableParameter(r.value.0)
  {
    var (annotations, ts1) :- ParseAnnotations(ts);
    var (direction, ts2) :- ParseDirection(ts1);
    var (ty, ts3) :- ParseType(ts2);
    var (name, ts4) :- ParseIdentifier(ts3);
    Ok((Parameter(direction, annotations, ty, name), ts4))
  }

  function ParseParameters(ts: Tokens): (r: Parsed<seq<Parameter>>)
    ensures r.Ok? ==> |r.value.1| <= |ts| && forall p <- r.value.0 :: PrintableParameter(p)
    decreases |ts|
  {
    if Peek(ts) == Punct(')') then Ok(([], ts))
    else
      var (v, ts1) :- ParseParameter(ts);
      var ts2 :- SkipComma(ts1, Punct(')'));
      var (vs, ts3) :- ParseParameters(ts2);
      Ok(([v] + vs, ts3))
  }

  // ---------------------------------------------------------------- declarations

  /** The annotations of a declaration are parsed before it and attached by the revision. */
  function ParseStruct(ts: Tokens, annotations: seq<Annotation>): (r: Parsed<Struct>)
    ensures r.Ok? && PrintableAnnotations(annotations) ==> PrintableStruct(r.value.0)
    ensures r.Ok? ==> |r.value.1| < |ts|
  {
    var ts1 :- Consume(ts, Reserved(KwStruct));
    var (name, ts2) :- ParseIdentifier(ts1);
    var ts3 :- Consume(ts2, Punct('{'));
    var (fields, ts4) :- ParseStructFields(ts3);
    var ts5 :- Consume(ts4, Punct('}'));
    var ts6 :- Consume(ts5, Punct(';'));
    Ok((Struct(name, annotations, fields), ts6))
  }

  function ParseStructField(ts: Tokens): (r: Parsed<StructField>)
    ensures r.Ok? ==> |r.value.1| < |ts| && PrintableStructField(r.value.0)
  {
    var (ty, ts1) :- ParseType(ts);
    var (name, ts2) :- ParseIdentifier(ts1);
    var ts3 :- Consume(ts2, Punct(';'));
    Ok((StructField(ty, name), ts3))
  }

  function ParseStructFields(ts: Tokens): (r: Parsed<seq<StructField>>)
    ensures r.Ok? ==> |r.value.1| <= |ts| && forall f <- r.value.0 :: PrintableStructField(f)
    decreases |ts|
  {
    if Peek(ts) == Punct('}') then Ok(([], ts))
    else
      var (v, ts1) :- ParseStructField(ts);
      var (vs, ts2) :- ParseStructFields(ts1);
      Ok(([v] + vs, ts2))
  }

  /** The `<type> name {` after the keyword of a bitfield or an enum. */
  function ParseTypedHead(ts: Tokens, keyword: Token): (r: Parsed<(Type, IdentifierText)>)
    ensures r.Ok? ==> |r.value.1| < |ts| && PrintableType(r.value.0.0)
  {
    var ts1 :- Consume(ts, keyword);
    var ts2 :- Consume(ts1, Punct('<'));
    var (ty, ts3) :- ParseType(ts2);
    var ts4 :- Consume(ts3, Punct('>'));
    var (name, ts5) :- ParseIdentifier(ts4);
    var ts6 :- Consume(ts5, Punct('{'));
    Ok(((ty, name), ts6))
  }

  function ParseBitfield(ts: Tokens, annotations: seq<Annotation>): (r: Parsed<Bitfield>)
    ensures r.Ok? && PrintableAnnotations(annotations) ==> PrintableBitfield(r.value.0)
    ensures r.Ok? ==> |r.value.1| < |ts|
  {
    var ((ty, name), ts1) :- ParseTypedHead(ts, Reserved(KwBitfield));
    var (fields, ts2) :- ParseBitfieldFields(ts1);
    var ts3 :- Consume(ts2, Punct('}'));
    var ts4 :- Consume(ts3, Punct(';'));
    Ok((Bitfield(name, annotations, ty, fields), ts4))
  }

  function ParseBitfieldField(ts: Tokens): (r: Parsed<BitfieldField>)
    ensures r.Ok? ==> |r.value.1| < |ts| && PrintableBitfieldField(r.value.0)
  {
    var (name, ts1) :- ParseIdentifier(ts);
    var ts2 :- Consume(ts1, Punct(':'));
    var (bits, ts3) :- ParseNumber(ts2);
    var ts4 :- Consume(ts3, Punct(';'));
    Ok((BitfieldField(name, bits), ts4))
  }

  function ParseBitfieldFields(ts: Tokens): (r: Parsed<seq<BitfieldField>>)
    ensures r.Ok? ==> |r.value.1| <= |ts| && forall f <- r.value.0 :: PrintableBitfieldField(f)
    decreases |ts|
  {
    if Peek(ts) == Punct('}') then Ok(([], ts))
    else
      var (v, ts1) :- ParseBitfieldField(ts);
      var (vs, ts2) :- ParseBitfieldFields(ts1);
      Ok(([v] + vs, ts2))
  }

  function ParseEnum(ts: Tokens, annotations: seq<Annotation>): (r: Parsed<Enum>)
    ensures r.Ok? && PrintableAnnotations(annotations) ==> PrintableEnum(r.value.0)
    ensures r.Ok? ==> |r.value.1| < |ts|
  {
    var ((ty, name), ts1) :- ParseTypedHead(ts, Reserved(KwEnum));
    var (members, ts2) :- ParseEnumMembers(ts1);
    var ts3 :- Consume(ts2, Punct('}'));
    var ts4 :- Consume(ts3, Punct(';'));
    Ok((Enum(name, annotations, ty, members), ts4))
  }

  function ParseEnumMember(ts: Tokens): (r: Parsed<EnumMember>)
    ensures r.Ok? ==> |r.value.1| < |ts| && PrintableEnumMember(r.value.0)
  {
    var (annotations, ts1) :- ParseAnnotations(ts);
    var (name, ts2) :- ParseIdentifier(ts1);
    var ts3 :- Consume(ts2, Punct('='));
    var (value, ts4) :- ParseNumber(ts3);
    Ok((EnumMember(name, value, annotations), ts4))
  }

  function ParseEnumMembers(ts: Tokens): (r: Parsed<seq<EnumMember>>)
    ensures r.Ok? ==> |r.value.1| <= |ts| && forall m <- r.value.0 :: PrintableEnumMember(m)
    decreases |ts|
  {
    if Peek(ts) == Punct('}') then Ok(([], ts))
    else
      var (v, ts1) :- ParseEnumMember(ts);
      var ts2 :- SkipComma(ts1, Punct('}'));
      var (vs, ts3) :- ParseEnumMembers(ts2);
      Ok(([v] + vs, ts3))
  }

  /** The parameters in parentheses, and the semicolon. */
  function ParseParameterList(ts: Tokens): (r: Parsed<seq<Parameter>>)
    ensures r.Ok? ==> |r.value.1| < |ts| && forall p <- r.value.0 :: PrintableParameter(p)
  {
    var ts1 :- Consume(ts, Punct('('));
    var (parameters, ts2) :- ParseParameters(ts1);
    var ts3 :- Consume(ts2, Punct(')'));
    var ts4 :- Consume(ts3, Punct(';'));
    Ok((parameters, ts4))
  }

  /** A function takes the interface's next id once its declaration is complete. */
  function ParseFunction(ts: Tokens, annotations: seq<Annotation>, id: u32): (r: Parsed<Function>)
    ensures r.Ok? && PrintableAnnotations(annotations) ==> PrintableFunction(r.value.0)
    ensures r.Ok? ==> |r.value.1| < |ts| && r.value.0.id == id
  {
    var ts1 :- Consume(ts, Reserved(KwFunction));
    var (name, ts2) :- ParseIdentifier(ts1);
    var (parameters, ts3) :- ParseParameterList(ts2);
    Ok((Function(id, name, annotations, parameters), ts3))
  }

  // ---------------------------------------------------------------- revisions and the interface

  function NextId(id: u32): u32 { (id + 1) % TWO32 }

  /** The loop over the items of a revision: `pending` annotations wait for the next declaration,
      `v` is the revision so far and `id` the next function id. Left-over annotations are dropped. */
  function ParseItems(ts: Tokens, pending: seq<Annotation>, v: Revision, id: u32)
    : (r: Parsed<(Revision, u32)>)
    ensures r.Ok? ==> |r.value.1| <= |ts|
    decreases |ts|
  {
    var t := Peek(ts);
    if t == Punct('}') then Ok(((v, id), ts))
    else if t == Punct('@') then
      var (a, ts1) :- ParseAnnotation(ts);
      ParseItems(ts1, pending + [a], v, id)
    else if t == Reserved(KwFunction) then
      var (f, ts1) :- ParseFunction(ts, pending, id);
      ParseItems(ts1, [], v.(functions := v.functions + [f]), NextId(id))
    else if t == Reserved(KwStruct) then
      var (d, ts1) :- ParseStruct(ts, pending);
      ParseItems(ts1, [], v.(structs := v.structs + [d]), id)
    else if t == Reserved(KwBitfield) then
      var (b, ts1) :- ParseBitfield(ts, pending);
      ParseItems(ts1, [], v.(bitfields := v.bitfields + [b]), id)
    else if t == Reserved(KwEnum) then
      var (e, ts1) :- ParseEnum(ts, pending);
      ParseItems(ts1, [], v.(enums := v.enums + [e]), id)
    else Err(Unexpected)
  }

  /** One step of `ParseItems`. */
  lemma {:induction false} ItemsUnfolded(ts: Tokens, pending: seq<Annotation>, v: Revision, id: u32)
    ensures Peek(ts) == Punct('}') ==> ParseItems(ts, pending, v, id) == Ok(((v, id), ts))
    ensures Peek(ts) == Punct('@') ==>
              ParseItems(ts, pending, v, id) ==
              match ParseAnnotation(ts)
              case Err(e) => Err(e)
              case Ok((a, ts1)) => ParseItems(ts1, pending + [a], v, id)
    ensures Peek(ts) == Reserved(KwFunction) ==>
              ParseItems(ts, pending, v, id) ==
              match ParseFunction(ts, pending, id)
              case Err(e) => Err(e)
              case Ok((f, ts1)) => ParseItems(ts1, [], v.(functions := v.functions + [f]), NextId(id))
    ensures Peek(ts) == Reserved(KwStruct) ==>
              ParseItems(ts, pending, v, id) ==
              match ParseStruct(ts, pending)
              case Err(e) => Err(e)
              case Ok((d, ts1)) => ParseItems(ts1, [], v.(structs := v.structs + [d]), id)
    ensures Peek(ts) == Reserved(KwBitfield) ==>
              ParseItems(ts, pending, v, id) ==
              match ParseBitfield(ts, pending)
              case Err(e) => Err(e)
              case Ok((b, ts1)) => ParseItems(ts1, [], v.(bitfields := v.bitfields + [b]), id)
    ensures Peek(ts) == Reserved(KwEnum) ==>
              ParseItems(ts, pending, v, id) ==
              match ParseEnum(ts, pending)
              case Err(e) => Err(e)
              case Ok((e, ts1)) => ParseItems(ts1, [], v.(enums := v.enums + [e]), id)
    ensures Peek(ts) !in {Punct('}'), Punct('@'), Reserved(KwFunction), Reserved(KwStruct), Reserved(KwBitfield),
                          Reserved(KwEnum)} ==>
              ParseItems(ts, pending, v, id) == Err(Unexpected)
  {
    hide ParseAnnotation, ParseFunction, ParseStruct, ParseBitfield, ParseEnum;
  }

  function EmptyRevision(version: u64): Revision { Revision(version, [], [], [], [], []) }

  function ParseRevision(ts: Tokens, id: u32): (r: Parsed<(Revision, u32)>)
    ensures r.Ok? ==> |r.value.1| < |ts|
  {
    var ts1 :- Consume(ts, Reserved(KwAbirevision));
    var (version, ts2) :- ParseNumber(ts1);
    var ts3 :- Consume(ts2, Punct('{'));
    var (body, ts4) :- ParseItems(ts3, [], EmptyRevision(version), id);
    var ts5 :- Consume(ts4, Punct('}'));
    Ok((body, ts5))
  }

  /** The revisions up to the closing brace, numbered from `next`. */
  function ParseRevisions(ts: Tokens, next: u64, id: u32): (r: Parsed<(seq<Revision>, u32)>)
    ensures r.Ok? ==> |r.value.1| <= |ts|
    decreases |ts|
  {
    if Peek(ts) == Punct('}') then Ok((([], id), ts))
    else
      var ((v, id1), ts1) :- ParseRevision(ts, id);
      if v.version != next then Err(NotContiguousRevision)
      else
        var ((vs, id2), ts2) :- ParseRevisions(ts1, (next + 1) % TWO64, id1);
        Ok((([v] + vs, id2), ts2))
  }

  /** The number that the `n`-th revision from `first` on must have. */
  function Expected(first: u64, n: nat): u64 { (first + n) % TWO64 }

  /** What a parse of revisions yields when `vs` stand before them. */
  ghost function BehindRevisions(vs: seq<Revision>, r: Parsed<(seq<Revision>, u32)>): Parsed<(seq<Revision>, u32)> {
    match r
    case Ok(((ws, id), ts)) => Ok(((vs + ws, id), ts))
    case Err(e) => Err(e)
  }

  lemma {:induction false} OneRevision(ts: Tokens, next: u64, id: u32)
    ensures Peek(ts) != Punct('}') ==>
              match ParseRevision(ts, id)
              case Err(e) => ParseRevisions(ts, next, id) == Err(e)
              case Ok(((v, id1), ts1)) =>
                ParseRevisions(ts, next, id) ==
                if v.version != next then Err(NotContiguousRevision)
                else BehindRevisions([v], ParseRevisions(ts1, Expected(next, 1), id1))
  {
    hide ParseRevision;
  }

  const NIL_UUID: Uuid := Zeros(16)

  /** A whole source. What follows the closing brace of the interface is not looked at. */
  function ParseInterface(ts: Tokens, firstRevision: u64, firstFuncid: u32): Result<Interface, ParseError> {
    var ((name, annotations), ts1) :- ParseHeader(ts);
    var ((revisions, id), ts2) :- ParseRevisions(ts1, firstRevision, firstFuncid);
    var _ :- Consume(ts2, Punct('}'));
    Ok(Interface(name, false, NIL_UUID, [], false, [], annotations, revisions, id))
  }

  /** Everything before the first revision. */
  function ParseHeader(ts: Tokens): (r: Parsed<(IdentifierText, seq<Annotation>)>)
    ensures r.Ok? ==> |r.value.1| < |ts| && PrintableAnnotations(r.value.0.1)
  {
    var (annotations, ts1) :- ParseAnnotations(ts);
    var ts2 :- Consume(ts1, Reserved(KwInterface));
    var (name, ts3) :- ParseIdentifier(ts2);
    var ts4 :- Consume(ts3, Punct('{'));
    Ok(((name, annotations), ts4))
  }

  // ---------------------------------------------------------------- everything parsed is printable

  lemma {:induction false} ItemsPrintable(ts: Tokens, pending: seq<Annotation>, v: Revision, id: u32)
    requires PrintableAnnotations(pending) && PrintableRevision(v)
    requires ParseItems(ts, pending, v, id).Ok?
    ensures PrintableRevision(ParseItems(ts, pending, v, id).value.0.0)
    decreases |ts|
  {
    hide PrintableAnnotation, PrintableFunction, PrintableStruct, PrintableBitfield, PrintableEnum,
         ParseAnnotation, ParseFunction, ParseStruct, ParseBitfield, ParseEnum;
    var t := Peek(ts);
    if t == Punct('}') {
    } else if t == Punct('@') {
      var (a, ts1) := ParseAnnotation(ts).value;
      ItemsPrintable(ts1, pending + [a], v, id);
    } else if t == Reserved(KwFunction) {
      var (f, ts1) := ParseFunction(ts, pending, id).value;
      ItemsPrintable(ts1, [], v.(functions := v.functions + [f]), NextId(id));
    } else if t == Reserved(KwStruct) {
      var (d, ts1) := ParseStruct(ts, pending).value;
      ItemsPrintable(ts1, [], v.(structs := v.structs + [d]), id);
    } else if t == Reserved(KwBitfield) {
      var (b, ts1) := ParseBitfield(ts, pending).value;
      ItemsPrintable(ts1, [], v.(bitfields := v.bitfields + [b]), id);
    } else {
      var (e, ts1) := ParseEnum(ts, pending).value;
      ItemsPrintable(ts1, [], v.(enums := v.enums + [e]), id);
    }
  }

  lemma {:induction false} RevisionsPrintable(ts: Tokens, next: u64, id: u32)
    requires ParseRevisions(ts, next, id).Ok?
    ensures forall v <- ParseRevisions(ts, next, id).value.0.0 :: PrintableRevision(v)
    decreases |ts|
  {
    hide ParseItems, PrintableRevision;
    if Peek(ts) != Punct('}') {
      var ((v, id1), ts1) := ParseRevision(ts, id).value;
      RevisionPrintable(ts, id);
      RevisionsPrintable(ts1, (next + 1) % TWO64, id1);
    }
  }

  lemma RevisionPrintable(ts: Tokens, id: u32)
    requires ParseRevision(ts, id).Ok?
    ensures PrintableRevision(ParseRevision(ts, id).value.0.0)
  {
    hide ParseItems;
    var (version, ts2) := ParseNumber(ts[1..]).value;
    ItemsPrintable(ts2[1..], [], EmptyRevision(version), id);
  }
}
