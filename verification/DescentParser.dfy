/** The parser object (lang/parser.cc): a current token replaced from the lexer, and loops that push
    the nodes they parse. Each method is proved against the grammar functions of module Parsing. */
module DescentParser {
  import opened Octets
  import opened Ast
  import opened Lexing
  import opened Parsing
  import opened Scanning
  import SifReading

  type Ts = seq<Token>

  /** The method returned `r` and left the tokens `after`, as the grammar function says. */
  ghost predicate Did<T>(r: Result<T, ParseError>, parsed: Parsed<T>, after: Ts) {
    match r
    case Ok(v) => parsed == Ok((v, after))
    case Err(e) => parsed == Err(e)
  }

  // ---------------------------------------------------------------- lists

  ghost function Behind<T>(vs: seq<T>, r: Parsed<seq<T>>): Parsed<seq<T>> {
    match r
    case Ok((ws, ts)) => Ok((vs + ws, ts))
    case Err(e) => Err(e)
  }

  /** `vs` have been parsed of a list that started at `start`, and `now` is left. */
  ghost predicate Inside<T>(list: Ts -> Parsed<seq<T>>, start: Ts, vs: seq<T>, now: Ts) {
    list(start) == Behind(vs, list(now))
  }

  lemma ListStart<T>(list: Ts -> Parsed<seq<T>>, start: Ts)
    ensures Inside(list, start, [], start)
  {
    if list(start).Ok? { assert [] + list(start).value.0 == list(start).value.0; }
  }

  lemma ListStep<T>(list: Ts -> Parsed<seq<T>>, start: Ts, vs: seq<T>, now: Ts, v: T, next: Ts)
    requires Inside(list, start, vs, now) && list(now) == Behind([v], list(next))
    ensures Inside(list, start, vs + [v], next)
  {
    if list(next).Ok? { assert vs + ([v] + list(next).value.0) == vs + [v] + list(next).value.0; }
  }

  lemma ListEnd<T>(list: Ts -> Parsed<seq<T>>, start: Ts, vs: seq<T>, now: Ts)
    requires Inside(list, start, vs, now) && list(now) == Ok(([], now))
    ensures list(start) == Ok((vs, now))
  {
    assert vs + [] == vs;
  }

  lemma ListFails<T>(list: Ts -> Parsed<seq<T>>, start: Ts, vs: seq<T>, now: Ts, e: ParseError)
    requires Inside(list, start, vs, now) && list(now) == Err(e)
    ensures list(start) == Err(e)
  {
  }

  lemma OneArgument(ts: Ts)
    ensures Peek(ts) == Punct(')') ==> ParseArguments(ts) == Ok(([], ts))
    ensures Peek(ts) != Punct(')') ==>
              match ParseExpression(ts)
              case Err(e) => ParseArguments(ts) == Err(e)
              case Ok((v, ts1)) =>
                match SkipComma(ts1, Punct(')'))
                case Err(e) => ParseArguments(ts) == Err(e)
                case Ok(ts2) => ParseArguments(ts) == Behind([v], ParseArguments(ts2))
  {
    hide ParseExpression, SkipComma;
  }

  lemma OneAnnotation(ts: Ts)
    ensures Peek(ts) != Punct('@') ==> ParseAnnotations(ts) == Ok(([], ts))
    ensures Peek(ts) == Punct('@') ==>
              match ParseAnnotation(ts)
              case Err(e) => ParseAnnotations(ts) == Err(e)
              case Ok((v, ts1)) => ParseAnnotations(ts) == Behind([v], ParseAnnotations(ts1))
  {
    hide ParseAnnotation;
  }

  lemma OneParameter(ts: Ts)
    ensures Peek(ts) == Punct(')') ==> ParseParameters(ts) == Ok(([], ts))
    ensures Peek(ts) != Punct(')') ==>
              match ParseParameter(ts)
              case Err(e) => ParseParameters(ts) == Err(e)
              case Ok((v, ts1)) =>
                match SkipComma(ts1, Punct(')'))
                case Err(e) => ParseParameters(ts) == Err(e)
                case Ok(ts2) => ParseParameters(ts) == Behind([v], ParseParameters(ts2))
  {
    hide ParseParameter, SkipComma;
  }

  lemma OneStructField(ts: Ts)
    ensures Peek(ts) == Punct('}') ==> ParseStructFields(ts) == Ok(([], ts))
    ensures Peek(ts) != Punct('}') ==>
              match ParseStructField(ts)
              case Err(e) => ParseStructFields(ts) == Err(e)
              case Ok((v, ts1)) => ParseStructFields(ts) == Behind([v], ParseStructFields(ts1))
  {
    hide ParseStructField;
  }

  lemma OneBitfieldField(ts: Ts)
    ensures Peek(ts) == Punct('}') ==> ParseBitfieldFields(ts) == Ok(([], ts))
    ensures Peek(ts) != Punct('}') ==>
              match ParseBitfieldField(ts)
              case Err(e) => ParseBitfieldFields(ts) == Err(e)
              case Ok((v, ts1)) => ParseBitfieldFields(ts) == Behind([v], ParseBitfieldFields(ts1))
  {
    hide ParseBitfieldField;
  }

  lemma OneEnumMember(ts: Ts)
    ensures Peek(ts) == Punct('}') ==> ParseEnumMembers(ts) == Ok(([], ts))
    ensures Peek(ts) != Punct('}') ==>
              match ParseEnumMember(ts)
              case Err(e) => ParseEnumMembers(ts) == Err(e)
              case Ok((v, ts1)) =>
                match SkipComma(ts1, Punct('}'))
                case Err(e) => ParseEnumMembers(ts) == Err(e)
                case Ok(ts2) => ParseEnumMembers(ts) == Behind([v], ParseEnumMembers(ts2))
  {
    hide ParseEnumMember, SkipComma;
  }

  // ---------------------------------------------------------------- the parser object

  class Parser {
    const lexer: Lexer
    var current: Placed
    const firstAbirevision: u64
    const firstFuncid: u32

    ghost predicate Valid()
      reads this, lexer
    {
      lexer.Valid() && (current.token.Eof? ==> lexer.pos == |lexer.source|)
    }

    /** The tokens from the current one on. */
    ghost function Ahead(): (ts: Ts)
      requires Valid()
      reads this, lexer
      ensures Peek(ts) == current.token
    {
      if current.token.Eof? then [] else [current.token] + Lexing.Tokens(lexer.source[lexer.pos..])
    }

    /** As the source, `parse` starts with reading the first token; here the constructor reads it. */
    constructor (source: Bytes, firstAbirevision: u64, firstFuncid: u32)
      ensures Valid() && Ahead() == Lexing.Tokens(source)
      ensures fresh(lexer) && this.firstAbirevision == firstAbirevision && this.firstFuncid == firstFuncid
    {
      var l := new Lexer(source);
      assert source[0..] == source;
      var first := l.NextToken();
      lexer := l;
      current := first;
      this.firstAbirevision := firstAbirevision;
      this.firstFuncid := firstFuncid;
    }

    method Advance()
      requires Valid() && Ahead() != []
      modifies this, lexer
      ensures Valid() && Ahead() == old(Ahead())[1..]
    {
      current := lexer.NextToken();
    }

    method Consume(t: Token) returns (r: Result<(), ParseError>)
      requires Valid() && t != Eof
      modifies this, lexer
      ensures Valid()
      ensures Parsing.Consume(old(Ahead()), t) == match r { case Ok(_) => Ok(Ahead()) case Err(e) => Err(e) }
    {
      if current.token != t { return Err(Unexpected); }
      Advance();
      r := Ok(());
    }

    method ParseIdentifier() returns (r: Result<IdentifierText, ParseError>)
      requires Valid()
      modifies this, lexer
      ensures Valid() && Did(r, Parsing.ParseIdentifier(old(Ahead())), Ahead())
    {
      if !current.token.Ident? { return Err(Unexpected); }
      r := Ok(current.token.name);
      Advance();
    }

    method ParseNumber() returns (r: Result<u64, ParseError>)
      requires Valid()
      modifies this, lexer
      ensures Valid() && Did(r, Parsing.ParseNumber(old(Ahead())), Ahead())
    {
      hide Stoull;
      if !current.token.Number? { return Err(Unexpected); }
      var v :- Stoull(current.token.digits);
      Advance();
      r := Ok(v);
    }

    method ParseExpression() returns (r: Result<Expression, ParseError>)
      requires Valid()
      modifies this, lexer
      ensures Valid() && Did(r, Parsing.ParseExpression(old(Ahead())), Ahead())
    {
      hide Stoull;
      match current.token {
        case Ident(name) =>
          Advance();
          r := Ok(Identifier(name));
        case Text(quoted) =>
          Advance();
          r := Ok(StringLiteral(quoted));
        case Number(_) =>
          var v :- ParseNumber();
          r := Ok(NumberLiteral(v));
        case _ =>
          r := Err(Unexpected);
      }
    }

    method SkipComma(close: Token) returns (r: Result<(), ParseError>)
      requires Valid()
      modifies this, lexer
      ensures Valid()
      ensures Parsing.SkipComma(old(Ahead()), close) == match r { case Ok(_) => Ok(Ahead()) case Err(e) => Err(e) }
    {
      if current.token == close { return Ok(()); }
      r := Consume(Punct(','));
    }

    method ParseArguments() returns (r: Result<seq<Expression>, ParseError>)
      requires Valid()
      modifies this, lexer
      ensures Valid() && Did(r, Parsing.ParseArguments(old(Ahead())), Ahead())
    {
      hide Parsing.ParseArguments, Parsing.ParseExpression, Parsing.SkipComma, Ahead, Inside;
      var vs := [];
      ghost var start := Ahead();
      ListStart(Parsing.ParseArguments, start);
      while current.token != Punct(')')
        invariant Valid() && Inside(Parsing.ParseArguments, start, vs, Ahead())
        decreases |Ahead()|
      {
        ghost var now := Ahead();
        OneArgument(now);
        var v := ParseExpression();
        if v.Err? { ListFails(Parsing.ParseArguments, start, vs, now, v.error); return Err(v.error); }
        var comma := SkipComma(Punct(')'));
        if comma.Err? { ListFails(Parsing.ParseArguments, start, vs, now, comma.error); return Err(comma.error); }
        ListStep(Parsing.ParseArguments, start, vs, now, v.value, Ahead());
        vs := vs + [v.value];
      }
      OneArgument(Ahead());
      ListEnd(Parsing.ParseArguments, start, vs, Ahead());
      r := Ok(vs);
    }

    method ParseAnnotation() returns (r: Result<Annotation, ParseError>)
      requires Valid()
      modifies this, lexer
      ensures Valid() && Did(r, Parsing.ParseAnnotation(old(Ahead())), Ahead())
    {
      hide Parsing.Consume, Parsing.ParseIdentifier, Parsing.ParseArguments, Ahead;
      var _ :- Consume(Punct('@'));
      var name :- ParseIdentifier();
      var _ :- Consume(Punct('('));
      var args :- ParseArguments();
      var _ :- Consume(Punct(')'));
      r := Ok(Annotation(name, args));
    }

    method ParseAnnotations() returns (r: Result<seq<Annotation>, ParseError>)
      requires Valid()
      modifies this, lexer
      ensures Valid() && Did(r, Parsing.ParseAnnotations(old(Ahead())), Ahead())
    {
      hide Parsing.ParseAnnotations, Parsing.ParseAnnotation, Ahead, Inside;
      var vs := [];
      ghost var start := Ahead();
      ListStart(Parsing.ParseAnnotations, start);
      while current.token == Punct('@')
        invariant Valid() && Inside(Parsing.ParseAnnotations, start, vs, Ahead())
        decreases |Ahead()|
      {
        ghost var now := Ahead();
        OneAnnotation(now);
        var v := ParseAnnotation();
        if v.Err? { ListFails(Parsing.ParseAnnotations, start, vs, now, v.error); return Err(v.error); }
        ListStep(Parsing.ParseAnnotations, start, vs, now, v.value, Ahead());
        vs := vs + [v.value];
      }
      OneAnnotation(Ahead());
      ListEnd(Parsing.ParseAnnotations, start, vs, Ahead());
      r := Ok(vs);
    }

    method ParseType() returns (r: Result<Type, ParseError>)
      requires Valid()
      modifies this, lexer
      ensures Valid() && Did(r, Parsing.ParseType(old(Ahead())), Ahead())
      decreases |Ahead()|, 1
    {
      hide Parsing.ParsePlainType, Ahead;
      if current.token == Reserved(KwConst) {
        assert Ahead() != [];
        Advance();
        r := ParsePlainType(true);
      } else {
        r := ParsePlainType(false);
      }
    }

    method ParsePlainType(isConst: bool) returns (r: Result<Type, ParseError>)
      requires Valid()
      modifies this, lexer
      ensures Valid() && Did(r, Parsing.ParsePlainType(old(Ahead()), isConst), Ahead())
      decreases |Ahead()|, 0
    {
      hide Parsing.ParseType, Parsing.Consume, Parsing.ParseIdentifier, Ahead;
      if current.token == Reserved(KwPtr) {
        assert Ahead() != [];
        Advance();
        var _ :- Consume(Punct('<'));
        var inner :- ParseType();
        var _ :- Consume(Punct('>'));
        r := Ok(Ptr(isConst, inner));
      } else if current.token == Reserved(KwArray) {
        assert Ahead() != [];
        Advance();
        var _ :- Consume(Punct('<'));
        var inner :- ParseType();
        var _ :- Consume(Punct('>'));
        r := Ok(Array(isConst, inner));
      } else {
        var name :- ParseIdentifier();
        r := Ok(Named(isConst, name));
      }
    }

    method ParseDirection() returns (r: Result<Direction, ParseError>)
      requires Valid()
      modifies this, lexer
      ensures Valid() && Did(r, Parsing.ParseDirection(old(Ahead())), Ahead())
    {
      hide Ahead;
      match current.token {
        case Reserved(KwInout) => r := Ok(InOut);
        case Reserved(KwIn) => r := Ok(In);
        case Reserved(KwOut) => r := Ok(Out);
        case _ => return Err(Unexpected);
      }
      assert Ahead() != [];
      Advance();
    }

    method ParseParameter() returns (r: Result<Parameter, ParseError>)
      requires Valid()
      modifies this, lexer
      ensures Valid() && Did(r, Parsing.ParseParameter(old(Ahead())), Ahead())
    {
      hide Parsing.ParseAnnotations, Parsing.ParseDirection, Parsing.ParseType, Parsing.ParseIdentifier, Ahead;
      var annotations :- ParseAnnotations();
      var direction :- ParseDirection();
      var ty :- ParseType();
      var name :- ParseIdentifier();
      r := Ok(Parameter(direction, annotations, ty, name));
    }

    method ParseParameters() returns (r: Result<seq<Parameter>, ParseError>)
      requires Valid()
      modifies this, lexer
      ensures Valid() && Did(r, Parsing.ParseParameters(old(Ahead())), Ahead())
    {
      hide Parsing.ParseParameters, Parsing.ParseParameter, Parsing.SkipComma, Ahead, Inside;
      var vs := [];
      ghost var start := Ahead();
      ListStart(Parsing.ParseParameters, start);
      while current.token != Punct(')')
        invariant Valid() && Inside(Parsing.ParseParameters, start, vs, Ahead())
        decreases |Ahead()|
      {
        ghost var now := Ahead();
        OneParameter(now);
        var v := ParseParameter();
        if v.Err? { ListFails(Parsing.ParseParameters, start, vs, now, v.error); return Err(v.error); }
        var comma := SkipComma(Punct(')'));
        if comma.Err? { ListFails(Parsing.ParseParameters, start, vs, now, comma.error); return Err(comma.error); }
        ListStep(Parsing.ParseParameters, start, vs, now, v.value, Ahead());
        vs := vs + [v.value];
      }
      OneParameter(Ahead());
      ListEnd(Parsing.ParseParameters, start, vs, Ahead());
      r := Ok(vs);
    }

    method ParseStructField() returns (r: Result<StructField, ParseError>)
      requires Valid()
      modifies this, lexer
      ensures Valid() && Did(r, Parsing.ParseStructField(old(Ahead())), Ahead())
    {
      hide Parsing.ParseType, Parsing.ParseIdentifier, Parsing.Consume, Ahead;
      var ty :- ParseType();
      var name :- ParseIdentifier();
      var _ :- Consume(Punct(';'));
      r := Ok(StructField(ty, name));
    }

    method ParseStructFields() returns (r: Result<seq<StructField>, ParseError>)
      requires Valid()
      modifies this, lexer
      ensures Valid() && Did(r, Parsing.ParseStructFields(old(Ahead())), Ahead())
    {
      hide Parsing.ParseStructFields, Parsing.ParseStructField, Ahead, Inside;
      var vs := [];
      ghost var start := Ahead();
      ListStart(Parsing.ParseStructFields, start);
      while current.token != Punct('}')
        invariant Valid() && Inside(Parsing.ParseStructFields, start, vs, Ahead())
        decreases |Ahead()|
      {
        ghost var now := Ahead();
        OneStructField(now);
        var v := ParseStructField();
        if v.Err? { ListFails(Parsing.ParseStructFields, start, vs, now, v.error); return Err(v.error); }
        ListStep(Parsing.ParseStructFields, start, vs, now, v.value, Ahead());
        vs := vs + [v.value];
      }
      OneStructField(Ahead());
      ListEnd(Parsing.ParseStructFields, start, vs, Ahead());
      r := Ok(vs);
    }

    method ParseStruct(annotations: seq<Annotation>) returns (r: Result<Struct, ParseError>)
      requires Valid()
      modifies this, lexer
      ensures Valid() && Did(r, Parsing.ParseStruct(old(Ahead()), annotations), Ahead())
    {
      hide Parsing.Consume, Parsing.ParseIdentifier, Parsing.ParseStructFields, Ahead;
      var _ :- Consume(Reserved(KwStruct));
      var name :- ParseIdentifier();
      var _ :- Consume(Punct('{'));
      var fields :- ParseStructFields();
      var _ :- Consume(Punct('}'));
      var _ :- Consume(Punct(';'));
      r := Ok(Struct(name, annotations, fields));
    }

    method ParseBitfieldField() returns (r: Result<BitfieldField, ParseError>)
      requires Valid()
      modifies this, lexer
      ensures Valid() && Did(r, Parsing.ParseBitfieldField(old(Ahead())), Ahead())
    {
      hide Parsing.Consume, Parsing.ParseIdentifier, Parsing.ParseNumber, Ahead;
      var name :- ParseIdentifier();
      var _ :- Consume(Punct(':'));
      var bits :- ParseNumber();
      var _ :- Consume(Punct(';'));
      r := Ok(BitfieldField(name, bits));
    }

    method ParseBitfieldFields() returns (r: Result<seq<BitfieldField>, ParseError>)
      requires Valid()
      modifies this, lexer
      ensures Valid() && Did(r, Parsing.ParseBitfieldFields(old(Ahead())), Ahead())
    {
      hide Parsing.ParseBitfieldFields, Parsing.ParseBitfieldField, Ahead, Inside;
      var vs := [];
      ghost var start := Ahead();
      ListStart(Parsing.ParseBitfieldFields, start);
      while current.token != Punct('}')
        invariant Valid() && Inside(Parsing.ParseBitfieldFields, start, vs, Ahead())
        decreases |Ahead()|
      {
        ghost var now := Ahead();
        OneBitfieldField(now);
        var v := ParseBitfieldField();
        if v.Err? { ListFails(Parsing.ParseBitfieldFields, start, vs, now, v.error); return Err(v.error); }
        ListStep(Parsing.ParseBitfieldFields, start, vs, now, v.value, Ahead());
        vs := vs + [v.value];
      }
      OneBitfieldField(Ahead());
      ListEnd(Parsing.ParseBitfieldFields, start, vs, Ahead());
      r := Ok(vs);
    }

    method ParseTypedHead(keyword: Token) returns (r: Result<(Type, IdentifierText), ParseError>)
      requires Valid() && keyword != Eof
      modifies this, lexer
      ensures Valid() && Did(r, Parsing.ParseTypedHead(old(Ahead()), keyword), Ahead())
    {
      hide Parsing.Consume, Parsing.ParseIdentifier, Parsing.ParseType, Ahead;
      var _ :- Consume(keyword);
      var _ :- Consume(Punct('<'));
      var ty :- ParseType();
      var _ :- Consume(Punct('>'));
      var name :- ParseIdentifier();
      var _ :- Consume(Punct('{'));
      r := Ok((ty, name));
    }

    method ParseBitfield(annotations: seq<Annotation>) returns (r: Result<Bitfield, ParseError>)
      requires Valid()
      modifies this, lexer
      ensures Valid() && Did(r, Parsing.ParseBitfield(old(Ahead()), annotations), Ahead())
    {
      hide Parsing.Consume, Parsing.ParseTypedHead, Parsing.ParseBitfieldFields, Ahead;
      var head :- ParseTypedHead(Reserved(KwBitfield));
      var fields :- ParseBitfieldFields();
      var _ :- Consume(Punct('}'));
      var _ :- Consume(Punct(';'));
      r := Ok(Bitfield(head.1, annotations, head.0, fields));
    }

    method ParseEnumMember() returns (r: Result<EnumMember, ParseError>)
      requires Valid()
      modifies this, lexer
      ensures Valid() && Did(r, Parsing.ParseEnumMember(old(Ahead())), Ahead())
    {
      hide Parsing.Consume, Parsing.ParseIdentifier, Parsing.ParseNumber, Parsing.ParseAnnotations, Ahead;
      var annotations :- ParseAnnotations();
      var name :- ParseIdentifier();
      var _ :- Consume(Punct('='));
      var value :- ParseNumber();
      r := Ok(EnumMember(name, value, annotations));
    }

    method ParseEnumMembers() returns (r: Result<seq<EnumMember>, ParseError>)
      requires Valid()
      modifies this, lexer
      ensures Valid() && Did(r, Parsing.ParseEnumMembers(old(Ahead())), Ahead())
    {
      hide Parsing.ParseEnumMembers, Parsing.ParseEnumMember, Parsing.SkipComma, Ahead, Inside;
      var vs := [];
      ghost var start := Ahead();
      ListStart(Parsing.ParseEnumMembers, start);
      while current.token != Punct('}')
        invariant Valid() && Inside(Parsing.ParseEnumMembers, start, vs, Ahead())
        decreases |Ahead()|
      {
        ghost var now := Ahead();
        OneEnumMember(now);
        var v := ParseEnumMember();
        if v.Err? { ListFails(Parsing.ParseEnumMembers, start, vs, now, v.error); return Err(v.error); }
        var comma := SkipComma(Punct('}'));
        if comma.Err? { ListFails(Parsing.ParseEnumMembers, start, vs, now, comma.error); return Err(comma.error); }
        ListStep(Parsing.ParseEnumMembers, start, vs, now, v.value, Ahead());
        vs := vs + [v.value];
      }
      OneEnumMember(Ahead());
      ListEnd(Parsing.ParseEnumMembers, start, vs, Ahead());
      r := Ok(vs);
    }

    method ParseEnum(annotations: seq<Annotation>) returns (r: Result<Enum, ParseError>)
      requires Valid()
      modifies this, lexer
      ensures Valid() && Did(r, Parsing.ParseEnum(old(Ahead()), annotations), Ahead())
    {
      hide Parsing.Consume, Parsing.ParseTypedHead, Parsing.ParseEnumMembers, Ahead;
      var head :- ParseTypedHead(Reserved(KwEnum));
      var members :- ParseEnumMembers();
      var _ :- Consume(Punct('}'));
      var _ :- Consume(Punct(';'));
      r := Ok(Enum(head.1, annotations, head.0, members));
    }

    method ParseParameterList() returns (r: Result<seq<Parameter>, ParseError>)
      requires Valid()
      modifies this, lexer
      ensures Valid() && Did(r, Parsing.ParseParameterList(old(Ahead())), Ahead())
    {
      hide Parsing.Consume, Parsing.ParseParameters, Ahead;
      var _ :- Consume(Punct('('));
      var parameters :- ParseParameters();
      var _ :- Consume(Punct(')'));
      var _ :- Consume(Punct(';'));
      r := Ok(parameters);
    }

    /** A function takes the owner's next id once its declaration is complete. */
    method ParseFunction(annotations: seq<Annotation>, owner: SifReading.InterfaceNode)
      returns (r: Result<Function, ParseError>)
      requires Valid()
      modifies this, lexer, owner`currentFuncid
      ensures Valid() && Did(r, Parsing.ParseFunction(old(Ahead()), annotations, old(owner.currentFuncid)), Ahead())
      ensures r.Ok? ==> owner.currentFuncid == NextId(old(owner.currentFuncid))
    {
      hide Parsing.Consume, Parsing.ParseIdentifier, Parsing.ParseParameterList, Ahead, NextId;
      var _ :- Consume(Reserved(KwFunction));
      var name :- ParseIdentifier();
      var parameters :- ParseParameterList();
      var id := owner.currentFuncid;
      owner.currentFuncid := NextId(id);
      r := Ok(Function(id, name, annotations, parameters));
    }

    /** The items of a revision, up to its closing brace. */
    method ParseItems(version: u64, owner: SifReading.InterfaceNode) returns (r: Result<Revision, ParseError>)
      requires Valid()
      modifies this, lexer, owner`currentFuncid
      ensures Valid()
      ensures var items := Parsing.ParseItems(old(Ahead()), [], EmptyRevision(version), old(owner.currentFuncid));
              match r
              case Ok(v) => items == Ok(((v, owner.currentFuncid), Ahead()))
              case Err(e) => items == Err(e)
    {
      hide Parsing.ParseItems, Parsing.ParseAnnotation, Parsing.ParseFunction, Parsing.ParseStruct,
           Parsing.ParseBitfield, Parsing.ParseEnum, Ahead;
      var v := EmptyRevision(version);
      var annotations: seq<Annotation> := [];
      ghost var items := Parsing.ParseItems(Ahead(), annotations, v, owner.currentFuncid);
      while current.token != Punct('}')
        invariant Valid() && Parsing.ParseItems(Ahead(), annotations, v, owner.currentFuncid) == items
        decreases |Ahead()|
      {
        ItemsUnfolded(Ahead(), annotations, v, owner.currentFuncid);
        if current.token == Punct('@') {
          var a :- ParseAnnotation();
          annotations := annotations + [a];
          continue;
        }
        match current.token {
          case Reserved(KwFunction) =>
            var f :- ParseFunction(annotations, owner);
            v := v.(functions := v.functions + [f]);
          case Reserved(KwStruct) =>
            var d :- ParseStruct(annotations);
            v := v.(structs := v.structs + [d]);
          case Reserved(KwBitfield) =>
            var b :- ParseBitfield(annotations);
            v := v.(bitfields := v.bitfields + [b]);
          case Reserved(KwEnum) =>
            var e :- ParseEnum(annotations);
            v := v.(enums := v.enums + [e]);
          case _ =>
            return Err(Unexpected);
        }
        annotations := [];
      }
      ItemsUnfolded(Ahead(), annotations, v, owner.currentFuncid);
      r := Ok(v);
    }

    method ParseAbiversion(owner: SifReading.InterfaceNode) returns (r: Result<Revision, ParseError>)
      requires Valid()
      modifies this, lexer, owner`currentFuncid
      ensures Valid()
      ensures var parsed := Parsing.ParseRevision(old(Ahead()), old(owner.currentFuncid));
              match r
              case Ok(v) => parsed == Ok(((v, owner.currentFuncid), Ahead()))
              case Err(e) => parsed == Err(e)
    {
      hide Parsing.Consume, Parsing.ParseNumber, Parsing.ParseItems, Ahead;
      var _ :- Consume(Reserved(KwAbirevision));
      var version :- ParseNumber();
      var _ :- Consume(Punct('{'));
      var v :- ParseItems(version, owner);
      var _ :- Consume(Punct('}'));
      r := Ok(v);
    }

    /** The revisions up to the closing brace; each must have the next number. */
    method ParseRevisions(owner: SifReading.InterfaceNode) returns (r: Result<(), ParseError>)
      requires Valid() && owner.abiversions == []
      modifies this, lexer, owner`currentFuncid, owner`abiversions
      ensures Valid()
      ensures var parsed := Parsing.ParseRevisions(old(Ahead()), firstAbirevision, old(owner.currentFuncid));
              match r
              case Ok(_) => parsed == Ok(((owner.abiversions, owner.currentFuncid), Ahead()))
              case Err(e) => parsed == Err(e)
    {
      hide Parsing.ParseRevisions, Parsing.ParseRevision, Ahead, InsideRevisions;
      ghost var start, id := Ahead(), owner.currentFuncid;
      RevisionsStart(start, firstAbirevision, id);
      while current.token != Punct('}')
        invariant Valid()
        invariant InsideRevisions(start, firstAbirevision, id, owner.abiversions, owner.currentFuncid, Ahead())
        decreases |Ahead()|
      {
        ghost var now, before := Ahead(), owner.currentFuncid;
        ghost var vs := owner.abiversions;
        OneRevision(now, Expected(firstAbirevision, |vs|), before);
        var v := ParseAbiversion(owner);
        if v.Err? {
          RevisionsFail(start, firstAbirevision, id, vs, before, now, v.error);
          return Err(v.error);
        }
        var expected := (firstAbirevision + |owner.abiversions|) % TWO64;
        if v.value.version != expected {
          RevisionsFail(start, firstAbirevision, id, vs, before, now, NotContiguousRevision);
          return Err(NotContiguousRevision);
        }
        RevisionsStep(start, firstAbirevision, id, vs, before, now, v.value, owner.currentFuncid, Ahead());
        owner.abiversions := owner.abiversions + [v.value];
      }
      RevisionsEnd(start, firstAbirevision, id, owner.abiversions, owner.currentFuncid, Ahead());
      r := Ok(());
    }

    /** Everything before the first revision, into `node`. */
    method ParseHeader(node: SifReading.InterfaceNode) returns (r: Result<(), ParseError>)
      requires Valid()
      modifies this, lexer, node`annotations, node`name
      ensures Valid()
      ensures var parsed := Parsing.ParseHeader(old(Ahead()));
              match r
              case Ok(_) => parsed.Ok? && parsed.value == ((node.name, node.annotations), Ahead())
              case Err(e) => parsed == Err(e)
    {
      hide Parsing.ParseAnnotations, Parsing.Consume, Parsing.ParseIdentifier, Ahead;
      node.annotations :- ParseAnnotations();
      var _ :- Consume(Reserved(KwInterface));
      node.name :- ParseIdentifier();
      var _ :- Consume(Punct('{'));
      r := Ok(());
    }

    /** `parse`: the whole source. */
    method Parse() returns (r: Result<SifReading.InterfaceNode, ParseError>)
      requires Valid()
      modifies this, lexer
      ensures Valid()
      ensures r.Ok? ==> fresh(r.value)
      ensures ParseInterface(old(Ahead()), firstAbirevision, firstFuncid) ==
              match r { case Ok(node) => Ok(node.Value()) case Err(e) => Err(e) }
    {
      hide Parsing.ParseRevisions, Parsing.ParseHeader, Parsing.Consume, ParseInterface, Ahead, Zeros, RawNode;
      InterfaceUnfolded(Ahead(), firstAbirevision, firstFuncid);
      var node := new SifReading.InterfaceNode();
      node.currentFuncid := firstFuncid;
      var _ :- ParseHeader(node);
      var _ :- ParseRevisions(node);
      var _ :- Consume(Punct('}'));
      NodeValue(node);
      r := Ok(node);
    }
  }

  function RawNode(name: Bytes, annotations: seq<Annotation>, vs: seq<Revision>, id: u32): Interface {
    Interface(name, false, NIL_UUID, [], false, [], annotations, vs, id)
  }

  lemma NodeValue(node: SifReading.InterfaceNode)
    ensures !node.hasUuid && node.uuidNamespace == Zeros(16) && node.uuidName == [] && !node.hasPrefix && node.prefix == [] ==>
              node.Value() == RawNode(node.name, node.annotations, node.abiversions, node.currentFuncid)
  {
  }

  lemma {:induction false} InterfaceUnfolded(ts: Ts, first: u64, id: u32)
    ensures ParseInterface(ts, first, id) ==
            match ParseHeader(ts)
            case Err(e) => Err(e)
            case Ok((head, ts1)) =>
              match Parsing.ParseRevisions(ts1, first, id)
              case Err(e) => Err(e)
              case Ok(((vs, id1), ts2)) =>
                match Parsing.Consume(ts2, Punct('}'))
                case Err(e) => Err(e)
                case Ok(_) => Ok(RawNode(head.0, head.1, vs, id1))
  {
    hide ParseHeader, Parsing.ParseRevisions, Parsing.Consume;
  }

  // ---------------------------------------------------------------- revisions

  ghost predicate InsideRevisions(start: Ts, first: u64, id: u32, vs: seq<Revision>, id1: u32, now: Ts) {
    Parsing.ParseRevisions(start, first, id) ==
    BehindRevisions(vs, Parsing.ParseRevisions(now, Expected(first, |vs|), id1))
  }

  lemma RevisionsStart(start: Ts, first: u64, id: u32)
    ensures InsideRevisions(start, first, id, [], id, start)
  {
    hide Parsing.ParseRevisions;
    var r := Parsing.ParseRevisions(start, first, id);
    if r.Ok? { assert [] + r.value.0.0 == r.value.0.0; }
  }

  lemma RevisionsStep(
    start: Ts, first: u64, id: u32, vs: seq<Revision>, before: u32, now: Ts, v: Revision, id1: u32, next: Ts)
    requires InsideRevisions(start, first, id, vs, before, now)
    requires Parsing.ParseRevisions(now, Expected(first, |vs|), before) ==
             BehindRevisions([v], Parsing.ParseRevisions(next, Expected(Expected(first, |vs|), 1), id1))
    ensures InsideRevisions(start, first, id, vs + [v], id1, next)
  {
    hide Parsing.ParseRevisions;
    var r := Parsing.ParseRevisions(next, Expected(Expected(first, |vs|), 1), id1);
    assert Expected(Expected(first, |vs|), 1) == Expected(first, |vs| + 1);
    if r.Ok? { assert vs + ([v] + r.value.0.0) == vs + [v] + r.value.0.0; }
  }

  lemma RevisionsFail(start: Ts, first: u64, id: u32, vs: seq<Revision>, before: u32, now: Ts, e: ParseError)
    requires InsideRevisions(start, first, id, vs, before, now)
    requires Parsing.ParseRevisions(now, Expected(first, |vs|), before) == Err(e)
    ensures Parsing.ParseRevisions(start, first, id) == Err(e)
  {
    hide Parsing.ParseRevisions;
  }

  lemma RevisionsEnd(start: Ts, first: u64, id: u32, vs: seq<Revision>, id1: u32, now: Ts)
    requires InsideRevisions(start, first, id, vs, id1, now) && Peek(now) == Punct('}')
    ensures Parsing.ParseRevisions(start, first, id) == Ok(((vs, id1), now))
  {
    assert Parsing.ParseRevisions(now, Expected(first, |vs|), id1) == Ok((([], id1), now));
    assert vs + [] == vs;
  }
}
