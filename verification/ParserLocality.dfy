/** A successful parse looks no further than the tokens it consumes: appending tokens to the input
    only lengthens what is left. Where a construct ends at a token it does not consume, that token
    has to be there already. */
module ParserLocality {
  import opened Octets
  import opened Ast
  import opened Lexing
  import opened Parsing

  type Ts = seq<Token>

  lemma ConsumeLocal()
    ensures forall ts: Ts, z: Ts, t :: Consume(ts, t).Ok? ==> Consume(ts + z, t) == Ok(Consume(ts, t).value + z)
    ensures forall ts: Ts, z: Ts :: ParseIdentifier(ts).Ok? ==>
              ParseIdentifier(ts + z) == Ok((ParseIdentifier(ts).value.0, ParseIdentifier(ts).value.1 + z))
    ensures forall ts: Ts, z: Ts :: ParseNumber(ts).Ok? ==>
              ParseNumber(ts + z) == Ok((ParseNumber(ts).value.0, ParseNumber(ts).value.1 + z))
    ensures forall ts: Ts, z: Ts :: ts != [] ==> Peek(ts + z) == Peek(ts)
  {
    hide Stoull;
    forall ts: Ts, z: Ts | ts != [] ensures (ts + z)[1..] == ts[1..] + z {}
  }

  lemma ExpressionLocal()
    ensures forall ts: Ts, z: Ts :: ParseExpression(ts).Ok? ==>
              ParseExpression(ts + z) == Ok((ParseExpression(ts).value.0, ParseExpression(ts).value.1 + z))
  {
    hide ParseNumber;
    ConsumeLocal();
    forall ts: Ts, z: Ts | ts != [] ensures (ts + z)[1..] == ts[1..] + z {}
  }

  lemma CommaLocal()
    ensures forall ts: Ts, z: Ts, t :: ts != [] && SkipComma(ts, t).Ok? ==>
              SkipComma(ts + z, t) == Ok(SkipComma(ts, t).value + z)
  {
    hide Consume;
    ConsumeLocal();
  }

  lemma {:induction false} ArgumentsLocal(ts: Ts, z: Ts)
    requires ParseArguments(ts).Ok?
    ensures ParseArguments(ts + z) == Ok((ParseArguments(ts).value.0, ParseArguments(ts).value.1 + z))
    decreases |ts|
  {
    hide ParseExpression, SkipComma, PrintableExpression;
    ConsumeLocal();
    if Peek(ts) != Punct(')') {
      ExpressionLocal();
      var ts1 := ParseExpression(ts).value.1;
      var ts2 := SkipComma(ts1, Punct(')')).value;
      CommaNeeded(ts1, Punct(')'));
      CommaLocal();
      ArgumentsLocal(ts2, z);
    }
  }

  lemma CommaNeeded(ts: Ts, close: Token)
    requires SkipComma(ts, close).Ok? && close != Eof
    ensures ts != []
  {
  }

  lemma AnnotationLocal()
    ensures forall ts: Ts, z: Ts :: ParseAnnotation(ts).Ok? ==>
              ParseAnnotation(ts + z) == More(ParseAnnotation(ts), z)
  {
    hide Consume, ParseIdentifier, ParseArguments;
    ConsumeLocal();
    forall ts: Ts, z: Ts | ParseArguments(ts).Ok? { ArgumentsLocal(ts, z); }
  }

  /** The result with the tokens `z` left in addition. */
  function More<T>(r: Parsed<T>, z: Ts): Parsed<T> {
    match r
    case Ok((v, ts)) => Ok((v, ts + z))
    case Err(e) => Err(e)
  }

  lemma {:induction false} AnnotationsLocal(ts: Ts, z: Ts)
    requires ParseAnnotations(ts).Ok? && ParseAnnotations(ts).value.1 != []
    ensures ParseAnnotations(ts + z) == More(ParseAnnotations(ts), z)
    decreases |ts|
  {
    hide ParseAnnotation, PrintableAnnotation;
    ConsumeLocal();
    AnnotationLocal();
    if Peek(ts) == Punct('@') { AnnotationsLocal(ParseAnnotation(ts).value.1, z); }
  }

  lemma {:induction false} TypeLocalAt(ts: Ts, z: Ts)
    requires ParseType(ts).Ok?
    ensures ParseType(ts + z) == More(ParseType(ts), z)
    decreases |ts|, 1
  {
    hide ParsePlainType;
    ConsumeLocal();
    assert ts != [] by { TypeNonEmpty(ts); }
    assert (ts + z)[1..] == ts[1..] + z;
    PlainTypeLocal(if Peek(ts) == Reserved(KwConst) then ts[1..] else ts, z, Peek(ts) == Reserved(KwConst));
  }

  lemma TypeNonEmpty(ts: Ts)
    requires ParseType(ts).Ok?
    ensures ts != []
  {
  }

  lemma {:induction false} PlainTypeLocal(ts: Ts, z: Ts, isConst: bool)
    requires ParsePlainType(ts, isConst).Ok?
    ensures ParsePlainType(ts + z, isConst) == More(ParsePlainType(ts, isConst), z)
    decreases |ts|, 0
  {
    hide ParseType, Consume, ParseIdentifier;
    ConsumeLocal();
    PlainTypeNonEmpty(ts, isConst);
    assert (ts + z)[1..] == ts[1..] + z;
    if Peek(ts) == Reserved(KwPtr) || Peek(ts) == Reserved(KwArray) {
      TypeLocalAt(Consume(ts[1..], Punct('<')).value, z);
    }
  }

  lemma PlainTypeNonEmpty(ts: Ts, isConst: bool)
    requires ParsePlainType(ts, isConst).Ok?
    ensures ts != []
  {
  }

  lemma TypeLocal()
    ensures forall ts: Ts, z: Ts :: ParseType(ts).Ok? ==> ParseType(ts + z) == More(ParseType(ts), z)
  {
    forall ts: Ts, z: Ts | ParseType(ts).Ok? { TypeLocalAt(ts, z); }
  }

  lemma DirectionLocal()
    ensures forall ts: Ts, z: Ts :: ParseDirection(ts).Ok? ==>
              ParseDirection(ts + z) == More(ParseDirection(ts), z)
    ensures forall ts: Ts :: ParseDirection(ts).Ok? ==> ts != []
    ensures forall ts: Ts :: ParseIdentifier(ts).Ok? ==> ts != []
  {
    forall ts: Ts, z: Ts | ts != [] ensures (ts + z)[1..] == ts[1..] + z {}
  }

  lemma ParameterLocal()
    ensures forall ts: Ts, z: Ts :: ParseParameter(ts).Ok? ==>
              ParseParameter(ts + z) == More(ParseParameter(ts), z)
  {
    hide ParseAnnotations, ParseDirection, ParseType, ParseIdentifier;
    ConsumeLocal();
    DirectionLocal();
    TypeLocal();
    forall ts: Ts, z: Ts | ParseAnnotations(ts).Ok? && ParseAnnotations(ts).value.1 != [] { AnnotationsLocal(ts, z); }
  }

  lemma {:induction false} ParametersLocal(ts: Ts, z: Ts)
    requires ParseParameters(ts).Ok?
    ensures ParseParameters(ts + z) == More(ParseParameters(ts), z)
    decreases |ts|
  {
    hide ParseParameter, SkipComma, PrintableParameter;
    ConsumeLocal();
    if Peek(ts) != Punct(')') {
      ParameterLocal();
      var ts1 := ParseParameter(ts).value.1;
      var ts2 := SkipComma(ts1, Punct(')')).value;
      CommaNeeded(ts1, Punct(')'));
      CommaLocal();
      ParametersLocal(ts2, z);
    }
  }

  lemma StructFieldLocal()
    ensures forall ts: Ts, z: Ts :: ParseStructField(ts).Ok? ==>
              ParseStructField(ts + z) == More(ParseStructField(ts), z)
  {
    hide ParseType, ParseIdentifier, Consume;
    ConsumeLocal();
    TypeLocal();
  }

  lemma {:induction false} StructFieldsLocal(ts: Ts, z: Ts)
    requires ParseStructFields(ts).Ok?
    ensures ParseStructFields(ts + z) == More(ParseStructFields(ts), z)
    decreases |ts|
  {
    hide ParseStructField, SkipComma, PrintableStructField;
    ConsumeLocal();
    if Peek(ts) != Punct('}') {
      StructFieldLocal();
      var ts1 := ParseStructField(ts).value.1;
      StructFieldsLocal(ts1, z);
    }
  }

  lemma StructLocal()
    ensures forall ts: Ts, z: Ts, p :: ParseStruct(ts, p).Ok? ==>
              ParseStruct(ts + z, p) == More(ParseStruct(ts, p), z)
  {
    hide ParseStructFields, ParseIdentifier, Consume;
    ConsumeLocal();
    forall ts: Ts, z: Ts | ParseStructFields(ts).Ok? { StructFieldsLocal(ts, z); }
  }

  lemma TypedHeadLocal()
    ensures forall ts: Ts, z: Ts, w :: ParseTypedHead(ts, w).Ok? ==>
              ParseTypedHead(ts + z, w) == More(ParseTypedHead(ts, w), z)
  {
    hide ParseType, ParseIdentifier, Consume;
    ConsumeLocal();
    TypeLocal();
  }

  lemma BitfieldFieldLocal()
    ensures forall ts: Ts, z: Ts :: ParseBitfieldField(ts).Ok? ==>
              ParseBitfieldField(ts + z) == More(ParseBitfieldField(ts), z)
  {
    hide ParseIdentifier, ParseNumber, Consume;
    ConsumeLocal();
  }

  lemma {:induction false} BitfieldFieldsLocal(ts: Ts, z: Ts)
    requires ParseBitfieldFields(ts).Ok?
    ensures ParseBitfieldFields(ts + z) == More(ParseBitfieldFields(ts), z)
    decreases |ts|
  {
    hide ParseBitfieldField, SkipComma, PrintableBitfieldField;
    ConsumeLocal();
    if Peek(ts) != Punct('}') {
      BitfieldFieldLocal();
      var ts1 := ParseBitfieldField(ts).value.1;
      BitfieldFieldsLocal(ts1, z);
    }
  }

  lemma BitfieldLocal()
    ensures forall ts: Ts, z: Ts, p :: ParseBitfield(ts, p).Ok? ==>
              ParseBitfield(ts + z, p) == More(ParseBitfield(ts, p), z)
  {
    hide ParseTypedHead, ParseBitfieldFields, Consume;
    ConsumeLocal();
    TypedHeadLocal();
    forall ts: Ts, z: Ts | ParseBitfieldFields(ts).Ok?
      ensures ParseBitfieldFields(ts + z) == More(ParseBitfieldFields(ts), z)
    {
      BitfieldFieldsLocal(ts, z);
    }
  }

  lemma EnumMemberLocal()
    ensures forall ts: Ts, z: Ts :: ParseEnumMember(ts).Ok? ==>
              ParseEnumMember(ts + z) == More(ParseEnumMember(ts), z)
  {
    hide ParseAnnotations, ParseIdentifier, ParseNumber, Consume;
    ConsumeLocal();
    DirectionLocal();
    forall ts: Ts, z: Ts | ParseAnnotations(ts).Ok? && ParseAnnotations(ts).value.1 != [] { AnnotationsLocal(ts, z); }
  }

  lemma {:induction false} EnumMembersLocal(ts: Ts, z: Ts)
    requires ParseEnumMembers(ts).Ok?
    ensures ParseEnumMembers(ts + z) == More(ParseEnumMembers(ts), z)
    decreases |ts|
  {
    hide ParseEnumMember, SkipComma, PrintableEnumMember;
    ConsumeLocal();
    if Peek(ts) != Punct('}') {
      EnumMemberLocal();
      var ts1 := ParseEnumMember(ts).value.1;
      var ts2 := SkipComma(ts1, Punct('}')).value;
      CommaNeeded(ts1, Punct('}'));
      CommaLocal();
      EnumMembersLocal(ts2, z);
    }
  }

  lemma EnumLocalAt(ts: Ts, z: Ts, p: seq<Annotation>)
    requires ParseEnum(ts, p).Ok?
    ensures ParseEnum(ts + z, p) == More(ParseEnum(ts, p), z)
  {
    hide ParseTypedHead, ParseEnumMembers, Consume, PrintableEnumMember, PrintableType, PrintableAnnotations;
    var ts1 := ParseTypedHead(ts, Reserved(KwEnum)).value.1;
    var ts2 := ParseEnumMembers(ts1).value.1;
    var ts3 := Consume(ts2, Punct('}')).value;
    assert ParseTypedHead(ts + z, Reserved(KwEnum)) == More(ParseTypedHead(ts, Reserved(KwEnum)), z) by {
      TypedHeadLocal();
    }
    EnumMembersLocal(ts1, z);
    ConsumeLocal();
    assert Consume(ts2 + z, Punct('}')) == Ok(ts3 + z);
    assert Consume(ts3 + z, Punct(';')) == Ok(Consume(ts3, Punct(';')).value + z);
  }

  lemma EnumLocal()
    ensures forall ts: Ts, z: Ts, p :: ParseEnum(ts, p).Ok? ==>
              ParseEnum(ts + z, p) == More(ParseEnum(ts, p), z)
  {
    forall ts: Ts, z: Ts, p | ParseEnum(ts, p).Ok? { EnumLocalAt(ts, z, p); }
  }

  lemma FunctionLocal()
    ensures forall ts: Ts, z: Ts, p, id :: ParseFunction(ts, p, id).Ok? ==>
              ParseFunction(ts + z, p, id) == More(ParseFunction(ts, p, id), z)
  {
    hide ParseParameters, ParseIdentifier, Consume;
    ConsumeLocal();
    forall ts: Ts, z: Ts | ParseParameters(ts).Ok? { ParametersLocal(ts, z); }
  }

  lemma {:induction false} ItemsLocal(ts: Ts, z: Ts, p: seq<Annotation>, v: Revision, id: u32)
    requires ParseItems(ts, p, v, id).Ok?
    ensures ParseItems(ts + z, p, v, id) == More(ParseItems(ts, p, v, id), z)
    decreases |ts|
  {
    hide ParseAnnotation, ParseFunction, ParseStruct, ParseBitfield, ParseEnum, ParseItems, NextId;
    ItemsUnfolded(ts, p, v, id);
    assert ts != [];
    assert Peek(ts + z) == Peek(ts);
    ItemsUnfolded(ts + z, p, v, id);
    var t := Peek(ts);
    if t == Punct('@') {
      AnnotationLocal();
      ItemsLocal(ParseAnnotation(ts).value.1, z, p + [ParseAnnotation(ts).value.0], v, id);
    } else if t == Reserved(KwFunction) {
      FunctionLocal();
      var (f, ts1) := ParseFunction(ts, p, id).value;
      ItemsLocal(ts1, z, [], v.(functions := v.functions + [f]), NextId(id));
    } else if t == Reserved(KwStruct) {
      StructLocal();
      var (d, ts1) := ParseStruct(ts, p).value;
      ItemsLocal(ts1, z, [], v.(structs := v.structs + [d]), id);
    } else if t == Reserved(KwBitfield) {
      BitfieldLocal();
      var (b, ts1) := ParseBitfield(ts, p).value;
      ItemsLocal(ts1, z, [], v.(bitfields := v.bitfields + [b]), id);
    } else if t == Reserved(KwEnum) {
      EnumLocal();
      var (e, ts1) := ParseEnum(ts, p).value;
      ItemsLocal(ts1, z, [], v.(enums := v.enums + [e]), id);
    }
  }

  lemma RevisionLocal()
    ensures forall ts: Ts, z: Ts, id :: ParseRevision(ts, id).Ok? ==>
              ParseRevision(ts + z, id) == More(ParseRevision(ts, id), z)
  {
    hide ParseItems, ParseNumber, Consume;
    ConsumeLocal();
    forall ts: Ts, z: Ts, p, v, id | ParseItems(ts, p, v, id).Ok? { ItemsLocal(ts, z, p, v, id); }
  }

  lemma HeaderLocal()
    ensures forall ts: Ts, z: Ts :: ParseHeader(ts).Ok? ==> ParseHeader(ts + z) == More(ParseHeader(ts), z)
  {
    hide ParseAnnotations, ParseIdentifier, Consume;
    ConsumeLocal();
    forall ts: Ts, t | Consume(ts, t).Ok? ensures ts != [] { ConsumeNonEmpty(ts, t); }
    forall ts: Ts, z: Ts | ParseAnnotations(ts).Ok? && ParseAnnotations(ts).value.1 != [] { AnnotationsLocal(ts, z); }
  }

  lemma ConsumeNonEmpty(ts: Ts, t: Token)
    requires Consume(ts, t).Ok?
    ensures ts != []
  {
  }
}
