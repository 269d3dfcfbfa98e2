/** Lexing and parsing invert the decompiler: for each node kind, the parser applied to the tokens of
    the printed text returns the node and the tokens of the text that follows. */
module TextRoundTrip {
  import opened Octets
  import opened Ast
  import opened Lexing
  import opened Parsing
  import opened Printing

  /** `k` cannot be glued to a word or number printed before it. */
  predicate Delimited(k: Bytes) { k == [] || !IsWordChar(k[0]) }

  // ---------------------------------------------------------------- lexing printed text

  lemma {:induction false} SpanAppend(p: byte -> bool, w: Bytes, k: Bytes)
    requires (forall c <- w :: p(c)) && (k == [] || !p(k[0]))
    ensures Span(p, w + k) == |w|
  {
    if w == [] {
      assert w + k == k;
    } else {
      assert (w + k)[1..] == w[1..] + k;
      SpanAppend(p, w[1..], k);
    }
  }

  lemma LexWord(w: Bytes, k: Bytes)
    requires IsWord(w) && Delimited(k)
    ensures Lexing.Tokens(W(w, k)) == [Classify(w)] + Lexing.Tokens(k)
  {
    var s := w + k;
    SpanAppend(IsWordChar, w, k);
    assert s[..|w|] == w && s[|w|..] == k && s[0] == w[0];
    assert Skip(s) == s;
    assert LexOne(s) == (Classify(w), k);
  }

  lemma LexQuoted(q: Bytes, k: Bytes)
    requires IsQuoted(q)
    ensures Lexing.Tokens(W(q, k)) == [Text(q)] + Lexing.Tokens(k)
  {
    var s := q + k;
    var inner := q[1..|q| - 1];
    assert s[1..] == inner + (['"'] + k);
    SpanAppend(NotQuote, inner, ['"'] + k);
    assert s[..|q|] == q && s[|q|..] == k;
    assert Skip(s) == s;
    assert LexOne(s) == (Text(q), k);
  }

  lemma {:induction false} DecimalDigits(n: nat)
    ensures Decimal(n) != [] && forall c <- Decimal(n) :: IsDigit(c)
    ensures Decimal(n)[0] == '0' ==> n == 0
    ensures Value(Decimal(n)) == n
  {
    if n >= 10 {
      DecimalDigits(n / 10);
      var init := Decimal(n / 10);
      assert Decimal(n)[..|init|] == init && Decimal(n)[|init|] == Digit(n % 10);
    } else {
      assert Value([]) == 0;
      assert [Digit(n)][..0] == [];
    }
  }

  /** Digits without a leading zero, or the digit zero. */
  lemma LexDigits(d: Bytes, k: Bytes)
    requires d != [] && (forall c <- d :: IsDigit(c)) && (d[0] == '0' ==> d == "0") && Delimited(k)
    ensures Lexing.Tokens(W(d, k)) == [Number(d)] + Lexing.Tokens(k)
  {
    var s := d + k;
    assert s[..|d|] == d && s[|d|..] == k && s[0] == d[0];
    assert IsDigit(d[0]);
    assert Skip(s) == s;
    if d[0] == '0' {
      assert s[1..] == k;
    } else {
      SpanAppend(IsDigit, d, k);
    }
    assert LexOne(s) == (Number(d), k);
  }

  lemma LexDecimal(n: nat, k: Bytes)
    requires Delimited(k)
    ensures Lexing.Tokens(W(Decimal(n), k)) == [Number(Decimal(n))] + Lexing.Tokens(k)
  {
    var d := Decimal(n);
    DecimalDigits(n);
    if d[0] == '0' { assert Decimal(0) == "0"; }
    hide Decimal, Value;
    LexDigits(d, k);
  }

  lemma LexSpace(c: byte, k: Bytes)
    requires IsSpace(c)
    ensures Lexing.Tokens(C(c, k)) == Lexing.Tokens(k)
  {
    assert C(c, k)[1..] == k;
  }

  lemma LexPunct(c: byte, k: Bytes)
    requires IsPunct(c)
    ensures Lexing.Tokens(C(c, k)) == [Punct(c)] + Lexing.Tokens(k)
  {
    assert C(c, k)[1..] == k;
  }

  lemma {:induction false} LexIndent(level: nat, k: Bytes)
    ensures Lexing.Tokens(Indent(level, k)) == Lexing.Tokens(k)
  {
    hide Lexing.Tokens;
    if level > 0 {
      LexIndent(level - 1, k);
      LexFourSpaces(Indent(level - 1, k));
    }
  }

  lemma LexFourSpaces(k: Bytes)
    ensures Lexing.Tokens(C(' ', C(' ', C(' ', C(' ', k))))) == Lexing.Tokens(k)
  {
    hide Lexing.Tokens, C;
    LexSpace(' ', k);
    LexSpace(' ', C(' ', k));
    LexSpace(' ', C(' ', C(' ', k)));
    LexSpace(' ', C(' ', C(' ', C(' ', k))));
  }

  lemma StoullDecimal(n: u64)
    ensures Stoull(Decimal(n)) == Ok(n)
  {
    DecimalDigits(n);
    SpanAppend(IsDigit, Decimal(n), []);
    assert Decimal(n) + [] == Decimal(n);
    assert Decimal(n)[..|Decimal(n)|] == Decimal(n);
  }

  lemma LexLaws()
    ensures forall c, k :: IsSpace(c) ==> Lexing.Tokens(C(c, k)) == Lexing.Tokens(k)
    ensures forall c, k :: IsPunct(c) ==> Lexing.Tokens(C(c, k)) == [Punct(c)] + Lexing.Tokens(k)
    ensures forall q, k :: IsQuoted(q) ==> Lexing.Tokens(W(q, k)) == [Text(q)] + Lexing.Tokens(k)
    ensures forall n: u64, k :: Delimited(k) ==>
              Lexing.Tokens(W(Decimal(n), k)) == [Number(Decimal(n))] + Lexing.Tokens(k)
    ensures forall n: u64 :: Stoull(Decimal(n)) == Ok(n)
    ensures forall level, k :: Lexing.Tokens(Indent(level, k)) == Lexing.Tokens(k)
    ensures forall c, k :: !IsWordChar(c) ==> Delimited(C(c, k))
  {
    forall c, k | IsSpace(c) { LexSpace(c, k); }
    forall c, k | IsPunct(c) { LexPunct(c, k); }
    forall q, k | IsQuoted(q) { LexQuoted(q, k); }
    forall n: u64, k | Delimited(k) { LexDecimal(n, k); }
    forall n: u64 { StoullDecimal(n); }
    forall level, k { LexIndent(level, k); }
  }

  lemma KeywordLaws()
    ensures forall w, k :: Delimited(k) ==>
              Lexing.Tokens(W(Spelling(w), k)) == [Reserved(w)] + Lexing.Tokens(k)
    ensures forall w, k :: IsIdentifier(w) && Delimited(k) ==>
              Lexing.Tokens(W(w, k)) == [Ident(w)] + Lexing.Tokens(k)
  {
    forall w, k | Delimited(k)
      ensures Lexing.Tokens(W(Spelling(w), k)) == [Reserved(w)] + Lexing.Tokens(k)
    {
      SpellingLaw(w);
      LexWord(Spelling(w), k);
    }
    forall w, k | IsIdentifier(w) && Delimited(k) { LexWord(w, k); }
  }

  lemma SpellingLaw(w: Keyword)
    ensures IsWord(Spelling(w)) && KeywordOf(Spelling(w)) == Some(w)
  {
    SpellingIsWord(w);
    SpellingIsKeyword(w);
  }

  lemma SpellingIsWord(w: Keyword)
    ensures IsWord(Spelling(w))
  {
  }

  lemma SpellingIsKeyword(w: Keyword)
    ensures KeywordOf(Spelling(w)) == Some(w)
  {
  }

  // ---------------------------------------------------------------- annotations

  lemma ExpressionText()
    ensures forall v, k :: PrintableExpression(v) && Delimited(k) ==>
              ParseExpression(Lexing.Tokens(PrintExpression(v, k))) == Ok((v, Lexing.Tokens(k)))
  {
    hide Lexing.Tokens, W, C, Indent, Delimited, Stoull, IsIdentifier, IsQuoted, KeywordOf, Decimal, IsWord, Spelling;
    LexLaws();
    KeywordLaws();
  }

  lemma {:induction false} ArgumentsText(vs: seq<Expression>, k: Bytes)
    requires forall v <- vs :: PrintableExpression(v)
    ensures ParseArguments(Lexing.Tokens(PrintArguments(vs, C(')', k)))) == Ok((vs, Lexing.Tokens(C(')', k))))
  {
    hide Lexing.Tokens, W, C, Indent, Delimited, Stoull, IsIdentifier, IsQuoted, KeywordOf, Decimal, IsWord,
         Spelling, PrintExpression, ParseExpression, PrintableExpression;
    LexLaws();
    if vs != [] {
      var next := if |vs| == 1 then C(')', k) else C(',', C(' ', PrintArguments(vs[1..], C(')', k))));
      ExpressionText();
      assert ParseExpression(Lexing.Tokens(PrintExpression(vs[0], next))) == Ok((vs[0], Lexing.Tokens(next)));
      ExpressionStart(Lexing.Tokens(PrintExpression(vs[0], next)));
      ArgumentsText(vs[1..], k);
      assert vs == [vs[0]] + vs[1..];
    }
  }

  lemma ExpressionStart(ts: Parsing.Tokens)
    requires ParseExpression(ts).Ok?
    ensures Peek(ts) != Punct(')')
  {
  }

  lemma AnnotationText()
    ensures forall v, k :: PrintableAnnotation(v) ==>
              ParseAnnotation(Lexing.Tokens(PrintAnnotation(v, k))) == Ok((v, Lexing.Tokens(k)))
    ensures forall v, k :: Peek(Lexing.Tokens(PrintAnnotation(v, k))) == Punct('@')
  {
    hide Lexing.Tokens, W, C, Indent, Delimited, Stoull, IsIdentifier, IsQuoted, KeywordOf, Decimal, IsWord,
         Spelling, PrintArguments, ParseArguments;
    LexLaws();
    KeywordLaws();
    forall v, k | PrintableAnnotation(v)
      ensures ParseAnnotation(Lexing.Tokens(PrintAnnotation(v, k))) == Ok((v, Lexing.Tokens(k)))
    {
      ArgumentsText(v.args, k);
    }
  }

  lemma {:induction false} AnnotationsText(vs: seq<Annotation>, level: nat, k: Bytes)
    requires PrintableAnnotations(vs) && Peek(Lexing.Tokens(k)) != Punct('@')
    ensures ParseAnnotations(Lexing.Tokens(PrintAnnotations(vs, level, k))) == Ok((vs, Lexing.Tokens(k)))
  {
    hide Lexing.Tokens, W, C, Indent, Delimited, Stoull, IsIdentifier, IsQuoted, KeywordOf, Decimal, IsWord,
         Spelling, PrintAnnotation, ParseAnnotation, PrintableAnnotation;
    LexLaws();
    if vs != [] {
      var next := C('\n', PrintAnnotations(vs[1..], level, k));
      AnnotationText();
      assert ParseAnnotation(Lexing.Tokens(PrintAnnotation(vs[0], next))) == Ok((vs[0], Lexing.Tokens(next)));
      AnnotationsText(vs[1..], level, k);
      assert vs == [vs[0]] + vs[1..];
    }
  }

  lemma {:induction false} InlineAnnotationsText(vs: seq<Annotation>, k: Bytes)
    requires PrintableAnnotations(vs) && Peek(Lexing.Tokens(k)) != Punct('@')
    ensures ParseAnnotations(Lexing.Tokens(PrintInlineAnnotations(vs, k))) == Ok((vs, Lexing.Tokens(k)))
  {
    hide Lexing.Tokens, W, C, Indent, Delimited, Stoull, IsIdentifier, IsQuoted, KeywordOf, Decimal, IsWord,
         Spelling, PrintAnnotation, ParseAnnotation, PrintableAnnotation;
    LexLaws();
    if vs != [] {
      var next := C(' ', PrintInlineAnnotations(vs[1..], k));
      AnnotationText();
      assert ParseAnnotation(Lexing.Tokens(PrintAnnotation(vs[0], next))) == Ok((vs[0], Lexing.Tokens(next)));
      InlineAnnotationsText(vs[1..], k);
      assert vs == [vs[0]] + vs[1..];
    }
  }

  // ---------------------------------------------------------------- types and parameters

  lemma {:induction false} TypeText(v: Type, k: Bytes)
    requires PrintableType(v) && Delimited(k)
    ensures ParseType(Lexing.Tokens(PrintType(v, k))) == Ok((v, Lexing.Tokens(k)))
    decreases v, 1
  {
    hide Lexing.Tokens, W, C, Indent, Delimited, Stoull, IsIdentifier, IsQuoted, KeywordOf, Decimal, IsWord,
         Spelling, ParsePlainType, PrintPlainType;
    LexLaws();
    KeywordLaws();
    PlainTypeText(v, k);
    PlainTypeStart(Lexing.Tokens(PrintPlainType(v, k)), v.isConst);
  }

  lemma PlainTypeStart(ts: Parsing.Tokens, isConst: bool)
    requires ParsePlainType(ts, isConst).Ok?
    ensures Peek(ts) != Reserved(KwConst)
  {
  }

  lemma {:induction false} PlainTypeText(v: Type, k: Bytes)
    requires PrintableType(v) && Delimited(k)
    ensures ParsePlainType(Lexing.Tokens(PrintPlainType(v, k)), v.isConst) == Ok((v, Lexing.Tokens(k)))
    decreases v, 0
  {
    hide Lexing.Tokens, W, C, Indent, Delimited, Stoull, IsIdentifier, IsQuoted, KeywordOf, Decimal, IsWord,
         Spelling, PrintType, ParseType;
    LexLaws();
    KeywordLaws();
    match v {
      case Named(_, name) =>
      case Ptr(_, inner) => TypeText(inner, C('>', k));
      case Array(_, inner) => TypeText(inner, C('>', k));
    }
  }

  lemma TypeLaws()
    ensures forall v, k :: PrintableType(v) && Delimited(k) ==>
              ParseType(Lexing.Tokens(PrintType(v, k))) == Ok((v, Lexing.Tokens(k)))
  {
    forall v, k | PrintableType(v) && Delimited(k) { TypeText(v, k); }
  }

  lemma DirectionText(d: Direction, k: Bytes)
    requires Delimited(k)
    ensures ParseDirection(Lexing.Tokens(W(Spelling(DirectionWord(d)), k))) == Ok((d, Lexing.Tokens(k)))
    ensures Peek(Lexing.Tokens(W(Spelling(DirectionWord(d)), k))) != Punct('@')
  {
    hide Lexing.Tokens, W, Delimited, Classify;
    LexLaws();
    KeywordLaws();
  }

  lemma ParameterText(v: Parameter, k: Bytes)
    requires PrintableParameter(v) && Delimited(k)
    ensures ParseParameter(Lexing.Tokens(PrintParameter(v, k))) == Ok((v, Lexing.Tokens(k)))
  {
    hide Lexing.Tokens, W, C, Indent, Delimited, Stoull, IsIdentifier, IsQuoted, KeywordOf, Decimal, IsWord,
         Spelling, PrintInlineAnnotations, ParseAnnotations, PrintableAnnotations,
         PrintType, ParseType, PrintableType, DirectionWord, ParseDirection;
    LexLaws();
    KeywordLaws();
    var k3 := C(' ', W(v.name, k));
    var k2 := C(' ', PrintType(v.ty, k3));
    var k1 := W(Spelling(DirectionWord(v.direction)), k2);
    DirectionText(v.direction, k2);
    InlineAnnotationsText(v.annotations, k1);
    TypeText(v.ty, k3);
  }

  lemma {:induction false} ParametersText(vs: seq<Parameter>, k: Bytes)
    requires forall v <- vs :: PrintableParameter(v)
    ensures ParseParameters(Lexing.Tokens(PrintParameters(vs, C(')', k)))) == Ok((vs, Lexing.Tokens(C(')', k))))
  {
    hide Lexing.Tokens, W, C, Indent, Delimited, Stoull, IsIdentifier, IsQuoted, KeywordOf, Decimal, IsWord,
         Spelling, PrintParameter, ParseParameter, PrintableParameter;
    LexLaws();
    if vs != [] {
      var next := if |vs| == 1 then C(')', k) else C(',', C(' ', PrintParameters(vs[1..], C(')', k))));
      ParameterText(vs[0], next);
      ParameterStart(Lexing.Tokens(PrintParameter(vs[0], next)));
      ParametersText(vs[1..], k);
      assert vs == [vs[0]] + vs[1..];
    }
  }

  lemma ParameterStart(ts: Parsing.Tokens)
    requires ParseParameter(ts).Ok?
    ensures Peek(ts) != Punct(')')
  {
    hide ParseAnnotation, ParseType;
  }

  // ---------------------------------------------------------------- declarations

  lemma ConsumeLaws()
    ensures forall t, ts :: Consume([t] + ts, t) == Ok(ts)
    ensures forall n: IdentifierText, ts :: ParseIdentifier([Ident(n)] + ts) == Ok((n, ts))
    ensures forall n: u64, ts :: ParseNumber([Number(Decimal(n))] + ts) == Ok((n, ts))
  {
    hide Decimal;
    forall n: u64, ts ensures ParseNumber([Number(Decimal(n))] + ts) == Ok((n, ts)) {
      StoullDecimal(n);
    }
  }

  lemma CloseText(k: Bytes)
    ensures Peek(Lexing.Tokens(PrintClose(k))) == Punct('}')
    ensures Lexing.Tokens(PrintClose(k)) == [Punct('}'), Punct(';')] + Lexing.Tokens(k)
  {
    hide Lexing.Tokens, C, Indent;
    LexLaws();
  }

  lemma StructFieldText(v: StructField, k: Bytes)
    requires PrintableStructField(v)
    ensures ParseStructField(Lexing.Tokens(PrintStructField(v, k))) == Ok((v, Lexing.Tokens(k)))
    ensures Peek(Lexing.Tokens(PrintStructField(v, k))) != Punct('}')
  {
    hide Lexing.Tokens, W, C, Indent, Delimited, Stoull, IsIdentifier, IsQuoted, KeywordOf, Decimal, IsWord,
         Spelling, PrintType, ParseType, PrintableType, Consume, ParseIdentifier;
    LexLaws();
    KeywordLaws();
    ConsumeLaws();
    var k1 := C(' ', W(v.name, C(';', C('\n', k))));
    TypeText(v.ty, k1);
    var t1 := [Punct(';')] + Lexing.Tokens(k);
    assert Lexing.Tokens(k1) == [Ident(v.name)] + t1;
    assert ParseIdentifier([Ident(v.name)] + t1) == Ok((v.name, t1));
    assert Consume(t1, Punct(';')) == Ok(Lexing.Tokens(k));
    assert v == StructField(v.ty, v.name);
    TypeStart(Lexing.Tokens(PrintType(v.ty, k1)));
  }

  lemma {:induction false} StructFieldsText(vs: seq<StructField>, k: Bytes)
    requires forall v <- vs :: PrintableStructField(v)
    ensures ParseStructFields(Lexing.Tokens(PrintStructFields(vs, PrintClose(k)))) == Ok((vs, Lexing.Tokens(PrintClose(k))))
  {
    hide Lexing.Tokens, PrintStructField, ParseStructField, PrintableStructField, PrintClose;
    CloseText(k);
    if vs != [] {
      StructFieldText(vs[0], PrintStructFields(vs[1..], PrintClose(k)));
      StructFieldsText(vs[1..], k);
      assert vs == [vs[0]] + vs[1..];
    }
  }

  lemma TypeStart(ts: Parsing.Tokens)
    requires ParseType(ts).Ok?
    ensures Peek(ts) != Punct('}')
  {
  }

  lemma StructText(v: Struct, k: Bytes)
    requires PrintableStruct(v)
    ensures ParseStruct(Lexing.Tokens(PrintBareStruct(v, k)), v.annotations) == Ok((v, Lexing.Tokens(k)))
    ensures Peek(Lexing.Tokens(PrintBareStruct(v, k))) == Reserved(KwStruct)
  {
    hide Lexing.Tokens, W, C, Indent, Delimited, Stoull, IsIdentifier, IsQuoted, KeywordOf, Decimal, IsWord,
         Spelling, PrintStructFields, ParseStructFields, PrintableStructField, PrintClose,
         PrintableAnnotations;
    LexLaws();
    KeywordLaws();
    CloseText(k);
    StructFieldsText(v.fields, k);
  }

  lemma TypedHeadText(keyword: Keyword, ty: Type, name: Bytes, k: Bytes)
    requires PrintableType(ty) && IsIdentifier(name)
    ensures ParseTypedHead(Lexing.Tokens(PrintTypedHead(keyword, ty, name, k)), Reserved(keyword))
            == Ok(((ty, name), Lexing.Tokens(k)))
    ensures Peek(Lexing.Tokens(PrintTypedHead(keyword, ty, name, k))) == Reserved(keyword)
  {
    hide Lexing.Tokens, W, C, Indent, Delimited, Stoull, IsIdentifier, IsQuoted, KeywordOf, Decimal, IsWord,
         Spelling, PrintType, ParseType, PrintableType, Consume, ParseIdentifier;
    LexLaws();
    KeywordLaws();
    ConsumeLaws();
    var k1 := C('>', C(' ', W(name, C(' ', C('{', C('\n', k))))));
    var t2 := [Punct('{')] + Lexing.Tokens(k);
    var t1 := [Ident(name)] + t2;
    assert Lexing.Tokens(k1) == [Punct('>')] + t1;
    TypeText(ty, k1);
    var t0 := [Punct('<')] + Lexing.Tokens(PrintType(ty, k1));
    assert Lexing.Tokens(PrintTypedHead(keyword, ty, name, k)) == [Reserved(keyword)] + t0;
    assert Consume([Reserved(keyword)] + t0, Reserved(keyword)) == Ok(t0);
    assert Consume(t0, Punct('<')) == Ok(Lexing.Tokens(PrintType(ty, k1)));
    assert Consume(Lexing.Tokens(k1), Punct('>')) == Ok(t1);
    assert ParseIdentifier(t1) == Ok((name, t2));
    assert Consume(t2, Punct('{')) == Ok(Lexing.Tokens(k));
  }

  lemma BitfieldFieldText(v: BitfieldField, k: Bytes)
    requires PrintableBitfieldField(v)
    ensures ParseBitfieldField(Lexing.Tokens(PrintBitfieldField(v, k))) == Ok((v, Lexing.Tokens(k)))
    ensures Peek(Lexing.Tokens(PrintBitfieldField(v, k))) != Punct('}')
  {
    hide Lexing.Tokens, W, C, Indent, Delimited, Stoull, IsIdentifier, IsQuoted, KeywordOf, Decimal, IsWord,
         Spelling, Consume, ParseIdentifier, ParseNumber;
    LexLaws();
    KeywordLaws();
    ConsumeLaws();
    var t2 := [Punct(';')] + Lexing.Tokens(k);
    var t1 := [Number(Decimal(v.bits))] + t2;
    var t0 := [Punct(':')] + t1;
    assert Lexing.Tokens(PrintBitfieldField(v, k)) == [Ident(v.name)] + t0;
    assert ParseIdentifier([Ident(v.name)] + t0) == Ok((v.name, t0));
    assert Consume(t2, Punct(';')) == Ok(Lexing.Tokens(k));
    assert Consume(t0, Punct(':')) == Ok(t1);
    assert ParseNumber(t1) == Ok((v.bits, t2));
    assert v == BitfieldField(v.name, v.bits);
  }

  lemma {:induction false} BitfieldFieldsText(vs: seq<BitfieldField>, k: Bytes)
    requires forall v <- vs :: PrintableBitfieldField(v)
    ensures ParseBitfieldFields(Lexing.Tokens(PrintBitfieldFields(vs, PrintClose(k)))) == Ok((vs, Lexing.Tokens(PrintClose(k))))
  {
    hide Lexing.Tokens, PrintBitfieldField, ParseBitfieldField, PrintableBitfieldField, PrintClose;
    CloseText(k);
    if vs != [] {
      BitfieldFieldText(vs[0], PrintBitfieldFields(vs[1..], PrintClose(k)));
      BitfieldFieldsText(vs[1..], k);
      assert vs == [vs[0]] + vs[1..];
    }
  }

  lemma BitfieldText(v: Bitfield, k: Bytes)
    requires PrintableBitfield(v)
    ensures ParseBitfield(Lexing.Tokens(PrintBareBitfield(v, k)), v.annotations) == Ok((v, Lexing.Tokens(k)))
    ensures Peek(Lexing.Tokens(PrintBareBitfield(v, k))) == Reserved(KwBitfield)
  {
    hide Lexing.Tokens, W, C, Indent, Delimited, Stoull, IsIdentifier, IsQuoted, KeywordOf, Decimal, IsWord,
         Spelling, PrintTypedHead, ParseTypedHead, PrintBitfieldFields, ParseBitfieldFields, PrintClose,
         PrintableAnnotations, PrintableType, PrintableBitfieldField;
    CloseText(k);
    BitfieldFieldsText(v.fields, k);
    TypedHeadText(KwBitfield, v.baseType, v.name, PrintBitfieldFields(v.fields, PrintClose(k)));
  }

  lemma EnumMemberLine(name: Bytes, value: u64, k: Bytes)
    requires IsIdentifier(name) && Delimited(k)
    ensures Lexing.Tokens(Indent(3, W(name, C(' ', C('=', C(' ', W(Decimal(value), k))))))) ==
            [Ident(name)] + ([Punct('=')] + ([Number(Decimal(value))] + Lexing.Tokens(k)))
  {
    hide Lexing.Tokens, W, C, Indent, Delimited, IsIdentifier, Decimal;
    LexLaws();
    KeywordLaws();
  }

  lemma EnumMemberText(v: EnumMember, k: Bytes)
    requires PrintableEnumMember(v) && Delimited(k)
    ensures ParseEnumMember(Lexing.Tokens(PrintEnumMember(v, k))) == Ok((v, Lexing.Tokens(k)))
  {
    hide Lexing.Tokens, W, C, Indent, Delimited, Decimal, IsIdentifier, Consume, ParseIdentifier, ParseNumber,
         PrintAnnotations, ParseAnnotations, PrintableAnnotations;
    var line := Indent(3, W(v.name, C(' ', C('=', C(' ', W(Decimal(v.value), k))))));
    EnumMemberLine(v.name, v.value, k);
    AnnotationsText(v.annotations, 3, line);
    ConsumeLaws();
    var number := [Number(Decimal(v.value))] + Lexing.Tokens(k);
    assert ParseIdentifier(Lexing.Tokens(line)) == Ok((v.name, [Punct('=')] + number));
    assert Consume([Punct('=')] + number, Punct('=')) == Ok(number);
    assert ParseNumber(number) == Ok((v.value, Lexing.Tokens(k)));
  }

  lemma EnumMemberStart(ts: Parsing.Tokens)
    requires ParseEnumMember(ts).Ok?
    ensures Peek(ts) != Punct('}')
  {
    hide ParseAnnotation;
  }

  lemma {:induction false} EnumMembersText(vs: seq<EnumMember>, k: Bytes)
    requires forall v <- vs :: PrintableEnumMember(v)
    ensures ParseEnumMembers(Lexing.Tokens(PrintEnumMembers(vs, PrintClose(k))))
            == Ok((vs, Lexing.Tokens(PrintClose(k))))
  {
    hide Lexing.Tokens, W, C, Indent, Delimited, Stoull, IsIdentifier, IsQuoted, KeywordOf, Decimal, IsWord,
         Spelling, PrintClose, PrintEnumMember, ParseEnumMember, PrintableEnumMember;
    LexLaws();
    CloseText(k);
    if vs != [] {
      var next := if |vs| == 1 then C('\n', PrintClose(k)) else C(',', C('\n', PrintEnumMembers(vs[1..], PrintClose(k))));
      EnumMemberText(vs[0], next);
      EnumMemberStart(Lexing.Tokens(PrintEnumMember(vs[0], next)));
      EnumMembersText(vs[1..], k);
      assert vs == [vs[0]] + vs[1..];
    }
  }

  lemma EnumText(v: Enum, k: Bytes)
    requires PrintableEnum(v)
    ensures ParseEnum(Lexing.Tokens(PrintBareEnum(v, k)), v.annotations) == Ok((v, Lexing.Tokens(k)))
    ensures Peek(Lexing.Tokens(PrintBareEnum(v, k))) == Reserved(KwEnum)
  {
    hide Lexing.Tokens, W, C, Indent, Delimited, Stoull, IsIdentifier, IsQuoted, KeywordOf, Decimal, IsWord,
         Spelling, PrintTypedHead, ParseTypedHead, PrintEnumMembers, ParseEnumMembers, PrintClose,
         PrintableAnnotations, PrintableType, PrintableEnumMember;
    CloseText(k);
    EnumMembersText(v.members, k);
    TypedHeadText(KwEnum, v.baseType, v.name, PrintEnumMembers(v.members, PrintClose(k)));
  }

  lemma FunctionText(v: Function, k: Bytes)
    requires PrintableFunction(v)
    ensures ParseFunction(Lexing.Tokens(PrintBareFunction(v, k)), v.annotations, v.id) == Ok((v, Lexing.Tokens(k)))
    ensures Peek(Lexing.Tokens(PrintBareFunction(v, k))) == Reserved(KwFunction)
  {
    hide Lexing.Tokens, W, C, Indent, Delimited, Stoull, IsIdentifier, IsQuoted, KeywordOf, Decimal, IsWord,
         Spelling, PrintParameters, ParseParameters, PrintableParameter, PrintableAnnotations;
    LexLaws();
    KeywordLaws();
    var k2 := C(')', C(';', C('\n', k)));
    var k1 := PrintParameters(v.parameters, k2);
    assert Lexing.Tokens(k2) == [Punct(')')] + ([Punct(';')] + Lexing.Tokens(k));
    ParametersText(v.parameters, C(';', C('\n', k)));
    assert Lexing.Tokens(PrintBareFunction(v, k)) ==
           [Reserved(KwFunction)] + ([Ident(v.name)] + ([Punct('(')] + Lexing.Tokens(k1)));
  }

  // ---------------------------------------------------------------- the items of a revision

  lemma {:induction false} PendingText(
    vs: seq<Annotation>, level: nat, k: Bytes, pending: seq<Annotation>, v: Revision, id: u32)
    requires PrintableAnnotations(vs)
    ensures ParseItems(Lexing.Tokens(PrintAnnotations(vs, level, k)), pending, v, id)
            == ParseItems(Lexing.Tokens(k), pending + vs, v, id)
    decreases |vs|
  {
    hide Lexing.Tokens, C, Indent, PrintAnnotation, ParseAnnotation, PrintableAnnotation;
    if vs == [] {
      assert pending + vs == pending;
    } else {
      LexLaws();
      AnnotationText();
      var next := C('\n', PrintAnnotations(vs[1..], level, k));
      var ts := Lexing.Tokens(PrintAnnotations(vs, level, k));
      assert PrintableAnnotation(vs[0]);
      assert Peek(ts) == Punct('@') && ParseAnnotation(ts) == Ok((vs[0], Lexing.Tokens(next)));
      ItemsStep(ts, pending, v, id);
      PendingText(vs[1..], level, k, pending + [vs[0]], v, id);
      assert pending + [vs[0]] + vs[1..] == pending + vs;
    }
  }

  lemma ItemsStep(ts: Parsing.Tokens, pending: seq<Annotation>, v: Revision, id: u32)
    requires Peek(ts) == Punct('@') && ParseAnnotation(ts).Ok?
    ensures ParseItems(ts, pending, v, id) ==
            var (a, ts1) := ParseAnnotation(ts).value; ParseItems(ts1, pending + [a], v, id)
  {
  }

  lemma BlankText(blank: bool, k: Bytes)
    ensures Lexing.Tokens(if blank then C('\n', k) else k) == Lexing.Tokens(k)
  {
    hide Lexing.Tokens, C;
    LexLaws();
  }

  lemma {:induction false} BitfieldsText(vs: seq<Bitfield>, blank: bool, k: Bytes, v: Revision, id: u32)
    requires forall d <- vs :: PrintableBitfield(d)
    ensures ParseItems(Lexing.Tokens(PrintMany(PrintBitfield, vs, blank, k)), [], v, id)
            == ParseItems(Lexing.Tokens(k), [], v.(bitfields := v.bitfields + vs), id)
    decreases |vs|
  {
    hide Lexing.Tokens, PrintAnnotations, PrintBareBitfield, ParseBitfield, PrintableAnnotation, ParseItems;
    if vs == [] {
      assert v.bitfields + vs == v.bitfields;
    } else {
      var d := vs[0];
      assert PrintableBitfield(d);
      var next := PrintMany(PrintBitfield, vs[1..], true, k);
      BlankText(blank, PrintBitfield(d, next));
      PendingText(d.annotations, 2, PrintBareBitfield(d, next), [], v, id);
      assert [] + d.annotations == d.annotations;
      BitfieldText(d, next);
      ItemsUnfolded(Lexing.Tokens(PrintBareBitfield(d, next)), d.annotations, v, id);
      BitfieldsText(vs[1..], true, k, v.(bitfields := v.bitfields + [d]), id);
      assert v.bitfields + [d] + vs[1..] == v.bitfields + vs;
    }
  }

  lemma {:induction false} EnumsText(vs: seq<Enum>, blank: bool, k: Bytes, v: Revision, id: u32)
    requires forall d <- vs :: PrintableEnum(d)
    ensures ParseItems(Lexing.Tokens(PrintMany(PrintEnum, vs, blank, k)), [], v, id)
            == ParseItems(Lexing.Tokens(k), [], v.(enums := v.enums + vs), id)
    decreases |vs|
  {
    hide Lexing.Tokens, PrintAnnotations, PrintBareEnum, ParseEnum, PrintableAnnotation, ParseItems;
    if vs == [] {
      assert v.enums + vs == v.enums;
    } else {
      var d := vs[0];
      assert PrintableEnum(d);
      var next := PrintMany(PrintEnum, vs[1..], true, k);
      BlankText(blank, PrintEnum(d, next));
      PendingText(d.annotations, 2, PrintBareEnum(d, next), [], v, id);
      assert [] + d.annotations == d.annotations;
      EnumText(d, next);
      ItemsUnfolded(Lexing.Tokens(PrintBareEnum(d, next)), d.annotations, v, id);
      EnumsText(vs[1..], true, k, v.(enums := v.enums + [d]), id);
      assert v.enums + [d] + vs[1..] == v.enums + vs;
    }
  }

  lemma {:induction false} StructsText(vs: seq<Struct>, blank: bool, k: Bytes, v: Revision, id: u32)
    requires forall d <- vs :: PrintableStruct(d)
    ensures ParseItems(Lexing.Tokens(PrintMany(PrintStruct, vs, blank, k)), [], v, id)
            == ParseItems(Lexing.Tokens(k), [], v.(structs := v.structs + vs), id)
    decreases |vs|
  {
    hide Lexing.Tokens, PrintAnnotations, PrintBareStruct, ParseStruct, PrintableAnnotation, ParseItems;
    if vs == [] {
      assert v.structs + vs == v.structs;
    } else {
      var d := vs[0];
      assert PrintableStruct(d);
      var next := PrintMany(PrintStruct, vs[1..], true, k);
      BlankText(blank, PrintStruct(d, next));
      PendingText(d.annotations, 2, PrintBareStruct(d, next), [], v, id);
      assert [] + d.annotations == d.annotations;
      StructText(d, next);
      ItemsUnfolded(Lexing.Tokens(PrintBareStruct(d, next)), d.annotations, v, id);
      StructsText(vs[1..], true, k, v.(structs := v.structs + [d]), id);
      assert v.structs + [d] + vs[1..] == v.structs + vs;
    }
  }

  /** The ids the parser would give to `fs`, starting at `id`. */
  predicate Numbered(fs: seq<Function>, id: u32) {
    fs == [] || (fs[0].id == id && Numbered(fs[1..], NextId(id)))
  }

  function IdAfter(fs: seq<Function>, id: u32): u32 {
    if fs == [] then id else IdAfter(fs[1..], NextId(id))
  }

  lemma {:induction false} FunctionsText(vs: seq<Function>, blank: bool, k: Bytes, v: Revision, id: u32)
    requires (forall d <- vs :: PrintableFunction(d)) && Numbered(vs, id)
    ensures ParseItems(Lexing.Tokens(PrintMany(PrintFunction, vs, blank, k)), [], v, id)
            == ParseItems(Lexing.Tokens(k), [], v.(functions := v.functions + vs), IdAfter(vs, id))
    decreases |vs|
  {
    hide Lexing.Tokens, PrintAnnotations, PrintBareFunction, ParseFunction, PrintableAnnotation, ParseItems, NextId;
    if vs == [] {
      assert v.functions + vs == v.functions;
    } else {
      var d := vs[0];
      assert PrintableFunction(d);
      var next := PrintMany(PrintFunction, vs[1..], true, k);
      BlankText(blank, PrintFunction(d, next));
      PendingText(d.annotations, 2, PrintBareFunction(d, next), [], v, id);
      assert [] + d.annotations == d.annotations;
      FunctionText(d, next);
      ItemsUnfolded(Lexing.Tokens(PrintBareFunction(d, next)), d.annotations, v, id);
      FunctionsText(vs[1..], true, k, v.(functions := v.functions + [d]), NextId(id));
      assert v.functions + [d] + vs[1..] == v.functions + vs;
    }
  }

  // ---------------------------------------------------------------- revisions

  /** The declarations of a revision, bitfields first, from its first item to its closing brace. */
  lemma ItemsText(v: Revision, k: Bytes, id: u32)
    requires PrintableRevision(v) && Numbered(v.functions, id) && Peek(Lexing.Tokens(k)) == Punct('}')
    ensures ParseItems(Lexing.Tokens(PrintItems(v, k)), [], EmptyRevision(v.version), id)
            == Ok(((v, IdAfter(v.functions, id)), Lexing.Tokens(k)))
  {
    hide Lexing.Tokens, ParseItems, PrintMany, Numbered, IdAfter,
         PrintableBitfield, PrintableEnum, PrintableStruct, PrintableFunction;
    var b1 := v.bitfields != [];
    var b2 := b1 || v.enums != [];
    var b3 := b2 || v.structs != [];
    var k3 := PrintMany(PrintFunction, v.functions, b3, k);
    var k2 := PrintMany(PrintStruct, v.structs, b2, k3);
    var k1 := PrintMany(PrintEnum, v.enums, b1, k2);
    var t0 := EmptyRevision(v.version);
    var t1 := t0.(bitfields := v.bitfields);
    var t2 := t1.(enums := v.enums);
    var t3 := t2.(structs := v.structs);
    assert [] + v.bitfields == v.bitfields && [] + v.enums == v.enums;
    assert [] + v.structs == v.structs && [] + v.functions == v.functions;
    BitfieldsText(v.bitfields, false, k1, t0, id);
    EnumsText(v.enums, b1, k2, t1, id);
    StructsText(v.structs, b2, k3, t2, id);
    FunctionsText(v.functions, b3, k, t3, id);
    assert t3.(functions := v.functions) == v;
    ItemsEnd(Lexing.Tokens(k), v, IdAfter(v.functions, id));
  }

  /** The tokens in front of the items. */
  lemma RevisionHead(v: Revision, k: Bytes)
    requires v.annotations == []
    ensures Lexing.Tokens(PrintRevision(v, k)) ==
            [Reserved(KwAbirevision)] + ([Number(Decimal(v.version))] + ([Punct('{')] +
            Lexing.Tokens(PrintItems(v, Indent(1, C('}', C('\n', k)))))))
  {
    hide Lexing.Tokens, W, C, Indent, Delimited, Decimal, Spelling, PrintItems;
    LexLaws();
    KeywordLaws();
  }

  lemma RevisionText(v: Revision, k: Bytes, id: u32)
    requires PrintableRevision(v) && Numbered(v.functions, id)
    ensures ParseRevision(Lexing.Tokens(PrintRevision(v, k)), id)
            == Ok(((v, IdAfter(v.functions, id)), Lexing.Tokens(k)))
  {
    hide Lexing.Tokens, C, Indent, Decimal, ParseItems, Consume, ParseNumber, PrintItems, PrintRevision, Numbered,
         IdAfter, Stoull, PrintableBitfield, PrintableEnum, PrintableStruct, PrintableFunction;
    ConsumeLaws();
    var end := Indent(1, C('}', C('\n', k)));
    var close := [Punct('}')] + Lexing.Tokens(k);
    assert Lexing.Tokens(end) == close by { LexLaws(); }
    ItemsText(v, end, id);
    RevisionHead(v, k);
    var head := [Punct('{')] + Lexing.Tokens(PrintItems(v, end));
    var number := [Number(Decimal(v.version))] + head;
    assert Consume([Reserved(KwAbirevision)] + number, Reserved(KwAbirevision)) == Ok(number);
    assert ParseNumber(number) == Ok((v.version, head)) by { StoullDecimal(v.version); }
    assert Consume(head, Punct('{')) == Ok(Lexing.Tokens(PrintItems(v, end)));
    assert Consume(close, Punct('}')) == Ok(Lexing.Tokens(k));
  }

  lemma ItemsEnd(ts: Parsing.Tokens, v: Revision, id: u32)
    requires Peek(ts) == Punct('}')
    ensures ParseItems(ts, [], v, id) == Ok(((v, id), ts))
  {
  }

  lemma RevisionStart(ts: Parsing.Tokens, id: u32)
    requires ParseRevision(ts, id).Ok?
    ensures Peek(ts) != Punct('}')
  {
    hide ParseItems, ParseNumber;
  }

  ghost predicate NumberedRevisions(vs: seq<Revision>, id: u32) {
    vs == [] || (Numbered(vs[0].functions, id) && NumberedRevisions(vs[1..], IdAfter(vs[0].functions, id)))
  }

  function IdAfterRevisions(vs: seq<Revision>, id: u32): u32 {
    if vs == [] then id else IdAfterRevisions(vs[1..], IdAfter(vs[0].functions, id))
  }

  lemma NoRevisions(ts: Parsing.Tokens, next: u64, id: u32)
    requires Peek(ts) == Punct('}')
    ensures ParseRevisions(ts, next, id) == Ok((([], id), ts))
  {
  }

  lemma {:induction false} RevisionsText(vs: seq<Revision>, blank: bool, k: Bytes, next: nat, id: u32)
    requires next + |vs| < TWO64
    requires (forall v <- vs :: PrintableRevision(v)) && NumberedRevisions(vs, id)
    requires forall j :: 0 <= j < |vs| ==> vs[j].version == next + j
    requires Peek(Lexing.Tokens(k)) == Punct('}')
    ensures ParseRevisions(Lexing.Tokens(PrintMany(PrintRevision, vs, blank, k)), next, id)
            == Ok(((vs, IdAfterRevisions(vs, id)), Lexing.Tokens(k)))
    decreases |vs|
  {
    hide Lexing.Tokens, PrintRevision, ParseRevision, PrintableRevision, Numbered, IdAfter, ParseRevisions;
    OneRevision(Lexing.Tokens(PrintMany(PrintRevision, vs, blank, k)), next, id);
    if vs == [] {
      NoRevisions(Lexing.Tokens(k), next, id);
    } else {
      var v := vs[0];
      assert PrintableRevision(v) && v.version == next;
      var rest := PrintMany(PrintRevision, vs[1..], true, k);
      BlankText(blank, PrintRevision(v, rest));
      RevisionText(v, rest, id);
      RevisionStart(Lexing.Tokens(PrintRevision(v, rest)), id);
      forall j | 0 <= j < |vs[1..]| ensures vs[1..][j].version == next + 1 + j {
        assert vs[1..][j] == vs[j + 1];
      }
      RevisionsText(vs[1..], true, k, next + 1, IdAfter(v.functions, id));
      assert vs == [v] + vs[1..];
    }
  }
}
