/** The checks on an extension compare annotations through a text key (core/main.cc:284-358). On
    annotations that came from the lexer the key identifies them, so validation accepts exactly
    equal headers; on annotations of a hand-made artifact it does so unless they are ambiguous. */
module ExtensionChecks {
  import opened Octets
  import opened Ast
  import opened SifArtifact
  import opened SifTheorems
  import opened Lexing
  import opened Parsing
  import opened Printing
  import opened TextRoundTrip
  import opened Compiling
  import opened Reproduction
  import opened Histories

  // ---------------------------------------------------------------- the key as tokens

  type Ts = seq<Token>

  function ExpressionTokens(v: Expression): (r: Ts)
    requires PrintableExpression(v)
    ensures |r| == 3 && r[0].Ident?
  {
    match v
    case StringLiteral(value) => [Ident("s"), Punct(':'), Text(value)]
    case NumberLiteral(number) => [Ident("n"), Punct(':'), Number(Decimal(number))]
    case Identifier(name) => [Ident("i"), Punct(':'), Ident(name)]
  }

  /** The arguments, the closing parenthesis, and the tokens `ts` after it. */
  function ArgumentsTokens(vs: seq<Expression>, ts: Ts): Ts
    requires forall v <- vs :: PrintableExpression(v)
  {
    if vs == [] then [Punct(')')] + ts
    else if |vs| == 1 then ExpressionTokens(vs[0]) + ([Punct(')')] + ts)
    else ExpressionTokens(vs[0]) + ([Punct(',')] + ArgumentsTokens(vs[1..], ts))
  }

  function KeyTokens(vs: seq<Annotation>): Ts
    requires PrintableAnnotations(vs)
  {
    if vs == [] then []
    else
      assert PrintableAnnotation(vs[0]);
      [Ident(vs[0].name), Punct('(')] + ArgumentsTokens(vs[0].args, KeyTokens(vs[1..]))
  }

  lemma ExpressionKeyTokens(v: Expression, k: Bytes)
    requires PrintableExpression(v) && Delimited(k)
    ensures Lexing.Tokens(ExpressionKey(v) + k) == ExpressionTokens(v) + Lexing.Tokens(k)
  {
    hide Lexing.Tokens, Delimited, Decimal, IsQuoted, IsIdentifier, Stoull, Indent, W, C;
    LexLaws();
    KeywordLaws();
    match v {
      case StringLiteral(value) => 
        assert "s" + [':'] == "s:";
        LexTag("s", value, k);
      case NumberLiteral(number) =>
        assert "n" + [':'] == "n:";
        LexTag("n", Decimal(number), k);
      case Identifier(name) =>
        assert "i" + [':'] == "i:";
        LexTag("i", name, k);
    }
  }

  /** A one-letter tag, a colon and the text of the argument. */
  lemma LexTag(tag: Bytes, w: Bytes, k: Bytes)
    requires tag == "s" || tag == "n" || tag == "i"
    ensures IsIdentifier(tag)
    ensures Lexing.Tokens(tag + [':'] + w + k) == [Ident(tag), Punct(':')] + Lexing.Tokens(W(w, k))
  {
    hide Lexing.Tokens, Delimited, Stoull, Indent;
    TagIsIdentifier(tag);
    hide IsIdentifier;
    LexLaws();
    KeywordLaws();
    assert tag + [':'] + w + k == W(tag, C(':', W(w, k)));
    assert Lexing.Tokens(C(':', W(w, k))) == [Punct(':')] + Lexing.Tokens(W(w, k));
  }

  lemma TagIsIdentifier(tag: Bytes)
    requires tag == "s" || tag == "n" || tag == "i"
    ensures IsIdentifier(tag)
  {
  }

  lemma {:induction false} ArgumentsKeyTokens(vs: seq<Expression>, k: Bytes)
    requires forall v <- vs :: PrintableExpression(v)
    ensures Lexing.Tokens(ArgumentsKey(vs) + C(')', k)) == ArgumentsTokens(vs, Lexing.Tokens(k))
    decreases |vs|
  {
    hide Lexing.Tokens, Delimited, C, ExpressionKey, ExpressionTokens, PrintableExpression;
    LexLaws();
    var end := C(')', k);
    if vs == [] {
      assert [] + end == end;
    } else if |vs| == 1 {
      ExpressionKeyTokens(vs[0], end);
      assert ArgumentsKey(vs) + end == ExpressionKey(vs[0]) + end;
    } else {
      var rest := C(',', ArgumentsKey(vs[1..]) + end);
      ExpressionKeyTokens(vs[0], rest);
      CommaKey(vs, end);
      ArgumentsKeyTokens(vs[1..], k);
    }
  }

  lemma CommaKey(vs: seq<Expression>, end: Bytes)
    requires |vs| > 1
    ensures ArgumentsKey(vs) + end == ExpressionKey(vs[0]) + C(',', ArgumentsKey(vs[1..]) + end)
  {
    hide ExpressionKey;
  }

  lemma {:induction false} AnnotationsKeyTokens(vs: seq<Annotation>)
    requires PrintableAnnotations(vs)
    ensures Lexing.Tokens(AnnotationsKey(vs)) == KeyTokens(vs)
    decreases |vs|
  {
    hide Lexing.Tokens, Delimited, W, C, ArgumentsKey, ArgumentsTokens, IsIdentifier;
    if vs == [] {
      NoTokens();
    } else {
      var v := vs[0];
      assert PrintableAnnotation(v);
      LexLaws();
      KeywordLaws();
      var next := C('\n', AnnotationsKey(vs[1..]));
      var args := ArgumentsKey(v.args) + C(')', next);
      OneKey(vs);
      ArgumentsKeyTokens(v.args, next);
      AnnotationsKeyTokens(vs[1..]);
      assert Lexing.Tokens(W(v.name, C('(', args))) == [Ident(v.name)] + ([Punct('(')] + Lexing.Tokens(args));
    }
  }

  lemma NoTokens()
    ensures Lexing.Tokens([]) == []
  {
  }

  lemma OneKey(vs: seq<Annotation>)
    requires vs != []
    ensures AnnotationsKey(vs) ==
            W(vs[0].name, C('(', ArgumentsKey(vs[0].args) + C(')', C('\n', AnnotationsKey(vs[1..])))))
  {
    hide ArgumentsKey;
  }

  // ---------------------------------------------------------------- reading a key back

  function ReadExpression(ts: Ts): (r: Option<Expression>)
    requires |ts| >= 3
    ensures r.Some? ==> PrintableExpression(r.value)
  {
    if !ts[0].Ident? || ts[1] != Punct(':') then None
    else
      match ts[2]
      case Text(value) => if ts[0].name == "s" then Some(StringLiteral(value)) else None
      case Number(digits) =>
        if ts[0].name == "n" && Stoull(digits).Ok? then Some(NumberLiteral(Stoull(digits).value)) else None
      case Ident(name) => if ts[0].name == "i" then Some(Identifier(name)) else None
      case _ => None
  }

  /** The arguments up to the closing parenthesis, and the tokens after it. */
  function ReadArguments(ts: Ts): (r: Option<(seq<Expression>, Ts)>)
    ensures r.Some? ==> |r.value.1| < |ts| && forall v <- r.value.0 :: PrintableExpression(v)
  {
    if ts != [] && ts[0] == Punct(')') then Some(([], ts[1..]))
    else if |ts| < 4 then None
    else
      match ReadExpression(ts)
      case None => None
      case Some(v) =>
        if ts[3] == Punct(')') then Some(([v], ts[4..]))
        else if ts[3] != Punct(',') then None
        else
          match ReadArguments(ts[4..])
          case None => None
          case Some((vs, rest)) => Some(([v] + vs, rest))
  }

  function ReadKey(ts: Ts): (r: Option<seq<Annotation>>)
    ensures r.Some? ==> PrintableAnnotations(r.value)
    decreases |ts|
  {
    if ts == [] then Some([])
    else if |ts| < 2 || !ts[0].Ident? || ts[1] != Punct('(') then None
    else
      match ReadArguments(ts[2..])
      case None => None
      case Some((args, rest)) =>
        match ReadKey(rest)
        case None => None
        case Some(vs) => Some([Annotation(ts[0].name, args)] + vs)
  }

  lemma ReadBackExpression(v: Expression, ts: Ts)
    requires PrintableExpression(v)
    ensures ReadExpression(ExpressionTokens(v) + ts) == Some(v)
  {
    hide Stoull, Decimal, IsQuoted, IsIdentifier;
    var s: Bytes, n: Bytes, i: Bytes := "s", "n", "i";
    assert s[0] != n[0] && n[0] != i[0] && s[0] != i[0];
    if v.NumberLiteral? { StoullDecimal(v.number); }
  }

  lemma ReadOneArgument(v: Expression, t: Token, ts: Ts)
    requires PrintableExpression(v)
    ensures ReadArguments(ExpressionTokens(v) + ([t] + ts)) ==
            if t == Punct(')') then Some(([v], ts))
            else if t != Punct(',') then None
            else match ReadArguments(ts) { case None => None case Some((vs, rest)) => Some(([v] + vs, rest)) }
  {
    hide PrintableExpression, ExpressionTokens, ReadExpression;
    var all := ExpressionTokens(v) + ([t] + ts);
    ReadBackExpression(v, [t] + ts);
    assert all[0] == ExpressionTokens(v)[0] && all[3] == t && all[4..] == ts;
  }

  lemma {:induction false} ReadBackArguments(vs: seq<Expression>, ts: Ts)
    requires forall v <- vs :: PrintableExpression(v)
    ensures ReadArguments(ArgumentsTokens(vs, ts)) == Some((vs, ts))
    decreases |vs|
  {
    hide PrintableExpression, ExpressionTokens, ReadExpression;
    if vs == [] {
      assert ArgumentsTokens(vs, ts)[1..] == ts;
    } else {
      hide ReadArguments;
      assert vs == [vs[0]] + vs[1..];
      if |vs| == 1 {
        assert [vs[0]] == vs;
        ReadOneArgument(vs[0], Punct(')'), ts);
      } else {
        ReadOneArgument(vs[0], Punct(','), ArgumentsTokens(vs[1..], ts));
        ReadBackArguments(vs[1..], ts);
      }
    }
  }

  lemma {:induction false} ReadBackKey(vs: seq<Annotation>)
    requires PrintableAnnotations(vs)
    ensures ReadKey(KeyTokens(vs)) == Some(vs)
    decreases |vs|
  {
    hide ArgumentsTokens, ReadArguments, IsIdentifier;
    if vs != [] {
      assert PrintableAnnotation(vs[0]);
      var ts := KeyTokens(vs);
      assert ts[2..] == ArgumentsTokens(vs[0].args, KeyTokens(vs[1..]));
      ReadBackArguments(vs[0].args, KeyTokens(vs[1..]));
      ReadBackKey(vs[1..]);
      assert vs == [vs[0]] + vs[1..];
    }
  }

  // ---------------------------------------------------------------- which keys identify

  /** What the lexer would make of the key. */
  function KeyReading(vs: seq<Annotation>): (r: Option<seq<Annotation>>)
    ensures r.Some? ==> PrintableAnnotations(r.value)
  {
    ReadKey(Lexing.Tokens(AnnotationsKey(vs)))
  }

  /** SIDL text cannot express the annotations, but their key is that of others which it can. */
  predicate Ambiguous(vs: seq<Annotation>) {
    && !PrintableAnnotations(vs)
    && KeyReading(vs).Some? && AnnotationsKey(KeyReading(vs).value) == AnnotationsKey(vs)
  }

  /** The key of annotations from the lexer reads back as them. */
  lemma KeyReadsBack(vs: seq<Annotation>)
    requires PrintableAnnotations(vs)
    ensures KeyReading(vs) == Some(vs)
  {
    hide PrintableAnnotations, Lexing.Tokens, ReadKey, KeyTokens;
    AnnotationsKeyTokens(vs);
    ReadBackKey(vs);
  }

  /** Equal keys, equal annotations. */
  lemma KeyIdentifiesAnnotations(vs: seq<Annotation>, ws: seq<Annotation>)
    requires PrintableAnnotations(vs) && PrintableAnnotations(ws)
    ensures AnnotationsKey(vs) == AnnotationsKey(ws) <==> vs == ws
  {
    hide PrintableAnnotations, Lexing.Tokens, ReadKey;
    KeyReadsBack(vs);
    KeyReadsBack(ws);
  }

  /** Other annotations from the lexer with the same key exist exactly for ambiguous ones, and are
      then what the key reads as. */
  lemma SameKeyIffAmbiguous(vs: seq<Annotation>, ws: seq<Annotation>)
    requires PrintableAnnotations(ws)
    ensures ws != vs && AnnotationsKey(ws) == AnnotationsKey(vs) <==> Ambiguous(vs) && KeyReading(vs) == Some(ws)
  {
    hide PrintableAnnotations, Lexing.Tokens, ReadKey, AnnotationsKey;
    KeyReadsBack(ws);
    if PrintableAnnotations(vs) { KeyReadsBack(vs); }
  }

  // ---------------------------------------------------------------- validation

  /** An extension is accepted exactly when its whole header equals the base's. */
  lemma ValidatesEqualHeaders(i: Interface, j: Interface)
    requires PrintableAnnotations(i.annotations) && PrintableAnnotations(j.annotations)
    ensures Validate(i, j) == None <==> Bare(i) == Bare(j) && i.hasUuid && i.hasPrefix
  {
    hide PrintableAnnotations, AnnotationsKey;
    KeyIdentifiesAnnotations(i.annotations, j.annotations);
  }

  lemma ValidatesByKey(i: Interface, j: Interface)
    ensures Validate(i, j) == None <==>
            && i.hasUuid && i.hasPrefix && Bare(i) == Bare(j.(annotations := i.annotations))
            && AnnotationsKey(i.annotations) == AnnotationsKey(j.annotations)
  {
    hide AnnotationsKey;
  }

  /** Validation against any base tells every other header from its own, exactly when the base's
      annotations are not ambiguous. */
  lemma ValidationIsExactIff(i: Interface)
    requires i.hasUuid && i.hasPrefix
    ensures (forall j: Interface :: PrintableAnnotations(j.annotations) ==> (Validate(i, j) == None <==> Bare(i) == Bare(j)))
            <==> !Ambiguous(i.annotations)
  {
    hide PrintableAnnotations, AnnotationsKey, KeyReading, Ambiguous;
    forall j: Interface | PrintableAnnotations(j.annotations) && !Ambiguous(i.annotations)
      ensures Validate(i, j) == None <==> Bare(i) == Bare(j)
    {
      SameKeyIffAmbiguous(i.annotations, j.annotations);
    }
    if Ambiguous(i.annotations) {
      var ws := AmbiguousReading(i.annotations);
      var j := i.(annotations := ws);
      SameKeyIffAmbiguous(i.annotations, ws);
      assert Validate(i, j) == None && Bare(i).annotations != Bare(j).annotations;
    }
  }

  lemma AmbiguousReading(vs: seq<Annotation>) returns (ws: seq<Annotation>)
    requires Ambiguous(vs)
    ensures PrintableAnnotations(ws) && KeyReading(vs) == Some(ws)
  {
    hide KeyReading, AnnotationsKey;
    ws := KeyReading(vs).value;
  }

  /** In a run every further source has exactly the header of the artifact it extends. */
  lemma ExtensionsShareTheHeader(cr: Crypto, sources: seq<Bytes>, b: Bytes)
    requires |sources| > 1 && Run(cr, sources) == Ok(b) && FewFunctions(cr, b)
    ensures var base := Run(cr, sources[..|sources| - 1]);
            && base.Ok? && SifRead(cr, base.value).Ok?
            && var i := SifRead(cr, base.value).value;
            && |i.revisions| < TWO64
            && var j := ParseSource(sources[|sources| - 1], |i.revisions|, i.currentFuncid);
            && j.Ok? && Bare(j.value) == Bare(i)
  {
    hide SifRead, CanonicalFlags, Compile, Extend, ParseSource, Validate, Functions, FuncidAfter,
         PrintableAnnotations, PrintableRevision, NumberedRevisions;
    var base := Run(cr, sources[..|sources| - 1]).value;
    var source := sources[|sources| - 1];
    ExtendedInterface(cr, base, source, b);
    var i := SifRead(cr, base).value;
    var j := ParseSource(source, |i.revisions|, i.currentFuncid).value;
    FunctionsAppend(i.revisions, j.revisions);
    RunInvariant(cr, sources[..|sources| - 1], base);
    ParsedSource(source, |i.revisions|, i.currentFuncid);
    ValidatesEqualHeaders(i, j);
  }
}
