/** The parser reads exactly the phrases of the grammar: for each node kind, parsing a phrase gives its
    tree and leaves what follows, and whatever is parsed was a phrase. */
module ParserGrammar {
  import opened Octets
  import opened Ast
  import opened Lexing
  import opened Parsing
  import opened TextRoundTrip
  import opened Grammar

  // ---------------------------------------------------------------- comma lists

  /** A comma list in front of its closing token is one phrase alone, or a phrase, a comma and a list. */
  lemma CommaCases<T(!new)>(p: (Ts, T) -> bool, u: Ts, vs: seq<T>) returns (a: Ts, b: Ts, comma: bool)
    requires CommaList(p, u, vs) && vs != []
    ensures p(a, vs[0])
    ensures if comma then CommaList(p, b, vs[1..]) && u == a + [Punct(',')] + b else |vs| == 1 && u == a
  {
    if |vs| == 1 {
      a :| p(a, vs[0]) && (u == a || u == a + [Punct(',')]);
      b, comma := [], u != a;
      assert u == a || u == a + [Punct(',')] + b;
    } else {
      a, b :| p(a, vs[0]) && CommaList(p, b, vs[1..]) && u == a + [Punct(',')] + b;
      comma := true;
    }
  }

  lemma CommaOne<T(!new)>(p: (Ts, T) -> bool, a: Ts, v: T)
    requires p(a, v)
    ensures CommaList(p, a, [v])
  {
    assert p(a, [v][0]);
  }

  lemma CommaMore<T(!new)>(p: (Ts, T) -> bool, a: Ts, v: T, b: Ts, vs: seq<T>)
    requires p(a, v) && CommaList(p, b, vs)
    ensures CommaList(p, a + [Punct(',')] + b, [v] + vs)
  {
    var u, ws := a + [Punct(',')] + b, [v] + vs;
    assert ws[1..] == vs && ws[0] == v;
    if vs == [] {
      assert u == a + [Punct(',')];
      assert |ws| == 1 && p(a, ws[0]) && (u == a || u == a + [Punct(',')]);
    } else {
      assert |ws| > 1 && p(a, ws[0]) && CommaList(p, b, ws[1..]) && u == a + [Punct(',')] + b;
    }
    assert CommaList(p, u, ws);
  }

  /** A list read item by item, as the three loops do it. */
  ghost predicate ListRead<T(!new)>(item: Ts -> Parsed<T>, list: Ts -> Parsed<seq<T>>, close: Token, ts: Ts) {
    list(ts) ==
    if Peek(ts) == close then Ok(([], ts))
    else
      match item(ts)
      case Err(e) => Err(e)
      case Ok((v, ts1)) =>
        if Peek(ts1) == close then Ok(([v], ts1))
        else if Peek(ts1) != Punct(',') then Err(Unexpected)
        else
          match list(ts1[1..])
          case Err(e) => Err(e)
          case Ok((vs, k)) => Ok(([v] + vs, k))
  }

  /** If items are read as their phrases, lists are read as comma lists. */
  lemma {:induction false} ListComplete<T(!new)>(
    p: (Ts, T) -> bool, item: Ts -> Parsed<T>, list: Ts -> Parsed<seq<T>>, close: Token, u: Ts, vs: seq<T>, k: Ts)
    requires forall ts :: ListRead(item, list, close, ts)
    requires forall a, v, j :: p(a, v) ==> item(a + j) == Ok((v, j)) && Peek(a + j) != close
    requires close != Punct(',') && CommaList(p, u, vs) && Peek(k) == close
    ensures list(u + k) == Ok((vs, k))
    decreases |vs|
  {
    assert ListRead(item, list, close, u + k);
    if vs == [] {
      assert u + k == k;
    } else {
      var a, b, comma := CommaCases(p, u, vs);
      if comma {
        var j := [Punct(',')] + (b + k);
        assert u + k == a + j && j[1..] == b + k;
        assert item(a + j) == Ok((vs[0], j));
        ListComplete(p, item, list, close, b, vs[1..], k);
        assert vs == [vs[0]] + vs[1..];
      } else {
        assert item(a + k) == Ok((vs[0], k));
        assert vs == [vs[0]];
      }
    }
  }

  lemma {:induction false} ListSound<T(!new)>(
    p: (Ts, T) -> bool, item: Ts -> Parsed<T>, list: Ts -> Parsed<seq<T>>, close: Token, ts: Ts) returns (u: Ts)
    requires forall t :: ListRead(item, list, close, t)
    requires forall t :: item(t).Ok? ==>
               |item(t).value.1| < |t| && exists a :: p(a, item(t).value.0) && t == a + item(t).value.1
    requires list(ts).Ok?
    ensures CommaList(p, u, list(ts).value.0) && ts == u + list(ts).value.1 && Peek(list(ts).value.1) == close
    decreases |ts|
  {
    assert ListRead(item, list, close, ts);
    if Peek(ts) == close {
      u := [];
    } else {
      var (v, ts1) := item(ts).value;
      var a :| p(a, v) && ts == a + ts1;
      if Peek(ts1) == close {
        u := a;
        CommaOne(p, a, v);
      } else {
        var b := ListSound(p, item, list, close, ts1[1..]);
        u := a + [Punct(',')] + b;
        CommaMore(p, a, v, b, list(ts1[1..]).value.0);
      }
    }
  }

  // ---------------------------------------------------------------- the parser reads phrases

  lemma ExpressionComplete(u: Ts, v: Expression, k: Ts)
    requires ExpressionPhrase(u, v)
    ensures ParseExpression(u + k) == Ok((v, k)) && Peek(u + k) != Punct(')')
  {
    hide Stoull;
    assert (u + k)[1..] == k;
  }

  lemma ExpressionSound(ts: Ts)
    requires ParseExpression(ts).Ok?
    ensures var (v, k) := ParseExpression(ts).value; ExpressionPhrase(ts[..1], v) && ts == ts[..1] + k
  {
    hide Stoull;
  }

  lemma ArgumentsComplete(u: Ts, vs: seq<Expression>, k: Ts)
    requires CommaList(ExpressionPhrase, u, vs) && Peek(k) == Punct(')')
    ensures ParseArguments(u + k) == Ok((vs, k))
  {
    hide ParseExpression, ExpressionPhrase, CommaList, ParseArguments;
    forall ts { ArgumentsRead(ts); }
    forall a, v, j | ExpressionPhrase(a, v) { ExpressionComplete(a, v, j); }
    ListComplete(ExpressionPhrase, ParseExpression, ParseArguments, Punct(')'), u, vs, k);
  }

  lemma ArgumentsRead(ts: Ts)
    ensures ListRead(ParseExpression, ParseArguments, Punct(')'), ts)
  {
    hide ParseExpression;
    if Peek(ts) != Punct(')') && ParseExpression(ts).Ok? {
      var (v, ts1) := ParseExpression(ts).value;
      if Peek(ts1) == Punct(')') { assert ParseArguments(ts1) == Ok(([], ts1)) && [v] + [] == [v]; }
    }
  }

  lemma ArgumentsSound(ts: Ts) returns (u: Ts)
    requires ParseArguments(ts).Ok?
    ensures var (vs, k) := ParseArguments(ts).value;
            CommaList(ExpressionPhrase, u, vs) && ts == u + k && Peek(k) == Punct(')')
  {
    hide ParseExpression, ExpressionPhrase, CommaList, ParseArguments;
    forall t { ArgumentsRead(t); }
    forall t | ParseExpression(t).Ok?
      ensures exists a :: ExpressionPhrase(a, ParseExpression(t).value.0) && t == a + ParseExpression(t).value.1
    {
      ExpressionSound(t);
    }
    u := ListSound(ExpressionPhrase, ParseExpression, ParseArguments, Punct(')'), ts);
  }

  lemma AnnotationComplete(u: Ts, v: Annotation, k: Ts)
    requires AnnotationPhrase(u, v)
    ensures ParseAnnotation(u + k) == Ok((v, k)) && Peek(u + k) == Punct('@')
  {
    hide ParseArguments, CommaList, IsIdentifier;
    var b :| CommaList(ExpressionPhrase, b, v.args) && u == [Punct('@'), Ident(v.name), Punct('(')] + b + [Punct(')')];
    ArgumentsComplete(b, v.args, [Punct(')')] + k);
    assert u + k == [Punct('@'), Ident(v.name), Punct('(')] + (b + ([Punct(')')] + k));
    assert (u + k)[1..][1..][1..] == b + ([Punct(')')] + k);
    assert ([Punct(')')] + k)[1..] == k;
  }

  lemma AnnotationSound(ts: Ts) returns (u: Ts)
    requires ParseAnnotation(ts).Ok?
    ensures var (v, k) := ParseAnnotation(ts).value; AnnotationPhrase(u, v) && ts == u + k
  {
    hide ParseArguments, CommaList, IsIdentifier;
    var b := ArgumentsSound(ts[1..][1..][1..]);
    var v := ParseAnnotation(ts).value.0;
    u := [Punct('@'), Ident(v.name), Punct('(')] + b + [Punct(')')];
  }

  lemma {:induction false} AnnotationsComplete(u: Ts, vs: seq<Annotation>, k: Ts)
    requires AnnotationsPhrase(u, vs) && Peek(k) != Punct('@')
    ensures ParseAnnotations(u + k) == Ok((vs, k))
    decreases |vs|
  {
    hide ParseAnnotation, AnnotationPhrase;
    if vs == [] {
      assert u + k == k;
    } else {
      var a, b :| AnnotationPhrase(a, vs[0]) && Many(AnnotationPhrase, b, vs[1..]) && u == a + b;
      assert u + k == a + (b + k);
      AnnotationComplete(a, vs[0], b + k);
      AnnotationsComplete(b, vs[1..], k);
      assert vs == [vs[0]] + vs[1..];
    }
  }

  lemma {:induction false} AnnotationsSound(ts: Ts) returns (u: Ts)
    requires ParseAnnotations(ts).Ok?
    ensures var (vs, k) := ParseAnnotations(ts).value; AnnotationsPhrase(u, vs) && ts == u + k && Peek(k) != Punct('@')
    decreases |ts|
  {
    hide ParseAnnotation, AnnotationPhrase;
    if Peek(ts) != Punct('@') {
      u := [];
    } else {
      var a := AnnotationSound(ts);
      var (v, ts1) := ParseAnnotation(ts).value;
      var b := AnnotationsSound(ts1);
      var ws := ParseAnnotations(ts1).value.0;
      assert ([v] + ws)[1..] == ws;
      u := a + b;
    }
  }

  lemma {:induction false} TypeComplete(u: Ts, v: Type, k: Ts)
    requires TypePhrase(u, v)
    ensures ParseType(u + k) == Ok((v, k))
    decreases v
  {
    hide IsIdentifier, ParseType, ParsePlainType, ConstPrefix;
    if v.Named? {
      assert u + k == ConstPrefix(v.isConst) + ([Ident(v.name)] + k);
      PlainNamed(v.name, k, v.isConst);
      TypeOfPlain([Ident(v.name)] + k, v.isConst);
    } else {
      var keyword := if v.Ptr? then KwPtr else KwArray;
      var b :| TypePhrase(b, v.inner) && u == ConstPrefix(v.isConst) + [Reserved(keyword), Punct('<')] + b + [Punct('>')];
      var j := [Punct('>')] + k;
      var plain := [Reserved(keyword), Punct('<')] + (b + j);
      assert u + k == ConstPrefix(v.isConst) + plain;
      TypeComplete(b, v.inner, j);
      PlainInner(keyword, b, v.inner, k, v.isConst);
      TypeOfPlain(plain, v.isConst);
    }
  }

  lemma TypeOfPlain(ts: Ts, isConst: bool)
    requires Peek(ts) != Reserved(KwConst)
    ensures ParseType(ConstPrefix(isConst) + ts) == ParsePlainType(ts, isConst)
  {
    hide ParsePlainType;
    var c := ConstPrefix(isConst);
    if isConst { assert (c + ts)[1..] == ts; } else { assert c + ts == ts; }
  }

  lemma PlainNamed(name: Bytes, k: Ts, isConst: bool)
    requires IsIdentifier(name)
    ensures ParsePlainType([Ident(name)] + k, isConst) == Ok((Named(isConst, name), k))
  {
    hide IsIdentifier;
    assert ([Ident(name)] + k)[1..] == k;
  }

  lemma PlainInner(keyword: Keyword, b: Ts, inner: Type, k: Ts, isConst: bool)
    requires keyword == KwPtr || keyword == KwArray
    requires ParseType(b + ([Punct('>')] + k)) == Ok((inner, [Punct('>')] + k))
    ensures ParsePlainType([Reserved(keyword), Punct('<')] + (b + ([Punct('>')] + k)), isConst) ==
            Ok((if keyword == KwPtr then Ptr(isConst, inner) else Array(isConst, inner), k))
  {
    hide ParseType;
    var ts := [Reserved(keyword), Punct('<')] + (b + ([Punct('>')] + k));
    assert ts[1..][1..] == b + ([Punct('>')] + k);
    assert ([Punct('>')] + k)[1..] == k;
  }

  lemma InnerPhrase(keyword: Keyword, b: Ts, inner: Type, isConst: bool)
    requires (keyword == KwPtr || keyword == KwArray) && TypePhrase(b, inner)
    ensures TypePhrase(ConstPrefix(isConst) + [Reserved(keyword), Punct('<')] + b + [Punct('>')],
                       if keyword == KwPtr then Ptr(isConst, inner) else Array(isConst, inner))
  {
    hide ConstPrefix;
  }

  lemma NamedPhrase(name: Bytes, isConst: bool)
    requires IsIdentifier(name)
    ensures TypePhrase(ConstPrefix(isConst) + [Ident(name)], Named(isConst, name))
  {
    hide ConstPrefix, IsIdentifier;
  }

  lemma {:induction false} TypeSound(ts: Ts) returns (u: Ts)
    requires ParseType(ts).Ok?
    ensures var (v, k) := ParseType(ts).value; TypePhrase(u, v) && ts == u + k
    decreases |ts|
  {
    hide IsIdentifier, ParsePlainType, TypePhrase, ParseType, ConstPrefix;
    var (v, k) := ParseType(ts).value;
    var isConst, rest := ConstInFront(ts);
    var c := ConstPrefix(isConst);
    PlainCases(rest, isConst);
    if rest[0] == Reserved(KwPtr) || rest[0] == Reserved(KwArray) {
      var inner := rest[1..][1..];
      var b := TypeSound(inner);
      u := c + [rest[0], Punct('<')] + b + [Punct('>')];
      InnerPhrase(rest[0].word, b, v.inner, isConst);
      JoinInner(c, rest[0], b, k);
    } else {
      u := c + [Ident(v.name)];
      NamedPhrase(v.name, isConst);
      assert u + k == c + ([Ident(v.name)] + k);
    }
  }

  lemma ConstInFront(ts: Ts) returns (isConst: bool, rest: Ts)
    requires ParseType(ts).Ok?
    ensures |rest| <= |ts| && ts == ConstPrefix(isConst) + rest && ParseType(ts) == ParsePlainType(rest, isConst)
  {
    hide ParsePlainType;
    isConst := Peek(ts) == Reserved(KwConst);
    rest := if isConst then ts[1..] else ts;
  }

  lemma JoinInner(c: Ts, t: Token, b: Ts, k: Ts)
    ensures c + [t, Punct('<')] + b + [Punct('>')] + k == c + ([t, Punct('<')] + (b + ([Punct('>')] + k)))
  {
  }

  lemma PlainCases(ts: Ts, isConst: bool)
    requires ParsePlainType(ts, isConst).Ok?
    ensures ts != []
    ensures var (v, k) := ParsePlainType(ts, isConst).value;
            && v.isConst == isConst
            && if ts[0] == Reserved(KwPtr) || ts[0] == Reserved(KwArray)
               then |ts| >= 2 && ts[1] == Punct('<') && ParseType(ts[1..][1..]).Ok?
                    && ParseType(ts[1..][1..]).value.1 == [Punct('>')] + k
                    && (v.Ptr? || v.Array?) && v.Ptr? == (ts[0] == Reserved(KwPtr))
                    && v.inner == ParseType(ts[1..][1..]).value.0
                    && ts == [ts[0], Punct('<')] + ts[1..][1..]
               else v.Named? && IsIdentifier(v.name) && ts == [Ident(v.name)] + k
  {
    hide ParseType, IsIdentifier;
  }

  lemma ParameterComplete(u: Ts, v: Parameter, k: Ts)
    requires ParameterPhrase(u, v)
    ensures ParseParameter(u + k) == Ok((v, k)) && Peek(u + k) != Punct(')')
  {
    hide ParseAnnotations, ParseType, TypePhrase, IsIdentifier, AnnotationsPhrase;
    var a, b :| AnnotationsPhrase(a, v.annotations) && TypePhrase(b, v.ty)
                && u == a + [DirectionToken(v.direction)] + b + [Ident(v.name)];
    var k1 := [Ident(v.name)] + k;
    var k2 := [DirectionToken(v.direction)] + (b + k1);
    assert u + k == a + k2;
    AnnotationsComplete(a, v.annotations, k2);
    TypeComplete(b, v.ty, k1);
    assert k2[1..] == b + k1 && k1[1..] == k;
    AnnotationsStart(a, v.annotations);
  }

  lemma AnnotationsStart(u: Ts, vs: seq<Annotation>)
    requires AnnotationsPhrase(u, vs)
    ensures u == [] || u[0] == Punct('@')
  {
    if vs != [] { var a, b :| AnnotationPhrase(a, vs[0]) && Many(AnnotationPhrase, b, vs[1..]) && u == a + b; }
  }

  lemma ParameterSound(ts: Ts) returns (u: Ts)
    requires ParseParameter(ts).Ok?
    ensures var (v, k) := ParseParameter(ts).value; ParameterPhrase(u, v) && ts == u + k
  {
    hide ParseAnnotations, ParseType, TypePhrase, IsIdentifier, AnnotationsPhrase;
    var a := AnnotationsSound(ts);
    var (annotations, ts1) := ParseAnnotations(ts).value;
    var b := TypeSound(ts1[1..]);
    var v := ParseParameter(ts).value.0;
    u := a + [DirectionToken(v.direction)] + b + [Ident(v.name)];
  }

  lemma ParametersComplete(u: Ts, vs: seq<Parameter>, k: Ts)
    requires CommaList(ParameterPhrase, u, vs) && Peek(k) == Punct(')')
    ensures ParseParameters(u + k) == Ok((vs, k))
  {
    hide ParseParameter, ParameterPhrase, CommaList, ParseParameters;
    forall ts { ParametersRead(ts); }
    forall a, v, j | ParameterPhrase(a, v) { ParameterComplete(a, v, j); }
    ListComplete(ParameterPhrase, ParseParameter, ParseParameters, Punct(')'), u, vs, k);
  }

  lemma ParametersRead(ts: Ts)
    ensures ListRead(ParseParameter, ParseParameters, Punct(')'), ts)
  {
    hide ParseParameter;
    if Peek(ts) != Punct(')') && ParseParameter(ts).Ok? {
      var (v, ts1) := ParseParameter(ts).value;
      if Peek(ts1) == Punct(')') { assert ParseParameters(ts1) == Ok(([], ts1)) && [v] + [] == [v]; }
    }
  }

  lemma ParametersSound(ts: Ts) returns (u: Ts)
    requires ParseParameters(ts).Ok?
    ensures var (vs, k) := ParseParameters(ts).value;
            CommaList(ParameterPhrase, u, vs) && ts == u + k && Peek(k) == Punct(')')
  {
    hide ParseParameter, ParameterPhrase, CommaList, ParseParameters;
    forall t { ParametersRead(t); }
    forall t | ParseParameter(t).Ok?
      ensures exists a :: ParameterPhrase(a, ParseParameter(t).value.0) && t == a + ParseParameter(t).value.1
    {
      var a := ParameterSound(t);
    }
    u := ListSound(ParameterPhrase, ParseParameter, ParseParameters, Punct(')'), ts);
  }

  // ---------------------------------------------------------------- lists without commas

  lemma ManyMore<T(!new)>(p: (Ts, T) -> bool, a: Ts, v: T, b: Ts, vs: seq<T>)
    requires p(a, v) && Many(p, b, vs)
    ensures Many(p, a + b, [v] + vs)
  {
    var ws := [v] + vs;
    assert ws[1..] == vs && p(a, ws[0]);
  }

  ghost predicate ManyRead<T(!new)>(item: Ts -> Parsed<T>, list: Ts -> Parsed<seq<T>>, ts: Ts) {
    list(ts) ==
    if Peek(ts) == Punct('}') then Ok(([], ts))
    else
      match item(ts)
      case Err(e) => Err(e)
      case Ok((v, ts1)) =>
        match list(ts1)
        case Err(e) => Err(e)
        case Ok((vs, k)) => Ok(([v] + vs, k))
  }

  lemma {:induction false} ManyComplete<T(!new)>(
    p: (Ts, T) -> bool, item: Ts -> Parsed<T>, list: Ts -> Parsed<seq<T>>, u: Ts, vs: seq<T>, k: Ts)
    requires forall ts :: ManyRead(item, list, ts)
    requires forall a, v, j :: p(a, v) ==> item(a + j) == Ok((v, j)) && Peek(a + j) != Punct('}')
    requires Many(p, u, vs) && Peek(k) == Punct('}')
    ensures list(u + k) == Ok((vs, k))
    decreases |vs|
  {
    assert ManyRead(item, list, u + k);
    if vs == [] {
      assert u + k == k;
    } else {
      var a, b :| p(a, vs[0]) && Many(p, b, vs[1..]) && u == a + b;
      assert u + k == a + (b + k);
      assert item(a + (b + k)) == Ok((vs[0], b + k));
      ManyComplete(p, item, list, b, vs[1..], k);
      assert vs == [vs[0]] + vs[1..];
    }
  }

  lemma {:induction false} ManySound<T(!new)>(
    p: (Ts, T) -> bool, item: Ts -> Parsed<T>, list: Ts -> Parsed<seq<T>>, ts: Ts) returns (u: Ts)
    requires forall t :: ManyRead(item, list, t)
    requires forall t :: item(t).Ok? ==>
               |item(t).value.1| < |t| && exists a :: p(a, item(t).value.0) && t == a + item(t).value.1
    requires list(ts).Ok?
    ensures Many(p, u, list(ts).value.0) && ts == u + list(ts).value.1 && Peek(list(ts).value.1) == Punct('}')
    decreases |ts|
  {
    assert ManyRead(item, list, ts);
    if Peek(ts) == Punct('}') {
      u := [];
    } else {
      var (v, ts1) := item(ts).value;
      var a :| p(a, v) && ts == a + ts1;
      var b := ManySound(p, item, list, ts1);
      u := a + b;
      ManyMore(p, a, v, b, list(ts1).value.0);
    }
  }

  // ---------------------------------------------------------------- structs

  /** Three tokens, a phrase, and what follows it. */
  lemma Opened(ts: Ts, h: Ts, b: Ts, e: Ts, k: Ts)
    requires |h| <= |ts| && ts[..|h|] == h && ts[|h|..] == b + (e + k)
    ensures ts == h + b + e + k
  {
    assert ts == ts[..|h|] + ts[|h|..];
    assert h + (b + (e + k)) == h + b + e + k;
  }

  lemma StructFieldComplete(u: Ts, v: StructField, k: Ts)
    requires StructFieldPhrase(u, v)
    ensures ParseStructField(u + k) == Ok((v, k)) && Peek(u + k) != Punct('}')
  {
    hide ParseType, TypePhrase, IsIdentifier;
    var b :| TypePhrase(b, v.ty) && u == b + [Ident(v.name), Punct(';')];
    var j := [Ident(v.name), Punct(';')] + k;
    assert u + k == b + j && j[1..][1..] == k;
    TypeComplete(b, v.ty, j);
    TypeStart(b, v.ty);
  }

  lemma TypeStart(u: Ts, v: Type)
    requires TypePhrase(u, v)
    ensures u != [] && (u[0].Ident? || u[0].Reserved?)
  {
  }

  lemma StructFieldSound(ts: Ts) returns (u: Ts)
    requires ParseStructField(ts).Ok?
    ensures var (v, k) := ParseStructField(ts).value; StructFieldPhrase(u, v) && ts == u + k
  {
    hide ParseType, TypePhrase, IsIdentifier;
    var b := TypeSound(ts);
    var v := ParseStructField(ts).value.0;
    u := b + [Ident(v.name), Punct(';')];
  }

  lemma StructFieldsRead(ts: Ts)
    ensures ManyRead(ParseStructField, ParseStructFields, ts)
  {
    hide ParseStructField;
  }

  lemma StructFieldsComplete(u: Ts, vs: seq<StructField>, k: Ts)
    requires Many(StructFieldPhrase, u, vs) && Peek(k) == Punct('}')
    ensures ParseStructFields(u + k) == Ok((vs, k))
  {
    hide ParseStructField, StructFieldPhrase, Many, ParseStructFields;
    forall ts { StructFieldsRead(ts); }
    forall a, v, j | StructFieldPhrase(a, v) { StructFieldComplete(a, v, j); }
    ManyComplete(StructFieldPhrase, ParseStructField, ParseStructFields, u, vs, k);
  }

  lemma StructFieldsSound(ts: Ts) returns (u: Ts)
    requires ParseStructFields(ts).Ok?
    ensures var (vs, k) := ParseStructFields(ts).value; Many(StructFieldPhrase, u, vs) && ts == u + k
  {
    hide ParseStructField, StructFieldPhrase, Many, ParseStructFields;
    forall t { StructFieldsRead(t); }
    forall t | ParseStructField(t).Ok?
      ensures exists a :: StructFieldPhrase(a, ParseStructField(t).value.0) && t == a + ParseStructField(t).value.1
    {
      var a := StructFieldSound(t);
    }
    u := ManySound(StructFieldPhrase, ParseStructField, ParseStructFields, ts);
  }

  lemma StructComplete(u: Ts, v: Struct, k: Ts)
    requires StructPhrase(u, v)
    ensures ParseStruct(u + k, v.annotations) == Ok((v, k)) && Peek(u + k) == Reserved(KwStruct)
  {
    hide ParseStructFields, Many, IsIdentifier;
    var b :| Many(StructFieldPhrase, b, v.fields)
             && u == [Reserved(KwStruct), Ident(v.name), Punct('{')] + b + [Punct('}'), Punct(';')];
    var j := [Punct('}'), Punct(';')] + k;
    var ts := [Reserved(KwStruct), Ident(v.name), Punct('{')] + (b + j);
    assert u + k == ts && ts[1..][1..][1..] == b + j && j[1..][1..] == k;
    StructFieldsComplete(b, v.fields, j);
  }

  lemma StructSound(ts: Ts, annotations: seq<Annotation>) returns (u: Ts)
    requires ParseStruct(ts, annotations).Ok?
    ensures var (v, k) := ParseStruct(ts, annotations).value;
            StructPhrase(u, v) && ts == u + k && v.annotations == annotations
  {
    hide ParseStructFields, Many, IsIdentifier;
    var b := StructFieldsSound(ts[1..][1..][1..]);
    var (v, k) := ParseStruct(ts, annotations).value;
    var h, e := [Reserved(KwStruct), Ident(v.name), Punct('{')], [Punct('}'), Punct(';')];
    u := h + b + e;
    assert ts[1..][1..][1..] == ts[3..];
    assert ParseStructFields(ts[3..]).value.1 == e + k;
    hide ParseStruct;
    Opened(ts, h, b, e, k);
  }

  // ---------------------------------------------------------------- bitfields and enums

  lemma HeadComplete(u: Ts, keyword: Keyword, ty: Type, name: Bytes, k: Ts)
    requires HeadPhrase(u, keyword, ty, name)
    ensures ParseTypedHead(u + k, Reserved(keyword)) == Ok(((ty, name), k)) && Peek(u + k) == Reserved(keyword)
  {
    hide ParseType, TypePhrase, IsIdentifier;
    var b :| TypePhrase(b, ty) && u == [Reserved(keyword), Punct('<')] + b + [Punct('>'), Ident(name), Punct('{')];
    var j := [Punct('>'), Ident(name), Punct('{')] + k;
    var ts := [Reserved(keyword), Punct('<')] + (b + j);
    assert u + k == ts && ts[1..][1..] == b + j && j[1..][1..][1..] == k;
    TypeComplete(b, ty, j);
  }

  lemma HeadSound(ts: Ts, keyword: Keyword) returns (u: Ts)
    requires ParseTypedHead(ts, Reserved(keyword)).Ok?
    ensures var ((ty, name), k) := ParseTypedHead(ts, Reserved(keyword)).value;
            HeadPhrase(u, keyword, ty, name) && ts == u + k
  {
    hide ParseType, TypePhrase, IsIdentifier;
    var b := TypeSound(ts[1..][1..]);
    var ((ty, name), k) := ParseTypedHead(ts, Reserved(keyword)).value;
    var h, e := [Reserved(keyword), Punct('<')], [Punct('>'), Ident(name), Punct('{')];
    u := h + b + e;
    assert ts[1..][1..] == ts[2..];
    assert ParseType(ts[2..]).value.1 == e + k;
    hide ParseTypedHead;
    Opened(ts, h, b, e, k);
  }

  lemma BitfieldFieldComplete(u: Ts, v: BitfieldField, k: Ts)
    requires BitfieldFieldPhrase(u, v)
    ensures ParseBitfieldField(u + k) == Ok((v, k)) && Peek(u + k) != Punct('}')
  {
    hide Stoull, IsIdentifier;
    assert (u + k)[1..][1..][1..][1..] == k;
  }

  lemma BitfieldFieldSound(ts: Ts)
    requires ParseBitfieldField(ts).Ok?
    ensures var (v, k) := ParseBitfieldField(ts).value;
            |ts| >= 4 && BitfieldFieldPhrase(ts[..4], v) && ts == ts[..4] + k
  {
    hide Stoull, IsIdentifier;
  }

  lemma BitfieldFieldsRead(ts: Ts)
    ensures ManyRead(ParseBitfieldField, ParseBitfieldFields, ts)
  {
    hide ParseBitfieldField;
  }

  lemma BitfieldFieldsComplete(u: Ts, vs: seq<BitfieldField>, k: Ts)
    requires Many(BitfieldFieldPhrase, u, vs) && Peek(k) == Punct('}')
    ensures ParseBitfieldFields(u + k) == Ok((vs, k))
  {
    hide ParseBitfieldField, BitfieldFieldPhrase, Many, ParseBitfieldFields;
    forall ts { BitfieldFieldsRead(ts); }
    forall a, v, j | BitfieldFieldPhrase(a, v) { BitfieldFieldComplete(a, v, j); }
    ManyComplete(BitfieldFieldPhrase, ParseBitfieldField, ParseBitfieldFields, u, vs, k);
  }

  lemma BitfieldFieldsSound(ts: Ts) returns (u: Ts)
    requires ParseBitfieldFields(ts).Ok?
    ensures var (vs, k) := ParseBitfieldFields(ts).value; Many(BitfieldFieldPhrase, u, vs) && ts == u + k
  {
    hide ParseBitfieldField, BitfieldFieldPhrase, Many, ParseBitfieldFields;
    forall t { BitfieldFieldsRead(t); }
    forall t | ParseBitfieldField(t).Ok?
      ensures var (v, rest) := ParseBitfieldField(t).value; exists a :: BitfieldFieldPhrase(a, v) && t == a + rest
    {
      BitfieldFieldSound(t);
    }
    u := ManySound(BitfieldFieldPhrase, ParseBitfieldField, ParseBitfieldFields, ts);
  }

  lemma BitfieldComplete(u: Ts, v: Bitfield, k: Ts)
    requires BitfieldPhrase(u, v)
    ensures ParseBitfield(u + k, v.annotations) == Ok((v, k)) && Peek(u + k) == Reserved(KwBitfield)
  {
    hide ParseBitfieldFields, Many, ParseTypedHead, HeadPhrase;
    var a, b :| HeadPhrase(a, KwBitfield, v.baseType, v.name) && Many(BitfieldFieldPhrase, b, v.fields)
                && u == a + b + [Punct('}'), Punct(';')];
    var j := [Punct('}'), Punct(';')] + k;
    assert u + k == a + (b + j) && j[1..][1..] == k;
    HeadComplete(a, KwBitfield, v.baseType, v.name, b + j);
    BitfieldFieldsComplete(b, v.fields, j);
  }

  lemma BitfieldSound(ts: Ts, annotations: seq<Annotation>) returns (u: Ts)
    requires ParseBitfield(ts, annotations).Ok?
    ensures var (v, k) := ParseBitfield(ts, annotations).value;
            BitfieldPhrase(u, v) && ts == u + k && v.annotations == annotations
  {
    hide ParseBitfieldFields, Many, ParseTypedHead, HeadPhrase;
    var a := HeadSound(ts, KwBitfield);
    var ts1 := ParseTypedHead(ts, Reserved(KwBitfield)).value.1;
    var b := BitfieldFieldsSound(ts1);
    var k, e := ParseBitfield(ts, annotations).value.1, [Punct('}'), Punct(';')];
    u := a + b + e;
    assert ParseBitfieldFields(ts1).value.1 == e + k;
    hide ParseBitfield;
    Opened(ts, a, b, e, k);
  }

  lemma EnumMemberComplete(u: Ts, v: EnumMember, k: Ts)
    requires EnumMemberPhrase(u, v)
    ensures ParseEnumMember(u + k) == Ok((v, k)) && Peek(u + k) != Punct('}')
  {
    hide ParseAnnotations, AnnotationsPhrase, IsIdentifier, Stoull;
    var a, n :| AnnotationsPhrase(a, v.annotations) && Means(n, v.value) && u == a + [Ident(v.name), Punct('='), n];
    var j := [Ident(v.name), Punct('='), n] + k;
    assert u + k == a + j && j[1..][1..][1..] == k;
    AnnotationsComplete(a, v.annotations, j);
    AnnotationsStart(a, v.annotations);
  }

  lemma EnumMemberSound(ts: Ts) returns (u: Ts)
    requires ParseEnumMember(ts).Ok?
    ensures var (v, k) := ParseEnumMember(ts).value; EnumMemberPhrase(u, v) && ts == u + k
  {
    hide ParseAnnotations, AnnotationsPhrase, IsIdentifier, Stoull;
    var a := AnnotationsSound(ts);
    var ts1 := ParseAnnotations(ts).value.1;
    var v := ParseEnumMember(ts).value.0;
    var n := ts1[1..][1..][0];
    assert Means(n, v.value);
    u := a + [Ident(v.name), Punct('='), n];
  }

  lemma EnumMembersRead(ts: Ts)
    ensures ListRead(ParseEnumMember, ParseEnumMembers, Punct('}'), ts)
  {
    hide ParseEnumMember;
    if Peek(ts) != Punct('}') && ParseEnumMember(ts).Ok? {
      var (v, ts1) := ParseEnumMember(ts).value;
      if Peek(ts1) == Punct('}') { assert ParseEnumMembers(ts1) == Ok(([], ts1)) && [v] + [] == [v]; }
    }
  }

  lemma EnumMembersComplete(u: Ts, vs: seq<EnumMember>, k: Ts)
    requires CommaList(EnumMemberPhrase, u, vs) && Peek(k) == Punct('}')
    ensures ParseEnumMembers(u + k) == Ok((vs, k))
  {
    hide ParseEnumMember, EnumMemberPhrase, CommaList, ParseEnumMembers;
    forall ts { EnumMembersRead(ts); }
    forall a, v, j | EnumMemberPhrase(a, v) { EnumMemberComplete(a, v, j); }
    ListComplete(EnumMemberPhrase, ParseEnumMember, ParseEnumMembers, Punct('}'), u, vs, k);
  }

  lemma EnumMembersSound(ts: Ts) returns (u: Ts)
    requires ParseEnumMembers(ts).Ok?
    ensures var (vs, k) := ParseEnumMembers(ts).value; CommaList(EnumMemberPhrase, u, vs) && ts == u + k
  {
    hide ParseEnumMember, EnumMemberPhrase, CommaList, ParseEnumMembers;
    forall t { EnumMembersRead(t); }
    forall t | ParseEnumMember(t).Ok?
      ensures exists a :: EnumMemberPhrase(a, ParseEnumMember(t).value.0) && t == a + ParseEnumMember(t).value.1
    {
      var a := EnumMemberSound(t);
    }
    u := ListSound(EnumMemberPhrase, ParseEnumMember, ParseEnumMembers, Punct('}'), ts);
  }

  lemma EnumComplete(u: Ts, v: Enum, k: Ts)
    requires EnumPhrase(u, v)
    ensures ParseEnum(u + k, v.annotations) == Ok((v, k)) && Peek(u + k) == Reserved(KwEnum)
  {
    hide ParseEnumMembers, CommaList, ParseTypedHead, HeadPhrase;
    var a, b :| HeadPhrase(a, KwEnum, v.baseType, v.name) && CommaList(EnumMemberPhrase, b, v.members)
                && u == a + b + [Punct('}'), Punct(';')];
    var j := [Punct('}'), Punct(';')] + k;
    assert u + k == a + (b + j) && j[1..][1..] == k;
    HeadComplete(a, KwEnum, v.baseType, v.name, b + j);
    EnumMembersComplete(b, v.members, j);
  }

  lemma EnumSound(ts: Ts, annotations: seq<Annotation>) returns (u: Ts)
    requires ParseEnum(ts, annotations).Ok?
    ensures var (v, k) := ParseEnum(ts, annotations).value;
            EnumPhrase(u, v) && ts == u + k && v.annotations == annotations
  {
    hide ParseEnumMembers, CommaList, ParseTypedHead, HeadPhrase;
    var a := HeadSound(ts, KwEnum);
    var ts1 := ParseTypedHead(ts, Reserved(KwEnum)).value.1;
    var b := EnumMembersSound(ts1);
    var k, e := ParseEnum(ts, annotations).value.1, [Punct('}'), Punct(';')];
    u := a + b + e;
    assert ParseEnumMembers(ts1).value.1 == e + k;
    hide ParseEnum;
    Opened(ts, a, b, e, k);
  }

  // ---------------------------------------------------------------- functions

  lemma FunctionComplete(u: Ts, v: Function, k: Ts)
    requires FunctionPhrase(u, v)
    ensures ParseFunction(u + k, v.annotations, v.id) == Ok((v, k)) && Peek(u + k) == Reserved(KwFunction)
  {
    hide ParseParameters, CommaList, IsIdentifier;
    var b :| ParametersPhrase(b, v.parameters)
             && u == [Reserved(KwFunction), Ident(v.name), Punct('(')] + b + [Punct(')'), Punct(';')];
    var j := [Punct(')'), Punct(';')] + k;
    var ts := [Reserved(KwFunction), Ident(v.name), Punct('(')] + (b + j);
    assert u + k == ts && ts[1..][1..][1..] == b + j && j[1..][1..] == k;
    ParametersComplete(b, v.parameters, j);
  }

  lemma FunctionSound(ts: Ts, annotations: seq<Annotation>, id: u32) returns (u: Ts)
    requires ParseFunction(ts, annotations, id).Ok?
    ensures var (v, k) := ParseFunction(ts, annotations, id).value;
            FunctionPhrase(u, v) && ts == u + k && v.annotations == annotations && v.id == id
  {
    hide ParseParameters, CommaList, IsIdentifier;
    var b := ParametersSound(ts[1..][1..][1..]);
    var (v, k) := ParseFunction(ts, annotations, id).value;
    var h, e := [Reserved(KwFunction), Ident(v.name), Punct('(')], [Punct(')'), Punct(';')];
    u := h + b + e;
    assert ts[1..][1..][1..] == ts[3..];
    assert ParseParameters(ts[3..]).value.1 == e + k;
    hide ParseFunction;
    Opened(ts, h, b, e, k);
  }

  // ---------------------------------------------------------------- items

  function FunctionsOf(its: seq<Item>): seq<Function> {
    if its == [] then []
    else (if its[0].FunctionItem? then [its[0].function_] else []) + FunctionsOf(its[1..])
  }

  lemma AddedOne(v: Revision, it: Item)
    ensures Add(v, it).functions == v.functions + (if it.FunctionItem? then [it.function_] else [])
    ensures Add(v, it).version == v.version
  {
  }

  lemma FunctionsOfMore(it: Item, its: seq<Item>)
    ensures FunctionsOf([it] + its) == (if it.FunctionItem? then [it.function_] else []) + FunctionsOf(its)
  {
    assert ([it] + its)[1..] == its;
  }

  lemma {:induction false} AddedFunctions(v: Revision, its: seq<Item>)
    ensures AddAll(v, its).functions == v.functions + FunctionsOf(its) && AddAll(v, its).version == v.version
    decreases |its|
  {
    hide Add, FunctionsOf;
    if its == [] {
      assert FunctionsOf([]) == [] by { NoFunctionsOf(0); }
      assert v.functions + [] == v.functions;
    } else {
      var it, rest := its[0], its[1..];
      AddedOne(v, it);
      AddedFunctions(Add(v, it), rest);
      FunctionsOfMore(it, rest);
      assert its == [it] + rest;
      var f := if it.FunctionItem? then [it.function_] else [];
      assert v.functions + f + FunctionsOf(rest) == v.functions + (f + FunctionsOf(rest));
    }
  }

  function NextItemId(it: Item, id: u32): u32 { if it.FunctionItem? then NextId(id) else id }

  /** How numbering goes on behind a declaration. */
  lemma NumberedMore(it: Item, its: seq<Item>, id: u32)
    ensures Numbered(FunctionsOf([it] + its), id) <==>
            (it.FunctionItem? ==> it.function_.id == id) && Numbered(FunctionsOf(its), NextItemId(it, id))
    ensures IdAfter(FunctionsOf([it] + its), id) == IdAfter(FunctionsOf(its), NextItemId(it, id))
  {
    hide NextId;
    var all := [it] + its;
    assert all[1..] == its && all[0] == it;
    if it.FunctionItem? {
      assert FunctionsOf(all)[0] == it.function_ && FunctionsOf(all)[1..] == FunctionsOf(its);
    } else {
      assert FunctionsOf(all) == FunctionsOf(its);
    }
  }

  lemma {:induction false} PendingRead(
    u: Ts, vs: seq<Annotation>, k: Ts, pending: seq<Annotation>, v: Revision, id: u32)
    requires AnnotationsPhrase(u, vs)
    ensures ParseItems(u + k, pending, v, id) == ParseItems(k, pending + vs, v, id)
    decreases |vs|
  {
    hide AnnotationPhrase, ParseAnnotation, ParseItems;
    if vs == [] {
      assert u + k == k && pending + vs == pending;
    } else {
      var a, b :| AnnotationPhrase(a, vs[0]) && Many(AnnotationPhrase, b, vs[1..]) && u == a + b;
      assert u + k == a + (b + k);
      AnnotationComplete(a, vs[0], b + k);
      ItemsUnfolded(u + k, pending, v, id);
      PendingRead(b, vs[1..], k, pending + [vs[0]], v, id);
      assert pending + [vs[0]] + vs[1..] == pending + vs;
    }
  }

  /** One declaration behind its annotations. */
  lemma BareRead(b: Ts, it: Item, k: Ts, v: Revision, id: u32)
    requires BarePhrase(b, it) && (it.FunctionItem? ==> it.function_.id == id)
    ensures ParseItems(b + k, Notes(it), v, id) ==
            ParseItems(k, [], Add(v, it), NextItemId(it, id))
  {
    hide ParseItems, ParseBitfield, ParseEnum, ParseStruct, ParseFunction, BitfieldPhrase, EnumPhrase, StructPhrase,
         FunctionPhrase, NextId;
    ItemsUnfolded(b + k, Notes(it), v, id);
    match it {
      case BitfieldItem(d) => BitfieldComplete(b, d, k);
      case EnumItem(d) => EnumComplete(b, d, k);
      case StructItem(d) => StructComplete(b, d, k);
      case FunctionItem(d) => FunctionComplete(b, d, k);
    }
  }

  lemma {:induction false} ItemsRead(u: Ts, its: seq<Item>, k: Ts, v: Revision, id: u32)
    requires Many(ItemPhrase, u, its) && Numbered(FunctionsOf(its), id)
    ensures ParseItems(u + k, [], v, id) == ParseItems(k, [], AddAll(v, its), IdAfter(FunctionsOf(its), id))
    decreases |its|
  {
    hide ParseItems, ItemPhrase, NextItemId, Add, FunctionsOf, Numbered, IdAfter;
    if its == [] {
      assert u + k == k;
      NoFunctionsOf(id);
    } else {
      var it := its[0];
      var c, d :| ItemPhrase(c, its[0]) && Many(ItemPhrase, d, its[1..]) && u == c + d;
      assert u + k == c + (d + k) && its == [it] + its[1..];
      NumberedMore(it, its[1..], id);
      OneItemRead(c, it, d + k, v, id);
      ItemsRead(d, its[1..], k, Add(v, it), NextItemId(it, id));
    }
  }

  lemma NoFunctionsOf(id: u32)
    ensures FunctionsOf([]) == [] && IdAfter([], id) == id && Numbered([], id)
  {
  }

  lemma OneItemRead(c: Ts, it: Item, k: Ts, v: Revision, id: u32)
    requires ItemPhrase(c, it) && (it.FunctionItem? ==> it.function_.id == id)
    ensures ParseItems(c + k, [], v, id) == ParseItems(k, [], Add(v, it), NextItemId(it, id))
  {
    hide ParseItems, BarePhrase, NextItemId, Add, AnnotationsPhrase;
    var a, b :| AnnotationsPhrase(a, Notes(it)) && BarePhrase(b, it) && c == a + b;
    assert c + k == a + (b + k) && [] + Notes(it) == Notes(it);
    PendingRead(a, Notes(it), b + k, [], v, id);
    BareRead(b, it, k, v, id);
  }

  lemma BodyComplete(u: Ts, its: seq<Item>, k: Ts, v: Revision, id: u32)
    requires BodyPhrase(u, its) && Numbered(FunctionsOf(its), id) && Peek(k) == Punct('}')
    ensures ParseItems(u + k, [], v, id) == Ok(((AddAll(v, its), IdAfter(FunctionsOf(its), id)), k))
  {
    hide ParseItems, ItemPhrase, AnnotationsPhrase, AddAll, Many, Numbered, IdAfter;
    var a, b, lost :| Many(ItemPhrase, a, its) && AnnotationsPhrase(b, lost) && u == a + b;
    assert u + k == a + (b + k);
    ItemsRead(a, its, b + k, v, id);
    PendingRead(b, lost, k, [], AddAll(v, its), IdAfter(FunctionsOf(its), id));
    ItemsUnfolded(k, [] + lost, AddAll(v, its), IdAfter(FunctionsOf(its), id));
  }

  lemma {:induction false} ManyAppend<T(!new)>(p: (Ts, T) -> bool, u: Ts, vs: seq<T>, a: Ts, v: T)
    requires Many(p, u, vs) && p(a, v)
    ensures Many(p, u + a, vs + [v])
    decreases |vs|
  {
    var ws := vs + [v];
    if vs == [] {
      assert u + a == a + [] && ws[1..] == [] && ws[0] == v;
      assert Many(p, [], ws[1..]);
    } else {
      var c, d :| p(c, vs[0]) && Many(p, d, vs[1..]) && u == c + d;
      ManyAppend(p, d, vs[1..], a, v);
      assert ws[1..] == vs[1..] + [v] && ws[0] == vs[0];
      assert u + a == c + (d + a);
    }
  }

  lemma BodyMore(c: Ts, it: Item, u: Ts, its: seq<Item>)
    requires ItemPhrase(c, it) && BodyPhrase(u, its)
    ensures BodyPhrase(c + u, [it] + its)
  {
    hide ItemPhrase, AnnotationsPhrase, Many;
    var a, b, lost :| Many(ItemPhrase, a, its) && AnnotationsPhrase(b, lost) && u == a + b;
    ManyMore(ItemPhrase, c, it, a, its);
    assert c + u == c + a + b;
  }

  /** One declaration, and what is left of the parse. */
  lemma BareSound(ts: Ts, pending: seq<Annotation>, v: Revision, id: u32) returns (b: Ts, it: Item, k: Ts)
    requires ParseItems(ts, pending, v, id).Ok? && Peek(ts) != Punct('}') && Peek(ts) != Punct('@')
    ensures ts == b + k && |k| < |ts| && BarePhrase(b, it) && Notes(it) == pending
    ensures it.FunctionItem? ==> it.function_.id == id
    ensures ParseItems(ts, pending, v, id) ==
            ParseItems(k, [], Add(v, it), NextItemId(it, id))
  {
    hide ParseItems, ParseBitfield, ParseEnum, ParseStruct, ParseFunction, BitfieldPhrase, EnumPhrase, StructPhrase,
         FunctionPhrase, NextId;
    ItemsUnfolded(ts, pending, v, id);
    var t := Peek(ts);
    if t == Reserved(KwBitfield) {
      b := BitfieldSound(ts, pending);
      it, k := BitfieldItem(ParseBitfield(ts, pending).value.0), ParseBitfield(ts, pending).value.1;
    } else if t == Reserved(KwEnum) {
      b := EnumSound(ts, pending);
      it, k := EnumItem(ParseEnum(ts, pending).value.0), ParseEnum(ts, pending).value.1;
    } else if t == Reserved(KwStruct) {
      b := StructSound(ts, pending);
      it, k := StructItem(ParseStruct(ts, pending).value.0), ParseStruct(ts, pending).value.1;
    } else {
      b := FunctionSound(ts, pending, id);
      it, k := FunctionItem(ParseFunction(ts, pending, id).value.0), ParseFunction(ts, pending, id).value.1;
    }
  }

  /** What `ParseItems` accepts behind the pending annotations `c` is a body. */
  lemma {:induction false} BodySound(ts: Ts, c: Ts, pending: seq<Annotation>, v: Revision, id: u32)
    returns (u: Ts, its: seq<Item>)
    requires ParseItems(ts, pending, v, id).Ok? && AnnotationsPhrase(c, pending)
    ensures var ((w, id1), k) := ParseItems(ts, pending, v, id).value;
            && BodyPhrase(c + u, its) && ts == u + k && Peek(k) == Punct('}')
            && w == AddAll(v, its) && Numbered(FunctionsOf(its), id) && id1 == IdAfter(FunctionsOf(its), id)
    decreases |ts|
  {
    hide ParseItems, BarePhrase, AnnotationsPhrase, ParseAnnotation, Add, NextItemId, BodyPhrase, FunctionsOf, Numbered,
         IdAfter, ItemPhrase;
    if Peek(ts) == Punct('}') {
      ItemsUnfolded(ts, pending, v, id);
      u, its := [], [];
      OnlyLost(c, pending);
      NoFunctionsOf(id);
    } else if Peek(ts) == Punct('@') {
      ItemsUnfolded(ts, pending, v, id);
      var a := AnnotationSound(ts);
      var (note, ts1) := ParseAnnotation(ts).value;
      NotesMore(c, pending, a, note);
      var rest;
      rest, its := BodySound(ts1, c + a, pending + [note], v, id);
      assert c + (a + rest) == c + a + rest;
      u := a + rest;
    } else {
      var b, it, k := BareSound(ts, pending, v, id);
      NoNotes();
      var d, rest := BodySound(k, [], [], Add(v, it), NextItemId(it, id));
      assert [] + d == d;
      ItemOf(c, b, it);
      BodyMore(c + b, it, d, rest);
      assert c + (b + d) == c + b + d;
      u, its := b + d, [it] + rest;
      assert its[1..] == rest && its[0] == it;
      NumberedMore(it, rest, id);
    }
  }

  lemma NoNotes()
    ensures AnnotationsPhrase([], [])
  {
  }

  lemma NotesMore(c: Ts, pending: seq<Annotation>, a: Ts, note: Annotation)
    requires AnnotationsPhrase(c, pending) && AnnotationPhrase(a, note)
    ensures AnnotationsPhrase(c + a, pending + [note])
  {
    hide AnnotationPhrase, Many;
    ManyAppend(AnnotationPhrase, c, pending, a, note);
  }

  lemma ItemOf(c: Ts, b: Ts, it: Item)
    requires AnnotationsPhrase(c, Notes(it)) && BarePhrase(b, it)
    ensures ItemPhrase(c + b, it)
  {
    hide AnnotationsPhrase, BarePhrase, Notes;
  }

  lemma OnlyLost(c: Ts, lost: seq<Annotation>)
    requires AnnotationsPhrase(c, lost)
    ensures BodyPhrase(c + [], [])
  {
    assert Many(ItemPhrase, [], []) && c + [] == [] + c;
  }

  // ---------------------------------------------------------------- revisions

  lemma RevisionComplete(u: Ts, v: Revision, id: u32, k: Ts)
    requires RevisionPhrase(u, v, id)
    ensures ParseRevision(u + k, id) == Ok(((v, IdAfter(v.functions, id)), k))
    ensures Peek(u + k) == Reserved(KwAbirevision)
  {
    hide ParseItems, BodyPhrase, Numbered, IdAfter, AddAll, Stoull;
    var b, its, n :| BodyPhrase(b, its) && Means(n, v.version) && v == AddAll(EmptyRevision(v.version), its)
                     && u == [Reserved(KwAbirevision), n, Punct('{')] + b + [Punct('}')];
    var j := [Punct('}')] + k;
    assert u + k == [Reserved(KwAbirevision), n, Punct('{')] + (b + j);
    assert (u + k)[1..][1..][1..] == b + j && j[1..] == k;
    AddedFunctions(EmptyRevision(v.version), its);
    assert [] + FunctionsOf(its) == FunctionsOf(its) == v.functions;
    BodyComplete(b, its, j, EmptyRevision(v.version), id);
  }

  lemma RevisionSound(ts: Ts, id: u32) returns (u: Ts)
    requires ParseRevision(ts, id).Ok?
    ensures var ((v, id1), k) := ParseRevision(ts, id).value;
            RevisionPhrase(u, v, id) && id1 == IdAfter(v.functions, id) && ts == u + k
  {
    hide ParseItems, BodyPhrase, Numbered, IdAfter, AddAll, Stoull, AnnotationPhrase;
    var n := ts[1..][0];
    var version := ParseNumber(ts[1..]).value.0;
    var ts3 := ts[1..][1..][1..];
    var b, its := BodySound(ts3, [], [], EmptyRevision(version), id);
    assert [] + b == b;
    AddedFunctions(EmptyRevision(version), its);
    var v := ParseRevision(ts, id).value.0.0;
    assert [] + FunctionsOf(its) == FunctionsOf(its) == v.functions;
    assert Means(n, v.version);
    u := [Reserved(KwAbirevision), n, Punct('{')] + b + [Punct('}')];
  }

  lemma {:induction false} RevisionsComplete(u: Ts, vs: seq<Revision>, next: u64, id: u32, k: Ts)
    requires RevisionsPhrase(u, vs, next, id) && Peek(k) == Punct('}')
    ensures ParseRevisions(u + k, next, id) == Ok(((vs, IdAfterRevisions(vs, id)), k))
    decreases |vs|
  {
    hide ParseRevision, RevisionPhrase, Numbered, IdAfter;
    if vs == [] {
      assert u + k == k;
    } else {
      var a, b :| RevisionPhrase(a, vs[0], id)
                  && RevisionsPhrase(b, vs[1..], (next + 1) % TWO64, IdAfter(vs[0].functions, id))
                  && vs[0].version == next && u == a + b;
      assert u + k == a + (b + k);
      RevisionComplete(a, vs[0], id, b + k);
      RevisionsComplete(b, vs[1..], (next + 1) % TWO64, IdAfter(vs[0].functions, id), k);
      assert vs == [vs[0]] + vs[1..];
    }
  }

  lemma {:induction false} RevisionsSound(ts: Ts, next: u64, id: u32) returns (u: Ts)
    requires ParseRevisions(ts, next, id).Ok?
    ensures var ((vs, id1), k) := ParseRevisions(ts, next, id).value;
            && RevisionsPhrase(u, vs, next, id) && id1 == IdAfterRevisions(vs, id)
            && ts == u + k && Peek(k) == Punct('}')
    decreases |ts|
  {
    hide ParseRevision, RevisionPhrase, Numbered, IdAfter;
    if Peek(ts) == Punct('}') {
      u := [];
    } else {
      var a := RevisionSound(ts, id);
      var ((v, id1), ts1) := ParseRevision(ts, id).value;
      var b := RevisionsSound(ts1, (next + 1) % TWO64, id1);
      var vs := ParseRevisions(ts, next, id).value.0.0;
      assert vs[0] == v && vs[1..] == ParseRevisions(ts1, (next + 1) % TWO64, id1).value.0.0;
      u := a + b;
    }
  }

  // ---------------------------------------------------------------- the interface

  lemma InterfaceComplete(u: Ts, i: Interface, first: u64, id: u32, k: Ts)
    requires InterfacePhrase(u, i, first, id)
    ensures ParseInterface(u + k, first, id) == Ok(i)
  {
    hide ParseAnnotations, ParseRevisions, RevisionsPhrase, AnnotationsPhrase, IdAfterRevisions, IsIdentifier, NIL_UUID;
    var a, b :| AnnotationsPhrase(a, i.annotations) && RevisionsPhrase(b, i.revisions, first, id)
                && u == a + [Reserved(KwInterface), Ident(i.name), Punct('{')] + b + [Punct('}')];
    var j := [Punct('}')] + k;
    var ts1 := [Reserved(KwInterface), Ident(i.name), Punct('{')] + (b + j);
    assert u + k == a + ts1 && ts1[1..][1..][1..] == b + j;
    AnnotationsComplete(a, i.annotations, ts1);
    RevisionsComplete(b, i.revisions, first, id, j);
  }

  lemma InterfaceSound(ts: Ts, first: u64, id: u32) returns (u: Ts, k: Ts)
    requires ParseInterface(ts, first, id).Ok?
    ensures InterfacePhrase(u, ParseInterface(ts, first, id).value, first, id) && ts == u + k
  {
    hide ParseAnnotations, ParseRevisions, RevisionsPhrase, AnnotationsPhrase, IdAfterRevisions, IsIdentifier, NIL_UUID;
    var a := AnnotationsSound(ts);
    var ts1 := ParseAnnotations(ts).value.1;
    var ts4 := ts1[1..][1..][1..];
    var b := RevisionsSound(ts4, first, id);
    var i := ParseInterface(ts, first, id).value;
    k := ParseRevisions(ts4, first, id).value.1[1..];
    u := a + [Reserved(KwInterface), Ident(i.name), Punct('{')] + b + [Punct('}')];
  }

  /** The parser accepts exactly the token lists that begin with a phrase for an interface, and yields
      that interface. */
  lemma ParserIsGrammar(ts: Ts, first: u64, id: u32, i: Interface)
    ensures ParseInterface(ts, first, id) == Ok(i) <==>
            exists u, k :: InterfacePhrase(u, i, first, id) && ts == u + k
  {
    hide ParseInterface, InterfacePhrase;
    if ParseInterface(ts, first, id) == Ok(i) { var u, k := InterfaceSound(ts, first, id); }
    forall u, k | InterfacePhrase(u, i, first, id) && ts == u + k ensures ParseInterface(ts, first, id) == Ok(i) {
      InterfaceComplete(u, i, first, id, k);
    }
  }

  // ---------------------------------------------------------------- a revision out of turn

  lemma OneRevisionRead(ts: Ts, v: Revision, next: u64, id: u32, id1: u32, ts1: Ts)
    requires ParseRevision(ts, id) == Ok(((v, id1), ts1)) && Peek(ts) == Reserved(KwAbirevision)
    ensures v.version != next ==> ParseRevisions(ts, next, id) == Err(NotContiguousRevision)
    ensures v.version == next && ParseRevisions(ts1, (next + 1) % TWO64, id1).Err? ==>
              ParseRevisions(ts, next, id) == Err(ParseRevisions(ts1, (next + 1) % TWO64, id1).error)
  {
    hide ParseRevision;
  }

  lemma ExpectedNext(next: u64, n: nat)
    ensures Expected(next, 0) == next && Expected(next, n + 1) == Expected((next + 1) % TWO64, n)
  {
  }

  lemma {:induction false} RevisionsRefused(
    u: Ts, vs: seq<Revision>, w: Ts, v: Revision, next: u64, id: u32, k: Ts)
    requires RevisionsPhrase(u, vs, next, id) && RevisionPhrase(w, v, IdAfterRevisions(vs, id))
    requires v.version != Expected(next, |vs|)
    ensures ParseRevisions(u + (w + k), next, id) == Err(NotContiguousRevision)
    decreases |vs|
  {
    hide ParseRevision, ParseRevisions, RevisionPhrase, Numbered, IdAfter, Expected;
    if vs == [] {
      assert u + (w + k) == w + k;
      RevisionComplete(w, v, id, k);
      ExpectedNext(next, 0);
      OneRevisionRead(w + k, v, next, id, IdAfter(v.functions, id), k);
    } else {
      var a, b :| RevisionPhrase(a, vs[0], id)
                  && RevisionsPhrase(b, vs[1..], (next + 1) % TWO64, IdAfter(vs[0].functions, id))
                  && vs[0].version == next && u == a + b;
      var rest := b + (w + k);
      assert u + (w + k) == a + rest;
      RevisionComplete(a, vs[0], id, rest);
      ExpectedNext(next, |vs| - 1);
      RevisionsRefused(b, vs[1..], w, v, (next + 1) % TWO64, IdAfter(vs[0].functions, id), k);
      OneRevisionRead(a + rest, vs[0], next, id, IdAfter(vs[0].functions, id), rest);
    }
  }

  /** A source whose revisions are phrases, the last of them with a wrong number, is refused for it. */
  lemma WrongNumberIsRefused(
    a: Ts, notes: seq<Annotation>, name: IdentifierText, u: Ts, vs: seq<Revision>, w: Ts, v: Revision,
    first: u64, id: u32, k: Ts)
    requires AnnotationsPhrase(a, notes) && RevisionsPhrase(u, vs, first, id)
    requires RevisionPhrase(w, v, IdAfterRevisions(vs, id)) && v.version != (first + |vs|) % TWO64
    ensures ParseInterface(a + [Reserved(KwInterface), Ident(name), Punct('{')] + (u + (w + k)), first, id)
            == Err(NotContiguousRevision)
  {
    hide ParseAnnotations, ParseRevisions, RevisionsPhrase, RevisionPhrase, AnnotationsPhrase, IdAfterRevisions,
         IsIdentifier;
    var ts1 := [Reserved(KwInterface), Ident(name), Punct('{')] + (u + (w + k));
    assert a + [Reserved(KwInterface), Ident(name), Punct('{')] + (u + (w + k)) == a + ts1;
    assert ts1[1..][1..][1..] == u + (w + k);
    AnnotationsComplete(a, notes, ts1);
    RevisionsRefused(u, vs, w, v, first, id, k);
  }
}
