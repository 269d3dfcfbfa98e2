/** Compiling the decompiled text of an artifact gives the artifact back, octet for octet, exactly
    when its const flags are 0 or 1 and its tree is one that SIDL text can express. */
module Reproduction {
  import opened Octets
  import opened Ast
  import opened SifFormat
  import opened SifArtifact
  import opened SifTheorems
  import opened Lexing
  import opened Parsing
  import opened Printing
  import opened TextRoundTrip
  import opened UuidText
  import opened Compiling

  predicate NoQuotes(s: Bytes) { forall c <- s :: NotQuote(c) }

  predicate NoReservedNames(vs: seq<Annotation>) {
    forall a <- vs :: a.name != UUID_NAME && a.name != PREFIX_NAME
  }

  /** What SIDL text can express of an interface, whatever its revisions are. */
  predicate ExpressibleHeader(i: Interface) {
    && IsIdentifier(i.name) && NoQuotes(i.uuidName) && NoQuotes(i.prefix)
    && PrintableAnnotations(i.annotations) && NoReservedNames(i.annotations)
  }

  /** SIDL text can express the interface: names are identifiers, string literals are quoted and
      hold no quote, revisions carry no annotations, and function ids count up from 0. */
  ghost predicate Expressible(i: Interface) {
    && ExpressibleHeader(i)
    && (forall v <- i.revisions :: PrintableRevision(v))
    && NumberedRevisions(i.revisions, 0)
  }

  // ---------------------------------------------------------------- the text of an interface

  function UuidAnnotation(i: Interface): Annotation {
    Annotation(UUID_NAME, [StringLiteral(Quote(UuidString(i.uuidNamespace))), StringLiteral(Quote(i.uuidName))])
  }

  function PrefixAnnotation(i: Interface): Annotation {
    Annotation(PREFIX_NAME, [StringLiteral(Quote(i.prefix))])
  }

  /** What the parser makes of the decompiled text, before normalisation. */
  function Raw(i: Interface, first: u32): Interface {
    Interface(i.name, false, NIL_UUID, [], false, [],
              [UuidAnnotation(i), PrefixAnnotation(i)] + i.annotations, i.revisions,
              IdAfterRevisions(i.revisions, first))
  }

  lemma UuidStringUnquoted(u: Uuid)
    ensures NoQuotes(UuidString(u))
  {
    hide HexOf;
    assert forall c :: IsHex(c) ==> NotQuote(c);
  }

  lemma QuoteIsQuoted(s: Bytes)
    requires NoQuotes(s)
    ensures IsQuoted(Quote(s)) && LiteralArgument(StringLiteral(Quote(s))) == Ok(s)
  {
    assert Quote(s)[1..|Quote(s)| - 1] == s;
  }

  lemma MetadataPrintable(i: Interface)
    requires ExpressibleHeader(i)
    ensures PrintableAnnotations([UuidAnnotation(i), PrefixAnnotation(i)] + i.annotations)
  {
    hide UuidString;
    UuidStringUnquoted(i.uuidNamespace);
    QuoteIsQuoted(UuidString(i.uuidNamespace));
    QuoteIsQuoted(i.uuidName);
    QuoteIsQuoted(i.prefix);
    assert IsIdentifier(UUID_NAME) && IsIdentifier(PREFIX_NAME);
    assert PrintableAnnotation(UuidAnnotation(i)) && PrintableAnnotation(PrefixAnnotation(i));
  }

  /** The printed header is the printed list of the metadata and the other annotations. */
  lemma HeaderAsAnnotations(i: Interface, k: Bytes)
    ensures PrintInterface(i, k) ==
            PrintAnnotations([UuidAnnotation(i), PrefixAnnotation(i)] + i.annotations, 0,
              W(Spelling(KwInterface), C(' ', W(i.name, C(' ', C('{', C('\n',
                PrintMany(PrintRevision, i.revisions, false, C('}', C('\n', k))))))))))
  {
    hide UuidString, W, C, Spelling, PrintMany, Quote;
    var body := W(Spelling(KwInterface), C(' ', W(i.name, C(' ', C('{', C('\n',
                PrintMany(PrintRevision, i.revisions, false, C('}', C('\n', k)))))))));
    var u, p := UuidAnnotation(i), PrefixAnnotation(i);
    var all := [u, p] + i.annotations;
    assert all[0] == u && all[1..][0] == p && all[1..][1..] == i.annotations;
    var rest := C('\n', PrintAnnotations(i.annotations, 0, body));
    assert PrintAnnotations(all[1..], 0, body) == PrintAnnotation(p, rest);
    PrintOneArgument(p.args[0], C(')', rest));
    PrintTwoArguments(u.args[0], u.args[1], C(')', C('\n', PrintAnnotation(p, rest))));
  }

  lemma PrintOneArgument(a: Expression, k: Bytes)
    ensures PrintArguments([a], k) == PrintExpression(a, k)
  {
  }

  lemma PrintTwoArguments(a: Expression, b: Expression, k: Bytes)
    ensures PrintArguments([a, b], k) == PrintExpression(a, C(',', C(' ', PrintExpression(b, k))))
  {
    assert [a, b][1..] == [b];
  }

  lemma InterfaceText(i: Interface, first: nat, id: u32)
    requires ExpressibleHeader(i) && forall v <- i.revisions :: PrintableRevision(v)
    requires Contiguous(i.revisions, first) && first + |i.revisions| < TWO64
    requires NumberedRevisions(i.revisions, id)
    ensures ParseInterface(Lexing.Tokens(PrintInterface(i, [])), first, id) == Ok(Raw(i, id))
  {
    hide Lexing.Tokens, W, C, Indent, Delimited, Stoull, Decimal, Spelling, Consume, ParseIdentifier, IsIdentifier,
         PrintMany, PrintAnnotations, ParseAnnotations, ParseRevisions, PrintInterface, PrintableAnnotations,
         NumberedRevisions, IdAfterRevisions, PrintableRevision, UuidAnnotation, PrefixAnnotation;
    LexLaws();
    KeywordLaws();
    ConsumeLaws();
    var end := C('}', C('\n', []));
    var k1 := PrintMany(PrintRevision, i.revisions, false, end);
    var k0 := W(Spelling(KwInterface), C(' ', W(i.name, C(' ', C('{', C('\n', k1))))));
    var all := [UuidAnnotation(i), PrefixAnnotation(i)] + i.annotations;
    HeaderAsAnnotations(i, []);
    MetadataPrintable(i);
    var brace := [Punct('{')] + Lexing.Tokens(k1);
    var name := [Ident(i.name)] + brace;
    assert Lexing.Tokens(k0) == [Reserved(KwInterface)] + name;
    AnnotationsText(all, 0, k0);
    assert Consume([Reserved(KwInterface)] + name, Reserved(KwInterface)) == Ok(name);
    assert ParseIdentifier(name) == Ok((i.name, brace));
    assert Consume(brace, Punct('{')) == Ok(Lexing.Tokens(k1));
    var after := Lexing.Tokens(C('\n', []));
    assert Lexing.Tokens(end) == [Punct('}')] + after;
    assert Consume([Punct('}')] + after, Punct('}')) == Ok(after);
    RevisionsText(i.revisions, false, end, first, id);
  }

  // ---------------------------------------------------------------- normalising it

  lemma {:induction false} NormaliseOthers(
    i: Interface, todo: seq<Annotation>, foundUuid: bool, foundPrefix: bool, remaining: seq<Annotation>)
    requires NoReservedNames(todo) && foundUuid && foundPrefix
    ensures NormaliseFrom(i, todo, foundUuid, foundPrefix, remaining) == Ok(i.(annotations := remaining + todo))
    decreases |todo|
  {
    if todo == [] {
      assert remaining + todo == remaining;
    } else {
      NormaliseOthers(i, todo[1..], foundUuid, foundPrefix, remaining + [todo[0]]);
      assert remaining + [todo[0]] + todo[1..] == remaining + todo;
    }
  }

  lemma NormaliseRaw(i: Interface, id: u32)
    requires ExpressibleHeader(i) && i.hasUuid && i.hasPrefix
    ensures Normalise(Raw(i, id)) == Ok(i.(currentFuncid := IdAfterRevisions(i.revisions, id)))
  {
    hide UuidString, UuidOf, Quote, IsIdentifier, IdAfterRevisions, LiteralArgument;
    var raw := Raw(i, id);
    var u, p := UuidAnnotation(i), PrefixAnnotation(i);
    UuidStringUnquoted(i.uuidNamespace);
    QuoteIsQuoted(UuidString(i.uuidNamespace));
    QuoteIsQuoted(i.uuidName);
    QuoteIsQuoted(i.prefix);
    UuidRoundTrip(i.uuidNamespace);
    var j := raw.(uuidNamespace := i.uuidNamespace, uuidName := i.uuidName, hasUuid := true);
    assert ReadUuid(raw, u) == Ok(j);
    var l := j.(prefix := i.prefix, hasPrefix := true);
    assert ReadPrefix(j, p) == Ok(l);
    assert UUID_NAME != PREFIX_NAME;
    var all := [u, p] + i.annotations;
    assert all[1..][0] == p && all[1..][1..] == i.annotations;
    assert NormaliseFrom(raw, all, false, false, []) == NormaliseFrom(j, all[1..], true, false, []);
    assert NormaliseFrom(j, all[1..], true, false, []) == NormaliseFrom(l, i.annotations, true, true, []);
    NormaliseOthers(l, i.annotations, true, true, []);
    assert [] + i.annotations == i.annotations;
  }

  // ---------------------------------------------------------------- what parsed sources satisfy

  lemma {:induction false} ItemsNumbered(ts: Parsing.Tokens, pending: seq<Annotation>, v: Revision, id: u32)
    requires ParseItems(ts, pending, v, id).Ok?
    ensures var (w, id1) := ParseItems(ts, pending, v, id).value.0;
            && w.version == v.version && v.functions <= w.functions
            && Numbered(w.functions[|v.functions|..], id)
            && id1 == IdAfter(w.functions[|v.functions|..], id)
    decreases |ts|
  {
    hide ParseAnnotation, ParseFunction, ParseStruct, ParseBitfield, ParseEnum, ParseItems;
    ItemsUnfolded(ts, pending, v, id);
    var t := Peek(ts);
    if t == Punct('@') {
      ItemsNumbered(ParseAnnotation(ts).value.1, pending + [ParseAnnotation(ts).value.0], v, id);
    } else if t == Reserved(KwFunction) {
      var (f, ts1) := ParseFunction(ts, pending, id).value;
      var v1 := v.(functions := v.functions + [f]);
      ItemsNumbered(ts1, [], v1, NextId(id));
      var w := ParseItems(ts, pending, v, id).value.0.0;
      var added := w.functions[|v.functions|..];
      assert added[0] == w.functions[|v.functions|] == f;
      assert added[1..] == w.functions[|v1.functions|..];
    } else if t == Reserved(KwStruct) {
      var (d, ts1) := ParseStruct(ts, pending).value;
      ItemsNumbered(ts1, [], v.(structs := v.structs + [d]), id);
    } else if t == Reserved(KwBitfield) {
      var (b, ts1) := ParseBitfield(ts, pending).value;
      ItemsNumbered(ts1, [], v.(bitfields := v.bitfields + [b]), id);
    } else if t == Reserved(KwEnum) {
      var (e, ts1) := ParseEnum(ts, pending).value;
      ItemsNumbered(ts1, [], v.(enums := v.enums + [e]), id);
    }
  }

  lemma RevisionNumbered(ts: Parsing.Tokens, id: u32)
    requires ParseRevision(ts, id).Ok?
    ensures var (v, id1) := ParseRevision(ts, id).value.0;
            Numbered(v.functions, id) && id1 == IdAfter(v.functions, id)
  {
    hide ParseItems, ParseNumber, Numbered, IdAfter;
    var (version, ts2) := ParseNumber(ts[1..]).value;
    ItemsNumbered(ts2[1..], [], EmptyRevision(version), id);
    var v := ParseRevision(ts, id).value.0.0;
    assert v.functions[0..] == v.functions;
  }

  lemma {:induction false} RevisionsNumbered(ts: Parsing.Tokens, next: nat, id: u32)
    requires next < TWO64 && ParseRevisions(ts, next, id).Ok?
    requires next + |ParseRevisions(ts, next, id).value.0.0| < TWO64
    ensures var (vs, id1) := ParseRevisions(ts, next, id).value.0;
            NumberedRevisions(vs, id) && id1 == IdAfterRevisions(vs, id) && Contiguous(vs, next)
    decreases |ts|
  {
    hide ParseRevision, Numbered, IdAfter;
    if Peek(ts) != Punct('}') {
      var ((v, id1), ts1) := ParseRevision(ts, id).value;
      RevisionNumbered(ts, id);
      RevisionsNumbered(ts1, next + 1, id1);
      var tail := ParseRevisions(ts1, next + 1, id1).value.0.0;
      var vs := ParseRevisions(ts, next, id).value.0.0;
      assert vs == [v] + tail && vs[1..] == tail;
      forall j | 0 <= j < |vs| ensures vs[j].version == next + j {
        if j > 0 { assert vs[j] == tail[j - 1]; }
      }
    }
  }

  lemma LiteralUnquoted(v: Expression)
    requires PrintableExpression(v) && LiteralArgument(v).Ok?
    ensures NoQuotes(LiteralArgument(v).value)
  {
  }

  lemma {:induction false} NormaliseKeeps(
    i: Interface, todo: seq<Annotation>, foundUuid: bool, foundPrefix: bool, remaining: seq<Annotation>)
    requires NormaliseFrom(i, todo, foundUuid, foundPrefix, remaining).Ok?
    requires PrintableAnnotations(todo) && PrintableAnnotations(remaining) && NoReservedNames(remaining)
    requires foundUuid ==> i.hasUuid && NoQuotes(i.uuidName)
    requires foundPrefix ==> i.hasPrefix && NoQuotes(i.prefix)
    ensures var j := NormaliseFrom(i, todo, foundUuid, foundPrefix, remaining).value;
            && j.hasUuid && NoQuotes(j.uuidName) && j.hasPrefix && NoQuotes(j.prefix)
            && PrintableAnnotations(j.annotations) && NoReservedNames(j.annotations)
            && j.name == i.name && j.revisions == i.revisions && j.currentFuncid == i.currentFuncid
    decreases |todo|
  {
    hide UuidOf, LiteralArgument, PrintableExpression;
    if todo != [] {
      var a := todo[0];
      assert PrintableAnnotation(a);
      if a.name == UUID_NAME {
        LiteralUnquoted(a.args[1]);
        NormaliseKeeps(ReadUuid(i, a).value, todo[1..], true, foundPrefix, remaining);
      } else if a.name == PREFIX_NAME {
        LiteralUnquoted(a.args[0]);
        NormaliseKeeps(ReadPrefix(i, a).value, todo[1..], foundUuid, true, remaining);
      } else {
        NormaliseKeeps(i, todo[1..], foundUuid, foundPrefix, remaining + [a]);
      }
    }
  }

  /** Everything a source that parses and normalises guarantees. */
  lemma ParsedSource(source: Bytes, first: nat, id: u32)
    requires first < TWO64 && ParseSource(source, first, id).Ok?
    requires first + |ParseSource(source, first, id).value.revisions| < TWO64
    ensures var i := ParseSource(source, first, id).value;
            && ExpressibleHeader(i) && i.hasUuid && i.hasPrefix
            && (forall v <- i.revisions :: PrintableRevision(v))
            && NumberedRevisions(i.revisions, id) && Contiguous(i.revisions, first)
            && i.currentFuncid == IdAfterRevisions(i.revisions, id)
  {
    hide Lexing.Tokens, ParseRevisions, NormaliseFrom, PrintableAnnotations, PrintableRevision, NumberedRevisions,
         IdAfterRevisions, Contiguous, NoQuotes, NoReservedNames;
    var raw := ParseInterface(Lexing.Tokens(source), first, id).value;
    var ts := ParseHeader(Lexing.Tokens(source)).value.1;
    EmptyAnnotations();
    NormaliseKeeps(raw, raw.annotations, false, false, []);
    RevisionsNumbered(ts, first, id);
    RevisionsPrintable(ts, first, id);
  }

  lemma EmptyAnnotations()
    ensures PrintableAnnotations([]) && NoReservedNames([])
  {
  }

  // ---------------------------------------------------------------- main theorem

  lemma AloneAllRevisions(i: Interface)
    ensures AllRevisions(i, []) == i.revisions && i.(revisions := i.revisions) == i
  {
  }

  /** What `compile` writes is canonical, and reads back as an expressible interface. */
  lemma CompiledIsExpressible(cr: Crypto, source: Bytes, b: Bytes)
    requires Compile(cr, source) == Ok(b)
    ensures SifRead(cr, b).Ok? && Expressible(SifRead(cr, b).value) && CanonicalFlags(cr, b)
  {
    hide ParseSource, SifRead, CanonicalFlags, PutArtifact, NumberedRevisions, PrintableRevision, Contiguous,
         FuncidAfter, Functions, PrintableAnnotations, FitsRevision, FitsIdentity;
    var i := ParseSource(source, 0, 0).value;
    AloneAllRevisions(i);
    ParsedSource(source, 0, 0);
    ReadAfterWrite(cr, i, [], b);
  }

  /** Decompiling and recompiling reproduces exactly the canonical artifacts whose tree SIDL text can
      express. */
  lemma Reproduces(cr: Crypto, b: Bytes, i: Interface)
    requires SifRead(cr, b) == Ok(i)
    ensures Decompile(cr, b).Ok?
    ensures Compile(cr, Decompile(cr, b).value) == Ok(b) <==> CanonicalFlags(cr, b) && Expressible(i)
  {
    hide Normalise, PrintInterface, GetArtifact, SifRead, CanonicalFlags, PutArtifact, NumberedRevisions,
         PrintableRevision, Contiguous,
         FuncidAfter, Functions, PrintableAnnotations, IdAfterRevisions, FitsRevision, FitsIdentity, UuidAnnotation, PrefixAnnotation;
    AcceptedIsWritable(cr, b, i);
    WriteAfterRead(cr, b, i);
    if Expressible(i) {
      InterfaceText(i, 0, 0);
      NormaliseRaw(i, 0);
      var j := ParseSource(PrintInterface(i, []), 0, 0).value;
      assert j == i.(currentFuncid := j.currentFuncid);
      SameWrite(cr, i, j);
    }
    if Compile(cr, Decompile(cr, b).value) == Ok(b) {
      CompiledIsExpressible(cr, Decompile(cr, b).value, b);
    }
  }

  lemma AcceptedIsWritable(cr: Crypto, b: Bytes, i: Interface)
    requires SifRead(cr, b) == Ok(i)
    ensures Writable(i) && i == Reread(i)
  {
    hide GetArtifact;
    ArtifactSound(cr, Input(b, true));
  }

  lemma SameWrite(cr: Crypto, i: Interface, j: Interface)
    requires j == i.(currentFuncid := j.currentFuncid)
    ensures SifWrite(cr, j, []) == SifWrite(cr, i, [])
  {
    hide FitsRevision, FitsAnnotations, PutAnnotations, PutTrees, HashTable, PutMany;
    AloneAllRevisions(i);
    AloneAllRevisions(j);
  }

  /** The artifact of an interface. */
  function ArtifactOf(cr: Crypto, i: Interface): Bytes
    requires i.revisions != []
  {
    PutArtifact(cr, i, [])
  }

  lemma WritableIsWritten(cr: Crypto, i: Interface)
    requires Writable(i)
    ensures SifWrite(cr, i, []) == Ok(ArtifactOf(cr, i))
    ensures SifRead(cr, ArtifactOf(cr, i)) == Ok(Reread(i))
  {
    hide GetArtifact, PutArtifact, FitsIdentity, FitsRevision, FuncidAfter, Functions;
    AloneAllRevisions(i);
    ReadAfterWrite(cr, i, [], PutArtifact(cr, i, []));
  }

  /** Every interface that can be written and expressed is compiled from its printed text. */
  lemma PrintedCompiles(cr: Crypto, i: Interface)
    requires Writable(i) && Expressible(i)
    ensures Compile(cr, PrintInterface(i, [])) == Ok(ArtifactOf(cr, i))
  {
    hide Normalise, PrintInterface, GetArtifact, SifRead, PutArtifact, NumberedRevisions, PrintableRevision,
         Contiguous, FuncidAfter, Functions, PrintableAnnotations, IdAfterRevisions, FitsRevision, FitsIdentity,
         UuidAnnotation, PrefixAnnotation;
    InterfaceText(i, 0, 0);
    NormaliseRaw(i, 0);
    var j := ParseSource(PrintInterface(i, []), 0, 0).value;
    assert j == i.(currentFuncid := j.currentFuncid);
    SameWrite(cr, i, j);
    WritableIsWritten(cr, i);
  }
}
