/** Compiling all revisions of an interface in one source, against compiling the first ones and extending
    the artifact with the others: both succeed or both fail, and they give the same octets exactly when
    the counter that the reader recovers is, at every cut that functions follow, the one the parser had. */
module SplitExactly {
  import opened Octets
  import opened Ast
  import opened SifFormat
  import opened SifArtifact
  import opened SifTheorems
  import opened Lexing
  import opened Parsing
  import opened ParserLocality
  import opened TextRoundTrip
  import opened Compiling
  import opened Reproduction
  import opened Histories
  import opened SplitCompile

  // ---------------------------------------------------------------- the two counters

  function Min(x: nat, y: nat): nat { if x < y then x else y }

  /** The counter that the reader recovers from `m` functions, and the one the parser has after them. */
  function ReaderCounter(m: nat): u32 { Min(m, TWO32 - 1) }
  function ParserCounter(m: nat): u32 { m % TWO32 }

  predicate CountersAgree(m: nat) { m < TWO32 || m % TWO32 == TWO32 - 1 }

  lemma AgreeIff(m: nat)
    ensures CountersAgree(m) <==> ReaderCounter(m) == ParserCounter(m)
  {
  }

  lemma NextCounters(m: nat)
    ensures NextId(ParserCounter(m)) == ParserCounter(m + 1)
    ensures var next := (ParserCounter(m) + 1) % TWO32;
            (if next > ReaderCounter(m) then next else ReaderCounter(m)) == ReaderCounter(m + 1)
  {
  }

  /** The reader keeps the maximum of the ids' successors, so its counter stops at 2^32 - 1, where the
      parser's wraps. */
  lemma {:induction false} CountersAfter(fs: seq<Function>, m: nat)
    requires Numbered(fs, ParserCounter(m))
    ensures IdAfter(fs, ParserCounter(m)) == ParserCounter(m + |fs|)
    ensures FuncidAfter(fs, ReaderCounter(m)) == ReaderCounter(m + |fs|)
    decreases |fs|
  {
    hide NextId, ParserCounter, ReaderCounter;
    if fs != [] {
      NextCounters(m);
      CountersAfter(fs[1..], m + 1);
    }
  }

  lemma {:induction false} NumberedBoth(a: seq<Function>, b: seq<Function>, id: u32)
    ensures Numbered(a + b, id) <==> Numbered(a, id) && Numbered(b, IdAfter(a, id))
    ensures IdAfter(a + b, id) == IdAfter(b, IdAfter(a, id))
    decreases |a|
  {
    hide NextId;
    if a == [] {
      assert a + b == b;
    } else {
      assert (a + b)[1..] == a[1..] + b && (a + b)[0] == a[0];
      NumberedBoth(a[1..], b, NextId(id));
    }
  }

  lemma NothingNumbered(id: u32)
    ensures Numbered([], id) && IdAfter([], id) == id
  {
  }

  lemma {:induction false} NumberedFlat(vs: seq<Revision>, id: u32)
    requires NumberedRevisions(vs, id)
    ensures Numbered(Functions(vs), id) && IdAfter(Functions(vs), id) == IdAfterRevisions(vs, id)
    decreases |vs|
  {
    hide Numbered, IdAfter;
    if vs == [] {
      NothingNumbered(id);
    } else {
      NumberedFlat(vs[1..], IdAfter(vs[0].functions, id));
      NumberedBoth(vs[0].functions, Functions(vs[1..]), id);
    }
  }

  /** Both counters behind revisions that are numbered from 0. */
  lemma CountersOf(vs: seq<Revision>)
    requires NumberedRevisions(vs, 0)
    ensures FuncidAfter(Functions(vs), 0) == ReaderCounter(|Functions(vs)|)
    ensures IdAfterRevisions(vs, 0) == ParserCounter(|Functions(vs)|)
  {
    NumberedFlat(vs, 0);
    CountersAfter(Functions(vs), 0);
  }

  // ---------------------------------------------------------------- revisions up to their ids

  ghost predicate SameButIds(vs: seq<Revision>, ws: seq<Revision>) {
    |vs| == |ws| && forall j :: 0 <= j < |vs| ==> Erased(vs[j]) == Erased(ws[j])
  }

  lemma SameAppend(a: seq<Revision>, b: seq<Revision>, c: seq<Revision>, d: seq<Revision>)
    requires SameButIds(a, b) && SameButIds(c, d)
    ensures SameButIds(a + c, b + d)
  {
    hide Erased;
  }

  lemma {:induction false} RevisionsIgnoreIds(ts: Ts, next: u64, id: u32, id1: u32)
    requires ParseRevisions(ts, next, id).Ok?
    ensures ParseRevisions(ts, next, id1).Ok?
    ensures ParseRevisions(ts, next, id1).value.1 == ParseRevisions(ts, next, id).value.1
    ensures SameButIds(ParseRevisions(ts, next, id).value.0.0, ParseRevisions(ts, next, id1).value.0.0)
    decreases |ts|
  {
    hide ParseRevision, ParseRevisions, Expected, Erased;
    if Peek(ts) == Punct('}') {
      EndOfRevisions(ts, next);
    } else {
      OneRevision(ts, next, id);
      OneRevision(ts, next, id1);
      RevisionIgnoresId(ts, id, id1);
      var ((v, id2), ts1) := ParseRevision(ts, id).value;
      var ((w, id3), _) := ParseRevision(ts, id1).value;
      SameVersion(v, w);
      RevisionsIgnoreIds(ts1, Expected(next, 1), id2, id3);
      SameAppend([v], [w], ParseRevisions(ts1, Expected(next, 1), id2).value.0.0,
                 ParseRevisions(ts1, Expected(next, 1), id3).value.0.0);
    }
  }

  lemma SameVersion(v: Revision, w: Revision)
    requires Erased(v) == Erased(w)
    ensures v.version == w.version
  {
    SameOthers(v, w);
  }

  lemma EndOfRevisions(ts: Ts, next: u64)
    requires Peek(ts) == Punct('}')
    ensures forall id: u32 :: ParseRevisions(ts, next, id) == Ok((([], id), ts))
  {
  }

  lemma BlocksIgnoreIds(a: Ts, next: u64, id: u32, id1: u32)
    ensures Revisions(a, next, id).Ok? == Revisions(a, next, id1).Ok?
    ensures Revisions(a, next, id).Ok? ==>
              SameButIds(Revisions(a, next, id).value.0, Revisions(a, next, id1).value.0)
  {
    hide ParseRevisions, Erased;
    if Revisions(a, next, id).Ok? { RevisionsIgnoreIds(a + CLOSE, next, id, id1); }
    if Revisions(a, next, id1).Ok? { RevisionsIgnoreIds(a + CLOSE, next, id1, id); }
  }

  lemma {:induction false} SameCount(vs: seq<Revision>, ws: seq<Revision>)
    requires SameButIds(vs, ws)
    ensures |Functions(vs)| == |Functions(ws)|
    decreases |vs|
  {
    hide Erased;
    if vs != [] {
      assert Erased(vs[0]) == Erased(ws[0]);
      SameLength(vs[0], ws[0]);
      forall j | 0 <= j < |vs[1..]| ensures Erased(vs[1..][j]) == Erased(ws[1..][j]) {
        assert vs[1..][j] == vs[j + 1] && ws[1..][j] == ws[j + 1];
      }
      SameCount(vs[1..], ws[1..]);
    }
  }

  lemma SameLength(v: Revision, w: Revision)
    requires Erased(v) == Erased(w)
    ensures |v.functions| == |w.functions|
  {
    assert |Erased(v).functions| == |v.functions| && |Erased(w).functions| == |w.functions|;
  }

  /** Without functions there is nothing to number. */
  lemma {:induction false} SameWithoutFunctions(vs: seq<Revision>, ws: seq<Revision>)
    requires SameButIds(vs, ws) && Functions(vs) == []
    ensures vs == ws
    decreases |vs|
  {
    hide Erased;
    if vs != [] {
      assert Erased(vs[0]) == Erased(ws[0]);
      SameLength(vs[0], ws[0]);
      SameOthers(vs[0], ws[0]);
      assert vs[0].functions == [] && ws[0].functions == [];
      forall j | 0 <= j < |vs[1..]| ensures Erased(vs[1..][j]) == Erased(ws[1..][j]) {
        assert vs[1..][j] == vs[j + 1] && ws[1..][j] == ws[j + 1];
      }
      SameWithoutFunctions(vs[1..], ws[1..]);
      assert vs == [vs[0]] + vs[1..] && ws == [ws[0]] + ws[1..];
    }
  }

  lemma ErasedFits(v: Revision, w: Revision)
    requires Erased(v) == Erased(w) && FitsRevision(v)
    ensures FitsRevision(w)
  {
    hide FitsAnnotations, FitsParameter, FitsStruct, FitsEnum, FitsBitfield;
    SameOthers(v, w);
    SameLength(v, w);
    forall g | g in w.functions ensures FitsFunction(g) {
      var j :| 0 <= j < |w.functions| && w.functions[j] == g;
      assert Erased(v).functions[j] == Erased(w).functions[j];
      assert v.functions[j] in v.functions;
      assert v.functions[j].(id := 0) == g.(id := 0);
      FitsIgnoresId(v.functions[j], g);
    }
  }

  lemma FitsIgnoresId(f: Function, g: Function)
    requires f.(id := 0) == g.(id := 0) && FitsFunction(f)
    ensures FitsFunction(g)
  {
    assert g == f.(id := g.id) by { assert g == g.(id := 0).(id := g.id); }
  }

  lemma SameFits(vs: seq<Revision>, ws: seq<Revision>)
    requires SameButIds(vs, ws) && forall v <- vs :: FitsRevision(v)
    ensures forall w <- ws :: FitsRevision(w)
  {
    hide Erased, FitsRevision;
    forall w | w in ws ensures FitsRevision(w) {
      var j :| 0 <= j < |ws| && ws[j] == w;
      assert vs[j] in vs;
      ErasedFits(vs[j], w);
    }
  }

  // ---------------------------------------------------------------- the artifact of a header and revisions

  /** `b` is what is written for the header `h` and the revisions `vs`. */
  ghost predicate WrittenAs(cr: Crypto, h: Ts, vs: seq<Revision>, b: Bytes)
    requires IsHeader(h)
  {
    Header(h).Ok? && WriteOrError(cr, Header(h).value.(revisions := vs, currentFuncid := 0), []) == Ok(b)
  }

  /** What it takes, apart from the revisions. */
  ghost predicate WritableHeader(h: Ts)
    requires IsHeader(h)
  {
    Header(h).Ok? && Header(h).value.hasUuid && Header(h).value.hasPrefix && FitsIdentity(Header(h).value)
  }

  lemma WrittenIff(cr: Crypto, h: Ts, vs: seq<Revision>, b: Bytes)
    requires IsHeader(h)
    ensures WrittenAs(cr, h, vs, b) <==>
            && WritableHeader(h) && vs != [] && FitsCount(|vs|) && (forall v <- vs :: FitsRevision(v))
            && b == PutArtifact(cr, Header(h).value.(revisions := vs), [])
  {
    hide Header, IsHeader, WriteOrError, PutArtifact, FitsRevision, FitsIdentity;
    if Header(h).Ok? { WriteCondition(cr, Header(h).value, vs, 0, b); }
  }

  lemma HeaderOf(h: Ts)
    requires IsHeader(h) && WritableHeader(h)
    ensures Header(h).Ok?
  {
    hide Header;
  }

  lemma ReadOfWritten(cr: Crypto, h: Ts, vs: seq<Revision>, b: Bytes)
    requires IsHeader(h) && WrittenAs(cr, h, vs, b) && Contiguous(vs, 0)
    ensures vs != [] && |vs| < TWO32
    ensures SifRead(cr, b) ==
            Ok(Header(h).value.(revisions := vs, currentFuncid := FuncidAfter(Functions(vs), 0)))
  {
    hide SifRead, Header, IsHeader, PutArtifact, Functions, FuncidAfter, WriteOrError, Contiguous, FitsRevision,
         FitsIdentity;
    WrittenIff(cr, h, vs, b);
    var i := Header(h).value.(revisions := vs, currentFuncid := 0);
    AloneAllRevisions(i);
    assert SifWrite(cr, i, []) == Ok(b) by { WriteIsOk(cr, i, b); }
    ReadAfterWrite(cr, i, [], b);
  }

  /** Of two lists of revisions that differ in ids alone, both are written or neither is. */
  lemma SameAreWritten(cr: Crypto, h: Ts, vs: seq<Revision>, ws: seq<Revision>, b: Bytes) returns (c: Bytes)
    requires IsHeader(h) && SameButIds(vs, ws) && WrittenAs(cr, h, vs, b)
    ensures WrittenAs(cr, h, ws, c)
  {
    hide WrittenAs, Header, IsHeader, PutArtifact, FitsRevision, FitsIdentity, Erased;
    WrittenIff(cr, h, vs, b);
    SameFits(vs, ws);
    assert Header(h).Ok? by { HeaderOf(h); }
    c := PutArtifact(cr, Header(h).value.(revisions := ws), []);
    WrittenIff(cr, h, ws, c);
  }

  // ---------------------------------------------------------------- a run over parts

  /** The revisions after the parts, each numbered from the counter that a reader recovers from those
      before it. */
  ghost function Chained(parts: seq<Ts>): Result<seq<Revision>, ParseError>
    decreases |parts|
  {
    if parts == [] then Ok([])
    else
      match Chained(parts[..|parts| - 1])
      case Err(e) => Err(e)
      case Ok(vs) =>
        match Revisions(parts[|parts| - 1], Expected(0, |vs|), FuncidAfter(Functions(vs), 0))
        case Err(e) => Err(e)
        case Ok((ws, _)) => Ok(vs + ws)
  }

  lemma RevisionsAreNumbered(a: Ts, next: nat, id: u32)
    requires next < TWO64 && Revisions(a, next, id).Ok? && next + |Revisions(a, next, id).value.0| < TWO64
    ensures var (vs, id1) := Revisions(a, next, id).value;
            NumberedRevisions(vs, id) && id1 == IdAfterRevisions(vs, id) && Contiguous(vs, next)
  {
    hide ParseRevisions, NumberedRevisions, IdAfterRevisions, Contiguous;
    RevisionsNumbered(a + CLOSE, next, id);
  }

  lemma {:induction false} ChainedContiguous(parts: seq<Ts>)
    requires Chained(parts).Ok? && |Chained(parts).value| < TWO64
    ensures Contiguous(Chained(parts).value, 0)
    decreases |parts|
  {
    hide Revisions, Functions, FuncidAfter;
    if parts != [] {
      var n := |parts| - 1;
      ChainedContiguous(parts[..n]);
      var vs := Chained(parts[..n]).value;
      RevisionsAreNumbered(parts[n], |vs|, FuncidAfter(Functions(vs), 0));
      ContiguousAppend(vs, Revisions(parts[n], |vs|, FuncidAfter(Functions(vs), 0)).value.0);
    }
  }

  /** One extension, whatever the counters are. */
  lemma ChainStep(cr: Crypto, h: Ts, vs: seq<Revision>, q: Ts, base: Bytes, source: Bytes, b: Bytes)
    requires IsHeader(h) && Blocks(q) && IsSource(source, h, q)
    requires WrittenAs(cr, h, vs, base) && Contiguous(vs, 0)
    ensures var r := Revisions(q, Expected(0, |vs|), FuncidAfter(Functions(vs), 0));
            Extend(cr, base, source) == Ok(b) <==> r.Ok? && WrittenAs(cr, h, vs + r.value.0, b)
  {
    hide SifRead, Header, IsHeader, IsSource, Blocks, Revisions, ParseSource, FitsIdentity, FitsRevision, PutArtifact,
         Functions, FuncidAfter, WriteOrError, Validate, Contiguous;
    ReadOfWritten(cr, h, vs, base);
    var i := SifRead(cr, base).value;
    var id := FuncidAfter(Functions(vs), 0);
    SourceOfBlocks(source, h, q, |vs|, id);
    assert Expected(0, |vs|) == |vs| == |i.revisions| % TWO64;
    if Revisions(q, |vs|, id).Ok? {
      var (ws, id2) := Revisions(q, |vs|, id).value;
      var j := i.(revisions := ws, currentFuncid := id2);
      HeaderHasIdentity(h);
      SameHeaderValidates(i, j);
      ExtensionCondition(cr, i, j, vs, ws, b);
    }
  }

  lemma CompileWritten(cr: Crypto, h: Ts, a: Ts, source: Bytes, b: Bytes)
    requires IsHeader(h) && Blocks(a) && IsSource(source, h, a)
    ensures Compile(cr, source) == Ok(b) <==>
            Revisions(a, 0, 0).Ok? && WrittenAs(cr, h, Revisions(a, 0, 0).value.0, b)
  {
    hide Compile, Header, IsHeader, IsSource, Blocks, Revisions, FitsIdentity, FitsRevision, PutArtifact, WriteOrError;
    CompileOfBlocks(cr, source, h, a);
    if Revisions(a, 0, 0).Ok? && Header(h).Ok? {
      var (vs, id) := Revisions(a, 0, 0).value;
      WriteCondition(cr, Header(h).value, vs, id, b);
      WriteCondition(cr, Header(h).value, vs, 0, b);
    }
  }

  lemma FirstPartWritten(cr: Crypto, h: Ts, vs: seq<Revision>, ws: seq<Revision>, b: Bytes) returns (c: Bytes)
    requires IsHeader(h) && vs != [] && WrittenAs(cr, h, vs + ws, b)
    ensures WrittenAs(cr, h, vs, c)
  {
    hide WrittenAs, Header, IsHeader, FitsIdentity, FitsRevision, PutArtifact;
    WrittenIff(cr, h, vs + ws, b);
    assert forall v <- vs :: v in vs + ws;
    assert Header(h).Ok? by { HeaderOf(h); }
    c := PutArtifact(cr, Header(h).value.(revisions := vs), []);
    WrittenIff(cr, h, vs, c);
  }

  lemma {:induction false} ChainedStarts(parts: seq<Ts>)
    requires parts != [] && parts[0] != [] && Blocks(parts[0]) && Chained(parts).Ok?
    ensures Chained(parts).value != []
    decreases |parts|
  {
    hide Revisions, Functions, FuncidAfter, Blocks;
    var n := |parts| - 1;
    if n == 0 {
      assert Functions([]) == [] && FuncidAfter([], 0) == 0 && Chained(parts[..0]) == Ok([]) by { NoFunctions(); }
      SomeRevisions(parts[0]);
    } else {
      ChainedStarts(parts[..n]);
    }
  }

  lemma OnePart(a: Ts)
    ensures Chained([a]) == match Revisions(a, 0, 0) { case Ok((vs, _)) => Ok(vs) case Err(e) => Err(e) }
  {
    hide Revisions;
    NoFunctions();
    assert [a][..0] == [];
    assert forall vs: seq<Revision> :: [] + vs == vs;
  }

  lemma NoFunctions()
    ensures Functions([]) == [] && FuncidAfter([], 0) == 0 && Expected(0, 0) == 0
  {
  }

  /** A run writes the revisions of its chain, or fails. */
  lemma {:induction false} RunWritten(cr: Crypto, h: Ts, parts: seq<Ts>, sources: seq<Bytes>, b: Bytes)
    requires IsHeader(h) && parts != [] && parts[0] != [] && |sources| == |parts|
    requires forall a <- parts :: Blocks(a)
    requires forall j :: 0 <= j < |parts| ==> IsSource(sources[j], h, parts[j])
    ensures Run(cr, sources) == Ok(b) <==> Chained(parts).Ok? && WrittenAs(cr, h, Chained(parts).value, b)
    decreases |parts|
  {
    hide Compile, Extend, IsHeader, Blocks, IsSource, Revisions, WrittenAs, Functions, FuncidAfter, Contiguous,
         PutArtifact;
    var n := |parts| - 1;
    if n == 0 {
      assert parts == [parts[0]];
      OnePart(parts[0]);
      CompileWritten(cr, h, parts[0], sources[0], b);
    } else {
      var init := parts[..n];
      if Run(cr, sources) == Ok(b) {
        var base := Run(cr, sources[..n]).value;
        RunWritten(cr, h, init, sources[..n], base);
        RunStep(cr, h, parts, sources, base, b);
      }
      if Chained(parts).Ok? && WrittenAs(cr, h, Chained(parts).value, b) {
        var vs := Chained(init).value;
        ChainedStarts(init);
        var ws := Revisions(parts[n], Expected(0, |vs|), FuncidAfter(Functions(vs), 0)).value.0;
        var base := FirstPartWritten(cr, h, vs, ws, b);
        RunWritten(cr, h, init, sources[..n], base);
        RunStep(cr, h, parts, sources, base, b);
      }
    }
  }

  lemma RunStep(cr: Crypto, h: Ts, parts: seq<Ts>, sources: seq<Bytes>, base: Bytes, b: Bytes)
    requires IsHeader(h) && |parts| > 1 && |sources| == |parts|
    requires forall a <- parts :: Blocks(a)
    requires forall j :: 0 <= j < |parts| ==> IsSource(sources[j], h, parts[j])
    requires Run(cr, sources[..|parts| - 1]) == Ok(base)
    requires Chained(parts[..|parts| - 1]).Ok? && WrittenAs(cr, h, Chained(parts[..|parts| - 1]).value, base)
    ensures Run(cr, sources) == Ok(b) <==> Chained(parts).Ok? && WrittenAs(cr, h, Chained(parts).value, b)
  {
    hide Compile, Extend, IsHeader, Blocks, IsSource, Revisions, WrittenAs, Functions, FuncidAfter, Contiguous,
         PutArtifact;
    var n := |parts| - 1;
    var vs := Chained(parts[..n]).value;
    assert |vs| < TWO32 by { WrittenCount(cr, h, vs, base); }
    ChainedContiguous(parts[..n]);
    ChainStep(cr, h, vs, parts[n], base, sources[n], b);
  }

  lemma WrittenCount(cr: Crypto, h: Ts, vs: seq<Revision>, b: Bytes)
    requires IsHeader(h) && WrittenAs(cr, h, vs, b)
    ensures |vs| < TWO32
  {
    hide WrittenAs, Header, IsHeader, FitsIdentity, FitsRevision, PutArtifact;
    WrittenIff(cr, h, vs, b);
  }

  // ---------------------------------------------------------------- the chain against the whole

  /** The revisions of the parts in one source. */
  ghost function Together(parts: seq<Ts>): Result<(seq<Revision>, u32), ParseError> { Revisions(Concat(parts), 0, 0) }

  lemma TogetherSnoc(parts: seq<Ts>)
    requires parts != [] && forall a <- parts :: Blocks(a)
    ensures Together(parts) ==
            match Together(parts[..|parts| - 1])
            case Err(e) => Err(e)
            case Ok((vs, id)) =>
              match Revisions(parts[|parts| - 1], Expected(0, |vs|), id)
              case Err(e) => Err(e)
              case Ok((ws, id1)) => Ok((vs + ws, id1))
  {
    hide Revisions, Blocks, Expected;
    ConcatBlocks(parts[..|parts| - 1]);
    RevisionsAppend(Concat(parts[..|parts| - 1]), parts[|parts| - 1], 0, 0);
  }

  lemma {:induction false} ChainedSame(parts: seq<Ts>)
    requires forall a <- parts :: Blocks(a)
    ensures Chained(parts).Ok? == Together(parts).Ok?
    ensures Chained(parts).Ok? ==> SameButIds(Chained(parts).value, Together(parts).value.0)
    decreases |parts|
  {
    hide Revisions, Blocks, Expected, Functions, FuncidAfter, Erased, Together;
    if parts == [] {
      TogetherNothing();
    } else {
      var n := |parts| - 1;
      TogetherSnoc(parts);
      ChainedSame(parts[..n]);
      if Chained(parts[..n]).Ok? {
        var vs := Chained(parts[..n]).value;
        var (us, id) := Together(parts[..n]).value;
        var next, id1 := Expected(0, |vs|), FuncidAfter(Functions(vs), 0);
        BlocksIgnoreIds(parts[n], next, id1, id);
        if Chained(parts).Ok? {
          SameAppend(vs, us, Revisions(parts[n], next, id1).value.0, Revisions(parts[n], next, id).value.0);
        }
      }
    }
  }

  lemma TogetherNothing()
    ensures Together([]) == Ok(([], 0))
  {
    hide ParseRevisions;
    assert Concat([]) + CLOSE == CLOSE;
    CloseEnds(CLOSE);
  }

  /** The number of functions in the first `j` parts. */
  ghost function FunctionsBefore(parts: seq<Ts>, j: nat): nat
    requires j <= |parts|
  {
    match Together(parts[..j])
    case Ok((vs, _)) => |Functions(vs)|
    case Err(_) => 0
  }

  /** At every cut the counters agree, or no function follows. */
  ghost predicate CutsAgree(parts: seq<Ts>) {
    forall j :: 0 <= j < |parts| ==>
      CountersAgree(FunctionsBefore(parts, j)) || FunctionsBefore(parts, j) == FunctionsBefore(parts, |parts|)
  }

  lemma BeforeInit(parts: seq<Ts>, j: nat)
    requires parts != [] && j < |parts|
    ensures FunctionsBefore(parts, j) == FunctionsBefore(parts[..|parts| - 1], j)
  {
    hide Together, Functions;
    assert parts[..|parts| - 1][..j] == parts[..j];
  }

  lemma {:induction false} BeforeGrows(parts: seq<Ts>, j: nat)
    requires j <= |parts| && Together(parts).Ok? && forall a <- parts :: Blocks(a)
    ensures Together(parts[..j]).Ok? && FunctionsBefore(parts, j) <= FunctionsBefore(parts, |parts|)
    decreases |parts|
  {
    hide Together, Functions, Revisions, Blocks, Expected;
    if j == |parts| {
      assert parts[..j] == parts;
    } else {
      var n := |parts| - 1;
      TogetherSnoc(parts);
      assert parts[..n][..j] == parts[..j];
      BeforeGrows(parts[..n], j);
      BeforeInit(parts, j);
      assert parts[..|parts|] == parts && parts[..n][..n] == parts[..n];
      var (vs, id) := Together(parts[..n]).value;
      FunctionsAppend(vs, Revisions(parts[n], Expected(0, |vs|), id).value.0);
    }
  }

  /** The last part gets the same ids in both ways exactly when the counters agree or it has no
      function. */
  lemma LastPart(q: Ts, vs: seq<Revision>, id: u32)
    requires NumberedRevisions(vs, 0) && id == IdAfterRevisions(vs, 0)
    requires Revisions(q, Expected(0, |vs|), id).Ok?
    requires |vs| + |Revisions(q, Expected(0, |vs|), id).value.0| < TWO64
    ensures Revisions(q, Expected(0, |vs|), FuncidAfter(Functions(vs), 0)).Ok?
    ensures var ws := Revisions(q, Expected(0, |vs|), id).value.0;
            Revisions(q, Expected(0, |vs|), FuncidAfter(Functions(vs), 0)).value.0 == ws <==>
            CountersAgree(|Functions(vs)|) || Functions(ws) == []
  {
    hide Revisions, NumberedRevisions, IdAfterRevisions, Functions, FuncidAfter, Erased, ReaderCounter, ParserCounter,
         CountersAgree, Numbered;
    var m := |Functions(vs)|;
    CountersOf(vs);
    AgreeIff(m);
    var next: nat, id1 := |vs|, FuncidAfter(Functions(vs), 0);
    assert Expected(0, |vs|) == |vs|;
    BlocksIgnoreIds(q, next, id, id1);
    var ws, us := Revisions(q, next, id).value.0, Revisions(q, next, id1).value.0;
    if Functions(ws) == [] {
      SameWithoutFunctions(ws, us);
    } else if ws == us {
      RevisionsAreNumbered(q, next, id);
      RevisionsAreNumbered(q, next, id1);
      NumberedFlat(ws, id);
      NumberedFlat(ws, id1);
      FirstId(Functions(ws), id);
      FirstId(Functions(ws), id1);
    }
  }

  lemma FirstId(fs: seq<Function>, id: u32)
    requires fs != [] && Numbered(fs, id)
    ensures fs[0].id == id
  {
  }

  /** The chain is the whole exactly when all cuts agree. */
  lemma {:induction false} ChainedExactly(parts: seq<Ts>)
    requires forall a <- parts :: Blocks(a)
    requires Together(parts).Ok? && |Together(parts).value.0| < TWO64
    ensures Chained(parts).Ok?
    ensures Chained(parts).value == Together(parts).value.0 <==> CutsAgree(parts)
    decreases |parts|
  {
    hide Revisions, Blocks, Functions, FuncidAfter, Erased, Together, CountersAgree, FunctionsBefore,
         NumberedRevisions, IdAfterRevisions;
    ChainedSame(parts);
    if parts == [] {
      TogetherNothing();
    } else {
      var n := |parts| - 1;
      var init := parts[..n];
      TogetherSnoc(parts);
      ChainedSame(init);
      ChainedExactly(init);
      var (vs, id) := Together(init).value;
      var ws := Revisions(parts[n], Expected(0, |vs|), id).value.0;
      TogetherNumbered(init);
      CutsOfInit(parts, vs, ws);
      if Chained(init).value == vs {
        LastPart(parts[n], vs, id);
        var us := Revisions(parts[n], Expected(0, |vs|), FuncidAfter(Functions(vs), 0)).value.0;
        assert (vs + us)[|vs|..] == us && (vs + ws)[|vs|..] == ws;
      } else {
        var cs := Chained(init).value;
        assert |cs| == |vs|;
        assert Chained(parts).value[..|cs|] == cs && Together(parts).value.0[..|vs|] == vs;
      }
    }
  }

  lemma TogetherNumbered(parts: seq<Ts>)
    requires Together(parts).Ok? && |Together(parts).value.0| < TWO64
    ensures NumberedRevisions(Together(parts).value.0, 0)
    ensures Together(parts).value.1 == IdAfterRevisions(Together(parts).value.0, 0)
    ensures Contiguous(Together(parts).value.0, 0)
  {
    hide Revisions, NumberedRevisions, IdAfterRevisions, Contiguous;
    RevisionsAreNumbered(Concat(parts), 0, 0);
  }

  /** All cuts agree exactly when those before the last part do, and the last one does or no function
      follows it. */
  lemma CutsOfInit(parts: seq<Ts>, vs: seq<Revision>, ws: seq<Revision>)
    requires parts != [] && (forall a <- parts :: Blocks(a))
    requires Together(parts).Ok? && Together(parts[..|parts| - 1]).Ok?
    requires vs == Together(parts[..|parts| - 1]).value.0 && Together(parts).value.0 == vs + ws
    ensures CutsAgree(parts) <==>
            CutsAgree(parts[..|parts| - 1]) && (CountersAgree(|Functions(vs)|) || Functions(ws) == [])
  {
    hide Together, Functions, CountersAgree, Blocks;
    var n := |parts| - 1;
    var init := parts[..n];
    FunctionsAppend(vs, ws);
    assert parts[..|parts|] == parts && init[..n] == init;
    var m, last := FunctionsBefore(parts, n), FunctionsBefore(parts, |parts|);
    assert m == |Functions(vs)| == FunctionsBefore(init, n) && last == |Functions(vs)| + |Functions(ws)|;
    forall j | 0 <= j < n
      ensures FunctionsBefore(parts, j) == FunctionsBefore(init, j) <= m
    {
      BeforeInit(parts, j);
      BeforeGrows(init, j);
    }
    if CutsAgree(parts) {
      forall j | 0 <= j < n ensures CountersAgree(FunctionsBefore(init, j)) || FunctionsBefore(init, j) == m {
        assert FunctionsBefore(parts, j) <= m <= last;
      }
    }
    if CutsAgree(init) && (CountersAgree(m) || Functions(ws) == []) {
      forall j | 0 <= j < |parts|
        ensures CountersAgree(FunctionsBefore(parts, j)) || FunctionsBefore(parts, j) == last
      {
        if j < n { assert FunctionsBefore(parts, j) == FunctionsBefore(init, j); }
      }
    }
  }

  // ---------------------------------------------------------------- main theorems

  ghost predicate DealtOut(h: Ts, parts: seq<Ts>, sources: seq<Bytes>, whole: Bytes) {
    && IsHeader(h) && parts != [] && parts[0] != [] && |sources| == |parts|
    && (forall a <- parts :: Blocks(a))
    && (forall j :: 0 <= j < |parts| ==> IsSource(sources[j], h, parts[j]))
    && IsSource(whole, h, Concat(parts))
  }

  /** However the revision blocks of a source are dealt out to a first source and extensions of it with
      the same header: the run over them yields an artifact exactly when the whole source does, and the
      same one exactly when the counters agree at every cut that functions follow. */
  lemma SplitExactly(cr: Crypto, h: Ts, parts: seq<Ts>, sources: seq<Bytes>, whole: Bytes)
    requires DealtOut(h, parts, sources, whole)
    ensures Run(cr, sources).Ok? <==> Compile(cr, whole).Ok?
    ensures Compile(cr, whole).Ok? ==> (Run(cr, sources) == Compile(cr, whole) <==> CutsAgree(parts))
  {
    hide Compile, IsHeader, Blocks, IsSource, Run, WrittenAs, Revisions, Together, CutsAgree, Erased, PutArtifact,
         Header, Functions;
    ConcatBlocks(parts);
    ChainedSame(parts);
    if Compile(cr, whole).Ok? {
      var b := Compile(cr, whole).value;
      CompileWritten(cr, h, Concat(parts), whole, b);
      assert WrittenAs(cr, h, Together(parts).value.0, b) && Together(parts).Ok? by { TogetherIs(parts); }
      var vs, us := Together(parts).value.0, Chained(parts).value;
      SameSymmetric(us, vs);
      var c := SameAreWritten(cr, h, vs, us, b);
      RunWritten(cr, h, parts, sources, c);
      WrittenCount(cr, h, vs, b);
      ChainedExactly(parts);
      assert b == c <==> us == vs by { EqualArtifacts(cr, h, parts, b, c); }
    }
    if Run(cr, sources).Ok? {
      var c := Run(cr, sources).value;
      RunWritten(cr, h, parts, sources, c);
      var b := SameAreWritten(cr, h, Chained(parts).value, Together(parts).value.0, c);
      TogetherIs(parts);
      CompileWritten(cr, h, Concat(parts), whole, b);
    }
  }

  lemma TogetherIs(parts: seq<Ts>)
    ensures Together(parts) == Revisions(Concat(parts), 0, 0)
  {
  }

  lemma SameSymmetric(vs: seq<Revision>, ws: seq<Revision>)
    requires SameButIds(vs, ws)
    ensures SameButIds(ws, vs)
  {
    hide Erased;
  }

  lemma EqualArtifacts(cr: Crypto, h: Ts, parts: seq<Ts>, b: Bytes, c: Bytes)
    requires IsHeader(h) && Together(parts).Ok? && Chained(parts).Ok?
    requires WrittenAs(cr, h, Together(parts).value.0, b) && WrittenAs(cr, h, Chained(parts).value, c)
    ensures b == c <==> Chained(parts).value == Together(parts).value.0
  {
    hide IsHeader, WrittenAs, Together, PutArtifact, Header, Functions, FuncidAfter, SifRead, FitsRevision, Contiguous,
         WritableHeader, IdAfterRevisions, NumberedRevisions;
    var vs, us := Together(parts).value.0, Chained(parts).value;
    WrittenIff(cr, h, vs, b);
    WrittenIff(cr, h, us, c);
    TogetherNumbered(parts);
    ChainedContiguous(parts);
    ReadOfWritten(cr, h, vs, b);
    ReadOfWritten(cr, h, us, c);
  }

  /** Below 2^32 functions every cut agrees, so the run yields the artifact of the whole source. */
  lemma SplitInvariance(cr: Crypto, h: Ts, parts: seq<Ts>, sources: seq<Bytes>, whole: Bytes, b: Bytes)
    requires DealtOut(h, parts, sources, whole) && FewFunctions(cr, b)
    ensures Run(cr, sources) == Ok(b) <==> Compile(cr, whole) == Ok(b)
  {
    hide Compile, IsHeader, Blocks, IsSource, Run, CutsAgree, Together, SifRead, Functions, WrittenAs;
    SplitExactly(cr, h, parts, sources, whole);
    if Run(cr, sources) == Ok(b) || Compile(cr, whole) == Ok(b) { FewFunctionsAgree(cr, h, parts, sources, whole, b); }
  }

  lemma FewFunctionsAgree(cr: Crypto, h: Ts, parts: seq<Ts>, sources: seq<Bytes>, whole: Bytes, b: Bytes)
    requires DealtOut(h, parts, sources, whole) && FewFunctions(cr, b)
    requires Run(cr, sources) == Ok(b) || Compile(cr, whole) == Ok(b)
    ensures CutsAgree(parts)
  {
    hide Compile, IsHeader, Blocks, IsSource, Run, Together, SifRead, Functions, WrittenAs, Header, FuncidAfter,
         Contiguous, Revisions, NumberedRevisions, IdAfterRevisions, Erased;
    ChainedSame(parts);
    RunWritten(cr, h, parts, sources, b);
    ConcatBlocks(parts);
    CompileWritten(cr, h, Concat(parts), whole, b);
    TogetherIs(parts);
    var vs, us := Together(parts).value.0, Chained(parts).value;
    SameCount(us, vs);
    if Run(cr, sources) == Ok(b) {
      WrittenCount(cr, h, us, b);
      ChainedContiguous(parts);
      ReadOfWritten(cr, h, us, b);
    } else {
      WrittenCount(cr, h, vs, b);
      TogetherNumbered(parts);
      ReadOfWritten(cr, h, vs, b);
    }
    assert parts[..|parts|] == parts;
    forall j | 0 <= j < |parts| ensures CountersAgree(FunctionsBefore(parts, j)) { BeforeGrows(parts, j); }
  }
}
