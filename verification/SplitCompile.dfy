/** Sources as a header and revision blocks: what parsing, normalising and writing do with them, wherever
    the blocks are cut apart. */
module SplitCompile {
  import opened Octets
  import opened Ast
  import opened SifFormat
  import opened SifArtifact
  import opened SifTheorems
  import opened Lexing
  import opened Parsing
  import opened ParserLocality
  import opened TextRoundTrip
  import opened UuidText
  import opened Compiling
  import opened Reproduction
  import opened Histories

  const CLOSE: Ts := [Punct('}')]

  // ---------------------------------------------------------------- whole revision blocks

  /** The tokens are `abirevision` blocks, one after the other. */
  ghost predicate Blocks(a: Ts)
    decreases |a|
  {
    a == [] || (ParseRevision(a, 0).Ok? && Blocks(ParseRevision(a, 0).value.1))
  }

  /** The functions without their ids. */
  function Unnumbered(fs: seq<Function>): (r: seq<Function>)
    ensures |r| == |fs| && forall j :: 0 <= j < |r| ==> r[j] == fs[j].(id := 0)
  {
    seq(|fs|, j requires 0 <= j < |fs| => fs[j].(id := 0))
  }

  function Erased(v: Revision): Revision { v.(functions := Unnumbered(v.functions)) }

  lemma ErasedSnoc(v: Revision, f: Function, w: Revision, g: Function)
    requires Erased(v) == Erased(w) && f.(id := 0) == g.(id := 0)
    ensures Erased(v.(functions := v.functions + [f])) == Erased(w.(functions := w.functions + [g]))
  {
    hide Unnumbered;
    assert Unnumbered(v.functions + [f]) == Unnumbered(v.functions) + [f.(id := 0)];
    assert Unnumbered(w.functions + [g]) == Unnumbered(w.functions) + [g.(id := 0)];
    assert Erased(v).functions == Erased(w).functions;
    SameOthers(v, w);
  }

  lemma SameOthers(v: Revision, w: Revision)
    requires Erased(v) == Erased(w)
    ensures w.(functions := v.functions) == v
  {
    hide Unnumbered;
    assert Erased(v).(functions := v.functions) == v;
    assert Erased(w).(functions := v.functions) == w.(functions := v.functions);
  }

  /** Function ids do not influence which tokens a revision takes, nor anything else in it. */
  lemma {:induction false} ItemsIgnoreIds(ts: Ts, p: seq<Annotation>, v: Revision, id: u32, w: Revision, id1: u32)
    requires ParseItems(ts, p, v, id).Ok? && Erased(v) == Erased(w)
    ensures ParseItems(ts, p, w, id1).Ok?
    ensures ParseItems(ts, p, w, id1).value.1 == ParseItems(ts, p, v, id).value.1
    ensures Erased(ParseItems(ts, p, w, id1).value.0.0) == Erased(ParseItems(ts, p, v, id).value.0.0)
    decreases |ts|
  {
    hide ParseAnnotation, ParseFunction, ParseStruct, ParseBitfield, ParseEnum, ParseItems, Unnumbered, NextId;
    ItemsUnfolded(ts, p, v, id);
    ItemsUnfolded(ts, p, w, id1);
    FunctionIgnoresId(ts, p, id, id1);
    SameOthers(v, w);
    var t := Peek(ts);
    if t == Punct('@') {
      ItemsIgnoreIds(ParseAnnotation(ts).value.1, p + [ParseAnnotation(ts).value.0], v, id, w, id1);
    } else if t == Reserved(KwFunction) {
      var (f, ts1) := ParseFunction(ts, p, id).value;
      var f1 := ParseFunction(ts, p, id1).value.0;
      ErasedSnoc(v, f, w, f1);
      ItemsIgnoreIds(ts1, [], v.(functions := v.functions + [f]), NextId(id),
                     w.(functions := w.functions + [f1]), NextId(id1));
    } else if t == Reserved(KwStruct) {
      var (d, ts1) := ParseStruct(ts, p).value;
      ItemsIgnoreIds(ts1, [], v.(structs := v.structs + [d]), id, w.(structs := w.structs + [d]), id1);
    } else if t == Reserved(KwBitfield) {
      var (b, ts1) := ParseBitfield(ts, p).value;
      ItemsIgnoreIds(ts1, [], v.(bitfields := v.bitfields + [b]), id, w.(bitfields := w.bitfields + [b]), id1);
    } else if t == Reserved(KwEnum) {
      var (e, ts1) := ParseEnum(ts, p).value;
      ItemsIgnoreIds(ts1, [], v.(enums := v.enums + [e]), id, w.(enums := w.enums + [e]), id1);
    }
  }

  lemma FunctionIgnoresId(ts: Ts, p: seq<Annotation>, id: u32, id1: u32)
    ensures ParseFunction(ts, p, id).Ok? ==>
              && ParseFunction(ts, p, id1).Ok?
              && ParseFunction(ts, p, id1).value.1 == ParseFunction(ts, p, id).value.1
              && ParseFunction(ts, p, id1).value.0.(id := 0) == ParseFunction(ts, p, id).value.0.(id := 0)
  {
    hide ParseParameters, ParseIdentifier, Consume;
  }

  lemma RevisionIgnoresId(ts: Ts, id: u32, id1: u32)
    requires ParseRevision(ts, id).Ok?
    ensures ParseRevision(ts, id1).Ok? && ParseRevision(ts, id1).value.1 == ParseRevision(ts, id).value.1
    ensures Erased(ParseRevision(ts, id1).value.0.0) == Erased(ParseRevision(ts, id).value.0.0)
  {
    hide ParseItems, ParseNumber;
    var (version, ts2) := ParseNumber(ts[1..]).value;
    ItemsIgnoreIds(ts2[1..], [], EmptyRevision(version), id, EmptyRevision(version), id1);
  }

  /** The revisions of a list of blocks and the id counter after them. */
  ghost function Revisions(a: Ts, next: u64, id: u32): Result<(seq<Revision>, u32), ParseError> {
    match ParseRevisions(a + CLOSE, next, id)
    case Ok((r, _)) => Ok(r)
    case Err(e) => Err(e)
  }

  /** What parsing the blocks `a` and then the tokens `b` gives. */
  ghost function Then(a: Ts, b: Ts, next: u64, id: u32): Parsed<(seq<Revision>, u32)> {
    match Revisions(a, next, id)
    case Err(e) => Err(e)
    case Ok((vs, id1)) => BehindRevisions(vs, ParseRevisions(b, Expected(next, |vs|), id1))
  }

  lemma BlocksStart(a: Ts)
    requires Blocks(a) && a != []
    ensures a[0] == Reserved(KwAbirevision)
  {
    hide ParseItems, ParseNumber;
  }

  lemma BlockBefore(a: Ts, b: Ts, id: u32)
    requires Blocks(a) && a != []
    ensures ParseRevision(a, 0).Ok? && ParseRevision(a, id).Ok?
    ensures ParseRevision(a, id).value.1 == ParseRevision(a, 0).value.1
    ensures ParseRevision(a + b, id) == More(ParseRevision(a, id), b)
    ensures Peek(a + b) == Reserved(KwAbirevision)
  {
    hide ParseRevision;
    BlocksStart(a);
    RevisionIgnoresId(a, 0, id);
    RevisionLocal();
  }

  lemma BehindTwice(v: Revision, vs: seq<Revision>, r: Parsed<(seq<Revision>, u32)>)
    ensures BehindRevisions([v], BehindRevisions(vs, r)) == BehindRevisions([v] + vs, r)
  {
    assert forall ws: seq<Revision> :: [v] + vs + ws == [v] + (vs + ws);
  }

  lemma ExpectedTwice(next: u64, n: nat)
    ensures Expected(Expected(next, 1), n) == Expected(next, n + 1)
  {
  }

  lemma {:induction false} BlocksThen(a: Ts, b: Ts, next: u64, id: u32)
    requires Blocks(a)
    ensures ParseRevisions(a + b, next, id) == Then(a, b, next, id)
    decreases |a|
  {
    hide ParseRevision, ParseRevisions, Expected, BehindRevisions;
    if a == [] {
      NothingThen(b, next, id);
      assert a + b == b && a + CLOSE == CLOSE;
    } else {
      BlockBefore(a, b, id);
      BlockBefore(a, CLOSE, id);
      OneRevision(a + b, next, id);
      OneRevision(a + CLOSE, next, id);
      var ((v, id1), a1) := ParseRevision(a, id).value;
      if v.version == next {
        BlocksThen(a1, b, Expected(next, 1), id1);
        OneMore(a, a1, v, next, id, id1);
        if Revisions(a1, Expected(next, 1), id1).Ok? {
          var (vs, id2) := Revisions(a1, Expected(next, 1), id1).value;
          ExpectedTwice(next, |vs|);
          BehindTwice(v, vs, ParseRevisions(b, Expected(next, |vs| + 1), id2));
        }
      }
    }
  }

  lemma OneMore(a: Ts, a1: Ts, v: Revision, next: u64, id: u32, id1: u32)
    requires ParseRevisions(a + CLOSE, next, id) == BehindRevisions([v], ParseRevisions(a1 + CLOSE, Expected(next, 1), id1))
    ensures Revisions(a, next, id) ==
            match Revisions(a1, Expected(next, 1), id1)
            case Err(e) => Err(e)
            case Ok((vs, id2)) => Ok(([v] + vs, id2))
  {
    hide ParseRevisions;
  }

  lemma NothingThen(b: Ts, next: u64, id: u32)
    ensures ParseRevisions(CLOSE, next, id) == Ok((([], id), CLOSE))
    ensures BehindRevisions([], ParseRevisions(b, Expected(next, 0), id)) == ParseRevisions(b, next, id)
  {
    hide ParseRevisions;
    CloseEnds(CLOSE);
    assert forall ws: seq<Revision> :: [] + ws == ws;
  }

  lemma {:induction false} BlocksAppend(a: Ts, b: Ts)
    requires Blocks(a) && Blocks(b)
    ensures Blocks(a + b)
    decreases |a|
  {
    hide ParseRevision;
    if a == [] {
      assert a + b == b;
    } else {
      RevisionLocal();
      BlocksAppend(ParseRevision(a, 0).value.1, b);
    }
  }

  lemma RevisionsAppend(a: Ts, b: Ts, next: u64, id: u32)
    requires Blocks(a)
    ensures Revisions(a + b, next, id) ==
            match Revisions(a, next, id)
            case Err(e) => Err(e)
            case Ok((vs, id1)) =>
              match Revisions(b, Expected(next, |vs|), id1)
              case Err(e) => Err(e)
              case Ok((ws, id2)) => Ok((vs + ws, id2))
  {
    hide ParseRevisions, Blocks, Expected;
    assert a + b + CLOSE == a + (b + CLOSE);
    BlocksThen(a, b + CLOSE, next, id);
  }

  // ---------------------------------------------------------------- a source as header and blocks

  /** The tokens are exactly what comes before the first revision. */
  ghost predicate IsHeader(h: Ts) { ParseHeader(h).Ok? && ParseHeader(h).value.1 == [] }

  ghost predicate Closes(z: Ts) { z != [] && z[0] == Punct('}') }

  /** The text has the header `h`, the revision blocks `a` and the closing brace. */
  ghost predicate IsSource(source: Bytes, h: Ts, a: Ts) {
    exists z :: Closes(z) && Lexing.Tokens(source) == h + a + z
  }

  ghost function RawInterface(h: Ts, vs: seq<Revision>, id: u32): Interface
    requires IsHeader(h)
  {
    var (name, annotations) := ParseHeader(h).value.0;
    Interface(name, false, NIL_UUID, [], false, [], annotations, vs, id)
  }

  lemma InterfaceOfBlocks(h: Ts, a: Ts, z: Ts, first: u64, id: u32)
    requires IsHeader(h) && Blocks(a) && Closes(z)
    ensures ParseInterface(h + a + z, first, id) ==
            match Revisions(a, first, id)
            case Err(e) => Err(e)
            case Ok((vs, id1)) => Ok(RawInterface(h, vs, id1))
  {
    hide ParseHeader, ParseRevisions, Blocks, Revisions;
    ParserLocality.HeaderLocal();
    assert h + a + z == h + (a + z);
    assert ParseHeader(h + (a + z)) == Ok((ParseHeader(h).value.0, a + z)) by {
      assert [] + (a + z) == a + z;
    }
    BlocksThen(a, z, first, id);
    CloseEnds(z);
    assert forall vs: seq<Revision> :: vs + [] == vs;
  }

  lemma CloseEnds(z: Ts)
    requires Closes(z)
    ensures forall n: u64, id1: u32 :: ParseRevisions(z, n, id1) == Ok((([], id1), z))
  {
  }

  // ---------------------------------------------------------------- normalisation and revisions

  ghost function WithRevisions(r: Result<Interface, CompileError>, vs: seq<Revision>, id: u32)
    : Result<Interface, CompileError>
  {
    match r
    case Ok(i) => Ok(i.(revisions := vs, currentFuncid := id))
    case Err(e) => Err(e)
  }

  /** Normalisation looks at the header alone. */
  lemma {:induction false} NormaliseIgnoresRevisions(
    i: Interface, todo: seq<Annotation>, foundUuid: bool, foundPrefix: bool, remaining: seq<Annotation>,
    vs: seq<Revision>, id: u32)
    ensures NormaliseFrom(i.(revisions := vs, currentFuncid := id), todo, foundUuid, foundPrefix, remaining) ==
            WithRevisions(NormaliseFrom(i, todo, foundUuid, foundPrefix, remaining), vs, id)
    decreases |todo|
  {
    hide UuidOf, LiteralArgument;
    if todo != [] {
      var a := todo[0];
      var i1 := i.(revisions := vs, currentFuncid := id);
      assert ReadUuid(i1, a) == WithRevisions(ReadUuid(i, a), vs, id);
      assert ReadPrefix(i1, a) == WithRevisions(ReadPrefix(i, a), vs, id);
      if a.name == UUID_NAME {
        if !foundUuid && ReadUuid(i, a).Ok? {
          NormaliseIgnoresRevisions(ReadUuid(i, a).value, todo[1..], true, foundPrefix, remaining, vs, id);
        }
      } else if a.name == PREFIX_NAME {
        if !foundPrefix && ReadPrefix(i, a).Ok? {
          NormaliseIgnoresRevisions(ReadPrefix(i, a).value, todo[1..], foundUuid, true, remaining, vs, id);
        }
      } else {
        NormaliseIgnoresRevisions(i, todo[1..], foundUuid, foundPrefix, remaining + [a], vs, id);
      }
    }
  }

  /** The normalised header. */
  ghost function Header(h: Ts): Result<Interface, CompileError>
    requires IsHeader(h)
  {
    Normalise(RawInterface(h, [], 0))
  }

  lemma SourceOfBlocks(source: Bytes, h: Ts, a: Ts, first: u64, id: u32)
    requires IsHeader(h) && Blocks(a) && IsSource(source, h, a)
    ensures ParseSource(source, first, id) ==
            match Revisions(a, first, id)
            case Err(e) => Err(Parse(e))
            case Ok((vs, id1)) => WithRevisions(Header(h), vs, id1)
  {
    hide ParseInterface, Blocks, Revisions, Lexing.Tokens, NormaliseFrom;
    var z :| Closes(z) && Lexing.Tokens(source) == h + a + z;
    InterfaceOfBlocks(h, a, z, first, id);
    if Revisions(a, first, id).Ok? {
      var (vs, id1) := Revisions(a, first, id).value;
      var raw := RawInterface(h, [], 0);
      NormaliseIgnoresRevisions(raw, raw.annotations, false, false, [], vs, id1);
      assert RawInterface(h, vs, id1) == raw.(revisions := vs, currentFuncid := id1);
    }
  }

  // ---------------------------------------------------------------- the two ways of compiling

  /** `Compile` of a source with the header `h` and the blocks `a`. */
  ghost function CompileBlocks(cr: Crypto, h: Ts, a: Ts): Result<Bytes, CompileError>
    requires IsHeader(h)
  {
    match Revisions(a, 0, 0)
    case Err(e) => Err(Parse(e))
    case Ok((vs, id)) =>
      match Header(h)
      case Err(e) => Err(e)
      case Ok(i) => WriteOrError(cr, i.(revisions := vs, currentFuncid := id), [])
  }

  lemma CompileOfBlocks(cr: Crypto, source: Bytes, h: Ts, a: Ts)
    requires IsHeader(h) && Blocks(a) && IsSource(source, h, a)
    ensures Compile(cr, source) == CompileBlocks(cr, h, a)
  {
    hide ParseSource, Revisions, IsSource, Blocks, Header, WriteOrError;
    SourceOfBlocks(source, h, a, 0, 0);
  }

  /** What writing an artifact asks of its header and of its revisions. */
  lemma WriteCondition(cr: Crypto, i: Interface, vs: seq<Revision>, id: u32, b: Bytes)
    ensures WriteOrError(cr, i.(revisions := vs, currentFuncid := id), []) == Ok(b) <==>
            && vs != [] && i.hasUuid && i.hasPrefix && FitsIdentity(i) && FitsCount(|vs|)
            && (forall v <- vs :: FitsRevision(v)) && b == PutArtifact(cr, i.(revisions := vs), [])
  {
    hide PutArtifact, FitsRevision, FitsIdentity;
    var j := i.(revisions := vs, currentFuncid := id);
    AloneAllRevisions(j);
    SameIdentity(i, j);
    if vs != [] { SameArtifact(cr, j, i.(revisions := vs)); }
  }

  lemma SameArtifact(cr: Crypto, i: Interface, j: Interface)
    requires i.revisions != [] && j == i.(currentFuncid := j.currentFuncid)
    ensures PutArtifact(cr, i, []) == PutArtifact(cr, j, [])
  {
    hide PutAnnotations, PutTrees, HashTable, PutMany;
  }

  lemma ExtensionCondition(cr: Crypto, i: Interface, j: Interface, vs: seq<Revision>, ws: seq<Revision>, b: Bytes)
    requires i.revisions == vs && j.revisions == ws
    ensures WriteOrError(cr, i, [j]) == Ok(b) <==>
            WriteOrError(cr, i.(revisions := vs + ws, currentFuncid := 0), []) == Ok(b)
  {
    hide PutArtifact, FitsRevision, FitsIdentity;
    var k := i.(revisions := vs + ws);
    TwoRevisionLists(i, j);
    AloneAllRevisions(k.(currentFuncid := 0));
    SameIdentity(i, k.(currentFuncid := 0));
    if vs + ws != [] { SameArtifact(cr, k, k.(currentFuncid := 0)); }
  }

  lemma HeaderHasIdentity(h: Ts)
    requires IsHeader(h) && Header(h).Ok?
    ensures Header(h).value.hasUuid && Header(h).value.hasPrefix
  {
    hide ParseHeader, NormaliseFrom, PrintableAnnotations, NoReservedNames;
    var raw := RawInterface(h, [], 0);
    EmptyAnnotations();
    NormaliseKeeps(raw, raw.annotations, false, false, []);
  }

  lemma WriteIsOk(cr: Crypto, i: Interface, b: Bytes)
    requires WriteOrError(cr, i, []) == Ok(b)
    ensures SifWrite(cr, i, []) == Ok(b)
  {
    hide SifWrite;
  }

  /** An interface validates against another one with the same header. */
  lemma SameHeaderValidates(i: Interface, j: Interface)
    requires j == i.(revisions := j.revisions, currentFuncid := j.currentFuncid) && i.hasUuid && i.hasPrefix
    ensures Validate(i, j) == None
  {
    hide AnnotationsKey;
  }

  lemma SomeRevisions(p: Ts)
    requires Blocks(p) && p != [] && Revisions(p, 0, 0).Ok?
    ensures Revisions(p, 0, 0).value.0 != []
  {
    hide ParseRevision;
    BlocksStart(p);
  }

  // ---------------------------------------------------------------- any way of splitting

  function Concat(parts: seq<Ts>): Ts {
    if parts == [] then [] else Concat(parts[..|parts| - 1]) + parts[|parts| - 1]
  }

  lemma {:induction false} ConcatBlocks(parts: seq<Ts>)
    requires forall a <- parts :: Blocks(a)
    ensures Blocks(Concat(parts))
    ensures parts != [] && parts[0] != [] ==> Concat(parts) != []
  {
    hide ParseRevision;
    if parts != [] {
      var init := parts[..|parts| - 1];
      ConcatBlocks(init);
      BlocksAppend(Concat(init), parts[|parts| - 1]);
      assert init != [] ==> init[0] == parts[0];
    }
  }
}
