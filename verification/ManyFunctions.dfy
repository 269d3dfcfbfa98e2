/** From 2^32 functions on, cutting a source matters: the reader's counter has stopped where the parser's
    has wrapped (lang/sif.cc:522, lang/parser.cc:369). */
module ManyFunctions {
  import opened Octets
  import opened Ast
  import opened SifFormat
  import opened SifArtifact
  import opened SifTheorems
  import opened Lexing
  import opened Parsing
  import opened Printing
  import opened TextRoundTrip
  import opened Compiling
  import opened Reproduction
  import opened Histories
  import opened Rebuilding
  import opened SplitExactly

  function Plain(id: u32): Function { Function(id, "f", [], []) }

  /** `n` functions with ids from `id` on, as the parser counts. */
  function Filler(id: u32, n: nat): (r: seq<Function>)
    ensures |r| == n
    decreases n
  {
    if n == 0 then [] else [Plain(id)] + Filler(NextId(id), n - 1)
  }

  function Filled(version: u64, m: nat, n: nat): Revision {
    EmptyRevision(version).(functions := Filler(ParserCounter(m), n))
  }

  /** `a` functions, then `b`, then one, in three revisions. */
  function Large(a: nat, b: nat): (i: Interface)
    ensures |i.revisions| == 3
  {
    Interface("x", true, NIL_UUID, [], true, [], [], [Filled(0, 0, a), Filled(1, a, b), Filled(2, a + b, 1)], 0)
  }

  /** Cut behind the second revision. */
  function First(a: nat, b: nat): (i: Interface)
    ensures |i.revisions| == 2
  {
    Large(a, b).(revisions := Large(a, b).revisions[..2])
  }

  function Rest(a: nat, b: nat): Interface { Large(a, b).(revisions := Large(a, b).revisions[2..]) }

  lemma {:induction false} FillerIsPlain(id: u32, n: nat)
    ensures Numbered(Filler(id, n), id)
    ensures forall f <- Filler(id, n) :: f == Plain(f.id)
    decreases n
  {
    if n > 0 {
      FillerIsPlain(NextId(id), n - 1);
      assert Filler(id, n)[1..] == Filler(NextId(id), n - 1);
    }
  }

  lemma PlainIsFine(id: u32)
    ensures PrintableFunction(Plain(id)) && FitsFunction(Plain(id))
  {
    assert IsIdentifier("f");
  }

  lemma FilledIsFine(version: u64, m: nat, n: nat)
    requires n < TWO32
    ensures PrintableRevision(Filled(version, m, n)) && FitsRevision(Filled(version, m, n))
    ensures Numbered(Filled(version, m, n).functions, ParserCounter(m))
    ensures IdAfter(Filled(version, m, n).functions, ParserCounter(m)) == ParserCounter(m + n)
  {
    hide PrintableFunction, FitsFunction, Filler, Numbered, IdAfter, ParserCounter, Plain;
    var fs := Filler(ParserCounter(m), n);
    FillerIsPlain(ParserCounter(m), n);
    CountersAfter(fs, m);
    forall f | f in fs ensures PrintableFunction(f) && FitsFunction(f) { PlainIsFine(f.id); }
  }

  lemma LargeIsFine(a: nat, b: nat)
    requires a < TWO32 && b < TWO32
    ensures Writable(Large(a, b)) && Expressible(Large(a, b))
  {
    hide Filled, PrintableRevision, FitsRevision, IsIdentifier, Numbered, IdAfter, ParserCounter;
    var vs := Large(a, b).revisions;
    FilledIsFine(0, 0, a);
    FilledIsFine(1, a, b);
    FilledIsFine(2, a + b, 1);
    assert ParserCounter(0) == 0 by { StartsAtZero(); }
    assert IsIdentifier("x") by { NameIsIdentifier(); }
    assert vs[0].version == 0 && vs[1].version == 1 && vs[2].version == 2 by { VersionOfFilled(); }
    assert vs[1..] == [vs[1], vs[2]] && vs[1..][1..] == [vs[2]] && vs[1..][1..][1..] == [];
    assert NumberedRevisions([], ParserCounter(a + b + 1));
    assert NumberedRevisions(vs[1..][1..], ParserCounter(a + b));
    assert NumberedRevisions(vs[1..], ParserCounter(a));
    assert NumberedRevisions(vs, 0);
  }

  lemma StartsAtZero()
    ensures ParserCounter(0) == 0
  {
  }

  lemma NameIsIdentifier()
    ensures IsIdentifier("x")
  {
  }

  lemma VersionOfFilled()
    ensures forall v: u64, m, n :: Filled(v, m, n).version == v
  {
  }

  lemma CountOfFilled(a: nat, b: nat)
    ensures |Functions(Large(a, b).revisions[..2])| == a + b
  {
    hide Filler, ParserCounter;
    var vs := Large(a, b).revisions[..2];
    assert vs[1..][1..] == [];
    assert vs[0].functions == Filler(ParserCounter(0), a) && vs[1..][0].functions == Filler(ParserCounter(a), b);
    assert Functions(vs[1..]) == vs[1].functions + Functions([]);
  }

  /** The last revision as an extension of the first two gets it. */
  function Renumbered(): Revision { EmptyRevision(2).(functions := [Plain(TWO32 - 1)]) }

  lemma LastIsFine()
    ensures PrintableRevision(Renumbered()) && FitsRevision(Renumbered())
    ensures NumberedRevisions([Renumbered()], TWO32 - 1)
  {
    hide PrintableFunction, FitsFunction;
    PlainIsFine(TWO32 - 1);
    assert Renumbered().functions[1..] == [] && [Renumbered()][1..] == [];
    assert Numbered([], 0) && Numbered(Renumbered().functions, TWO32 - 1);
    assert NumberedRevisions([], 0);
  }

  /** Ids are not printed. */
  lemma SameText(m: nat, k: Bytes)
    ensures PrintRevision(Filled(2, m, 1), k) == PrintRevision(Renumbered(), k)
  {
    hide C, W, Indent, Decimal, Spelling, PrintAnnotations, ParserCounter;
    var v := Filled(2, m, 1);
    assert v.functions == [Plain(ParserCounter(m))];
    assert forall next :: PrintFunction(v.functions[0], next) == PrintFunction(Plain(TWO32 - 1), next);
    OneFunctionText(v.functions[0], Plain(TWO32 - 1), Indent(1, C('}', C('\n', k))));
  }

  lemma OneFunctionText(f: Function, g: Function, k: Bytes)
    requires forall next :: PrintFunction(f, next) == PrintFunction(g, next)
    ensures PrintMany(PrintFunction, [f], false, k) == PrintMany(PrintFunction, [g], false, k)
  {
    hide PrintFunction, C;
    assert [f][1..] == [] && [g][1..] == [];
  }

  /** The interface text of one revision depends on the text of the revision alone. */
  lemma SameInterfaceText(i: Interface, v: Revision, w: Revision)
    requires forall k :: PrintRevision(v, k) == PrintRevision(w, k)
    ensures PrintInterface(i.(revisions := [v]), []) == PrintInterface(i.(revisions := [w]), [])
  {
    hide PrintRevision, C, W, PrintAnnotations, Spelling, Quote;
    assert [v][1..] == [] && [w][1..] == [];
    var end := C('}', C('\n', []));
    assert PrintMany(PrintRevision, [v], false, end) == PrintMany(PrintRevision, [w], false, end);
  }

  lemma FirstIsFine(a: nat, b: nat)
    requires a < TWO32 && b < TWO32
    ensures Writable(First(a, b)) && Expressible(First(a, b))
    ensures Reread(First(a, b)).currentFuncid == ReaderCounter(a + b)
  {
    hide Writable, Expressible, Functions, FuncidAfter, ReaderCounter, Filled;
    LargeIsFine(a, b);
    PartsOfWritable(Large(a, b), 2);
    CountOfFilled(a, b);
    ExpressibleIsNumbered(First(a, b));
    CountersOf(First(a, b).revisions);
  }

  lemma ExpressibleIsNumbered(i: Interface)
    requires Expressible(i)
    ensures NumberedRevisions(i.revisions, 0) && ExpressibleHeader(i)
  {
    hide ExpressibleHeader, NumberedRevisions, PrintableRevision;
  }

  /** What the extension makes of the two. */
  function Extended(a: nat, b: nat): (i: Interface)
    ensures |i.revisions| == 3
  {
    First(a, b).(revisions := First(a, b).revisions + [Renumbered()])
  }

  lemma ExtendedIsWritable(a: nat, b: nat)
    requires a < TWO32 && b < TWO32
    ensures Writable(Extended(a, b))
  {
    hide FitsRevision, FitsIdentity, Filled, PrintableRevision, NumberedRevisions, Expressible, Renumbered;
    FirstIsFine(a, b);
    LastIsFine();
    LastVersion();
    SameIdentity(Extended(a, b), First(a, b));
    var vs := First(a, b).revisions;
    assert vs[0].version == 0 && vs[1].version == 1;
  }

  lemma LastVersion()
    ensures Renumbered().version == 2 && Contiguous([Renumbered()], 2)
  {
  }

  /** The text of the rest, with the id that the extension gives. */
  lemma RestParses(a: nat, b: nat) returns (j: Interface)
    requires a < TWO32 && b < TWO32
    ensures j == First(a, b).(revisions := [Renumbered()], currentFuncid := j.currentFuncid)
    ensures ParseSource(PrintInterface(Rest(a, b), []), 2, TWO32 - 1) == Ok(j)
  {
    hide Writable, PrintInterface, Functions, FuncidAfter, ParserCounter, ParseSource, PrintableRevision, FitsRevision,
         Filled, NumberedRevisions, IdAfterRevisions, ExpressibleHeader, Renumbered, Contiguous;
    LargeIsFine(a, b);
    LastIsFine();
    LastVersion();
    var i := Large(a, b);
    var rest := i.(revisions := [Renumbered()]);
    SameExpressibleHeader(i, rest);
    assert i.hasUuid && i.hasPrefix;
    PrintedParses(rest, 2, TWO32 - 1);
    forall k ensures PrintRevision(i.revisions[2], k) == PrintRevision(Renumbered(), k) { SameText(a + b, k); }
    SameInterfaceText(i, i.revisions[2], Renumbered());
    assert i.revisions[2..] == [i.revisions[2]];
    j := rest.(currentFuncid := IdAfterRevisions(rest.revisions, TWO32 - 1));
  }

  lemma LastStep(cr: Crypto, a: nat, b: nat)
    requires a < TWO32 && b < TWO32 && a + b >= TWO32
    ensures Extend(cr, ArtifactOf(cr, First(a, b)), PrintInterface(Rest(a, b), [])) == Ok(ArtifactOf(cr, Extended(a, b)))
  {
    hide Writable, Expressible, PrintInterface, Extend, ArtifactOf, ParseSource, Reread, First, Rest, Renumbered;
    FirstIsFine(a, b);
    assert ReaderCounter(a + b) == TWO32 - 1;
    ExtendedIsWritable(a, b);
    var j := RestParses(a, b);
    SecondStep(cr, Extended(a, b), First(a, b), j, PrintInterface(Rest(a, b), []));
  }

  lemma ArtifactsTellRevisions(cr: Crypto, i: Interface, j: Interface)
    requires Writable(i) && Writable(j) && ArtifactOf(cr, i) == ArtifactOf(cr, j)
    ensures i.revisions == j.revisions
  {
    hide Writable, ArtifactOf, Functions, FuncidAfter, SifRead;
    WritableIsWritten(cr, i);
    WritableIsWritten(cr, j);
    assert Reread(i).revisions == i.revisions && Reread(j).revisions == j.revisions;
  }

  lemma DifferentArtifacts(cr: Crypto, a: nat, b: nat)
    requires a < TWO32 && b < TWO32 && a + b >= TWO32
    ensures ArtifactOf(cr, Extended(a, b)) != ArtifactOf(cr, Large(a, b))
  {
    hide Writable, Expressible, ArtifactOf, Renumbered, Filled;
    LargeIsFine(a, b);
    ExtendedIsWritable(a, b);
    IdsDiffer(a + b);
    assert Extended(a, b).revisions[2] == Renumbered() && Large(a, b).revisions[2] == Filled(2, a + b, 1);
    if ArtifactOf(cr, Extended(a, b)) == ArtifactOf(cr, Large(a, b)) {
      ArtifactsTellRevisions(cr, Extended(a, b), Large(a, b));
    }
  }

  lemma IdsDiffer(m: nat)
    requires TWO32 <= m < 2 * TWO32 - 1
    ensures Renumbered() != Filled(2, m, 1)
  {
    assert Renumbered().functions[0].id == TWO32 - 1 && Filled(2, m, 1).functions[0].id == ParserCounter(m);
  }

  /** Both ways of compiling succeed, and their artifacts differ: in one source the last function has a
      wrapped id, as an extension it has the id 2^32 - 1. */
  lemma CutMatters(cr: Crypto, a: nat, b: nat) returns (whole: Bytes, cut: Bytes)
    requires a < TWO32 && b < TWO32 && a + b >= TWO32
    ensures Compile(cr, PrintInterface(Large(a, b), [])) == Ok(whole)
    ensures Run(cr, [PrintInterface(First(a, b), []), PrintInterface(Rest(a, b), [])]) == Ok(cut)
    ensures whole != cut && SifRead(cr, cut) == Ok(Reread(Extended(a, b)))
  {
    hide Writable, Expressible, PrintInterface, Compile, Extend, Run, ArtifactOf, First, Rest, Large, Reread, Extended,
         SifRead;
    LargeIsFine(a, b);
    PrintedCompiles(cr, Large(a, b));
    FirstIsFine(a, b);
    PrintedCompiles(cr, First(a, b));
    ExtendedIsWritable(a, b);
    LastStep(cr, a, b);
    RunOfTwo(cr, PrintInterface(First(a, b), []), PrintInterface(Rest(a, b), []));
    DifferentArtifacts(cr, a, b);
    WritableIsWritten(cr, Extended(a, b));
    whole, cut := ArtifactOf(cr, Large(a, b)), ArtifactOf(cr, Extended(a, b));
  }

  lemma ExtendedIsNotExpressible(a: nat, b: nat)
    requires a < TWO32 && b < TWO32 && a + b >= TWO32
    ensures !Expressible(Reread(Extended(a, b)))
  {
    hide ExpressibleHeader, PrintableRevision, Functions, FuncidAfter, First, Numbered, IdAfter;
    FirstIsFine(a, b);
    ExpressibleIsNumbered(First(a, b));
    CountersOf(First(a, b).revisions);
    FirstCount(a, b);
    var vs := First(a, b).revisions;
    if Expressible(Reread(Extended(a, b))) {
      NumberedAppend(vs, [Renumbered()], 0);
      assert Numbered(Renumbered().functions, ParserCounter(a + b));
      FirstId(Renumbered().functions, ParserCounter(a + b));
    }
  }

  lemma FirstCount(a: nat, b: nat)
    ensures |Functions(First(a, b).revisions)| == a + b
  {
    hide Functions, Large;
    CountOfFilled(a, b);
  }

  /** The artifact of the cut is reached by a run, and yet its text compiles to another one: the bound on
      the functions in the theorems about runs is needed. */
  lemma CutIsNotReproduced(cr: Crypto, a: nat, b: nat) returns (cut: Bytes)
    requires a < TWO32 && b < TWO32 && a + b >= TWO32
    ensures Run(cr, [PrintInterface(First(a, b), []), PrintInterface(Rest(a, b), [])]) == Ok(cut)
    ensures Decompile(cr, cut).Ok? && Compile(cr, Decompile(cr, cut).value) != Ok(cut)
  {
    hide Writable, Expressible, PrintInterface, Compile, Decompile, Run, Reread, Extended, SifRead, First, Rest,
         Large, CanonicalFlags;
    var whole;
    whole, cut := CutMatters(cr, a, b);
    ExtendedIsNotExpressible(a, b);
    Reproduces(cr, cut, Reread(Extended(a, b)));
  }
}
