/** Completeness: every artifact that SIDL can express is compiled, and rebuilt step by step, from its
    printed revisions. */
module Rebuilding {
  import opened Octets
  import opened Ast
  import opened SifFormat
  import opened SifArtifact
  import opened SifTheorems
  import opened Lexing
  import opened Parsing
  import opened Printing
  import opened TextRoundTrip
  import opened Compiling
  import opened Reproduction
  import opened Histories
  import opened SplitCompile

  lemma PartsOfWritable(i: Interface, k: nat)
    requires Writable(i) && Expressible(i) && 0 < k <= |i.revisions|
    ensures var first, rest := i.(revisions := i.revisions[..k]), i.(revisions := i.revisions[k..]);
            && Writable(first) && Expressible(first)
            && ExpressibleHeader(rest) && (forall v <- rest.revisions :: PrintableRevision(v))
            && Contiguous(rest.revisions, k)
            && NumberedRevisions(rest.revisions, IdAfterRevisions(first.revisions, 0))
  {
    hide PrintableAnnotations, PrintableRevision, FitsRevision, FitsIdentity, NumberedRevisions, IdAfterRevisions,
         NoQuotes, NoReservedNames;
    var vs := i.revisions;
    assert vs[..k] + vs[k..] == vs;
    NumberedAppend(vs[..k], vs[k..], 0);
    SameIdentity(i, i.(revisions := vs[..k]));
    assert forall v <- vs[..k] :: v in vs;
    assert forall v <- vs[k..] :: v in vs;
  }

  /** The printed text of an interface compiles to it, from any revision and function id on. */
  lemma PrintedParses(i: Interface, first: nat, id: u32)
    requires ExpressibleHeader(i) && i.hasUuid && i.hasPrefix && forall v <- i.revisions :: PrintableRevision(v)
    requires Contiguous(i.revisions, first) && first + |i.revisions| < TWO64 && NumberedRevisions(i.revisions, id)
    ensures ParseSource(PrintInterface(i, []), first, id) ==
            Ok(i.(currentFuncid := IdAfterRevisions(i.revisions, id)))
  {
    hide Normalise, PrintInterface, NumberedRevisions, PrintableRevision, Contiguous, IdAfterRevisions, ExpressibleHeader;
    InterfaceText(i, first, id);
    NormaliseRaw(i, id);
  }

  lemma SecondStep(cr: Crypto, i: Interface, first: Interface, j: Interface, source: Bytes)
    requires Writable(first) && Writable(i) && i == first.(revisions := first.revisions + j.revisions)
    requires j == first.(revisions := j.revisions, currentFuncid := j.currentFuncid)
    requires ParseSource(source, |first.revisions|, Reread(first).currentFuncid) == Ok(j)
    ensures Extend(cr, ArtifactOf(cr, first), source) == Ok(ArtifactOf(cr, i))
  {
    hide PrintInterface, SifRead, SifWrite, FuncidAfter, Functions, FitsRevision, FitsIdentity, Validate, WriteOrError,
         Contiguous, ParseSource, ArtifactOf;
    var base := Reread(first);
    WritableIsWritten(cr, first);
    SameHeaderValidates(base, j);
    ExtensionCondition(cr, base, j, first.revisions, j.revisions, ArtifactOf(cr, i));
    WriteConditionOf(cr, i, base);
    assert |base.revisions| % TWO64 == |first.revisions|;
  }

  /** Any artifact that SIDL can express is rebuilt from two printed sources, one with its first `k`
      revisions and one with the others. */
  lemma RebuiltInTwoSteps(cr: Crypto, i: Interface, k: nat)
    requires Writable(i) && Expressible(i) && 0 < k <= |i.revisions| && |Functions(i.revisions)| < TWO32
    ensures Run(cr, [PrintInterface(i.(revisions := i.revisions[..k]), []),
                     PrintInterface(i.(revisions := i.revisions[k..]), [])]) == Ok(ArtifactOf(cr, i))
  {
    hide PrintInterface, NumberedRevisions, PrintableRevision, Contiguous, FuncidAfter, Functions, IdAfterRevisions,
         FitsRevision, FitsIdentity, ExpressibleHeader, Compile, Extend, ParseSource, ArtifactOf, Run;
    var first, rest := i.(revisions := i.revisions[..k]), i.(revisions := i.revisions[k..]);
    assert first.revisions + rest.revisions == i.revisions;
    PartsOfWritable(i, k);
    PrintedCompiles(cr, first);
    FunctionsAppend(first.revisions, rest.revisions);
    DenseIds(first.revisions, 0);
    var id := IdAfterRevisions(first.revisions, 0);
    PrintedParses(rest, k, id);
    SecondStep(cr, i, first, rest.(currentFuncid := IdAfterRevisions(rest.revisions, id)), PrintInterface(rest, []));
    RunOfTwo(cr, PrintInterface(first, []), PrintInterface(rest, []));
  }

  lemma WriteConditionOf(cr: Crypto, i: Interface, base: Interface)
    requires Writable(i) && Bare(base) == Bare(i)
    ensures WriteOrError(cr, base.(revisions := i.revisions, currentFuncid := 0), []) == Ok(ArtifactOf(cr, i))
  {
    hide PutArtifact, SifRead, FitsRevision, FitsIdentity;
    var j := i.(currentFuncid := 0);
    assert base.(revisions := i.revisions, currentFuncid := 0) == j;
    WritableIsWritten(cr, i);
    SameWrite(cr, i, j);
  }

  lemma {:induction false} RunOfTwo(cr: Crypto, a: Bytes, b: Bytes)
    ensures Run(cr, [a, b]) == match Compile(cr, a) { case Ok(base) => Extend(cr, base, b) case Err(e) => Err(e) }
  {
    hide Compile, Extend;
    assert [a, b][..1] == [a];
  }

  /** The smallest interface with two revisions. */
  const SMALLEST: Interface :=
    Interface("x", true, NIL_UUID, [], true, [], [], [EmptyRevision(0), EmptyRevision(1)], 0)

  /** So runs that compile and extend exist, for every pair of hash functions. */
  lemma RunsExist(cr: Crypto)
    ensures exists sources, b :: |sources| == 2 && Run(cr, sources) == Ok(b) && FewFunctions(cr, b)
  {
    hide PrintInterface, SifRead, ArtifactOf, Run, FuncidAfter, Functions, Writable, Expressible;
    SmallestIsFine();
    RebuiltInTwoSteps(cr, SMALLEST, 1);
    WritableIsWritten(cr, SMALLEST);
    assert FewFunctions(cr, ArtifactOf(cr, SMALLEST));
  }

  lemma SmallestIsFine()
    ensures Writable(SMALLEST) && Expressible(SMALLEST) && Functions(SMALLEST.revisions) == []
  {
    var vs := SMALLEST.revisions;
    assert vs[0] == EmptyRevision(0) && vs[1] == EmptyRevision(1) && vs[1..] == [EmptyRevision(1)];
    assert vs[1..][1..] == [];
    assert IsIdentifier("x");
    assert NumberedRevisions(vs, 0);
  }
}
