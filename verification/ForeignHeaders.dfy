/** When `compile -b` takes a source whose header is not the base's (core/main.cc:284-358, 417-448). */
module ForeignHeaders {
  import opened Octets
  import opened Ast
  import opened SifFormat
  import opened SifArtifact
  import opened SifTheorems
  import opened Lexing
  import opened Parsing
  import opened Printing
  import opened TextRoundTrip
  import opened Compiling
  import opened Reproduction
  import opened Histories
  import opened SplitCompile
  import opened Rebuilding
  import opened ExtensionChecks

  /** `source` parses, as an extension of `i`, to an interface with another header. */
  predicate HasOtherHeader(i: Interface, source: Bytes) {
    var j := ParseSource(source, |i.revisions| % TWO64, i.currentFuncid);
    j.Ok? && Bare(j.value) != Bare(i)
  }

  /** The annotations of the base are ambiguous, and SIDL text can express the rest of the header
      and what the key reads as. */
  predicate Misleads(i: Interface) {
    && Ambiguous(i.annotations) && NoReservedNames(KeyReading(i.annotations).value)
    && IsIdentifier(i.name) && NoQuotes(i.uuidName) && NoQuotes(i.prefix)
  }

  /** An accepted artifact can be extended under another header exactly when it misleads. */
  lemma ForeignHeaderIffMisleads(cr: Crypto, base: Bytes, i: Interface)
    requires SifRead(cr, base) == Ok(i)
    ensures (exists source :: Extend(cr, base, source).Ok? && HasOtherHeader(i, source)) <==> Misleads(i)
  {
    hide Extend, HasOtherHeader, Misleads, SifRead;
    forall source | Extend(cr, base, source).Ok? && HasOtherHeader(i, source) ensures Misleads(i) {
      OtherHeaderMisleads(cr, base, i, source);
    }
    if Misleads(i) { var source := MisleadingSource(cr, base, i); }
  }

  lemma OtherHeaderMisleads(cr: Crypto, base: Bytes, i: Interface, source: Bytes)
    requires SifRead(cr, base) == Ok(i) && Extend(cr, base, source).Ok? && HasOtherHeader(i, source)
    ensures Misleads(i)
  {
    hide ParseSource, SifRead, Extend, Validate, ExpressibleHeader, PrintableRevision, NumberedRevisions, Contiguous,
         IdAfterRevisions, FuncidAfter, Functions, Misleads, Bare;
    ExtendedInterface(cr, base, source, Extend(cr, base, source).value);
    NoWrap(|i.revisions|);
    ParsedSource(source, |i.revisions|, i.currentFuncid);
    ValidatedOther(i, ParseSource(source, |i.revisions|, i.currentFuncid).value);
  }

  lemma NoWrap(n: nat)
    requires n < TWO32
    ensures n % TWO64 == n
  {
  }

  lemma ValidatedOther(i: Interface, j: Interface)
    requires ExpressibleHeader(j) && Validate(i, j) == None && Bare(i) != Bare(j)
    ensures Misleads(i)
  {
    hide KeyReading, AnnotationsKey, Ambiguous, NoQuotes, IsIdentifier, NoReservedNames, Validate, PrintableAnnotations;
    ValidatesByKey(i, j);
    assert i.annotations != j.annotations;
    SameKeyIffAmbiguous(i.annotations, j.annotations);
    assert Bare(i).name == j.name && Bare(i).uuidName == j.uuidName && Bare(i).prefix == j.prefix;
  }

  /** A header that the checks take for that of the base. */
  lemma MisleadingHeader(i: Interface) returns (j: Interface)
    requires Misleads(i) && i.hasUuid && i.hasPrefix
    ensures j.revisions == [] && j.hasUuid && j.hasPrefix && ExpressibleHeader(j) && Validate(i, j) == None
    ensures forall id :: Bare(j.(currentFuncid := id)) != Bare(i) && Validate(i, j.(currentFuncid := id)) == None
  {
    hide KeyReading, AnnotationsKey, PrintableAnnotations, NoQuotes, IsIdentifier, Ambiguous;
    var ws := AmbiguousReading(i.annotations);
    SameKeyIffAmbiguous(i.annotations, ws);
    j := i.(annotations := ws, revisions := []);
    forall id ensures Bare(j.(currentFuncid := id)) != Bare(i) {
      assert Bare(j.(currentFuncid := id)).annotations != Bare(i).annotations;
    }
  }

  /** The source: no revisions, under that header. */
  lemma MisleadingSource(cr: Crypto, base: Bytes, i: Interface) returns (source: Bytes)
    requires SifRead(cr, base) == Ok(i) && Misleads(i)
    ensures Extend(cr, base, source).Ok? && HasOtherHeader(i, source)
  {
    hide ParseSource, SifRead, SifWrite, PrintInterface, ExpressibleHeader, Validate, Bare, Misleads,
         FitsRevision, FitsIdentity, FuncidAfter, Functions, Extend, HasOtherHeader;
    AcceptedIsWritable(cr, base, i);
    WriteAfterRead(cr, base, i);
    var j := MisleadingHeader(i);
    source := PrintInterface(j, []);
    PrintedParses(j, |i.revisions|, i.currentFuncid);
    var parsed := j.(currentFuncid := IdAfterRevisions([], i.currentFuncid));
    NothingToWrite(cr, i, parsed);
    Extended(cr, base, source, i, parsed);
  }

  lemma Extended(cr: Crypto, base: Bytes, source: Bytes, i: Interface, j: Interface)
    requires SifRead(cr, base) == Ok(i) && |i.revisions| < TWO32
    requires ParseSource(source, |i.revisions|, i.currentFuncid) == Ok(j)
    requires Validate(i, j) == None && SifWrite(cr, i, [j]).Ok? && Bare(j) != Bare(i)
    ensures Extend(cr, base, source).Ok? && HasOtherHeader(i, source)
  {
    hide ParseSource, SifRead, SifWrite, Validate, Bare;
    NoWrap(|i.revisions|);
  }

  lemma NothingToWrite(cr: Crypto, i: Interface, j: Interface)
    requires j.revisions == []
    ensures SifWrite(cr, i, [j]) == SifWrite(cr, i, [])
  {
    hide PutArtifact, FitsRevision, FitsIdentity;
    TwoRevisionLists(i, j);
    AloneAllRevisions(i);
    assert i.revisions + [] == i.revisions;
  }

  // ---------------------------------------------------------------- an artifact that misleads

  const QUOTED_A: Bytes := ['"', 'a', '"']
  const QUOTED_B: Bytes := ['"', 'b', '"']

  /** One argument, a literal with quotes inside, and the two arguments whose key is the same. */
  const ONE_ARGUMENT: seq<Annotation> := [Annotation("f", [StringLiteral(QUOTED_A + ",s:" + QUOTED_B)])]
  const TWO_ARGUMENTS: seq<Annotation> := [Annotation("f", [StringLiteral(QUOTED_A), StringLiteral(QUOTED_B)])]

  const MISLEADING: Interface :=
    Interface("x", true, NIL_UUID, [], true, [], ONE_ARGUMENT, [EmptyRevision(0)], 0)

  lemma OneKeyForBoth()
    ensures ONE_ARGUMENT != TWO_ARGUMENTS && PrintableAnnotations(TWO_ARGUMENTS)
    ensures AnnotationsKey(ONE_ARGUMENT) == AnnotationsKey(TWO_ARGUMENTS)
  {
    var one, two := ONE_ARGUMENT[0].args, TWO_ARGUMENTS[0].args;
    assert one != two by { assert |one| == 1 && |two| == 2; }
    assert two[1..] == [two[1]];
    var s: Bytes := "s:";
    assert ArgumentsKey(two) == s + QUOTED_A + ([','] + (s + QUOTED_B));
    assert s + QUOTED_A + ([','] + (s + QUOTED_B)) == s + (QUOTED_A + ",s:" + QUOTED_B);
    assert ONE_ARGUMENT[1..] == [] && TWO_ARGUMENTS[1..] == [];
    assert PrintableAnnotation(TWO_ARGUMENTS[0]);
  }

  lemma MisleadingMisleads()
    ensures Misleads(MISLEADING) && Writable(MISLEADING)
  {
    hide AnnotationsKey, KeyReading, Ambiguous, PrintableAnnotations;
    OneKeyForBoth();
    SameKeyIffAmbiguous(ONE_ARGUMENT, TWO_ARGUMENTS);
    assert IsIdentifier("x");
    assert TWO_ARGUMENTS[0].name == "f";
    assert UUID_NAME != "f" && PREFIX_NAME != "f";
  }

  /** So there is, for every pair of hash functions, an accepted artifact and a source with another
      header that `compile -b` extends it by. */
  lemma ForeignHeaderIsAccepted(cr: Crypto)
    ensures exists base, source, c ::
              && SifRead(cr, base).Ok? && Extend(cr, base, source) == Ok(c)
              && HasOtherHeader(SifRead(cr, base).value, source)
  {
    hide SifRead, Extend, HasOtherHeader, Misleads, Writable, FuncidAfter, Functions, ArtifactOf;
    MisleadingMisleads();
    WritableIsWritten(cr, MISLEADING);
    var i := Reread(MISLEADING);
    assert Misleads(i) by { SameMisleads(MISLEADING, i); }
    var source := MisleadingSource(cr, ArtifactOf(cr, MISLEADING), i);
  }

  lemma SameMisleads(i: Interface, j: Interface)
    requires Bare(i) == Bare(j)
    ensures Misleads(i) == Misleads(j)
  {
    hide Ambiguous, KeyReading;
  }
}
