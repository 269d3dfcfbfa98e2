/** Runs of the compile command: one `compile`, then any number of `compile -b`. */
module Histories {
  import opened Octets
  import opened Ast
  import opened SifFormat
  import opened SifArtifact
  import opened SifTheorems
  import opened Parsing
  import opened TextRoundTrip
  import opened Compiling
  import opened Reproduction

  // ---------------------------------------------------------------- function ids across revisions

  lemma {:induction false} NumberedAppend(a: seq<Revision>, b: seq<Revision>, id: u32)
    ensures NumberedRevisions(a + b, id) <==>
            NumberedRevisions(a, id) && NumberedRevisions(b, IdAfterRevisions(a, id))
    ensures IdAfterRevisions(a + b, id) == IdAfterRevisions(b, IdAfterRevisions(a, id))
    decreases |a|
  {
    hide Numbered, IdAfter;
    if a == [] {
      assert a + b == b;
    } else {
      assert (a + b)[1..] == a[1..] + b && (a + b)[0] == a[0];
      NumberedAppend(a[1..], b, IdAfter(a[0].functions, id));
    }
  }

  lemma {:induction false} NumberedFunctions(fs: seq<Function>, id: nat)
    requires id + |fs| < TWO32 && Numbered(fs, id)
    ensures forall j :: 0 <= j < |fs| ==> fs[j].id == id + j
    ensures IdAfter(fs, id) == id + |fs| == FuncidAfter(fs, id)
    decreases |fs|
  {
    if fs != [] {
      NumberedFunctions(fs[1..], id + 1);
      forall j | 0 <= j < |fs| ensures fs[j].id == id + j {
        if j > 0 { assert fs[j] == fs[1..][j - 1]; }
      }
    }
  }

  /** Below 2^32 functions the ids are the declaration positions, and the counter that the reader
      recovers is the one the parser had. */
  lemma {:induction false} DenseIds(vs: seq<Revision>, id: nat)
    requires id + |Functions(vs)| < TWO32 && NumberedRevisions(vs, id)
    ensures forall j :: 0 <= j < |Functions(vs)| ==> Functions(vs)[j].id == id + j
    ensures IdAfterRevisions(vs, id) == id + |Functions(vs)| == FuncidAfter(Functions(vs), id)
    decreases |vs|
  {
    hide Numbered, IdAfter, FuncidAfter;
    if vs != [] {
      var fs := vs[0].functions;
      NumberedFunctions(fs, id);
      DenseIds(vs[1..], id + |fs|);
      FuncidAppend(fs, Functions(vs[1..]), id);
      forall j | 0 <= j < |Functions(vs)| ensures Functions(vs)[j].id == id + j {
        if j >= |fs| { assert Functions(vs)[j] == Functions(vs[1..])[j - |fs|]; }
      }
    } else {
      NumberedFunctions([], id);
    }
  }

  // ---------------------------------------------------------------- one extension

  lemma {:induction false} HashTablePrefix(cr: Crypto, uuid: Uuid, a: seq<Revision>, b: seq<Revision>, previous: Digest)
    ensures HashTable(cr, uuid, a + b, previous)[..|a|] == HashTable(cr, uuid, a, previous)
    decreases |a|
  {
    hide RevisionHash;
    if a != [] {
      assert (a + b)[1..] == a[1..] + b && (a + b)[0] == a[0];
      HashTablePrefix(cr, uuid, a[1..], b, RevisionHash(cr, uuid, a[0], previous));
    }
  }

  /** The base is kept as it was: header, revisions with their ids, and hash table are a prefix of
      the new artifact's. */
  ghost predicate Extends(cr: Crypto, i: Interface, j: Interface) {
    && Bare(i) == Bare(j) && i.revisions <= j.revisions
    && HashTable(cr, InterfaceUuid(cr, i), i.revisions, ZERO_HASH)
       <= HashTable(cr, InterfaceUuid(cr, j), j.revisions, ZERO_HASH)
  }

  lemma TwoRevisionLists(i: Interface, j: Interface)
    ensures AllRevisions(i, [j]) == i.revisions + j.revisions
  {
    var k := i.(revisions := i.revisions + j.revisions);
    assert AllRevisions(k, [j][1..]) == k.revisions;
  }

  lemma ExtendedInterface(cr: Crypto, base: Bytes, source: Bytes, b: Bytes)
    requires Extend(cr, base, source) == Ok(b)
    ensures SifRead(cr, base).Ok? && SifRead(cr, b).Ok? && CanonicalFlags(cr, b)
    ensures var i := SifRead(cr, base).value;
            && |i.revisions| < TWO32
            && ParseSource(source, |i.revisions|, i.currentFuncid).Ok?
            && var j := ParseSource(source, |i.revisions|, i.currentFuncid).value;
            && |i.revisions| + |j.revisions| < TWO32 && Validate(i, j) == None
            && SifRead(cr, b) == Ok(Reread(i.(revisions := i.revisions + j.revisions)))
  {
    hide ParseSource, GetArtifact, PutArtifact, Validate, FitsRevision, FitsIdentity, FuncidAfter, Functions,
         ExpressibleHeader, PrintableRevision, NumberedRevisions;
    var i := SifRead(cr, base).value;
    AcceptedIsWritable(cr, base, i);
    var j := ParseSource(source, |i.revisions|, i.currentFuncid).value;
    TwoRevisionLists(i, j);
    ParsedSource(source, |i.revisions|, i.currentFuncid);
    ContiguousAppend(i.revisions, j.revisions);
    ReadAfterWrite(cr, i, [j], b);
  }

  lemma ContiguousAppend(a: seq<Revision>, b: seq<Revision>)
    requires Contiguous(a, 0) && Contiguous(b, |a|)
    ensures Contiguous(a + b, 0)
  {
  }

  lemma ExtendKeepsBase(cr: Crypto, base: Bytes, source: Bytes, b: Bytes)
    requires Extend(cr, base, source) == Ok(b)
    ensures SifRead(cr, base).Ok? && SifRead(cr, b).Ok?
    ensures Extends(cr, SifRead(cr, base).value, SifRead(cr, b).value) && StoredTable(base) <= StoredTable(b)
  {
    hide SifRead, Extend, ParseSource, HashTable, FuncidAfter, Functions, StoredTable;
    ExtendedInterface(cr, base, source, b);
    StoredIsRecomputed(cr, base, SifRead(cr, base).value);
    StoredIsRecomputed(cr, b, SifRead(cr, b).value);
    var i := SifRead(cr, base).value;
    var j := ParseSource(source, |i.revisions|, i.currentFuncid).value;
    HashTablePrefix(cr, InterfaceUuid(cr, i), i.revisions, j.revisions, ZERO_HASH);
  }

  // ---------------------------------------------------------------- runs

  /** The artifact after `compile sources[0]` and `compile -b` for each further source. */
  function Run(cr: Crypto, sources: seq<Bytes>): Result<Bytes, CompileError>
    requires sources != []
  {
    if |sources| == 1 then Compile(cr, sources[0])
    else
      var b :- Run(cr, sources[..|sources| - 1]);
      Extend(cr, b, sources[|sources| - 1])
  }

  /** What every reachable artifact with fewer than 2^32 functions satisfies. */
  ghost predicate Sound(cr: Crypto, b: Bytes) {
    && SifRead(cr, b).Ok? && CanonicalFlags(cr, b)
    && var i := SifRead(cr, b).value;
    && Expressible(i)
    && (forall j :: 0 <= j < |i.revisions| ==> i.revisions[j].version == j && i.revisions[j].annotations == [])
    && (forall j :: 0 <= j < |Functions(i.revisions)| ==> Functions(i.revisions)[j].id == j)
    && i.currentFuncid == |Functions(i.revisions)|
  }

  ghost predicate FewFunctions(cr: Crypto, b: Bytes) {
    SifRead(cr, b).Ok? ==> |Functions(SifRead(cr, b).value.revisions)| < TWO32
  }

  lemma SoundIfExpressible(cr: Crypto, b: Bytes)
    requires SifRead(cr, b).Ok? && CanonicalFlags(cr, b)
    requires Expressible(SifRead(cr, b).value) && FewFunctions(cr, b)
    ensures Sound(cr, b)
  {
    hide SifRead, CanonicalFlags, ExpressibleHeader, NumberedRevisions, FuncidAfter, Functions;
    var i := SifRead(cr, b).value;
    AcceptedIsWritable(cr, b, i);
    DenseIds(i.revisions, 0);
    forall j | 0 <= j < |i.revisions| ensures i.revisions[j].annotations == [] {
      assert PrintableRevision(i.revisions[j]);
    }
  }

  lemma {:induction false} RunInvariant(cr: Crypto, sources: seq<Bytes>, b: Bytes)
    requires sources != [] && Run(cr, sources) == Ok(b) && FewFunctions(cr, b)
    ensures Sound(cr, b)
    decreases |sources|
  {
    hide SifRead, CanonicalFlags, Compile, Extend, ExpressibleHeader, NumberedRevisions, PrintableRevision,
         FuncidAfter, Functions, IdAfterRevisions, ParseSource, Validate;
    if |sources| == 1 {
      CompiledIsExpressible(cr, sources[0], b);
    } else {
      var base := Run(cr, sources[..|sources| - 1]).value;
      var source := sources[|sources| - 1];
      ExtendedInterface(cr, base, source, b);
      var i := SifRead(cr, base).value;
      var j := ParseSource(source, |i.revisions|, i.currentFuncid).value;
      FunctionsAppend(i.revisions, j.revisions);
      RunInvariant(cr, sources[..|sources| - 1], base);
      ParsedSource(source, |i.revisions|, i.currentFuncid);
      DenseIds(i.revisions, 0);
      NumberedAppend(i.revisions, j.revisions, 0);
      SameExpressibleHeader(i, SifRead(cr, b).value);
    }
    SoundIfExpressible(cr, b);
  }

  lemma SameExpressibleHeader(i: Interface, j: Interface)
    requires Bare(i) == Bare(j)
    ensures ExpressibleHeader(i) == ExpressibleHeader(j)
  {
  }

  /** Every reachable artifact is reproduced by compiling its decompiled text. */
  lemma ReachableReproduces(cr: Crypto, sources: seq<Bytes>, b: Bytes)
    requires sources != [] && Run(cr, sources) == Ok(b) && FewFunctions(cr, b)
    ensures Decompile(cr, b).Ok? && Compile(cr, Decompile(cr, b).value) == Ok(b)
  {
    hide SifRead, CanonicalFlags, Compile, Decompile, Expressible;
    RunInvariant(cr, sources, b);
    Reproduces(cr, b, SifRead(cr, b).value);
  }

  lemma ExtendsTransitive(cr: Crypto, i: Interface, j: Interface, k: Interface)
    requires Extends(cr, i, j) && Extends(cr, j, k)
    ensures Extends(cr, i, k)
  {
    hide HashTable;
  }

  /** History is append-only: every earlier artifact of a run exists and is kept by the later ones. */
  lemma {:induction false} RunHistory(cr: Crypto, sources: seq<Bytes>, k: nat, b: Bytes)
    requires 0 < k <= |sources| && Run(cr, sources) == Ok(b)
    ensures Run(cr, sources[..k]).Ok?
    ensures SifRead(cr, Run(cr, sources[..k]).value).Ok? && SifRead(cr, b).Ok?
    ensures Extends(cr, SifRead(cr, Run(cr, sources[..k]).value).value, SifRead(cr, b).value)
    ensures StoredTable(Run(cr, sources[..k]).value) <= StoredTable(b)
    decreases |sources|
  {
    hide SifRead, Compile, Extend, HashTable, StoredTable;
    if k == |sources| {
      assert sources[..k] == sources;
      if |sources| == 1 {
        CompiledIsExpressible(cr, sources[0], b);
      } else {
        ExtendKeepsBase(cr, Run(cr, sources[..|sources| - 1]).value, sources[|sources| - 1], b);
      }
    } else {
      var init := sources[..|sources| - 1];
      var base := Run(cr, init).value;
      assert sources[..k] == init[..k];
      RunHistory(cr, init, k, base);
      ExtendKeepsBase(cr, base, sources[|sources| - 1], b);
      ExtendsTransitive(cr, SifRead(cr, Run(cr, sources[..k]).value).value, SifRead(cr, base).value, SifRead(cr, b).value);
    }
  }
}
