/** The vtable of the generated server header (lang/c_header_generator.cc:42-56, 215-252, 323-351) and
    the dispatcher of the generated server source (lang/c_module_source_generator.cc:206-350). */
module DispatchTable {
  import opened Octets
  import opened Ast
  import opened SifArtifact
  import opened SifTheorems
  import opened MachineWords
  import opened CallPlans
  import opened CallSemantics
  import opened SifFormat
  import opened Lexing
  import opened Parsing
  import opened Printing
  import opened TextRoundTrip
  import opened Compiling
  import opened Reproduction
  import opened Histories

  // ---------------------------------------------------------------- sizes of named types

  /** The C sizes of the built-in types (core/main.cc:20-40). */
  const BUILTINS: Sizes := map[
    "opaque" := 0, "u8" := 1, "u16" := 2, "u32" := 4, "u64" := 8, "s8" := 1, "s16" := 2, "s32" := 4,
    "s64" := 8, "handle" := 4, "status" := 4]

  function EnumSizes(sizes: Sizes, es: seq<Enum>): Sizes {
    if es == [] then sizes
    else
      var n := |es| - 1;
      var before := EnumSizes(sizes, es[..n]);
      before[es[n].name := SizeOf(before, es[n].baseType)]
  }

  function BitfieldSizes(sizes: Sizes, bs: seq<Bitfield>): Sizes {
    if bs == [] then sizes
    else
      var n := |bs| - 1;
      var before := BitfieldSizes(sizes, bs[..n]);
      before[bs[n].name := SizeOf(before, bs[n].baseType)]
  }

  function StructSizes(sizes: Sizes, ss: seq<Struct>): Sizes {
    if ss == [] then sizes
    else StructSizes(sizes, ss[..|ss| - 1])[ss[|ss| - 1].name := 0]
  }

  /** Enums are visited before the bitfields of their revision, and those before its structs. */
  function RevisionSizes(sizes: Sizes, v: Revision): Sizes {
    StructSizes(BitfieldSizes(EnumSizes(sizes, v.enums), v.bitfields), v.structs)
  }

  // ---------------------------------------------------------------- which types get a size

  /** The type is passed by value with 1 to 8 octets. */
  predicate Sized(sizes: Sizes, name: Bytes) { name in sizes && 0 < sizes[name] <= 8 }

  /** A type of known size, when the names in `known` are those with one. */
  predicate Resolves(known: set<Bytes>, ty: Type) {
    match ty
    case Ptr(_, _) => true
    case Array(_, _) => [] in known
    case Named(_, name) => name in known
  }

  function EnumNames(es: seq<Enum>): set<Bytes> { set e <- es :: e.name }
  function BitfieldNames(bs: seq<Bitfield>): set<Bytes> { set b <- bs :: b.name }
  function StructNames(ss: seq<Struct>): set<Bytes> { set d <- ss :: d.name }

  predicate EnumsResolve(known: set<Bytes>, es: seq<Enum>) {
    forall k :: 0 <= k < |es| ==> Resolves(known + EnumNames(es[..k]), es[k].baseType)
  }

  predicate BitfieldsResolve(known: set<Bytes>, bs: seq<Bitfield>) {
    forall k :: 0 <= k < |bs| ==> Resolves(known + BitfieldNames(bs[..k]), bs[k].baseType)
  }

  const SCALARS: set<Bytes> := set name <- BUILTINS | BUILTINS[name] > 0

  /** The names that denote a scalar after the revisions: built in, or an enum or a bitfield, and not
      declared as a struct since. */
  function Scalars(vs: seq<Revision>): set<Bytes> {
    if vs == [] then SCALARS
    else
      var v := vs[|vs| - 1];
      Scalars(vs[..|vs| - 1]) + EnumNames(v.enums) + BitfieldNames(v.bitfields) - StructNames(v.structs)
  }

  /** Every enum and bitfield is over a type that is a scalar where it is visited: of an earlier
      revision, declared before it in its list, or, for a bitfield, an enum. */
  ghost predicate BasesResolve(vs: seq<Revision>) {
    forall j :: 0 <= j < |vs| ==>
      var known := Scalars(vs[..j]);
      EnumsResolve(known, vs[j].enums) && BitfieldsResolve(known + EnumNames(vs[j].enums), vs[j].bitfields)
  }

  /** The names of known size are those in `known`. */
  ghost predicate SizedNames(sizes: Sizes, known: set<Bytes>) { forall n: Bytes :: Sized(sizes, n) <==> n in known }

  lemma EnumsResolveBefore(known: set<Bytes>, es: seq<Enum>)
    requires es != [] && EnumsResolve(known, es)
    ensures EnumsResolve(known, es[..|es| - 1])
    ensures Resolves(known + EnumNames(es[..|es| - 1]), es[|es| - 1].baseType)
    ensures EnumNames(es) == EnumNames(es[..|es| - 1]) + {es[|es| - 1].name}
  {
    hide Resolves;
    var n, init := |es| - 1, es[..|es| - 1];
    forall k | 0 <= k < n ensures Resolves(known + EnumNames(init[..k]), init[k].baseType) {
      assert init[..k] == es[..k];
    }
    assert es == init + [es[n]];
  }

  lemma {:induction false} EnumsSized(sizes: Sizes, known: set<Bytes>, es: seq<Enum>)
    requires EnumsResolve(known, es) && SizedNames(sizes, known)
    ensures SizedNames(EnumSizes(sizes, es), known + EnumNames(es))
    decreases |es|
  {
    hide SizedNames, EnumsResolve, Resolves, SizeOf;
    if es == [] {
      assert known + EnumNames(es) == known;
    } else {
      var n, init := |es| - 1, es[..|es| - 1];
      EnumsResolveBefore(known, es);
      EnumsSized(sizes, known, init);
      SizedAfter(EnumSizes(sizes, init), known + EnumNames(init), es[n].name, es[n].baseType);
      assert known + EnumNames(es) == known + EnumNames(init) + {es[n].name};
    }
  }

  lemma BitfieldsResolveBefore(known: set<Bytes>, bs: seq<Bitfield>)
    requires bs != [] && BitfieldsResolve(known, bs)
    ensures BitfieldsResolve(known, bs[..|bs| - 1])
    ensures Resolves(known + BitfieldNames(bs[..|bs| - 1]), bs[|bs| - 1].baseType)
    ensures BitfieldNames(bs) == BitfieldNames(bs[..|bs| - 1]) + {bs[|bs| - 1].name}
  {
    hide Resolves;
    var n, init := |bs| - 1, bs[..|bs| - 1];
    forall k | 0 <= k < n ensures Resolves(known + BitfieldNames(init[..k]), init[k].baseType) {
      assert init[..k] == bs[..k];
    }
    assert bs == init + [bs[n]];
  }

  lemma {:induction false} BitfieldsSized(sizes: Sizes, known: set<Bytes>, bs: seq<Bitfield>)
    requires BitfieldsResolve(known, bs) && SizedNames(sizes, known)
    ensures SizedNames(BitfieldSizes(sizes, bs), known + BitfieldNames(bs))
    decreases |bs|
  {
    hide SizedNames, BitfieldsResolve, Resolves, SizeOf;
    if bs == [] {
      assert known + BitfieldNames(bs) == known;
    } else {
      var n, init := |bs| - 1, bs[..|bs| - 1];
      BitfieldsResolveBefore(known, bs);
      BitfieldsSized(sizes, known, init);
      SizedAfter(BitfieldSizes(sizes, init), known + BitfieldNames(init), bs[n].name, bs[n].baseType);
      assert known + BitfieldNames(bs) == known + BitfieldNames(init) + {bs[n].name};
    }
  }

  /** A declaration over a scalar makes its name a scalar and touches no other name. */
  lemma SizedAfter(sizes: Sizes, known: set<Bytes>, declared: Bytes, base: Type)
    requires Resolves(known, base) && SizedNames(sizes, known)
    ensures SizedNames(sizes[declared := SizeOf(sizes, base)], known + {declared})
  {
    match base
    case Ptr(_, _) =>
    case Array(_, _) => assert Sized(sizes, []);
    case Named(_, n) => assert Sized(sizes, n);
  }

  lemma {:induction false} StructsSized(sizes: Sizes, ss: seq<Struct>, name: Bytes)
    ensures Sized(StructSizes(sizes, ss), name) <==> Sized(sizes, name) && name !in StructNames(ss)
    decreases |ss|
  {
    if ss != [] {
      var init := ss[..|ss| - 1];
      assert ss == init + [ss[|ss| - 1]];
      assert StructNames(ss) == StructNames(init) + {ss[|ss| - 1].name};
      StructsSized(sizes, init, name);
    }
  }

  /** The server generator gives a size of 1 to 8 octets to exactly the scalars. */
  lemma {:induction false} ScalarsAreSized(vs: seq<Revision>, name: Bytes)
    requires BasesResolve(vs)
    ensures Sized(VisitAll(vs).sizes, name) <==> name in Scalars(vs)
    decreases |vs|
  {
    hide EnumSizes, BitfieldSizes, StructSizes, Sized, EnumsResolve, BitfieldsResolve, PlaceAll, SpanAfter, SpansAfter;
    if vs == [] {
      BuiltinsSized(name);
    } else {
      var init, v := vs[..|vs| - 1], vs[|vs| - 1];
      assert BasesResolve(init) by {
        forall j | 0 <= j < |init|
          ensures var known := Scalars(init[..j]);
                  EnumsResolve(known, init[j].enums)
                  && BitfieldsResolve(known + EnumNames(init[j].enums), init[j].bitfields)
        {
          assert init[..j] == vs[..j] && init[j] == vs[j];
        }
      }
      var known, sizes := Scalars(init), VisitAll(init).sizes;
      assert vs[..|vs| - 1] == init;
      forall n: Bytes ensures Sized(sizes, n) <==> n in known { ScalarsAreSized(init, n); }
      EnumsSized(sizes, known, v.enums);
      var enums := EnumSizes(sizes, v.enums);
      BitfieldsSized(enums, known + EnumNames(v.enums), v.bitfields);
      StructsSized(BitfieldSizes(enums, v.bitfields), v.structs, name);
    }
  }

  lemma BuiltinsSized(name: Bytes)
    ensures Sized(BUILTINS, name) <==> name in SCALARS
  {
    assert forall n <- BUILTINS :: BUILTINS[n] <= 8;
  }

  /** So client and server classify the parameters of a function alike when its by-value arguments
      are scalars and a pointer has 8 octets. */
  lemma ScalarsAreSettled(a: Arch, vs: seq<Revision>, ps: seq<Parameter>)
    requires Accepted(a) && a.pointerSize >= 8 && BasesResolve(vs)
    requires forall p <- ps :: p.direction.In? && p.ty.Named? ==> p.ty.name in Scalars(vs)
    ensures Settled(a, VisitAll(vs).sizes, ps) && SameClassification(a, VisitAll(vs).sizes, ps)
  {
    hide VisitAll, Scalars, BasesResolve, Split, InRegisters, SameClassification;
    var sizes := VisitAll(vs).sizes;
    forall i | 0 <= i < |ps| && PassedInSlot(a, ps, i) ensures ServerScalar(a, sizes, ps[i]) {
      SlotIsScalar(a, ps, i);
      assert ps[i] in ps;
      ScalarsAreSized(vs, ps[i].ty.name);
    }
    ClassificationAgreesIffSettled(a, sizes, ps);
  }

  lemma SlotIsScalar(a: Arch, ps: seq<Parameter>, i: nat)
    requires Accepted(a) && i < |ps| && PassedInSlot(a, ps, i)
    ensures ClientScalar(a, ps[i]) && ps[i].ty.Named?
  {
    if InRegisters(ClientTest(a), SlotCount(a), ps) {
      assert ClientTest(a)(ps[i]);
    } else {
      SplitPartitions(ClientTest(a), PeelCount(a), ps, i);
    }
  }

  // ---------------------------------------------------------------- functions by id, and spans

  type Table = seq<Option<Function>>

  function Nothing(n: nat): (r: Table)
    ensures |r| == n && forall j :: 0 <= j < n ==> r[j] == None
  {
    if n == 0 then [] else Nothing(n - 1) + [None]
  }

  /** The table after the visit of one function. */
  function Place(t: Table, f: Function): (r: Table)
    ensures |r| == if f.id < |t| then |t| else f.id + 1
    ensures r[f.id] == Some(f)
    ensures forall j :: 0 <= j < |r| && j != f.id ==> r[j] == if j < |t| then t[j] else None
  {
    (if |t| <= f.id then t + Nothing(f.id + 1 - |t|) else t)[f.id := Some(f)]
  }

  function PlaceAll(t: Table, fs: seq<Function>): Table {
    if fs == [] then t else Place(PlaceAll(t, fs[..|fs| - 1]), fs[|fs| - 1])
  }

  function Successor(id: u32): u32 { (id + 1) % TWO32 }

  /** The id span after a revision, as both generators compute it. */
  function SpanAfter(span: u32, v: Revision): u32 {
    if v.functions == [] then span else Successor(v.functions[|v.functions| - 1].id)
  }

  function Filled(n: nat, span: u32): (r: seq<u32>)
    ensures |r| == n && forall j :: 0 <= j < n ==> r[j] == span
  {
    if n == 0 then [] else Filled(n - 1, span) + [span]
  }

  /** `abi_spans` after a revision. */
  function SpansAfter(spans: seq<u32>, span: u32, v: Revision): (r: seq<u32>) {
    (if |spans| <= v.version then spans + Filled(v.version + 1 - |spans|, span) else spans)
      [v.version := SpanAfter(span, v)]
  }

  /** The state of the server generator that its visits update. */
  datatype Visit = Visit(sizes: Sizes, table: Table, span: u32, spans: seq<u32>)

  function VisitRevision(s: Visit, v: Revision): Visit {
    Visit(RevisionSizes(s.sizes, v), PlaceAll(s.table, v.functions), SpanAfter(s.span, v),
          SpansAfter(s.spans, s.span, v))
  }

  function VisitAll(vs: seq<Revision>): Visit {
    if vs == [] then Visit(BUILTINS, [], 0, [])
    else VisitRevision(VisitAll(vs[..|vs| - 1]), vs[|vs| - 1])
  }

  // ---------------------------------------------------------------- the emitted dispatcher

  /** `case id:` with the vtable member it calls. */
  datatype Case = Case(id: u32, member: Bytes, body: DispatchCase)

  datatype Server = Server(slots: nat, span: u32, cases: seq<Case>)

  function CasesOf(a: Arch, sizes: Sizes, t: Table): seq<Case>
    requires Accepted(a)
  {
    if t == [] then []
    else
      var n := |t| - 1;
      CasesOf(a, sizes, t[..n]) +
      match t[n]
      case None => []
      case Some(f) => [Case(f.id, f.name, ServerCase(a, sizes, f.parameters))]
  }

  function ServerSource(a: Arch, i: Interface): Server
    requires Accepted(a)
  {
    var s := VisitAll(i.revisions);
    Server(SlotCount(a), s.span, CasesOf(a, s.sizes, s.table))
  }

  /** The generator as the source has it: an object whose visits update its fields. */
  class ModuleGenerator {
    var totalFuncidSpan: u32
    var abiSpans: seq<u32>
    var functionsById: Table
    var typeValueInfos: Sizes

    ghost function State(): Visit
      reads this
    {
      Visit(typeValueInfos, functionsById, totalFuncidSpan, abiSpans)
    }

    constructor ()
      ensures State() == VisitAll([])
    {
      totalFuncidSpan, abiSpans, functionsById, typeValueInfos := 0, [], [], BUILTINS;
    }

    method VisitEnum(e: Enum)
      modifies this`typeValueInfos
      ensures typeValueInfos == old(typeValueInfos)[e.name := SizeOf(old(typeValueInfos), e.baseType)]
    {
      typeValueInfos := typeValueInfos[e.name := SizeOf(typeValueInfos, e.baseType)];
    }

    method VisitBitfield(b: Bitfield)
      modifies this`typeValueInfos
      ensures typeValueInfos == old(typeValueInfos)[b.name := SizeOf(old(typeValueInfos), b.baseType)]
    {
      typeValueInfos := typeValueInfos[b.name := SizeOf(typeValueInfos, b.baseType)];
    }

    method VisitStruct(d: Struct)
      modifies this`typeValueInfos
      ensures typeValueInfos == old(typeValueInfos)[d.name := 0]
    {
      typeValueInfos := typeValueInfos[d.name := 0];
    }

    method VisitFunction(f: Function)
      modifies this`functionsById
      ensures functionsById == Place(old(functionsById), f)
    {
      if |functionsById| <= f.id {
        functionsById := functionsById + Nothing(f.id + 1 - |functionsById|);
      }
      functionsById := functionsById[f.id := Some(f)];
    }

    method VisitTypes(v: Revision)
      modifies this`typeValueInfos
      ensures typeValueInfos == RevisionSizes(old(typeValueInfos), v)
    {
      hide SizeOf;
      for k := 0 to |v.enums|
        invariant typeValueInfos == EnumSizes(old(typeValueInfos), v.enums[..k])
      {
        assert v.enums[..k + 1][..k] == v.enums[..k];
        VisitEnum(v.enums[k]);
      }
      assert v.enums[..|v.enums|] == v.enums;
      ghost var afterEnums := typeValueInfos;
      for k := 0 to |v.bitfields|
        invariant typeValueInfos == BitfieldSizes(afterEnums, v.bitfields[..k])
      {
        assert v.bitfields[..k + 1][..k] == v.bitfields[..k];
        VisitBitfield(v.bitfields[k]);
      }
      assert v.bitfields[..|v.bitfields|] == v.bitfields;
      ghost var afterBitfields := typeValueInfos;
      for k := 0 to |v.structs|
        invariant typeValueInfos == StructSizes(afterBitfields, v.structs[..k])
      {
        assert v.structs[..k + 1][..k] == v.structs[..k];
        VisitStruct(v.structs[k]);
      }
      assert v.structs[..|v.structs|] == v.structs;
    }

    method VisitAbiversion(v: Revision)
      modifies this
      ensures State() == VisitRevision(old(State()), v)
    {
      hide RevisionSizes;
      VisitTypes(v);
      for k := 0 to |v.functions|
        invariant functionsById == PlaceAll(old(functionsById), v.functions[..k])
        invariant typeValueInfos == RevisionSizes(old(typeValueInfos), v)
        invariant unchanged(this`totalFuncidSpan) && unchanged(this`abiSpans)
      {
        assert v.functions[..k + 1][..k] == v.functions[..k];
        VisitFunction(v.functions[k]);
      }
      assert v.functions[..|v.functions|] == v.functions;
      if |abiSpans| <= v.version {
        abiSpans := abiSpans + Filled(v.version + 1 - |abiSpans|, totalFuncidSpan);
      }
      if v.functions != [] {
        totalFuncidSpan := Successor(v.functions[|v.functions| - 1].id);
      }
      abiSpans := abiSpans[v.version := totalFuncidSpan];
    }

    /** `visit(InterfaceNode)`: all revisions first, then one case for each known function. */
    method VisitInterface(a: Arch, i: Interface) returns (server: Server)
      requires Accepted(a)
      modifies this
      ensures State() == VisitAll(i.revisions) && server == ServerSource(a, i)
    {
      totalFuncidSpan, abiSpans, functionsById, typeValueInfos := 0, [], [], BUILTINS;
      for k := 0 to |i.revisions|
        invariant State() == VisitAll(i.revisions[..k])
      {
        assert i.revisions[..k + 1][..k] == i.revisions[..k];
        VisitAbiversion(i.revisions[k]);
      }
      assert i.revisions[..|i.revisions|] == i.revisions;
      var cases := [];
      for id := 0 to |functionsById|
        invariant State() == VisitAll(i.revisions)
        invariant cases == CasesOf(a, typeValueInfos, functionsById[..id])
      {
        assert functionsById[..id + 1][..id] == functionsById[..id];
        if functionsById[id].Some? {
          var f := functionsById[id].value;
          var body := WriteDispatchCase(a, typeValueInfos, f.parameters);
          cases := cases + [Case(f.id, f.name, body)];
        }
      }
      assert functionsById[..|functionsById|] == functionsById;
      server := Server(SlotCount(a), totalFuncidSpan, cases);
    }
  }

  // ---------------------------------------------------------------- the server header

  /** What the header generator accumulates: vtable fields in order, id span, number of revisions. */
  datatype Header = Header(fields: seq<Bytes>, span: u32, revisions: nat)

  function FieldsOf(fs: seq<Function>): (r: seq<Bytes>)
    ensures |r| == |fs| && forall j :: 0 <= j < |r| ==> r[j] == fs[j].name
  {
    if fs == [] then [] else FieldsOf(fs[..|fs| - 1]) + [fs[|fs| - 1].name]
  }

  function HeaderRevision(h: Header, v: Revision): Header {
    Header(h.fields + FieldsOf(v.functions), SpanAfter(h.span, v),
           if h.revisions < v.version + 1 then v.version + 1 else h.revisions)
  }

  function HeaderAll(vs: seq<Revision>): Header {
    if vs == [] then Header([], 0, 0) else HeaderRevision(HeaderAll(vs[..|vs| - 1]), vs[|vs| - 1])
  }

  class HeaderGenerator {
    var totalFuncidSpan: u32
    var abiRevisionCount: nat
    var vtableFields: seq<Bytes>

    ghost function State(): Header
      reads this
    {
      Header(vtableFields, totalFuncidSpan, abiRevisionCount)
    }

    constructor ()
      ensures State() == HeaderAll([])
    {
      totalFuncidSpan, abiRevisionCount, vtableFields := 0, 0, [];
    }

    method VisitFunction(f: Function)
      modifies this`vtableFields
      ensures vtableFields == old(vtableFields) + [f.name]
    {
      vtableFields := vtableFields + [f.name];
    }

    method VisitAbiversion(v: Revision)
      modifies this
      ensures State() == HeaderRevision(old(State()), v)
    {
      var revisionCount := v.version + 1;
      for k := 0 to |v.functions|
        invariant vtableFields == old(vtableFields) + FieldsOf(v.functions[..k])
        invariant unchanged(this`totalFuncidSpan) && unchanged(this`abiRevisionCount)
      {
        assert v.functions[..k + 1][..k] == v.functions[..k];
        VisitFunction(v.functions[k]);
      }
      assert v.functions[..|v.functions|] == v.functions;
      abiRevisionCount := if abiRevisionCount < revisionCount then revisionCount else abiRevisionCount;
      if v.functions != [] {
        totalFuncidSpan := Successor(v.functions[|v.functions| - 1].id);
      }
    }

    method VisitInterface(i: Interface)
      modifies this
      ensures State() == HeaderAll(i.revisions)
    {
      totalFuncidSpan, abiRevisionCount, vtableFields := 0, 0, [];
      for k := 0 to |i.revisions|
        invariant State() == HeaderAll(i.revisions[..k])
      {
        assert i.revisions[..k + 1][..k] == i.revisions[..k];
        VisitAbiversion(i.revisions[k]);
      }
      assert i.revisions[..|i.revisions|] == i.revisions;
    }
  }

  // ---------------------------------------------------------------- dense ids fill the table

  /** Function ids are the declaration positions, below the 32-bit limit. */
  ghost predicate Dense(vs: seq<Revision>) {
    && |Functions(vs)| < TWO32
    && forall j :: 0 <= j < |Functions(vs)| ==> Functions(vs)[j].id == j
  }

  lemma {:induction false} PlaceInOrder(t: Table, fs: seq<Function>)
    requires forall j :: 0 <= j < |fs| ==> fs[j].id == |t| + j
    ensures |PlaceAll(t, fs)| == |t| + |fs|
    ensures forall j :: 0 <= j < |t| ==> PlaceAll(t, fs)[j] == t[j]
    ensures forall j :: 0 <= j < |fs| ==> PlaceAll(t, fs)[|t| + j] == Some(fs[j])
    decreases |fs|
  {
    if fs != [] {
      var n := |fs| - 1;
      PlaceInOrder(t, fs[..n]);
      forall j | 0 <= j < |fs| ensures PlaceAll(t, fs)[|t| + j] == Some(fs[j]) {
        if j < n { assert fs[..n][j] == fs[j]; }
      }
    }
  }

  lemma FunctionsSnoc(vs: seq<Revision>)
    requires vs != []
    ensures Functions(vs) == Functions(vs[..|vs| - 1]) + vs[|vs| - 1].functions
  {
    hide Functions;
    var n := |vs| - 1;
    FunctionsAppend(vs[..n], [vs[n]]);
    assert vs[..n] + [vs[n]] == vs;
    FunctionsOfOne(vs[n]);
  }

  lemma FunctionsOfOne(v: Revision)
    ensures Functions([v]) == v.functions
  {
    assert [v][1..] == [] && v.functions + [] == v.functions;
  }

  lemma DenseSnoc(vs: seq<Revision>)
    requires vs != [] && Dense(vs)
    ensures var init, v := vs[..|vs| - 1], vs[|vs| - 1];
            && Functions(vs) == Functions(init) + v.functions && Dense(init)
            && forall j :: 0 <= j < |v.functions| ==> v.functions[j].id == |Functions(init)| + j
  {
    hide Functions;
    FunctionsSnoc(vs);
    var init, v := vs[..|vs| - 1], vs[|vs| - 1];
    forall j | 0 <= j < |v.functions| ensures v.functions[j].id == |Functions(init)| + j {
      assert v.functions[j] == Functions(vs)[|Functions(init)| + j];
    }
    assert forall j :: 0 <= j < |Functions(init)| ==> Functions(vs)[j] == Functions(init)[j];
  }

  /** `functions_by_id` has no holes: the function with id `j` stands at `j`. */
  lemma {:induction false} TableHasNoHoles(vs: seq<Revision>)
    requires Dense(vs)
    ensures |VisitAll(vs).table| == |Functions(vs)|
    ensures forall j :: 0 <= j < |Functions(vs)| ==> VisitAll(vs).table[j] == Some(Functions(vs)[j])
    decreases |vs|
  {
    hide RevisionSizes, PlaceAll, Functions, SpanAfter, SpansAfter, Dense;
    if vs == [] {
      assert Functions([]) == [] by { FunctionsEmpty(); }
    } else {
      var n := |vs| - 1;
      DenseSnoc(vs);
      TableHasNoHoles(vs[..n]);
      var before := VisitAll(vs[..n]).table;
      PlaceInOrder(before, vs[n].functions);
      forall j | 0 <= j < |Functions(vs)| ensures VisitAll(vs).table[j] == Some(Functions(vs)[j]) {
        if j >= |before| { assert VisitAll(vs).table[|before| + (j - |before|)] == Some(vs[n].functions[j - |before|]); }
      }
    }
  }

  lemma FunctionsEmpty()
    ensures Functions([]) == []
  {
  }

  /** The header declares one vtable field a function, in declaration order. */
  lemma {:induction false} HeaderFields(vs: seq<Revision>)
    ensures HeaderAll(vs).fields == FieldsOf(Functions(vs))
    decreases |vs|
  {
    hide FieldsOf, Functions, SpanAfter;
    if vs == [] {
      FunctionsEmpty();
    } else {
      FunctionsSnoc(vs);
      HeaderFields(vs[..|vs| - 1]);
    }
  }

  /** Both spans are the number of functions. */
  lemma {:induction false} SpansCountFunctions(vs: seq<Revision>)
    requires Dense(vs)
    ensures VisitAll(vs).span == HeaderAll(vs).span == |Functions(vs)|
    decreases |vs|
  {
    hide RevisionSizes, PlaceAll, FieldsOf, Functions, SpansAfter, Dense;
    if vs == [] {
      FunctionsEmpty();
    } else {
      DenseSnoc(vs);
      DenseIsBelow(vs);
      SpansCountFunctions(vs[..|vs| - 1]);
    }
  }

  lemma DenseIsBelow(vs: seq<Revision>)
    requires Dense(vs)
    ensures |Functions(vs)| < TWO32
  {
  }

  /** `abi_spans[k]` counts the functions of the revisions up to `k`. */
  lemma {:induction false} AbiSpansCount(vs: seq<Revision>)
    requires Dense(vs) && Contiguous(vs, 0)
    ensures |VisitAll(vs).spans| == |vs| == HeaderAll(vs).revisions
    ensures forall k :: 0 <= k < |vs| ==> VisitAll(vs).spans[k] == |Functions(vs[..k + 1])|
    decreases |vs|
  {
    hide RevisionSizes, PlaceAll, FieldsOf, Functions, Dense, SpanAfter;
    if vs != [] {
      var n := |vs| - 1;
      var init := vs[..n];
      DenseSnoc(vs);
      AbiSpansCount(init);
      SpansCountFunctions(vs);
      assert vs[n].version == n;
      forall k | 0 <= k < |vs| ensures VisitAll(vs).spans[k] == |Functions(vs[..k + 1])| {
        if k < n { assert init[..k + 1] == vs[..k + 1]; } else { assert vs[..k + 1] == vs; }
      }
    }
  }

  lemma {:induction false} CasesOfFullTable(a: Arch, sizes: Sizes, t: Table)
    requires Accepted(a) && forall j :: 0 <= j < |t| ==> t[j].Some?
    ensures var cases := CasesOf(a, sizes, t);
            && |cases| == |t|
            && forall j :: 0 <= j < |t| ==>
                 cases[j] == Case(t[j].value.id, t[j].value.name, ServerCase(a, sizes, t[j].value.parameters))
    decreases |t|
  {
    hide ServerCase;
    if t != [] {
      var n := |t| - 1;
      CasesOfFullTable(a, sizes, t[..n]);
      var cases := CasesOf(a, sizes, t);
      forall j | 0 <= j < |t|
        ensures cases[j] == Case(t[j].value.id, t[j].value.name, ServerCase(a, sizes, t[j].value.parameters))
      {
        if j < n { assert t[..n][j] == t[j]; }
      }
    }
  }

  // ---------------------------------------------------------------- what a dispatch calls

  function FindCase(cases: seq<Case>, funcid: nat): (k: nat)
    ensures k <= |cases| && (k < |cases| ==> cases[k].id == funcid)
    ensures forall j :: 0 <= j < k ==> cases[j].id != funcid
  {
    if cases == [] || cases[0].id == funcid then 0 else 1 + FindCase(cases[1..], funcid)
  }

  function FieldIndex(fields: seq<Bytes>, name: Bytes): (k: nat)
    ensures k <= |fields| && (k < |fields| ==> fields[k] == name)
    ensures forall j :: 0 <= j < k ==> fields[j] != name
  {
    if fields == [] || fields[0] == name then 0 else 1 + FieldIndex(fields[1..], name)
  }

  /** The vtable slot whose function a dispatch of `funcid` calls, `None` for STATUS_NOT_IMPLEMENTED;
      `filled` says which slots are not null. */
  function SlotCalled(server: Server, fields: seq<Bytes>, filled: seq<bool>, funcid: nat): Option<nat> {
    if funcid >= server.span then None
    else if funcid >= |filled| || !filled[funcid] then None
    else
      var k := FindCase(server.cases, funcid);
      if k == |server.cases| then None else Some(FieldIndex(fields, server.cases[k].member))
  }

  ghost predicate DistinctNames(fs: seq<Function>) {
    forall j, k :: 0 <= j < k < |fs| ==> fs[j].name != fs[k].name
  }

  /** Dispatching an id calls the vtable slot of that position, which the header declared for the
      function with that id; an id outside the span or an empty slot calls nothing. */
  lemma DispatchCallsItsSlot(a: Arch, i: Interface, filled: seq<bool>, funcid: nat)
    requires Accepted(a) && Dense(i.revisions)
    requires DistinctNames(Functions(i.revisions)) && |filled| == |Functions(i.revisions)|
    ensures var fields := HeaderAll(i.revisions).fields;
            && |fields| == |Functions(i.revisions)|
            && (funcid < |fields| ==> fields[funcid] == Functions(i.revisions)[funcid].name)
            && SlotCalled(ServerSource(a, i), fields, filled, funcid) ==
               if funcid < |filled| && filled[funcid] then Some(funcid) else None
  {
    hide CasesOf, VisitAll, HeaderAll, ServerCase, Functions;
    TableHasNoHoles(i.revisions);
    HeaderFields(i.revisions);
    SpansCountFunctions(i.revisions);
    var s, fs := VisitAll(i.revisions), Functions(i.revisions);
    CasesOfFullTable(a, s.sizes, s.table);
    var server, fields := ServerSource(a, i), HeaderAll(i.revisions).fields;
    if funcid < |fs| {
      assert server.cases[funcid].id == s.table[funcid].value.id == funcid;
      var k := FindCase(server.cases, funcid);
      assert server.cases[k].id == k;
      assert server.cases[funcid].member == fields[funcid];
      var at := FieldIndex(fields, fields[funcid]);
      assert fields[at] == fs[at].name;
    }
  }

  /** Both hold of every reachable artifact with fewer than 2^32 functions. */
  lemma ReachableIsDense(cr: Crypto, sources: seq<Bytes>, b: Bytes)
    requires sources != [] && Run(cr, sources) == Ok(b) && FewFunctions(cr, b)
    ensures SifRead(cr, b).Ok? && Dense(SifRead(cr, b).value.revisions)
    ensures Contiguous(SifRead(cr, b).value.revisions, 0)
  {
    hide SifRead, CanonicalFlags, Run, Functions;
    RunInvariant(cr, sources, b);
  }

  lemma FieldsGrow(vs: seq<Revision>, ws: seq<Revision>)
    requires vs <= ws
    ensures HeaderAll(vs).fields <= HeaderAll(ws).fields
  {
    hide HeaderAll, Functions;
    assert ws == vs + ws[|vs|..];
    FunctionsAppend(vs, ws[|vs|..]);
    HeaderFields(vs);
    HeaderFields(ws);
  }

  /** Extending an interface appends to its vtable: no released slot or id changes. */
  lemma VtableOnlyGrows(cr: Crypto, sources: seq<Bytes>, k: nat, b: Bytes)
    requires 0 < k <= |sources| && Run(cr, sources) == Ok(b)
    ensures Run(cr, sources[..k]).Ok?
    ensures SifRead(cr, Run(cr, sources[..k]).value).Ok? && SifRead(cr, b).Ok?
    ensures HeaderAll(SifRead(cr, Run(cr, sources[..k]).value).value.revisions).fields
            <= HeaderAll(SifRead(cr, b).value.revisions).fields
  {
    hide SifRead, Run, HeaderAll, Extends, StoredTable;
    RunHistory(cr, sources, k, b);
    var i, j := SifRead(cr, Run(cr, sources[..k]).value).value, SifRead(cr, b).value;
    assert i.revisions <= j.revisions by { RevisionsKept(cr, i, j); }
    FieldsGrow(i.revisions, j.revisions);
  }

  lemma RevisionsKept(cr: Crypto, i: Interface, j: Interface)
    requires Extends(cr, i, j)
    ensures i.revisions <= j.revisions
  {
  }

  // ---------------------------------------------------------------- a declaration order that breaks a call

  const BITS: Bitfield := Bitfield("b", [], Named(false, "u8"), [])
  const ENUM_OF_BITS: Enum := Enum("e", [], Named(false, "b"), [])
  const TAKES_ENUM: seq<Parameter> := [Parameter(In, [], Named(false, "e"), "x")]
  const ORDERED: Revision := Revision(0, [], [BITS], [ENUM_OF_BITS], [], [Function(0, "f", [], TAKES_ENUM)])

  /** The base of its enum is declared, but only after the enum is visited. */
  lemma OrderedDoesNotResolve()
    ensures !BasesResolve([ORDERED])
  {
    var b: Bytes := "b";
    var vs := [ORDERED];
    assert vs[..0] == [] && vs[0] == ORDERED && ORDERED.enums[..0] == [];
    assert b !in SCALARS + EnumNames([]);
    assert !EnumsResolve(Scalars(vs[..0]), vs[0].enums) by {
      assert !Resolves(SCALARS + EnumNames(ORDERED.enums[..0]), ORDERED.enums[0].baseType);
    }
  }

  lemma EnumBeforeItsBitfield()
    ensures SizeOf(VisitAll([ORDERED]).sizes, Named(false, "e")) == 0
  {
    var b: Bytes, e: Bytes := "b", "e";
    assert [ORDERED][..0] == [] && [ENUM_OF_BITS][..0] == [] && [BITS][..0] == [];
    assert b !in BUILTINS;
    assert EnumSizes(BUILTINS, [ENUM_OF_BITS]) == BUILTINS[e := 0];
    var sizes := BUILTINS[e := 0];
    assert BitfieldSizes(sizes, [BITS]) == sizes[b := SizeOf(sizes, BITS.baseType)];
    assert b != e by { assert b[0] != e[0]; }
  }

  /** The server generator visits the enums of a revision before its bitfields, so an enum over a
      bitfield of the same revision has size 0 there: the client passes it in a register, the server
      takes the register for a pointer, and a call with value 0 is refused without reaching the
      handler. */
  lemma EnumOverBitfieldIsRefused(a: Arch, ints: CInts, fr: Frame, m: Memory, h: Handler)
    requires a.maxRegArgs >= 5
    ensures var sizes := VisitAll([ORDERED]).sizes;
            var stub, c := ClientStub(a, TAKES_ENUM), ServerCase(a, sizes, TAKES_ENUM);
            && !Settled(a, sizes, TAKES_ENUM)
            && AllBounded(c, |stub.slots|)
            && !Call(a, ints, stub, c, [Word(0)], fr, m, h).ok
  {
    EnumBeforeItsBitfield();
    hide VisitAll, ClientStub, ServerCase, Pow256;
    var sizes := VisitAll([ORDERED]).sizes;
    ClientOfOneScalar(a);
    ServerOfOneUnknown(a, sizes);
    AddressRoundTrip(0, a.pointerSize);
  }

  const ORDERED_INTERFACE: Interface := Interface("x", true, NIL_UUID, [], true, [], [], [ORDERED], 0)

  /** The revision is real: a source compiles to an artifact with it, and nothing else. */
  lemma OrderedIsCompiled(cr: Crypto)
    ensures exists source, b ::
              && Compile(cr, source) == Ok(b)
              && SifRead(cr, b).Ok? && SifRead(cr, b).value.revisions == [ORDERED]
  {
    hide Compile, SifRead, PrintInterface, ArtifactOf, FuncidAfter, Functions, Expressible, Writable;
    OrderedIsFine();
    PrintedCompiles(cr, ORDERED_INTERFACE);
    WritableIsWritten(cr, ORDERED_INTERFACE);
    var source, b := PrintInterface(ORDERED_INTERFACE, []), ArtifactOf(cr, ORDERED_INTERFACE);
    assert Compile(cr, source) == Ok(b);
  }

  lemma OrderedIsFine()
    ensures Writable(ORDERED_INTERFACE) && Expressible(ORDERED_INTERFACE)
  {
    hide PrintableRevision, FitsRevision, IsIdentifier;
    LetterIsIdentifier("x");
    OrderedIsPrintable();
    var vs := ORDERED_INTERFACE.revisions;
    assert vs[1..] == [] && ORDERED.functions[1..] == [];
    assert FitsRevision(ORDERED) by { OrderedFits(); }
    assert ExpressibleHeader(ORDERED_INTERFACE);
    assert Numbered([], 1) && Numbered(ORDERED.functions, 0) && NumberedRevisions([], 1);
    assert NumberedRevisions(vs, 0);
  }

  lemma OrderedFits()
    ensures FitsRevision(ORDERED)
  {
  }

  lemma OrderedIsPrintable()
    ensures PrintableRevision(ORDERED)
  {
    LetterIsIdentifier("f");
    LetterIsIdentifier("e");
    LetterIsIdentifier("b");
    assert IsIdentifier("u8");
    hide IsIdentifier;
    assert PrintableParameter(TAKES_ENUM[0]);
  }

  lemma LetterIsIdentifier(s: Bytes)
    requires |s| == 1 && IsAlpha(s[0])
    ensures IsIdentifier(s)
  {
  }

  lemma ClientOfOneScalar(a: Arch)
    requires a.maxRegArgs >= 5
    ensures ClientStub(a, TAKES_ENUM) == Stub([], [], [], [WordOf(0)], [])
    ensures PassedInSlot(a, TAKES_ENUM, 0)
  {
    assert ClientTest(a)(TAKES_ENUM[0]);
    assert Words(1) == [WordOf(0)];
  }

  lemma ServerOfOneUnknown(a: Arch, sizes: Sizes)
    requires a.maxRegArgs >= 5 && SizeOf(sizes, Named(false, "e")) == 0
    ensures ServerCase(a, sizes, TAKES_ENUM) == DispatchCase([], [], true, false, [SlotLoad(0)])
    ensures !ServerScalar(a, sizes, TAKES_ENUM[0])
  {
    assert TAKES_ENUM[..0] == [];
    assert !ServerTest(a, sizes)(TAKES_ENUM[0]);
    assert Split(ServerTest(a, sizes), PeelCount(a), TAKES_ENUM) == Parts([], [0], []);
  }
}
