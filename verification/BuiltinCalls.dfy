/** Calls with arguments of the built-in types (core/main.cc:20-40): which slots they take on x86_64, and
    that the handler gets them, with the types written out as they are in C. */
module BuiltinCalls {
  import opened Octets
  import opened Ast
  import opened MachineWords
  import opened CallPlans
  import opened CallSemantics
  import opened DispatchTable

  // ---------------------------------------------------------------- the built-in types

  /** The built-in types that can be passed by value. */
  const INTEGERS: set<Bytes> := {"u8", "u16", "u32", "u64", "s8", "s16", "s32", "s64", "handle", "status"}

  /** `uint8_t` to `int64_t`, and two types of four octets of either signedness. */
  predicate AreCTypes(ints: CInts) {
    && ints("u8") == CInt(1, false) && ints("u16") == CInt(2, false)
    && ints("u32") == CInt(4, false) && ints("u64") == CInt(8, false)
    && ints("s8") == CInt(1, true) && ints("s16") == CInt(2, true)
    && ints("s32") == CInt(4, true) && ints("s64") == CInt(8, true)
    && ints("handle").octets == 4 && ints("status").octets == 4
  }

  /** The table of sizes holds the octets of those types, and nothing else but `opaque`, which is `void`. */
  lemma SizesAreOctets(ints: CInts, name: Bytes)
    requires AreCTypes(ints)
    ensures SCALARS == INTEGERS
    ensures name in BUILTINS <==> name in INTEGERS || name == "opaque"
    ensures name in INTEGERS ==> BUILTINS[name] == ints(name).octets && 1 <= ints(name).octets <= 8
  {
    assert name in BUILTINS && BUILTINS[name] > 0 <==> name in INTEGERS;
  }

  /** No revision declares the name. */
  predicate Undeclared(vs: seq<Revision>, name: Bytes) {
    forall v <- vs ::
      name !in EnumNames(v.enums) && name !in BitfieldNames(v.bitfields) && name !in StructNames(v.structs)
  }

  lemma {:induction false} EnumsKeep(sizes: Sizes, es: seq<Enum>, name: Bytes)
    requires name in sizes && name !in EnumNames(es)
    ensures name in EnumSizes(sizes, es) && EnumSizes(sizes, es)[name] == sizes[name]
    decreases |es|
  {
    if es != [] {
      assert es[|es| - 1] in es && forall e <- es[..|es| - 1] :: e in es;
      EnumsKeep(sizes, es[..|es| - 1], name);
    }
  }

  lemma {:induction false} BitfieldsKeep(sizes: Sizes, bs: seq<Bitfield>, name: Bytes)
    requires name in sizes && name !in BitfieldNames(bs)
    ensures name in BitfieldSizes(sizes, bs) && BitfieldSizes(sizes, bs)[name] == sizes[name]
    decreases |bs|
  {
    if bs != [] {
      assert bs[|bs| - 1] in bs && forall b <- bs[..|bs| - 1] :: b in bs;
      BitfieldsKeep(sizes, bs[..|bs| - 1], name);
    }
  }

  lemma {:induction false} StructsKeep(sizes: Sizes, ss: seq<Struct>, name: Bytes)
    requires name in sizes && name !in StructNames(ss)
    ensures name in StructSizes(sizes, ss) && StructSizes(sizes, ss)[name] == sizes[name]
    decreases |ss|
  {
    if ss != [] {
      assert ss[|ss| - 1] in ss && forall d <- ss[..|ss| - 1] :: d in ss;
      StructsKeep(sizes, ss[..|ss| - 1], name);
    }
  }

  /** A built-in type that no revision declares has the octets of its C type after any revisions,
      whatever those declare over whatever types. */
  lemma {:induction false} BuiltinKeepsSize(ints: CInts, vs: seq<Revision>, name: Bytes)
    requires AreCTypes(ints) && name in INTEGERS && Undeclared(vs, name)
    ensures name in VisitAll(vs).sizes && VisitAll(vs).sizes[name] == ints(name).octets
    decreases |vs|
  {
    hide EnumSizes, BitfieldSizes, StructSizes, PlaceAll, SpanAfter, SpansAfter, AreCTypes;
    if vs == [] {
      SizesAreOctets(ints, name);
    } else {
      var init, v := vs[..|vs| - 1], vs[|vs| - 1];
      assert v in vs && forall u <- init :: u in vs;
      BuiltinKeepsSize(ints, init, name);
      var sizes := VisitAll(init).sizes;
      EnumsKeep(sizes, v.enums, name);
      BitfieldsKeep(EnumSizes(sizes, v.enums), v.bitfields, name);
      StructsKeep(BitfieldSizes(EnumSizes(sizes, v.enums), v.bitfields), v.structs, name);
    }
  }

  // ---------------------------------------------------------------- slots on x86_64

  predicate ByValue(p: Parameter) { p.direction.In? && p.ty.Named? }

  /** How many parameters go by value. */
  function ByValueCount(ps: seq<Parameter>): nat {
    if ps == [] then 0 else ByValueCount(ps[..|ps| - 1]) + if ByValue(ps[|ps| - 1]) then 1 else 0
  }

  /** Every by-value parameter has a built-in type. */
  predicate BuiltinArguments(vs: seq<Revision>, ps: seq<Parameter>) {
    forall p <- ps :: ByValue(p) ==> p.ty.name in INTEGERS && Undeclared(vs, p.ty.name)
  }

  /** All parameters go by value and there is a slot for each: four slots on x86_64. */
  predicate FitSlots(ps: seq<Parameter>) { |ps| <= 4 && forall p <- ps :: ByValue(p) }

  lemma FitSlotsIsInRegisters(ps: seq<Parameter>)
    ensures AllInRegisters(X86_64, ps) <==> FitSlots(ps)
  {
    assert forall p <- ps :: ClientTest(X86_64)(p) <==> ByValue(p);
  }

  lemma BuiltinsAreSettled(ints: CInts, vs: seq<Revision>, ps: seq<Parameter>)
    requires AreCTypes(ints) && BuiltinArguments(vs, ps)
    ensures Settled(X86_64, VisitAll(vs).sizes, ps)
  {
    hide VisitAll, AreCTypes, Undeclared, Split, InRegisters;
    var sizes := VisitAll(vs).sizes;
    forall i | 0 <= i < |ps| && PassedInSlot(X86_64, ps, i) ensures ServerScalar(X86_64, sizes, ps[i]) {
      SlotIsScalar(X86_64, ps, i);
      assert ps[i] in ps;
      SizesAreOctets(ints, ps[i].ty.name);
      BuiltinKeepsSize(ints, vs, ps[i].ty.name);
    }
  }

  /** The first two by-value parameters are peeled. */
  lemma {:induction false} PeeledInOrder(ps: seq<Parameter>, i: nat)
    requires i < |ps|
    ensures var peeled := PartsOf(X86_64, ps).peeled;
            && |peeled| == (if ByValueCount(ps) < 2 then ByValueCount(ps) else 2)
            && (i in peeled <==> ByValue(ps[i]) && ByValueCount(ps[..i]) < 2)
            && (i in peeled ==> ByValueCount(ps[..i]) < |peeled| && peeled[ByValueCount(ps[..i])] == i)
    decreases |ps|
  {
    hide Split, ByValueCount, ByValue, Increasing;
    var n := |ps| - 1;
    var init := ps[..n];
    var before := PartsOf(X86_64, init).peeled;
    if i < n {
      PeeledInOrder(init, i);
      assert init[i] == ps[i] && init[..i] == ps[..i];
    } else if n > 0 {
      PeeledInOrder(init, 0);
    } else {
      NothingPeeled(init);
    }
    PeeledStep(ps);
  }

  lemma NothingPeeled(ps: seq<Parameter>)
    requires ps == []
    ensures PartsOf(X86_64, ps).peeled == [] && ByValueCount(ps) == 0
  {
  }

  /** One more parameter is peeled when it goes by value and there is room. */
  lemma PeeledStep(ps: seq<Parameter>)
    requires ps != []
    ensures var n := |ps| - 1;
            var before, peels := PartsOf(X86_64, ps[..n]).peeled, ByValue(ps[n]);
            && ByValueCount(ps) == ByValueCount(ps[..n]) + (if peels then 1 else 0)
            && n !in before
            && PartsOf(X86_64, ps).peeled == if peels && |before| < 2 then before + [n] else before
  {
    hide Split, Increasing;
    var n := |ps| - 1;
    SplitIncreasing(ClientTest(X86_64), 2, ps[..n]);
    assert ClientTest(X86_64)(ps[n]) == (ps[n].direction.In? && ps[n].ty.Named?);
    assert ps[..n + 1] == ps;
    SplitStep(ClientTest(X86_64), 2, ps, n);
  }

  /** Where each by-value argument travels: if all parameters fit the four slots, argument i in slot i;
      otherwise the first two of them in slots 2 and 3, and every other argument behind a pointer. */
  lemma ArgumentSlots(ints: CInts, vs: seq<Revision>, ps: seq<Parameter>, i: nat)
    requires AreCTypes(ints) && BuiltinArguments(vs, ps) && i < |ps|
    ensures var slots, args, n := ClientStub(X86_64, ps).slots, ServerCase(X86_64, VisitAll(vs).sizes, ps).args,
              ByValueCount(ps[..i]);
            && |args| == |ps| && |slots| == (if FitSlots(ps) then |ps| else 4)
            && (FitSlots(ps) ==> slots[i] == WordOf(i) && args[i] == SlotValue(i, ps[i].ty))
            && (!FitSlots(ps) && ByValue(ps[i]) && n < 2 ==>
                  slots[2 + n] == WordOf(i) && args[i] == SlotValue(2 + n, ps[i].ty))
            && (!FitSlots(ps) && !(ByValue(ps[i]) && n < 2) ==> !args[i].SlotValue?)
  {
    hide VisitAll, AreCTypes, Split, Settled, FitSlots, InRegisters, ClientStub, ServerCase;
    BuiltinsAreSettled(ints, vs, ps);
    CaseOfParts(X86_64, VisitAll(vs).sizes, ps);
    FitSlotsIsInRegisters(ps);
    if FitSlots(ps) {
      RegisterStub(ps, i);
    } else {
      StagingSlots(X86_64, ps);
      PeeledInOrder(ps, i);
      var n := ByValueCount(ps[..i]);
      if i in PartsOf(X86_64, ps).peeled {
        PeelSlotAt(X86_64, ps, n);
        SplitPartitions(ClientTest(X86_64), 2, ps, i);
        PeeledOnce(ps, i);
      }
    }
  }

  lemma RegisterStub(ps: seq<Parameter>, i: nat)
    requires i < |ps| && FitSlots(ps)
    ensures |ClientStub(X86_64, ps).slots| == |ps| && ClientStub(X86_64, ps).slots[i] == WordOf(i)
    ensures ServerArg(true, PartsOf(X86_64, ps), ps, i) == SlotValue(i, ps[i].ty)
  {
    hide Split;
    FitSlotsIsInRegisters(ps);
    assert ps[i] in ps && ByValue(ps[i]);
  }

  lemma PeeledOnce(ps: seq<Parameter>, i: nat)
    requires i < |ps| && i in PartsOf(X86_64, ps).peeled
    ensures IndexOf(PartsOf(X86_64, ps).peeled, i) == ByValueCount(ps[..i])
  {
    PeeledInOrder(ps, i);
    SplitIncreasing(ClientTest(X86_64), 2, ps);
  }

  // ---------------------------------------------------------------- the call

  /** Called as C demands: values of the C types, addresses for pointers, distinct names. */
  predicate CalledInC(ints: CInts, ps: seq<Parameter>, args: seq<Value>) {
    && |args| == |ps|
    && (forall i :: 0 <= i < |ps| && (!ps[i].direction.In? || ps[i].ty.Ptr?) ==> IsAddress(X86_64, args[i]))
    && (forall i :: 0 <= i < |ps| && ByValue(ps[i]) ==> args[i].Word? && InRange(ints(ps[i].ty.name), args[i].n))
    && (forall i, j :: 0 <= i < j < |ps| ==> ps[i].name != ps[j].name)
  }

  /** Every call of a function whose by-value parameters have built-in types, in every interface that
      does not declare those names itself, meets the hypotheses of the delivery theorems on x86_64. */
  lemma BuiltinCallsAreReady(ints: CInts, vs: seq<Revision>, ps: seq<Parameter>, args: seq<Value>, fr: Frame)
    requires AreCTypes(ints) && BuiltinArguments(vs, ps) && CalledInC(ints, ps, args) && FrameFits(X86_64, fr, |ps|)
    ensures Ready(X86_64, VisitAll(vs).sizes, ints, ps, args, fr)
  {
    hide VisitAll, AreCTypes, Undeclared, Split, InRegisters, InRange, FrameFits, Settled, IsAddress;
    BuiltinsAreSettled(ints, vs, ps);
    forall i | 0 <= i < |ps| && PassedInSlot(X86_64, ps, i) && ps[i].ty.Named?
      ensures ByValue(ps[i]) && ints(ps[i].ty.name).octets <= 8
    {
      SlotIsScalar(X86_64, ps, i);
      assert ps[i] in ps;
      SizesAreOctets(ints, ps[i].ty.name);
    }
  }

  /** So the handler of such a function gets every argument but the OUT ones as the caller gave it. */
  lemma BuiltinCallsAreDelivered(
    ints: CInts, vs: seq<Revision>, ps: seq<Parameter>, args: seq<Value>, fr: Frame, m: Memory)
    requires AreCTypes(ints) && BuiltinArguments(vs, ps) && CalledInC(ints, ps, args) && FrameFits(X86_64, fr, |ps|)
    ensures var stub, c := ClientStub(X86_64, ps), ServerCase(X86_64, VisitAll(vs).sizes, ps);
            && AllBounded(c, |stub.slots|)
            && var slots, m1 := Slots(X86_64, stub.slots, args, fr), Prepared(stub, args, fr, m);
            && GuardsPass(X86_64, c, slots)
            && |Arguments(X86_64, ints, c, slots, m1)| == |ps|
            && forall i :: 0 <= i < |ps| && !ps[i].direction.Out? ==>
                 Arguments(X86_64, ints, c, slots, m1)[i] == args[i]
  {
    hide VisitAll, AreCTypes, BuiltinArguments, Split, InRegisters, InRange, FrameFits, Settled, WellCalled, ServerCase,
         ClientStub, Arguments, GuardsPass, AllBounded, Slots, Prepared, CalledInC;
    BuiltinCallsAreReady(ints, vs, ps, args, fr);
    Delivery(X86_64, VisitAll(vs).sizes, ints, ps, args, fr, m);
    assert WellCalled(X86_64, ints, ps, args);
  }
}
