/** A semantics of the emitted stubs over words, addresses and memory, and the proof that what the
    client stub sends is what the server's handler receives. The call itself is assumed to deliver
    its slots unchanged; nothing of the kernel is part of this model. */
module CallSemantics {
  import opened Octets
  import opened Ast
  import opened MachineWords
  import opened CallPlans

  // ---------------------------------------------------------------- agreement of the two plans

  /** The client passes the parameter by value in a register slot. */
  predicate PassedInSlot(a: Arch, ps: seq<Parameter>, i: nat)
    requires Accepted(a) && i < |ps|
  {
    InRegisters(ClientTest(a), SlotCount(a), ps) || i in Split(ClientTest(a), PeelCount(a), ps).peeled
  }

  /** Every parameter that the client passes in a slot has a size of 1 to `pointerSize` octets on
      the server. */
  predicate Settled(a: Arch, sizes: Sizes, ps: seq<Parameter>)
    requires Accepted(a)
  {
    forall i :: 0 <= i < |ps| && PassedInSlot(a, ps, i) ==> ServerScalar(a, sizes, ps[i])
  }

  predicate SameClassification(a: Arch, sizes: Sizes, ps: seq<Parameter>)
    requires Accepted(a)
  {
    && Split(ClientTest(a), PeelCount(a), ps) == Split(ServerTest(a, sizes), PeelCount(a), ps)
    && (InRegisters(ClientTest(a), SlotCount(a), ps) <==> InRegisters(ServerTest(a, sizes), SlotCount(a), ps))
  }

  lemma {:induction false} SplitAgrees(a: Arch, sizes: Sizes, k: nat, ps: seq<Parameter>)
    requires forall i <- Split(ClientTest(a), k, ps).peeled :: i < |ps| ==> ServerScalar(a, sizes, ps[i])
    ensures Split(ClientTest(a), k, ps) == Split(ServerTest(a, sizes), k, ps)
    decreases |ps|
  {
    if ps != [] {
      var n := |ps| - 1;
      var r := Split(ClientTest(a), k, ps[..n]);
      assert r.peeled <= Split(ClientTest(a), k, ps).peeled;
      forall i | i in r.peeled && i < n ensures ServerScalar(a, sizes, ps[..n][i]) {}
      SplitAgrees(a, sizes, k, ps[..n]);
      if ClientScalar(a, ps[n]) && |r.peeled| < k {
        assert Split(ClientTest(a), k, ps).peeled[|r.peeled|] == n;
      }
    }
  }

  /** The two generators classify alike exactly when every parameter that the client passes in a
      slot resolves on the server. */
  lemma ClassificationAgreesIffSettled(a: Arch, sizes: Sizes, ps: seq<Parameter>)
    requires Accepted(a)
    ensures SameClassification(a, sizes, ps) <==> Settled(a, sizes, ps)
  {
    var client := Split(ClientTest(a), PeelCount(a), ps);
    if Settled(a, sizes, ps) {
      forall i | i in client.peeled && i < |ps| ensures ServerScalar(a, sizes, ps[i]) {
        assert PassedInSlot(a, ps, i);
      }
      SplitAgrees(a, sizes, PeelCount(a), ps);
      if InRegisters(ClientTest(a), SlotCount(a), ps) {
        forall p | p in ps ensures ServerScalar(a, sizes, p) {
          var i :| 0 <= i < |ps| && ps[i] == p;
          assert PassedInSlot(a, ps, i);
        }
      }
    }
    if SameClassification(a, sizes, ps) {
      forall i | 0 <= i < |ps| && PassedInSlot(a, ps, i) ensures ServerScalar(a, sizes, ps[i]) {
        if i in client.peeled {
          var j :| 0 <= j < |client.peeled| && client.peeled[j] == i;
        } else {
          assert ServerTest(a, sizes)(ps[i]);
        }
      }
    }
  }

  // ---------------------------------------------------------------- values and memory

  /** A C object: a number or an address, or an aggregate that is only ever copied. */
  datatype Value = Word(n: int) | Blob(octets: Bytes)

  /** One cell an object; struct members follow each other. */
  type Memory = map<nat, Value>

  function Load(m: Memory, at: nat): Value { if at in m then m[at] else Word(0) }

  function StoreAll(m: Memory, at: nat, vs: seq<Value>): (r: Memory)
    ensures forall j :: 0 <= j < |vs| ==> Load(r, at + j) == vs[j]
    ensures forall x: nat :: !(at <= x < at + |vs|) ==> Load(r, x) == Load(m, x)
    decreases |vs|
  {
    if vs == [] then m
    else
      var n := |vs| - 1;
      StoreAll(m, at, vs[..n])[at + n := vs[n]]
  }

  /** Stores `vs[j]` at the address `at[j]`. */
  function StoreEach(m: Memory, at: seq<nat>, vs: seq<Value>): (r: Memory)
    ensures forall x: nat :: x !in at ==> Load(r, x) == Load(m, x)
    ensures |at| == |vs| && Distinct(at) ==> forall j :: 0 <= j < |at| ==> Load(r, at[j]) == vs[j]
    decreases |at|
  {
    if at == [] || |at| != |vs| then m
    else
      var n := |at| - 1;
      StoreEach(m, at[..n], vs[..n])[at[n] := vs[n]]
  }

  predicate Distinct(xs: seq<nat>) { forall i, j :: 0 <= i < j < |xs| ==> xs[i] != xs[j] }

  /** Where the C compiler put `in`, `out` and each parameter of the stub. */
  datatype Frame = Frame(inAt: nat, outAt: nat, params: seq<nat>)

  /** Integer types of the named C types. */
  type CInts = Bytes -> CInt

  predicate Apart(x: nat, y: nat, n: nat) { x + n <= y || y + n <= x }

  predicate FrameFits(a: Arch, fr: Frame, n: nat) {
    && 0 < fr.inAt && 0 < fr.outAt && |fr.params| == n && Distinct(fr.params)
    && fr.inAt + n < Pow256(a.pointerSize) && fr.outAt + n < Pow256(a.pointerSize)
    && Apart(fr.inAt, fr.outAt, n)
    && forall x <- fr.params ::
         0 < x < Pow256(a.pointerSize) && !(fr.inAt <= x < fr.inAt + n) && !(fr.outAt <= x < fr.outAt + n)
  }

  predicate InFrame(fr: Frame, n: nat, x: nat) {
    fr.inAt <= x < fr.inAt + n || fr.outAt <= x < fr.outAt + n || x in fr.params
  }

  predicate IsAddress(a: Arch, v: Value) { v.Word? && 0 <= v.n < Pow256(a.pointerSize) }

  /** The stub is called as C demands: one value a parameter, pointers for everything that is a
      pointer, and distinct names. By-value parameters in slots are integers no wider than a word. */
  predicate WellCalled(a: Arch, ints: CInts, ps: seq<Parameter>, args: seq<Value>)
    requires Accepted(a)
  {
    && |args| == |ps|
    && (forall i :: 0 <= i < |ps| && (!ps[i].direction.In? || ps[i].ty.Ptr?) ==> IsAddress(a, args[i]))
    && (forall i :: 0 <= i < |ps| && PassedInSlot(a, ps, i) && ps[i].ty.Named? ==>
          && ints(ps[i].ty.name).octets <= a.pointerSize
          && args[i].Word? && InRange(ints(ps[i].ty.name), args[i].n))
    && (forall i, j :: 0 <= i < j < |ps| ==> ps[i].name != ps[j].name)
  }

  // ---------------------------------------------------------------- the client stub

  /** The number put into a slot. */
  function SlotContent(e: SlotExpr, args: seq<Value>, fr: Frame): int {
    match e
    case WordOf(i) => if i < |args| && args[i].Word? then args[i].n else 0
    case PointerOf(i) => if i < |args| && args[i].Word? then args[i].n else 0
    case AddressOf(i) => if i < |fr.params| then fr.params[i] else 0
    case AddressOfIn => fr.inAt
    case AddressOfOut => fr.outAt
    case Zero => 0
  }

  /** The slots as `const long args[]` of the server. */
  function Slots(a: Arch, es: seq<SlotExpr>, args: seq<Value>, fr: Frame): (r: seq<int>)
    ensures |r| == |es|
    ensures forall j :: 0 <= j < |es| ==> r[j] == Delivered(SlotContent(es[j], args, fr), a.pointerSize)
  {
    if es == [] then []
    else
      var n := |es| - 1;
      Slots(a, es[..n], args, fr) + [Delivered(SlotContent(es[n], args, fr), a.pointerSize)]
  }

  function Chosen(args: seq<Value>, positions: seq<nat>): (r: seq<Value>)
    ensures |r| == |positions|
    ensures forall j :: 0 <= j < |r| && positions[j] < |args| ==> r[j] == args[positions[j]]
  {
    if positions == [] then []
    else
      var n := |positions| - 1;
      Chosen(args, positions[..n]) + [if positions[n] < |args| then args[positions[n]] else Word(0)]
  }

  /** Memory at the time of the call: the parameters, and the initialised `in`. */
  function Prepared(stub: Stub, args: seq<Value>, fr: Frame, m: Memory): Memory {
    StoreAll(StoreEach(m, fr.params, args), fr.inAt, Chosen(args, stub.values))
  }

  /** The position of a member. */
  function Offset(members: seq<Member>, name: Bytes): (j: nat)
    ensures j <= |members|
    ensures j < |members| ==> members[j].name == name
    ensures forall k :: 0 <= k < j ==> members[k].name != name
  {
    if members == [] || members[0].name == name then 0 else 1 + Offset(members[1..], name)
  }

  /** The address passed for an OUT parameter, 0 for NULL. */
  function Destination(args: seq<Value>, i: nat): nat {
    if i < |args| && args[i].Word? && args[i].n > 0 then args[i].n else 0
  }

  function SourceOf(stub: Stub, c: Copy, fr: Frame): nat {
    match c
    case CopyOut(_) => fr.outAt
    case CopyMember(_, name) => fr.outAt + Offset(stub.outs, name)
  }

  /** The copies back, in order. */
  function CopyBack(stub: Stub, copies: seq<Copy>, args: seq<Value>, fr: Frame, m: Memory): Memory {
    if copies == [] then m
    else
      var n := |copies| - 1;
      var r := CopyBack(stub, copies[..n], args, fr, m);
      var to := Destination(args, copies[n].i);
      if to == 0 then r else r[to := Load(r, SourceOf(stub, copies[n], fr))]
  }

  // ---------------------------------------------------------------- the dispatch case

  predicate Bounded(e: ArgExpr, n: nat) {
    match e
    case SlotValue(j, _) => j < n
    case SlotPointer(j) => j < n
    case SlotLoad(j) => j < n
    case InMember(_) => 0 < n
    case OutMember(_) => 1 < n
  }

  function Pointer(a: Arch, w: int): nat { ToUnsigned(w, a.pointerSize) }

  function IntOf(ints: CInts, ty: Type): CInt {
    match ty
    case Named(_, name) => ints(name)
    case _ => CInt(0, false)
  }

  /** One decoded argument. */
  function Argument(a: Arch, ints: CInts, c: DispatchCase, e: ArgExpr, slots: seq<int>, m: Memory): Value
    requires Bounded(e, |slots|)
  {
    match e
    case SlotValue(j, ty) => Word(Convert(IntOf(ints, ty), slots[j]))
    case SlotPointer(j) => Word(Pointer(a, slots[j]))
    case SlotLoad(j) => Load(m, Pointer(a, slots[j]))
    case InMember(name) => Load(m, Pointer(a, slots[0]) + Offset(c.ins, name))
    case OutMember(name) => Word(Pointer(a, slots[1]) + Offset(c.outs, name))
  }

  predicate AllBounded(c: DispatchCase, n: nat) {
    && (forall j :: 0 <= j < |c.args| ==> Bounded(c.args[j], n))
    && (c.guardIn ==> 0 < n) && (c.guardOut ==> 1 < n)
  }

  function Arguments(a: Arch, ints: CInts, c: DispatchCase, slots: seq<int>, m: Memory): (r: seq<Value>)
    requires AllBounded(c, |slots|)
    ensures |r| == |c.args|
    ensures forall j :: 0 <= j < |r| ==> r[j] == Argument(a, ints, c, c.args[j], slots, m)
  {
    seq(|c.args|, j requires 0 <= j < |c.args| => Argument(a, ints, c, c.args[j], slots, m))
  }

  /** A status, success or not, and the memory it leaves. */
  datatype Outcome = Outcome(ok: bool, memory: Memory)

  /** The implementation behind the vtable entry: any function of its arguments and of memory. */
  type Handler = (seq<Value>, Memory) -> Outcome

  predicate GuardsPass(a: Arch, c: DispatchCase, slots: seq<int>)
    requires AllBounded(c, |slots|)
  {
    (c.guardIn ==> Pointer(a, slots[0]) != 0) && (c.guardOut ==> Pointer(a, slots[1]) != 0)
  }

  function Dispatch(a: Arch, ints: CInts, c: DispatchCase, slots: seq<int>, m: Memory, h: Handler): Outcome
    requires AllBounded(c, |slots|)
  {
    if !GuardsPass(a, c, slots) then Outcome(false, m) else h(Arguments(a, ints, c, slots, m), m)
  }

  /** The stub from its entry to its return, once the handle has been queried. */
  function Call(
    a: Arch, ints: CInts, stub: Stub, c: DispatchCase, args: seq<Value>, fr: Frame, m: Memory, h: Handler): Outcome
    requires AllBounded(c, |stub.slots|)
  {
    var o := Dispatch(a, ints, c, Slots(a, stub.slots, args, fr), Prepared(stub, args, fr, m), h);
    if o.ok then Outcome(true, CopyBack(stub, stub.copies, args, fr, o.memory)) else o
  }

  // ---------------------------------------------------------------- what the handler is to receive

  function PartsOf(a: Arch, ps: seq<Parameter>): Parts
    requires Accepted(a)
  {
    Split(ClientTest(a), PeelCount(a), ps)
  }

  /** Where the handler writes OUT parameter `i`: a staging cell, except for a lone pointer-typed one,
      which it writes at its destination. */
  function OutCell(a: Arch, ps: seq<Parameter>, args: seq<Value>, fr: Frame, i: nat): nat
    requires Accepted(a) && i < |ps| == |args| && IsAddress(a, args[i])
  {
    if |PartsOf(a, ps).outs| > 1 then fr.outAt + Offset(ClientStub(a, ps).outs, ps[i].name)
    else if ps[i].ty.Ptr? then args[i].n
    else fr.outAt
  }

  /** The caller's IN and INOUT arguments in order, and the cells for the OUT ones. */
  predicate Received(a: Arch, ps: seq<Parameter>, args: seq<Value>, fr: Frame, i: nat, v: Value)
    requires Accepted(a) && i < |ps| == |args|
    requires ps[i].direction.Out? ==> IsAddress(a, args[i])
  {
    v == if ps[i].direction.Out? then Word(OutCell(a, ps, args, fr, i)) else args[i]
  }

  // ---------------------------------------------------------------- delivery

  /** The member of a parameter stands at its position, when names are distinct. */
  lemma OffsetIsPosition(ps: seq<Parameter>, f: Parameter -> Member, positions: seq<nat>, i: nat)
    requires Within(positions, ps) && i in positions && i < |ps|
    requires forall p :: f(p).name == p.name
    requires forall j, k :: 0 <= j < k < |ps| ==> ps[j].name != ps[k].name
    ensures var at := Offset(Select(ps, f, positions), ps[i].name);
            at < |positions| && positions[at] == i
  {
    var members := Select(ps, f, positions);
    var at := Offset(members, ps[i].name);
    var j :| 0 <= j < |positions| && positions[j] == i;
    assert members[j].name == ps[i].name;
    assert at <= j;
    assert members[at] == f(ps[positions[at]]);
  }

  lemma MembersAgree(ps: seq<Parameter>, parts: Parts)
    requires Within(parts.ins, ps) && Within(parts.outs, ps)
    requires forall j :: 0 <= j < |parts.ins| ==> !ps[parts.ins[j]].direction.Out?
    requires forall j :: 0 <= j < |parts.outs| ==> ps[parts.outs[j]].direction.Out?
    ensures Select(ps, ClientMember, parts.ins) == Select(ps, ServerInMember, parts.ins)
    ensures Select(ps, ClientMember, parts.outs) == Select(ps, ServerOutMember, parts.outs)
  {
    hide Select;
  }

  /** The structures that client and server declare agree in names, types and order. */
  lemma StructuresAgree(a: Arch, sizes: Sizes, ps: seq<Parameter>)
    requires Accepted(a) && Settled(a, sizes, ps)
    ensures var stub, c := ClientStub(a, ps), ServerCase(a, sizes, ps);
            stub.ins == c.ins && (|PartsOf(a, ps).outs| > 1 ==> stub.outs == c.outs)
  {
    hide Select, Split, InRegisters, Settled;
    ClassificationAgreesIffSettled(a, sizes, ps);
    MembersAgree(ps, PartsOf(a, ps));
  }

  /** The setting of the delivery theorems. From `maxRegArgs == 5` on, a `CallN` has peeled slots. */
  predicate Ready(a: Arch, sizes: Sizes, ints: CInts, ps: seq<Parameter>, args: seq<Value>, fr: Frame) {
    && a.maxRegArgs >= 5 && Settled(a, sizes, ps) && WellCalled(a, ints, ps, args)
    && FrameFits(a, fr, |ps|)
  }

  predicate AllInRegisters(a: Arch, ps: seq<Parameter>)
    requires Accepted(a)
  {
    InRegisters(ClientTest(a), SlotCount(a), ps)
  }

  /** The dispatch case in terms of the client's classification. */
  lemma CaseOfParts(a: Arch, sizes: Sizes, ps: seq<Parameter>)
    requires Accepted(a) && Settled(a, sizes, ps)
    ensures var parts, c := PartsOf(a, ps), ServerCase(a, sizes, ps);
            && |c.args| == |ps|
            && (forall i :: 0 <= i < |ps| ==> c.args[i] == ServerArg(AllInRegisters(a, ps), parts, ps, i))
            && (c.guardIn <==> !AllInRegisters(a, ps) &&
                               (|parts.ins| > 1 || (|parts.ins| == 1 && !ps[parts.ins[0]].ty.Ptr?)))
            && (c.guardOut <==> !AllInRegisters(a, ps) && |parts.outs| > 1)
  {
    hide Select, Split, InRegisters, Settled, ServerArg;
    ClassificationAgreesIffSettled(a, sizes, ps);
  }

  lemma CaseBounded(a: Arch, sizes: Sizes, ps: seq<Parameter>)
    requires a.maxRegArgs >= 5 && Settled(a, sizes, ps)
    ensures |ClientStub(a, ps).slots| <= SlotCount(a)
    ensures AllBounded(ServerCase(a, sizes, ps), |ClientStub(a, ps).slots|)
  {
    hide Select, Split, Settled, ServerCase;
    CaseOfParts(a, sizes, ps);
  }

  /** Everything is passed in registers: each argument comes back from its own slot. */
  lemma RegisterDelivered(
    a: Arch, sizes: Sizes, ints: CInts, ps: seq<Parameter>, args: seq<Value>, fr: Frame, m: Memory, i: nat)
    requires Ready(a, sizes, ints, ps, args, fr) && i < |ps| && AllInRegisters(a, ps)
    ensures var stub, e := ClientStub(a, ps), ServerArg(true, PartsOf(a, ps), ps, i);
            && Bounded(e, |stub.slots|)
            && Received(a, ps, args, fr, i,
                 Argument(a, ints, ServerCase(a, sizes, ps), e, Slots(a, stub.slots, args, fr), m))
  {
    hide Select, Split, Convert, Delivered, InRange, ServerCase, FrameFits;
    assert ClientScalar(a, ps[i]) && PassedInSlot(a, ps, i);
    NarrowRoundTrip(ints(ps[i].ty.name), args[i].n, a.pointerSize);
  }

  /** What the stub of a `CallN` has in its first two slots. */
  lemma StagingSlots(a: Arch, ps: seq<Parameter>)
    requires Accepted(a) && !AllInRegisters(a, ps)
    ensures var stub, parts := ClientStub(a, ps), PartsOf(a, ps);
            && |stub.slots| == 2 + PeelCount(a)
            && stub.slots[0] == InSlot(ps, parts.ins) && stub.slots[1] == OutSlot(ps, parts.outs)
            && (|parts.ins| > 1 ==> stub.values == parts.ins)
            && (|parts.ins| <= 1 ==> stub.values == [])
  {
    hide Select, Split, InSlot, OutSlot, MemberCopies, InRegisters;
  }

  lemma PeelSlotAt(a: Arch, ps: seq<Parameter>, j: nat)
    requires Accepted(a) && !AllInRegisters(a, ps) && j < |PartsOf(a, ps).peeled|
    ensures 2 + j < |ClientStub(a, ps).slots| && ClientStub(a, ps).slots[2 + j] == WordOf(PartsOf(a, ps).peeled[j])
  {
    hide Select, Split, InSlot, OutSlot, MemberCopies, InRegisters;
  }

  /** A peeled argument comes back from the slot of its position among the peeled ones. */
  lemma PeeledDelivered(
    a: Arch, sizes: Sizes, ints: CInts, ps: seq<Parameter>, args: seq<Value>, fr: Frame, m: Memory, i: nat)
    requires Ready(a, sizes, ints, ps, args, fr) && i < |ps|
    requires !AllInRegisters(a, ps) && i in PartsOf(a, ps).peeled
    ensures var stub, e := ClientStub(a, ps), ServerArg(false, PartsOf(a, ps), ps, i);
            && Bounded(e, |stub.slots|)
            && Received(a, ps, args, fr, i,
                 Argument(a, ints, ServerCase(a, sizes, ps), e, Slots(a, stub.slots, args, fr), m))
  {
    hide Split, Convert, Delivered, InRange, ServerCase, FrameFits, ClientStub, InRegisters, OutCell;
    var parts := PartsOf(a, ps);
    var j := IndexOf(parts.peeled, i);
    assert ClientTest(a)(ps[parts.peeled[j]]);
    assert PassedInSlot(a, ps, i);
    PeelSlotAt(a, ps, j);
    NarrowRoundTrip(ints(ps[i].ty.name), args[i].n, a.pointerSize);
  }

  /** The addresses in a frame go through a slot unchanged. */
  lemma FrameAddresses(a: Arch, fr: Frame, n: nat)
    requires FrameFits(a, fr, n)
    ensures Pointer(a, Delivered(fr.inAt, a.pointerSize)) == fr.inAt
    ensures Pointer(a, Delivered(fr.outAt, a.pointerSize)) == fr.outAt
    ensures |fr.params| == n
    ensures forall i :: 0 <= i < n ==> Pointer(a, Delivered(fr.params[i], a.pointerSize)) == fr.params[i]
  {
    hide Delivered, ToUnsigned, Pow256;
    AddressRoundTrip(fr.inAt, a.pointerSize);
    AddressRoundTrip(fr.outAt, a.pointerSize);
    forall i | 0 <= i < n
      ensures ToUnsigned(Delivered(fr.params[i], a.pointerSize), a.pointerSize) == fr.params[i]
    {
      assert fr.params[i] in fr.params;
      AddressRoundTrip(fr.params[i], a.pointerSize);
    }
  }

  /** Building `in` leaves the parameters in place. */
  lemma PreparedCells(ps: seq<Parameter>, stub: Stub, args: seq<Value>, fr: Frame, m: Memory, a: Arch)
    requires FrameFits(a, fr, |ps|) && |args| == |ps| && |stub.values| <= |ps|
    requires Within(stub.values, ps)
    ensures forall i :: 0 <= i < |ps| ==> Load(Prepared(stub, args, fr, m), fr.params[i]) == args[i]
    ensures forall j :: 0 <= j < |stub.values| ==>
              Load(Prepared(stub, args, fr, m), fr.inAt + j) == args[stub.values[j]]
    ensures forall x: nat :: !InFrame(fr, |ps|, x) ==> Load(Prepared(stub, args, fr, m), x) == Load(m, x)
  {
    hide StoreAll, StoreEach, Chosen, Load;
    var m1 := StoreEach(m, fr.params, args);
    var vs := Chosen(args, stub.values);
    var m2 := StoreAll(m1, fr.inAt, vs);
    forall i | 0 <= i < |ps| ensures Load(m2, fr.params[i]) == args[i] {
      assert fr.params[i] in fr.params;
      assert Load(m2, fr.params[i]) == Load(m1, fr.params[i]);
    }
    forall j | 0 <= j < |stub.values| ensures Load(m2, fr.inAt + j) == args[stub.values[j]] {
      assert Load(m2, fr.inAt + j) == vs[j];
    }
    forall x: nat | !InFrame(fr, |ps|, x) ensures Load(m2, x) == Load(m, x) {
      assert Load(m2, x) == Load(m1, x);
    }
  }

  lemma {:induction false} SplitSizes(scalar: Test, k: nat, ps: seq<Parameter>)
    ensures var r := Split(scalar, k, ps); |r.peeled| + |r.ins| + |r.outs| == |ps|
    decreases |ps|
  {
    if ps != [] { SplitSizes(scalar, k, ps[..|ps| - 1]); }
  }

  /** A staged IN or INOUT argument is found through the `in` pointer. */
  lemma StagedDelivered(
    a: Arch, sizes: Sizes, ints: CInts, ps: seq<Parameter>, args: seq<Value>, fr: Frame, m: Memory, i: nat)
    requires Ready(a, sizes, ints, ps, args, fr) && i < |ps| && !AllInRegisters(a, ps)
    requires i !in PartsOf(a, ps).peeled && !ps[i].direction.Out?
    ensures var stub, e := ClientStub(a, ps), ServerArg(false, PartsOf(a, ps), ps, i);
            && Bounded(e, |stub.slots|)
            && Received(a, ps, args, fr, i,
                 Argument(a, ints, ServerCase(a, sizes, ps), e, Slots(a, stub.slots, args, fr), Prepared(stub, args, fr, m)))
  {
    hide Split, Delivered, InRange, Settled, FrameFits, InRegisters, PeelSlots, MemberCopies, Prepared, Pointer, Load,
         Slots, Select, Offset, ServerCase, ClientStub;
    var parts, stub := PartsOf(a, ps), ClientStub(a, ps);
    SplitPartitions(ClientTest(a), PeelCount(a), ps, i);
    SplitSizes(ClientTest(a), PeelCount(a), ps);
    StagingSlots(a, ps);
    FrameAddresses(a, fr, |ps|);
    PreparedCells(ps, stub, args, fr, m, a);
    if |parts.ins| == 1 {
      assert parts.ins[0] == i;
      if ps[i].ty.Ptr? { AddressArgument(a, args[i]); }
    } else {
      MemberPosition(a, sizes, ps, i);
    }
  }

  lemma MemberPosition(a: Arch, sizes: Sizes, ps: seq<Parameter>, i: nat)
    requires Accepted(a) && Settled(a, sizes, ps) && !AllInRegisters(a, ps) && i < |ps|
    requires |PartsOf(a, ps).ins| > 1 && i in PartsOf(a, ps).ins
    requires forall j, k :: 0 <= j < k < |ps| ==> ps[j].name != ps[k].name
    ensures var ins := PartsOf(a, ps).ins;
            var at := Offset(ServerCase(a, sizes, ps).ins, ps[i].name);
            at < |ins| && ins[at] == i
  {
    hide Split, Settled, InRegisters, Select, Offset, MemberCopies, PeelSlots, ServerArgs;
    ClassificationAgreesIffSettled(a, sizes, ps);
    OffsetIsPosition(ps, ServerInMember, PartsOf(a, ps).ins, i);
  }

  lemma AddressArgument(a: Arch, v: Value)
    requires IsAddress(a, v)
    ensures Pointer(a, Delivered(v.n, a.pointerSize)) == v.n
  {
    hide Delivered, ToUnsigned;
    AddressRoundTrip(v.n, a.pointerSize);
  }

  /** The handler is given the cell of an OUT argument. */
  lemma OutDelivered(
    a: Arch, sizes: Sizes, ints: CInts, ps: seq<Parameter>, args: seq<Value>, fr: Frame, m: Memory, i: nat)
    requires Ready(a, sizes, ints, ps, args, fr) && i < |ps| && !AllInRegisters(a, ps)
    requires ps[i].direction.Out?
    ensures var stub, e := ClientStub(a, ps), ServerArg(false, PartsOf(a, ps), ps, i);
            && Bounded(e, |stub.slots|)
            && Received(a, ps, args, fr, i,
                 Argument(a, ints, ServerCase(a, sizes, ps), e, Slots(a, stub.slots, args, fr), m))
  {
    hide Split, Delivered, InRange, Settled, FrameFits, InRegisters, PeelSlots, MemberCopies, Prepared,
         Pointer, Load, Slots, Select, Offset, ServerCase;
    var parts, stub := PartsOf(a, ps), ClientStub(a, ps);
    SplitPartitions(ClientTest(a), PeelCount(a), ps, i);
    StagingSlots(a, ps);
    FrameAddresses(a, fr, |ps|);
    AddressArgument(a, args[i]);
    if |parts.outs| == 1 {
      assert parts.outs[0] == i;
    } else {
      StructuresAgree(a, sizes, ps);
    }
  }

  lemma GuardsPassed(
    a: Arch, sizes: Sizes, ints: CInts, ps: seq<Parameter>, args: seq<Value>, fr: Frame)
    requires Ready(a, sizes, ints, ps, args, fr)
    ensures AllBounded(ServerCase(a, sizes, ps), |ClientStub(a, ps).slots|)
    ensures GuardsPass(a, ServerCase(a, sizes, ps), Slots(a, ClientStub(a, ps).slots, args, fr))
  {
    hide Split, Delivered, Settled, FrameFits, InRegisters, PeelSlots, MemberCopies, Pointer, Slots, Select,
         ServerCase, ClientStub, AllBounded;
    CaseBounded(a, sizes, ps);
    CaseOfParts(a, sizes, ps);
    if !AllInRegisters(a, ps) {
      StagingSlots(a, ps);
      FrameAddresses(a, fr, |ps|);
      FrameNonNull(a, fr, |ps|);
    }
  }

  lemma FrameNonNull(a: Arch, fr: Frame, n: nat)
    requires FrameFits(a, fr, n)
    ensures fr.inAt != 0 && fr.outAt != 0 && forall i :: 0 <= i < n ==> fr.params[i] != 0
  {
    assert forall i :: 0 <= i < n ==> fr.params[i] in fr.params;
  }

  /** Delivery: the server reads only slots that exist and that the client filled, its guards let the
      frame pass, and the handler gets the caller's IN and INOUT arguments, and a cell for each OUT
      argument, in declaration order. */
  lemma Delivery(
    a: Arch, sizes: Sizes, ints: CInts, ps: seq<Parameter>, args: seq<Value>, fr: Frame, m: Memory)
    requires Ready(a, sizes, ints, ps, args, fr)
    ensures var stub, c := ClientStub(a, ps), ServerCase(a, sizes, ps);
            && |stub.slots| <= SlotCount(a) && AllBounded(c, |stub.slots|)
            && var slots, m1 := Slots(a, stub.slots, args, fr), Prepared(stub, args, fr, m);
            && GuardsPass(a, c, slots)
            && |Arguments(a, ints, c, slots, m1)| == |ps|
            && forall i :: 0 <= i < |ps| ==> Received(a, ps, args, fr, i, Arguments(a, ints, c, slots, m1)[i])
  {
    hide Split, Settled, FrameFits, InRegisters, Prepared, Slots, ServerCase, ClientStub, Argument, ServerArg,
         Received, GuardsPass, Bounded, Arguments;
    CaseBounded(a, sizes, ps);
    CaseOfParts(a, sizes, ps);
    GuardsPassed(a, sizes, ints, ps, args, fr);
    var stub, c := ClientStub(a, ps), ServerCase(a, sizes, ps);
    var slots, m1 := Slots(a, stub.slots, args, fr), Prepared(stub, args, fr, m);
    forall i | 0 <= i < |ps| ensures Received(a, ps, args, fr, i, Arguments(a, ints, c, slots, m1)[i]) {
      if AllInRegisters(a, ps) {
        RegisterDelivered(a, sizes, ints, ps, args, fr, m1, i);
      } else if ps[i].direction.Out? {
        OutDelivered(a, sizes, ints, ps, args, fr, m1, i);
      } else if i in PartsOf(a, ps).peeled {
        PeeledDelivered(a, sizes, ints, ps, args, fr, m1, i);
      } else {
        StagedDelivered(a, sizes, ints, ps, args, fr, m, i);
      }
    }
  }

  // ---------------------------------------------------------------- copying back

  /** The handler writes OUT parameter `i` into a cell of the stub, not to its destination. */
  predicate Staged(a: Arch, ps: seq<Parameter>, i: nat)
    requires Accepted(a) && i < |ps|
  {
    ps[i].direction.Out? && (|PartsOf(a, ps).outs| > 1 || !ps[i].ty.Ptr?)
  }

  /** Destinations that the caller gave lie outside the stub's frame. */
  predicate OutsideFrame(ps: seq<Parameter>, args: seq<Value>, fr: Frame) {
    forall i :: 0 <= i < |ps| && ps[i].direction.Out? ==> !InFrame(fr, |ps|, Destination(args, i))
  }

  /** `i` is the last of the staged OUT parameters for which the caller passed its destination. */
  ghost predicate LastInto(a: Arch, ps: seq<Parameter>, args: seq<Value>, i: nat)
    requires Accepted(a) && i < |ps|
  {
    && Staged(a, ps, i) && Destination(args, i) != 0
    && forall j :: i < j < |ps| && Staged(a, ps, j) ==> Destination(args, j) != Destination(args, i)
  }

  /** None of the copies writes the cell. */
  ghost predicate Untouched(copies: seq<Copy>, args: seq<Value>, x: nat) {
    forall j :: 0 <= j < |copies| && Destination(args, copies[j].i) != 0 ==> Destination(args, copies[j].i) != x
  }

  lemma {:induction false} CopyBackElsewhere(
    stub: Stub, copies: seq<Copy>, args: seq<Value>, fr: Frame, m: Memory, x: nat)
    requires Untouched(copies, args, x)
    ensures Load(CopyBack(stub, copies, args, fr, m), x) == Load(m, x)
    decreases |copies|
  {
    hide Destination, SourceOf;
    if copies != [] {
      var n := |copies| - 1;
      assert Untouched(copies[..n], args, x);
      CopyBackElsewhere(stub, copies[..n], args, fr, m, x);
    }
  }

  lemma {:induction false} CopyBackAt(stub: Stub, copies: seq<Copy>, args: seq<Value>, fr: Frame, m: Memory, j: nat)
    requires j < |copies| && Destination(args, copies[j].i) != 0
    requires Untouched(copies[..j], args, SourceOf(stub, copies[j], fr))
    requires Untouched(copies[j + 1..], args, Destination(args, copies[j].i))
    ensures Load(CopyBack(stub, copies, args, fr, m), Destination(args, copies[j].i)) ==
            Load(m, SourceOf(stub, copies[j], fr))
    decreases |copies|
  {
    hide Destination, SourceOf;
    var n := |copies| - 1;
    if j == n {
      CopyBackElsewhere(stub, copies[..n], args, fr, m, SourceOf(stub, copies[j], fr));
    } else {
      var init := copies[..n];
      assert init[..j] == copies[..j];
      assert init[j + 1..] == copies[j + 1..][..n - j - 1];
      CopyBackAt(stub, init, args, fr, m, j);
      assert copies[j + 1..][n - j - 1] == copies[n];
    }
  }

  lemma RegistersHaveNoOuts(a: Arch, ps: seq<Parameter>)
    requires Accepted(a)
    ensures AllInRegisters(a, ps) ==> PartsOf(a, ps).outs == []
  {
    var outs := PartsOf(a, ps).outs;
    if outs != [] {
      var p := ps[outs[0]];
      assert p in ps && !ClientTest(a)(p);
    }
  }

  /** Copy `j` of a stub moves the cell of OUT parameter `outs[j]` to its destination. */
  lemma CopyOfStub(a: Arch, ps: seq<Parameter>, args: seq<Value>, fr: Frame, j: nat)
    requires Accepted(a) && |args| == |ps| && j < |ClientStub(a, ps).copies|
    requires forall i :: 0 <= i < |ps| && ps[i].direction.Out? ==> IsAddress(a, args[i])
    requires forall i, j :: 0 <= i < j < |ps| ==> ps[i].name != ps[j].name
    ensures var copy, outs := ClientStub(a, ps).copies[j], PartsOf(a, ps).outs;
            && j < |outs| && copy.i == outs[j] && Staged(a, ps, outs[j])
            && SourceOf(ClientStub(a, ps), copy, fr) == OutCell(a, ps, args, fr, outs[j])
            && InFrame(fr, |ps|, SourceOf(ClientStub(a, ps), copy, fr))
  {
    hide Split, InRegisters, Select, InSlot, OutSlot, PeelSlots;
    var outs := PartsOf(a, ps).outs;
    SplitSizes(ClientTest(a), PeelCount(a), ps);
    if |outs| > 1 { OffsetIsPosition(ps, ClientMember, outs, outs[j]); }
  }

  /** Different staged OUT parameters have different cells, all in the stub's own frame. */
  lemma OutCellsSeparate(a: Arch, ps: seq<Parameter>, args: seq<Value>, fr: Frame, i: nat, j: nat)
    requires Called(a, ps, args) && i < |ps| && j < |ps| && Staged(a, ps, i) && Staged(a, ps, j)
    ensures fr.outAt <= OutCell(a, ps, args, fr, i) < fr.outAt + |ps|
    ensures i != j ==> OutCell(a, ps, args, fr, i) != OutCell(a, ps, args, fr, j)
  {
    hide Split, InRegisters, Select, InSlot, OutSlot, PeelSlots;
    var outs := PartsOf(a, ps).outs;
    SplitPartitions(ClientTest(a), PeelCount(a), ps, i);
    SplitPartitions(ClientTest(a), PeelCount(a), ps, j);
    SplitSizes(ClientTest(a), PeelCount(a), ps);
    RegistersHaveNoOuts(a, ps);
    if |outs| > 1 {
      OffsetIsPosition(ps, ClientMember, outs, i);
      OffsetIsPosition(ps, ClientMember, outs, j);
    }
  }

  /** Every staged OUT parameter has a copy. */
  lemma StagedHasCopy(a: Arch, ps: seq<Parameter>, i: nat) returns (j: nat)
    requires Accepted(a) && i < |ps| && Staged(a, ps, i)
    ensures j < |ClientStub(a, ps).copies| && ClientStub(a, ps).copies[j].i == i
  {
    hide Split, InRegisters, Select, InSlot, OutSlot, PeelSlots;
    var outs := PartsOf(a, ps).outs;
    SplitPartitions(ClientTest(a), PeelCount(a), ps, i);
    j :| 0 <= j < |outs| && outs[j] == i;
    RegistersHaveNoOuts(a, ps);
  }

  predicate Called(a: Arch, ps: seq<Parameter>, args: seq<Value>) {
    && Accepted(a) && |args| == |ps|
    && (forall i :: 0 <= i < |ps| && ps[i].direction.Out? ==> IsAddress(a, args[i]))
    && (forall i, j :: 0 <= i < j < |ps| ==> ps[i].name != ps[j].name)
  }

  lemma CopiesSeparate(a: Arch, ps: seq<Parameter>, args: seq<Value>, fr: Frame)
    requires Called(a, ps, args) && OutsideFrame(ps, args, fr)
    ensures var stub := ClientStub(a, ps);
            var copies := stub.copies;
            && (forall j :: 0 <= j < |copies| ==> copies[j].i < |ps| && Staged(a, ps, copies[j].i))
            && (forall i, j :: 0 <= i < |copies| && 0 <= j < |copies| && Destination(args, copies[i].i) != 0 ==>
                  Destination(args, copies[i].i) != SourceOf(stub, copies[j], fr))
            && (forall i, j :: 0 <= i < j < |copies| ==> copies[i].i < copies[j].i)
  {
    hide Split, ClientStub, SourceOf, Destination, OutCell, InFrame;
    SplitIncreasing(ClientTest(a), PeelCount(a), ps);
    var copies := ClientStub(a, ps).copies;
    forall j | 0 <= j < |copies|
      ensures copies[j].i < |ps| && Staged(a, ps, copies[j].i) && j < |PartsOf(a, ps).outs|
      ensures copies[j].i == PartsOf(a, ps).outs[j]
      ensures InFrame(fr, |ps|, SourceOf(ClientStub(a, ps), copies[j], fr))
    {
      CopyOfStub(a, ps, args, fr, j);
    }
    forall i, j | 0 <= i < |copies| && 0 <= j < |copies| && Destination(args, copies[i].i) != 0
      ensures Destination(args, copies[i].i) != SourceOf(ClientStub(a, ps), copies[j], fr)
    {
      assert !InFrame(fr, |ps|, Destination(args, copies[i].i));
    }
  }

  /** On success each staged OUT destination that is not null receives what the handler put into the
      cell of the last parameter that has this destination, and nothing else changes. */
  lemma CopyBackEffect(a: Arch, ps: seq<Parameter>, args: seq<Value>, fr: Frame, m: Memory)
    requires Called(a, ps, args) && OutsideFrame(ps, args, fr)
    ensures var stub := ClientStub(a, ps);
            var r := CopyBack(stub, stub.copies, args, fr, m);
            && (forall i :: 0 <= i < |ps| && LastInto(a, ps, args, i) ==>
                  Load(r, Destination(args, i)) == Load(m, OutCell(a, ps, args, fr, i)))
            && (forall x: nat :: !IsDestination(a, ps, args, x) ==> Load(r, x) == Load(m, x))
  {
    hide Split, Load, CopyBack, ClientStub, SourceOf, Destination, OutCell, OutsideFrame;
    var stub := ClientStub(a, ps);
    var copies := stub.copies;
    CopiesSeparate(a, ps, args, fr);
    var r := CopyBack(stub, copies, args, fr, m);
    forall i | 0 <= i < |ps| && LastInto(a, ps, args, i)
      ensures Load(r, Destination(args, i)) == Load(m, OutCell(a, ps, args, fr, i))
    {
      var j := StagedHasCopy(a, ps, i);
      CopyOfStub(a, ps, args, fr, j);
      assert Untouched(copies[..j], args, SourceOf(stub, copies[j], fr));
      assert Untouched(copies[j + 1..], args, Destination(args, i));
      CopyBackAt(stub, copies, args, fr, m, j);
    }
    forall x: nat | !IsDestination(a, ps, args, x) ensures Load(r, x) == Load(m, x) {
      assert Untouched(copies, args, x);
      CopyBackElsewhere(stub, copies, args, fr, m, x);
    }
  }

  /** Every destination has such a last parameter, so the memory after the copies is known cell by
      cell. */
  lemma {:induction false} HasLastInto(a: Arch, ps: seq<Parameter>, args: seq<Value>, i: nat) returns (j: nat)
    requires Accepted(a) && i < |ps| && Staged(a, ps, i) && Destination(args, i) != 0
    ensures i <= j < |ps| && LastInto(a, ps, args, j) && Destination(args, j) == Destination(args, i)
    decreases |ps| - i
  {
    hide Staged, Destination;
    if LastInto(a, ps, args, i) {
      j := i;
    } else {
      var k :| i < k < |ps| && Staged(a, ps, k) && Destination(args, k) == Destination(args, i);
      j := HasLastInto(a, ps, args, k);
    }
  }

  /** `x` is the destination of a staged OUT parameter. */
  ghost predicate IsDestination(a: Arch, ps: seq<Parameter>, args: seq<Value>, x: nat)
    requires Accepted(a)
  {
    exists i :: 0 <= i < |ps| && Staged(a, ps, i) && Destination(args, i) != 0 && Destination(args, i) == x
  }

  // ---------------------------------------------------------------- the whole call

  /** The call end to end, for any handler: it sees the caller's arguments in a memory where only the
      stub's frame has changed; on failure the stub adds nothing to what the handler did; on success
      it moves exactly the staged results to their destinations, the last one where the caller passed
      one destination for several. */
  lemma CallIsTransparent(
    a: Arch, sizes: Sizes, ints: CInts, ps: seq<Parameter>, args: seq<Value>, fr: Frame, m: Memory, h: Handler)
    requires Ready(a, sizes, ints, ps, args, fr) && OutsideFrame(ps, args, fr)
    ensures var stub, c := ClientStub(a, ps), ServerCase(a, sizes, ps);
            && AllBounded(c, |stub.slots|)
            && var m1 := Prepared(stub, args, fr, m);
            && (forall x: nat :: !InFrame(fr, |ps|, x) ==> Load(m1, x) == Load(m, x))
            && var seen := Arguments(a, ints, c, Slots(a, stub.slots, args, fr), m1);
            && |seen| == |ps| && (forall i :: 0 <= i < |ps| ==> Received(a, ps, args, fr, i, seen[i]))
            && var served, o := h(seen, m1), Call(a, ints, stub, c, args, fr, m, h);
            && o.ok == served.ok
            && (!o.ok ==> o.memory == served.memory)
            && (o.ok ==>
                  && (forall i :: 0 <= i < |ps| && LastInto(a, ps, args, i) ==>
                        Load(o.memory, Destination(args, i)) == Load(served.memory, OutCell(a, ps, args, fr, i)))
                  && (forall x: nat :: !IsDestination(a, ps, args, x) ==>
                        Load(o.memory, x) == Load(served.memory, x)))
  {
    hide Split, Settled, FrameFits, InRegisters, Load, Select, CopyBack, Offset, ClientStub, ServerCase,
         Slots, Prepared,
         Arguments, GuardsPass, AllBounded, Received, OutCell, InFrame, OutsideFrame,
         LastInto, IsDestination;
    Delivery(a, sizes, ints, ps, args, fr, m);
    var stub, c := ClientStub(a, ps), ServerCase(a, sizes, ps);
    PreparedFrame(a, ps, args, fr, m);
    var m1 := Prepared(stub, args, fr, m);
    var served := h(Arguments(a, ints, c, Slots(a, stub.slots, args, fr), m1), m1);
    CopyBackEffect(a, ps, args, fr, served.memory);
  }

  lemma PreparedFrame(a: Arch, ps: seq<Parameter>, args: seq<Value>, fr: Frame, m: Memory)
    requires Accepted(a) && FrameFits(a, fr, |ps|) && |args| == |ps|
    ensures forall x: nat :: !InFrame(fr, |ps|, x) ==> Load(Prepared(ClientStub(a, ps), args, fr, m), x) == Load(m, x)
  {
    hide Split, InRegisters, Select, InSlot, OutSlot, PeelSlots, Load, Prepared, MemberCopies;
    SplitSizes(ClientTest(a), PeelCount(a), ps);
    PreparedCells(ps, ClientStub(a, ps), args, fr, m, a);
  }

  // ---------------------------------------------------------------- the hypotheses are met

  const X86_64: Arch := Arch(8, 6)
  const IN_U8: Parameter := Parameter(In, [], Named(false, "u8"), "x")
  const OUT_U8: Parameter := Parameter(Out, [], Named(false, "u8"), "z")

  lemma ExampleParts()
    ensures PartsOf(X86_64, [IN_U8, OUT_U8]) == Parts([0], [], [1]) && !AllInRegisters(X86_64, [IN_U8, OUT_U8])
  {
    var ps := [IN_U8, OUT_U8];
    assert ps[..1] == [IN_U8] && [IN_U8][..0] == [];
    assert ClientTest(X86_64)(IN_U8) && !ClientTest(X86_64)(OUT_U8) && OUT_U8 in ps;
    assert Split(ClientTest(X86_64), 2, []) == Parts([], [], []);
    assert Split(ClientTest(X86_64), 2, [IN_U8]) == Parts([0], [], []);
  }

  /** For one, by a call `f(in u8 x, out u8 z)` on x86_64. */
  lemma ReadyIsMet(sizes: Sizes, ints: CInts)
    requires sizes == map[IN_U8.ty.name := 1] && ints(IN_U8.ty.name) == CInt(1, false)
    ensures Ready(X86_64, sizes, ints, [IN_U8, OUT_U8], [Word(255), Word(4096)], Frame(100, 200, [300, 400]))
    ensures OutsideFrame([IN_U8, OUT_U8], [Word(255), Word(4096)], Frame(100, 200, [300, 400]))
  {
    hide Split, InRegisters, Pow256;
    Pow256Values();
    ExampleParts();
    var ps, args := [IN_U8, OUT_U8], [Word(255), Word(4096)];
    assert 0 in [0] && 1 !in [0];
    assert IN_U8.name != OUT_U8.name by { assert IN_U8.name[0] != OUT_U8.name[0]; }
    assert WellCalled(X86_64, ints, ps, args);
    assert Settled(X86_64, sizes, ps);
  }
}
