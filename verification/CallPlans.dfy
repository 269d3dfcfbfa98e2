/** What the two C generators emit for one function, as data: the client stub
    (lang/c_user_source_generator.cc:93-298) and the server's dispatch case
    (lang/c_module_source_generator.cc:40-204). */
module CallPlans {
  import opened Octets
  import opened Ast

  // ---------------------------------------------------------------- the architecture

  /** `pointerSize` is in octets; the server generator refuses `maxRegArgs <= 2`. */
  datatype Arch = Arch(pointerSize: nat, maxRegArgs: nat)

  predicate Accepted(a: Arch) { a.maxRegArgs > 2 }

  function SlotCount(a: Arch): nat
    requires Accepted(a)
  {
    a.maxRegArgs - 2
  }

  /** The slots of a `CallN` behind the two pointers. */
  function PeelCount(a: Arch): nat
    requires Accepted(a)
  {
    if SlotCount(a) > 2 then SlotCount(a) - 2 else 0
  }

  // ---------------------------------------------------------------- the two scalar tests

  /** The field `type_size` of a type node (include/ast.hh). An artifact does not store it and the
      reader leaves it at 0, so it is the same for every type. */
  function TypeSize(ty: Type): nat { 0 }

  /** The client's test. */
  predicate ClientScalar(a: Arch, p: Parameter) {
    p.direction.In? && !p.ty.Ptr? && !p.ty.Array? && TypeSize(p.ty) <= a.pointerSize
  }

  /** Sizes of the named types as the server generator knows them. */
  type Sizes = map<Bytes, nat>

  const HOST_POINTER: nat := 8

  /** The size part of `get_type_value_info`; an array type has an empty name. */
  function SizeOf(sizes: Sizes, ty: Type): nat {
    match ty
    case Ptr(_, _) => HOST_POINTER
    case Array(_, _) => if [] in sizes then sizes[[]] else TypeSize(ty)
    case Named(_, name) => if name in sizes then sizes[name] else TypeSize(ty)
  }

  /** The server's test. */
  predicate ServerScalar(a: Arch, sizes: Sizes, p: Parameter) {
    p.direction.In? && !p.ty.Ptr? && !p.ty.Array? && 0 < SizeOf(sizes, p.ty) <= a.pointerSize
  }

  type Test = Parameter -> bool

  function ClientTest(a: Arch): Test { p => ClientScalar(a, p) }

  function ServerTest(a: Arch, sizes: Sizes): Test { p => ServerScalar(a, sizes, p) }

  // ---------------------------------------------------------------- classification

  /** Positions of the parameters that travel in peeled slots, through the `in` pointer, and through
      the `out` pointer. */
  datatype Parts = Parts(peeled: seq<nat>, ins: seq<nat>, outs: seq<nat>)

  predicate Within(positions: seq<nat>, ps: seq<Parameter>) {
    forall j :: 0 <= j < |positions| ==> positions[j] < |ps|
  }

  function Split(scalar: Test, k: nat, ps: seq<Parameter>): (r: Parts)
    ensures Within(r.peeled, ps) && forall j :: 0 <= j < |r.peeled| ==>
              !ps[r.peeled[j]].direction.Out? && scalar(ps[r.peeled[j]])
    ensures Within(r.ins, ps) && forall j :: 0 <= j < |r.ins| ==> !ps[r.ins[j]].direction.Out?
    ensures Within(r.outs, ps) && forall j :: 0 <= j < |r.outs| ==> ps[r.outs[j]].direction.Out?
    ensures |r.peeled| <= k
  {
    if ps == [] then Parts([], [], [])
    else
      var i := |ps| - 1;
      var r := Split(scalar, k, ps[..i]);
      if ps[i].direction.Out? then r.(outs := r.outs + [i])
      else if scalar(ps[i]) && |r.peeled| < k then r.(peeled := r.peeled + [i])
      else r.(ins := r.ins + [i])
  }

  predicate Increasing(xs: seq<nat>) { forall i, j :: 0 <= i < j < |xs| ==> xs[i] < xs[j] }

  lemma IncreasingSnoc(xs: seq<nat>, n: nat)
    requires Increasing(xs) && forall x <- xs :: x < n
    ensures Increasing(xs + [n]) && forall x <- xs + [n] :: x < n + 1
  {
    forall i, j | 0 <= i < j < |xs| + 1 ensures (xs + [n])[i] < (xs + [n])[j] {
      if j == |xs| { assert xs[i] in xs; }
    }
  }

  lemma NothingIncreases()
    ensures Increasing([])
  {
  }

  /** Each group keeps the order of declaration. */
  lemma {:induction false} SplitIncreasing(scalar: Test, k: nat, ps: seq<Parameter>)
    ensures var r := Split(scalar, k, ps);
            && Increasing(r.peeled) && Increasing(r.ins) && Increasing(r.outs)
            && (forall x <- r.peeled :: x < |ps|) && (forall x <- r.ins :: x < |ps|) && forall x <- r.outs :: x < |ps|
    decreases |ps|
  {
    hide Increasing;
    if ps == [] {
      NothingIncreases();
    } else {
      var n := |ps| - 1;
      SplitIncreasing(scalar, k, ps[..n]);
      var before := Split(scalar, k, ps[..n]);
      if ps[n].direction.Out? { IncreasingSnoc(before.outs, n); }
      else if scalar(ps[n]) && |before.peeled| < k { IncreasingSnoc(before.peeled, n); }
      else { IncreasingSnoc(before.ins, n); }
    }
  }

  /** Every parameter is in exactly one group: OUT parameters in `outs`, scalars in `peeled` as long as
      there is room, and all others in `ins`. */
  lemma {:induction false} SplitPartitions(scalar: Test, k: nat, ps: seq<Parameter>, i: nat)
    requires i < |ps|
    ensures var r := Split(scalar, k, ps);
            && (i in r.outs <==> ps[i].direction.Out?)
            && (i in r.peeled <==> !ps[i].direction.Out? && scalar(ps[i]) && |Split(scalar, k, ps[..i]).peeled| < k)
            && (i in r.ins <==> i !in r.outs && i !in r.peeled)
    decreases |ps|
  {
    var n := |ps| - 1;
    var before := Split(scalar, k, ps[..n]);
    SplitIncreasing(scalar, k, ps[..n]);
    if i < n {
      assert ps[..n][i] == ps[i] && ps[..n][..i] == ps[..i];
      SplitPartitions(scalar, k, ps[..n], i);
    }
    assert n !in before.outs && n !in before.peeled && n !in before.ins;
  }

  /** Whether all parameters fit into register slots. */
  predicate InRegisters(scalar: Test, slots: nat, ps: seq<Parameter>) {
    |ps| <= slots && forall p <- ps :: scalar(p)
  }

  // ---------------------------------------------------------------- emitted code

  /** A C type: that of `base`, behind one more pointer or not. */
  datatype CType = CType(base: Type, pointer: bool)

  datatype Member = Member(name: Bytes, ty: CType)

  /** What the client puts into a slot. */
  datatype SlotExpr =
    | WordOf(i: nat)      // (unsigned long)_p
    | PointerOf(i: nat)   // (void *)_p
    | AddressOf(i: nat)   // (const void *)&_p
    | AddressOfIn         // (const void *)&in
    | AddressOfOut        // (void *)&out
    | Zero                // 0 or NULL

  /** `if (_p != NULL) { *_p = out; }`, or `out.p` when there are several. */
  datatype Copy = CopyOut(i: nat) | CopyMember(i: nat, name: Bytes)

  /** `values` are the parameters that initialise the members of `in`. */
  datatype Stub =
    Stub(ins: seq<Member>, values: seq<nat>, outs: seq<Member>, slots: seq<SlotExpr>, copies: seq<Copy>)

  /** Where the server finds an argument. */
  datatype ArgExpr =
    | SlotValue(slot: nat, ty: Type)  // (T)args[slot]
    | SlotPointer(slot: nat)          // (T *)(uintptr_t)args[slot]
    | SlotLoad(slot: nat)             // *(const T *)(uintptr_t)args[slot]
    | InMember(name: Bytes)           // in->name
    | OutMember(name: Bytes)          // &out->name

  datatype DispatchCase = DispatchCase(
    ins: seq<Member>, outs: seq<Member>, guardIn: bool, guardOut: bool, args: seq<ArgExpr>)

  // ---------------------------------------------------------------- the client stub

  function ClientMember(p: Parameter): Member {
    match p.direction
    case InOut => Member(p.name, CType(p.ty, true))
    case _ => Member(p.name, CType(p.ty, false))
  }

  function Select(ps: seq<Parameter>, f: Parameter -> Member, positions: seq<nat>): (r: seq<Member>)
    requires Within(positions, ps)
    ensures |r| == |positions|
    ensures forall j :: 0 <= j < |r| ==> r[j] == f(ps[positions[j]])
  {
    if positions == [] then []
    else
      var n := |positions| - 1;
      Select(ps, f, positions[..n]) + [f(ps[positions[n]])]
  }

  function InSlot(ps: seq<Parameter>, ins: seq<nat>): SlotExpr
    requires Within(ins, ps)
  {
    if ins == [] then Zero
    else if |ins| == 1 then if ps[ins[0]].ty.Ptr? then PointerOf(ins[0]) else AddressOf(ins[0])
    else AddressOfIn
  }

  function OutSlot(ps: seq<Parameter>, outs: seq<nat>): SlotExpr
    requires Within(outs, ps)
  {
    if outs == [] then Zero
    else if |outs| == 1 && ps[outs[0]].ty.Ptr? then PointerOf(outs[0])
    else AddressOfOut
  }

  function PeelSlots(peeled: seq<nat>, k: nat): (r: seq<SlotExpr>)
    ensures |r| == k
    ensures forall j :: 0 <= j < k ==> r[j] == if j < |peeled| then WordOf(peeled[j]) else Zero
  {
    if k == 0 then []
    else PeelSlots(peeled, k - 1) + [if k - 1 < |peeled| then WordOf(peeled[k - 1]) else Zero]
  }

  function Words(n: nat): (r: seq<SlotExpr>)
    ensures |r| == n && forall j :: 0 <= j < n ==> r[j] == WordOf(j)
  {
    if n == 0 then [] else Words(n - 1) + [WordOf(n - 1)]
  }

  function MemberCopies(ps: seq<Parameter>, outs: seq<nat>): (r: seq<Copy>)
    requires Within(outs, ps)
    ensures |r| == |outs|
    ensures forall j :: 0 <= j < |r| ==> r[j] == CopyMember(outs[j], ps[outs[j]].name)
  {
    if outs == [] then []
    else
      var n := |outs| - 1;
      MemberCopies(ps, outs[..n]) + [CopyMember(outs[n], ps[outs[n]].name)]
  }

  function ClientStub(a: Arch, ps: seq<Parameter>): Stub
    requires Accepted(a)
  {
    var parts := Split(ClientTest(a), PeelCount(a), ps);
    if InRegisters(ClientTest(a), SlotCount(a), ps) then Stub([], [], [], Words(|ps|), [])
    else
      var several := |parts.outs| > 1;
      var staged := several || (|parts.outs| == 1 && !ps[parts.outs[0]].ty.Ptr?);
      Stub(
        if |parts.ins| > 1 then Select(ps, ClientMember, parts.ins) else [],
        if |parts.ins| > 1 then parts.ins else [],
        if staged then Select(ps, ClientMember, parts.outs) else [],
        [InSlot(ps, parts.ins), OutSlot(ps, parts.outs)] + PeelSlots(parts.peeled, PeelCount(a)),
        if several then MemberCopies(ps, parts.outs) else if staged then [CopyOut(parts.outs[0])] else [])
  }

  // ---------------------------------------------------------------- the dispatch case

  /** `get_parameter_c_type`. */
  function ServerInMember(p: Parameter): Member { Member(p.name, CType(p.ty, !p.direction.In?)) }

  function ServerOutMember(p: Parameter): Member { Member(p.name, CType(p.ty, false)) }

  function IndexOf(xs: seq<nat>, x: nat): (j: nat)
    ensures j <= |xs| && (x in xs <==> j < |xs|) && (j < |xs| ==> xs[j] == x)
  {
    if xs == [] then 0 else if xs[0] == x then 0 else 1 + IndexOf(xs[1..], x)
  }

  function ServerArg(registers: bool, parts: Parts, ps: seq<Parameter>, i: nat): ArgExpr
    requires i < |ps| && Within(parts.ins, ps)
  {
    var p := ps[i];
    if registers then
      if !p.direction.In? || p.ty.Ptr? || p.ty.Array? then SlotPointer(i) else SlotValue(i, p.ty)
    else if p.direction.Out? then
      if |parts.outs| == 1 then SlotPointer(1) else OutMember(p.name)
    else if i in parts.peeled then SlotValue(2 + IndexOf(parts.peeled, i), p.ty)
    else if |parts.ins| == 1 then
      if ps[parts.ins[0]].ty.Ptr? then SlotPointer(0) else SlotLoad(0)
    else InMember(p.name)
  }

  function ServerArgs(registers: bool, parts: Parts, ps: seq<Parameter>, n: nat): (r: seq<ArgExpr>)
    requires n <= |ps| && Within(parts.ins, ps)
    ensures |r| == n && forall i :: 0 <= i < n ==> r[i] == ServerArg(registers, parts, ps, i)
  {
    if n == 0 then [] else ServerArgs(registers, parts, ps, n - 1) + [ServerArg(registers, parts, ps, n - 1)]
  }

  function ServerCase(a: Arch, sizes: Sizes, ps: seq<Parameter>): DispatchCase
    requires Accepted(a)
  {
    var registers := InRegisters(ServerTest(a, sizes), SlotCount(a), ps);
    var parts := Split(ServerTest(a, sizes), PeelCount(a), ps);
    var args := ServerArgs(registers, parts, ps, |ps|);
    if registers then DispatchCase([], [], false, false, args)
    else
      DispatchCase(
        if |parts.ins| > 1 then Select(ps, ServerInMember, parts.ins) else [],
        if |parts.outs| > 1 then Select(ps, ServerOutMember, parts.outs) else [],
        |parts.ins| > 1 || (|parts.ins| == 1 && !ps[parts.ins[0]].ty.Ptr?),
        |parts.outs| > 1,
        args)
  }

  // ---------------------------------------------------------------- the generators' loops

  lemma SplitStep(scalar: Test, k: nat, ps: seq<Parameter>, i: nat)
    requires i < |ps|
    ensures var r := Split(scalar, k, ps[..i]);
            Split(scalar, k, ps[..i + 1]) ==
            if ps[i].direction.Out? then r.(outs := r.outs + [i])
            else if scalar(ps[i]) && |r.peeled| < k then r.(peeled := r.peeled + [i])
            else r.(ins := r.ins + [i])
  {
    assert ps[..i + 1][..i] == ps[..i];
  }

  /** The classification loop of the client generator. */
  method ClassifyForClient(a: Arch, ps: seq<Parameter>) returns (canUseCallReg: bool, parts: Parts)
    requires Accepted(a)
    ensures canUseCallReg == InRegisters(ClientTest(a), SlotCount(a), ps)
    ensures parts == Split(ClientTest(a), PeelCount(a), ps)
  {
    hide Split;
    var kPeel := PeelCount(a);
    canUseCallReg := |ps| <= SlotCount(a);
    parts := Parts([], [], []);
    var i := 0;
    SplitNothing(ClientTest(a), kPeel, ps);
    while i < |ps|
      invariant i <= |ps|
      invariant canUseCallReg == (|ps| <= SlotCount(a) && forall j :: 0 <= j < i ==> ClientTest(a)(ps[j]))
      invariant parts == Split(ClientTest(a), kPeel, ps[..i])
    {
      SplitStep(ClientTest(a), kPeel, ps, i);
      var p := ps[i];
      var isScalar := p.direction == In && !p.ty.Ptr? && !p.ty.Array? && TypeSize(p.ty) <= a.pointerSize;
      if !isScalar { canUseCallReg := false; }
      if p.direction == Out {
        parts := parts.(outs := parts.outs + [i]);
      } else if isScalar && |parts.peeled| < kPeel {
        parts := parts.(peeled := parts.peeled + [i]);
      } else {
        parts := parts.(ins := parts.ins + [i]);
      }
      i := i + 1;
    }
    assert ps[..i] == ps;
  }

  lemma SplitNothing(scalar: Test, k: nat, ps: seq<Parameter>)
    ensures Split(scalar, k, ps[..0]) == Parts([], [], [])
  {
  }

  /** `visit(FunctionNode)` of the client generator. */
  method EmitClientStub(a: Arch, ps: seq<Parameter>) returns (stub: Stub)
    requires Accepted(a)
    ensures stub == ClientStub(a, ps)
  {
    var canUseCallReg, parts := ClassifyForClient(a, ps);
    if canUseCallReg {
      var words := EmitWords(|ps|);
      stub := Stub([], [], [], words, []);
    } else {
      stub := EmitCallN(ps, PeelCount(a), parts);
    }
  }

  method EmitWords(n: nat) returns (slots: seq<SlotExpr>)
    ensures slots == Words(n)
  {
    slots := [];
    for i := 0 to n
      invariant slots == Words(i)
    {
      slots := slots + [WordOf(i)];
    }
  }

  method EmitMembers(ps: seq<Parameter>, positions: seq<nat>) returns (members: seq<Member>)
    requires Within(positions, ps)
    ensures members == Select(ps, ClientMember, positions)
  {
    members := [];
    for j := 0 to |positions|
      invariant members == Select(ps, ClientMember, positions[..j])
    {
      assert positions[..j + 1][..j] == positions[..j];
      members := members + [ClientMember(ps[positions[j]])];
    }
    assert positions[..|positions|] == positions;
  }

  method EmitCopies(ps: seq<Parameter>, outs: seq<nat>) returns (copies: seq<Copy>)
    requires Within(outs, ps)
    ensures copies == if |outs| > 1 then MemberCopies(ps, outs)
                      else if |outs| == 1 && !ps[outs[0]].ty.Ptr? then [CopyOut(outs[0])] else []
  {
    copies := [];
    if |outs| == 1 {
      if !ps[outs[0]].ty.Ptr? { copies := [CopyOut(outs[0])]; }
    } else {
      for j := 0 to |outs|
        invariant copies == MemberCopies(ps, outs[..j])
      {
        assert outs[..j + 1][..j] == outs[..j];
        copies := copies + [CopyMember(outs[j], ps[outs[j]].name)];
      }
      assert outs[..|outs|] == outs;
    }
  }

  /** The staging structures, the `CallN` and the copies back. */
  method EmitCallN(ps: seq<Parameter>, kPeel: nat, parts: Parts) returns (stub: Stub)
    requires Within(parts.ins, ps)
    requires Within(parts.outs, ps)
    ensures var several := |parts.outs| > 1;
            var staged := several || (|parts.outs| == 1 && !ps[parts.outs[0]].ty.Ptr?);
            stub == Stub(
              if |parts.ins| > 1 then Select(ps, ClientMember, parts.ins) else [],
              if |parts.ins| > 1 then parts.ins else [],
              if staged then Select(ps, ClientMember, parts.outs) else [],
              [InSlot(ps, parts.ins), OutSlot(ps, parts.outs)] + PeelSlots(parts.peeled, kPeel),
              if several then MemberCopies(ps, parts.outs) else if staged then [CopyOut(parts.outs[0])] else [])
  {
    hide Select, MemberCopies, ClientMember, InSlot, OutSlot;
    var ins, values, outs := [], [], [];
    if |parts.ins| > 1 {
      ins := EmitMembers(ps, parts.ins);
      values := parts.ins;
    }
    if |parts.outs| > 1 || (|parts.outs| == 1 && !ps[parts.outs[0]].ty.Ptr?) {
      outs := EmitMembers(ps, parts.outs);
    }
    var slots := [];
    for j := 0 to kPeel
      invariant slots == PeelSlots(parts.peeled, j)
    {
      slots := slots + [if j < |parts.peeled| then WordOf(parts.peeled[j]) else Zero];
    }
    var copies := EmitCopies(ps, parts.outs);
    stub := Stub(ins, values, outs, [InSlot(ps, parts.ins), OutSlot(ps, parts.outs)] + slots, copies);
  }

  /** The classification loop of the server generator. */
  method ClassifyForServer(a: Arch, sizes: Sizes, ps: seq<Parameter>) returns (canUseCallReg: bool, parts: Parts)
    requires Accepted(a)
    ensures canUseCallReg == InRegisters(ServerTest(a, sizes), SlotCount(a), ps)
    ensures parts == Split(ServerTest(a, sizes), PeelCount(a), ps)
  {
    hide Split;
    canUseCallReg := |ps| <= SlotCount(a);
    parts := Parts([], [], []);
    var i := 0;
    SplitNothing(ServerTest(a, sizes), PeelCount(a), ps);
    while i < |ps|
      invariant i <= |ps|
      invariant canUseCallReg == (|ps| <= SlotCount(a) && forall j :: 0 <= j < i ==> ServerTest(a, sizes)(ps[j]))
      invariant parts == Split(ServerTest(a, sizes), PeelCount(a), ps[..i])
    {
      SplitStep(ServerTest(a, sizes), PeelCount(a), ps, i);
      var p := ps[i];
      var isScalarInReg := ServerScalar(a, sizes, p);
      if !isScalarInReg { canUseCallReg := false; }
      i := i + 1;
      if p.direction == Out {
        parts := parts.(outs := parts.outs + [i - 1]);
        continue;
      }
      if isScalarInReg && |parts.peeled| < PeelCount(a) {
        parts := parts.(peeled := parts.peeled + [i - 1]);
        continue;
      }
      parts := parts.(ins := parts.ins + [i - 1]);
    }
    assert ps[..i] == ps;
  }

  /** `write_dispatch_case` of the server generator. */
  method WriteDispatchCase(a: Arch, sizes: Sizes, ps: seq<Parameter>) returns (c: DispatchCase)
    requires Accepted(a)
    ensures c == ServerCase(a, sizes, ps)
  {
    var canUseCallReg, parts := ClassifyForServer(a, sizes, ps);
    var args := [];
    for k := 0 to |ps|
      invariant args == ServerArgs(canUseCallReg, parts, ps, k)
    {
      args := args + [ServerArg(canUseCallReg, parts, ps, k)];
    }
    c := DispatchCase([], [], false, false, args);
    if !canUseCallReg {
      if |parts.ins| > 1 { c := c.(ins := Select(ps, ServerInMember, parts.ins)); }
      if |parts.outs| > 1 { c := c.(outs := Select(ps, ServerOutMember, parts.outs)); }
      if |parts.ins| > 1 || (|parts.ins| == 1 && !ps[parts.ins[0]].ty.Ptr?) { c := c.(guardIn := true); }
      if |parts.outs| > 1 { c := c.(guardOut := true); }
    }
  }
}
