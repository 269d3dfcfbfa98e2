/** Delivery holds exactly when client and server classify alike: for every parameter list on which
    they do not, there is a call that the server refuses or that hands its handler a wrong argument. */
module DeliveryExactly {
  import opened Octets
  import opened Ast
  import opened MachineWords
  import opened CallPlans
  import opened CallSemantics

  /** What the delivery theorem promises of one call. */
  ghost predicate Delivers(
    a: Arch, sizes: Sizes, ints: CInts, ps: seq<Parameter>, args: seq<Value>, fr: Frame, m: Memory)
    requires Called(a, ps, args)
  {
    var stub, c := ClientStub(a, ps), ServerCase(a, sizes, ps);
    && AllBounded(c, |stub.slots|)
    && var slots, m1 := Slots(a, stub.slots, args, fr), Prepared(stub, args, fr, m);
    && GuardsPass(a, c, slots)
    && |c.args| == |ps|
    && forall i :: 0 <= i < |ps| ==> Received(a, ps, args, fr, i, Arguments(a, ints, c, slots, m1)[i])
  }

  /** The server refuses the call at its first guard, or decodes argument `i` from slots that exist, and
      to something else than was passed. */
  ghost predicate Breaks(
    a: Arch, sizes: Sizes, ints: CInts, ps: seq<Parameter>, args: seq<Value>, fr: Frame, m: Memory, i: nat)
    requires Called(a, ps, args) && i < |ps|
  {
    var stub, c := ClientStub(a, ps), ServerCase(a, sizes, ps);
    var slots, m1 := Slots(a, stub.slots, args, fr), Prepared(stub, args, fr, m);
    || (c.guardIn && slots != [] && Pointer(a, slots[0]) == 0)
    || (|c.args| == |ps| && Bounded(c.args[i], |slots|)
        && !Received(a, ps, args, fr, i, Argument(a, ints, c, c.args[i], slots, m1)))
  }

  /** The parameters can be called: names are distinct, by-value arguments in slots have integer types
      of one octet to one word, and memory has room for a frame. */
  predicate Callable(a: Arch, ints: CInts, ps: seq<Parameter>)
    requires Accepted(a)
  {
    && (forall i, j :: 0 <= i < j < |ps| ==> ps[i].name != ps[j].name)
    && (forall i :: 0 <= i < |ps| && PassedInSlot(a, ps, i) && ps[i].ty.Named? ==>
          1 <= ints(ps[i].ty.name).octets <= a.pointerSize)
    && 4 * |ps| + 2 < Pow256(a.pointerSize)
  }

  lemma DeliversDoesNotBreak(
    a: Arch, sizes: Sizes, ints: CInts, ps: seq<Parameter>, args: seq<Value>, fr: Frame, m: Memory, i: nat)
    requires Called(a, ps, args) && i < |ps| && Delivers(a, sizes, ints, ps, args, fr, m)
    ensures !Breaks(a, sizes, ints, ps, args, fr, m, i)
  {
    hide Split, ClientStub, ServerCase, Prepared, Pointer, Argument, Received, Bounded;
    var stub, c := ClientStub(a, ps), ServerCase(a, sizes, ps);
    var slots, m1 := Slots(a, stub.slots, args, fr), Prepared(stub, args, fr, m);
    assert Arguments(a, ints, c, slots, m1)[i] == Argument(a, ints, c, c.args[i], slots, m1);
  }

  // ---------------------------------------------------------------- the call that breaks

  /** All arguments are 0, but argument `i` is `n`. */
  function Unit(ps: seq<Parameter>, i: nat, n: nat): (args: seq<Value>)
    ensures |args| == |ps|
    ensures forall j :: 0 <= j < |ps| ==> args[j] == if j == i then Word(n) else Word(0)
  {
    seq(|ps|, j requires 0 <= j < |ps| => if j == i then Word(n) else Word(0))
  }

  /** A frame with parameter `i` away from all others. */
  function FrameAround(n: nat, i: nat): (fr: Frame)
    ensures |fr.params| == n && fr.inAt == 1 && fr.outAt == 1 + n
    ensures forall j :: 0 <= j < n ==> fr.params[j] == if j == i then 1 + 4 * n else 1 + 2 * n + j
  {
    Frame(1, 1 + n, seq(n, j requires 0 <= j < n => if j == i then 1 + 4 * n else 1 + 2 * n + j))
  }

  lemma FrameAroundFits(a: Arch, n: nat, i: nat)
    requires 4 * n + 2 < Pow256(a.pointerSize)
    ensures FrameFits(a, FrameAround(n, i), n)
  {
    hide Pow256;
    var fr := FrameAround(n, i);
    forall x | x in fr.params
      ensures 0 < x < Pow256(a.pointerSize) && !(fr.inAt <= x < fr.inAt + n) && !(fr.outAt <= x < fr.outAt + n)
    {
      var j :| 0 <= j < n && fr.params[j] == x;
    }
  }

  lemma SmallInRange(t: CInt, n: nat)
    requires n <= 1 && t.octets >= 1
    ensures InRange(t, n)
  {
  }

  lemma UnitIsWellCalled(a: Arch, ints: CInts, ps: seq<Parameter>, i: nat, n: nat)
    requires Accepted(a) && Callable(a, ints, ps) && n <= 1
    ensures WellCalled(a, ints, ps, Unit(ps, i, n)) && Called(a, ps, Unit(ps, i, n))
  {
    hide Pow256, Split, InRegisters, PassedInSlot, InRange;
    var args := Unit(ps, i, n);
    forall j | 0 <= j < |ps| && PassedInSlot(a, ps, j) && ps[j].ty.Named?
      ensures args[j].Word? && InRange(ints(ps[j].ty.name), args[j].n)
    {
      SmallInRange(ints(ps[j].ty.name), args[j].n);
    }
  }

  lemma ZeroDelivered(octets: nat)
    ensures Delivered(0, octets) == 0 && ToUnsigned(0, octets) == 0
  {
  }

  /** An offender: the client passes it in a slot, the server takes it for something else. */
  predicate Offends(a: Arch, sizes: Sizes, ps: seq<Parameter>, i: nat)
    requires Accepted(a)
  {
    i < |ps| && PassedInSlot(a, ps, i) && !ServerScalar(a, sizes, ps[i])
  }

  lemma ServerStages(a: Arch, sizes: Sizes, ps: seq<Parameter>, i: nat)
    requires Accepted(a) && Offends(a, sizes, ps, i)
    ensures !InRegisters(ServerTest(a, sizes), SlotCount(a), ps) && ps[i].direction.In? && ps[i].ty.Named?
    ensures i in Split(ServerTest(a, sizes), PeelCount(a), ps).ins
    ensures ServerCase(a, sizes, ps).guardIn
  {
    hide Select, ServerArgs;
    assert ps[i] in ps && !ServerTest(a, sizes)(ps[i]);
    assert ClientScalar(a, ps[i]) by {
      if InRegisters(ClientTest(a), SlotCount(a), ps) {
        assert ClientTest(a)(ps[i]);
      } else {
        SplitPartitions(ClientTest(a), PeelCount(a), ps, i);
      }
    }
    SplitPartitions(ServerTest(a, sizes), PeelCount(a), ps, i);
    hide Split;
    var ins := Split(ServerTest(a, sizes), PeelCount(a), ps).ins;
    if |ins| == 1 { assert ins[0] == i; }
  }

  /** In registers: all arguments 0 put a null pointer where the server looks for the staged ones. */
  lemma RegistersBreak(a: Arch, sizes: Sizes, ints: CInts, ps: seq<Parameter>, i: nat, fr: Frame, m: Memory)
    requires Accepted(a) && Callable(a, ints, ps) && Offends(a, sizes, ps, i) && AllInRegisters(a, ps)
    requires Called(a, ps, Unit(ps, i, 0))
    ensures Breaks(a, sizes, ints, ps, Unit(ps, i, 0), fr, m, i)
  {
    hide Split, ServerCase, InRegisters, Delivered, ToUnsigned, PassedInSlot, Received, Argument;
    ServerStages(a, sizes, ps, i);
    ZeroDelivered(a.pointerSize);
    var stub := ClientStub(a, ps);
    assert stub.slots == Words(|ps|);
    assert SlotContent(stub.slots[0], Unit(ps, i, 0), fr) == 0;
  }

  /** With one argument set, memory holds 0 everywhere but in the cell of that parameter. */
  lemma OtherCellsAreZero(ps: seq<Parameter>, stub: Stub, i: nat, x: nat)
    requires i < |ps| && Within(stub.values, ps) && i !in stub.values && x != FrameAround(|ps|, i).params[i]
    ensures Load(Prepared(stub, Unit(ps, i, 1), FrameAround(|ps|, i), map[]), x) == Word(0)
  {
    hide StoreAll, StoreEach, Chosen, Load;
    var fr, args := FrameAround(|ps|, i), Unit(ps, i, 1);
    assert Load(map[], x) == Word(0) by { EmptyMemory(x); }
    var m1 := StoreEach(map[], fr.params, args);
    assert Load(m1, x) == Word(0) by {
      if x in fr.params {
        var j :| 0 <= j < |fr.params| && fr.params[j] == x;
        assert Load(m1, fr.params[j]) == args[j];
      }
    }
    var vs := Chosen(args, stub.values);
    var m2 := StoreAll(m1, fr.inAt, vs);
    if fr.inAt <= x < fr.inAt + |vs| {
      var j := x - fr.inAt;
      assert Load(m2, fr.inAt + j) == vs[j] == args[stub.values[j]];
      assert stub.values[j] in stub.values;
    }
  }

  lemma EmptyMemory(x: nat)
    ensures Load(map[], x) == Word(0)
  {
  }

  /** What the server takes the offender to be: what the first slot points to, or a member of that. */
  lemma ServerLoads(a: Arch, sizes: Sizes, ps: seq<Parameter>, i: nat)
    requires Accepted(a) && Offends(a, sizes, ps, i)
    requires forall j, k :: 0 <= j < k < |ps| ==> ps[j].name != ps[k].name
    ensures var c := ServerCase(a, sizes, ps);
            && |c.args| == |ps|
            && (c.args[i] == SlotLoad(0)
                || (c.args[i] == InMember(ps[i].name) && Offset(c.ins, ps[i].name) < |ps|))
  {
    hide Select, Offset, InRegisters, PassedInSlot;
    ServerStages(a, sizes, ps, i);
    SplitPartitions(ServerTest(a, sizes), PeelCount(a), ps, i);
    SplitSizes(ServerTest(a, sizes), PeelCount(a), ps);
    hide Split;
    var ins := Split(ServerTest(a, sizes), PeelCount(a), ps).ins;
    if |ins| == 1 {
      assert ins[0] == i;
    } else {
      OffsetIsPosition(ps, ServerInMember, ins, i);
    }
  }

  /** Where the first slot of a `CallN` points, when it is not null. */
  lemma FirstSlot(a: Arch, ints: CInts, ps: seq<Parameter>, i: nat)
    requires Accepted(a) && Callable(a, ints, ps) && i < |ps| && !AllInRegisters(a, ps) && i in PartsOf(a, ps).peeled
    ensures var stub, fr := ClientStub(a, ps), FrameAround(|ps|, i);
            && |stub.slots| == 2 + PeelCount(a)
            && Within(stub.values, ps) && i !in stub.values
            && var at := Pointer(a, Delivered(SlotContent(stub.slots[0], Unit(ps, i, 1), fr), a.pointerSize));
            at == 0 || at <= 3 * |ps|
  {
    hide Split, Delivered, Pointer, InRegisters, Pow256, Callable, InSlot;
    var fr, ins := FrameAround(|ps|, i), PartsOf(a, ps).ins;
    SplitPartitions(ClientTest(a), PeelCount(a), ps, i);
    StagingSlots(a, ps);
    FrameAroundFits(a, |ps|, i) by { RoomForFrame(a, ints, ps); }
    FrameAddresses(a, fr, |ps|);
    ZeroPointer(a);
    if |ins| == 1 { assert ins[0] in ins && ins[0] != i; }
    assert InSlot(ps, ins) == if ins == [] then Zero
                              else if |ins| > 1 then AddressOfIn
                              else if ps[ins[0]].ty.Ptr? then PointerOf(ins[0]) else AddressOf(ins[0]) by {
      SlotOfIns(ps, ins);
    }
  }

  lemma RoomForFrame(a: Arch, ints: CInts, ps: seq<Parameter>)
    requires Accepted(a) && Callable(a, ints, ps)
    ensures 4 * |ps| + 2 < Pow256(a.pointerSize)
  {
    hide PassedInSlot, Pow256;
  }

  lemma ZeroPointer(a: Arch)
    ensures Pointer(a, Delivered(0, a.pointerSize)) == 0
  {
    hide Delivered, ToUnsigned;
    ZeroDelivered(a.pointerSize);
  }

  lemma SlotOfIns(ps: seq<Parameter>, ins: seq<nat>)
    requires Within(ins, ps)
    ensures InSlot(ps, ins) == if ins == [] then Zero
                               else if |ins| > 1 then AddressOfIn
                               else if ps[ins[0]].ty.Ptr? then PointerOf(ins[0]) else AddressOf(ins[0])
  {
  }

  /** In a `CallN`: the server looks for the offender in memory, but its value 1 is in a peeled slot. */
  lemma CallNBreaks(a: Arch, sizes: Sizes, ints: CInts, ps: seq<Parameter>, i: nat)
    requires Accepted(a) && Callable(a, ints, ps) && Offends(a, sizes, ps, i) && !AllInRegisters(a, ps)
    requires Called(a, ps, Unit(ps, i, 1))
    ensures Breaks(a, sizes, ints, ps, Unit(ps, i, 1), FrameAround(|ps|, i), map[], i)
  {
    hide Split, ServerCase, ClientStub, InRegisters, Delivered, Pointer, Pow256, Callable, Offset, Prepared, Load,
         SlotContent;
    var args, fr := Unit(ps, i, 1), FrameAround(|ps|, i);
    ServerStages(a, sizes, ps, i);
    ServerLoads(a, sizes, ps, i) by { NamesOf(a, ints, ps); }
    FirstSlot(a, ints, ps, i);
    var stub, c := ClientStub(a, ps), ServerCase(a, sizes, ps);
    var slots := Slots(a, stub.slots, args, fr);
    var at := Pointer(a, slots[0]);
    if at != 0 {
      var x := if c.args[i] == SlotLoad(0) then at else at + Offset(c.ins, ps[i].name);
      OtherCellsAreZero(ps, stub, i, x);
      assert Argument(a, ints, c, c.args[i], slots, Prepared(stub, args, fr, map[])) == Word(0);
    }
  }

  lemma NamesOf(a: Arch, ints: CInts, ps: seq<Parameter>)
    requires Accepted(a) && Callable(a, ints, ps)
    ensures forall i, j :: 0 <= i < j < |ps| ==> ps[i].name != ps[j].name
  {
    hide PassedInSlot, Pow256;
  }

  // ---------------------------------------------------------------- the exact condition

  /** Every offender breaks some call that C allows. */
  lemma OffenderBreaks(a: Arch, sizes: Sizes, ints: CInts, ps: seq<Parameter>, i: nat)
    returns (args: seq<Value>, fr: Frame, m: Memory)
    requires Accepted(a) && Callable(a, ints, ps) && Offends(a, sizes, ps, i)
    ensures WellCalled(a, ints, ps, args) && Called(a, ps, args) && FrameFits(a, fr, |ps|)
    ensures Breaks(a, sizes, ints, ps, args, fr, m, i)
  {
    hide Callable, Offends, Breaks, WellCalled, Called, FrameFits, InRegisters;
    assert i < |ps| by { OffenderIsParameter(a, sizes, ps, i); }
    fr, m := FrameAround(|ps|, i), map[];
    FrameAroundFits(a, |ps|, i) by { RoomForFrame(a, ints, ps); }
    if AllInRegisters(a, ps) {
      args := Unit(ps, i, 0);
      UnitIsWellCalled(a, ints, ps, i, 0);
      RegistersBreak(a, sizes, ints, ps, i, fr, m);
    } else {
      args := Unit(ps, i, 1);
      UnitIsWellCalled(a, ints, ps, i, 1);
      CallNBreaks(a, sizes, ints, ps, i);
    }
  }

  lemma OffenderIsParameter(a: Arch, sizes: Sizes, ps: seq<Parameter>, i: nat)
    requires Accepted(a) && Offends(a, sizes, ps, i)
    ensures i < |ps|
  {
  }

  /** Every call is delivered exactly when every parameter that the client passes in a slot has a size
      of 1 to `pointerSize` octets on the server. */
  lemma DeliveryIffSettled(a: Arch, sizes: Sizes, ints: CInts, ps: seq<Parameter>)
    requires a.maxRegArgs >= 5 && Callable(a, ints, ps)
    ensures Settled(a, sizes, ps) <==>
            forall args, fr, m :: WellCalled(a, ints, ps, args) && Called(a, ps, args) && FrameFits(a, fr, |ps|) ==>
              Delivers(a, sizes, ints, ps, args, fr, m)
  {
    hide Callable, Breaks, WellCalled, Called, FrameFits, InRegisters, Delivers, ServerScalar, PassedInSlot;
    if Settled(a, sizes, ps) {
      forall args, fr, m | WellCalled(a, ints, ps, args) && Called(a, ps, args) && FrameFits(a, fr, |ps|)
        ensures Delivers(a, sizes, ints, ps, args, fr, m)
      {
        SettledDelivers(a, sizes, ints, ps, args, fr, m);
      }
    } else {
      var i :| 0 <= i < |ps| && PassedInSlot(a, ps, i) && !ServerScalar(a, sizes, ps[i]);
      var args, fr, m := OffenderBreaks(a, sizes, ints, ps, i);
      if Delivers(a, sizes, ints, ps, args, fr, m) {
        DeliversDoesNotBreak(a, sizes, ints, ps, args, fr, m, i);
      }
    }
  }

  lemma SettledDelivers(
    a: Arch, sizes: Sizes, ints: CInts, ps: seq<Parameter>, args: seq<Value>, fr: Frame, m: Memory)
    requires Ready(a, sizes, ints, ps, args, fr) && Called(a, ps, args)
    ensures Delivers(a, sizes, ints, ps, args, fr, m)
  {
    hide Settled, WellCalled, FrameFits, AllBounded, GuardsPass, Received, ClientStub, ServerCase, Prepared, Slots;
    Delivery(a, sizes, ints, ps, args, fr, m);
  }
}
