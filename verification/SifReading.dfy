/** The SIF reader as the source has it (lang/sif.cc:255-330, 353-660): an object that consumes a
    stream and the loops that push what they read. Each method is proved against the format
    functions; an error value stands for the exception of the source. */
module SifReading {
  import opened Octets
  import opened Ast
  import opened SifFormat
  import opened SifArtifact

  /** The method returned `r` and left `after`, as the format function says. */
  ghost predicate Did<T>(r: Result<T, SifError>, got: Got<T>, after: Input) {
    match r
    case Ok(v) => got == Ok((v, after))
    case Err(e) => got == Err(e)
  }

  // ---------------------------------------------------------------- loops

  /** `i` octets of a number read, with the value `value`, and `now` left to read. */
  ghost predicate InsideLE(w: nat, start: Input, i: nat, value: nat, now: Input)
    requires i <= w
  {
    GetLE(w, start) ==
    match GetLE(w - i, now)
    case Ok((high, s)) => Ok((value + Pow256(i) * high, s))
    case Err(e) => Err(e)
  }

  /** `b << (i * 8)`. */
  function Shifted(b: byte, i: nat): nat { (b as int) * Pow256(i) }

  lemma LEStart(w: nat, start: Input)
    ensures InsideLE(w, start, 0, 0, start)
  {
  }

  lemma LEStep(w: nat, start: Input, i: nat, value: nat, now: Input, b: byte, next: Input)
    requires i < w && InsideLE(w, start, i, value, now) && GetU8(now) == Ok((b, next))
    ensures InsideLE(w, start, i + 1, value + Shifted(b, i), next)
  {
    hide GetU8;
    if GetLE(w - i - 1, next).Ok? {
      var high := GetLE(w - i - 1, next).value.0;
      ShiftMore(b, high, i);
    }
  }

  lemma ShiftMore(b: byte, high: nat, i: nat)
    ensures Pow256(i) * (b as int + 256 * high) == Shifted(b, i) + Pow256(i + 1) * high
  {
    var p := Pow256(i);
    assert Pow256(i + 1) == 256 * p;
    assert p * (b as int + 256 * high) == p * b as int + 256 * p * high;
  }

  lemma LEEnd(w: nat, start: Input, value: nat, now: Input)
    requires InsideLE(w, start, w, value, now)
    ensures GetLE(w, start) == Ok((value, now))
  {
  }

  lemma LEFails(w: nat, start: Input, i: nat, value: nat, now: Input, e: SifError)
    requires i < w && InsideLE(w, start, i, value, now) && GetU8(now) == Err(e)
    ensures GetLE(w, start) == Err(e)
  {
  }

  ghost predicate InsideMany<T>(get: Input -> Got<T>, n: nat, start: Input, vs: seq<T>, now: Input)
    requires |vs| <= n
  {
    GetMany(get, n, start) ==
    match GetMany(get, n - |vs|, now)
    case Ok((ws, s)) => Ok((vs + ws, s))
    case Err(e) => Err(e)
  }

  lemma ManyStart<T>(get: Input -> Got<T>, n: nat, start: Input)
    ensures InsideMany(get, n, start, [], start)
  {
    if GetMany(get, n, start).Ok? {
      assert [] + GetMany(get, n, start).value.0 == GetMany(get, n, start).value.0;
    }
  }

  lemma ManyStep<T>(get: Input -> Got<T>, n: nat, start: Input, vs: seq<T>, now: Input, v: T, next: Input)
    requires |vs| < n && InsideMany(get, n, start, vs, now) && get(now) == Ok((v, next))
    ensures InsideMany(get, n, start, vs + [v], next)
  {
    var rest := GetMany(get, n - |vs| - 1, next);
    if rest.Ok? { assert vs + ([v] + rest.value.0) == vs + [v] + rest.value.0; }
  }

  lemma ManyEnd<T>(get: Input -> Got<T>, n: nat, start: Input, vs: seq<T>, now: Input)
    requires |vs| == n && InsideMany(get, n, start, vs, now)
    ensures GetMany(get, n, start) == Ok((vs, now))
  {
    assert vs + [] == vs;
  }

  lemma ManyFails<T>(get: Input -> Got<T>, n: nat, start: Input, vs: seq<T>, now: Input, e: SifError)
    requires |vs| < n && InsideMany(get, n, start, vs, now) && get(now) == Err(e)
    ensures GetMany(get, n, start) == Err(e)
  {
  }

  lemma {:induction false} FuncidSnoc(fs: seq<Function>, f: Function, current: u32)
    ensures FuncidAfter(fs + [f], current) == FuncidAfter([f], FuncidAfter(fs, current))
    decreases |fs|
  {
    if fs == [] {
      assert [] + [f] == [f];
    } else {
      assert (fs + [f])[1..] == fs[1..] + [f];
      var next := (fs[0].id + 1) % TWO32;
      FuncidSnoc(fs[1..], f, if next > current then next else current);
    }
  }

  /** The interface under construction. */
  class InterfaceNode {
    var name: Bytes
    var uuidNamespace: Uuid
    var uuidName: Bytes
    var hasUuid: bool
    var prefix: Bytes
    var hasPrefix: bool
    var annotations: seq<Annotation>
    var abiversions: seq<Revision>
    var currentFuncid: u32

    ghost function Value(): Interface
      reads this
    {
      Interface(name, hasUuid, uuidNamespace, uuidName, hasPrefix, prefix, annotations, abiversions, currentFuncid)
    }

    constructor ()
      ensures Value() == Interface([], false, Zeros(16), [], false, [], [], [], 0)
    {
      name, uuidNamespace, uuidName, hasUuid, prefix, hasPrefix := [], Zeros(16), [], false, [], false;
      annotations, abiversions, currentFuncid := [], [], 0;
    }
  }

  // ---------------------------------------------------------------- the reader object

  /** `rest` is the unread part of the stream; `canonical` records whether every const flag so far
      was 0 or 1. */
  class BinaryReader {
    var rest: Bytes
    ghost var canonical: bool

    ghost function Unread(): Input
      reads this
    {
      Input(rest, canonical)
    }

    constructor (source: Bytes)
      ensures Unread() == Input(source, true)
    {
      rest, canonical := source, true;
    }

    method ReadU8() returns (r: Result<byte, SifError>)
      modifies this
      ensures Did(r, GetU8(old(Unread())), Unread())
    {
      if rest == [] { return Err(UnexpectedEnd); }
      r := Ok(rest[0]);
      rest := rest[1..];
    }

    /** `value |= u8() << (i * 8)`, where the shifted octet meets only zero bits. */
    method ReadLE(w: nat) returns (r: Result<nat, SifError>)
      modifies this
      ensures Did(r, GetLE(w, old(Unread())), Unread())
    {
      hide GetU8, InsideLE, GetLE;
      var value: nat := 0;
      LEStart(w, Unread());
      for i := 0 to w
        invariant InsideLE(w, old(Unread()), i, value, Unread())
      {
        ghost var now := Unread();
        var b := ReadU8();
        if b.Err? {
          LEFails(w, old(Unread()), i, value, now, b.error);
          return Err(b.error);
        }
        LEStep(w, old(Unread()), i, value, now, b.value, Unread());
        value := value + Shifted(b.value, i);
      }
      LEEnd(w, old(Unread()), value, Unread());
      r := Ok(value);
    }

    method ReadU32() returns (r: Result<u32, SifError>)
      modifies this
      ensures Did(r, GetU32(old(Unread())), Unread())
    {
      hide GetLE;
      Pow256Values();
      var v :- ReadLE(4);
      r := Ok(v);
    }

    method ReadU64() returns (r: Result<u64, SifError>)
      modifies this
      ensures Did(r, GetU64(old(Unread())), Unread())
    {
      hide GetLE;
      Pow256Values();
      var v :- ReadLE(8);
      r := Ok(v);
    }

    /** A fixed-size array filled octet by octet. */
    method ReadArray(n: nat) returns (r: Result<Bytes, SifError>)
      modifies this
      ensures Did(r, GetBlock(n, old(Unread())), Unread())
    {
      var value := [];
      ghost var start := rest;
      for i := 0 to n
        invariant i <= |start| && value == start[..i] && rest == start[i..] && canonical == old(canonical)
      {
        var b :- ReadU8();
        value := value + [b];
      }
      r := Ok(value);
    }

    method ReadHash() returns (r: Result<Digest, SifError>)
      modifies this
      ensures Did(r, GetDigest(old(Unread())), Unread())
    {
      hide GetBlock;
      var v :- ReadArray(32);
      r := Ok(v);
    }

    method ReadUuid() returns (r: Result<Uuid, SifError>)
      modifies this
      ensures Did(r, GetUuid(old(Unread())), Unread())
    {
      hide GetBlock;
      var v :- ReadArray(16);
      r := Ok(v);
    }

    /** `in.read` of a whole buffer. */
    method ReadBuffer(n: nat) returns (r: Result<Bytes, SifError>)
      modifies this
      ensures Did(r, GetBlock(n, old(Unread())), Unread())
    {
      if |rest| < n { return Err(UnexpectedEnd); }
      r := Ok(rest[..n]);
      rest := rest[n..];
    }

    method SkipPadding(n: nat) returns (r: Result<(), SifError>)
      modifies this
      ensures SkipZeros(n, old(Unread())) == match r { case Ok(_) => Ok(Unread()) case Err(e) => Err(e) }
    {
      for i := 0 to n
        invariant SkipZeros(n, old(Unread())) == SkipZeros(n - i, Unread())
      {
        var b :- ReadU8();
        if b != 0 as char { return Err(NonZeroPadding); }
      }
      r := Ok(());
    }

    method ReadString() returns (r: Result<Bytes, SifError>)
      modifies this
      ensures Did(r, GetString(old(Unread())), Unread())
    {
      hide GetU32, GetBlock, SkipZeros;
      var size :- ReadU32();
      var value :- ReadBuffer(size);
      var _ :- SkipPadding((4 - size % 4) % 4);
      r := Ok(value);
    }

    // -------------------------------------------------------------- nodes

    method ReadExpression() returns (r: Result<Expression, SifError>)
      modifies this
      ensures Did(r, GetExpression(old(Unread())), Unread())
    {
      hide GetU8, GetString, GetU64;
      var kind :- ReadU8();
      if kind == 1 as char {
        var value :- ReadString();
        r := Ok(StringLiteral(value));
      } else if kind == 2 as char {
        var number :- ReadU64();
        r := Ok(NumberLiteral(number));
      } else if kind == 3 as char {
        var name :- ReadString();
        r := Ok(Identifier(name));
      } else {
        r := Err(BadExpressionKind);
      }
    }

    method ReadType() returns (r: Result<Type, SifError>)
      modifies this
      decreases |rest|
      ensures Did(r, GetType(old(Unread())), Unread())
    {
      hide GetString;
      var flag :- ReadU8();
      canonical := canonical && flag as int <= 1;
      var isConst := flag != 0 as char;
      var kind :- ReadU8();
      if kind == 1 as char {
        var name :- ReadString();
        r := Ok(Named(isConst, name));
      } else if kind == 2 as char {
        var inner :- ReadType();
        r := Ok(Ptr(isConst, inner));
      } else if kind == 3 as char {
        var inner :- ReadType();
        r := Ok(Array(isConst, inner));
      } else {
        r := Err(BadTypeKind);
      }
    }

    method ReadExpressions() returns (r: Result<seq<Expression>, SifError>)
      modifies this
      ensures Did(r, GetList(GetExpression, old(Unread())), Unread())
    {
      hide GetExpression, GetMany, GetU32, InsideMany;
      var n :- ReadU32();
      var vs := [];
      ghost var start := Unread();
      ManyStart(GetExpression, n, start);
      for i := 0 to n
        invariant |vs| == i && InsideMany(GetExpression, n, start, vs, Unread())
        invariant GetU32(old(Unread())) == Ok((n, start))
      {
        ghost var now := Unread();
        var v := ReadExpression();
        if v.Err? {
          ManyFails(GetExpression, n, start, vs, now, v.error);
          return Err(v.error);
        }
        ManyStep(GetExpression, n, start, vs, now, v.value, Unread());
        vs := vs + [v.value];
      }
      ManyEnd(GetExpression, n, start, vs, Unread());
      r := Ok(vs);
    }

    method ReadAnnotation() returns (r: Result<Annotation, SifError>)
      modifies this
      ensures Did(r, GetAnnotation(old(Unread())), Unread())
    {
      hide GetString, GetList;
      var name :- ReadString();
      var args :- ReadExpressions();
      r := Ok(Annotation(name, args));
    }

    method ReadAnnotationList() returns (r: Result<seq<Annotation>, SifError>)
      modifies this
      ensures Did(r, GetList(GetAnnotation, old(Unread())), Unread())
    {
      hide GetAnnotation, GetMany, GetU32, InsideMany;
      var n :- ReadU32();
      var vs := [];
      ghost var start := Unread();
      ManyStart(GetAnnotation, n, start);
      for i := 0 to n
        invariant |vs| == i && InsideMany(GetAnnotation, n, start, vs, Unread())
        invariant GetU32(old(Unread())) == Ok((n, start))
      {
        ghost var now := Unread();
        var v := ReadAnnotation();
        if v.Err? {
          ManyFails(GetAnnotation, n, start, vs, now, v.error);
          return Err(v.error);
        }
        ManyStep(GetAnnotation, n, start, vs, now, v.value, Unread());
        vs := vs + [v.value];
      }
      ManyEnd(GetAnnotation, n, start, vs, Unread());
      r := Ok(vs);
    }

    method ReadAnnotations() returns (r: Result<seq<Annotation>, SifError>)
      modifies this
      ensures Did(r, GetAnnotations(old(Unread())), Unread())
    {
      hide GetList;
      r := ReadAnnotationList();
    }

    method ReadParameter() returns (r: Result<Parameter, SifError>)
      modifies this
      ensures Did(r, GetParameter(old(Unread())), Unread())
    {
      hide GetU8, GetAnnotations, GetType, GetString;
      var code :- ReadU8();
      if code as int > 2 { return Err(BadDirection); }
      var direction := if code as int == 0 then Direction.In else if code as int == 1 then Out else InOut;
      var annotations :- ReadAnnotations();
      var ty :- ReadType();
      var name :- ReadString();
      r := Ok(Parameter(direction, annotations, ty, name));
    }

    method ReadParameters() returns (r: Result<seq<Parameter>, SifError>)
      modifies this
      ensures Did(r, GetList(GetParameter, old(Unread())), Unread())
    {
      hide GetParameter, GetMany, GetU32, InsideMany;
      var n :- ReadU32();
      var vs := [];
      ghost var start := Unread();
      ManyStart(GetParameter, n, start);
      for i := 0 to n
        invariant |vs| == i && InsideMany(GetParameter, n, start, vs, Unread())
        invariant GetU32(old(Unread())) == Ok((n, start))
      {
        ghost var now := Unread();
        var v := ReadParameter();
        if v.Err? {
          ManyFails(GetParameter, n, start, vs, now, v.error);
          return Err(v.error);
        }
        ManyStep(GetParameter, n, start, vs, now, v.value, Unread());
        vs := vs + [v.value];
      }
      ManyEnd(GetParameter, n, start, vs, Unread());
      r := Ok(vs);
    }

    method ReadFunction(owner: InterfaceNode) returns (r: Result<Function, SifError>)
      modifies this, owner`currentFuncid
      ensures Did(r, GetFunction(old(Unread())), Unread())
      ensures r.Ok? ==> owner.currentFuncid == FuncidAfter([r.value], old(owner.currentFuncid))
    {
      hide GetU32, GetString, GetAnnotations, GetList;
      var id :- ReadU32();
      var name :- ReadString();
      var annotations :- ReadAnnotations();
      var parameters :- ReadParameters();
      var next := (id + 1) % TWO32;
      if next > owner.currentFuncid { owner.currentFuncid := next; }
      r := Ok(Function(id, name, annotations, parameters));
    }

    method ReadFunctions(owner: InterfaceNode) returns (r: Result<seq<Function>, SifError>)
      modifies this, owner`currentFuncid
      ensures Did(r, GetList(GetFunction, old(Unread())), Unread())
      ensures r.Ok? ==> owner.currentFuncid == FuncidAfter(r.value, old(owner.currentFuncid))
    {
      assert FuncidAfter([], owner.currentFuncid) == owner.currentFuncid;
      hide GetFunction, GetMany, GetU32, InsideMany, FuncidAfter;
      var n :- ReadU32();
      var vs := [];
      ghost var start := Unread();
      ManyStart(GetFunction, n, start);
      for i := 0 to n
        invariant |vs| == i && InsideMany(GetFunction, n, start, vs, Unread())
        invariant GetU32(old(Unread())) == Ok((n, start))
        invariant owner.currentFuncid == FuncidAfter(vs, old(owner.currentFuncid))
      {
        ghost var now := Unread();
        var v := ReadFunction(owner);
        if v.Err? {
          ManyFails(GetFunction, n, start, vs, now, v.error);
          return Err(v.error);
        }
        ManyStep(GetFunction, n, start, vs, now, v.value, Unread());
        FuncidSnoc(vs, v.value, old(owner.currentFuncid));
        vs := vs + [v.value];
      }
      ManyEnd(GetFunction, n, start, vs, Unread());
      r := Ok(vs);
    }

    method ReadStructField() returns (r: Result<StructField, SifError>)
      modifies this
      ensures Did(r, GetStructField(old(Unread())), Unread())
    {
      hide GetType, GetString;
      var ty :- ReadType();
      var name :- ReadString();
      r := Ok(StructField(ty, name));
    }

    method ReadStructFields() returns (r: Result<seq<StructField>, SifError>)
      modifies this
      ensures Did(r, GetList(GetStructField, old(Unread())), Unread())
    {
      hide GetStructField, GetMany, GetU32, InsideMany;
      var n :- ReadU32();
      var vs := [];
      ghost var start := Unread();
      ManyStart(GetStructField, n, start);
      for i := 0 to n
        invariant |vs| == i && InsideMany(GetStructField, n, start, vs, Unread())
        invariant GetU32(old(Unread())) == Ok((n, start))
      {
        ghost var now := Unread();
        var v := ReadStructField();
        if v.Err? {
          ManyFails(GetStructField, n, start, vs, now, v.error);
          return Err(v.error);
        }
        ManyStep(GetStructField, n, start, vs, now, v.value, Unread());
        vs := vs + [v.value];
      }
      ManyEnd(GetStructField, n, start, vs, Unread());
      r := Ok(vs);
    }

    method ReadStruct() returns (r: Result<Struct, SifError>)
      modifies this
      ensures Did(r, GetStruct(old(Unread())), Unread())
    {
      hide GetString, GetAnnotations, GetList;
      var name :- ReadString();
      var annotations :- ReadAnnotations();
      var fields :- ReadStructFields();
      r := Ok(Struct(name, annotations, fields));
    }

    method ReadStructs() returns (r: Result<seq<Struct>, SifError>)
      modifies this
      ensures Did(r, GetList(GetStruct, old(Unread())), Unread())
    {
      hide GetStruct, GetMany, GetU32, InsideMany;
      var n :- ReadU32();
      var vs := [];
      ghost var start := Unread();
      ManyStart(GetStruct, n, start);
      for i := 0 to n
        invariant |vs| == i && InsideMany(GetStruct, n, start, vs, Unread())
        invariant GetU32(old(Unread())) == Ok((n, start))
      {
        ghost var now := Unread();
        var v := ReadStruct();
        if v.Err? {
          ManyFails(GetStruct, n, start, vs, now, v.error);
          return Err(v.error);
        }
        ManyStep(GetStruct, n, start, vs, now, v.value, Unread());
        vs := vs + [v.value];
      }
      ManyEnd(GetStruct, n, start, vs, Unread());
      r := Ok(vs);
    }

    method ReadBitfieldField() returns (r: Result<BitfieldField, SifError>)
      modifies this
      ensures Did(r, GetBitfieldField(old(Unread())), Unread())
    {
      hide GetString, GetU64;
      var name :- ReadString();
      var bits :- ReadU64();
      r := Ok(BitfieldField(name, bits));
    }

    method ReadBitfieldFields() returns (r: Result<seq<BitfieldField>, SifError>)
      modifies this
      ensures Did(r, GetList(GetBitfieldField, old(Unread())), Unread())
    {
      hide GetBitfieldField, GetMany, GetU32, InsideMany;
      var n :- ReadU32();
      var vs := [];
      ghost var start := Unread();
      ManyStart(GetBitfieldField, n, start);
      for i := 0 to n
        invariant |vs| == i && InsideMany(GetBitfieldField, n, start, vs, Unread())
        invariant GetU32(old(Unread())) == Ok((n, start))
      {
        ghost var now := Unread();
        var v := ReadBitfieldField();
        if v.Err? {
          ManyFails(GetBitfieldField, n, start, vs, now, v.error);
          return Err(v.error);
        }
        ManyStep(GetBitfieldField, n, start, vs, now, v.value, Unread());
        vs := vs + [v.value];
      }
      ManyEnd(GetBitfieldField, n, start, vs, Unread());
      r := Ok(vs);
    }

    method ReadBitfield() returns (r: Result<Bitfield, SifError>)
      modifies this
      ensures Did(r, GetBitfield(old(Unread())), Unread())
    {
      hide GetString, GetAnnotations, GetType, GetList;
      var name :- ReadString();
      var annotations :- ReadAnnotations();
      var baseType :- ReadType();
      var fields :- ReadBitfieldFields();
      r := Ok(Bitfield(name, annotations, baseType, fields));
    }

    method ReadBitfields() returns (r: Result<seq<Bitfield>, SifError>)
      modifies this
      ensures Did(r, GetList(GetBitfield, old(Unread())), Unread())
    {
      hide GetBitfield, GetMany, GetU32, InsideMany;
      var n :- ReadU32();
      var vs := [];
      ghost var start := Unread();
      ManyStart(GetBitfield, n, start);
      for i := 0 to n
        invariant |vs| == i && InsideMany(GetBitfield, n, start, vs, Unread())
        invariant GetU32(old(Unread())) == Ok((n, start))
      {
        ghost var now := Unread();
        var v := ReadBitfield();
        if v.Err? {
          ManyFails(GetBitfield, n, start, vs, now, v.error);
          return Err(v.error);
        }
        ManyStep(GetBitfield, n, start, vs, now, v.value, Unread());
        vs := vs + [v.value];
      }
      ManyEnd(GetBitfield, n, start, vs, Unread());
      r := Ok(vs);
    }

    method ReadEnumMember() returns (r: Result<EnumMember, SifError>)
      modifies this
      ensures Did(r, GetEnumMember(old(Unread())), Unread())
    {
      hide GetString, GetU64, GetAnnotations;
      var name :- ReadString();
      var value :- ReadU64();
      var annotations :- ReadAnnotations();
      r := Ok(EnumMember(name, value, annotations));
    }

    method ReadEnumMembers() returns (r: Result<seq<EnumMember>, SifError>)
      modifies this
      ensures Did(r, GetList(GetEnumMember, old(Unread())), Unread())
    {
      hide GetEnumMember, GetMany, GetU32, InsideMany;
      var n :- ReadU32();
      var vs := [];
      ghost var start := Unread();
      ManyStart(GetEnumMember, n, start);
      for i := 0 to n
        invariant |vs| == i && InsideMany(GetEnumMember, n, start, vs, Unread())
        invariant GetU32(old(Unread())) == Ok((n, start))
      {
        ghost var now := Unread();
        var v := ReadEnumMember();
        if v.Err? {
          ManyFails(GetEnumMember, n, start, vs, now, v.error);
          return Err(v.error);
        }
        ManyStep(GetEnumMember, n, start, vs, now, v.value, Unread());
        vs := vs + [v.value];
      }
      ManyEnd(GetEnumMember, n, start, vs, Unread());
      r := Ok(vs);
    }

    method ReadEnum() returns (r: Result<Enum, SifError>)
      modifies this
      ensures Did(r, GetEnum(old(Unread())), Unread())
    {
      hide GetString, GetAnnotations, GetType, GetList;
      var name :- ReadString();
      var annotations :- ReadAnnotations();
      var baseType :- ReadType();
      var members :- ReadEnumMembers();
      r := Ok(Enum(name, annotations, baseType, members));
    }

    method ReadEnums() returns (r: Result<seq<Enum>, SifError>)
      modifies this
      ensures Did(r, GetList(GetEnum, old(Unread())), Unread())
    {
      hide GetEnum, GetMany, GetU32, InsideMany;
      var n :- ReadU32();
      var vs := [];
      ghost var start := Unread();
      ManyStart(GetEnum, n, start);
      for i := 0 to n
        invariant |vs| == i && InsideMany(GetEnum, n, start, vs, Unread())
        invariant GetU32(old(Unread())) == Ok((n, start))
      {
        ghost var now := Unread();
        var v := ReadEnum();
        if v.Err? {
          ManyFails(GetEnum, n, start, vs, now, v.error);
          return Err(v.error);
        }
        ManyStep(GetEnum, n, start, vs, now, v.value, Unread());
        vs := vs + [v.value];
      }
      ManyEnd(GetEnum, n, start, vs, Unread());
      r := Ok(vs);
    }

    /** The declarations of a revision tree. */
    method ReadBody(owner: InterfaceNode, version: u64) returns (r: Result<Revision, SifError>)
      modifies this, owner`currentFuncid
      ensures Did(r, GetBody(version, old(Unread())), Unread())
      ensures r.Ok? ==> owner.currentFuncid == FuncidAfter(r.value.functions, old(owner.currentFuncid))
    {
      hide GetAnnotations, GetList, FuncidAfter;
      var annotations :- ReadAnnotations();
      var bitfields :- ReadBitfields();
      var enums :- ReadEnums();
      var structs :- ReadStructs();
      var functions :- ReadFunctions(owner);
      r := Ok(Revision(version, annotations, bitfields, enums, structs, functions));
    }
  }
}
