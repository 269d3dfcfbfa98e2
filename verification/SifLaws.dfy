/** Three laws of every node kind of the SIF format.
    Round trip: reading what was written gives the value and leaves what followed it.
    Soundness: a canonical read consumed exactly the encoding of its value, which fits the format.
    Locality: unless the input ran out, appending octets to it changes nothing but the rest. */
module SifLaws {
  import opened Octets
  import opened Ast
  import opened SifFormat

  /** The input `s` with the octets `t` appended. */
  function More(s: Input, t: Bytes): Input { Input(s.bytes + t, s.canonical) }

  function MoreAfter<T>(r: Got<T>, t: Bytes): Got<T> {
    match r
    case Ok((v, s)) => Ok((v, More(s, t)))
    case Err(e) => Err(e)
  }

  // ---------------------------------------------------------------- octets and integers

  lemma {:induction false} LERoundTrip(n: nat, w: nat, k: Bytes, c: bool)
    requires n < Pow256(w)
    ensures GetLE(w, Input(PutLE(n, w, k), c)) == Ok((n, Input(k, c)))
  {
    if w > 0 { LERoundTrip(n / 256, w - 1, k, c); }
  }

  lemma {:induction false} LESound(w: nat, s: Input)
    requires GetLE(w, s).Ok?
    ensures s.bytes == PutLE(GetLE(w, s).value.0, w, GetLE(w, s).value.1.bytes)
    ensures s.canonical == GetLE(w, s).value.1.canonical
  {
    if w > 0 {
      var s1 := GetU8(s).value.1;
      LESound(w - 1, s1);
    }
  }

  lemma {:induction false} LELocal(w: nat, s: Input, t: Bytes)
    requires GetLE(w, s) != Err(UnexpectedEnd)
    ensures GetLE(w, More(s, t)) == MoreAfter(GetLE(w, s), t)
  {
    if w > 0 {
      assert (s.bytes + t)[1..] == s.bytes[1..] + t;
      LELocal(w - 1, GetU8(s).value.1, t);
    }
  }

  lemma IntegerLaws()
    ensures forall n: u32, k, c :: GetU32(Input(PutU32(n, k), c)) == Ok((n, Input(k, c)))
    ensures forall n: u64, k, c :: GetU64(Input(PutU64(n, k), c)) == Ok((n, Input(k, c)))
    ensures forall s :: GetU32(s).Ok? ==>
              && s.bytes == PutU32(GetU32(s).value.0, GetU32(s).value.1.bytes)
              && s.canonical == GetU32(s).value.1.canonical
    ensures forall s :: GetU64(s).Ok? ==>
              && s.bytes == PutU64(GetU64(s).value.0, GetU64(s).value.1.bytes)
              && s.canonical == GetU64(s).value.1.canonical
  {
    Pow256Values();
    forall n: u32, k, c ensures GetU32(Input(PutU32(n, k), c)) == Ok((n, Input(k, c))) {
      LERoundTrip(n, 4, k, c);
    }
    forall n: u64, k, c ensures GetU64(Input(PutU64(n, k), c)) == Ok((n, Input(k, c))) {
      LERoundTrip(n, 8, k, c);
    }
    forall s | GetU32(s).Ok? { LESound(4, s); }
    forall s | GetU64(s).Ok? { LESound(8, s); }
  }

  lemma IntegerLocal()
    ensures forall s, t :: GetU32(s) != Err(UnexpectedEnd) ==> GetU32(More(s, t)) == MoreAfter(GetU32(s), t)
    ensures forall s, t :: GetU64(s) != Err(UnexpectedEnd) ==> GetU64(More(s, t)) == MoreAfter(GetU64(s), t)
  {
    forall s, t | GetU32(s) != Err(UnexpectedEnd) { LELocal(4, s, t); }
    forall s, t | GetU64(s) != Err(UnexpectedEnd) { LELocal(8, s, t); }
  }

  // ---------------------------------------------------------------- strings

  lemma {:induction false} ZerosRoundTrip(n: nat, k: Bytes, c: bool)
    ensures SkipZeros(n, Input(PutZeros(n, k), c)) == Ok(Input(k, c))
  {
    if n > 0 { ZerosRoundTrip(n - 1, k, c); }
  }

  lemma {:induction false} ZerosSound(n: nat, s: Input)
    requires SkipZeros(n, s).Ok?
    ensures s.bytes == PutZeros(n, SkipZeros(n, s).value.bytes)
    ensures s.canonical == SkipZeros(n, s).value.canonical
  {
    if n > 0 { ZerosSound(n - 1, GetU8(s).value.1); }
  }

  lemma {:induction false} ZerosLocal(n: nat, s: Input, t: Bytes)
    requires SkipZeros(n, s) != Err(UnexpectedEnd)
    ensures SkipZeros(n, More(s, t)) ==
            match SkipZeros(n, s) { case Ok(r) => Ok(More(r, t)) case Err(e) => Err(e) }
  {
    if n > 0 {
      assert (s.bytes + t)[1..] == s.bytes[1..] + t;
      if GetU8(s).value.0 == 0 as char { ZerosLocal(n - 1, GetU8(s).value.1, t); }
    }
  }

  lemma StringRoundTrip(v: Bytes, k: Bytes, c: bool)
    requires FitsCount(|v|)
    ensures GetString(Input(PutString(v, k), c)) == Ok((v, Input(k, c)))
  {
    hide GetU32, PutU32;
    IntegerLaws();
    var zeros := PutZeros(Padding(|v|), k);
    assert GetU32(Input(PutString(v, k), c)) == Ok((|v|, Input(v + zeros, c)));
    assert GetBlock(|v|, Input(v + zeros, c)) == Ok((v, Input(zeros, c)));
    ZerosRoundTrip(Padding(|v|), k, c);
  }

  lemma StringSound(s: Input)
    requires GetString(s).Ok?
    ensures s.bytes == PutString(GetString(s).value.0, GetString(s).value.1.bytes)
    ensures s.canonical == GetString(s).value.1.canonical
  {
    hide GetU32, PutU32;
    IntegerLaws();
    var (n, s1) := GetU32(s).value;
    var (v, s2) := GetBlock(n, s1).value;
    ZerosSound(Padding(n), s2);
    assert s1.bytes == v + s2.bytes;
  }

  lemma StringLaws()
    ensures forall v, k, c :: FitsCount(|v|) ==> GetString(Input(PutString(v, k), c)) == Ok((v, Input(k, c)))
    ensures forall s :: SoundRead(PutString, GetString(s), s)
  {
    forall v, k, c | FitsCount(|v|) { StringRoundTrip(v, k, c); }
    forall s ensures SoundRead(PutString, GetString(s), s) {
      if GetString(s).Ok? { StringSound(s); }
    }
  }

  lemma BlockLocal(n: nat, s: Input, t: Bytes)
    requires GetBlock(n, s) != Err(UnexpectedEnd)
    ensures GetBlock(n, More(s, t)) == MoreAfter(GetBlock(n, s), t)
  {
    assert (s.bytes + t)[..n] == s.bytes[..n];
    assert (s.bytes + t)[n..] == s.bytes[n..] + t;
  }

  lemma StringLocal()
    ensures forall s, t :: GetString(s) != Err(UnexpectedEnd) ==>
              GetString(More(s, t)) == MoreAfter(GetString(s), t)
  {
    hide GetU32;
    forall s, t | GetString(s) != Err(UnexpectedEnd)
      ensures GetString(More(s, t)) == MoreAfter(GetString(s), t)
    {
      IntegerLocal();
      if GetU32(s).Ok? {
        var (n, s1) := GetU32(s).value;
        BlockLocal(n, s1, t);
        ZerosLocal(Padding(n), GetBlock(n, s1).value.1, t);
      }
    }
  }

  // ---------------------------------------------------------------- counted lists

  lemma {:induction false} ManyRoundTrip<T>(
    put: (T, Bytes) -> Bytes, get: Input -> Got<T>, vs: seq<T>, k: Bytes, c: bool)
    requires forall v, j :: v in vs ==> get(Input(put(v, j), c)) == Ok((v, Input(j, c)))
    ensures GetMany(get, |vs|, Input(PutMany(put, vs, k), c)) == Ok((vs, Input(k, c)))
  {
    if vs != [] {
      ManyRoundTrip(put, get, vs[1..], k, c);
      assert vs == [vs[0]] + vs[1..];
    }
  }

  ghost predicate SoundRead<T>(put: (T, Bytes) -> Bytes, r: Got<T>, s: Input) {
    r.Ok? && r.value.1.canonical ==> s.canonical && s.bytes == put(r.value.0, r.value.1.bytes)
  }

  lemma {:induction false} ManySound<T>(
    put: (T, Bytes) -> Bytes, get: Input -> Got<T>, n: nat, s: Input)
    requires forall i :: SoundRead(put, get(i), i)
    requires GetMany(get, n, s).Ok? && GetMany(get, n, s).value.1.canonical
    ensures s.canonical
    ensures s.bytes == PutMany(put, GetMany(get, n, s).value.0, GetMany(get, n, s).value.1.bytes)
  {
    if n > 0 {
      assert SoundRead(put, get(s), s);
      ManySound(put, get, n - 1, get(s).value.1);
      var vs := GetMany(get, n, s).value.0;
      assert vs[1..] == GetMany(get, n - 1, get(s).value.1).value.0;
    }
  }

  ghost predicate LocalRead<T>(get: Input -> Got<T>, s: Input, t: Bytes) {
    get(s) != Err(UnexpectedEnd) ==> get(More(s, t)) == MoreAfter(get(s), t)
  }

  lemma {:induction false} ManyLocal<T>(get: Input -> Got<T>, n: nat, s: Input, t: Bytes)
    requires forall i :: LocalRead(get, i, t)
    requires GetMany(get, n, s) != Err(UnexpectedEnd)
    ensures GetMany(get, n, More(s, t)) == MoreAfter(GetMany(get, n, s), t)
  {
    if n > 0 {
      assert LocalRead(get, s, t);
      if get(s).Ok? { ManyLocal(get, n - 1, get(s).value.1, t); }
    }
  }

  lemma {:induction false} ManyFits<T>(get: Input -> Got<T>, fits: T -> bool, n: nat, s: Input)
    requires forall i :: get(i).Ok? ==> fits(get(i).value.0)
    requires GetMany(get, n, s).Ok?
    ensures forall v :: v in GetMany(get, n, s).value.0 ==> fits(v)
  {
    if n > 0 { ManyFits(get, fits, n - 1, get(s).value.1); }
  }

  lemma ListLaws<T>(put: (T, Bytes) -> Bytes, get: Input -> Got<T>, fits: T -> bool)
    requires forall v, k, c :: fits(v) ==> get(Input(put(v, k), c)) == Ok((v, Input(k, c)))
    requires forall s :: SoundRead(put, get(s), s)
    requires forall s :: get(s).Ok? ==> fits(get(s).value.0)
    ensures forall vs, k, c :: FitsCount(|vs|) && (forall v :: v in vs ==> fits(v)) ==>
              GetList(get, Input(PutList(put, vs, k), c)) == Ok((vs, Input(k, c)))
    ensures forall s :: SoundRead((vs, k) => PutList(put, vs, k), GetList(get, s), s)
    ensures forall s :: GetList(get, s).Ok? ==> forall v :: v in GetList(get, s).value.0 ==> fits(v)
  {
    hide GetU32, PutU32;
    IntegerLaws();
    forall vs, k, c | FitsCount(|vs|) && (forall v :: v in vs ==> fits(v))
      ensures GetList(get, Input(PutList(put, vs, k), c)) == Ok((vs, Input(k, c)))
    {
      ManyRoundTrip(put, get, vs, k, c);
    }
    forall s ensures SoundRead((vs, k) => PutList(put, vs, k), GetList(get, s), s) {
      if GetList(get, s).Ok? && GetList(get, s).value.1.canonical {
        ManySound(put, get, GetU32(s).value.0, GetU32(s).value.1);
      }
    }
    forall s | GetList(get, s).Ok? ensures forall v :: v in GetList(get, s).value.0 ==> fits(v) {
      ManyFits(get, fits, GetU32(s).value.0, GetU32(s).value.1);
    }
  }

  lemma ListLocal<T>(get: Input -> Got<T>)
    requires forall s, t :: LocalRead(get, s, t)
    ensures forall s, t :: GetList(get, s) != Err(UnexpectedEnd) ==>
              GetList(get, More(s, t)) == MoreAfter(GetList(get, s), t)
  {
    hide GetU32;
    IntegerLocal();
    forall s, t | GetList(get, s) != Err(UnexpectedEnd)
      ensures GetList(get, More(s, t)) == MoreAfter(GetList(get, s), t)
    {
      if GetU32(s).Ok? { ManyLocal(get, GetU32(s).value.0, GetU32(s).value.1, t); }
    }
  }

  // ---------------------------------------------------------------- expressions and annotations

  lemma U8Local()
    ensures forall s: Input, t :: GetU8(s) != Err(UnexpectedEnd) ==> GetU8(More(s, t)) == MoreAfter(GetU8(s), t)
  {
    forall s: Input, t | s.bytes != [] ensures GetU8(More(s, t)) == MoreAfter(GetU8(s), t) {
      assert (s.bytes + t)[1..] == s.bytes[1..] + t;
    }
  }

  lemma ExpressionLaws()
    ensures forall v, k, c :: FitsExpression(v) ==>
              GetExpression(Input(PutExpression(v, k), c)) == Ok((v, Input(k, c)))
    ensures forall s :: SoundRead(PutExpression, GetExpression(s), s)
    ensures forall s :: GetExpression(s).Ok? ==> FitsExpression(GetExpression(s).value.0)
  {
    hide GetExpression, PutExpression, FitsExpression;
    forall v, k, c | FitsExpression(v) ensures GetExpression(Input(PutExpression(v, k), c)) == Ok((v, Input(k, c))) {
      ExpressionRoundTrip(v, k, c);
    }
    forall s | GetExpression(s).Ok?
      ensures SoundRead(PutExpression, GetExpression(s), s) && FitsExpression(GetExpression(s).value.0)
    {
      ExpressionSound(s);
    }
  }

  lemma ExpressionRoundTrip(v: Expression, k: Bytes, c: bool)
    requires FitsExpression(v)
    ensures GetExpression(Input(PutExpression(v, k), c)) == Ok((v, Input(k, c)))
  {
    hide GetString, PutString, GetU64, PutU64;
    IntegerLaws();
    StringLaws();
  }

  lemma ExpressionSound(s: Input)
    requires GetExpression(s).Ok?
    ensures SoundRead(PutExpression, GetExpression(s), s) && FitsExpression(GetExpression(s).value.0)
  {
    hide GetString, PutString, GetU64, PutU64;
    IntegerLaws();
    StringLaws();
    assert s.bytes == [s.bytes[0]] + s.bytes[1..];
    assert SoundRead(PutString, GetString(GetU8(s).value.1), GetU8(s).value.1);
  }

  lemma ExpressionLocal()
    ensures forall s, t :: GetExpression(s) != Err(UnexpectedEnd) ==>
              GetExpression(More(s, t)) == MoreAfter(GetExpression(s), t)
  {
    hide GetString, GetU64;
    forall s, t | GetExpression(s) != Err(UnexpectedEnd)
      ensures GetExpression(More(s, t)) == MoreAfter(GetExpression(s), t)
    {
      assert GetU8(s).Ok? && GetU8(More(s, t)) == MoreAfter(GetU8(s), t) by { U8Local(); }
      var (kind, s1) := GetU8(s).value;
      if kind == 2 as char {
        IntegerLocal();
      } else if kind == 1 as char || kind == 3 as char {
        StringLocal();
      }
    }
  }

  lemma AnnotationLaws()
    ensures forall v, k, c :: FitsAnnotation(v) ==> GetAnnotation(Input(PutAnnotation(v, k), c)) == Ok((v, Input(k, c)))
    ensures forall s :: SoundRead(PutAnnotation, GetAnnotation(s), s)
    ensures forall s :: GetAnnotation(s).Ok? ==> FitsAnnotation(GetAnnotation(s).value.0)
  {
    hide GetString, PutString, GetList, PutList, GetExpression, PutExpression, FitsExpression;
    StringLaws();
    ExpressionLaws();
    ListLaws(PutExpression, GetExpression, FitsExpression);
  }

  lemma AnnotationLocal()
    ensures forall s, t :: GetAnnotation(s) != Err(UnexpectedEnd) ==>
              GetAnnotation(More(s, t)) == MoreAfter(GetAnnotation(s), t)
  {
    hide GetString, GetList, GetExpression;
    StringLocal();
    ExpressionLocal();
    forall s, t ensures LocalRead(GetExpression, s, t) {}
    ListLocal(GetExpression);
  }

  lemma AnnotationsLaws()
    ensures forall v, k, c :: FitsAnnotations(v) ==> GetAnnotations(Input(PutAnnotations(v, k), c)) == Ok((v, Input(k, c)))
    ensures forall s :: SoundRead(PutAnnotations, GetAnnotations(s), s)
    ensures forall s :: GetAnnotations(s).Ok? ==> FitsAnnotations(GetAnnotations(s).value.0)
  {
    hide GetList, PutList, GetAnnotation, PutAnnotation, FitsAnnotation;
    AnnotationLaws();
    ListLaws(PutAnnotation, GetAnnotation, FitsAnnotation);
  }

  lemma AnnotationsLocal()
    ensures forall s, t :: GetAnnotations(s) != Err(UnexpectedEnd) ==>
              GetAnnotations(More(s, t)) == MoreAfter(GetAnnotations(s), t)
  {
    hide GetList, GetAnnotation;
    AnnotationLocal();
    forall s, t ensures LocalRead(GetAnnotation, s, t) {}
    ListLocal(GetAnnotation);
  }

  // ---------------------------------------------------------------- types

  lemma {:induction false} TypeRoundTrip(v: Type, k: Bytes, c: bool)
    requires FitsType(v)
    ensures GetType(Input(PutType(v, k), c)) == Ok((v, Input(k, c)))
  {
    hide GetString, PutString;
    match v {
      case Named(_, name) => StringRoundTrip(name, k, c);
      case Ptr(_, inner) => TypeRoundTrip(inner, k, c);
      case Array(_, inner) => TypeRoundTrip(inner, k, c);
    }
  }

  lemma {:induction false} TypeSound(s: Input)
    ensures SoundRead(PutType, GetType(s), s)
    ensures GetType(s).Ok? ==> FitsType(GetType(s).value.0)
    decreases |s.bytes|
  {
    hide GetString, PutString;
    if GetType(s).Ok? {
      var (flag, s0) := GetU8(s).value;
      var (kind, s1) := GetU8(Input(s0.bytes, s0.canonical && flag as int <= 1)).value;
      assert s.bytes == [flag] + ([kind] + s1.bytes);
      if kind == 1 as char { StringSound(s1); } else { TypeSound(s1); }
    }
  }

  lemma TypeLaws()
    ensures forall v, k, c :: FitsType(v) ==> GetType(Input(PutType(v, k), c)) == Ok((v, Input(k, c)))
    ensures forall s :: SoundRead(PutType, GetType(s), s)
    ensures forall s :: GetType(s).Ok? ==> FitsType(GetType(s).value.0)
  {
    forall v, k, c | FitsType(v) { TypeRoundTrip(v, k, c); }
    forall s { TypeSound(s); }
  }

  lemma {:induction false} TypeLocalAt(s: Input, t: Bytes)
    requires GetType(s) != Err(UnexpectedEnd)
    ensures GetType(More(s, t)) == MoreAfter(GetType(s), t)
    decreases |s.bytes|
  {
    hide GetString;
    assert GetU8(s).Ok? && GetU8(More(s, t)) == MoreAfter(GetU8(s), t) by { U8Local(); }
    var (flag, s0) := GetU8(s).value;
    var s0' := Input(s0.bytes, s0.canonical && flag as int <= 1);
    assert GetU8(s0').Ok? && GetU8(More(s0', t)) == MoreAfter(GetU8(s0'), t) by { U8Local(); }
    var (kind, s1) := GetU8(s0').value;
    if kind == 1 as char {
      StringLocal();
    } else if kind == 2 as char || kind == 3 as char {
      TypeLocalAt(s1, t);
    }
  }

  lemma TypeLocal()
    ensures forall s, t :: GetType(s) != Err(UnexpectedEnd) ==> GetType(More(s, t)) == MoreAfter(GetType(s), t)
  {
    forall s, t | GetType(s) != Err(UnexpectedEnd) { TypeLocalAt(s, t); }
  }

  // ---------------------------------------------------------------- declarations

  lemma ParameterLaws()
    ensures forall v, k, c :: FitsParameter(v) ==> GetParameter(Input(PutParameter(v, k), c)) == Ok((v, Input(k, c)))
    ensures forall s :: SoundRead(PutParameter, GetParameter(s), s)
    ensures forall s :: GetParameter(s).Ok? ==> FitsParameter(GetParameter(s).value.0)
  {
    hide GetString, PutString, GetAnnotations, PutAnnotations, FitsAnnotations, GetType, PutType;
    StringLaws();
    AnnotationsLaws();
    TypeLaws();
    forall s ensures SoundRead(PutParameter, GetParameter(s), s) {
      if GetParameter(s).Ok? { assert s.bytes == [s.bytes[0]] + s.bytes[1..]; }
    }
  }

  lemma ParameterLocalAt(s: Input, t: Bytes)
    requires GetParameter(s) != Err(UnexpectedEnd)
    ensures GetParameter(More(s, t)) == MoreAfter(GetParameter(s), t)
  {
    hide GetString, GetAnnotations, GetType, More;
    U8Local();
    var (code, s1) := GetU8(s).value;
    assert GetU8(More(s, t)) == Ok((code, More(s1, t)));
    if code as int <= 2 {
      AnnotationsLocal();
      assert GetAnnotations(More(s1, t)) == MoreAfter(GetAnnotations(s1), t);
      if GetAnnotations(s1).Ok? {
        var s2 := GetAnnotations(s1).value.1;
        TypeLocal();
        assert GetType(More(s2, t)) == MoreAfter(GetType(s2), t);
        if GetType(s2).Ok? {
          var s3 := GetType(s2).value.1;
          StringLocal();
          assert GetString(More(s3, t)) == MoreAfter(GetString(s3), t);
        }
      }
    }
  }

  lemma ParameterLocal()
    ensures forall s, t :: GetParameter(s) != Err(UnexpectedEnd) ==>
              GetParameter(More(s, t)) == MoreAfter(GetParameter(s), t)
  {
    hide GetParameter, More;
    forall s, t | GetParameter(s) != Err(UnexpectedEnd) { ParameterLocalAt(s, t); }
  }

  lemma FunctionLaws()
    ensures forall v, k, c :: FitsFunction(v) ==> GetFunction(Input(PutFunction(v, k), c)) == Ok((v, Input(k, c)))
    ensures forall s :: SoundRead(PutFunction, GetFunction(s), s)
    ensures forall s :: GetFunction(s).Ok? ==> FitsFunction(GetFunction(s).value.0)
  {
    hide GetFunction, PutFunction, FitsFunction;
    forall v, k, c | FitsFunction(v) ensures GetFunction(Input(PutFunction(v, k), c)) == Ok((v, Input(k, c))) {
      FunctionRoundTrip(v, k, c);
    }
    forall s | GetFunction(s).Ok?
      ensures SoundRead(PutFunction, GetFunction(s), s) && FitsFunction(GetFunction(s).value.0)
    {
      FunctionSound(s);
    }
  }

  lemma FunctionRoundTrip(v: Function, k: Bytes, c: bool)
    requires FitsFunction(v)
    ensures GetFunction(Input(PutFunction(v, k), c)) == Ok((v, Input(k, c)))
  {
    hide GetU32, PutU32, GetString, PutString, GetAnnotations, PutAnnotations, FitsAnnotations, GetList,
         PutList, GetParameter, PutParameter, FitsParameter;
    IntegerLaws();
    StringLaws();
    AnnotationsLaws();
    ParameterLaws();
    ListLaws(PutParameter, GetParameter, FitsParameter);
  }

  lemma FunctionSound(s: Input)
    requires GetFunction(s).Ok?
    ensures SoundRead(PutFunction, GetFunction(s), s) && FitsFunction(GetFunction(s).value.0)
  {
    hide GetU32, PutU32, GetString, PutString, GetAnnotations, PutAnnotations, FitsAnnotations, GetList,
         PutList, GetParameter, PutParameter, FitsParameter;
    IntegerLaws();
    StringLaws();
    AnnotationsLaws();
    ParameterLaws();
    ListLaws(PutParameter, GetParameter, FitsParameter);
  }

  lemma FunctionLocal()
    ensures forall s, t :: GetFunction(s) != Err(UnexpectedEnd) ==>
              GetFunction(More(s, t)) == MoreAfter(GetFunction(s), t)
  {
    hide GetU32, GetString, GetAnnotations, GetList, GetParameter;
    IntegerLocal();
    StringLocal();
    AnnotationsLocal();
    ParameterLocal();
    forall s, t ensures LocalRead(GetParameter, s, t) {}
    ListLocal(GetParameter);
  }

  lemma StructFieldLaws()
    ensures forall v, k, c :: FitsStructField(v) ==> GetStructField(Input(PutStructField(v, k), c)) == Ok((v, Input(k, c)))
    ensures forall s :: SoundRead(PutStructField, GetStructField(s), s)
    ensures forall s :: GetStructField(s).Ok? ==> FitsStructField(GetStructField(s).value.0)
  {
    hide GetType, PutType, GetString, PutString;
    TypeLaws();
    StringLaws();
  }

  lemma StructFieldLocal()
    ensures forall s, t :: GetStructField(s) != Err(UnexpectedEnd) ==>
              GetStructField(More(s, t)) == MoreAfter(GetStructField(s), t)
  {
    hide GetType, GetString;
    TypeLocal();
    StringLocal();
  }

  lemma StructLaws()
    ensures forall v, k, c :: FitsStruct(v) ==> GetStruct(Input(PutStruct(v, k), c)) == Ok((v, Input(k, c)))
    ensures forall s :: SoundRead(PutStruct, GetStruct(s), s)
    ensures forall s :: GetStruct(s).Ok? ==> FitsStruct(GetStruct(s).value.0)
  {
    hide GetString, PutString, GetAnnotations, PutAnnotations, FitsAnnotations, GetList, PutList,
         GetStructField, PutStructField, FitsStructField;
    StringLaws();
    AnnotationsLaws();
    StructFieldLaws();
    ListLaws(PutStructField, GetStructField, FitsStructField);
  }

  lemma StructLocal()
    ensures forall s, t :: GetStruct(s) != Err(UnexpectedEnd) ==>
              GetStruct(More(s, t)) == MoreAfter(GetStruct(s), t)
  {
    hide GetString, GetAnnotations, GetList, GetStructField;
    StringLocal();
    AnnotationsLocal();
    StructFieldLocal();
    forall s, t ensures LocalRead(GetStructField, s, t) {}
    ListLocal(GetStructField);
  }

  lemma BitfieldFieldLaws()
    ensures forall v, k, c :: FitsBitfieldField(v) ==> GetBitfieldField(Input(PutBitfieldField(v, k), c)) == Ok((v, Input(k, c)))
    ensures forall s :: SoundRead(PutBitfieldField, GetBitfieldField(s), s)
    ensures forall s :: GetBitfieldField(s).Ok? ==> FitsBitfieldField(GetBitfieldField(s).value.0)
  {
    hide GetU64, PutU64, GetString, PutString;
    IntegerLaws();
    StringLaws();
  }

  lemma BitfieldFieldLocal()
    ensures forall s, t :: GetBitfieldField(s) != Err(UnexpectedEnd) ==>
              GetBitfieldField(More(s, t)) == MoreAfter(GetBitfieldField(s), t)
  {
    hide GetU64, GetString;
    IntegerLocal();
    StringLocal();
  }

  lemma BitfieldLaws()
    ensures forall v, k, c :: FitsBitfield(v) ==> GetBitfield(Input(PutBitfield(v, k), c)) == Ok((v, Input(k, c)))
    ensures forall s :: SoundRead(PutBitfield, GetBitfield(s), s)
    ensures forall s :: GetBitfield(s).Ok? ==> FitsBitfield(GetBitfield(s).value.0)
  {
    hide GetString, PutString, GetAnnotations, PutAnnotations, FitsAnnotations, GetType, PutType, GetList,
         PutList, GetBitfieldField, PutBitfieldField, FitsBitfieldField;
    StringLaws();
    AnnotationsLaws();
    TypeLaws();
    BitfieldFieldLaws();
    ListLaws(PutBitfieldField, GetBitfieldField, FitsBitfieldField);
  }

  lemma BitfieldLocal()
    ensures forall s, t :: GetBitfield(s) != Err(UnexpectedEnd) ==>
              GetBitfield(More(s, t)) == MoreAfter(GetBitfield(s), t)
  {
    hide GetString, GetAnnotations, GetType, GetList, GetBitfieldField;
    StringLocal();
    AnnotationsLocal();
    TypeLocal();
    BitfieldFieldLocal();
    forall s, t ensures LocalRead(GetBitfieldField, s, t) {}
    ListLocal(GetBitfieldField);
  }

  lemma EnumMemberLaws()
    ensures forall v, k, c :: FitsEnumMember(v) ==> GetEnumMember(Input(PutEnumMember(v, k), c)) == Ok((v, Input(k, c)))
    ensures forall s :: SoundRead(PutEnumMember, GetEnumMember(s), s)
    ensures forall s :: GetEnumMember(s).Ok? ==> FitsEnumMember(GetEnumMember(s).value.0)
  {
    hide GetU64, PutU64, GetString, PutString, GetAnnotations, PutAnnotations, FitsAnnotations;
    IntegerLaws();
    StringLaws();
    AnnotationsLaws();
  }

  lemma EnumMemberLocal()
    ensures forall s, t :: GetEnumMember(s) != Err(UnexpectedEnd) ==>
              GetEnumMember(More(s, t)) == MoreAfter(GetEnumMember(s), t)
  {
    hide GetEnumMember;
    forall s, t | GetEnumMember(s) != Err(UnexpectedEnd)
      ensures GetEnumMember(More(s, t)) == MoreAfter(GetEnumMember(s), t)
    {
      EnumMemberLocalAt(s, t);
    }
  }

  lemma EnumMemberLocalAt(s: Input, t: Bytes)
    requires GetEnumMember(s) != Err(UnexpectedEnd)
    ensures GetEnumMember(More(s, t)) == MoreAfter(GetEnumMember(s), t)
  {
    hide GetU64, GetString, GetAnnotations;
    assert GetString(More(s, t)) == MoreAfter(GetString(s), t) by { StringLocal(); }
    if GetString(s).Ok? {
      var s1 := GetString(s).value.1;
      assert GetU64(More(s1, t)) == MoreAfter(GetU64(s1), t) by { IntegerLocal(); }
      if GetU64(s1).Ok? {
        var s2 := GetU64(s1).value.1;
        assert GetAnnotations(More(s2, t)) == MoreAfter(GetAnnotations(s2), t) by { AnnotationsLocal(); }
      }
    }
  }

  lemma EnumLaws()
    ensures forall v, k, c :: FitsEnum(v) ==> GetEnum(Input(PutEnum(v, k), c)) == Ok((v, Input(k, c)))
    ensures forall s :: SoundRead(PutEnum, GetEnum(s), s)
    ensures forall s :: GetEnum(s).Ok? ==> FitsEnum(GetEnum(s).value.0)
  {
    hide GetString, PutString, GetAnnotations, PutAnnotations, FitsAnnotations, GetType, PutType, GetList,
         PutList, GetEnumMember, PutEnumMember, FitsEnumMember;
    StringLaws();
    AnnotationsLaws();
    TypeLaws();
    EnumMemberLaws();
    ListLaws(PutEnumMember, GetEnumMember, FitsEnumMember);
  }

  lemma EnumLocal()
    ensures forall s, t :: GetEnum(s) != Err(UnexpectedEnd) ==>
              GetEnum(More(s, t)) == MoreAfter(GetEnum(s), t)
  {
    hide GetString, GetAnnotations, GetType, GetList, GetEnumMember;
    StringLocal();
    AnnotationsLocal();
    TypeLocal();
    EnumMemberLocal();
    forall s, t ensures LocalRead(GetEnumMember, s, t) {}
    ListLocal(GetEnumMember);
  }

  lemma BodyRoundTrip(v: Revision, k: Bytes, c: bool)
    requires FitsRevision(v)
    ensures GetBody(v.version, Input(PutBody(v, k), c)) == Ok((v, Input(k, c)))
  {
    hide GetAnnotations, PutAnnotations, FitsAnnotations, GetList, PutList,
         GetBitfield, PutBitfield, FitsBitfield, GetEnum, PutEnum, FitsEnum, GetStruct, PutStruct, FitsStruct, GetFunction, PutFunction, FitsFunction;
    var k4 := PutList(PutFunction, v.functions, k);
    var k3 := PutList(PutStruct, v.structs, k4);
    var k2 := PutList(PutEnum, v.enums, k3);
    var k1 := PutList(PutBitfield, v.bitfields, k2);
    assert GetAnnotations(Input(PutAnnotations(v.annotations, k1), c)) == Ok((v.annotations, Input(k1, c))) by {
      AnnotationsLaws();
    }
    assert GetList(GetBitfield, Input(k1, c)) == Ok((v.bitfields, Input(k2, c))) by {
      BitfieldLaws();
      ListLaws(PutBitfield, GetBitfield, FitsBitfield);
    }
    assert GetList(GetEnum, Input(k2, c)) == Ok((v.enums, Input(k3, c))) by {
      EnumLaws();
      ListLaws(PutEnum, GetEnum, FitsEnum);
    }
    assert GetList(GetStruct, Input(k3, c)) == Ok((v.structs, Input(k4, c))) by {
      StructLaws();
      ListLaws(PutStruct, GetStruct, FitsStruct);
    }
    assert GetList(GetFunction, Input(k4, c)) == Ok((v.functions, Input(k, c))) by {
      FunctionLaws();
      ListLaws(PutFunction, GetFunction, FitsFunction);
    }
  }

  lemma BodySound()
    ensures forall n, s :: SoundRead(PutBody, GetBody(n, s), s)
  {
    hide GetAnnotations, PutAnnotations, FitsAnnotations, GetList, PutList,
         GetBitfield, PutBitfield, FitsBitfield, GetEnum, PutEnum, FitsEnum, GetStruct, PutStruct, FitsStruct, GetFunction, PutFunction, FitsFunction;
    AnnotationsLaws();
    BitfieldLaws();
    ListLaws(PutBitfield, GetBitfield, FitsBitfield);
    EnumLaws();
    ListLaws(PutEnum, GetEnum, FitsEnum);
    StructLaws();
    ListLaws(PutStruct, GetStruct, FitsStruct);
    FunctionLaws();
    ListLaws(PutFunction, GetFunction, FitsFunction);
  }

  lemma BodyFits()
    ensures forall n, s :: GetBody(n, s).Ok? ==> FitsRevision(GetBody(n, s).value.0)
  {
    hide GetAnnotations, PutAnnotations, FitsAnnotations, GetList, PutList,
         GetBitfield, PutBitfield, FitsBitfield, GetEnum, PutEnum, FitsEnum, GetStruct, PutStruct, FitsStruct, GetFunction, PutFunction, FitsFunction;
    AnnotationsLaws();
    BitfieldLaws();
    ListLaws(PutBitfield, GetBitfield, FitsBitfield);
    EnumLaws();
    ListLaws(PutEnum, GetEnum, FitsEnum);
    StructLaws();
    ListLaws(PutStruct, GetStruct, FitsStruct);
    FunctionLaws();
    ListLaws(PutFunction, GetFunction, FitsFunction);
  }

  lemma ListLocalAt<T>(get: Input -> Got<T>, s: Input, t: Bytes)
    requires forall i, j :: LocalRead(get, i, j)
    requires GetList(get, s) != Err(UnexpectedEnd)
    ensures GetList(get, More(s, t)) == MoreAfter(GetList(get, s), t)
  {
    ListLocal(get);
  }

  lemma BodyLocal(n: u64, s: Input, t: Bytes)
    requires GetBody(n, s) != Err(UnexpectedEnd)
    ensures GetBody(n, More(s, t)) == MoreAfter(GetBody(n, s), t)
  {
    hide GetAnnotations, GetList, GetBitfield, GetEnum, GetStruct, GetFunction;
    assert GetAnnotations(More(s, t)) == MoreAfter(GetAnnotations(s), t) by { AnnotationsLocal(); }
    if GetAnnotations(s).Ok? {
      var s1 := GetAnnotations(s).value.1;
      assert GetList(GetBitfield, More(s1, t)) == MoreAfter(GetList(GetBitfield, s1), t) by {
        BitfieldLocal();
        forall i, j ensures LocalRead(GetBitfield, i, j) {}
        ListLocalAt(GetBitfield, s1, t);
      }
      if GetList(GetBitfield, s1).Ok? {
        var s2 := GetList(GetBitfield, s1).value.1;
        assert GetList(GetEnum, More(s2, t)) == MoreAfter(GetList(GetEnum, s2), t) by {
          EnumLocal();
          forall i, j ensures LocalRead(GetEnum, i, j) {}
          ListLocalAt(GetEnum, s2, t);
        }
        if GetList(GetEnum, s2).Ok? {
          var s3 := GetList(GetEnum, s2).value.1;
          assert GetList(GetStruct, More(s3, t)) == MoreAfter(GetList(GetStruct, s3), t) by {
            StructLocal();
            forall i, j ensures LocalRead(GetStruct, i, j) {}
            ListLocalAt(GetStruct, s3, t);
          }
          if GetList(GetStruct, s3).Ok? {
            var s4 := GetList(GetStruct, s3).value.1;
            FunctionLocal();
            forall i, j ensures LocalRead(GetFunction, i, j) {}
            ListLocalAt(GetFunction, s4, t);
          }
        }
      }
    }
  }
}
