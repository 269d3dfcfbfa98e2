/** Which annotations an interface must have and what they mean, said of whole annotation lists
    (core/main.cc: normalize_interface_metadata), and that the one pass of the compiler decides just that. */
module Metadata {
  import opened Octets
  import opened Ast
  import opened SifFormat
  import opened SifArtifact
  import opened UuidText
  import opened Compiling

  function Quoted(s: Bytes): Expression { StringLiteral("\"" + s + "\"") }

  ghost predicate IsQuotedText(v: Expression) { exists s :: v == Quoted(s) }

  predicate Has(vs: seq<Annotation>, name: Bytes) { exists a <- vs :: a.name == name }

  /** What is wrong with annotation `k`, given those before it. */
  ghost function Fault(vs: seq<Annotation>, k: nat): Option<CompileError>
    requires k < |vs|
  {
    var a := vs[k];
    if a.name == "uuid" then
      if Has(vs[..k], "uuid") then Some(DuplicateUuid)
      else if |a.args| != 2 then Some(BadUuidArguments)
      else if !IsQuotedText(a.args[0]) || !IsQuotedText(a.args[1]) then Some(NotAStringLiteral)
      else if exists ns :: a.args[0] == Quoted(ns) && UuidOf(ns).Some? then None else Some(InvalidNamespace)
    else if a.name == "prefix" then
      if Has(vs[..k], "prefix") then Some(DuplicatePrefix)
      else if |a.args| != 1 then Some(BadPrefixArguments)
      else if !IsQuotedText(a.args[0]) then Some(NotAStringLiteral)
      else None
    else None
  }

  ghost predicate NoFaults(vs: seq<Annotation>, n: nat)
    requires n <= |vs|
  {
    forall k :: 0 <= k < n ==> Fault(vs, k) == None
  }

  /** The annotations that are no metadata. */
  function Others(vs: seq<Annotation>): seq<Annotation> {
    if vs == [] then []
    else
      var n := |vs| - 1;
      if vs[n].name == "uuid" || vs[n].name == "prefix" then Others(vs[..n]) else Others(vs[..n]) + [vs[n]]
  }

  /** The namespace and the name of `j` stand in a `@uuid`. */
  ghost predicate UuidFrom(vs: seq<Annotation>, j: Interface) {
    exists k, ns :: 0 <= k < |vs| && vs[k] == Annotation("uuid", [Quoted(ns), Quoted(j.uuidName)])
                    && UuidOf(ns) == Some(j.uuidNamespace)
  }

  ghost predicate PrefixFrom(vs: seq<Annotation>, j: Interface) {
    exists k :: 0 <= k < |vs| && vs[k] == Annotation("prefix", [Quoted(j.prefix)])
  }

  /** `j` is `i` with the metadata that stands in `vs`. */
  ghost predicate Described(i: Interface, vs: seq<Annotation>, j: Interface) {
    && j == i.(hasUuid := j.hasUuid, uuidNamespace := j.uuidNamespace, uuidName := j.uuidName,
               hasPrefix := j.hasPrefix, prefix := j.prefix, annotations := j.annotations)
    && (if Has(vs, "uuid") then j.hasUuid && UuidFrom(vs, j)
        else j.hasUuid == i.hasUuid && j.uuidNamespace == i.uuidNamespace && j.uuidName == i.uuidName)
    && (if Has(vs, "prefix") then j.hasPrefix && PrefixFrom(vs, j)
        else j.hasPrefix == i.hasPrefix && j.prefix == i.prefix)
  }

  // ---------------------------------------------------------------- one annotation

  lemma LiteralIs(v: Expression)
    ensures LiteralArgument(v).Ok? <==> IsQuotedText(v)
    ensures forall s :: v == Quoted(s) <==> LiteralArgument(v) == Ok(s)
    ensures LiteralArgument(v).Err? ==> LiteralArgument(v).error == NotAStringLiteral
  {
    if LiteralArgument(v).Ok? {
      var s := v.value;
      assert s == "\"" + s[1..|s| - 1] + "\"";
      assert v == Quoted(LiteralArgument(v).value);
    }
    forall s | v == Quoted(s) ensures LiteralArgument(v) == Ok(s) {
      assert v.value[1..|v.value| - 1] == s;
    }
  }

  lemma ReadUuidIs(i: Interface, vs: seq<Annotation>, k: nat)
    requires k < |vs| && vs[k].name == "uuid" && !Has(vs[..k], "uuid")
    ensures Fault(vs, k) == match ReadUuid(i, vs[k]) case Err(e) => Some(e) case Ok(_) => None
    ensures ReadUuid(i, vs[k]).Ok? ==>
              var j := ReadUuid(i, vs[k]).value;
              && j == i.(hasUuid := true, uuidNamespace := j.uuidNamespace, uuidName := j.uuidName)
              && exists ns :: vs[k] == Annotation("uuid", [Quoted(ns), Quoted(j.uuidName)])
                              && UuidOf(ns) == Some(j.uuidNamespace)
  {
    hide UuidOf, LiteralArgument, Quoted, IsQuotedText;
    var a := vs[k];
    if |a.args| == 2 {
      LiteralIs(a.args[0]);
      LiteralIs(a.args[1]);
      assert a.args == [a.args[0], a.args[1]];
    }
  }

  lemma ReadPrefixIs(i: Interface, vs: seq<Annotation>, k: nat)
    requires k < |vs| && vs[k].name == "prefix" && !Has(vs[..k], "prefix")
    ensures Fault(vs, k) == match ReadPrefix(i, vs[k]) case Err(e) => Some(e) case Ok(_) => None
    ensures ReadPrefix(i, vs[k]).Ok? ==>
              var j := ReadPrefix(i, vs[k]).value;
              && j == i.(hasPrefix := true, prefix := j.prefix)
              && vs[k] == Annotation("prefix", [Quoted(j.prefix)])
  {
    hide LiteralArgument, Quoted, IsQuotedText;
    var a := vs[k];
    if |a.args| == 1 {
      LiteralIs(a.args[0]);
      assert a.args == [a.args[0]];
    }
  }

  // ---------------------------------------------------------------- the pass

  /** The pass with annotation `k` in front of it, the ones before it being without fault. */
  function Rest(s: Interface, vs: seq<Annotation>, k: nat): Result<Interface, CompileError>
    requires k <= |vs|
  {
    NormaliseFrom(s, vs[k..], Has(vs[..k], "uuid"), Has(vs[..k], "prefix"), Others(vs[..k]))
  }

  lemma HasMore(vs: seq<Annotation>, k: nat, name: Bytes)
    requires k < |vs|
    ensures Has(vs[..k + 1], name) <==> Has(vs[..k], name) || vs[k].name == name
  {
    assert vs[..k + 1] == vs[..k] + [vs[k]];
  }

  lemma OthersMore(vs: seq<Annotation>, k: nat)
    requires k < |vs|
    ensures Others(vs[..k + 1])
            == if vs[k].name == "uuid" || vs[k].name == "prefix" then Others(vs[..k]) else Others(vs[..k]) + [vs[k]]
  {
    assert vs[..k + 1][..k] == vs[..k];
  }

  lemma DifferentNames()
    ensures UUID_NAME == "uuid" && PREFIX_NAME == "prefix" && "uuid" != "prefix"
  {
    assert "uuid"[0] != "prefix"[0];
  }

  lemma PassOne(s: Interface, vs: seq<Annotation>, k: nat) returns (t: Interface)
    requires k < |vs|
    ensures Fault(vs, k).Some? ==> Rest(s, vs, k) == Err(Fault(vs, k).value)
    ensures Fault(vs, k).None? ==> Rest(s, vs, k) == Rest(t, vs, k + 1)
    ensures Fault(vs, k).None? ==>
              t == if vs[k].name == "uuid" then ReadUuid(s, vs[k]).value
                   else if vs[k].name == "prefix" then ReadPrefix(s, vs[k]).value else s
    ensures Fault(vs, k).None? && vs[k].name == "uuid" ==> ReadUuid(s, vs[k]).Ok? && !Has(vs[..k], "uuid")
    ensures Fault(vs, k).None? && vs[k].name == "prefix" ==> ReadPrefix(s, vs[k]).Ok? && !Has(vs[..k], "prefix")
  {
    hide ReadUuid, ReadPrefix, Others, Has;
    DifferentNames();
    t := s;
    assert vs[k..][0] == vs[k] && vs[k..][1..] == vs[k + 1..];
    HasMore(vs, k, "uuid");
    HasMore(vs, k, "prefix");
    OthersMore(vs, k);
    if vs[k].name == "uuid" {
      if !Has(vs[..k], "uuid") {
        ReadUuidIs(s, vs, k);
        if ReadUuid(s, vs[k]).Ok? { t := ReadUuid(s, vs[k]).value; }
      }
    } else if vs[k].name == "prefix" {
      if !Has(vs[..k], "prefix") {
        ReadPrefixIs(s, vs, k);
        if ReadPrefix(s, vs[k]).Ok? { t := ReadPrefix(s, vs[k]).value; }
      }
    }
  }

  lemma UuidFromMore(vs: seq<Annotation>, k: nat, j: Interface)
    requires k < |vs|
    ensures UuidFrom(vs[..k], j) ==> UuidFrom(vs[..k + 1], j)
    ensures (exists ns :: vs[k] == Annotation("uuid", [Quoted(ns), Quoted(j.uuidName)])
                          && UuidOf(ns) == Some(j.uuidNamespace)) ==> UuidFrom(vs[..k + 1], j)
  {
    hide UuidOf, Quoted;
    assert vs[..k + 1][k] == vs[k] && forall l :: 0 <= l < k ==> vs[..k][l] == vs[..k + 1][l];
  }

  lemma PrefixFromMore(vs: seq<Annotation>, k: nat, j: Interface)
    requires k < |vs|
    ensures PrefixFrom(vs[..k], j) ==> PrefixFrom(vs[..k + 1], j)
    ensures vs[k] == Annotation("prefix", [Quoted(j.prefix)]) ==> PrefixFrom(vs[..k + 1], j)
  {
    hide Quoted;
    assert vs[..k + 1][k] == vs[k] && forall l :: 0 <= l < k ==> vs[..k][l] == vs[..k + 1][l];
  }

  /** Only the metadata of the interface matters there. */
  lemma SameMetadata(vs: seq<Annotation>, s: Interface, t: Interface)
    ensures s.uuidName == t.uuidName && s.uuidNamespace == t.uuidNamespace && UuidFrom(vs, s) ==> UuidFrom(vs, t)
    ensures s.prefix == t.prefix && PrefixFrom(vs, s) ==> PrefixFrom(vs, t)
  {
    hide UuidOf, Quoted;
  }

  lemma DescribedMore(i: Interface, vs: seq<Annotation>, k: nat, s: Interface, t: Interface)
    requires k < |vs| && Fault(vs, k).None? && Described(i, vs[..k], s)
    requires t == if vs[k].name == "uuid" then ReadUuid(s, vs[k]).value
                  else if vs[k].name == "prefix" then ReadPrefix(s, vs[k]).value else s
    requires vs[k].name == "uuid" ==> ReadUuid(s, vs[k]).Ok? && !Has(vs[..k], "uuid")
    requires vs[k].name == "prefix" ==> ReadPrefix(s, vs[k]).Ok? && !Has(vs[..k], "prefix")
    ensures Described(i, vs[..k + 1], t)
  {
    hide ReadUuid, ReadPrefix, Has, UuidFrom, PrefixFrom, UuidOf, Quoted, Fault;
    DifferentNames();
    HasMore(vs, k, "uuid");
    HasMore(vs, k, "prefix");
    if vs[k].name == "uuid" { ReadUuidIs(s, vs, k); }
    else if vs[k].name == "prefix" { ReadPrefixIs(s, vs, k); }
    SameMetadata(vs[..k], s, t);
    UuidFromMore(vs, k, t);
    PrefixFromMore(vs, k, t);
  }

  lemma {:induction false} Pass(i: Interface, vs: seq<Annotation>, k: nat) returns (s: Interface)
    requires k <= |vs| && NoFaults(vs, k)
    ensures Rest(i, vs, 0) == Rest(s, vs, k) && Described(i, vs[..k], s) && s.annotations == i.annotations
  {
    hide Fault, Rest, ReadUuid, ReadPrefix, Has, UuidFrom, PrefixFrom;
    if k == 0 {
      s := i;
      NothingHas(vs);
    } else {
      var t := Pass(i, vs, k - 1);
      s := PassOne(t, vs, k - 1);
      DescribedMore(i, vs, k - 1, t, s);
      KeepsAnnotations(t, vs[k - 1]);
    }
  }

  lemma KeepsAnnotations(s: Interface, a: Annotation)
    ensures ReadUuid(s, a).Ok? ==> ReadUuid(s, a).value.annotations == s.annotations
    ensures ReadPrefix(s, a).Ok? ==> ReadPrefix(s, a).value.annotations == s.annotations
  {
  }

  lemma NothingHas(vs: seq<Annotation>)
    ensures !Has(vs[..0], "uuid") && !Has(vs[..0], "prefix") && Others(vs[..0]) == []
  {
  }

  lemma Start(i: Interface)
    ensures Normalise(i) == Rest(i, i.annotations, 0)
  {
    hide NormaliseFrom, Has;
    NothingHas(i.annotations);
    assert i.annotations[0..] == i.annotations;
  }

  lemma Finish(s: Interface, vs: seq<Annotation>)
    ensures Rest(s, vs, |vs|)
            == if !Has(vs, "uuid") then Err(MissingUuid) else if !Has(vs, "prefix") then Err(MissingPrefix)
               else Ok(s.(annotations := Others(vs)))
  {
    hide Has, Others;
    assert vs[..|vs|] == vs && vs[|vs|..] == [];
  }

  // ---------------------------------------------------------------- what normalisation decides

  /** The error is that of the first annotation with a fault, or else that of the missing metadata. */
  ghost predicate ErrorOf(vs: seq<Annotation>, e: CompileError) {
    || (exists k :: 0 <= k < |vs| && Fault(vs, k) == Some(e) && NoFaults(vs, k))
    || (NoFaults(vs, |vs|) && !Has(vs, "uuid") && e == MissingUuid)
    || (NoFaults(vs, |vs|) && Has(vs, "uuid") && !Has(vs, "prefix") && e == MissingPrefix)
  }

  lemma FirstFault(vs: seq<Annotation>, n: nat) returns (k: nat)
    requires n <= |vs|
    ensures k <= n && NoFaults(vs, k) && (k < n ==> Fault(vs, k).Some?)
  {
    hide Fault;
    k := 0;
    while k < n && Fault(vs, k).None?
      invariant k <= n && NoFaults(vs, k)
    {
      k := k + 1;
    }
  }

  lemma Outcome(i: Interface) returns (s: Interface)
    ensures var vs := i.annotations;
            && (NoFaults(vs, |vs|) && Has(vs, "uuid") && Has(vs, "prefix") ==>
                  && Normalise(i) == Ok(s) && Described(i, vs, s) && s.annotations == Others(vs))
            && (!(NoFaults(vs, |vs|) && Has(vs, "uuid") && Has(vs, "prefix")) ==>
                  Normalise(i).Err? && ErrorOf(vs, Normalise(i).error))
  {
    hide Fault, Has, Rest, UuidFrom, PrefixFrom, Others, Normalise;
    var vs := i.annotations;
    var k := FirstFault(vs, |vs|);
    Start(i);
    s := Pass(i, vs, k);
    if k < |vs| {
      var t := PassOne(s, vs, k);
    } else {
      Finish(s, vs);
      assert vs[..|vs|] == vs;
      DescribedAlike(i, vs, s, s.(annotations := Others(vs)));
      s := s.(annotations := Others(vs));
    }
  }

  lemma DescribedAlike(i: Interface, vs: seq<Annotation>, s: Interface, t: Interface)
    requires Described(i, vs, s) && t == s.(annotations := t.annotations)
    ensures Described(i, vs, t)
  {
    hide Has, UuidFrom, PrefixFrom;
    SameMetadata(vs, s, t);
  }

  /** With one `@uuid` and one `@prefix`, they determine the metadata. */
  lemma OneDescription(i: Interface, vs: seq<Annotation>, s: Interface, t: Interface)
    requires NoFaults(vs, |vs|) && Has(vs, "uuid") && Has(vs, "prefix") && s.annotations == t.annotations
    requires Described(i, vs, s) && Described(i, vs, t)
    ensures s == t
  {
    hide UuidOf, Fault, Has;
    var k, ns :| 0 <= k < |vs| && vs[k] == Annotation("uuid", [Quoted(ns), Quoted(s.uuidName)])
                 && UuidOf(ns) == Some(s.uuidNamespace);
    var l, ms :| 0 <= l < |vs| && vs[l] == Annotation("uuid", [Quoted(ms), Quoted(t.uuidName)])
                 && UuidOf(ms) == Some(t.uuidNamespace);
    OnlyOne(vs, k, l);
    QuotedOnce(ns, ms);
    QuotedOnce(s.uuidName, t.uuidName);
    var p :| 0 <= p < |vs| && vs[p] == Annotation("prefix", [Quoted(s.prefix)]);
    var q :| 0 <= q < |vs| && vs[q] == Annotation("prefix", [Quoted(t.prefix)]);
    OnlyOne(vs, p, q);
    QuotedOnce(s.prefix, t.prefix);
  }

  lemma QuotedOnce(s: Bytes, t: Bytes)
    ensures Quoted(s) == Quoted(t) ==> s == t
  {
    LiteralIs(Quoted(s));
  }

  lemma OnlyOne(vs: seq<Annotation>, k: nat, l: nat)
    requires k < |vs| && l < |vs| && NoFaults(vs, |vs|) && vs[k].name == vs[l].name
    requires vs[k].name == "uuid" || vs[k].name == "prefix"
    ensures k == l
  {
    hide Fault;
    if k < l { SecondIsFault(vs, k, l); } else if l < k { SecondIsFault(vs, l, k); }
  }

  lemma SecondIsFault(vs: seq<Annotation>, k: nat, l: nat)
    requires k < l < |vs| && vs[k].name == vs[l].name && (vs[k].name == "uuid" || vs[k].name == "prefix")
    ensures Fault(vs, l) != None
  {
    DifferentNames();
    assert vs[..l][k] == vs[k];
  }

  /** Normalisation succeeds with `j` if and only if no annotation is at fault, there are a `@uuid` and a
      `@prefix`, `j` has their contents, and its annotations are the others in their order. */
  lemma NormalisedExactly(i: Interface, j: Interface)
    ensures Normalise(i) == Ok(j) <==>
            var vs := i.annotations;
            && NoFaults(vs, |vs|) && Has(vs, "uuid") && Has(vs, "prefix")
            && Described(i, vs, j) && j.annotations == Others(vs)
  {
    hide Fault, Has, Normalise, Others, Described, ErrorOf, NoFaults;
    var vs := i.annotations;
    var s := Outcome(i);
    if NoFaults(vs, |vs|) && Has(vs, "uuid") && Has(vs, "prefix") && Described(i, vs, j)
       && j.annotations == Others(vs) {
      OneDescription(i, vs, s, j);
    }
  }

  /** It fails with `e` if and only if that is the first error in source order. */
  lemma FirstErrorExactly(i: Interface, e: CompileError)
    ensures Normalise(i) == Err(e) <==> ErrorOf(i.annotations, e)
  {
    hide Has, Normalise, Others, Described, Fault;
    var vs := i.annotations;
    var s := Outcome(i);
    if ErrorOf(vs, e) && Normalise(i).Err? { OneError(vs, e, Normalise(i).error); }
  }

  lemma OneError(vs: seq<Annotation>, e: CompileError, f: CompileError)
    requires ErrorOf(vs, e) && ErrorOf(vs, f)
    ensures e == f
  {
    hide Has, Fault;
    if k :| 0 <= k < |vs| && Fault(vs, k) == Some(e) && NoFaults(vs, k) {
      assert !NoFaults(vs, |vs|);
      var l :| 0 <= l < |vs| && Fault(vs, l) == Some(f) && NoFaults(vs, l);
      assert k == l;
    } else {
      assert NoFaults(vs, |vs|);
    }
  }
}
