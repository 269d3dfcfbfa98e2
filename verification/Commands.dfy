/** The commands over the objects of the program (core/main.cc:108-189, 417-448): metadata
    normalisation in place, `compile`, and `compile -b`, from the octets of files to the octets of
    the artifact, with SHA-256 and the name generator linked in. */
module Commands {
  import opened Octets
  import opened Ast
  import opened SifFormat
  import opened SifArtifact
  import opened SifFiles
  import opened SifReading
  import opened NameUuids
  import opened Compiling
  import UuidText
  import Lexing
  import Parsing
  import DescentParser

  method NormalizeUuid(node: InterfaceNode, a: Annotation) returns (e: Option<CompileError>)
    modifies node`uuidNamespace, node`uuidName, node`hasUuid
    ensures match e
            case None => ReadUuid(old(node.Value()), a) == Ok(node.Value())
            case Some(error) => ReadUuid(old(node.Value()), a) == Err(error)
  {
    hide UuidText.UuidOf, LiteralArgument;
    if |a.args| != 2 { return Some(BadUuidArguments); }
    var ns := LiteralArgument(a.args[0]);
    if ns.Err? { return Some(ns.error); }
    var name := LiteralArgument(a.args[1]);
    if name.Err? { return Some(name.error); }
    var valid := UuidText.IsValidUuid(ns.value);
    if !valid { return Some(InvalidNamespace); }
    var u := UuidText.FromString(ns.value);
    if u.None? { return Some(InvalidNamespace); }
    node.uuidNamespace := u.value;
    node.uuidName := name.value;
    node.hasUuid := true;
    e := None;
  }

  method NormalizePrefix(node: InterfaceNode, a: Annotation) returns (e: Option<CompileError>)
    modifies node`prefix, node`hasPrefix
    ensures match e
            case None => ReadPrefix(old(node.Value()), a) == Ok(node.Value())
            case Some(error) => ReadPrefix(old(node.Value()), a) == Err(error)
  {
    hide LiteralArgument;
    if |a.args| != 1 { return Some(BadPrefixArguments); }
    var prefix := LiteralArgument(a.args[0]);
    if prefix.Err? { return Some(prefix.error); }
    node.prefix := prefix.value;
    node.hasPrefix := true;
    e := None;
  }

  lemma NormaliseStep(
    i: Interface, todo: seq<Annotation>, foundUuid: bool, foundPrefix: bool, remaining: seq<Annotation>)
    requires todo != []
    ensures var a := todo[0];
            var r := NormaliseFrom(i, todo, foundUuid, foundPrefix, remaining);
            && (a.name == UUID_NAME && foundUuid ==> r == Err(DuplicateUuid))
            && (a.name == UUID_NAME && !foundUuid ==>
                  (ReadUuid(i, a).Err? ==> r == Err(ReadUuid(i, a).error)) &&
                  (ReadUuid(i, a).Ok? ==> r == NormaliseFrom(ReadUuid(i, a).value, todo[1..], true, foundPrefix, remaining)))
            && (a.name == PREFIX_NAME && foundPrefix ==> r == Err(DuplicatePrefix))
            && (a.name == PREFIX_NAME && !foundPrefix ==>
                  (ReadPrefix(i, a).Err? ==> r == Err(ReadPrefix(i, a).error)) &&
                  (ReadPrefix(i, a).Ok? ==> r == NormaliseFrom(ReadPrefix(i, a).value, todo[1..], foundUuid, true, remaining)))
            && (a.name != UUID_NAME && a.name != PREFIX_NAME ==>
                  r == NormaliseFrom(i, todo[1..], foundUuid, foundPrefix, remaining + [a]))
  {
    hide ReadUuid, ReadPrefix;
    assert UUID_NAME != PREFIX_NAME;
  }

  /** `normalize_interface_metadata`: one pass over the annotations of `node`. */
  method NormalizeInterfaceMetadata(node: InterfaceNode) returns (e: Option<CompileError>)
    modifies node
    ensures match e
            case None => Normalise(old(node.Value())) == Ok(node.Value())
            case Some(error) => Normalise(old(node.Value())) == Err(error)
  {
    hide ReadUuid, ReadPrefix, NormaliseFrom;
    var foundUuid, foundPrefix := false, false;
    var remaining: seq<Annotation> := [];
    var todo := node.annotations;
    ghost var result := Normalise(node.Value());
    assert todo[0..] == todo;
    for j := 0 to |todo|
      invariant NormaliseFrom(node.Value(), todo[j..], foundUuid, foundPrefix, remaining) == result
    {
      var a := todo[j];
      assert todo[j..][0] == a && todo[j..][1..] == todo[j + 1..];
      NormaliseStep(node.Value(), todo[j..], foundUuid, foundPrefix, remaining);
      if a.name != UUID_NAME && a.name != PREFIX_NAME {
        remaining := remaining + [a];
        continue;
      }
      if a.name == UUID_NAME {
        if foundUuid { return Some(DuplicateUuid); }
        e := NormalizeUuid(node, a);
        if e.Some? { return; }
        foundUuid := true;
        continue;
      }
      if foundPrefix { return Some(DuplicatePrefix); }
      e := NormalizePrefix(node, a);
      if e.Some? { return; }
      foundPrefix := true;
    }
    assert todo[|todo|..] == [];
    NormaliseEnd(node.Value(), foundUuid, foundPrefix, remaining);
    if !foundUuid { return Some(MissingUuid); }
    if !foundPrefix { return Some(MissingPrefix); }
    node.annotations := remaining;
    e := None;
  }

  lemma NormaliseEnd(i: Interface, foundUuid: bool, foundPrefix: bool, remaining: seq<Annotation>)
    ensures NormaliseFrom(i, [], foundUuid, foundPrefix, remaining) ==
            if !foundUuid then Err(MissingUuid)
            else if !foundPrefix then Err(MissingPrefix)
            else Ok(i.(annotations := remaining))
  {
  }

  /** `parse_interface_file`, from the octets of the file. */
  method ParseInterfaceFile(source: Bytes, firstRevision: u64, firstFuncid: u32)
    returns (r: Result<Interface, CompileError>)
    ensures r == ParseSource(source, firstRevision, firstFuncid)
  {
    hide Parsing.ParseInterface, Normalise, Lexing.Tokens;
    var parser := new DescentParser.Parser(source, firstRevision, firstFuncid);
    var node := parser.Parse();
    if node.Err? { return Err(Parse(node.error)); }
    var n := node.value;
    var e := NormalizeInterfaceMetadata(n);
    if e.Some? { return Err(e.value); }
    r := Ok(Interface(n.name, n.hasUuid, n.uuidNamespace, n.uuidName, n.hasPrefix, n.prefix, n.annotations,
                      n.abiversions, n.currentFuncid));
  }

  /** `command_compile`, with the base artifact if there is one. */
  method CommandCompile(source: Bytes, base: Option<Bytes>) returns (r: Result<Bytes, CompileError>)
    ensures r == match base
                 case None => Compile(LINKED, source)
                 case Some(b) => Extend(LINKED, b, source)
  {
    hide ParseSource, SifRead, SifWrite, Validate;
    var baseInterface: Option<Interface> := None;
    var firstRevision: u64, firstFuncid: u32 := 0, 0;
    if base.Some? {
      var i := ReadFile(base.value);
      if i.Err? { return Err(Base(i.error)); }
      baseInterface := Some(i.value);
      firstRevision := |i.value.revisions| % TWO64;
      firstFuncid := i.value.currentFuncid;
    }
    var j :- ParseInterfaceFile(source, firstRevision, firstFuncid);
    var written: Result<Bytes, SifError>;
    match baseInterface {
      case Some(i) =>
        var mismatch := Validate(i, j);
        if mismatch.Some? { return Err(mismatch.value); }
        written := WriteFile(i, [j]);
      case None =>
        written := WriteFile(j, []);
    }
    if written.Err? { return Err(Write(written.error)); }
    r := Ok(written.value);
  }
}
