/** Whole artifacts (lang/sif.cc:675-764, 982-1082): the revision hash, `sif_write` and `sif_read` over
    the writer, reader and hash objects, proved against the functions of SifArtifact. */
module SifFiles {
  import opened Octets
  import opened Ast
  import opened SifFormat
  import opened SifArtifact
  import opened SifWriting
  import opened SifReading
  import opened NameUuids
  import SifLaws
  import SifTheorems
  import Sha256

  // ---------------------------------------------------------------- the revision hash

  method ComputeInterfaceUuid(i: Interface) returns (r: Result<Uuid, SifError>)
    ensures r == if i.hasUuid then Ok(InterfaceUuid(LINKED, i)) else Err(NoUuid)
  {
    if !i.hasUuid { return Err(NoUuid); }
    var generator := new NameGenerator(i.uuidNamespace);
    var uuid := generator.Generate(i.uuidName);
    r := Ok(uuid);
  }

  lemma PreimageWritten(uuid: Uuid, v: Revision, previous: Digest, tree: Bytes, s1: Bytes, s2: Bytes, s3: Bytes)
    requires WroteTree(v, previous, [], tree)
    requires WroteString(TAG, [], s1) && WroteBlock(uuid, s1, s2) && WroteBlock(tree, s2, s3)
    ensures s3 == Preimage(uuid, v, previous)
  {
    hide PutString, PutTree;
    assert tree == tree + [] == [] + PutTree(v, previous, []) == PutTree(v, previous, []);
    assert s3 == s3 + [] == s2 + PutBlock(tree, []) == s2 + tree;
    assert s2 + tree == s1 + PutBlock(uuid, tree);
    assert s1 + (uuid + tree) == [] + PutString(TAG, uuid + tree);
  }

  /** Tag, UUID and the octets of the tree through the streaming hash. */
  method HashTree(uuid: Uuid, v: Revision, previous: Digest, sunk: Bytes) returns (digest: Digest)
    requires WroteTree(v, previous, [], sunk)
    ensures digest == RevisionHash(LINKED, uuid, v, previous)
  {
    hide WroteTree, WroteString, WroteBlock, Preimage, Sha256.Hash;
    var sha := new Sha256.Hasher();
    var writer := new BinaryWriter.ToHash(sha);
    var _ := writer.WriteString(TAG);
    ghost var s1 := writer.out;
    writer.WriteBytes(uuid);
    ghost var s2 := writer.out;
    writer.WriteBytes(sunk);
    PreimageWritten(uuid, v, previous, sunk, s1, s2, writer.out);
    digest := sha.Finish();
  }

  method ComputeRevisionHash(i: Interface, v: Revision, previous: Digest) returns (r: Result<Digest, SifError>)
    ensures r == if !i.hasUuid then Err(NoUuid)
                 else if !FitsRevision(v) then Err(TooLarge)
                 else Ok(RevisionHash(LINKED, InterfaceUuid(LINKED, i), v, previous))
  {
    hide WroteTree, FitsRevision, RevisionHash, InterfaceUuid;
    var uuid :- ComputeInterfaceUuid(i);
    var treeWriter := new BinaryWriter.ToBytes();
    var ok := treeWriter.WriteRevisionTree(v, previous);
    if !ok { return Err(TooLarge); }
    var digest := HashTree(uuid, v, previous, treeWriter.sunk);
    r := Ok(digest);
  }

  // ---------------------------------------------------------------- writing

  /** The hash that the next revision links to. */
  function LastOf(table: seq<Digest>): Digest { if table == [] then ZERO_HASH else table[|table| - 1] }

  lemma {:induction false} HashTableSnoc(cr: Crypto, uuid: Uuid, vs: seq<Revision>, v: Revision, previous: Digest)
    ensures var table := HashTable(cr, uuid, vs, previous);
            HashTable(cr, uuid, vs + [v], previous) ==
            table + [RevisionHash(cr, uuid, v, if table == [] then previous else table[|table| - 1])]
    decreases |vs|
  {
    hide RevisionHash;
    if vs == [] {
      assert [] + [v] == [v] && [v][1..] == [];
    } else {
      var h := RevisionHash(cr, uuid, vs[0], previous);
      assert (vs + [v])[1..] == vs[1..] + [v] && (vs + [v])[0] == vs[0];
      HashTableSnoc(cr, uuid, vs[1..], v, h);
    }
  }

  lemma HashStep(uuid: Uuid, vs: seq<Revision>, j: nat, hashes: seq<Digest>)
    requires j < |vs| && hashes == HashTable(LINKED, uuid, vs[..j], ZERO_HASH)
    ensures HashTable(LINKED, uuid, vs[..j + 1], ZERO_HASH) ==
            hashes + [RevisionHash(LINKED, uuid, vs[j], LastOf(hashes))]
  {
    hide HashTable, RevisionHash;
    HashTableSnoc(LINKED, uuid, vs[..j], vs[j], ZERO_HASH);
    assert vs[..j + 1] == vs[..j] + [vs[j]];
  }

  lemma NoHashes(uuid: Uuid, vs: seq<Revision>)
    ensures HashTable(LINKED, uuid, vs[..0], ZERO_HASH) == []
  {
  }

  /** The first loop of `sif_write`. */
  method HashRevisions(i: Interface, vs: seq<Revision>) returns (r: Result<seq<Digest>, SifError>)
    ensures i.hasUuid && (forall v <- vs :: FitsRevision(v)) ==>
              r == Ok(HashTable(LINKED, InterfaceUuid(LINKED, i), vs, ZERO_HASH))
    ensures vs != [] && !i.hasUuid ==> r == Err(NoUuid)
    ensures i.hasUuid && (exists v <- vs :: !FitsRevision(v)) ==> r == Err(TooLarge)
  {
    hide FitsRevision, RevisionHash, HashTable, InterfaceUuid;
    ghost var uuid := InterfaceUuid(LINKED, i);
    var hashes: seq<Digest> := [];
    var previous := ZERO_HASH;
    NoHashes(uuid, vs);
    for j := 0 to |vs|
      invariant j > 0 ==> i.hasUuid
      invariant forall k :: 0 <= k < j ==> FitsRevision(vs[k])
      invariant hashes == HashTable(LINKED, uuid, vs[..j], ZERO_HASH) && previous == LastOf(hashes)
    {
      var h :- ComputeRevisionHash(i, vs[j], previous);
      HashStep(uuid, vs, j, hashes);
      hashes := hashes + [h];
      previous := h;
    }
    assert vs[..|vs|] == vs;
    r := Ok(hashes);
  }

  lemma IdentityWritten(i: Interface, s0: Bytes, s1: Bytes, s2: Bytes, s3: Bytes, s4: Bytes, s5: Bytes)
    requires WroteString(i.name, s0, s1) && WroteBlock(i.uuidNamespace, s1, s2)
    requires WroteString(i.uuidName, s2, s3) && WroteString(i.prefix, s3, s4)
    requires Wrote(PutAnnotations, i.annotations, s4, s5)
    ensures Wrote(PutIdentity, i, s0, s5)
  {
    hide PutString, PutAnnotations;
    forall k ensures s5 + k == s0 + PutIdentity(i, k) {
      var k4 := PutAnnotations(i.annotations, k);
      assert s5 + k == s4 + k4;
      var k3 := PutString(i.prefix, k4);
      assert s4 + k4 == s3 + k3;
      var k2 := PutString(i.uuidName, k3);
      assert s3 + k3 == s2 + k2;
      var k1 := PutBlock(i.uuidNamespace, k2);
      assert s2 + k2 == s1 + k1;
      assert s1 + k1 == s0 + PutString(i.name, k1);
    }
  }

  method WriteInterfaceIdentity(writer: BinaryWriter, i: Interface) returns (r: Option<SifError>)
    requires writer.Valid()
    modifies writer.repr
    ensures writer.Valid()
    ensures r == if !i.hasUuid then Some(NoUuid) else if !i.hasPrefix then Some(NoPrefix)
                 else if !FitsIdentity(i) then Some(TooLarge) else None
    ensures r == None ==> Wrote(PutIdentity, i, old(writer.out), writer.out)
  {
    hide Wrote, WroteString, WroteBlock, FitsAnnotations;
    if !i.hasUuid { return Some(NoUuid); }
    if !i.hasPrefix { return Some(NoPrefix); }
    ghost var s0 := writer.out;
    var ok := writer.WriteString(i.name);
    if !ok { return Some(TooLarge); }
    ghost var s1 := writer.out;
    writer.WriteBytes(i.uuidNamespace);
    ghost var s2 := writer.out;
    ok := writer.WriteString(i.uuidName);
    if !ok { return Some(TooLarge); }
    ghost var s3 := writer.out;
    ok := writer.WriteString(i.prefix);
    if !ok { return Some(TooLarge); }
    ghost var s4 := writer.out;
    ok := writer.WriteAnnotations(i.annotations);
    if !ok { return Some(TooLarge); }
    IdentityWritten(i, s0, s1, s2, s3, s4, writer.out);
    r := None;
  }

  // ---------------------------------------------------------------- the trees, one after the other

  ghost predicate WroteTrees(vs: seq<Revision>, table: seq<Digest>, previous: Digest, before: Bytes, after: Bytes)
    requires |vs| == |table|
  {
    forall k :: after + k == before + PutTrees(vs, table, previous, k)
  }

  lemma {:induction false} TreesSnoc(
    vs: seq<Revision>, table: seq<Digest>, previous: Digest, v: Revision, h: Digest, k: Bytes)
    requires |vs| == |table|
    ensures PutTrees(vs + [v], table + [h], previous, k) ==
            PutTrees(vs, table, previous, PutTree(v, if table == [] then previous else table[|table| - 1], k))
    decreases |vs|
  {
    hide PutTree;
    if vs == [] {
      assert [] + [v] == [v] && [v][1..] == [] && table + [h] == [h];
    } else {
      assert (vs + [v])[1..] == vs[1..] + [v] && (vs + [v])[0] == vs[0];
      assert (table + [h])[1..] == table[1..] + [h] && (table + [h])[0] == table[0];
      TreesSnoc(vs[1..], table[1..], table[0], v, h, k);
    }
  }

  lemma OneMoreTree(
    vs: seq<Revision>, table: seq<Digest>, v: Revision, h: Digest, start: Bytes, before: Bytes, after: Bytes)
    requires |vs| == |table| && WroteTrees(vs, table, ZERO_HASH, start, before)
    requires WroteTree(v, LastOf(table), before, after)
    ensures WroteTrees(vs + [v], table + [h], ZERO_HASH, start, after)
  {
    hide PutTree, PutTrees;
    forall k ensures after + k == start + PutTrees(vs + [v], table + [h], ZERO_HASH, k) {
      TreesSnoc(vs, table, ZERO_HASH, v, h, k);
      var k1 := PutTree(v, LastOf(table), k);
      assert after + k == before + k1;
      assert before + k1 == start + PutTrees(vs, table, ZERO_HASH, k1);
    }
  }

  method WriteTrees(writer: BinaryWriter, vs: seq<Revision>, table: seq<Digest>)
    requires writer.Valid() && |vs| == |table| && forall v <- vs :: FitsRevision(v)
    modifies writer.repr
    ensures writer.Valid() && WroteTrees(vs, table, ZERO_HASH, old(writer.out), writer.out)
  {
    hide FitsRevision, WroteTree;
    ghost var start := writer.out;
    var previous := ZERO_HASH;
    assert WroteTrees(vs[..0], table[..0], ZERO_HASH, start, start);
    hide WroteTrees;
    for j := 0 to |vs|
      invariant writer.Valid() && previous == LastOf(table[..j])
      invariant WroteTrees(vs[..j], table[..j], ZERO_HASH, start, writer.out)
    {
      ghost var before := writer.out;
      var ok := writer.WriteRevisionTree(vs[j], previous);
      OneMoreTree(vs[..j], table[..j], vs[j], table[j], start, before, writer.out);
      assert vs[..j + 1] == vs[..j] + [vs[j]] && table[..j + 1] == table[..j] + [table[j]];
      previous := table[j];
    }
    assert vs[..|vs|] == vs && table[..|vs|] == table;
  }

  lemma DigestWritten(h: Digest, before: Bytes, after: Bytes)
    requires WroteBlock(h, before, after)
    ensures Wrote(PutDigest, h, before, after)
  {
  }

  method WriteTable(writer: BinaryWriter, table: seq<Digest>)
    requires writer.Valid()
    modifies writer.repr
    ensures writer.Valid() && WroteMany(PutDigest, table, old(writer.out), writer.out)
  {
    hide Wrote, WroteMany, WroteBlock;
    ghost var start := writer.out;
    NothingWritten(PutDigest, table, start);
    for j := 0 to |table|
      invariant writer.Valid() && WroteMany(PutDigest, table[..j], start, writer.out)
    {
      ghost var before := writer.out;
      writer.WriteBytes(table[j]);
      DigestWritten(table[j], before, writer.out);
      OneMoreWritten(PutDigest, table, j, start, before, writer.out);
    }
    assert table[..|table|] == table;
  }

  lemma ArtifactWritten(
    i: Interface, table: seq<Digest>,
    s1: Bytes, s2: Bytes, s3: Bytes, s4: Bytes, s5: Bytes, s6: Bytes, s7: Bytes)
    requires i.revisions != [] && table == HashTable(LINKED, InterfaceUuid(LINKED, i), i.revisions, ZERO_HASH)
    requires WroteBlock(MAGIC, [], s1) && WroteU32(0, s1, s2) && Wrote(PutIdentity, i, s2, s3)
    requires WroteU32(|table|, s3, s4) && WroteBlock(table[0], s4, s5) && WroteMany(PutDigest, table, s5, s6)
    requires WroteTrees(i.revisions, table, ZERO_HASH, s6, s7)
    ensures s7 == PutArtifact(LINKED, i, [])
  {
    hide PutU32, PutIdentity, PutMany, PutTrees, HashTable, InterfaceUuid;
    assert s7 == s7 + [];
    var k6 := PutTrees(i.revisions, table, ZERO_HASH, []);
    assert s7 + [] == s6 + k6;
    var k5 := PutMany(PutDigest, table, k6);
    assert s6 + k6 == s5 + k5;
    var k4 := PutBlock(table[0], k5);
    assert s5 + k5 == s4 + k4;
    var k3 := PutU32(|table|, k4);
    assert s4 + k4 == s3 + k3;
    var k2 := PutIdentity(i, k3);
    assert s3 + k3 == s2 + k2;
    var k1 := PutU32(0, k2);
    assert s2 + k2 == s1 + k1;
    assert s1 + k1 == [] + PutBlock(MAGIC, k1) == MAGIC + k1;
  }

  /** `sif_write`: the octets of the file, or the exception. */
  method WriteFile(i: Interface, extensions: seq<Interface>) returns (r: Result<Bytes, SifError>)
    ensures r == SifWrite(LINKED, i, extensions)
  {
    hide Wrote, WroteU32, WroteBlock, WroteMany, WroteTrees, PutArtifact, HashTable, FitsRevision, FitsIdentity,
         InterfaceUuid;
    var revisions := i.revisions;
    for j := 0 to |extensions|
      invariant AllRevisions(i.(revisions := revisions), extensions[j..]) == AllRevisions(i, extensions)
    {
      assert extensions[j..][0] == extensions[j] && extensions[j..][1..] == extensions[j + 1..];
      revisions := revisions + extensions[j].revisions;
    }
    ghost var k := i.(revisions := revisions);
    if revisions == [] { return Err(NoRevisions); }
    var hashes :- HashRevisions(i, revisions);
    var writer := new BinaryWriter.ToBytes();
    writer.WriteBytes(MAGIC);
    ghost var s1 := writer.out;
    writer.WriteU32(0);
    ghost var s2 := writer.out;
    var failed := WriteInterfaceIdentity(writer, i);
    if failed.Some? { return Err(failed.value); }
    ghost var s3 := writer.out;
    var ok := writer.WriteCount(|hashes|);
    if !ok { return Err(TooLarge); }
    ghost var s4 := writer.out;
    writer.WriteBytes(hashes[0]);
    ghost var s5 := writer.out;
    WriteTable(writer, hashes);
    ghost var s6 := writer.out;
    WriteTrees(writer, revisions, hashes);
    SameUuid(i, k);
    SameIdentityWritten(i, k, s2, s3);
    ArtifactWritten(k, hashes, s1, s2, s3, s4, s5, s6, writer.out);
    r := Ok(writer.sunk);
  }

  lemma SameUuid(i: Interface, k: Interface)
    requires k == i.(revisions := k.revisions)
    ensures InterfaceUuid(LINKED, k) == InterfaceUuid(LINKED, i)
  {
  }

  lemma SameIdentityWritten(i: Interface, k: Interface, before: Bytes, after: Bytes)
    requires k == i.(revisions := k.revisions) && Wrote(PutIdentity, i, before, after)
    ensures Wrote(PutIdentity, k, before, after)
  {
    hide PutString, PutAnnotations;
    assert forall x :: PutIdentity(k, x) == PutIdentity(i, x);
  }

  // ---------------------------------------------------------------- reading

  /** The UUID of the interface under construction. */
  ghost function UuidOfNode(owner: InterfaceNode): Uuid
    reads owner`uuidNamespace, owner`uuidName
  {
    NameUuid(owner.uuidNamespace, owner.uuidName)
  }

  /** `read_revision_tree`. */
  method ReadRevisionTree(
    reader: BinaryReader, owner: InterfaceNode, previous: Digest, expected: Digest, index: nat)
    returns (r: Result<Revision, SifError>)
    requires owner.hasUuid
    modifies reader, owner`currentFuncid
    ensures Did(r, GetTree(LINKED, UuidOfNode(owner), previous, expected, index, old(reader.Unread())),
                reader.Unread())
    ensures r.Ok? ==> owner.currentFuncid == FuncidAfter(r.value.functions, old(owner.currentFuncid))
  {
    hide GetU64, GetBlock, GetBody, FitsRevision, RevisionHash, FuncidAfter;
    var version :- reader.ReadU64();
    var link :- reader.ReadHash();
    if version != index { return Err(NotContiguous); }
    if link != previous { return Err(PreviousHashMismatch); }
    ghost var s := reader.Unread();
    var v :- reader.ReadBody(owner, version);
    SifLaws.BodyFits();
    assert FitsRevision(v);
    var i := Interface(owner.name, owner.hasUuid, owner.uuidNamespace, owner.uuidName, owner.hasPrefix,
                       owner.prefix, owner.annotations, owner.abiversions, 0);
    var h := ComputeRevisionHash(i, v, previous);
    if h != Ok(expected) { return Err(RevisionHashMismatch); }
    r := Ok(v);
  }

  /** What a read yields when `vs` were read before. */
  ghost function Behind(vs: seq<Revision>, r: Got<seq<Revision>>): Got<seq<Revision>> {
    match r
    case Ok((ws, s)) => Ok((vs + ws, s))
    case Err(e) => Err(e)
  }

  lemma BehindTwice(vs: seq<Revision>, v: Revision, r: Got<seq<Revision>>)
    ensures Behind(vs, Behind([v], r)) == Behind(vs + [v], r)
  {
    if r.Ok? { assert vs + ([v] + r.value.0) == vs + [v] + r.value.0; }
  }

  /** The trees `vs` have been read, `previous` is the hash to link to, and `now` is left to read. */
  ghost predicate InsideTrees(
    uuid: Uuid, table: seq<Digest>, start: Input, vs: seq<Revision>, previous: Digest, now: Input)
    requires |vs| <= |table|
  {
    GetTrees(LINKED, uuid, table, ZERO_HASH, 0, start) ==
    Behind(vs, GetTrees(LINKED, uuid, table[|vs|..], previous, |vs|, now))
  }

  lemma OneTree(uuid: Uuid, table: seq<Digest>, previous: Digest, index: nat, s: Input)
    requires table != [] && GetTree(LINKED, uuid, previous, table[0], index, s).Ok?
    ensures var (v, next) := GetTree(LINKED, uuid, previous, table[0], index, s).value;
            GetTrees(LINKED, uuid, table, previous, index, s) ==
            Behind([v], GetTrees(LINKED, uuid, table[1..], table[0], index + 1, next))
  {
    hide GetTree;
  }

  lemma TreesStart(uuid: Uuid, table: seq<Digest>, start: Input)
    ensures InsideTrees(uuid, table, start, [], ZERO_HASH, start)
    ensures FuncidAfter(Functions([]), 0) == 0
  {
    hide GetTrees;
    var r := GetTrees(LINKED, uuid, table, ZERO_HASH, 0, start);
    assert table[0..] == table;
    if r.Ok? { assert [] + r.value.0 == r.value.0; }
  }

  lemma TreesStep(
    uuid: Uuid, table: seq<Digest>, start: Input, vs: seq<Revision>, previous: Digest, now: Input, v: Revision,
    next: Input)
    requires |vs| < |table| && InsideTrees(uuid, table, start, vs, previous, now)
    requires GetTree(LINKED, uuid, previous, table[|vs|], |vs|, now) == Ok((v, next))
    ensures InsideTrees(uuid, table, start, vs + [v], table[|vs|], next)
    ensures FuncidAfter(Functions(vs + [v]), 0) == FuncidAfter(v.functions, FuncidAfter(Functions(vs), 0))
  {
    hide GetTree, GetTrees, Behind, Functions, FuncidAfter;
    FuncidOfOneMore(vs, v);
    var left := table[|vs|..];
    assert left[0] == table[|vs|] && left[1..] == table[|vs| + 1..];
    OneTree(uuid, left, previous, |vs|, now);
    BehindTwice(vs, v, GetTrees(LINKED, uuid, left[1..], left[0], |vs| + 1, next));
  }

  lemma TreesEnd(uuid: Uuid, table: seq<Digest>, start: Input, vs: seq<Revision>, previous: Digest, now: Input)
    requires |vs| == |table| && InsideTrees(uuid, table, start, vs, previous, now)
    ensures GetTrees(LINKED, uuid, table, ZERO_HASH, 0, start) == Ok((vs, now))
  {
    assert vs + [] == vs && table[|vs|..] == [];
  }

  lemma TreesFail(
    uuid: Uuid, table: seq<Digest>, start: Input, vs: seq<Revision>, previous: Digest, now: Input, e: SifError)
    requires |vs| < |table| && InsideTrees(uuid, table, start, vs, previous, now)
    requires GetTree(LINKED, uuid, previous, table[|vs|], |vs|, now) == Err(e)
    ensures GetTrees(LINKED, uuid, table, ZERO_HASH, 0, start) == Err(e)
  {
    hide GetTree;
    assert table[|vs|..][0] == table[|vs|];
  }

  lemma FuncidOfOneMore(vs: seq<Revision>, v: Revision)
    ensures FuncidAfter(Functions(vs + [v]), 0) == FuncidAfter(v.functions, FuncidAfter(Functions(vs), 0))
  {
    hide FuncidAfter;
    FunctionsAppend(vs, [v]);
    assert Functions([v]) == v.functions by { assert [v][1..] == []; }
    FuncidAppend(Functions(vs), v.functions, 0);
  }

  /** The loop over the revision trees. */
  method ReadTrees(reader: BinaryReader, owner: InterfaceNode, table: seq<Digest>)
    returns (r: Result<(), SifError>)
    requires owner.hasUuid && owner.abiversions == [] && owner.currentFuncid == 0
    modifies reader, owner`currentFuncid, owner`abiversions
    ensures var got := GetTrees(LINKED, UuidOfNode(owner), table, ZERO_HASH, 0, old(reader.Unread()));
            match r
            case Ok(_) => got == Ok((owner.abiversions, reader.Unread()))
                          && owner.currentFuncid == FuncidAfter(Functions(owner.abiversions), 0)
            case Err(e) => got == Err(e)
  {
    hide GetTrees, GetTree, InsideTrees, FuncidAfter, Functions, UuidOfNode;
    ghost var uuid, start := UuidOfNode(owner), reader.Unread();
    var previous := ZERO_HASH;
    TreesStart(uuid, table, start);
    for j := 0 to |table|
      invariant |owner.abiversions| == j
      invariant owner.currentFuncid == FuncidAfter(Functions(owner.abiversions), 0)
      invariant InsideTrees(uuid, table, start, owner.abiversions, previous, reader.Unread())
    {
      ghost var vs, now := owner.abiversions, reader.Unread();
      var v := ReadRevisionTree(reader, owner, previous, table[j], j);
      if v.Err? {
        TreesFail(uuid, table, start, vs, previous, now, v.error);
        return Err(v.error);
      }
      TreesStep(uuid, table, start, vs, previous, now, v.value, reader.Unread());
      previous := table[j];
      owner.abiversions := owner.abiversions + [v.value];
    }
    TreesEnd(uuid, table, start, owner.abiversions, previous, reader.Unread());
    r := Ok(());
  }

  method ReadTable(reader: BinaryReader, n: nat) returns (r: Result<seq<Digest>, SifError>)
    modifies reader
    ensures Did(r, GetMany(GetDigest, n, old(reader.Unread())), reader.Unread())
    ensures r.Ok? ==> |r.value| == n
  {
    hide GetMany, InsideMany, GetBlock;
    var table: seq<Digest> := [];
    ghost var start := reader.Unread();
    ManyStart(GetDigest, n, start);
    for j := 0 to n
      invariant |table| == j && InsideMany(GetDigest, n, start, table, reader.Unread())
    {
      ghost var now := reader.Unread();
      var h := reader.ReadHash();
      if h.Err? {
        ManyFails(GetDigest, n, start, table, now, h.error);
        return Err(h.error);
      }
      ManyStep(GetDigest, n, start, table, now, h.value, reader.Unread());
      table := table + [h.value];
    }
    ManyEnd(GetDigest, n, start, table, reader.Unread());
    r := Ok(table);
  }

  method ReadMagic(reader: BinaryReader) returns (r: Result<(), SifError>)
    modifies reader
    ensures var got := GetMagic(MAGIC, old(reader.Unread()));
            match r
            case Ok(_) => got == Ok(reader.Unread())
            case Err(e) => got == Err(e)
  {
    hide GetU8;
    ghost var start := reader.Unread();
    for j := 0 to 4
      invariant GetMagic(MAGIC, start) == GetMagic(MAGIC[j..], reader.Unread())
    {
      assert MAGIC[j..][0] == MAGIC[j] && MAGIC[j..][1..] == MAGIC[j + 1..];
      var b :- reader.ReadU8();
      if b != MAGIC[j] { return Err(BadMagic); }
    }
    assert MAGIC[4..] == [];
    r := Ok(());
  }

  method ReadIdentity(reader: BinaryReader, owner: InterfaceNode) returns (r: Result<(), SifError>)
    requires owner.abiversions == [] && owner.currentFuncid == 0
    modifies reader, owner
    ensures var got := GetIdentity(old(reader.Unread()));
            match r
            case Ok(_) => got == Ok((owner.Value(), reader.Unread()))
            case Err(e) => got == Err(e)
    ensures r.Ok? ==> owner.hasUuid && owner.abiversions == [] && owner.currentFuncid == 0
  {
    hide GetString, GetBlock, GetAnnotations;
    owner.name :- reader.ReadString();
    owner.uuidNamespace :- reader.ReadUuid();
    owner.uuidName :- reader.ReadString();
    owner.hasUuid := true;
    owner.prefix :- reader.ReadString();
    owner.hasPrefix := true;
    owner.annotations :- reader.ReadAnnotations();
    r := Ok(());
  }

  /** The magic octets, the format version and the identity, into `owner`. */
  method ReadHeader(reader: BinaryReader, owner: InterfaceNode) returns (r: Result<(), SifError>)
    requires owner.abiversions == [] && owner.currentFuncid == 0
    modifies reader, owner
    ensures var got := GetHeader(old(reader.Unread()));
            match r
            case Ok(_) => got == Ok((owner.Value(), reader.Unread()))
            case Err(e) => got == Err(e)
    ensures r.Ok? ==> owner.hasUuid && owner.abiversions == [] && owner.currentFuncid == 0
  {
    hide GetMagic, GetU32, GetIdentity;
    var _ :- ReadMagic(reader);
    var version :- reader.ReadU32();
    if version != 0 { return Err(UnsupportedVersion); }
    var _ :- ReadIdentity(reader, owner);
    r := Ok(());
  }

  /** The revision count, the root hash and the hash table. */
  method ReadHashes(reader: BinaryReader) returns (r: Result<seq<Digest>, SifError>)
    modifies reader
    ensures Did(r, GetTable(old(reader.Unread())), reader.Unread())
  {
    hide GetU32, GetBlock, GetMany;
    var count :- reader.ReadU32();
    if count == 0 { return Err(NoRevisions); }
    var root :- reader.ReadHash();
    var table :- ReadTable(reader, count);
    if root != table[0] { return Err(RootHashMismatch); }
    r := Ok(table);
  }

  /** `sif_read` of the octets of a file. */
  method ReadFile(source: Bytes) returns (r: Result<Interface, SifError>)
    ensures r == SifRead(LINKED, source)
  {
    hide GetHeader, GetTable, GetTrees, Functions, FuncidAfter, NameUuid;
    var reader := new BinaryReader(source);
    var owner := new InterfaceNode();
    var _ :- ReadHeader(reader, owner);
    var table :- ReadHashes(reader);
    var _ :- ReadTrees(reader, owner, table);
    if reader.rest != [] { return Err(TrailingData); }
    r := Ok(Interface(owner.name, owner.hasUuid, owner.uuidNamespace, owner.uuidName, owner.hasPrefix, owner.prefix,
                      owner.annotations, owner.abiversions, owner.currentFuncid));
  }
}
