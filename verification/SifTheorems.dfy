/** What an accepted artifact is: the reader inverts the writer, accepted octets are the writer's
    up to non-canonical const flags, no artifact is a prefix of another, and the last revision
    hash binds the whole history unless a hash collision is in hand. */
module SifTheorems {
  import opened Octets
  import opened Ast
  import opened SifFormat
  import opened SifLaws
  import opened SifArtifact

  // ---------------------------------------------------------------- one revision tree

  lemma TreeRoundTrip(
    cr: Crypto, uuid: Uuid, v: Revision, previous: Digest, index: nat, k: Bytes, c: bool)
    requires FitsRevision(v) && v.version == index
    ensures GetTree(cr, uuid, previous, RevisionHash(cr, uuid, v, previous), index,
                    Input(PutTree(v, previous, k), c)) == Ok((v, Input(k, c)))
  {
    hide GetBody, PutBody, GetU64, PutU64, RevisionHash;
    IntegerLaws();
    BodyRoundTrip(v, k, c);
    var rest := previous + PutBody(v, k);
    assert GetDigest(Input(rest, c)) == Ok((previous, Input(PutBody(v, k), c)));
  }

  lemma TreeSound(
    cr: Crypto, uuid: Uuid, previous: Digest, expected: Digest, index: nat, s: Input)
    requires GetTree(cr, uuid, previous, expected, index, s).Ok?
    ensures var (v, s1) := GetTree(cr, uuid, previous, expected, index, s).value;
            && FitsRevision(v) && v.version == index
            && expected == RevisionHash(cr, uuid, v, previous)
            && (s1.canonical ==> s.canonical && s.bytes == PutTree(v, previous, s1.bytes))
  {
    hide GetBody, PutBody, GetU64, PutU64, RevisionHash, FitsRevision;
    IntegerLaws();
    var (version, s1) := GetU64(s).value;
    var (link, s2) := GetDigest(s1).value;
    assert s1.bytes == link + s2.bytes;
    BodyFits();
    BodySound();
    assert SoundRead(PutBody, GetBody(version, s2), s2);
  }

  lemma TreeLocal(
    cr: Crypto, uuid: Uuid, previous: Digest, expected: Digest, index: nat, s: Input, t: Bytes)
    requires GetTree(cr, uuid, previous, expected, index, s) != Err(UnexpectedEnd)
    ensures GetTree(cr, uuid, previous, expected, index, More(s, t)) ==
            MoreAfter(GetTree(cr, uuid, previous, expected, index, s), t)
  {
    hide GetBody, GetU64, RevisionHash, GetBlock;
    IntegerLocal();
    if GetU64(s).Ok? {
      var (version, s1) := GetU64(s).value;
      BlockLocal(32, s1, t);
      if GetDigest(s1).Ok? {
        var (link, s2) := GetDigest(s1).value;
        if version == index && link == previous { BodyLocal(version, s2, t); }
      }
    }
  }

  // ---------------------------------------------------------------- the chain of trees

  ghost predicate Contiguous(vs: seq<Revision>, first: nat) {
    forall j :: 0 <= j < |vs| ==> vs[j].version == first + j
  }

  lemma {:induction false} TreesRoundTrip(
    cr: Crypto, uuid: Uuid, vs: seq<Revision>, previous: Digest, index: nat, k: Bytes, c: bool)
    requires Contiguous(vs, index) && forall v <- vs :: FitsRevision(v)
    ensures var table := HashTable(cr, uuid, vs, previous);
            GetTrees(cr, uuid, table, previous, index, Input(PutTrees(vs, table, previous, k), c))
            == Ok((vs, Input(k, c)))
  {
    hide GetTree, PutTree, FitsRevision;
    if vs != [] {
      var table := HashTable(cr, uuid, vs, previous);
      TreeRoundTrip(cr, uuid, vs[0], previous, index,
                    PutTrees(vs[1..], table[1..], table[0], k), c);
      assert Contiguous(vs[1..], index + 1) by {
        forall j | 0 <= j < |vs[1..]| ensures vs[1..][j].version == index + 1 + j {
          assert vs[1..][j] == vs[j + 1];
        }
      }
      TreesRoundTrip(cr, uuid, vs[1..], table[0], index + 1, k, c);
      assert vs == [vs[0]] + vs[1..];
    }
  }

  lemma {:induction false} TreesSound(
    cr: Crypto, uuid: Uuid, table: seq<Digest>, previous: Digest, index: nat, s: Input)
    requires GetTrees(cr, uuid, table, previous, index, s).Ok?
    ensures var (vs, s1) := GetTrees(cr, uuid, table, previous, index, s).value;
            && Contiguous(vs, index) && (forall v <- vs :: FitsRevision(v))
            && table == HashTable(cr, uuid, vs, previous)
            && (s1.canonical ==> s.canonical && s.bytes == PutTrees(vs, table, previous, s1.bytes))
  {
    hide GetTree, PutTree, FitsRevision;
    if table != [] {
      TreeSound(cr, uuid, previous, table[0], index, s);
      var (v, s1) := GetTree(cr, uuid, previous, table[0], index, s).value;
      TreesSound(cr, uuid, table[1..], table[0], index + 1, s1);
      var (tail, s2) := GetTrees(cr, uuid, table[1..], table[0], index + 1, s1).value;
      var vs := GetTrees(cr, uuid, table, previous, index, s).value.0;
      assert vs == [v] + tail && vs[1..] == tail;
    }
  }

  lemma {:induction false} TreesLocal(
    cr: Crypto, uuid: Uuid, table: seq<Digest>, previous: Digest, index: nat, s: Input, t: Bytes)
    requires GetTrees(cr, uuid, table, previous, index, s) != Err(UnexpectedEnd)
    ensures GetTrees(cr, uuid, table, previous, index, More(s, t)) ==
            MoreAfter(GetTrees(cr, uuid, table, previous, index, s), t)
  {
    hide GetTree;
    if table != [] {
      TreeLocal(cr, uuid, previous, table[0], index, s, t);
      if GetTree(cr, uuid, previous, table[0], index, s).Ok? {
        TreesLocal(cr, uuid, table[1..], table[0], index + 1,
                   GetTree(cr, uuid, previous, table[0], index, s).value.1, t);
      }
    }
  }

  // ---------------------------------------------------------------- the header

  lemma {:induction false} MagicSound(magic: Bytes, s: Input)
    requires GetMagic(magic, s).Ok?
    ensures s.bytes == magic + GetMagic(magic, s).value.bytes
    ensures s.canonical == GetMagic(magic, s).value.canonical
  {
    if magic != [] {
      MagicSound(magic[1..], GetU8(s).value.1);
      assert s.bytes == [magic[0]] + s.bytes[1..];
      assert magic == [magic[0]] + magic[1..];
    }
  }

  lemma {:induction false} MagicRoundTrip(magic: Bytes, k: Bytes, c: bool)
    ensures GetMagic(magic, Input(magic + k, c)) == Ok(Input(k, c))
  {
    if magic != [] {
      assert (magic + k)[1..] == magic[1..] + k;
      MagicRoundTrip(magic[1..], k, c);
    } else {
      assert magic + k == k;
    }
  }

  lemma {:induction false} MagicLocal(magic: Bytes, s: Input, t: Bytes)
    requires GetMagic(magic, s) != Err(UnexpectedEnd)
    ensures GetMagic(magic, More(s, t)) ==
            match GetMagic(magic, s) { case Ok(r) => Ok(More(r, t)) case Err(e) => Err(e) }
  {
    if magic != [] {
      U8Local();
      if GetU8(s).value.0 == magic[0] { MagicLocal(magic[1..], GetU8(s).value.1, t); }
    }
  }

  function Bare(i: Interface): Interface { i.(revisions := [], currentFuncid := 0) }

  function PutHeader(i: Interface, k: Bytes): Bytes { MAGIC + PutU32(0, PutIdentity(i, k)) }

  lemma HeaderRoundTrip(i: Interface, k: Bytes, c: bool)
    requires i.hasUuid && i.hasPrefix && FitsIdentity(i)
    ensures GetHeader(Input(PutHeader(i, k), c)) == Ok((Bare(i), Input(k, c)))
  {
    hide GetString, PutString, GetU32, PutU32, GetAnnotations, PutAnnotations, FitsAnnotations, GetMagic;
    MagicRoundTrip(MAGIC, PutU32(0, PutIdentity(i, k)), c);
    IntegerLaws();
    StringLaws();
    AnnotationsLaws();
    var k2 := PutString(i.uuidName, PutString(i.prefix, PutAnnotations(i.annotations, k)));
    assert GetUuid(Input(i.uuidNamespace + k2, c)) == Ok((i.uuidNamespace, Input(k2, c)));
  }

  lemma HeaderSound(s: Input)
    requires GetHeader(s).Ok?
    ensures var (i, s1) := GetHeader(s).value;
            && i == Bare(i) && i.hasUuid && i.hasPrefix && FitsIdentity(i)
            && (s1.canonical ==> s.canonical && s.bytes == PutHeader(i, s1.bytes))
  {
    hide GetString, PutString, GetU32, PutU32, GetAnnotations, PutAnnotations, FitsAnnotations, GetMagic;
    MagicSound(MAGIC, s);
    IntegerLaws();
    StringLaws();
    AnnotationsLaws();
    var s1 := GetMagic(MAGIC, s).value;
    var s2 := GetU32(s1).value.1;
    var (name, s3) := GetString(s2).value;
    var (ns, s4) := GetUuid(s3).value;
    assert s3.bytes == ns + s4.bytes;
    var (uuidName, s5) := GetString(s4).value;
    var (prefix, s6) := GetString(s5).value;
    assert SoundRead(PutAnnotations, GetAnnotations(s6), s6);
    assert SoundRead(PutString, GetString(s5), s5);
    assert SoundRead(PutString, GetString(s4), s4);
    assert SoundRead(PutString, GetString(s2), s2);
  }

  lemma HeaderLocal(s: Input, t: Bytes)
    requires GetHeader(s) != Err(UnexpectedEnd)
    ensures GetHeader(More(s, t)) == MoreAfter(GetHeader(s), t)
  {
    hide GetString, GetU32, GetAnnotations, GetMagic, GetBlock;
    MagicLocal(MAGIC, s, t);
    if GetMagic(MAGIC, s).Ok? {
      var s1 := GetMagic(MAGIC, s).value;
      IntegerLocal();
      if GetU32(s1).Ok? && GetU32(s1).value.0 == 0 {
        var s2 := GetU32(s1).value.1;
        assert GetString(More(s2, t)) == MoreAfter(GetString(s2), t) by { StringLocal(); }
        if GetString(s2).Ok? {
          var s3 := GetString(s2).value.1;
          BlockLocal(16, s3, t);
          if GetUuid(s3).Ok? {
            var s4 := GetUuid(s3).value.1;
            assert GetString(More(s4, t)) == MoreAfter(GetString(s4), t) by { StringLocal(); }
            if GetString(s4).Ok? {
              var s5 := GetString(s4).value.1;
              assert GetString(More(s5, t)) == MoreAfter(GetString(s5), t) by { StringLocal(); }
              if GetString(s5).Ok? {
                var s6 := GetString(s5).value.1;
                assert GetAnnotations(More(s6, t)) == MoreAfter(GetAnnotations(s6), t) by { AnnotationsLocal(); }
              }
            }
          }
        }
      }
    }
  }

  // ---------------------------------------------------------------- the artifact

  lemma TableRoundTrip(table: seq<Digest>, k: Bytes, c: bool)
    requires table != [] && FitsCount(|table|)
    ensures GetTable(Input(PutTable(table, k), c)) == Ok((table, Input(k, c)))
  {
    hide GetU32, PutU32, GetMany, PutMany;
    IntegerLaws();
    var k1 := PutMany(PutDigest, table, k);
    assert GetDigest(Input(table[0] + k1, c)) == Ok((table[0], Input(k1, c)));
    forall v: Digest, j ensures GetDigest(Input(PutDigest(v, j), c)) == Ok((v, Input(j, c))) {}
    ManyRoundTrip(PutDigest, GetDigest, table, k, c);
  }

  lemma TableSound(s: Input)
    requires GetTable(s).Ok?
    ensures var (table, s1) := GetTable(s).value;
            s1.canonical ==> s.canonical && s.bytes == PutTable(table, s1.bytes)
  {
    hide GetU32, PutU32, GetMany, PutMany;
    IntegerLaws();
    var (n, s1) := GetU32(s).value;
    var (root, s2) := GetDigest(s1).value;
    assert s1.bytes == root + s2.bytes;
    if GetMany(GetDigest, n, s2).value.1.canonical { EntriesSound(n, s2); }
  }

  lemma EntriesSound(n: nat, s: Input)
    requires GetMany(GetDigest, n, s).Ok? && GetMany(GetDigest, n, s).value.1.canonical
    ensures s.canonical
    ensures s.bytes == PutMany(PutDigest, GetMany(GetDigest, n, s).value.0, GetMany(GetDigest, n, s).value.1.bytes)
  {
    forall i ensures SoundRead(PutDigest, GetDigest(i), i) {
      if GetDigest(i).Ok? { assert i.bytes == i.bytes[..32] + i.bytes[32..]; }
    }
    ManySound(PutDigest, GetDigest, n, s);
  }

  lemma EntriesLocal(n: nat, s: Input, t: Bytes)
    requires GetMany(GetDigest, n, s) != Err(UnexpectedEnd)
    ensures GetMany(GetDigest, n, More(s, t)) == MoreAfter(GetMany(GetDigest, n, s), t)
  {
    forall i, j ensures LocalRead(GetDigest, i, j) {
      if GetDigest(i) != Err(UnexpectedEnd) { BlockLocal(32, i, j); }
    }
    ManyLocal(GetDigest, n, s, t);
  }

  lemma TableLocal(s: Input, t: Bytes)
    requires GetTable(s) != Err(UnexpectedEnd)
    ensures GetTable(More(s, t)) == MoreAfter(GetTable(s), t)
  {
    hide GetU32, GetMany, GetBlock;
    assert GetU32(More(s, t)) == MoreAfter(GetU32(s), t) by { IntegerLocal(); }
    if GetU32(s).Ok? && GetU32(s).value.0 != 0 {
      var (n, s1) := GetU32(s).value;
      BlockLocal(32, s1, t);
      if GetDigest(s1).Ok? { EntriesLocal(n, GetDigest(s1).value.1, t); }
    }
  }

  /** The interface as a reader reports it: `current_funcid` recomputed from the function ids. */
  function Reread(i: Interface): Interface {
    i.(currentFuncid := FuncidAfter(Functions(i.revisions), 0))
  }

  ghost predicate Writable(i: Interface) {
    && i.hasUuid && i.hasPrefix && FitsIdentity(i)
    && i.revisions != [] && FitsCount(|i.revisions|)
    && Contiguous(i.revisions, 0) && forall v <- i.revisions :: FitsRevision(v)
  }

  lemma ArtifactRoundTrip(cr: Crypto, i: Interface, k: Bytes, c: bool)
    requires Writable(i)
    ensures GetArtifact(cr, Input(PutArtifact(cr, i, k), c)) == Ok((Reread(i), Input(k, c)))
  {
    hide GetHeader, PutIdentity, GetTable, PutTable, PutU32, GetTrees, PutTrees, HashTable, FitsRevision, FitsIdentity;
    var uuid := InterfaceUuid(cr, i);
    var table := HashTable(cr, uuid, i.revisions, ZERO_HASH);
    var k2 := PutTrees(i.revisions, table, ZERO_HASH, k);
    var k1 := PutTable(table, k2);
    assert PutArtifact(cr, i, k) == PutHeader(i, k1);
    HeaderRoundTrip(i, k1, c);
    TableRoundTrip(table, k2, c);
    TreesRoundTrip(cr, uuid, i.revisions, ZERO_HASH, 0, k, c);
  }

  /** The hash table as it stands in the octets, whatever the revisions behind it are. */
  function StoredTable(b: Bytes): seq<Digest> {
    match GetHeader(Input(b, true))
    case Err(_) => []
    case Ok((_, s)) =>
      match GetTable(s)
      case Err(_) => []
      case Ok((table, _)) => table
  }

  /** What a reader accepts has contiguous revisions and can be written; its stored table is the one
      recomputed from its revisions; and if its const flags are 0 and 1, its octets are the writer's. */
  lemma ArtifactSound(cr: Crypto, s: Input)
    requires GetArtifact(cr, s).Ok?
    ensures var (i, s1) := GetArtifact(cr, s).value;
            && Writable(i) && i == Reread(i)
            && GetTable(GetHeader(s).value.1).value.0 == HashTable(cr, InterfaceUuid(cr, i), i.revisions, ZERO_HASH)
            && (s1.canonical ==> s.canonical && s.bytes == PutArtifact(cr, i, s1.bytes))
  {
    hide GetHeader, GetTable, GetTrees, HashTable, FitsRevision, FitsIdentity,
         FuncidAfter, Functions, Contiguous, PutArtifact, PutHeader, PutTable, PutTrees;
    var (i0, s1) := GetHeader(s).value;
    var (table, s2) := GetTable(s1).value;
    var (vs, s3) := GetTrees(cr, InterfaceUuid(cr, i0), table, ZERO_HASH, 0, s2).value;
    var i := GetArtifact(cr, s).value.0;
    HeaderSound(s);
    TableSound(s1);
    TreesSound(cr, InterfaceUuid(cr, i0), table, ZERO_HASH, 0, s2);
    SameIdentity(i, i0);
    ArtifactOctets(cr, i, i0, table, s3.bytes);
  }

  lemma ArtifactOctets(cr: Crypto, i: Interface, i0: Interface, table: seq<Digest>, k: Bytes)
    requires i == i0.(revisions := i.revisions, currentFuncid := i.currentFuncid) && i.revisions != []
    requires table == HashTable(cr, InterfaceUuid(cr, i), i.revisions, ZERO_HASH)
    ensures PutHeader(i0, PutTable(table, PutTrees(i.revisions, table, ZERO_HASH, k))) == PutArtifact(cr, i, k)
  {
    hide PutTable, PutTrees, HashTable, PutU32, PutIdentity;
    SameHeader(i, i0, PutTable(table, PutTrees(i.revisions, table, ZERO_HASH, k)));
  }

  lemma SameIdentity(i: Interface, j: Interface)
    requires i == j.(revisions := i.revisions, currentFuncid := i.currentFuncid)
    ensures FitsIdentity(i) == FitsIdentity(j)
  {
  }

  lemma SameHeader(i: Interface, j: Interface, k: Bytes)
    requires i == j.(revisions := i.revisions, currentFuncid := i.currentFuncid)
    ensures PutHeader(i, k) == PutHeader(j, k)
  {
  }

  lemma ArtifactLocal(cr: Crypto, s: Input, t: Bytes)
    requires GetArtifact(cr, s) != Err(UnexpectedEnd)
    ensures GetArtifact(cr, More(s, t)) == MoreAfter(GetArtifact(cr, s), t)
  {
    hide GetHeader, GetTable, GetTrees, FuncidAfter, Functions;
    HeaderLocal(s, t);
    if GetHeader(s).Ok? {
      var (i, s1) := GetHeader(s).value;
      TableLocal(s1, t);
      if GetTable(s1).Ok? {
        var (table, s2) := GetTable(s1).value;
        TreesLocal(cr, InterfaceUuid(cr, i), table, ZERO_HASH, 0, s2, t);
      }
    }
  }

  // ---------------------------------------------------------------- main theorems

  /** Reading what was written gives back the base revisions followed by the extension revisions. */
  lemma ReadAfterWrite(cr: Crypto, i: Interface, extensions: seq<Interface>, b: Bytes)
    requires SifWrite(cr, i, extensions) == Ok(b)
    requires Contiguous(AllRevisions(i, extensions), 0)
    ensures SifRead(cr, b) == Ok(Reread(i.(revisions := AllRevisions(i, extensions))))
    ensures CanonicalFlags(cr, b)
  {
    hide GetArtifact, PutArtifact, FitsIdentity, FitsRevision;
    var j := i.(revisions := AllRevisions(i, extensions));
    assert FitsIdentity(j) by { SameIdentity(j, i); }
    ArtifactRoundTrip(cr, j, [], true);
  }

  /** Exactly the artifacts with const flags 0 and 1 are reproduced; every accepted artifact can be
      rewritten, and the rewritten octets read back as the same interface. */
  lemma WriteAfterRead(cr: Crypto, b: Bytes, i: Interface)
    requires SifRead(cr, b) == Ok(i)
    ensures SifWrite(cr, i, []).Ok?
    ensures SifRead(cr, SifWrite(cr, i, []).value) == Ok(i)
    ensures CanonicalFlags(cr, b) <==> SifWrite(cr, i, []) == Ok(b)
  {
    hide GetArtifact, PutArtifact, FitsIdentity, FitsRevision;
    ArtifactSound(cr, Input(b, true));
    assert i.(revisions := i.revisions) == i;
    ReadAfterWrite(cr, i, [], PutArtifact(cr, i, []));
  }

  /** No accepted artifact is a proper prefix of an accepted artifact: cutting one short always
      runs out of input, and appending to one is always reported as trailing data. */
  lemma PrefixFree(cr: Crypto, b: Bytes, n: nat, t: Bytes)
    requires SifRead(cr, b).Ok?
    ensures n < |b| ==> SifRead(cr, b[..n]) == Err(UnexpectedEnd)
    ensures t != [] ==> SifRead(cr, b + t) == Err(TrailingData)
  {
    hide GetArtifact;
    ArtifactLocal(cr, Input(b, true), t);
    if n < |b| {
      assert b[..n] + b[n..] == b;
      if GetArtifact(cr, Input(b[..n], true)) != Err(UnexpectedEnd) {
        ArtifactLocal(cr, Input(b[..n], true), b[n..]);
        assert false;
      }
    }
  }

  // ---------------------------------------------------------------- hash chain binding

  /** The previous hash stored in the tree of revision `j` of `i`. */
  function LinkAt(cr: Crypto, i: Interface, j: nat): Digest
    requires j < |i.revisions|
  {
    if j == 0 then ZERO_HASH else HashTable(cr, InterfaceUuid(cr, i), i.revisions, ZERO_HASH)[j - 1]
  }

  /** The octets hashed for revision `j` of `i`. */
  function PreimageAt(cr: Crypto, i: Interface, j: nat): Bytes
    requires j < |i.revisions|
  {
    Preimage(InterfaceUuid(cr, i), i.revisions[j], LinkAt(cr, i, j))
  }

  function Last(table: seq<Digest>): Digest
    requires table != []
  {
    table[|table| - 1]
  }

  /** The table stored in an accepted artifact is the one recomputed from its revisions. */
  lemma StoredIsRecomputed(cr: Crypto, b: Bytes, i: Interface)
    requires SifRead(cr, b) == Ok(i)
    ensures StoredTable(b) == HashTable(cr, InterfaceUuid(cr, i), i.revisions, ZERO_HASH)
    ensures |StoredTable(b)| == |i.revisions| > 0
  {
    hide GetHeader, GetTable, GetTrees, HashTable, PutArtifact, FitsRevision, FitsIdentity;
    ArtifactSound(cr, Input(b, true));
  }

  lemma {:induction false} HashTableAt(cr: Crypto, uuid: Uuid, vs: seq<Revision>, previous: Digest, j: nat)
    requires j < |vs|
    ensures var table := HashTable(cr, uuid, vs, previous);
            table[j] == RevisionHash(cr, uuid, vs[j], if j == 0 then previous else table[j - 1])
  {
    hide RevisionHash;
    if j > 0 {
      var h := RevisionHash(cr, uuid, vs[0], previous);
      HashTableAt(cr, uuid, vs[1..], h, j - 1);
    }
  }

  /** The preimage determines the UUID, the revision and the previous hash. */
  lemma PreimageInjective(
    uuid1: Uuid, v1: Revision, p1: Digest, uuid2: Uuid, v2: Revision, p2: Digest)
    requires FitsRevision(v1) && FitsRevision(v2)
    requires Preimage(uuid1, v1, p1) == Preimage(uuid2, v2, p2)
    ensures uuid1 == uuid2 && v1 == v2 && p1 == p2
  {
    hide GetBody, PutBody, GetU64, PutU64, GetString, PutString;
    var k1, k2 := uuid1 + PutTree(v1, p1, []), uuid2 + PutTree(v2, p2, []);
    StringLaws();
    assert GetString(Input(PutString(TAG, k1), true)) == Ok((TAG, Input(k1, true)));
    assert GetString(Input(PutString(TAG, k2), true)) == Ok((TAG, Input(k2, true)));
    assert k1 == k2;
    assert k1[..16] == uuid1 && k2[..16] == uuid2;
    assert k1[16..] == PutTree(v1, p1, []) && k2[16..] == PutTree(v2, p2, []);
    IntegerLaws();
    var b1, b2 := PutBody(v1, []), PutBody(v2, []);
    assert GetU64(Input(PutU64(v1.version, p1 + b1), true)) == Ok((v1.version, Input(p1 + b1, true)));
    assert GetU64(Input(PutU64(v2.version, p2 + b2), true)) == Ok((v2.version, Input(p2 + b2, true)));
    assert p1 + b1 == p2 + b2;
    assert (p1 + b1)[..32] == p1 && (p2 + b2)[..32] == p2;
    assert (p1 + b1)[32..] == b1 && (p2 + b2)[32..] == b2;
    BodyRoundTrip(v1, [], true);
    BodyRoundTrip(v2, [], true);
  }

  /** Two different hashed messages, one from each history, with the same hash. */
  ghost predicate Collide(cr: Crypto, i1: Interface, i2: Interface) {
    exists j1, j2 ::
      && 0 <= j1 < |i1.revisions| && 0 <= j2 < |i2.revisions|
      && PreimageAt(cr, i1, j1) != PreimageAt(cr, i2, j2)
      && cr.sha(PreimageAt(cr, i1, j1)) == cr.sha(PreimageAt(cr, i2, j2))
  }

  lemma {:induction false} BindingDown(cr: Crypto, i1: Interface, i2: Interface, j: nat)
    requires Writable(i1) && Writable(i2)
    requires j < |i1.revisions| && j < |i2.revisions|
    requires PreimageAt(cr, i1, j) == PreimageAt(cr, i2, j)
    ensures Collide(cr, i1, i2) || i1.revisions[..j + 1] == i2.revisions[..j + 1]
  {
    hide Preimage, PreimageAt, FitsRevision, FitsIdentity, HashTable, InterfaceUuid, LinkAt, Collide;
    PreimagesEqual(cr, i1, i2, j, j);
    if j > 0 {
      LinksEqual(cr, i1, i2, j);
      if PreimageAt(cr, i1, j - 1) == PreimageAt(cr, i2, j - 1) {
        BindingDown(cr, i1, i2, j - 1);
        assert i1.revisions[..j + 1] == i1.revisions[..j] + [i1.revisions[j]];
        assert i2.revisions[..j + 1] == i2.revisions[..j] + [i2.revisions[j]];
      } else {
        assert Collide(cr, i1, i2) by { FoundCollision(cr, i1, i2, j - 1, j - 1); }
      }
    } else {
      assert i1.revisions[..1] == [i1.revisions[0]] && i2.revisions[..1] == [i2.revisions[0]];
    }
  }

  lemma PreimagesEqual(cr: Crypto, i1: Interface, i2: Interface, j1: nat, j2: nat)
    requires Writable(i1) && Writable(i2) && j1 < |i1.revisions| && j2 < |i2.revisions|
    requires PreimageAt(cr, i1, j1) == PreimageAt(cr, i2, j2)
    ensures InterfaceUuid(cr, i1) == InterfaceUuid(cr, i2)
    ensures j1 == j2 && i1.revisions[j1] == i2.revisions[j2] && LinkAt(cr, i1, j1) == LinkAt(cr, i2, j2)
  {
    hide Preimage, FitsRevision, FitsIdentity, HashTable, InterfaceUuid, LinkAt;
    PreimageInjective(InterfaceUuid(cr, i1), i1.revisions[j1], LinkAt(cr, i1, j1),
                      InterfaceUuid(cr, i2), i2.revisions[j2], LinkAt(cr, i2, j2));
    assert i1.revisions[j1].version == j1 && i2.revisions[j2].version == j2;
  }

  /** The link of revision `j` is the hash of the revision before it. */
  lemma LinksEqual(cr: Crypto, i1: Interface, i2: Interface, j: nat)
    requires 0 < j < |i1.revisions| && j < |i2.revisions| && LinkAt(cr, i1, j) == LinkAt(cr, i2, j)
    ensures cr.sha(PreimageAt(cr, i1, j - 1)) == cr.sha(PreimageAt(cr, i2, j - 1))
  {
    hide Preimage, HashTable, InterfaceUuid;
    HashTableAt(cr, InterfaceUuid(cr, i1), i1.revisions, ZERO_HASH, j - 1);
    HashTableAt(cr, InterfaceUuid(cr, i2), i2.revisions, ZERO_HASH, j - 1);
  }

  lemma FoundCollision(cr: Crypto, i1: Interface, i2: Interface, j1: nat, j2: nat)
    requires j1 < |i1.revisions| && j2 < |i2.revisions|
    requires PreimageAt(cr, i1, j1) != PreimageAt(cr, i2, j2)
    requires cr.sha(PreimageAt(cr, i1, j1)) == cr.sha(PreimageAt(cr, i2, j2))
    ensures Collide(cr, i1, i2)
  {
    hide PreimageAt;
  }

  /** The last hash stored in an accepted artifact binds the UUID and the whole history. */
  lemma HashChainBinding(cr: Crypto, b1: Bytes, b2: Bytes, i1: Interface, i2: Interface)
    requires SifRead(cr, b1) == Ok(i1) && SifRead(cr, b2) == Ok(i2)
    ensures StoredTable(b1) != [] && StoredTable(b2) != []
    ensures Last(StoredTable(b1)) == Last(StoredTable(b2)) ==>
              || Collide(cr, i1, i2)
              || (InterfaceUuid(cr, i1) == InterfaceUuid(cr, i2) && i1.revisions == i2.revisions)
  {
    hide SifRead, Writable, Preimage, PreimageAt, InterfaceUuid, Reread, StoredTable, Collide, Last;
    LastIsHash(cr, b1, i1);
    LastIsHash(cr, b2, i2);
    var n1, n2 := |i1.revisions| - 1, |i2.revisions| - 1;
    if Last(StoredTable(b1)) == Last(StoredTable(b2)) {
      if PreimageAt(cr, i1, n1) == PreimageAt(cr, i2, n2) {
        PreimagesEqual(cr, i1, i2, n1, n2);
        BindingDown(cr, i1, i2, n1);
        assert i1.revisions[..n1 + 1] == i1.revisions && i2.revisions[..n2 + 1] == i2.revisions;
      } else {
        FoundCollision(cr, i1, i2, n1, n2);
      }
    }
  }

  lemma LastIsHash(cr: Crypto, b: Bytes, i: Interface)
    requires SifRead(cr, b) == Ok(i)
    ensures Writable(i) && i.revisions != [] && StoredTable(b) != []
    ensures Last(StoredTable(b)) == cr.sha(PreimageAt(cr, i, |i.revisions| - 1))
  {
    hide GetArtifact, PutArtifact, Preimage, FitsRevision, FitsIdentity, HashTable, InterfaceUuid, Reread, StoredTable;
    ArtifactSound(cr, Input(b, true));
    StoredIsRecomputed(cr, b, i);
    HashTableAt(cr, InterfaceUuid(cr, i), i.revisions, ZERO_HASH, |i.revisions| - 1);
  }
}
