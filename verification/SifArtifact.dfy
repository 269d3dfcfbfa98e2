/** A whole SIF artifact: header, hash table and the chained revision trees
    (lang/sif.cc: compute_revision_hash, read_revision_tree, sif_write, sif_read).
    The two hash functions are parameters. */
module SifArtifact {
  import opened Octets
  import opened Ast
  import opened SifFormat

  /** SHA-256, and the name-based UUID generator. */
  datatype Crypto = Crypto(sha: Bytes -> Digest, nameUuid: (Uuid, Bytes) -> Uuid)

  const ZERO_HASH: Digest := Zeros(32)
  const TAG: Bytes := "strata.sif.revision.v0"
  const MAGIC: Bytes := ['S', 'I', 'F', 0 as char]

  // ---------------------------------------------------------------- the hash chain

  function Preimage(uuid: Uuid, v: Revision, previous: Digest): Bytes {
    PutString(TAG, uuid + PutTree(v, previous, []))
  }

  function RevisionHash(cr: Crypto, uuid: Uuid, v: Revision, previous: Digest): Digest {
    cr.sha(Preimage(uuid, v, previous))
  }

  /** The hash of each revision, the first one linked to `previous`. */
  function HashTable(cr: Crypto, uuid: Uuid, vs: seq<Revision>, previous: Digest): (r: seq<Digest>)
    ensures |r| == |vs|
  {
    if vs == [] then []
    else
      var h := RevisionHash(cr, uuid, vs[0], previous);
      [h] + HashTable(cr, uuid, vs[1..], h)
  }

  function InterfaceUuid(cr: Crypto, i: Interface): Uuid { cr.nameUuid(i.uuidNamespace, i.uuidName) }

  // ---------------------------------------------------------------- writing

  function PutDigest(v: Digest, k: Bytes): Bytes { v + k }

  function PutTrees(vs: seq<Revision>, table: seq<Digest>, previous: Digest, k: Bytes): Bytes
    requires |table| == |vs|
  {
    if vs == [] then k
    else PutTree(vs[0], previous, PutTrees(vs[1..], table[1..], table[0], k))
  }

  function PutIdentity(i: Interface, k: Bytes): Bytes {
    PutString(i.name,
      i.uuidNamespace + PutString(i.uuidName, PutString(i.prefix, PutAnnotations(i.annotations, k))))
  }

  /** The number of revisions, the root hash, and the hash table. */
  function PutTable(table: seq<Digest>, k: Bytes): Bytes
    requires table != []
  {
    PutU32(|table|, table[0] + PutMany(PutDigest, table, k))
  }

  function PutArtifact(cr: Crypto, i: Interface, k: Bytes): Bytes
    requires i.revisions != []
  {
    var table := HashTable(cr, InterfaceUuid(cr, i), i.revisions, ZERO_HASH);
    MAGIC + PutU32(0, PutIdentity(i, PutTable(table, PutTrees(i.revisions, table, ZERO_HASH, k))))
  }

  function AllRevisions(i: Interface, extensions: seq<Interface>): seq<Revision>
    decreases |extensions|
  {
    if extensions == [] then i.revisions
    else AllRevisions(i.(revisions := i.revisions + extensions[0].revisions), extensions[1..])
  }

  predicate FitsIdentity(i: Interface) {
    && FitsCount(|i.name|) && FitsCount(|i.uuidName|) && FitsCount(|i.prefix|)
    && FitsAnnotations(i.annotations)
  }

  /** sif_write: the first failing check decides the error, in the order of the source. */
  function SifWrite(cr: Crypto, i: Interface, extensions: seq<Interface>): Result<Bytes, SifError> {
    var vs := AllRevisions(i, extensions);
    if vs == [] then Err(NoRevisions)
    else if !i.hasUuid then Err(NoUuid)
    else if exists v <- vs :: !FitsRevision(v) then Err(TooLarge)
    else if !i.hasPrefix then Err(NoPrefix)
    else if !FitsIdentity(i) || !FitsCount(|vs|) then Err(TooLarge)
    else Ok(PutArtifact(cr, i.(revisions := vs), []))
  }

  // ---------------------------------------------------------------- reading

  function GetMagic(magic: Bytes, s: Input): Result<Input, SifError> {
    if magic == [] then Ok(s)
    else
      var (b, s1) :- GetU8(s);
      if b != magic[0] then Err(BadMagic) else GetMagic(magic[1..], s1)
  }

  function GetDigest(s: Input): Got<Digest> { GetBlock(32, s) }

  function GetUuid(s: Input): Got<Uuid> { GetBlock(16, s) }

  /** One revision tree, checked against the table entry `expected` and its position `index`. */
  function GetTree(cr: Crypto, uuid: Uuid, previous: Digest, expected: Digest, index: nat, s: Input)
    : (r: Got<Revision>)
    ensures r.Ok? ==> r.value.0.version == index
  {
    var (version, s1) :- GetU64(s);
    var (link, s2) :- GetDigest(s1);
    if version != index then Err(NotContiguous)
    else if link != previous then Err(PreviousHashMismatch)
    else
      var (v, s3) :- GetBody(version, s2);
      if RevisionHash(cr, uuid, v, previous) != expected then Err(RevisionHashMismatch)
      else Ok((v, s3))
  }

  function GetTrees(cr: Crypto, uuid: Uuid, table: seq<Digest>, previous: Digest, index: nat, s: Input)
    : Got<seq<Revision>>
  {
    if table == [] then Ok(([], s))
    else
      var (v, s1) :- GetTree(cr, uuid, previous, table[0], index, s);
      var (vs, s2) :- GetTrees(cr, uuid, table[1..], table[0], index + 1, s1);
      Ok(([v] + vs, s2))
  }

  /** The value of `current_funcid` after the functions of `fs` were read on top of `current`.
      The successor of the largest id wraps to 0, as `uint32_t` arithmetic does. */
  function FuncidAfter(fs: seq<Function>, current: u32): u32 {
    if fs == [] then current
    else
      var next := (fs[0].id + 1) % TWO32;
      FuncidAfter(fs[1..], if next > current then next else current)
  }

  function Functions(vs: seq<Revision>): seq<Function> {
    if vs == [] then [] else vs[0].functions + Functions(vs[1..])
  }

  lemma {:induction false} FunctionsAppend(a: seq<Revision>, b: seq<Revision>)
    ensures Functions(a + b) == Functions(a) + Functions(b)
  {
    if a == [] {
      assert a + b == b;
    } else {
      assert (a + b)[1..] == a[1..] + b;
      FunctionsAppend(a[1..], b);
    }
  }

  lemma {:induction false} FuncidAppend(a: seq<Function>, b: seq<Function>, current: u32)
    ensures FuncidAfter(a + b, current) == FuncidAfter(b, FuncidAfter(a, current))
    decreases |a|
  {
    if a == [] {
      assert a + b == b;
    } else {
      assert (a + b)[1..] == a[1..] + b && (a + b)[0] == a[0];
      var next := (a[0].id + 1) % TWO32;
      FuncidAppend(a[1..], b, if next > current then next else current);
    }
  }

  function GetIdentity(s: Input): Got<Interface> {
    var (name, s1) :- GetString(s);
    var (uuidNamespace, s2) :- GetUuid(s1);
    var (uuidName, s3) :- GetString(s2);
    var (prefix, s4) :- GetString(s3);
    var (annotations, s5) :- GetAnnotations(s4);
    Ok((Interface(name, true, uuidNamespace, uuidName, true, prefix, annotations, [], 0), s5))
  }

  function GetHeader(s: Input): Got<Interface> {
    var s1 :- GetMagic(MAGIC, s);
    var (version, s2) :- GetU32(s1);
    if version != 0 then Err(UnsupportedVersion) else GetIdentity(s2)
  }

  function GetTable(s: Input): (r: Got<seq<Digest>>)
    ensures r.Ok? ==> 0 < |r.value.0| < TWO32
  {
    var (n, s1) :- GetU32(s);
    if n == 0 then Err(NoRevisions)
    else
      var (root, s2) :- GetDigest(s1);
      var (table, s3) :- GetMany(GetDigest, n, s2);
      if root != table[0] then Err(RootHashMismatch) else Ok((table, s3))
  }

  function GetArtifact(cr: Crypto, s: Input): Got<Interface> {
    var (i, s1) :- GetHeader(s);
    var (table, s2) :- GetTable(s1);
    var (vs, s3) :- GetTrees(cr, InterfaceUuid(cr, i), table, ZERO_HASH, 0, s2);
    Ok((i.(revisions := vs, currentFuncid := FuncidAfter(Functions(vs), 0)), s3))
  }

  /** sif_read: one artifact and nothing after it. */
  function SifRead(cr: Crypto, b: Bytes): Result<Interface, SifError> {
    var (i, s) :- GetArtifact(cr, Input(b, true));
    if s.bytes != [] then Err(TrailingData) else Ok(i)
  }

  /** Every const flag that `sif_read` meets in `b` is 0 or 1. */
  predicate CanonicalFlags(cr: Crypto, b: Bytes) {
    var r := GetArtifact(cr, Input(b, true));
    r.Ok? && r.value.1.canonical
  }
}
