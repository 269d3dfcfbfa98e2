/** The name-based UUID generator (include/uuid.h:758-833): section 4.3 of RFC 4122 over the class
    of module Sha1. */
module NameUuids {
  import opened Octets
  import opened Ast
  import opened Sha1
  import opened SifArtifact
  import Sha256

  /** An octet as bits, and back. */
  function Bits(o: byte): bv8 { o as bv8 }
  function OfBits(b: bv8): byte { b as char }

  lemma BitsRoundTrip(b: bv8)
    ensures Bits(OfBits(b)) == b
  {
  }

  /** `x &= keep; x |= ones`. */
  function SetBits(o: byte, keep: bv8, ones: bv8): byte { OfBits((Bits(o) & keep) | ones) }

  datatype Variant = Ncs | Rfc | Microsoft | ReservedVariant

  datatype Version = TimeBased | DceSecurity | NameBasedMd5 | RandomNumberBased | NameBasedSha1 | NoVersion

  /** `uuid::variant`. */
  function VariantOf(u: Uuid): Variant {
    var x := Bits(u[8]);
    if x & 0x80 == 0x00 then Ncs
    else if x & 0xC0 == 0x80 then Rfc
    else if x & 0xE0 == 0xC0 then Microsoft
    else ReservedVariant
  }

  /** `uuid::version`. */
  function VersionOf(u: Uuid): Version {
    var x := Bits(u[6]) & 0xF0;
    if x == 0x10 then TimeBased
    else if x == 0x20 then DceSecurity
    else if x == 0x30 then NameBasedMd5
    else if x == 0x40 then RandomNumberBased
    else if x == 0x50 then NameBasedSha1
    else NoVersion
  }

  /** `make_uuid`, from the octets of a digest. */
  function Stamped(digest: Bytes): Uuid
    requires |digest| == 20
  {
    digest[..16][8 := SetBits(digest[8], 0xBF, 0x80)][6 := SetBits(digest[6], 0x5F, 0x50)]
  }

  /** What the generator yields for a namespace and a name. */
  function NameUuid(ns: Uuid, name: Bytes): Uuid { Stamped(ClassHash(ns + name)) }

  lemma VersionBits(x: bv8)
    ensures ((x & 0x5F) | 0x50) & 0xF0 == 0x50
    ensures ((x & 0x5F) | 0x50) & 0x0F == x & 0x0F
  {
  }

  lemma VariantBits(x: bv8)
    ensures ((x & 0xBF) | 0x80) & 0xC0 == 0x80
    ensures ((x & 0xBF) | 0x80) & 0x80 == 0x80
    ensures ((x & 0xBF) | 0x80) & 0x3F == x & 0x3F
  {
  }

  /** A version 5 UUID of the RFC variant whose other 122 bits are those of the digest. */
  lemma NameUuidIsVersion5(ns: Uuid, name: Bytes)
    ensures var u, d := NameUuid(ns, name), ClassHash(ns + name);
            && VersionOf(u) == NameBasedSha1 && VariantOf(u) == Rfc
            && Bits(u[6]) & 0x0F == Bits(d[6]) & 0x0F
            && Bits(u[8]) & 0x3F == Bits(d[8]) & 0x3F
            && forall j :: 0 <= j < 16 && j != 6 && j != 8 ==> u[j] == d[j]
    ensures 8 * (16 + |name|) % TWO64 < TWO32 ==> ClassHash(ns + name) == Hash(ns + name)
  {
    hide Bits, OfBits, Output, ShortPadded;
    var d := ClassHash(ns + name);
    var x, y := Bits(d[6]), Bits(d[8]);
    VersionBits(x);
    VariantBits(y);
    BitsRoundTrip((x & 0x5F) | 0x50);
    BitsRoundTrip((y & 0xBF) | 0x80);
    ShortPaddingIsStandard(ns + name);
  }

  /** The generator object: every call restarts the hash with the namespace. */
  class NameGenerator {
    const nsuuid: Uuid
    const hasher: Hasher

    ghost predicate Valid()
      reads this
    {
      hasher.digest.Length == 5 && hasher.block.Length == 64
    }

    constructor (ns: Uuid)
      ensures Valid() && nsuuid == ns && fresh(hasher) && fresh(hasher.digest) && fresh(hasher.block)
    {
      nsuuid := ns;
      hasher := new Hasher();
    }

    method Generate(name: Bytes) returns (u: Uuid)
      requires Valid()
      modifies hasher, hasher.digest, hasher.block
      ensures u == NameUuid(nsuuid, name)
    {
      hide ClassHash, Stamped;
      hasher.Reset();
      hasher.ProcessBytes(nsuuid);
      assert [] + nsuuid == nsuuid;
      hasher.ProcessBytes(name);
      var digest := hasher.GetDigestBytes();
      u := MakeUuid(digest);
    }

    /** `make_uuid`: the variant and version bits over the first 16 octets. */
    method MakeUuid(octets: Bytes) returns (u: Uuid)
      requires |octets| == 20
      ensures u == Stamped(octets)
    {
      hide SetBits;
      var digest := octets;
      digest := digest[8 := SetBits(digest[8], 0xBF, 0x80)];
      digest := digest[6 := SetBits(digest[6], 0x5F, 0x50)];
      u := digest[..16];
    }
  }

  /** The hash functions that the artifact code is linked with. */
  const LINKED: Crypto := Crypto(Sha256.Hash, NameUuid)
}
