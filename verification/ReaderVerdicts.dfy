/** What the reader makes of octets that no writer emits: const flags above 1, wrong magic octets,
    versions, tags and hashes (lang/sif.cc:400-490, 715-764, 1028-1080). */
module ReaderVerdicts {
  import opened Octets
  import opened Ast
  import opened SifFormat
  import opened SifArtifact
  import opened SifLaws
  import opened ReferenceOctets

  // ---------------------------------------------------------------- const flags

  function Depth(v: Type): nat {
    match v
    case Named(_, _) => 1
    case Ptr(_, inner) => 1 + Depth(inner)
    case Array(_, inner) => 1 + Depth(inner)
  }

  /** A type with `flags` for its const flags, the outermost first. */
  function WithFlags(v: Type, flags: Bytes): Bytes
    requires |flags| == Depth(v)
  {
    match v
    case Named(_, name) => [flags[0]] + (Tag(1) + Str(name))
    case Ptr(_, inner) => [flags[0]] + (Tag(2) + WithFlags(inner, flags[1..]))
    case Array(_, inner) => [flags[0]] + (Tag(3) + WithFlags(inner, flags[1..]))
  }

  /** Every flag but 0 stands for `const`. */
  predicate Mean(flags: Bytes, v: Type)
    requires |flags| == Depth(v)
  {
    && (v.isConst <==> flags[0] != 0 as char)
    && match v
       case Named(_, _) => true
       case Ptr(_, inner) => Mean(flags[1..], inner)
       case Array(_, inner) => Mean(flags[1..], inner)
  }

  predicate ZeroOrOne(flags: Bytes) { forall f <- flags :: f as int == 0 || f as int == 1 }

  lemma ZeroOrOneFirst(flags: Bytes)
    requires flags != []
    ensures ZeroOrOne(flags) <==> flags[0] as int <= 1 && ZeroOrOne(flags[1..])
  {
    assert flags[0] in flags && 0 <= flags[0] as int;
    assert forall f <- flags[1..] :: f in flags;
    assert forall f <- flags :: f == flags[0] || f in flags[1..] by { assert flags == [flags[0]] + flags[1..]; }
  }

  /** What follows the two octets in front of a type. */
  function Tail(f: byte, tag: nat, k: Bytes, c: bool): Got<Type> {
    var s := Input(k, c && f as int <= 1);
    if tag == 1 then
      var (name, s1) :- GetString(s);
      Ok((Named(f != 0 as char, name), s1))
    else if tag == 2 then
      var (inner, s1) :- GetType(s);
      Ok((Ptr(f != 0 as char, inner), s1))
    else if tag == 3 then
      var (inner, s1) :- GetType(s);
      Ok((Array(f != 0 as char, inner), s1))
    else Err(BadTypeKind)
  }

  lemma TypeStep(f: byte, tag: byte, k: Bytes, c: bool)
    ensures GetType(Input([f] + ([tag] + k), c)) == Tail(f, tag as int, k, c)
  {
    hide GetString;
    var b := [f] + ([tag] + k);
    assert b[1..] == [tag] + k && b[1..][1..] == k;
  }

  lemma FlagsStep(v: Type, flags: Bytes, k: Bytes)
    requires |flags| == Depth(v)
    ensures flags != []
    ensures v.Named? ==> WithFlags(v, flags) + k == [flags[0]] + ([1 as char] + (Str(v.name) + k))
    ensures v.Ptr? ==>
              WithFlags(v, flags) + k == [flags[0]] + ([2 as char] + (WithFlags(v.inner, flags[1..]) + k))
    ensures v.Array? ==>
              WithFlags(v, flags) + k == [flags[0]] + ([3 as char] + (WithFlags(v.inner, flags[1..]) + k))
  {
    hide Str;
    match v
    case Named(_, name) => Nested(flags[0], 1, Str(name), k);
    case Ptr(_, inner) => Nested(flags[0], 2, WithFlags(inner, flags[1..]), k);
    case Array(_, inner) => Nested(flags[0], 3, WithFlags(inner, flags[1..]), k);
  }

  lemma Nested(f: byte, tag: nat, b: Bytes, k: Bytes)
    requires tag < 4
    ensures [f] + (Tag(tag) + b) + k == [f] + ([tag as char] + (b + k))
  {
  }

  /** A type is read with `const` wherever its flag is not 0. */
  lemma {:induction false} FlagsAreRead(v: Type, flags: Bytes, k: Bytes, c: bool)
    requires |flags| == Depth(v) && Mean(flags, v) && FitsType(v)
    ensures GetType(Input(WithFlags(v, flags) + k, c)) == Ok((v, Input(k, c && ZeroOrOne(flags))))
    decreases v
  {
    hide GetString, PutString, Str, ZeroOrOne, GetType, WithFlags;
    FlagsStep(v, flags, k);
    ZeroOrOneFirst(flags);
    var c1 := c && flags[0] as int <= 1;
    match v {
      case Named(_, name) =>
        StringLaws();
        StringOctets(name, k);
        TypeStep(flags[0], 1 as char, Str(name) + k, c);
        assert flags[1..] == [];
        NoFlags();
      case Ptr(_, inner) =>
        FlagsAreRead(inner, flags[1..], k, c1);
        TypeStep(flags[0], 2 as char, WithFlags(inner, flags[1..]) + k, c);
      case Array(_, inner) =>
        FlagsAreRead(inner, flags[1..], k, c1);
        TypeStep(flags[0], 3 as char, WithFlags(inner, flags[1..]) + k, c);
    }
  }

  lemma NoFlags()
    ensures ZeroOrOne([])
  {
  }

  lemma TwoOctets(s: Input)
    requires GetType(s).Ok?
    ensures |s.bytes| >= 2 && s.bytes == [s.bytes[0]] + ([s.bytes[1]] + s.bytes[2..])
  {
    hide GetString;
    assert GetU8(s).Ok?;
  }

  /** And every type that is read stands in the octets with such flags. */
  lemma {:induction false} FlagsOfRead(s: Input) returns (flags: Bytes)
    requires GetType(s).Ok?
    ensures var (v, rest) := GetType(s).value;
            && |flags| == Depth(v) && Mean(flags, v) && s.bytes == WithFlags(v, flags) + rest.bytes
            && rest.canonical == (s.canonical && ZeroOrOne(flags))
    decreases |s.bytes|
  {
    hide GetString, PutString, Str, ZeroOrOne, GetType, WithFlags;
    TwoOctets(s);
    var f := s.bytes[0];
    var s1 := Input(s.bytes[2..], s.canonical && f as int <= 1);
    TypeStep(f, s.bytes[1], s1.bytes, s.canonical);
    var (v, rest) := GetType(s).value;
    if v.Named? {
      StringSound(s1);
      StringOctets(v.name, rest.bytes);
      flags := [f];
      NoFlags();
      assert flags[1..] == [];
    } else {
      var inner := FlagsOfRead(s1);
      flags := [f] + inner;
      assert flags[1..] == inner;
    }
    FlagsStep(v, flags, rest.bytes);
    ZeroOrOneFirst(flags);
  }

  // ---------------------------------------------------------------- what is refused

  lemma {:induction false} MagicVerdict(magic: Bytes, b: Bytes, c: bool)
    ensures magic <= b ==> GetMagic(magic, Input(b, c)) == Ok(Input(b[|magic|..], c))
    ensures !(magic <= b) ==>
              GetMagic(magic, Input(b, c)) == if b <= magic then Err(UnexpectedEnd) else Err(BadMagic)
    decreases |magic|
  {
    if magic == [] {
      assert b[0..] == b;
    } else if b != [] {
      MagicVerdict(magic[1..], b[1..], c);
      assert magic == [magic[0]] + magic[1..] && b == [b[0]] + b[1..];
      assert magic[1..] <= b[1..] ==> b[1..][|magic| - 1..] == b[|magic|..];
    }
  }

  lemma VersionVerdict(b: Bytes, c: bool)
    requires |b| >= 4
    ensures GetU32(Input(b, c)).Ok?
    ensures GetU32(Input(b, c)).value.0 == 0 <==> b[..4] == [0 as char, 0 as char, 0 as char, 0 as char]
    ensures GetU32(Input(b, c)).value.1 == Input(b[4..], c)
  {
    var n3 := b[3] as int;
    var n2 := b[2] as int + 256 * n3;
    var n1 := b[1] as int + 256 * n2;
    assert GetLE(0, Input(b[4..], c)) == Ok((0, Input(b[4..], c)));
    OneOctet(0, b[3..], c);
    OneOctet(1, b[2..], c);
    OneOctet(2, b[1..], c);
    OneOctet(3, b, c);
    assert b[3..][1..] == b[4..] && b[2..][1..] == b[3..] && b[1..][1..] == b[2..];
    assert GetLE(1, Input(b[3..], c)) == Ok((n3, Input(b[4..], c)));
    assert GetLE(2, Input(b[2..], c)) == Ok((n2, Input(b[4..], c)));
    assert GetLE(3, Input(b[1..], c)) == Ok((n1, Input(b[4..], c)));
    assert GetLE(4, Input(b, c)) == Ok((b[0] as int + 256 * n1, Input(b[4..], c)));
    assert b[..4] == [b[0], b[1], b[2], b[3]];
  }

  lemma OneOctet(w: nat, b: Bytes, c: bool)
    requires b != []
    ensures GetLE(w + 1, Input(b, c)) ==
            match GetLE(w, Input(b[1..], c))
            case Err(e) => Err(e)
            case Ok((high, rest)) => Ok((b[0] as int + 256 * high, rest))
  {
  }

  const SIF: Bytes := ['S', 'I', 'F', 0 as char]
  const FOUR_ZEROS: Bytes := [0 as char, 0 as char, 0 as char, 0 as char]

  /** An artifact starts with the magic octets and version 0, and then its identity. */
  lemma HeaderVerdict(b: Bytes, c: bool)
    ensures |b| >= 4 && b[..4] != SIF ==> GetHeader(Input(b, c)) == Err(BadMagic)
    ensures |b| < 4 && !(b <= SIF) ==> GetHeader(Input(b, c)) == Err(BadMagic)
    ensures |b| < 4 && b <= SIF ==> GetHeader(Input(b, c)) == Err(UnexpectedEnd)
    ensures |b| >= 8 && b[..4] == SIF && b[4..8] != FOUR_ZEROS ==> GetHeader(Input(b, c)) == Err(UnsupportedVersion)
    ensures |b| >= 8 && b[..4] == SIF && b[4..8] == FOUR_ZEROS ==>
              GetHeader(Input(b, c)) == GetIdentity(Input(b[8..], c))
  {
    hide GetMagic, GetU32, GetIdentity;
    assert MAGIC == SIF;
    MagicVerdict(SIF, b, c);
    assert SIF <= b <==> |b| >= 4 && b[..4] == SIF;
    assert |b| >= 4 && b <= SIF ==> b == SIF;
    if |b| >= 8 {
      VersionVerdict(b[4..], c);
      assert b[4..][..4] == b[4..8] && b[4..][4..] == b[8..];
    }
  }

  /** A tree must carry its position as its number, the hash of the one before, and declarations whose
      hash is the one expected. */
  lemma TreeVerdict(
    cr: Crypto, uuid: Uuid, previous: Digest, expected: Digest, index: nat, number: u64, link: Digest, k: Bytes,
    c: bool)
    ensures GetTree(cr, uuid, previous, expected, index, Input(Eight(number) + link + k, c)) ==
            if number != index then Err(NotContiguous)
            else if link != previous then Err(PreviousHashMismatch)
            else match GetBody(number, Input(k, c))
                 case Err(e) => Err(e)
                 case Ok((v, rest)) =>
                   if cr.sha(OfPreimage(uuid, v, previous)) != expected then Err(RevisionHashMismatch)
                   else Ok((v, rest))
  {
    hide GetU64, PutU64, GetBody, Eight, OfPreimage, Preimage;
    EightOctets(number, link + k);
    IntegerLaws();
    assert Eight(number) + link + k == PutU64(number, link + k);
    assert (link + k)[..32] == link && (link + k)[32..] == k;
    var r := GetBody(number, Input(k, c));
    if r.Ok? { PreimageOctets(uuid, r.value.0, previous); }
  }

  /** No revisions, or a root hash that is not the first of the table. */
  lemma TableVerdict(n: u32, root: Digest, k: Bytes, c: bool)
    ensures var r := GetTable(Input(Four(n) + root + k, c));
            && (n == 0 ==> r == Err(NoRevisions))
            && (n > 0 && GetMany(GetDigest, n, Input(k, c)).Ok? ==>
                  (var (table, rest) := GetMany(GetDigest, n, Input(k, c)).value;
                   r == if root != table[0] then Err(RootHashMismatch) else Ok((table, rest))))
  {
    hide GetU32, PutU32, GetMany, Four;
    FourOctets(n, root + k);
    IntegerLaws();
    assert Four(n) + root + k == PutU32(n, root + k);
    assert (root + k)[..32] == root && (root + k)[32..] == k;
  }

  /** Kinds and directions that do not exist. */
  lemma TagVerdicts(f: byte, tag: byte, k: Bytes, c: bool)
    ensures tag as int !in {1, 2, 3} ==> GetExpression(Input([tag] + k, c)) == Err(BadExpressionKind)
    ensures tag as int !in {1, 2, 3} ==> GetType(Input([f] + ([tag] + k), c)) == Err(BadTypeKind)
    ensures tag as int !in {0, 1, 2} ==> GetParameter(Input([tag] + k, c)) == Err(BadDirection)
  {
    hide GetType;
    TypeStep(f, tag, k, c);
  }

  /** Padding that is not zero. */
  lemma {:induction false} PaddingVerdict(n: nat, p: Bytes, k: Bytes, c: bool)
    requires |p| == n
    ensures SkipZeros(n, Input(p + k, c))
            == if forall b <- p :: b as int == 0 then Ok(Input(k, c)) else Err(NonZeroPadding)
    decreases n
  {
    if n == 0 {
      assert p + k == k;
    } else {
      assert p[0] in p && forall b <- p[1..] :: b in p;
      assert forall b <- p :: b == p[0] || b in p[1..] by { assert p == [p[0]] + p[1..]; }
      assert (p + k)[1..] == p[1..] + k;
      PaddingVerdict(n - 1, p[1..], k, c);
    }
  }
}
