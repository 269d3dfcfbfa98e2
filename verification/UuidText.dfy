/** UUID text (include/uuid.h:459-602): what the parser accepts, what the printer emits, and the
    loops that compute them. */
module UuidText {
  import opened Octets
  import opened Ast

  predicate IsHex(c: byte) { '0' <= c <= '9' || 'a' <= c <= 'f' || 'A' <= c <= 'F' }

  /** `hex2char`. */
  function HexValue(c: byte): (v: nat)
    ensures v < 16
  {
    if '0' <= c <= '9' then c as int - '0' as int
    else if 'a' <= c <= 'f' then 10 + c as int - 'a' as int
    else if 'A' <= c <= 'F' then 10 + c as int - 'A' as int
    else 0
  }

  function HexDigit(n: nat): (c: byte)
    requires n < 16
    ensures IsHex(c) && HexValue(c) == n
  {
    if n < 10 then ('0' as int + n) as char else ('a' as int + (n - 10)) as char
  }

  function HexOf(u: Bytes): (r: Bytes)
    ensures |r| == 2 * |u| && forall c <- r :: IsHex(c)
  {
    if u == [] then []
    else [HexDigit(u[0] as int / 16), HexDigit(u[0] as int % 16)] + HexOf(u[1..])
  }

  /** The octets spelled by consecutive pairs of hex digits. */
  function Pairs(d: Bytes): (r: Bytes)
    ensures |r| == |d| / 2
  {
    if |d| < 2 then [] else [(16 * HexValue(d[0]) + HexValue(d[1])) as char] + Pairs(d[2..])
  }

  function NoHyphens(s: Bytes): Bytes {
    if s == [] then []
    else
      var last := s[|s| - 1];
      NoHyphens(s[..|s| - 1]) + (if last == '-' then [] else [last])
  }

  /** The text between matching braces, or all of a text that does not start with one. */
  function Unbraced(s: Bytes): Option<Bytes> {
    if s == [] then None
    else if s[0] != '{' then Some(s)
    else if s[|s| - 1] != '}' then None
    else Some(s[1..|s| - 1])
  }

  /** The UUID a text denotes: 32 hex digits, hyphens anywhere among them, braces around them. */
  function UuidOf(s: Bytes): Option<Uuid> {
    match Unbraced(s)
    case None => None
    case Some(t) =>
      var d := NoHyphens(t);
      if IsDigits32(d) then Some(Pairs(d)) else None
  }

  predicate IsDigits32(d: Bytes) { |d| == 32 && forall c <- d :: IsHex(c) }

  /** The canonical form, 8-4-4-4-12. */
  function UuidString(u: Uuid): Bytes {
    HexOf(u[..4]) + ['-'] + HexOf(u[4..6]) + ['-'] + HexOf(u[6..8]) + ['-'] + HexOf(u[8..10]) + ['-'] + HexOf(u[10..])
  }

  // ---------------------------------------------------------------- laws

  lemma {:induction false} NoHyphensAppend(a: Bytes, b: Bytes)
    ensures NoHyphens(a + b) == NoHyphens(a) + NoHyphens(b)
  {
    if b == [] {
      assert a + b == a;
    } else {
      assert (a + b)[..|a + b| - 1] == a + b[..|b| - 1];
      NoHyphensAppend(a, b[..|b| - 1]);
    }
  }

  lemma {:induction false} NoHyphensHex(h: Bytes)
    requires forall c <- h :: IsHex(c)
    ensures NoHyphens(h) == h
  {
    if h != [] {
      NoHyphensHex(h[..|h| - 1]);
      assert IsHex(h[|h| - 1]);
      assert h == h[..|h| - 1] + [h[|h| - 1]];
    }
  }

  lemma {:induction false} PairsOfHex(u: Bytes)
    ensures Pairs(HexOf(u)) == u
  {
    if u != [] {
      assert HexOf(u)[2..] == HexOf(u[1..]);
      PairsOfHex(u[1..]);
      assert u == [u[0]] + u[1..];
    }
  }

  lemma {:induction false} HexOfAppend(a: Bytes, b: Bytes)
    ensures HexOf(a + b) == HexOf(a) + HexOf(b)
  {
    if a == [] {
      assert a + b == b;
    } else {
      assert (a + b)[1..] == a[1..] + b;
      HexOfAppend(a[1..], b);
    }
  }

  lemma DropHyphen(a: Bytes, b: Bytes)
    ensures NoHyphens(a + ['-'] + b) == NoHyphens(a) + NoHyphens(b)
  {
    NoHyphensAppend(a + ['-'], b);
    assert (a + ['-'])[..|a|] == a;
  }

  lemma GroupsWithoutHyphens(a: Bytes, b: Bytes, k: Bytes)
    requires NoHyphens(k) == HexOf(b)
    ensures NoHyphens(HexOf(a) + ['-'] + k) == HexOf(a + b)
  {
    hide NoHyphens, HexOf;
    DropHyphen(HexOf(a), k);
    NoHyphensHex(HexOf(a));
    HexOfAppend(a, b);
  }

  /** Parsing the printed form gives the UUID back. */
  lemma UuidRoundTrip(u: Uuid)
    ensures UuidOf(UuidString(u)) == Some(u)
  {
    hide HexOf, NoHyphens, Pairs;
    var k4 := HexOf(u[10..]);
    var k3 := HexOf(u[8..10]) + ['-'] + k4;
    var k2 := HexOf(u[6..8]) + ['-'] + k3;
    var k1 := HexOf(u[4..6]) + ['-'] + k2;
    NoHyphensHex(k4);
    GroupsWithoutHyphens(u[8..10], u[10..], k4);
    assert u[8..10] + u[10..] == u[8..];
    GroupsWithoutHyphens(u[6..8], u[8..], k3);
    assert u[6..8] + u[8..] == u[6..];
    GroupsWithoutHyphens(u[4..6], u[6..], k2);
    assert u[4..6] + u[6..] == u[4..];
    GroupsWithoutHyphens(u[..4], u[4..], k1);
    assert u[..4] + u[4..] == u;
    assert UuidString(u) == HexOf(u[..4]) + ['-'] + k1;
    PairsOfHex(u);
    assert UuidString(u)[0] == HexOf(u[..4])[0];
    assert IsHex(HexOf(u[..4])[0]);
  }

  /** A hyphen changes nothing wherever it stands, except in front of the opening brace or behind the
      closing one of a text that denotes a UUID. */
  lemma HyphensIgnored(a: Bytes, b: Bytes)
    ensures UuidOf(a + ['-'] + b) == UuidOf(a + b) <==>
            !(UuidOf(a + b).Some? && (a + b)[0] == '{' && (a == [] || b == []))
  {
    hide NoHyphens, Pairs, IsHex;
    if a + b == [] {
      assert a == [] && b == [];
      assert a + ['-'] + b == ['-'];
      Whole(['-']);
      LoneCharacters();
    } else if (a + b)[0] != '{' {
      Whole(a + b);
      Whole(a + ['-'] + b);
      DropHyphen(a, b);
      NoHyphensAppend(a, b);
    } else if a == [] {
      assert a + b == b && a + ['-'] + b == ['-'] + b;
      OutsideBraces(b);
    } else if b == [] {
      assert a + b == a && a + ['-'] + b == a + ['-'];
      OutsideBraces(a);
    } else {
      HyphenInBraces(a, b);
    }
  }

  /** Outside braces a hyphen is an error. */
  lemma OutsideBraces(s: Bytes)
    requires s != [] && s[0] == '{'
    ensures UuidOf(['-'] + s) == None && UuidOf(s + ['-']) == None
  {
    hide NoHyphens, Pairs;
    LoneCharacters();
    assert ['{'] + s[1..] == s;
    NoHyphensAppend(['{'], s[1..]);
    NoHyphensAppend(['-'], s);
    var t := ['-'] + s;
    Whole(t);
    assert NoHyphens(t)[0] == '{';
    assert NoHyphens(t)[0] in NoHyphens(t) && !IsHex('{');
    assert UuidOf(t) == None;
    assert Unbraced(s + ['-']) == None;
  }

  lemma LoneCharacters()
    ensures NoHyphens(['-']) == [] && NoHyphens(['{']) == ['{']
  {
  }

  lemma HyphenInBraces(a: Bytes, b: Bytes)
    requires a != [] && b != [] && a[0] == '{'
    ensures UuidOf(a + ['-'] + b) == UuidOf(a + b)
  {
    hide NoHyphens, Pairs, IsHex;
    var n := |b| - 1;
    DropHyphen(a[1..], b[..n]);
    NoHyphensAppend(a[1..], b[..n]);
    var s, t := a + b, a + ['-'] + b;
    assert s[1..|s| - 1] == a[1..] + b[..n];
    assert t[1..|t| - 1] == a[1..] + ['-'] + b[..n];
  }

  /** So the exception is met: the canonical form of any UUID in braces, with one hyphen outside. */
  lemma HyphenOutsideBraces(u: Uuid)
    ensures var s := ['{'] + UuidString(u) + ['}'];
            UuidOf(s) == Some(u) && UuidOf(['-'] + s) == None && UuidOf(s + ['-']) == None
  {
    hide UuidString, NoHyphens, Pairs, HexOf;
    UuidRoundTrip(u);
    assert UuidString(u)[0] != '{' by { CanonicalStartsWithDigit(u); }
    BracesIgnored(UuidString(u));
    OutsideBraces(['{'] + UuidString(u) + ['}']);
  }

  lemma CanonicalStartsWithDigit(u: Uuid)
    ensures UuidString(u) != [] && IsHex(UuidString(u)[0])
  {
    hide HexOf;
    assert UuidString(u)[0] == HexOf(u[..4])[0];
  }

  lemma Whole(s: Bytes)
    requires s != [] && s[0] != '{'
    ensures Unbraced(s) == Some(s)
  {
  }

  /** Matching braces change nothing, except around a text in braces that denotes a UUID: around braces
      they are always an error. */
  lemma BracesIgnored(t: Bytes)
    ensures UuidOf(['{'] + t + ['}']) == UuidOf(t) <==> !(t != [] && t[0] == '{' && UuidOf(t).Some?)
    ensures t != [] && t[0] == '{' ==> UuidOf(['{'] + t + ['}']) == None
  {
    hide Pairs;
    var s := ['{'] + t + ['}'];
    assert s[1..|s| - 1] == t;
    if t == [] {
      assert NoHyphens(t) == [];
    } else if t[0] == '{' {
      hide NoHyphens;
      LoneCharacters();
      assert ['{'] + t[1..] == t;
      NoHyphensAppend(['{'], t[1..]);
      assert NoHyphens(t)[0] in NoHyphens(t) && !IsHex('{');
    } else {
      Whole(t);
    }
  }

  /** So this exception is met as well, by the canonical form of any UUID in two pairs of braces. */
  lemma DoubleBraces(u: Uuid)
    ensures var s := ['{'] + UuidString(u) + ['}'];
            UuidOf(s) == Some(u) && UuidOf(['{'] + s + ['}']) == None
  {
    hide UuidString, NoHyphens, Pairs, HexOf;
    HyphenOutsideBraces(u);
    BracesIgnored(['{'] + UuidString(u) + ['}']);
  }

  // ---------------------------------------------------------------- digits and their case

  const DIGITS: Bytes := "0123456789abcdef"
  const CAPITALS: Bytes := "0123456789ABCDEF"

  /** Digit `n` has the value `n`, in either case. */
  lemma DigitValues(n: nat)
    requires n < 16
    ensures IsHex(DIGITS[n]) && HexValue(DIGITS[n]) == n && HexDigit(n) == DIGITS[n]
    ensures IsHex(CAPITALS[n]) && HexValue(CAPITALS[n]) == n
  {
  }

  /** No other character is a digit. */
  lemma OnlyTheseDigits(c: byte)
    requires IsHex(c)
    ensures c in DIGITS || c in CAPITALS
  {
    var n := HexValue(c);
    assert DIGITS[n] == c || CAPITALS[n] == c;
  }

  function Lower(s: Bytes): (r: Bytes)
    ensures |r| == |s|
  {
    if s == [] then []
    else
      var c := s[|s| - 1];
      Lower(s[..|s| - 1]) + [if 'A' <= c <= 'F' then (c as int + 32) as char else c]
  }

  lemma {:induction false} LowerDigits(s: Bytes)
    ensures NoHyphens(Lower(s)) == Lower(NoHyphens(s))
    decreases |s|
  {
    if s != [] {
      var n := |s| - 1;
      LowerDigits(s[..n]);
      var c := Lower(s)[n];
      assert Lower(s)[..n] == Lower(s[..n]);
      assert (c == '-') == (s[n] == '-');
      var before := NoHyphens(s[..n]);
      if s[n] != '-' { assert (before + [s[n]])[..|before|] == before; } else { assert before + [] == before; }
    }
  }

  lemma {:induction false} LowerHex(s: Bytes)
    ensures (forall c <- Lower(s) :: IsHex(c)) <==> (forall c <- s :: IsHex(c))
    decreases |s|
  {
    if s != [] {
      var n := |s| - 1;
      LowerHex(s[..n]);
      var t := Lower(s);
      assert t == Lower(s[..n]) + [t[n]] && s == s[..n] + [s[n]];
      assert IsHex(t[n]) == IsHex(s[n]);
      assert t[n] in t && s[n] in s;
      assert forall c <- s[..n] :: c in s;
      assert forall c <- Lower(s[..n]) :: c in t;
    }
  }

  lemma {:induction false} LowerAt(s: Bytes, j: nat)
    requires j < |s|
    ensures Lower(s)[j] == if 'A' <= s[j] <= 'F' then (s[j] as int + 32) as char else s[j]
    decreases |s|
  {
    if j < |s| - 1 { LowerAt(s[..|s| - 1], j); }
  }

  lemma {:induction false} LowerPairs(d: Bytes)
    requires forall c <- d :: IsHex(c)
    ensures Pairs(Lower(d)) == Pairs(d)
    decreases |d|
  {
    if |d| >= 2 {
      LowerAt(d, 0);
      LowerAt(d, 1);
      assert IsHex(d[0]) && IsHex(d[1]);
      forall j | 0 <= j < |d| - 2 ensures Lower(d)[2..][j] == Lower(d[2..])[j] {
        LowerAt(d, j + 2);
        LowerAt(d[2..], j);
      }
      assert Lower(d)[2..] == Lower(d[2..]);
      LowerPairs(d[2..]);
    }
  }

  lemma LowerUnbraced(s: Bytes)
    ensures match Unbraced(s) case None => Unbraced(Lower(s)) == None case Some(t) => Unbraced(Lower(s)) == Some(Lower(t))
  {
    if s != [] {
      LowerAt(s, 0);
      LowerAt(s, |s| - 1);
      if s[0] == '{' && s[|s| - 1] == '}' {
        var t := s[1..|s| - 1];
        forall j | 0 <= j < |t| ensures Lower(s)[1..|s| - 1][j] == Lower(t)[j] {
          LowerAt(s, j + 1);
          LowerAt(t, j);
        }
        assert Lower(s)[1..|s| - 1] == Lower(t);
      }
    }
  }

  /** The case of the digits does not matter. */
  lemma CaseIgnored(s: Bytes)
    ensures UuidOf(Lower(s)) == UuidOf(s)
  {
    hide NoHyphens, Pairs, Lower, Unbraced, IsHex;
    LowerUnbraced(s);
    if Unbraced(s).Some? {
      var t := Unbraced(s).value;
      LowerDigits(t);
      LowerHex(NoHyphens(t));
      if IsDigits32(NoHyphens(t)) { LowerPairs(NoHyphens(t)); }
    }
  }

  /** An opening brace must be closed. */
  lemma RejectsUnclosed(t: Bytes)
    requires t == [] || t[|t| - 1] != '}'
    ensures UuidOf(['{'] + t) == None
  {
  }

  /** Only hex digits, hyphens and braces are ever accepted, and braces only around the others. */
  lemma AcceptedCharacters(s: Bytes)
    requires UuidOf(s).Some?
    ensures s != [] && if s[0] == '{' then |s| >= 2 && s[|s| - 1] == '}' && DigitsAndHyphens(s[1..|s| - 1])
                       else DigitsAndHyphens(s)
  {
    hide NoHyphens, IsHex, Pairs;
    OnlyDigits(Unbraced(s).value);
  }

  predicate DigitsAndHyphens(s: Bytes) { forall c <- s :: IsHex(c) || c == '-' }

  lemma {:induction false} OnlyDigits(t: Bytes)
    requires forall c <- NoHyphens(t) :: IsHex(c)
    ensures DigitsAndHyphens(t)
  {
    hide IsHex;
    if t != [] {
      var n := |t| - 1;
      assert forall c <- NoHyphens(t[..n]) :: c in NoHyphens(t);
      OnlyDigits(t[..n]);
      if t[n] != '-' { assert t[n] in NoHyphens(t); }
      assert t == t[..n] + [t[n]];
    }
  }

  // ---------------------------------------------------------------- the loops

  lemma NoHyphensStep(s: Bytes, i: nat)
    requires i < |s|
    ensures NoHyphens(s[..i + 1]) == NoHyphens(s[..i]) + (if s[i] == '-' then [] else [s[i]])
  {
    assert s[..i + 1][..i] == s[..i];
  }

  lemma {:induction false} PairsSnoc(d: Bytes, a: byte, b: byte)
    requires |d| % 2 == 0
    ensures Pairs(d + [a, b]) == Pairs(d) + [(16 * HexValue(a) + HexValue(b)) as char]
  {
    if d == [] {
      assert [a, b][2..] == [];
      assert d + [a, b] == [a, b];
    } else {
      assert (d + [a, b])[2..] == d[2..] + [a, b];
      PairsSnoc(d[2..], a, b);
    }
  }

  lemma PairsStep(d: Bytes, index: nat, c: byte)
    requires |d| == 2 * index + 1
    ensures Pairs((d + [c])[..2 * (index + 1)]) ==
            Pairs(d[..2 * index]) + [(16 * HexValue(d[2 * index]) + HexValue(c)) as char]
  {
    hide Pairs, HexValue;
    PairsSnoc(d[..2 * index], d[2 * index], c);
    assert (d + [c])[..2 * (index + 1)] == d[..2 * index] + [d[2 * index], c];
  }

  /** An accepted digit string never has a 33rd digit or a non-digit, wherever the scan stops. */
  lemma Hopeless(t: Bytes, i: nat)
    requires i < |t| && t[i] != '-' && (!IsHex(t[i]) || |NoHyphens(t[..i])| >= 32)
    ensures !IsDigits32(NoHyphens(t))
  {
    hide NoHyphens, IsHex;
    assert t == t[..i + 1] + t[i + 1..];
    NoHyphensAppend(t[..i + 1], t[i + 1..]);
    NoHyphensStep(t, i);
    var before := NoHyphens(t[..i]);
    assert NoHyphens(t)[|before|] == t[i];
  }

  method IsValidUuid(s: Bytes) returns (valid: bool)
    ensures valid <==> UuidOf(s).Some?
  {
    hide NoHyphens, IsHex;
    if s == [] { return false; }
    var hasBraces := if s[0] == '{' then 1 else 0;
    if hasBraces == 1 && s[|s| - 1] != '}' { return false; }
    ghost var t := if hasBraces == 1 then s[1..|s| - 1] else s;
    var firstDigit, index, i := true, 0, hasBraces;
    NoHyphensHex([]);
    while i < |s| - hasBraces
      invariant hasBraces <= i <= |s| - hasBraces && 0 <= index <= 16
      invariant |NoHyphens(t[..i - hasBraces])| == 2 * index + (if firstDigit then 0 else 1)
      invariant index == 16 ==> firstDigit
      invariant forall c <- NoHyphens(t[..i - hasBraces]) :: IsHex(c)
    {
      assert s[i] == t[i - hasBraces];
      NoHyphensStep(t, i - hasBraces);
      if s[i] != '-' {
        if index >= 16 || !IsHex(s[i]) {
          Hopeless(t, i - hasBraces);
          return false;
        }
        if firstDigit {
          firstDigit := false;
        } else {
          index := index + 1;
          firstDigit := true;
        }
      }
      i := i + 1;
    }
    assert t[..i - hasBraces] == t;
    return index >= 16;
  }

  method FromString(s: Bytes) returns (r: Option<Uuid>)
    ensures r == UuidOf(s)
  {
    hide NoHyphens, IsHex, HexValue, Pairs;
    if s == [] { return None; }
    var hasBraces := if s[0] == '{' then 1 else 0;
    if hasBraces == 1 && s[|s| - 1] != '}' { return None; }
    ghost var t := if hasBraces == 1 then s[1..|s| - 1] else s;
    var data := new byte[16](_ => 0 as char);
    var firstDigit, index, i := true, 0, hasBraces;
    ghost var d: Bytes := [];
    NoHyphensHex([]);
    while i < |s| - hasBraces
      invariant hasBraces <= i <= |s| - hasBraces && 0 <= index <= 16
      invariant d == NoHyphens(t[..i - hasBraces])
      invariant |d| == 2 * index + (if firstDigit then 0 else 1)
      invariant index == 16 ==> firstDigit
      invariant forall c <- d :: IsHex(c)
      invariant data[..index] == Pairs(d[..2 * index])
      invariant !firstDigit ==> data[index] as int == 16 * HexValue(d[2 * index])
    {
      assert s[i] == t[i - hasBraces];
      NoHyphensStep(t, i - hasBraces);
      if s[i] != '-' {
        if index >= 16 || !IsHex(s[i]) {
          Hopeless(t, i - hasBraces);
          return None;
        }
        ghost var before := d;
        d := d + [s[i]];
        if firstDigit {
          data[index] := (16 * HexValue(s[i])) as char;
          firstDigit := false;
          assert d[..2 * index] == before[..2 * index];
        } else {
          data[index] := (data[index] as int + HexValue(s[i])) as char;
          PairsStep(before, index, s[i]);
          index := index + 1;
          firstDigit := true;
          assert data[..index] == data[..index - 1] + [data[index - 1]];
        }
      }
      i := i + 1;
    }
    assert t[..i - hasBraces] == t;
    if index < 16 { return None; }
    assert d[..32] == d && data[..16] == data[..];
    return Some(data[..]);
  }

  predicate IsHyphenPosition(i: nat) { i == 8 || i == 13 || i == 18 || i == 23 }

  function HyphensBefore(i: nat): nat {
    (if i > 8 then 1 else 0) + (if i > 13 then 1 else 0) + (if i > 18 then 1 else 0) + (if i > 23 then 1 else 0)
  }

  lemma {:induction false} HexOfAt(u: Bytes, j: nat)
    requires j < |u|
    ensures HexOf(u)[2 * j] == HexDigit(u[j] as int / 16)
    ensures HexOf(u)[2 * j + 1] == HexDigit(u[j] as int % 16)
  {
    if j > 0 { HexOfAt(u[1..], j - 1); }
  }

  /** The characters of the canonical form, one octet or hyphen at a time. */
  lemma UuidStringAt(u: Uuid, index: nat, i: nat)
    requires index <= 16 && i == 2 * index + HyphensBefore(i) && i < 36
    ensures |UuidString(u)| == 36
    ensures IsHyphenPosition(i) ==> UuidString(u)[i] == '-'
    ensures !IsHyphenPosition(i) ==>
              && index < 16
              && UuidString(u)[i] == HexDigit(u[index] as int / 16)
              && UuidString(u)[i + 1] == HexDigit(u[index] as int % 16)
  {
    hide HexOf, HexDigit;
    if !IsHyphenPosition(i) {
      if index < 4 { HexOfAt(u[..4], index); }
      else if index < 6 { HexOfAt(u[4..6], index - 4); }
      else if index < 8 { HexOfAt(u[6..8], index - 6); }
      else if index < 10 { HexOfAt(u[8..10], index - 8); }
      else { HexOfAt(u[10..], index - 10); }
    }
  }

  /** The canonical form, character by character: two lower-case digits for each octet in order, and
      hyphens behind octets 4, 6, 8 and 10. */
  lemma CanonicalCharacters(u: Uuid)
    ensures |UuidString(u)| == 36
    ensures UuidString(u)[8] == UuidString(u)[13] == UuidString(u)[18] == UuidString(u)[23] == '-'
    ensures forall j :: 0 <= j < 16 ==>
              var i := 2 * j + (if j < 4 then 0 else if j < 6 then 1 else if j < 8 then 2 else if j < 10 then 3 else 4);
              UuidString(u)[i] == DIGITS[u[j] as int / 16] && UuidString(u)[i + 1] == DIGITS[u[j] as int % 16]
  {
    hide UuidString, HexDigit;
    UuidStringAt(u, 0, 0);
    UuidStringAt(u, 4, 8);
    UuidStringAt(u, 6, 13);
    UuidStringAt(u, 8, 18);
    UuidStringAt(u, 10, 23);
    forall j | 0 <= j < 16
      ensures var i := 2 * j + (if j < 4 then 0 else if j < 6 then 1 else if j < 8 then 2 else if j < 10 then 3 else 4);
              UuidString(u)[i] == DIGITS[u[j] as int / 16] && UuidString(u)[i + 1] == DIGITS[u[j] as int % 16]
    {
      var i := 2 * j + (if j < 4 then 0 else if j < 6 then 1 else if j < 8 then 2 else if j < 10 then 3 else 4);
      UuidStringAt(u, j, i);
      DigitValues(u[j] as int / 16);
      DigitValues(u[j] as int % 16);
    }
  }

  method ToString(u: Uuid) returns (s: Bytes)
    ensures s == UuidString(u)
  {
    hide HexDigit, UuidString;
    var text := new byte[36](_ => '0');
    text[8], text[13], text[18], text[23] := '-', '-', '-', '-';
    var i, index := 0, 0;
    UuidStringAt(u, 0, 0);
    ghost var whole := UuidString(u);
    while i < 36
      invariant i <= 36 && index <= 16 && i == 2 * index + HyphensBefore(i)
      invariant forall j :: 0 <= j < i ==> text[j] == whole[j]
      invariant forall j :: i <= j < 36 && IsHyphenPosition(j) ==> text[j] == '-'
      decreases 36 - i
    {
      UuidStringAt(u, index, i);
      if !IsHyphenPosition(i) {
        text[i] := HexDigit(u[index] as int / 16);
        i := i + 1;
        text[i] := HexDigit(u[index] as int % 16);
        index := index + 1;
      }
      i := i + 1;
    }
    s := text[..];
    assert s == whole;
  }
}
