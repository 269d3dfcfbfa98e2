/** The lexical grammar of SIDL, written out with its characters: which texts are one lexeme, and what
    they mean. Every source is made of lexemes, and the lexer reads them one by one. */
module LexicalGrammar {
  import opened Octets
  import opened Lexing
  import opened TextRoundTrip

  // ---------------------------------------------------------------- characters

  predicate Letter(c: byte) { 'a' <= c <= 'z' || 'A' <= c <= 'Z' || c == '_' }
  predicate DecimalDigit(c: byte) { '0' <= c <= '9' }
  predicate HexDigit(c: byte) { '0' <= c <= '9' || 'a' <= c <= 'f' || 'A' <= c <= 'F' }
  predicate BinaryDigit(c: byte) { c == '0' || c == '1' }
  predicate LetterOrDigit(c: byte) { Letter(c) || DecimalDigit(c) }

  /** Tab, line feed, vertical tab, form feed, carriage return and space. */
  predicate Blank(c: byte) {
    var n := c as int;
    n == 9 || n == 10 || n == 11 || n == 12 || n == 13 || n == 32
  }

  const PUNCTUATION: Bytes := "@{}()[]<>:;,.="

  function Keywords(): seq<(Bytes, Keyword)> {
    [("interface", KwInterface), ("abirevision", KwAbirevision), ("struct", KwStruct), ("function", KwFunction),
     ("enum", KwEnum), ("inout", KwInout), ("in", KwIn), ("out", KwOut), ("bitfield", KwBitfield), ("ptr", KwPtr),
     ("array", KwArray), ("const", KwConst)]
  }

  predicate All(p: byte -> bool, s: Bytes) { forall c <- s :: p(c) }

  /** The text does not go on with such a character. */
  predicate Stops(p: byte -> bool, k: Bytes) { k == [] || !p(k[0]) }

  predicate NoEnd(s: Bytes) { forall j :: 0 <= j < |s| - 1 ==> !(s[j] == '*' && s[j + 1] == '/') }

  // ---------------------------------------------------------------- lexemes

  /** `t` is the token of the word `w`. */
  ghost predicate WordMeans(w: Bytes, t: Token) {
    if t.Reserved? then (w, t.word) in Keywords()
    else t.Ident? && t.name == w && forall j :: 0 <= j < |Keywords()| ==> Keywords()[j].0 != w
  }

  ghost predicate IsWordLexeme(w: Bytes, out: seq<Token>, k: Bytes) {
    w != [] && Letter(w[0]) && All(LetterOrDigit, w) && Stops(LetterOrDigit, k) && |out| == 1 && WordMeans(w, out[0])
  }

  /** Decimal, with a leading zero dropped, and with the prefixes of other bases dropped. */
  predicate IsNumberLexeme(w: Bytes, out: seq<Token>, k: Bytes) {
    || (w != [] && All(DecimalDigit, w) && w[0] != '0' && Stops(DecimalDigit, k) && out == [Number(w)])
    || (w == ['0'] && Stops(DecimalDigit, k) && (k == [] || k[0] !in "xXbB") && out == [Number(w)])
    || (|w| >= 2 && w[0] == '0' && All(DecimalDigit, w[1..]) && Stops(DecimalDigit, k) && out == [Number(w[1..])])
    || (|w| >= 2 && w[0] == '0' && w[1] in "xX" && All(HexDigit, w[2..]) && Stops(HexDigit, k)
        && out == [Number(w[2..])])
    || (|w| >= 2 && w[0] == '0' && w[1] in "bB" && All(BinaryDigit, w[2..]) && Stops(BinaryDigit, k)
        && out == [Number(w[2..])])
  }

  predicate IsStringLexeme(w: Bytes, out: seq<Token>, k: Bytes) {
    || (|w| >= 2 && w[0] == w[|w| - 1] == '"' && '"' !in w[1..|w| - 1] && |out| == 1 && out[0].Text?
        && out[0].quoted == w)
    || (w != [] && w[0] == '"' && '"' !in w[1..] && k == [] && out == [Unterminated])
  }

  predicate IsCommentLexeme(w: Bytes, k: Bytes) {
    || (w == ['/'] && (k == [] || k[0] !in "/*"))
    || (|w| >= 2 && w[0] == w[1] == '/' && '\n' !in w[2..] && (k == [] || k[0] == '\n'))
    || (|w| >= 4 && w[0] == '/' && w[1] == '*' && w[|w| - 2] == '*' && w[|w| - 1] == '/' && NoEnd(w[2..|w| - 1]))
    || (|w| >= 2 && w[0] == '/' && w[1] == '*' && NoEnd(w[2..]) && k == [])
  }

  /** In front of `k`, the text `w` is one lexeme, and it means the tokens `out`, one or none. */
  ghost predicate Lexeme(w: Bytes, out: seq<Token>, k: Bytes) {
    || (|w| == 1 && Blank(w[0]) && out == [])
    || (IsCommentLexeme(w, k) && out == [])
    || IsWordLexeme(w, out, k)
    || IsNumberLexeme(w, out, k)
    || IsStringLexeme(w, out, k)
    || (|w| == 1 && w[0] in PUNCTUATION && out == [Punct(w[0])])
    || (|w| == 1 && !Blank(w[0]) && !LetterOrDigit(w[0]) && w[0] !in PUNCTUATION && w[0] !in "\"/"
        && out == [Unknown(w[0])])
  }

  // ---------------------------------------------------------------- the character classes of the lexer

  lemma Classes(c: byte)
    ensures IsSpace(c) <==> Blank(c)
    ensures IsWordStart(c) <==> Letter(c)
    ensures IsWordChar(c) <==> LetterOrDigit(c)
    ensures IsDigit(c) <==> DecimalDigit(c)
    ensures IsHexDigit(c) <==> HexDigit(c)
    ensures IsBinaryDigit(c) <==> BinaryDigit(c)
    ensures IsPunct(c) <==> c in PUNCTUATION
  {
    PunctuationIs(c);
  }

  lemma PunctuationIs(c: byte)
    ensures IsPunct(c) <==> c in PUNCTUATION
  {
    var p := PUNCTUATION;
    assert p[0] == '@' && p[1] == '{' && p[2] == '}' && p[3] == '(' && p[4] == ')' && p[5] == '[' && p[6] == ']';
    assert p[7] == '<' && p[8] == '>' && p[9] == ':' && p[10] == ';' && p[11] == ',' && p[12] == '.' && p[13] == '=';
    assert |p| == 14;
  }

  lemma KeywordIs(w: Bytes, j: nat)
    requires j < |Keywords()| && Keywords()[j].0 == w
    ensures KeywordOf(w) == Some(Keywords()[j].1)
  {
    SpellingLaw(Keywords()[j].1);
    SpellingIs(j);
  }

  lemma SpellingIs(j: nat)
    requires j < |Keywords()|
    ensures Spelling(Keywords()[j].1) == Keywords()[j].0
  {
  }

  /** Every keyword is in the list. */
  lemma KeywordListed(w: Bytes)
    requires IsKeyword(w)
    ensures exists j :: 0 <= j < |Keywords()| && Keywords()[j] == (w, KeywordOf(w).value)
  {
    var word := KeywordOf(w).value;
    var j := match word
      case KwInterface => 0 case KwAbirevision => 1 case KwStruct => 2 case KwFunction => 3 case KwEnum => 4
      case KwInout => 5 case KwIn => 6 case KwOut => 7 case KwBitfield => 8 case KwPtr => 9 case KwArray => 10
      case KwConst => 11;
    assert Keywords()[j].1 == word;
    SpellingIs(j);
    SpelledAs(w);
  }

  lemma SpelledAs(w: Bytes)
    requires IsKeyword(w)
    ensures Spelling(KeywordOf(w).value) == w
  {
  }

  lemma AllClasses()
    ensures forall c :: IsSpace(c) <==> Blank(c)
    ensures forall c :: IsWordStart(c) <==> Letter(c)
    ensures forall c :: IsWordChar(c) <==> LetterOrDigit(c)
    ensures forall c :: IsDigit(c) <==> DecimalDigit(c)
    ensures forall c :: IsHexDigit(c) <==> HexDigit(c)
    ensures forall c :: IsBinaryDigit(c) <==> BinaryDigit(c)
    ensures forall c :: IsPunct(c) <==> c in PUNCTUATION
  {
    forall c: byte
      ensures IsSpace(c) <==> Blank(c)
      ensures IsWordStart(c) <==> Letter(c)
      ensures IsWordChar(c) <==> LetterOrDigit(c)
      ensures IsDigit(c) <==> DecimalDigit(c)
      ensures IsHexDigit(c) <==> HexDigit(c)
      ensures IsBinaryDigit(c) <==> BinaryDigit(c)
      ensures IsPunct(c) <==> c in PUNCTUATION
    {
      Classes(c);
    }
  }

  // ---------------------------------------------------------------- the lexer reads lexemes

  lemma TokenInFront(s: Bytes, t: Token, rest: Bytes)
    requires s != [] && Skip(s) == s && LexOne(s) == (t, rest)
    ensures Lexing.Tokens(s) == [t] + Lexing.Tokens(rest)
  {
    hide Skip, LexOne;
  }

  lemma NothingInFront(s: Bytes, rest: Bytes)
    requires Skip(s) == Skip(rest)
    ensures Lexing.Tokens(s) == Lexing.Tokens(rest)
  {
    hide Skip, LexOne;
  }

  lemma ReadBlank(c: byte, k: Bytes)
    requires Blank(c)
    ensures Lexing.Tokens([c] + k) == Lexing.Tokens(k)
  {
    Classes(c);
    assert ([c] + k)[1..] == k;
    NothingInFront([c] + k, k);
  }

  lemma ReadWord(w: Bytes, out: seq<Token>, k: Bytes)
    requires IsWordLexeme(w, out, k)
    ensures Lexing.Tokens(w + k) == out + Lexing.Tokens(k)
  {
    hide Lexing.Tokens, KeywordOf, Letter, LetterOrDigit, IsWordChar, IsWordStart, Keywords;
    AllClasses();
    assert IsWord(w) && Delimited(k);
    LexWord(w, k);
    WordToken(w, out[0]);
    assert out == [Classify(w)];
  }

  lemma WordToken(w: Bytes, t: Token)
    requires IsWord(w) && WordMeans(w, t)
    ensures Classify(w) == t
  {
    hide KeywordOf, Keywords, IsWord;
    if t.Reserved? {
      var j :| 0 <= j < |Keywords()| && Keywords()[j] == (w, t.word);
      KeywordIs(w, j);
    } else if IsKeyword(w) {
      KeywordListed(w);
    }
  }

  lemma DigitFacts(s: Bytes)
    requires s != [] && DecimalDigit(s[0])
    ensures Skip(s) == s && LexOne(s) == LexNumber(s)
  {
    hide LexNumber;
  }

  lemma {:induction false} SpanAll(p: byte -> bool, q: byte -> bool, w: Bytes, k: Bytes)
    requires All(q, w) && Stops(q, k) && forall c :: p(c) <==> q(c)
    ensures Span(p, w + k) == |w| && (w + k)[..|w|] == w && (w + k)[|w|..] == k
  {
    SpanAppend(p, w, k);
  }

  lemma ReadDecimal(w: Bytes, k: Bytes)
    requires w != [] && All(DecimalDigit, w) && w[0] != '0' && Stops(DecimalDigit, k)
    ensures Lexing.Tokens(w + k) == [Number(w)] + Lexing.Tokens(k)
  {
    hide Lexing.Tokens, Span, IsDigit, DecimalDigit, Skip, LexOne;
    AllClasses();
    assert DecimalDigit(w[0]);
    DigitFacts(w + k);
    SpanAll(IsDigit, DecimalDigit, w, k);
    TokenInFront(w + k, Number(w), k);
  }

  lemma ReadZero(k: Bytes)
    requires Stops(DecimalDigit, k) && (k == [] || k[0] !in "xXbB")
    ensures Lexing.Tokens(['0'] + k) == [Number(['0'])] + Lexing.Tokens(k)
  {
    hide Lexing.Tokens, Span, Skip, LexOne;
    var s := ['0'] + k;
    DigitFacts(s);
    assert s[1..] == k;
    var others: Bytes := "xXbB";
    assert others[0] == 'x' && others[1] == 'X' && others[2] == 'b' && others[3] == 'B';
    TokenInFront(s, Number(['0']), k);
  }

  lemma ReadZeroLed(d: Bytes, k: Bytes)
    requires d != [] && All(DecimalDigit, d) && Stops(DecimalDigit, k)
    ensures Lexing.Tokens(['0'] + d + k) == [Number(d)] + Lexing.Tokens(k)
  {
    hide Lexing.Tokens, Span, Skip, LexOne, LexNumber, DecimalDigit, IsDigit;
    var s := ['0'] + d + k;
    assert s[1..] == d + k;
    forall c ensures IsDigit(c) <==> DecimalDigit(c) { Classes(c); }
    SpanAll(IsDigit, DecimalDigit, d, k);
    assert DecimalDigit(d[0]);
    LedNumber(s);
    assert DecimalDigit(s[0]) by { ZeroIsDigit(); }
    DigitFacts(s);
    TokenInFront(s, Number(d), k);
  }

  lemma ZeroIsDigit()
    ensures DecimalDigit('0')
  {
  }

  lemma LedNumber(s: Bytes)
    requires |s| >= 2 && s[0] == '0' && IsDigit(s[1])
    ensures var u := s[1..]; LexNumber(s) == (Number(u[..Span(IsDigit, u)]), u[Span(IsDigit, u)..])
  {
    hide Span;
  }

  /** What follows a prefix. */
  lemma PrefixedNumber(s: Bytes)
    requires |s| >= 2 && s[0] == '0'
    ensures var u := s[2..];
            && (s[1] == 'x' || s[1] == 'X' ==>
                  LexNumber(s) == (Number(u[..Span(IsHexDigit, u)]), u[Span(IsHexDigit, u)..]))
            && (s[1] == 'b' || s[1] == 'B' ==>
                  LexNumber(s) == (Number(u[..Span(IsBinaryDigit, u)]), u[Span(IsBinaryDigit, u)..]))
  {
    hide Span;
    assert s[1..][1..] == s[2..];
  }

  lemma ReadHex(x: byte, d: Bytes, k: Bytes)
    requires (x == 'x' || x == 'X') && All(HexDigit, d) && Stops(HexDigit, k)
    ensures Lexing.Tokens(['0', x] + d + k) == [Number(d)] + Lexing.Tokens(k)
  {
    hide Lexing.Tokens, Span, Skip, LexOne, LexNumber, IsHexDigit, HexDigit;
    var s := ['0', x] + d + k;
    DigitFacts(s);
    PrefixedNumber(s);
    assert s[2..] == d + k;
    forall c ensures IsHexDigit(c) <==> HexDigit(c) { Classes(c); }
    SpanAll(IsHexDigit, HexDigit, d, k);
    TokenInFront(s, Number(d), k);
  }

  lemma ReadBinary(x: byte, d: Bytes, k: Bytes)
    requires (x == 'b' || x == 'B') && All(BinaryDigit, d) && Stops(BinaryDigit, k)
    ensures Lexing.Tokens(['0', x] + d + k) == [Number(d)] + Lexing.Tokens(k)
  {
    hide Lexing.Tokens, Span, Skip, LexOne, LexNumber, IsBinaryDigit, BinaryDigit;
    var s := ['0', x] + d + k;
    DigitFacts(s);
    PrefixedNumber(s);
    assert s[2..] == d + k;
    forall c ensures IsBinaryDigit(c) <==> BinaryDigit(c) { Classes(c); }
    SpanAll(IsBinaryDigit, BinaryDigit, d, k);
    TokenInFront(s, Number(d), k);
  }

  lemma PrefixLetters(c: byte)
    ensures (c in "xX" <==> c == 'x' || c == 'X') && (c in "bB" <==> c == 'b' || c == 'B')
  {
    var x: Bytes, b: Bytes := "xX", "bB";
    assert x[0] == 'x' && x[1] == 'X' && b[0] == 'b' && b[1] == 'B';
  }

  lemma ReadNumber(w: Bytes, out: seq<Token>, k: Bytes)
    requires IsNumberLexeme(w, out, k)
    ensures w != [] && Lexing.Tokens(w + k) == out + Lexing.Tokens(k)
  {
    hide Lexing.Tokens, All, Stops;
    if w[0] != '0' {
      ReadDecimal(w, k);
    } else if w == ['0'] {
      if out == [Number(w)] && Stops(DecimalDigit, k) && (k == [] || k[0] !in "xXbB") { ReadZero(k); }
    } else {
      PrefixLetters(w[1]);
      if All(DecimalDigit, w[1..]) && Stops(DecimalDigit, k) && out == [Number(w[1..])] {
        ReadZeroLed(w[1..], k);
        assert ['0'] + w[1..] == w;
      } else {
        if w[1] in "xX" { ReadHex(w[1], w[2..], k); } else { ReadBinary(w[1], w[2..], k); }
        assert ['0', w[1]] + w[2..] == w;
      }
    }
  }

  lemma ReadString(w: Bytes, out: seq<Token>, k: Bytes)
    requires IsStringLexeme(w, out, k)
    ensures w != [] && Lexing.Tokens(w + k) == out + Lexing.Tokens(k)
  {
    hide Lexing.Tokens;
    if out == [Unterminated] {
      var s := w + k;
      assert s == w;
      SpanAppend(NotQuote, s[1..], []);
      assert s[1..] + [] == s[1..];
      assert Skip(s) == s && LexOne(s) == (Unterminated, []);
      TokenInFront(s, Unterminated, []);
    } else {
      LexQuoted(w, k);
    }
  }

  lemma ReadPunctuation(c: byte, k: Bytes)
    requires c in PUNCTUATION
    ensures Lexing.Tokens([c] + k) == [Punct(c)] + Lexing.Tokens(k)
  {
    hide Lexing.Tokens;
    PunctuationIs(c);
    LexPunct(c, k);
  }

  lemma ReadUnknown(c: byte, k: Bytes)
    requires !Blank(c) && !LetterOrDigit(c) && c !in PUNCTUATION && c !in "\"/"
    ensures Lexing.Tokens([c] + k) == [Unknown(c)] + Lexing.Tokens(k)
  {
    hide Lexing.Tokens, IsPunct, PUNCTUATION;
    Classes(c);
    var s := [c] + k;
    var q: Bytes := "\"/";
    assert q[0] == '"' && q[1] == '/';
    assert s[1..] == k;
    assert Skip(s) == s && LexOne(s) == (Unknown(c), k);
    TokenInFront(s, Unknown(c), k);
  }

  lemma {:induction false} EndFound(t: Bytes, k: Bytes)
    requires NoEnd(t + ['*'])
    ensures AfterBlockComment(t + ['*', '/'] + k) == k
    decreases |t|
  {
    var s := t + ['*', '/'] + k;
    if t == [] {
      assert s[2..] == k;
    } else {
      assert s[1..] == t[1..] + ['*', '/'] + k;
      assert (t + ['*'])[0] == s[0] && (t + ['*'])[1] == s[1];
      forall j | 0 <= j < |t[1..] + ['*']| - 1 ensures !((t[1..] + ['*'])[j] == '*' && (t[1..] + ['*'])[j + 1] == '/') {
        assert (t[1..] + ['*'])[j] == (t + ['*'])[j + 1] && (t[1..] + ['*'])[j + 1] == (t + ['*'])[j + 2];
      }
      EndFound(t[1..], k);
    }
  }

  lemma {:induction false} NoEndFound(t: Bytes)
    requires NoEnd(t)
    ensures AfterBlockComment(t) == []
    decreases |t|
  {
    if t != [] {
      forall j | 0 <= j < |t[1..]| - 1 ensures !(t[1..][j] == '*' && t[1..][j + 1] == '/') {
        assert t[1..][j] == t[j + 1] && t[1..][j + 1] == t[j + 2];
      }
      NoEndFound(t[1..]);
    }
  }

  lemma ReadSlash(k: Bytes)
    requires k == [] || k[0] !in "/*"
    ensures Skip(['/'] + k) == Skip(k)
  {
    hide Span, AfterBlockComment;
    var sl: Bytes := "/*";
    assert sl[0] == '/' && sl[1] == '*';
    assert (['/'] + k)[1..] == k;
  }

  lemma ReadLineComment(t: Bytes, k: Bytes)
    requires '\n' !in t && (k == [] || k[0] == '\n')
    ensures Skip(['/', '/'] + t + k) == Skip(k)
  {
    hide Span, AfterBlockComment;
    var s, u := ['/', '/'] + t + k, ['/'] + t;
    assert s[1..] == u + k && u[0] == '/';
    SpanAppend(NotNewline, u, k);
    assert (u + k)[|u|..] == k;
  }

  lemma SkipBlock(s: Bytes)
    requires |s| >= 2 && s[0] == '/' && s[1] == '*'
    ensures Skip(s) == Skip(AfterBlockComment(s[2..]))
  {
    hide Span, AfterBlockComment;
    assert s[1..][1..] == s[2..];
  }

  lemma ReadBlockComment(t: Bytes, k: Bytes)
    requires NoEnd(t + ['*'])
    ensures Skip(['/', '*'] + t + ['*', '/'] + k) == Skip(k)
  {
    hide Skip, AfterBlockComment;
    var s := ['/', '*'] + t + ['*', '/'] + k;
    SkipBlock(s);
    assert s[2..] == t + ['*', '/'] + k;
    EndFound(t, k);
  }

  lemma ReadOpenComment(t: Bytes)
    requires NoEnd(t)
    ensures Skip(['/', '*'] + t) == Skip([])
  {
    hide Skip, AfterBlockComment;
    SkipBlock(['/', '*'] + t);
    assert (['/', '*'] + t)[2..] == t;
    NoEndFound(t);
  }

  lemma ReadComment(w: Bytes, k: Bytes)
    requires IsCommentLexeme(w, k)
    ensures w != [] && Lexing.Tokens(w + k) == Lexing.Tokens(k)
  {
    hide Skip, AfterBlockComment, NoEnd, Lexing.Tokens;
    if w == ['/'] && (k == [] || k[0] !in "/*") {
      ReadSlash(k);
    } else if w[1] == '/' {
      assert w == ['/', '/'] + w[2..];
      ReadLineComment(w[2..], k);
    } else if |w| >= 4 && w[|w| - 2] == '*' && w[|w| - 1] == '/' && NoEnd(w[2..|w| - 1]) {
      var t := w[2..|w| - 2];
      assert t + ['*'] == w[2..|w| - 1];
      assert w == ['/', '*'] + t + ['*', '/'];
      ReadBlockComment(t, k);
    } else {
      assert w == ['/', '*'] + w[2..] && w + k == w;
      ReadOpenComment(w[2..]);
    }
    NothingInFront(w + k, k);
  }

  /** The lexer reads a lexeme as what it means, and goes on behind it. */
  lemma LexemeIsRead(w: Bytes, out: seq<Token>, k: Bytes)
    requires Lexeme(w, out, k)
    ensures w != [] && Lexing.Tokens(w + k) == out + Lexing.Tokens(k)
  {
    hide Lexing.Tokens, Blank, LetterOrDigit, Letter, IsCommentLexeme, IsWordLexeme, IsNumberLexeme, IsStringLexeme,
         PUNCTUATION;
    if |w| == 1 { assert w == [w[0]]; }
    if |w| == 1 && Blank(w[0]) && out == [] {
      ReadBlank(w[0], k);
    } else if IsCommentLexeme(w, k) && out == [] {
      ReadComment(w, k);
    } else if IsWordLexeme(w, out, k) {
      ReadWord(w, out, k);
      assert w != [] by { WordNotEmpty(w, out, k); }
    } else if IsNumberLexeme(w, out, k) {
      ReadNumber(w, out, k);
    } else if IsStringLexeme(w, out, k) {
      ReadString(w, out, k);
    } else if w[0] in PUNCTUATION {
      ReadPunctuation(w[0], k);
    } else {
      ReadUnknown(w[0], k);
    }
  }

  lemma WordNotEmpty(w: Bytes, out: seq<Token>, k: Bytes)
    requires IsWordLexeme(w, out, k)
    ensures w != []
  {
  }

  // ---------------------------------------------------------------- every source is made of lexemes

  /** The longest beginning of the text with such characters. */
  lemma {:induction false} LongestBeginning(p: byte -> bool, s: Bytes) returns (w: Bytes, k: Bytes)
    ensures s == w + k && All(p, w) && Stops(p, k)
    ensures s != [] && p(s[0]) ==> w != [] && w[0] == s[0]
    decreases |s|
  {
    if s == [] || !p(s[0]) {
      w, k := [], s;
    } else {
      w, k := LongestBeginning(p, s[1..]);
      w := [s[0]] + w;
    }
  }

  /** Digits behind a prefix, or behind a leading zero. */
  lemma PrefixedLexeme(x: byte, d: Bytes, k: Bytes)
    ensures (x == 'x' || x == 'X') && All(HexDigit, d) && Stops(HexDigit, k) ==>
              IsNumberLexeme(['0', x] + d, [Number(d)], k)
    ensures (x == 'b' || x == 'B') && All(BinaryDigit, d) && Stops(BinaryDigit, k) ==>
              IsNumberLexeme(['0', x] + d, [Number(d)], k)
  {
    hide All, Stops;
    PrefixLetters(x);
    assert (['0', x] + d)[2..] == d;
  }

  lemma LedLexeme(d: Bytes, k: Bytes)
    requires d != [] && All(DecimalDigit, d) && Stops(DecimalDigit, k)
    ensures IsNumberLexeme(['0'] + d, [Number(d)], k)
  {
    hide All, Stops;
    assert (['0'] + d)[1..] == d;
  }

  lemma NumberInFront(s: Bytes) returns (w: Bytes, out: seq<Token>, k: Bytes)
    requires s != [] && DecimalDigit(s[0])
    ensures s == w + k && IsNumberLexeme(w, out, k)
  {
    if s[0] != '0' {
      w, k := LongestBeginning(DecimalDigit, s);
      out := [Number(w)];
    } else {
      w, out, k := ZeroInFront(s[1..]);
      assert s == ['0'] + s[1..];
    }
  }

  lemma ZeroInFront(t: Bytes) returns (w: Bytes, out: seq<Token>, k: Bytes)
    ensures ['0'] + t == w + k && IsNumberLexeme(w, out, k)
  {
    hide All, Stops, IsNumberLexeme;
    PrefixesOfZero(t);
    if t != [] && (t[0] == 'x' || t[0] == 'X') {
      var d;
      d, k := LongestBeginning(HexDigit, t[1..]);
      w, out := ['0', t[0]] + d, [Number(d)];
      PrefixedLexeme(t[0], d, k);
    } else if t != [] && (t[0] == 'b' || t[0] == 'B') {
      var d;
      d, k := LongestBeginning(BinaryDigit, t[1..]);
      w, out := ['0', t[0]] + d, [Number(d)];
      PrefixedLexeme(t[0], d, k);
    } else if t != [] && DecimalDigit(t[0]) {
      var d;
      d, k := LongestBeginning(DecimalDigit, t);
      w, out := ['0'] + d, [Number(d)];
      LedLexeme(d, k);
    } else {
      w, out, k := ['0'], [Number(['0'])], t;
      LoneZero(k);
    }
  }

  lemma LoneZero(k: Bytes)
    requires k != [] ==> k[0] !in "xXbB" && !DecimalDigit(k[0])
    ensures IsNumberLexeme(['0'], [Number(['0'])], k)
  {
  }

  lemma PrefixesOfZero(t: Bytes)
    ensures t != [] ==> (t[0] in "xXbB" <==> t[0] in "xX" || t[0] in "bB")
  {
    var all: Bytes, x: Bytes, b: Bytes := "xXbB", "xX", "bB";
    assert all == x + b;
  }

  lemma StringInFront(s: Bytes) returns (w: Bytes, out: seq<Token>, k: Bytes)
    requires s != [] && s[0] == '"'
    ensures s == w + k && IsStringLexeme(w, out, k)
  {
    var t, rest := LongestBeginning(NotQuote, s[1..]);
    if rest == [] {
      w, out, k := s, [Unterminated], [];
      assert s[1..] == t;
    } else {
      w, k := ['"'] + t + ['"'], rest[1..];
      assert w[1..|w| - 1] == t;
      out := [Text(w)];
    }
  }

  lemma CommentInFront(s: Bytes) returns (w: Bytes, k: Bytes)
    requires s != [] && s[0] == '/'
    ensures s == w + k && IsCommentLexeme(w, k)
  {
    hide NoEnd, IsCommentLexeme;
    if |s| >= 2 && s[1] == '/' {
      var t;
      t, k := LongestBeginning(NotNewline, s[2..]);
      w := ['/', '/'] + t;
      LineComment(t, k);
    } else if |s| >= 2 && s[1] == '*' {
      var t;
      t, k := BlockInFront(s[2..]);
      assert s == ['/', '*'] + s[2..];
      w := ['/', '*'] + t;
      BlockComment(t, k);
    } else {
      w, k := ['/'], s[1..];
      LoneSlash(k);
    }
  }

  lemma LineComment(t: Bytes, k: Bytes)
    requires All(NotNewline, t) && Stops(NotNewline, k)
    ensures IsCommentLexeme(['/', '/'] + t, k)
  {
    hide NoEnd;
    assert (['/', '/'] + t)[2..] == t;
  }

  lemma BlockComment(t: Bytes, k: Bytes)
    requires if k == [] && NoEnd(t) then true
             else |t| >= 2 && t[|t| - 2] == '*' && t[|t| - 1] == '/' && NoEnd(t[..|t| - 1])
    ensures IsCommentLexeme(['/', '*'] + t, k)
  {
    hide NoEnd;
    var w := ['/', '*'] + t;
    assert w[2..] == t;
    if |t| >= 2 { assert w[2..|w| - 1] == t[..|t| - 1]; }
  }

  lemma LoneSlash(k: Bytes)
    requires k == [] || (k[0] != '/' && k[0] != '*')
    ensures IsCommentLexeme(['/'], k)
  {
    var sl: Bytes := "/*";
    assert |sl| == 2 && sl[0] == '/' && sl[1] == '*';
  }

  /** A comment up to its end, or all of a text without one. */
  lemma {:induction false} BlockInFront(s: Bytes) returns (t: Bytes, k: Bytes)
    ensures s == t + k
    ensures (|t| >= 2 && t[|t| - 2] == '*' && t[|t| - 1] == '/' && NoEnd(t[..|t| - 1])) || (k == [] && NoEnd(t))
    decreases |s|
  {
    if |s| < 2 {
      t, k := s, [];
    } else if s[0] == '*' && s[1] == '/' {
      t, k := s[..2], s[2..];
    } else {
      var u;
      u, k := BlockInFront(s[1..]);
      t := [s[0]] + u;
      assert s == t + k;
      if k == [] && NoEnd(u) {
        NoEndInFront(s[0], u, s);
      } else {
        NoEndInFront(s[0], u[..|u| - 1], s);
        assert t[..|t| - 1] == [s[0]] + u[..|u| - 1];
      }
    }
  }

  lemma NoEndInFront(c: byte, u: Bytes, s: Bytes)
    requires |s| >= 2 && c == s[0] && !(s[0] == '*' && s[1] == '/') && (u == [] || u[0] == s[1]) && NoEnd(u)
    ensures NoEnd([c] + u)
  {
    forall j | 0 <= j < |u| ensures !(([c] + u)[j] == '*' && ([c] + u)[j + 1] == '/') {
      if j > 0 { assert ([c] + u)[j] == u[j - 1] && ([c] + u)[j + 1] == u[j]; }
    }
  }

  lemma WordInFront(s: Bytes) returns (w: Bytes, out: seq<Token>, k: Bytes)
    requires s != [] && Letter(s[0])
    ensures s == w + k && IsWordLexeme(w, out, k)
  {
    hide Letter, KeywordOf, Keywords, IsWordStart, IsWordChar, DecimalDigit;
    w, k := LongestBeginning(LetterOrDigit, s);
    assert IsWord(w) by { AllClasses(); }
    out := [Classify(w)];
    if IsKeyword(w) {
      KeywordListed(w);
    } else {
      forall j | 0 <= j < |Keywords()| ensures Keywords()[j].0 != w {
        if Keywords()[j].0 == w { KeywordIs(w, j); }
      }
    }
  }

  /** Every text but the empty one begins with a lexeme, so `LexemeIsRead` says what its tokens are. */
  lemma LexemeInFront(s: Bytes) returns (w: Bytes, out: seq<Token>, k: Bytes)
    requires s != []
    ensures s == w + k && Lexeme(w, out, k)
  {
    hide Letter, Blank, DecimalDigit, IsCommentLexeme, IsWordLexeme, IsNumberLexeme, IsStringLexeme, PUNCTUATION;
    var c := s[0];
    w, out, k := [c], [], s[1..];
    if Blank(c) {
    } else if Letter(c) {
      w, out, k := WordInFront(s);
    } else if DecimalDigit(c) {
      w, out, k := NumberInFront(s);
    } else if c == '"' {
      w, out, k := StringInFront(s);
    } else if c == '/' {
      w, k := CommentInFront(s);
    } else if c in PUNCTUATION {
      out := [Punct(c)];
    } else {
      out := [Unknown(c)];
      var q: Bytes := "\"/";
      assert q[0] == '"' && q[1] == '/' && |q| == 2;
    }
  }

  /** And the empty text has no tokens. */
  lemma NothingIsRead()
    ensures Lexing.Tokens([]) == []
  {
  }
}
