/** The lexer (lang/lexer.cc): the token list of a source as a function of its characters, and the
    position-keeping scanner proved to deliver exactly that list. */
module Lexing {
  import opened Octets

  // ---------------------------------------------------------------- character classes

  predicate IsSpace(c: byte) { c == ' ' || 9 <= c as int <= 13 }
  predicate IsDigit(c: byte) { '0' <= c <= '9' }
  predicate IsAlpha(c: byte) { 'a' <= c <= 'z' || 'A' <= c <= 'Z' }
  predicate IsHexDigit(c: byte) { IsDigit(c) || 'a' <= c <= 'f' || 'A' <= c <= 'F' }
  predicate IsBinaryDigit(c: byte) { c == '0' || c == '1' }
  predicate IsWordStart(c: byte) { IsAlpha(c) || c == '_' }
  predicate IsWordChar(c: byte) { IsAlpha(c) || IsDigit(c) || c == '_' }
  predicate IsPunct(c: byte) {
    || c == '@' || c == '{' || c == '}' || c == '(' || c == ')' || c == '[' || c == ']'
    || c == '<' || c == '>' || c == ':' || c == ';' || c == ',' || c == '.' || c == '='
  }
  predicate NotQuote(c: byte) { c != '"' }
  predicate NotNewline(c: byte) { c != '\n' }

  // ---------------------------------------------------------------- tokens

  predicate IsWord(s: Bytes) {
    s != [] && IsWordStart(s[0]) && forall c <- s :: IsWordChar(c)
  }

  datatype Keyword =
    | KwInterface | KwAbirevision | KwStruct | KwFunction | KwEnum | KwInout | KwIn
    | KwOut | KwBitfield | KwPtr | KwArray | KwConst

  function Spelling(w: Keyword): Bytes {
    match w
    case KwInterface => "interface"
    case KwAbirevision => "abirevision"
    case KwStruct => "struct"
    case KwFunction => "function"
    case KwEnum => "enum"
    case KwInout => "inout"
    case KwIn => "in"
    case KwOut => "out"
    case KwBitfield => "bitfield"
    case KwPtr => "ptr"
    case KwArray => "array"
    case KwConst => "const"
  }

  function KeywordOf(s: Bytes): Option<Keyword> {
    if s == "interface" then Some(KwInterface)
    else if s == "abirevision" then Some(KwAbirevision)
    else if s == "struct" then Some(KwStruct)
    else if s == "function" then Some(KwFunction)
    else if s == "enum" then Some(KwEnum)
    else if s == "inout" then Some(KwInout)
    else if s == "in" then Some(KwIn)
    else if s == "out" then Some(KwOut)
    else if s == "bitfield" then Some(KwBitfield)
    else if s == "ptr" then Some(KwPtr)
    else if s == "array" then Some(KwArray)
    else if s == "const" then Some(KwConst)
    else None
  }

  predicate IsKeyword(s: Bytes) { KeywordOf(s).Some? }

  predicate IsIdentifier(s: Bytes) { IsWord(s) && !IsKeyword(s) }

  predicate IsQuoted(s: Bytes) {
    && |s| >= 2 && s[0] == '"' && s[|s| - 1] == '"'
    && forall c <- s[1..|s| - 1] :: NotQuote(c)
  }

  type IdentifierText = s: Bytes | IsIdentifier(s) witness "x"
  type QuotedText = s: Bytes | IsQuoted(s) witness "\"\""

  /** `Unterminated` stands for a string without closing quote, where the source reads past the
      end of its buffer; no grammar rule accepts it. */
  datatype Token =
    | Ident(name: IdentifierText)
    | Number(digits: Bytes)
    | Text(quoted: QuotedText)
    | Reserved(word: Keyword)
    | Punct(c: byte)
    | Unknown(c: byte)
    | Unterminated
    | Eof

  /** The length of the longest prefix of `s` whose characters satisfy `p`. */
  function Span(p: byte -> bool, s: Bytes): (n: nat)
    ensures n <= |s| && (forall c <- s[..n] :: p(c)) && (n < |s| ==> !p(s[n]))
  {
    if s == [] || !p(s[0]) then 0 else 1 + Span(p, s[1..])
  }

  function AfterBlockComment(s: Bytes): (r: Bytes)
    ensures |r| <= |s|
  {
    if s == [] then []
    else if |s| >= 2 && s[0] == '*' && s[1] == '/' then s[2..]
    else AfterBlockComment(s[1..])
  }

  /** Drops white space, comments and lone slashes. */
  function Skip(s: Bytes): (r: Bytes)
    ensures |r| <= |s|
    ensures r != [] ==> !IsSpace(r[0]) && r[0] != '/'
    decreases |s|
  {
    if s == [] then []
    else if IsSpace(s[0]) then Skip(s[1..])
    else if s[0] == '/' then
      var t := s[1..];
      if t != [] && t[0] == '/' then Skip(t[Span(NotNewline, t)..])
      else if t != [] && t[0] == '*' then Skip(AfterBlockComment(t[1..]))
      else Skip(t)
    else s
  }

  function Classify(w: Bytes): (t: Token)
    requires IsWord(w)
  {
    match KeywordOf(w)
    case Some(word) => Reserved(word)
    case None => Ident(w)
  }

  /** A number token: the radix prefix is dropped from its text, as the source drops it. */
  function LexNumber(s: Bytes): (r: (Token, Bytes))
    requires s != [] && IsDigit(s[0])
    ensures |r.1| < |s|
  {
    if s[0] == '0' then
      var t := s[1..];
      if t != [] && (t[0] == 'x' || t[0] == 'X') then
        var u := t[1..];
        var n := Span(IsHexDigit, u);
        (Number(u[..n]), u[n..])
      else if t != [] && (t[0] == 'b' || t[0] == 'B') then
        var u := t[1..];
        var n := Span(IsBinaryDigit, u);
        (Number(u[..n]), u[n..])
      else if t != [] && IsDigit(t[0]) then
        var n := Span(IsDigit, t);
        (Number(t[..n]), t[n..])
      else (Number("0"), t)
    else
      var n := Span(IsDigit, s);
      (Number(s[..n]), s[n..])
  }

  function LexString(s: Bytes): (r: (Token, Bytes))
    requires s != [] && s[0] == '"'
    ensures |r.1| < |s|
  {
    var n := Span(NotQuote, s[1..]);
    if n == |s| - 1 then (Unterminated, [])
    else
      assert s[..n + 2][1..n + 1] == s[1..][..n];
      (Text(s[..n + 2]), s[n + 2..])
  }

  /** The token at the front of `s` and what follows it. */
  function LexOne(s: Bytes): (r: (Token, Bytes))
    requires s != []
    ensures |r.1| < |s| && !r.0.Eof?
  {
    if IsWordStart(s[0]) then
      var n := Span(IsWordChar, s);
      (Classify(s[..n]), s[n..])
    else if IsDigit(s[0]) then LexNumber(s)
    else if s[0] == '"' then LexString(s)
    else if IsPunct(s[0]) then (Punct(s[0]), s[1..])
    else (Unknown(s[0]), s[1..])
  }

  /** The tokens of a source, without the end-of-file token. */
  function Tokens(s: Bytes): (ts: seq<Token>)
    ensures forall t <- ts :: !t.Eof?
    decreases |s|
  {
    var r := Skip(s);
    if r == [] then []
    else
      var (t, rest) := LexOne(r);
      [t] + Tokens(rest)
  }
}
