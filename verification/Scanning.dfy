/** The lexer object (lang/lexer.cc): one position in the source, moved character by character, with
    the line and column of that position. It delivers exactly the tokens of module Lexing. */
module Scanning {
  import opened Octets
  import opened Lexing

  // ---------------------------------------------------------------- lines and columns

  function Newlines(s: Bytes): nat {
    if s == [] then 0 else Newlines(s[..|s| - 1]) + (if s[|s| - 1] == '\n' then 1 else 0)
  }

  /** Where the line of position `p` starts. */
  function LineStart(s: Bytes, p: nat): (q: nat)
    requires p <= |s|
    ensures q <= p && (q == 0 || s[q - 1] == '\n')
    ensures forall j :: q <= j < p ==> s[j] != '\n'
  {
    if p == 0 || s[p - 1] == '\n' then p else LineStart(s, p - 1)
  }

  function LineOf(s: Bytes, p: nat): nat
    requires p <= |s|
  {
    1 + Newlines(s[..p])
  }

  function ColumnOf(s: Bytes, p: nat): nat
    requires p <= |s|
  {
    1 + p - LineStart(s, p)
  }

  /** A token with the position of its end's line and its first character's column. */
  datatype Placed = Placed(token: Token, line: nat, startColumn: nat)

  // ---------------------------------------------------------------- laws of the skipping functions

  lemma {:induction false} SpanFrom(p: byte -> bool, s: Bytes, start: nat, i: nat)
    requires start <= i <= |s| && forall j :: start <= j < i ==> p(s[j])
    ensures Span(p, s[start..]) == i - start + Span(p, s[i..])
    decreases i - start
  {
    if start < i {
      assert s[start..][1..] == s[start + 1..];
      SpanFrom(p, s, start + 1, i);
    }
  }

  lemma SkipCases(s: Bytes)
    ensures s == [] ==> Skip(s) == []
    ensures s != [] && IsSpace(s[0]) ==> Skip(s) == Skip(s[1..])
    ensures s != [] && !IsSpace(s[0]) && s[0] != '/' ==> Skip(s) == s
    ensures s != [] && s[0] == '/' ==>
              var t := s[1..];
              && (t != [] && t[0] == '/' ==> Skip(s) == Skip(t[Span(NotNewline, t)..]))
              && (t != [] && t[0] == '*' ==> Skip(s) == Skip(AfterBlockComment(t[1..])))
              && (t == [] || (t[0] != '/' && t[0] != '*') ==> Skip(s) == Skip(t))
  {
    hide Span, AfterBlockComment;
  }

  class Lexer {
    const source: Bytes
    var pos: nat
    var currentLine: nat
    var currentColumn: nat

    ghost predicate Valid()
      reads this
    {
      pos <= |source| && currentLine == LineOf(source, pos) && currentColumn == ColumnOf(source, pos)
    }

    constructor (text: Bytes)
      ensures Valid() && source == text && pos == 0
    {
      source, pos, currentLine, currentColumn := text, 0, 1, 1;
    }

    method Advance()
      requires Valid() && pos < |source|
      modifies this
      ensures Valid() && pos == old(pos) + 1
    {
      assert source[..pos + 1][..pos] == source[..pos];
      if source[pos] == '\n' {
        currentLine := currentLine + 1;
        currentColumn := 1;
      } else {
        currentColumn := currentColumn + 1;
      }
      pos := pos + 1;
    }

    /** Moves over the longest run of characters that satisfy `p`. */
    method AdvanceWhile(p: byte -> bool)
      requires Valid()
      modifies this
      ensures Valid() && pos == old(pos) + Span(p, source[old(pos)..])
      ensures source[pos..] == source[old(pos)..][Span(p, source[old(pos)..])..]
    {
      hide Span, LineOf, ColumnOf;
      ghost var start := pos;
      while pos < |source| && p(source[pos])
        invariant Valid() && start <= pos
        invariant forall j :: start <= j < pos ==> p(source[j])
      {
        Advance();
      }
      SpanFrom(p, source, start, pos);
      SpanStops(p, source[pos..]);
    }

    /** Moves behind the end of a block comment, or to the end of the source. */
    method SkipBlockComment()
      requires Valid()
      modifies this
      ensures Valid() && pos >= old(pos)
      ensures source[pos..] == AfterBlockComment(source[old(pos)..])
    {
      hide LineOf, ColumnOf;
      while pos < |source|
        invariant Valid() && pos >= old(pos)
        invariant AfterBlockComment(source[pos..]) == AfterBlockComment(source[old(pos)..])
      {
        if pos + 1 < |source| && source[pos] == '*' && source[pos + 1] == '/' {
          ghost var s := source[pos..];
          Advance();
          Advance();
          assert s[2..] == source[pos..];
          return;
        }
        assert source[pos..][1..] == source[pos + 1..];
        Advance();
      }
    }

    /** Moves over white space, comments and lone slashes. */
    method SkipUnmeaningful()
      requires Valid()
      modifies this
      ensures Valid() && pos >= old(pos) && source[pos..] == Skip(source[old(pos)..])
    {
      hide Span, AfterBlockComment, Skip, LineOf, ColumnOf;
      while pos < |source|
        invariant Valid() && pos >= old(pos)
        invariant Skip(source[pos..]) == Skip(source[old(pos)..])
        decreases |source| - pos
      {
        var c := source[pos];
        ghost var s := source[pos..];
        assert s[1..] == source[pos + 1..];
        SkipCases(s);
        if IsSpace(c) {
          Advance();
        } else if c == '/' {
          Advance();
          if pos < |source| && source[pos] == '/' {
            AdvanceWhile(NotNewline);
          } else if pos < |source| && source[pos] == '*' {
            assert source[pos..][1..] == source[pos + 1..];
            Advance();
            SkipBlockComment();
          }
        } else {
          return;
        }
      }
      SkipCases(source[pos..]);
    }

    /** The characters from `start` to the current position, if the run `p` led here. */
    lemma Taken(p: byte -> bool, start: nat)
      requires start <= pos <= |source| && pos == start + Span(p, source[start..])
      ensures source[start..pos] == source[start..][..Span(p, source[start..])]
    {
    }

    method NextNumber() returns (token: Token)
      requires Valid() && pos < |source| && IsDigit(source[pos])
      modifies this
      ensures Valid() && (token, source[pos..]) == LexNumber(source[old(pos)..]) && pos > old(pos)
    {
      hide Span, LineOf, ColumnOf;
      ghost var s := source[pos..];
      if source[pos] == '0' {
        assert s[1..] == source[pos + 1..];
        Advance();
        if pos < |source| && (source[pos] == 'x' || source[pos] == 'X') {
          assert s[1..][1..] == source[pos + 1..];
          Advance();
          var start := pos;
          AdvanceWhile(IsHexDigit);
          Taken(IsHexDigit, start);
          token := Number(source[start..pos]);
        } else if pos < |source| && (source[pos] == 'b' || source[pos] == 'B') {
          assert s[1..][1..] == source[pos + 1..];
          Advance();
          var start := pos;
          AdvanceWhile(IsBinaryDigit);
          Taken(IsBinaryDigit, start);
          token := Number(source[start..pos]);
        } else if pos < |source| && IsDigit(source[pos]) {
          var start := pos;
          AdvanceWhile(IsDigit);
          Taken(IsDigit, start);
          token := Number(source[start..pos]);
        } else {
          assert source[pos - 1..pos] == "0";
          token := Number(source[pos - 1..pos]);
        }
      } else {
        var start := pos;
        AdvanceWhile(IsDigit);
        Taken(IsDigit, start);
        SpanStarts(IsDigit, s);
        token := Number(source[start..pos]);
      }
    }

    method NextWord() returns (token: Token)
      requires Valid() && pos < |source| && IsWordStart(source[pos])
      modifies this
      ensures Valid() && (token, source[pos..]) == LexOne(source[old(pos)..]) && pos > old(pos)
    {
      hide Span, LineOf, ColumnOf, KeywordOf;
      ghost var s := source[pos..];
      var start := pos;
      AdvanceWhile(IsWordChar);
      Taken(IsWordChar, start);
      SpanStarts(IsWordChar, s);
      assert IsWord(source[start..pos]) by { WordSpan(s); }
      token := Classify(source[start..pos]);
    }

    /** A string; where the source would read behind its buffer the token is `Unterminated`. */
    method NextString() returns (token: Token)
      requires Valid() && pos < |source| && source[pos] == '"'
      modifies this
      ensures Valid() && (token, source[pos..]) == LexString(source[old(pos)..]) && pos > old(pos)
    {
      hide Span, LineOf, ColumnOf;
      ghost var s := source[pos..];
      assert s[1..] == source[pos + 1..];
      Advance();
      var start := pos;
      AdvanceWhile(NotQuote);
      ghost var n := Span(NotQuote, s[1..]);
      if pos == |source| {
        assert n == |s| - 1;
        return Unterminated;
      }
      var text := source[start - 1..pos + 1];
      assert text == s[..n + 2];
      assert source[pos + 1..] == s[n + 2..];
      assert s[..n + 2][1..n + 1] == s[1..][..n];
      token := Text(text);
      Advance();
    }

    /** The next token. Every token but end of file moves the position, and the tokens of the source
        behind the old position are this one and those behind the new position. */
    method NextToken() returns (placed: Placed)
      requires Valid()
      modifies this
      ensures Valid()
      ensures placed.token.Eof? ==> pos == |source| && Tokens(source[old(pos)..]) == []
      ensures !placed.token.Eof? ==>
                pos > old(pos) && Tokens(source[old(pos)..]) == [placed.token] + Tokens(source[pos..])
      ensures placed.line == LineOf(source, pos)
      ensures placed.startColumn == ColumnOf(source, |source| - |Skip(source[old(pos)..])|)
    {
      hide LineOf, ColumnOf, Span, Skip, LexNumber, LexString, Classify;
      ghost var behind := source[pos..];
      SkipUnmeaningful();
      assert source[pos..] == Skip(behind);
      if pos >= |source| {
        assert source[pos..] == [];
        return Placed(Eof, currentLine, currentColumn);
      }
      var c := source[pos];
      var startColumn := currentColumn;
      ghost var s := source[pos..];
      var token: Token;
      if IsWordStart(c) {
        token := NextWord();
      } else if IsDigit(c) {
        token := NextNumber();
      } else if c == '"' {
        token := NextString();
      } else {
        assert s[1..] == source[pos + 1..];
        token := if IsPunct(c) then Punct(c) else Unknown(c);
        Advance();
      }
      assert (token, source[pos..]) == LexOne(s);
      placed := Placed(token, currentLine, startColumn);
    }
  }

  lemma WordSpan(s: Bytes)
    requires s != [] && IsWordStart(s[0])
    ensures Span(IsWordChar, s) > 0 && IsWord(s[..Span(IsWordChar, s)])
  {
  }

  lemma SpanStops(p: byte -> bool, s: Bytes)
    requires s == [] || !p(s[0])
    ensures Span(p, s) == 0
  {
  }

  lemma SpanStarts(p: byte -> bool, s: Bytes)
    requires s != [] && p(s[0])
    ensures Span(p, s) > 0
  {
  }
}
