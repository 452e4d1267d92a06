/** The lexer itself: one context of row, column and comment flag, and a token
    list, updated by handlers and loops (hzcc/parser/lexical/LexicalParser.cc:69-494). */
module Lexer {
  import opened Ast
  import opened LexerSpec

  /** A string body with text in front. */
  function Prefixed(text: string, r: Option<(string, nat)>): Option<(string, nat)> {
    match r
    case None => None
    case Some((more, end)) => Some((text + more, end))
  }

  lemma PrefixedNone(r: Option<(string, nat)>)
    ensures Prefixed("", r) == r
  {
    if r.Some? {
      assert "" + r.value.0 == r.value.0;
    }
  }

  lemma PrefixedTwice(a: string, b: string, r: Option<(string, nat)>)
    ensures Prefixed(a, Prefixed(b, r)) == Prefixed(a + b, r)
  {
    if r.Some? {
      assert a + (b + r.value.0) == (a + b) + r.value.0;
    }
  }

  /** What one turn of the string loop adds to the text. */
  lemma StringStep(text: string, line: string, i: nat)
    requires i <= |line|
    ensures var c := CharAt(line, i);
            var code := ControlCode(CharAt(line, i + 1));
            if c == '\\' then
              Prefixed(text, StringBody(line, i))
              == Prefixed(text + (if code.Some? then [code.value] else ['\\', CharAt(line, i + 1)]), StringBody(line, i + 2))
            else if c == '"' then Prefixed(text, StringBody(line, i)) == Some((text, i)) && i < |line|
            else Prefixed(text, StringBody(line, i)) == Prefixed(text + [c], StringBody(line, i + 1))
  {
    var c := CharAt(line, i);
    var code := ControlCode(CharAt(line, i + 1));
    if c == '\\' {
      PrefixedTwice(text, if code.Some? then [code.value] else ['\\', CharAt(line, i + 1)], StringBody(line, i + 2));
    } else if c == '"' {
      assert text + "" == text;
    } else {
      PrefixedTwice(text, [c], StringBody(line, i + 1));
    }
  }

  function InFront(toks: seq<Token>, r: Option<seq<Token>>): Option<seq<Token>> {
    match r
    case None => None
    case Some(more) => Some(toks + more)
  }

  lemma InFrontNone(r: Option<seq<Token>>)
    ensures InFront([], r) == r
  {
    if r.Some? {
      assert [] + r.value == r.value;
    }
  }

  lemma InFrontTwice(a: seq<Token>, b: seq<Token>, r: Option<seq<Token>>)
    ensures InFront(a, InFront(b, r)) == InFront(a + b, r)
  {
    if r.Some? {
      assert a + (b + r.value) == (a + b) + r.value;
    }
  }

  class Lexer {
    const check: NumberCheck
    var tokens: seq<Token>
    var row: nat
    var col: nat
    var multiLineComment: bool

    constructor (check: NumberCheck)
      ensures this.check == check && tokens == [] && row == 1 && col == 0 && !multiLineComment
    {
      this.check := check;
      tokens, row, col, multiLineComment := [], 1, 0, false;
    }

    /** A handler leaves the column on the last character it took; the loop of AnalyzeLine moves on. */
    ghost predicate Took(line: string, from: nat, before: seq<Token>, p: Piece, ok: bool)
      reads this
    {
      match p
      case Piece(toks, next) => ok && tokens == before + toks && col + 1 == next && !multiLineComment
      case Open => ok && tokens == before && col >= |line| && multiLineComment
      case Bad => !ok
    }

    method SymbolHandler(line: string)
      requires col < |line| && !multiLineComment
      modifies this`tokens, this`col
      ensures Took(line, old(col), old(tokens), SymbolPiece(line, row, old(col)), true)
    {
      var start := col;
      if IsDouble(line[col], CharAt(line, col + 1)) {
        assert CharAt(line, col + 1) != 0 as char;
        col := col + 1;
      }
      assert line[start..start + 1] == [line[start]];
      tokens := tokens + [Token(Symbol, line[start..col + 1], row, col)];
    }

    method CommentHandler(line: string)
      requires col < |line| && line[col] == '/' && !multiLineComment
      modifies this`tokens, this`col, this`multiLineComment
      ensures Took(line, old(col), old(tokens), SlashPiece(line, row, old(col)), true)
    {
      if CharAt(line, col + 1) == '/' {
        col := |line|;
      } else if CharAt(line, col + 1) == '*' {
        var close := CommentEnd(line, col + 2);
        if close.None? {
          col := |line|;
          multiLineComment := true;
        } else {
          col := close.value - 1;
        }
      } else {
        SymbolHandler(line);
      }
    }

    method StrLitHandler(line: string) returns (ok: bool)
      requires col < |line| && !multiLineComment
      modifies this`tokens, this`col
      ensures Took(line, old(col), old(tokens), StringPiece(line, row, old(col)), ok)
    {
      var start, text := col, "";
      col := col + 1;
      PrefixedNone(StringBody(line, col));
      while true
        invariant tokens == old(tokens) && col <= |line| + 2
        invariant StringBody(line, start + 1) == Prefixed(text, StringBody(line, col))
        decreases |line| + 2 - col
      {
        if col > |line| {
          return false;
        }
        StringStep(text, line, col);
        if CharAt(line, col) == '\\' {
          var code := ControlCode(CharAt(line, col + 1));
          text := text + (if code.Some? then [code.value] else ['\\', CharAt(line, col + 1)]);
          col := col + 1;
        } else if CharAt(line, col) == '"' {
          break;
        } else {
          text := text + [CharAt(line, col)];
        }
        col := col + 1;
      }
      tokens := tokens + [Token(StringLit, text, row, start)];
      ok := true;
    }

    method CharLitHandler(line: string) returns (ok: bool)
      requires col < |line| && !multiLineComment
      modifies this`tokens, this`col
      ensures Took(line, old(col), old(tokens), CharPiece(line, row, old(col)), ok)
    {
      var start := col + 1;
      col := col + (if CharAt(line, col + 1) == '\\' then 3 else 2);
      if CharAt(line, col) != '\'' {
        return false;
      }
      tokens := tokens + [Token(CharLit, CharText(Slice(line, start, col)), row, start - 1)];
      ok := true;
    }

    /** The digits in front, a base letter, a dot. */
    method NumberStart(line: string) returns (isReal: bool)
      requires col < |line| && IsDigit(line[col])
      modifies this`col
      ensures (col, isReal) == NumberHead(line, old(col)) && old(col) < col <= |line| + 1
    {
      isReal := false;
      col := SkipDigits(line, col);
      if col < |line| {
        if Lower(line[col]) == 'b' || Lower(line[col]) == 'x' {
          col := col + 1;
        }
        if CharAt(line, col) == '.' {
          isReal := true;
          col := col + 1;
        }
      }
    }

    /** Up to a space or an operator, over a dot and the sign of an exponent. */
    method NumberRest(line: string, real0: bool) returns (isReal: bool)
      modifies this`col
      ensures (col, isReal) == NumberTail(line, old(col), real0)
    {
      hide Lower, IsSpace, IsOperator;
      isReal := real0;
      while col <= |line| && (CharAt(line, col) == '.' || (!IsSpace(CharAt(line, col)) && !IsOperator(CharAt(line, col))))
        invariant NumberTail(line, col, isReal) == NumberTail(line, old(col), real0)
        decreases |line| + 2 - col
      {
        if Lower(CharAt(line, col)) == 'e' && (CharAt(line, col + 1) == '-' || CharAt(line, col + 1) == '+') {
          col := col + 1;
          isReal := true;
        }
        col := col + 1;
      }
    }

    method NumLitHandler(line: string) returns (ok: bool)
      requires col < |line| && IsDigit(line[col]) && !multiLineComment
      modifies this`tokens, this`col
      ensures Took(line, old(col), old(tokens), NumberPiece(line, row, old(col), check), ok)
    {
      hide NumberHead, NumberTail, Slice;
      var start := col;
      var isReal := NumberStart(line);
      isReal := NumberRest(line, isReal);
      var text := check(Slice(line, start, col), isReal);
      if text.None? {
        return false;
      }
      tokens := tokens + [Token(if isReal then RealLit else IntLit, text.value, row, start)];
      col := col - 1;
      ok := true;
    }

    method WordHandler(line: string)
      requires col < |line| && !IsOperator(line[col]) && !multiLineComment
      modifies this`tokens, this`col
      ensures Took(line, old(col), old(tokens),
                   Piece([Token(Word, line[old(col)..WordEnd(line, old(col))], row, old(col))], WordEnd(line, old(col))), true)
    {
      var start, end := col, col;
      while end < |line| && !IsOperator(line[end])
        invariant start <= end <= |line| && WordEnd(line, end) == WordEnd(line, start) && (end > start || end == col)
        decreases |line| - end
      {
        end := end + 1;
      }
      tokens := tokens + [Token(Word, line[start..end], row, start)];
      col := end - 1;
    }

    /** The switch on one character. */
    method HandleChar(line: string) returns (ok: bool)
      requires col < |line| && !multiLineComment
      modifies this`tokens, this`col, this`multiLineComment
      ensures Took(line, old(col), old(tokens), Handle(line, row, old(col), check), ok)
    {
      ok := true;
      var c := line[col];
      if IsSkipped(c) {
      } else if c == '/' {
        CommentHandler(line);
      } else if c == '"' {
        ok := StrLitHandler(line);
      } else if c == '\'' {
        ok := CharLitHandler(line);
      } else if IsDigit(c) {
        ok := NumLitHandler(line);
      } else if IsSymbol(c) {
        SymbolHandler(line);
      } else {
        WordHandler(line);
      }
    }

    method AnalyzeLine(line: string) returns (ok: bool)
      requires !multiLineComment
      modifies this`tokens, this`col, this`multiLineComment
      ensures var o := Analyze(line, row, old(col), check);
              if ok then old(tokens) <= tokens && o == Fine(tokens[|old(tokens)|..], multiLineComment) else o == Failed
    {
      hide Handle;
      ghost var found: seq<Token> := [];
      while col < |line|
        invariant tokens == old(tokens) + found
        invariant multiLineComment ==> col >= |line|
        invariant Analyze(line, row, old(col), check)
               == if multiLineComment then Fine(found, true) else Before(found, Analyze(line, row, col, check))
        decreases |line| - col
      {
        ghost var from, p := col, Handle(line, row, col, check);
        HandleAdvances(line, row, col, check);
        ok := HandleChar(line);
        if !ok {
          return;
        }
        if p.Piece? {
          BeforeBefore(found, p.toks, Analyze(line, row, p.next, check));
          found := found + p.toks;
        }
        col := col + 1;
      }
      ok := true;
    }

    /** All lines of a source; None for a lexical error or a comment that is never closed. */
    method ParseToToken(lines: seq<string>) returns (r: Option<seq<Token>>)
      requires tokens == [] && row == 1 && !multiLineComment
      modifies this
      ensures r == Lex(lines, check)
    {
      hide LexLine;
      assert lines[0..] == lines;
      InFrontNone(Lex(lines, check));
      for i := 0 to |lines|
        invariant row == i + 1
        invariant Lex(lines, check) == InFront(tokens, LexFrom(lines[i..], row, multiLineComment, check))
      {
        assert lines[i..][1..] == lines[i + 1..] && lines[i..][0] == lines[i];
        ghost var before := tokens;
        var ok := OneLine(lines[i]);
        if !ok {
          return None;
        }
        assert tokens == before + tokens[|before|..];
        InFrontTwice(before, tokens[|before|..], LexFrom(lines[i + 1..], row + 1, multiLineComment, check));
        row := row + 1;
      }
      assert tokens + [] == tokens;
      r := if multiLineComment then None else Some(tokens);
    }

    method OneLine(line: string) returns (ok: bool)
      modifies this`tokens, this`col, this`multiLineComment
      ensures var o := LexLine(line, row, old(multiLineComment), check);
              if ok then old(tokens) <= tokens && o == Fine(tokens[|old(tokens)|..], multiLineComment) else o == Failed
    {
      ok := true;
      col := 0;
      if line == "" {
        return;
      }
      if multiLineComment {
        var close := CommentEnd(line, 0);
        if close.None? {
          return;
        }
        col := close.value;
        multiLineComment := false;
      }
      ok := AnalyzeLine(line);
    }
  }
}
