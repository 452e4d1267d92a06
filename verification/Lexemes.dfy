/** What is written is what is lexed: any sequence of lexemes with blanks
    between them gives back exactly these lexemes, each at its place. The
    characters, operators and escapes are written out here
    (hzcc/parser/common/keywords.h:20-22, hzcc/enums.h:140-141). */
module Lexemes {
  import opened Ast
  import opened LexerSpec

  // ----- the alphabet -----

  /** kSingleCharSymbol. */
  predicate Single(c: char) {
    || c == '+' || c == '-' || c == '*' || c == '/' || c == '%' || c == '&' || c == '|' || c == '!' || c == '='
    || c == '.' || c == ',' || c == '~' || c == '<' || c == '>' || c == '?' || c == ':' || c == ';'
    || c == '{' || c == '}' || c == '(' || c == ')' || c == '[' || c == ']'
  }

  /** The entries of kOperatorTable with two characters. */
  predicate InTable(c: char, d: char) {
    || (c == '=' && d == '=') || (c == '!' && d == '=') || (c == '>' && d == '=') || (c == '<' && d == '=')
    || (c == '+' && d == '+') || (c == '-' && d == '-') || (c == '|' && d == '|') || (c == '&' && d == '&')
    || (c == '<' && d == '<') || (c == '>' && d == '>') || (c == '+' && d == '=') || (c == '-' && d == '=')
    || (c == '*' && d == '=') || (c == '/' && d == '=') || (c == '-' && d == '>') || (c == '%' && d == '=')
    || (c == '&' && d == '=') || (c == '^' && d == '=') || (c == '|' && d == '=')
  }

  /** What stands between lexemes; at least one space is among it. */
  predicate Blank(c: char) {
    c == ' ' || c == '\t' || c == '\r' || c == '@' || c == '`'
  }

  predicate NameStart(c: char) {
    'a' <= c <= 'z' || 'A' <= c <= 'Z' || c == '_'
  }

  predicate NameChar(c: char) {
    NameStart(c) || '0' <= c <= '9'
  }

  /** The escapes, by their ASCII codes; -1 for other characters. */
  function EscapeCode(e: char): int {
    if e == '0' then 0 else if e == 'a' then 7 else if e == 'b' then 8 else if e == 't' then 9
    else if e == 'n' then 10 else if e == 'v' then 11 else if e == 'f' then 12 else if e == 'r' then 13
    else -1
  }

  lemma SymbolIsSingle(c: char)
    ensures IsSymbol(c) <==> Single(c)
  {
    var s := SYMBOLS;
    assert s == "+-*/%&|!=.,~<>?:;{}()[]";
    assert s[0] == '+' && s[1] == '-' && s[2] == '*' && s[3] == '/' && s[4] == '%' && s[5] == '&' && s[6] == '|';
    assert s[7] == '!' && s[8] == '=' && s[9] == '.' && s[10] == ',' && s[11] == '~' && s[12] == '<' && s[13] == '>';
    assert s[14] == '?' && s[15] == ':' && s[16] == ';' && s[17] == '{' && s[18] == '}' && s[19] == '(' && s[20] == ')';
    assert s[21] == '[' && s[22] == ']' && |s| == 23;
  }

  /** Two characters are one operator if and only if both are symbols and the pair is in the table. */
  lemma DoubleIsInTable(c: char, d: char)
    ensures IsDouble(c, d) <==> Single(c) && Single(d) && InTable(c, d)
  {
  }

  lemma EscapesAre(e: char)
    ensures ControlCode(e) == if EscapeCode(e) < 0 then None else Some(EscapeCode(e) as char)
  {
  }

  // ----- lexemes -----

  datatype Lexeme =
    | Operator(text: string)
    | Name(text: string)
    | Whole(text: string)
    | Decimal(whole: string, fraction: string)
    | Scientific(whole: string, fraction: string, e: char, sign: char, exponent: string)
    | Based(zero: string, letter: char, digits: string)
    | Quoted(text: string)
    | Character(c: char)
    | Escaped(code: char)

  predicate Digits(s: string) {
    s != "" && forall i :: 0 <= i < |s| ==> '0' <= s[i] <= '9'
  }

  predicate HexDigit(c: char) {
    '0' <= c <= '9' || 'a' <= c <= 'f' || 'A' <= c <= 'F'
  }

  predicate WellSpelt(l: Lexeme) {
    match l
    case Operator(s) =>
      || (|s| == 1 && Single(s[0]))
      || (|s| == 2 && Single(s[0]) && Single(s[1]) && InTable(s[0], s[1]))
    case Name(s) => s != "" && NameStart(s[0]) && forall i :: 0 <= i < |s| ==> NameChar(s[i])
    case Whole(s) => Digits(s)
    case Decimal(w, f) => Digits(w) && Digits(f)
    case Scientific(w, f, e, sign, x) =>
      && Digits(w) && (f == "" || Digits(f)) && Digits(x)
      && (e == 'e' || e == 'E') && (sign == '+' || sign == '-')
    case Based(z, letter, ds) =>
      && Digits(z) && (letter == 'x' || letter == 'X' || letter == 'b' || letter == 'B')
      && ds != "" && forall i :: 0 <= i < |ds| ==> HexDigit(ds[i])
    case Quoted(s) => forall i :: 0 <= i < |s| ==> s[i] != '"' && s[i] != '\\'
    case Character(c) => c != '\\' && c != '\''
    case Escaped(e) => EscapeCode(e) >= 0
  }

  function Spelling(l: Lexeme): (s: string)
    ensures WellSpelt(l) ==> s != ""
  {
    match l
    case Operator(s) => s
    case Name(s) => s
    case Whole(s) => s
    case Decimal(w, f) => w + "." + f
    case Scientific(w, f, e, sign, x) => w + (if f == "" then "" else "." + f) + [e, sign] + x
    case Based(z, letter, ds) => z + [letter] + ds
    case Quoted(s) => ['"'] + s + ['"']
    case Character(c) => ['\'', c, '\'']
    case Escaped(e) => ['\'', '\\', e, '\'']
  }

  /** The check for numbers accepts this one. */
  predicate Accepted(l: Lexeme, check: NumberCheck) {
    match l
    case Whole(s) => check(s, false).Some?
    case Decimal(w, f) => check(w + "." + f, true).Some?
    case Scientific(_, _, _, _, _) => check(Spelling(l), true).Some?
    case Based(_, _, _) => check(Spelling(l), false).Some?
    case _ => true
  }

  /** A two-character operator is placed at its second character. */
  function TokenOf(l: Lexeme, row: nat, col: nat, check: NumberCheck): Token
    requires WellSpelt(l) && Accepted(l, check)
  {
    match l
    case Operator(s) => Token(Symbol, s, row, col + |s| - 1)
    case Name(s) => Token(Word, s, row, col)
    case Whole(s) => Token(IntLit, check(s, false).value, row, col)
    case Decimal(w, f) => Token(RealLit, check(w + "." + f, true).value, row, col)
    case Scientific(_, _, _, _, _) => Token(RealLit, check(Spelling(l), true).value, row, col)
    case Based(_, _, _) => Token(IntLit, check(Spelling(l), false).value, row, col)
    case Quoted(s) => Token(StringLit, s, row, col)
    case Character(c) => Token(CharLit, [c], row, col)
    case Escaped(e) => Token(CharLit, [EscapeCode(e) as char], row, col)
  }

  // ----- one lexeme -----

  /** From `col` on the line reads `l`, and then it ends or a space follows. */
  ghost predicate Stands(line: string, col: nat, l: Lexeme) {
    var end := col + |Spelling(l)|;
    WellSpelt(l) && end <= |line| && line[col..end] == Spelling(l) && (end == |line| || line[end] == ' ')
  }

  lemma Reads(line: string, col: nat, l: Lexeme)
    requires Stands(line, col, l)
    ensures col + |Spelling(l)| <= |line| && forall k :: 0 <= k < |Spelling(l)| ==> line[col + k] == Spelling(l)[k]
  {
    hide Spelling, WellSpelt;
    forall k | 0 <= k < |Spelling(l)|
      ensures line[col + k] == Spelling(l)[k]
    {
      assert line[col..col + |Spelling(l)|][k] == line[col + k];
    }
  }

  /** The column behind a lexeme; a number at the end of a line is read one further. */
  function Behind(line: string, col: nat, l: Lexeme): nat {
    var end := col + |Spelling(l)|;
    if (l.Whole? || l.Decimal? || l.Scientific? || l.Based?) && end == |line| then end + 1 else end
  }

  /** `l` is lexed at `col`, and the lexer goes on behind it. */
  ghost predicate Lexed(line: string, row: nat, col: nat, l: Lexeme, check: NumberCheck)
    requires col < |line| && WellSpelt(l) && Accepted(l, check)
  {
    Handle(line, row, col, check) == Piece([TokenOf(l, row, col, check)], Behind(line, col, l))
  }

  lemma SymbolBegins(line: string, row: nat, col: nat, check: NumberCheck)
    requires col < |line| && Single(line[col])
    requires line[col] == '/' ==> CharAt(line, col + 1) != '/' && CharAt(line, col + 1) != '*'
    ensures Handle(line, row, col, check) == SymbolPiece(line, row, col)
  {
    hide Single, IsSymbol, IsSkipped, IsDigit, SymbolPiece, StringPiece, CharPiece, NumberPiece, WordEnd, CommentEnd;
    SingleIsPlain(line[col]);
  }

  lemma SingleIsPlain(c: char)
    requires Single(c)
    ensures IsSymbol(c) && !IsSkipped(c) && c != '"' && c != '\'' && !IsDigit(c)
  {
    SymbolIsSingle(c);
    hide IsSymbol, SYMBOLS;
  }

  lemma OperatorLexed(line: string, row: nat, col: nat, l: Lexeme, check: NumberCheck)
    requires l.Operator? && Stands(line, col, l) && col < |line|
    ensures Lexed(line, row, col, l, check)
  {
    hide IsSymbol, IsDouble, SYMBOLS, Handle;
    var s, c, d := l.text, line[col], CharAt(line, col + 1);
    Reads(line, col, l);
    assert c == s[0];
    DoubleIsInTable(c, d);
    if |s| == 2 {
      assert line[col + 1] == s[1] == d && IsDouble(c, d);
      assert line[col..col + 2] == s;
    } else {
      assert !Single(d);
      assert [line[col]] == s;
    }
    SymbolBegins(line, row, col, check);
  }

  lemma {:induction false} WordEndsAt(line: string, i: nat, end: nat)
    requires i <= end <= |line| && (end == |line| || line[end] == ' ')
    requires forall k :: i <= k < end ==> !IsOperator(line[k])
    ensures WordEnd(line, i) == end
    decreases end - i
  {
    if i < end {
      WordEndsAt(line, i + 1, end);
    }
  }

  lemma NameCharIsPlain(c: char)
    ensures NameChar(c) ==> !IsOperator(c)
    ensures NameStart(c) ==> !IsSkipped(c) && c != '/' && c != '"' && c != '\'' && !IsDigit(c)
  {
    SymbolIsSingle(c);
    hide IsSymbol, SYMBOLS;
  }

  lemma NameLexed(line: string, row: nat, col: nat, l: Lexeme, check: NumberCheck)
    requires l.Name? && Stands(line, col, l) && col < |line|
    ensures Lexed(line, row, col, l, check)
  {
    hide IsOperator, NameChar, NameStart, IsSymbol, IsDigit, IsSkipped;
    var s, end := l.text, col + |l.text|;
    Reads(line, col, l);
    forall k | col <= k < end
      ensures !IsOperator(line[k])
    {
      assert line[k] == s[k - col];
      NameCharIsPlain(line[k]);
    }
    assert line[col] == s[0];
    NameCharIsPlain(line[col]);
    NotSymbol(line[col]);
    WordEndsAt(line, col, end);
    assert line[col..end] == s;
  }

  lemma NotSymbol(c: char)
    ensures !IsOperator(c) ==> !IsSymbol(c)
  {
  }

  // ----- numbers -----

  lemma {:induction false} DigitsSkipped(line: string, i: nat, end: nat)
    requires i <= end <= |line| && (end == |line| || !IsDigit(line[end]))
    requires forall k :: i <= k < end ==> IsDigit(line[k])
    ensures SkipDigits(line, i) == end
    decreases end - i
  {
    if i < end {
      DigitsSkipped(line, i + 1, end);
    }
  }

  /** Digits, also of base 16, belong to a number; at the end of the line the source looks one further. */
  lemma {:induction false} TailOverDigits(line: string, i: nat, end: nat, isReal: bool)
    requires i <= end <= |line| && (end == |line| || line[end] == ' ')
    requires forall k :: i <= k < end ==> HexDigit(line[k])
    ensures NumberTail(line, i, isReal) == (if end == |line| then end + 1 else end, isReal)
    decreases end - i
  {
    SymbolIsSingle(CharAt(line, i));
    hide IsSymbol, SYMBOLS;
    if i < end {
      assert i + 1 < end ==> HexDigit(line[i + 1]);
      TailOverDigits(line, i + 1, end, isReal);
    } else if end == |line| {
      assert NumberTail(line, end + 1, isReal) == (end + 1, isReal);
    }
  }

  /** A signed exponent makes a number real, dot or no dot. */
  lemma {:induction false} TailOverExponent(line: string, i: nat, e: nat, end: nat, isReal: bool)
    requires i <= e && e + 2 <= end <= |line| && (end == |line| || line[end] == ' ')
    requires (line[e] == 'e' || line[e] == 'E') && (line[e + 1] == '+' || line[e + 1] == '-')
    requires forall k :: i <= k < e || e + 2 <= k < end ==> '0' <= line[k] <= '9'
    ensures NumberTail(line, i, isReal) == (if end == |line| then end + 1 else end, true)
    decreases e - i
  {
    SymbolIsSingle(line[i]);
    hide IsSymbol, SYMBOLS;
    if i < e {
      assert Lower(line[i]) != 'e';
      TailOverExponent(line, i + 1, e, end, isReal);
    } else {
      TailOverDigits(line, e + 2, end, true);
    }
  }

  lemma DigitBegins(line: string, row: nat, col: nat, check: NumberCheck)
    requires col < |line| && '0' <= line[col] <= '9'
    ensures Handle(line, row, col, check) == NumberPiece(line, row, col, check)
  {
  }

  lemma WholeLexed(line: string, row: nat, col: nat, l: Lexeme, check: NumberCheck)
    requires l.Whole? && Stands(line, col, l) && col < |line| && Accepted(l, check)
    ensures Lexed(line, row, col, l, check)
  {
    hide SkipDigits, NumberTail, Handle;
    var s, end := l.text, col + |l.text|;
    Reads(line, col, l);
    assert forall k :: col <= k < end ==> line[k] == s[k - col];
    DigitBegins(line, row, col, check);
    DigitsSkipped(line, col, end);
    TailOverDigits(line, end, end, false);
    assert NumberHead(line, col) == (end, false);
    assert line[col..end] == s && (end == |line| ==> line[col..] == s);
  }

  lemma DecimalReads(line: string, col: nat, l: Lexeme)
    requires l.Decimal? && Stands(line, col, l)
    ensures var dot, end := col + |l.whole|, col + |Spelling(l)|;
            && col < dot && dot + 1 < end <= |line| && line[dot] == '.' && line[col..end] == Spelling(l)
            && (forall k :: col <= k < dot ==> '0' <= line[k] <= '9')
            && (forall k :: dot < k < end ==> '0' <= line[k] <= '9')
  {
    var w, f, s := l.whole, l.fraction, Spelling(l);
    var dot, end := col + |w|, col + |s|;
    Reads(line, col, l);
    assert line[dot] == s[|w|] == '.';
    forall k | col <= k < dot
      ensures '0' <= line[k] <= '9'
    {
      assert line[col + (k - col)] == s[k - col] == w[k - col];
    }
    forall k | dot < k < end
      ensures '0' <= line[k] <= '9'
    {
      assert line[col + (k - col)] == s[k - col] == f[k - dot - 1];
    }
  }

  lemma DecimalLexed(line: string, row: nat, col: nat, l: Lexeme, check: NumberCheck)
    requires l.Decimal? && Stands(line, col, l) && col < |line| && Accepted(l, check)
    ensures Lexed(line, row, col, l, check)
  {
    hide SkipDigits, NumberTail, Handle, Digits;
    var dot, end := col + |l.whole|, col + |Spelling(l)|;
    DecimalReads(line, col, l);
    DigitBegins(line, row, col, check);
    DigitsSkipped(line, col, dot);
    TailOverDigits(line, dot + 1, end, true);
    assert NumberHead(line, col) == (dot + 1, true);
    assert end == |line| ==> line[col..] == line[col..end];
  }

  lemma ScientificReads(line: string, col: nat, l: Lexeme)
    requires l.Scientific? && Stands(line, col, l)
    ensures var dot, end := col + |l.whole|, col + |Spelling(l)|;
            var e := if l.fraction == "" then dot else dot + 1 + |l.fraction|;
            && col < dot && e + 2 < end <= |line| && line[col..end] == Spelling(l)
            && line[e] == l.e && line[e + 1] == l.sign && (l.fraction != "" ==> line[dot] == '.')
            && (forall k :: col <= k < dot || dot < k < e || e + 2 <= k < end ==> '0' <= line[k] <= '9')
  {
    var front := l.whole + (if l.fraction == "" then "" else "." + l.fraction);
    var s, dot, end := Spelling(l), col + |l.whole|, col + |Spelling(l)|;
    var e := col + |front|;
    Reads(line, col, l);
    assert s == front + [l.e, l.sign] + l.exponent;
    assert line[e] == s[|front|] && line[e + 1] == s[|front| + 1];
    forall k | col <= k < dot
      ensures '0' <= line[k] <= '9'
    {
      assert line[col + (k - col)] == s[k - col] == front[k - col] == l.whole[k - col];
    }
    if l.fraction != "" {
      assert line[dot] == s[|l.whole|] == front[|l.whole|];
      forall k | dot < k < e
        ensures '0' <= line[k] <= '9'
      {
        assert line[col + (k - col)] == s[k - col] == front[k - col] == l.fraction[k - dot - 1];
      }
    }
    forall k | e + 2 <= k < end
      ensures '0' <= line[k] <= '9'
    {
      assert line[col + (k - col)] == s[k - col] == l.exponent[k - e - 2];
    }
  }

  lemma ScientificLexed(line: string, row: nat, col: nat, l: Lexeme, check: NumberCheck)
    requires l.Scientific? && Stands(line, col, l) && col < |line| && Accepted(l, check)
    ensures Lexed(line, row, col, l, check)
  {
    hide SkipDigits, NumberTail, Handle, Digits, Spelling;
    ScientificReads(line, col, l);
    var dot, end := col + |l.whole|, col + |Spelling(l)|;
    var e := if l.fraction == "" then dot else dot + 1 + |l.fraction|;
    DigitBegins(line, row, col, check);
    DigitsSkipped(line, col, dot);
    if l.fraction == "" {
      TailOverExponent(line, dot, e, end, false);
      assert NumberHead(line, col) == (dot, false);
    } else {
      TailOverExponent(line, dot + 1, e, end, true);
      assert NumberHead(line, col) == (dot + 1, true);
    }
    assert end == |line| ==> line[col..] == line[col..end];
  }

  lemma BasedLexed(line: string, row: nat, col: nat, l: Lexeme, check: NumberCheck)
    requires l.Based? && Stands(line, col, l) && col < |line| && Accepted(l, check)
    ensures Lexed(line, row, col, l, check)
  {
    hide SkipDigits, NumberTail, Handle;
    var s, at, end := Spelling(l), col + |l.zero|, col + |Spelling(l)|;
    Reads(line, col, l);
    assert line[at] == s[|l.zero|] == l.letter;
    forall k | col <= k < at
      ensures '0' <= line[k] <= '9'
    {
      assert line[col + (k - col)] == s[k - col] == l.zero[k - col];
    }
    forall k | at < k < end
      ensures HexDigit(line[k])
    {
      assert line[col + (k - col)] == s[k - col] == l.digits[k - at - 1];
    }
    DigitBegins(line, row, col, check);
    DigitsSkipped(line, col, at);
    TailOverDigits(line, at + 1, end, false);
    assert NumberHead(line, col) == (at + 1, false);
    assert line[col..end] == s && (end == |line| ==> line[col..] == s);
  }

  // ----- quotes -----

  lemma {:induction false} BodyUpToQuote(line: string, i: nat, end: nat)
    requires i <= end < |line| && line[end] == '"'
    requires forall k :: i <= k < end ==> line[k] != '"' && line[k] != '\\'
    ensures StringBody(line, i) == Some((line[i..end], end))
    decreases end - i
  {
    if i == end {
      assert line[i..end] == "";
    } else {
      BodyUpToQuote(line, i + 1, end);
      assert [line[i]] + line[i + 1..end] == line[i..end];
    }
  }

  lemma QuoteBegins(line: string, row: nat, col: nat, check: NumberCheck)
    requires col < |line|
    ensures line[col] == '"' ==> Handle(line, row, col, check) == StringPiece(line, row, col)
    ensures line[col] == '\'' ==> Handle(line, row, col, check) == CharPiece(line, row, col)
  {
    hide IsSymbol, StringPiece, CharPiece;
  }

  lemma QuotedLexed(line: string, row: nat, col: nat, l: Lexeme, check: NumberCheck)
    requires l.Quoted? && Stands(line, col, l) && col < |line|
    ensures Lexed(line, row, col, l, check)
  {
    hide StringBody, Handle;
    var s, end := l.text, col + |l.text| + 1;
    Reads(line, col, l);
    assert forall k :: 0 <= k < |s| ==> Spelling(l)[k + 1] == s[k];
    assert line[col] == Spelling(l)[0] && line[end] == Spelling(l)[|s| + 1] == '"';
    forall k | col + 1 <= k < end
      ensures line[k] == s[k - col - 1]
    {
      assert line[k] == Spelling(l)[k - col];
    }
    assert line[col + 1..end] == s;
    BodyUpToQuote(line, col + 1, end);
    QuoteBegins(line, row, col, check);
  }

  lemma CharacterLexed(line: string, row: nat, col: nat, l: Lexeme, check: NumberCheck)
    requires l.Character? && Stands(line, col, l) && col < |line|
    ensures Lexed(line, row, col, l, check)
  {
    hide Handle, ControlCode;
    Reads(line, col, l);
    assert line[col] == Spelling(l)[0] && line[col + 1] == Spelling(l)[1] && line[col + 2] == Spelling(l)[2];
    assert line[col + 1..col + 2] == [l.c];
    QuoteBegins(line, row, col, check);
  }

  lemma EscapedLexed(line: string, row: nat, col: nat, l: Lexeme, check: NumberCheck)
    requires l.Escaped? && Stands(line, col, l) && col < |line|
    ensures Lexed(line, row, col, l, check)
  {
    hide Handle, ControlCode, EscapeCode;
    Reads(line, col, l);
    assert line[col] == Spelling(l)[0] && line[col + 1] == Spelling(l)[1];
    assert line[col + 2] == Spelling(l)[2] && line[col + 3] == Spelling(l)[3];
    assert line[col + 1..col + 3] == ['\\', l.code];
    EscapesAre(l.code);
    QuoteBegins(line, row, col, check);
  }

  lemma LexemeLexed(line: string, row: nat, col: nat, l: Lexeme, check: NumberCheck)
    requires Stands(line, col, l) && col < |line| && Accepted(l, check)
    ensures Lexed(line, row, col, l, check)
  {
    hide Lexed, Stands, Accepted, WellSpelt, Spelling;
    match l {
      case Operator(_) => OperatorLexed(line, row, col, l, check);
      case Name(_) => NameLexed(line, row, col, l, check);
      case Whole(_) => WholeLexed(line, row, col, l, check);
      case Decimal(_, _) => DecimalLexed(line, row, col, l, check);
      case Scientific(_, _, _, _, _) => ScientificLexed(line, row, col, l, check);
      case Based(_, _, _) => BasedLexed(line, row, col, l, check);
      case Quoted(_) => QuotedLexed(line, row, col, l, check);
      case Character(_) => CharacterLexed(line, row, col, l, check);
      case Escaped(_) => EscapedLexed(line, row, col, l, check);
    }
  }

  // ----- whole lines -----

  /** The lexemes with a space and more blanks behind each but the last. */
  function Line(ls: seq<Lexeme>, gaps: seq<string>): string
    requires |gaps| >= |ls|
  {
    if ls == [] then ""
    else if |ls| == 1 then Spelling(ls[0])
    else Spelling(ls[0]) + (" " + gaps[0] + Line(ls[1..], gaps[1..]))
  }

  ghost predicate Proper(ls: seq<Lexeme>, gaps: seq<string>, check: NumberCheck) {
    && |gaps| >= |ls|
    && (forall i :: 0 <= i < |ls| ==> WellSpelt(ls[i]) && Accepted(ls[i], check))
    && forall i, j :: 0 <= i < |gaps| && 0 <= j < |gaps[i]| ==> Blank(gaps[i][j])
  }

  /** Their tokens, where the first stands at `col`. */
  ghost function Tokens(ls: seq<Lexeme>, gaps: seq<string>, row: nat, col: nat, check: NumberCheck): seq<Token>
    requires Proper(ls, gaps, check)
  {
    if ls == [] then []
    else [TokenOf(ls[0], row, col, check)]
         + Tokens(ls[1..], gaps[1..], row, col + |Spelling(ls[0])| + 1 + |gaps[0]|, check)
  }

  lemma BlankSkipped(line: string, row: nat, col: nat, check: NumberCheck)
    requires col < |line| && Blank(line[col])
    ensures Analyze(line, row, col, check) == Analyze(line, row, col + 1, check)
  {
    BeforeBefore([], [], Analyze(line, row, col + 1, check));
    assert Handle(line, row, col, check) == Piece([], col + 1);
  }

  lemma {:induction false} BlanksSkipped(line: string, row: nat, col: nat, until: nat, check: NumberCheck)
    requires col <= until <= |line| && forall k :: col <= k < until ==> Blank(line[k])
    ensures Analyze(line, row, col, check) == Analyze(line, row, until, check)
    decreases until - col
  {
    hide Analyze, Blank;
    if col < until {
      BlankSkipped(line, row, col, check);
      BlanksSkipped(line, row, col + 1, until, check);
    }
  }

  lemma OneLexeme(line: string, row: nat, col: nat, l: Lexeme, check: NumberCheck)
    requires Stands(line, col, l) && col < |line| && Accepted(l, check)
    ensures Analyze(line, row, col, check)
         == Before([TokenOf(l, row, col, check)], Analyze(line, row, Behind(line, col, l), check))
  {
    LexemeLexed(line, row, col, l, check);
    hide Handle, TokenOf, Stands, Accepted, WellSpelt;
  }

  lemma ThreeParts(line: string, col: nat, a: string, gap: string, b: string)
    requires col <= |line| && line[col..] == a + (" " + gap + b)
    ensures var end, next := col + |a|, col + |a| + 1 + |gap|;
            && next <= |line| && line[col..end] == a && line[end] == ' ' && line[end + 1..next] == gap && line[next..] == b
  {
    var rest, end := " " + gap + b, col + |a|;
    assert line[col..][..|a|] == a && line[col..][|a|..] == rest;
    assert line[col..end] == line[col..][..|a|] && line[end..] == line[col..][|a|..];
    assert rest[0] == ' ' && rest[1..1 + |gap|] == gap && rest[1 + |gap|..] == b;
    assert line[end + 1..end + 1 + |gap|] == line[end..][1..1 + |gap|] && line[end + 1 + |gap|..] == line[end..][1 + |gap|..];
    assert line[end] == line[end..][0];
  }

  lemma GapIsBlank(line: string, end: nat, gap: string)
    requires end + 1 + |gap| <= |line| && line[end] == ' ' && line[end + 1..end + 1 + |gap|] == gap
    requires forall j :: 0 <= j < |gap| ==> Blank(gap[j])
    ensures forall k :: end <= k < end + 1 + |gap| ==> Blank(line[k])
  {
    forall k | end < k < end + 1 + |gap|
      ensures Blank(line[k])
    {
      assert line[end + 1..end + 1 + |gap|][k - end - 1] == line[k];
    }
  }

  lemma ProperParts(ls: seq<Lexeme>, gaps: seq<string>, check: NumberCheck)
    requires Proper(ls, gaps, check) && ls != []
    ensures |gaps| >= |ls|
    ensures WellSpelt(ls[0]) && Accepted(ls[0], check) && Proper(ls[1..], gaps[1..], check)
    ensures forall j :: 0 <= j < |gaps[0]| ==> Blank(gaps[0][j])
  {
    hide WellSpelt, Accepted, Blank;
  }

  lemma LineUnfolds(ls: seq<Lexeme>, gaps: seq<string>)
    requires |gaps| >= |ls| > 1
    ensures Line(ls, gaps) == Spelling(ls[0]) + (" " + gaps[0] + Line(ls[1..], gaps[1..]))
  {
    hide Spelling;
  }

  /** The parts of a line that has more than one lexeme. */
  lemma LineParts(line: string, col: nat, ls: seq<Lexeme>, gaps: seq<string>, check: NumberCheck)
    requires Proper(ls, gaps, check) && |ls| > 1 && col <= |line| && line[col..] == Line(ls, gaps)
    ensures var end := col + |Spelling(ls[0])|;
            var next := end + 1 + |gaps[0]|;
            && col < end && next <= |line| && Stands(line, col, ls[0]) && end != |line|
            && (forall k :: end <= k < next ==> Blank(line[k])) && line[next..] == Line(ls[1..], gaps[1..])
            && Proper(ls[1..], gaps[1..], check)
  {
    hide Spelling, WellSpelt, Accepted, Blank, Proper, Line;
    ProperParts(ls, gaps, check);
    LineUnfolds(ls, gaps);
    var s, more := Spelling(ls[0]), Line(ls[1..], gaps[1..]);
    ThreeParts(line, col, s, gaps[0], more);
    GapIsBlank(line, col + |s|, gaps[0]);
  }

  lemma {:induction false} LineLexes(line: string, row: nat, col: nat, ls: seq<Lexeme>, gaps: seq<string>, check: NumberCheck)
    requires Proper(ls, gaps, check) && col <= |line| && line[col..] == Line(ls, gaps)
    ensures Analyze(line, row, col, check) == Fine(Tokens(ls, gaps, row, col, check), false)
    decreases |ls|
  {
    hide Spelling, WellSpelt, Accepted, TokenOf, Handle, Blank;
    if ls == [] {
      assert |line[col..]| == 0;
    } else if |ls| == 1 {
      assert WellSpelt(ls[0]) && |line[col..]| == |Spelling(ls[0])| && line[col..|line|] == Spelling(ls[0]);
      OneLexeme(line, row, col, ls[0], check);
      assert Analyze(line, row, Behind(line, col, ls[0]), check) == Fine([], false);
      assert ls[1..] == [];
    } else {
      LineParts(line, col, ls, gaps, check);
      var end := col + |Spelling(ls[0])|;
      var next := end + 1 + |gaps[0]|;
      OneLexeme(line, row, col, ls[0], check);
      BlanksSkipped(line, row, end, next, check);
      LineLexes(line, row, next, ls[1..], gaps[1..], check);
    }
  }

  /** A line that begins with blanks, too. */
  lemma IndentedLineLexes(indent: string, row: nat, ls: seq<Lexeme>, gaps: seq<string>, check: NumberCheck)
    requires Proper(ls, gaps, check) && forall i :: 0 <= i < |indent| ==> Blank(indent[i])
    ensures LexLine(indent + Line(ls, gaps), row, false, check) == Fine(Tokens(ls, gaps, row, |indent|, check), false)
  {
    hide Analyze, Tokens, Line, Blank, WellSpelt, Accepted;
    var line := indent + Line(ls, gaps);
    BlanksSkipped(line, row, 0, |indent|, check);
    assert line[|indent|..] == Line(ls, gaps);
    LineLexes(line, row, |indent|, ls, gaps, check);
  }

  // ----- whole texts -----

  datatype Row = Row(indent: string, ls: seq<Lexeme>, gaps: seq<string>)

  ghost predicate ProperRow(r: Row, check: NumberCheck) {
    Proper(r.ls, r.gaps, check) && forall i :: 0 <= i < |r.indent| ==> Blank(r.indent[i])
  }

  ghost predicate ProperRows(rows: seq<Row>, check: NumberCheck) {
    forall i :: 0 <= i < |rows| ==> ProperRow(rows[i], check)
  }

  ghost function Text(rows: seq<Row>, check: NumberCheck): seq<string>
    requires ProperRows(rows, check)
  {
    if rows == [] then [] else [rows[0].indent + Line(rows[0].ls, rows[0].gaps)] + Text(rows[1..], check)
  }

  ghost function TextTokens(rows: seq<Row>, row: nat, check: NumberCheck): seq<Token>
    requires ProperRows(rows, check)
  {
    if rows == [] then []
    else Tokens(rows[0].ls, rows[0].gaps, row, |rows[0].indent|, check) + TextTokens(rows[1..], row + 1, check)
  }

  lemma {:induction false} RowsLex(rows: seq<Row>, row: nat, check: NumberCheck)
    requires ProperRows(rows, check)
    ensures LexFrom(Text(rows, check), row, false, check) == Some(TextTokens(rows, row, check))
    decreases |rows|
  {
    hide Proper, Tokens, Line, LexLine;
    if rows != [] {
      assert ProperRow(rows[0], check);
      IndentedLineLexes(rows[0].indent, row, rows[0].ls, rows[0].gaps, check);
      RowsLex(rows[1..], row + 1, check);
      assert Text(rows, check)[1..] == Text(rows[1..], check);
    }
  }

  /** Any lines of any lexemes, with any blanks before, between and behind
      spaces: lexing the text gives these lexemes in their order and places. */
  lemma WhatIsWrittenIsLexed(rows: seq<Row>, check: NumberCheck)
    requires ProperRows(rows, check)
    ensures Lex(Text(rows, check), check) == Some(TextTokens(rows, 1, check))
  {
    RowsLex(rows, 1, check);
  }

  // ----- symbols and words in any surroundings -----

  /** A symbol is taken with the next character if and only if that is a symbol too and the table has the pair. */
  lemma SymbolTaken(line: string, row: nat, col: nat)
    requires col < |line| && Single(line[col])
    ensures var two := col + 1 < |line| && Single(line[col + 1]) && InTable(line[col], line[col + 1]);
            SymbolPiece(line, row, col)
            == if two then Piece([Token(Symbol, [line[col], line[col + 1]], row, col + 1)], col + 2)
               else Piece([Token(Symbol, [line[col]], row, col)], col + 1)
  {
    DoubleIsInTable(line[col], CharAt(line, col + 1));
    hide IsDouble;
    if col + 1 < |line| {
      assert line[col..col + 2] == [line[col], line[col + 1]];
    } else {
      assert !Single(CharAt(line, col + 1));
    }
  }

  /** A word goes on up to the next space or symbol, over anything else: tabs, quotes, `#`. */
  lemma WordTaken(line: string, row: nat, col: nat, end: nat, check: NumberCheck)
    requires col < end <= |line| && NameStart(line[col])
    requires forall k :: col <= k < end ==> line[k] != ' ' && !Single(line[k])
    requires end < |line| ==> line[end] == ' ' || Single(line[end])
    ensures Handle(line, row, col, check) == Piece([Token(Word, line[col..end], row, col)], end)
  {
    hide IsSymbol, NameChar, NameStart, Single, IsDigit, IsSkipped;
    forall k | col <= k < |line|
      ensures IsOperator(line[k]) <==> line[k] == ' ' || Single(line[k])
    {
      SymbolIsSingle(line[k]);
    }
    NameStartIsChar(line[col]);
    NameCharIsPlain(line[col]);
    WordStops(line, col, end);
  }

  /** Digits, `e` and digits: without a sign the number is taken for an integer, where C has a floating constant. */
  lemma UnsignedExponent(line: string, row: nat, col: nat, w: string, e: char, x: string, check: NumberCheck)
    requires Digits(w) && Digits(x) && (e == 'e' || e == 'E')
    requires var s := w + [e] + x;
             col + |s| <= |line| && line[col..col + |s|] == s && (col + |s| == |line| || line[col + |s|] == ' ')
    ensures var s := w + [e] + x;
            Handle(line, row, col, check)
            == match check(s, false)
               case None => Bad
               case Some(text) =>
                 Piece([Token(IntLit, text, row, col)], if col + |s| == |line| then |line| + 1 else col + |s|)
  {
    hide SkipDigits, NumberTail, Handle;
    var s := w + [e] + x;
    var at, end := col + |w|, col + |s|;
    forall k | col <= k < end
      ensures HexDigit(line[k]) && (k < at ==> '0' <= line[k] <= '9') && (k == at ==> line[k] == e)
    {
      assert line[col..end][k - col] == s[k - col] == line[k];
      assert k < at ==> s[k - col] == w[k - col];
      assert k > at ==> s[k - col] == x[k - at - 1];
    }
    DigitBegins(line, row, col, check);
    DigitsSkipped(line, col, at);
    TailOverDigits(line, at, end, false);
    assert NumberHead(line, col) == (at, false);
    assert end == |line| ==> line[col..] == s;
  }

  lemma NameStartIsChar(c: char)
    ensures NameStart(c) ==> NameChar(c)
  {
  }

  lemma {:induction false} WordStops(line: string, i: nat, end: nat)
    requires i <= end <= |line| && (end < |line| ==> IsOperator(line[end]))
    requires forall k :: i <= k < end ==> !IsOperator(line[k])
    ensures WordEnd(line, i) == end
    decreases end - i
  {
    hide IsOperator;
    if i < end {
      WordStops(line, i + 1, end);
    }
  }

  /** A tab behind a name is read into it, where C separates tokens by any white space. */
  lemma TabJoinsWords(check: NumberCheck)
    ensures Lex(["int\tx"], check) == Some([Token(Word, "int\tx", 1, 0)])
  {
    var line: string := "int\tx";
    var none: seq<string> := [];
    var toks := [Token(Word, line, 1, 0)];
    assert line[0] == 'i' && line[1] == 'n' && line[2] == 't' && line[3] == '\t' && line[4] == 'x' && |line| == 5;
    WordTaken(line, 1, 0, 5, check);
    hide Handle;
    assert line[0..5] == line && [line][1..] == none && toks + [] == toks;
    assert Analyze(line, 1, 5, check) == Fine([], false);
    assert Analyze(line, 1, 0, check) == Before(toks, Fine([], false)) == Fine(toks, false);
    assert LexFrom(none, 2, false, check) == Some([]);
  }
}
