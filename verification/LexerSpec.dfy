/** The line-driven lexer (hzcc/parser/lexical/LexicalParser.cc) as functions of
    a line and a column: what the handler chosen at a column takes, and what a
    whole line gives. Reading past the end of a line gives the terminating
    null, as the source's std::string does. */
module LexerSpec {
  import opened Ast

  // ----- character classes (hzcc/parser/lexical/utils/symbol_utils.h, hzcc/parser/common/keywords.h:20-22) -----

  const SYMBOLS := "+-*/%&|!=.,~<>?:;{}()[]"

  predicate IsSymbol(c: char) {
    c in SYMBOLS
  }

  predicate IsOperator(c: char) {
    c == ' ' || IsSymbol(c)
  }

  predicate IsDigit(c: char) {
    '0' <= c <= '9'
  }

  predicate IsSpace(c: char) {
    c == ' ' || 9 as char <= c <= 13 as char
  }

  predicate IsControl(c: char) {
    c < ' ' || c == 127 as char
  }

  function CharAt(line: string, i: nat): char {
    if i < |line| then line[i] else 0 as char
  }

  /** ToASCIIControlCode, None for its "not found". */
  function ControlCode(c: char): Option<char> {
    match c
    case '0' => Some(0 as char)
    case 'a' => Some(7 as char)
    case 'b' => Some(8 as char)
    case 'f' => Some(12 as char)
    case 't' => Some(9 as char)
    case 'n' => Some(10 as char)
    case 'r' => Some(13 as char)
    case 'v' => Some(11 as char)
    case _ => None
  }

  /** ASCIIControlCodeToString. */
  function ControlName(c: char): string {
    if c == 0 as char then "\\0"
    else if c == 7 as char then "\\a"
    else if c == 8 as char then "\\b"
    else if c == 12 as char then "\\f"
    else if c == 10 as char then "\\n"
    else if c == 13 as char then "\\r"
    else if c == 9 as char then "\\t"
    else if c == 11 as char then "\\v"
    else ""
  }

  // ----- tokens -----

  /** Words become keywords, types, qualifiers or names by their text alone. */
  datatype Kind = Symbol | StringLit | CharLit | IntLit | RealLit | Word

  datatype Token = Token(kind: Kind, text: string, row: nat, col: nat)

  /** Checks a number's format and range; gives its text, perhaps truncated, or None when it is rejected. */
  type NumberCheck = (string, bool) -> Option<string>

  /** What one handler does: the tokens it adds and the next column to look at;
      or it leaves a comment open to the end of the line; or it fails. */
  datatype Piece = Piece(toks: seq<Token>, next: nat) | Open | Bad

  // ----- handlers -----

  function Slice(line: string, from: nat, to: nat): string {
    if from <= to <= |line| then line[from..to] else if from <= |line| then line[from..] else ""
  }

  /** SymbolUtils::GetSymbolType on two characters: is it a two-character operator? */
  predicate IsDouble(c: char, d: char) {
    || (d == '=' && c in "=!><+-*/%&|")
    || (d == c && c in "+-|&<>")
    || (c == '-' && d == '>')
  }

  function SymbolPiece(line: string, row: nat, col: nat): Piece
    requires col < |line|
  {
    if IsDouble(line[col], CharAt(line, col + 1)) then
      Piece([Token(Symbol, line[col..col + 2], row, col + 1)], col + 2)
    else Piece([Token(Symbol, [line[col]], row, col)], col + 1)
  }

  /** Where a comment body that starts at `from` is closed: behind its end, or None. */
  function CommentEnd(line: string, from: nat): (end: Option<nat>)
    ensures end.Some? ==> from + 2 <= end.value <= |line|
    decreases |line| - from
  {
    if from + 1 >= |line| then None
    else if line[from] == '*' && line[from + 1] == '/' then Some(from + 2)
    else CommentEnd(line, from + 1)
  }

  function SlashPiece(line: string, row: nat, col: nat): Piece
    requires col < |line| && line[col] == '/'
  {
    if CharAt(line, col + 1) == '/' then Piece([], |line| + 1)
    else if CharAt(line, col + 1) == '*' then
      (match CommentEnd(line, col + 2)
       case None => Open
       case Some(end) => Piece([], end))
    else SymbolPiece(line, row, col)
  }

  /** The text of a string literal from `i` on, and the column of its closing
      quote; None when the line ends first. */
  function StringBody(line: string, i: nat): (r: Option<(string, nat)>)
    ensures r.Some? ==> i <= r.value.1 < |line| && line[r.value.1] == '"'
    decreases |line| + 2 - i
  {
    if i > |line| then None
    else if CharAt(line, i) == '\\' then
      var head := match ControlCode(CharAt(line, i + 1))
                  case Some(c) => [c]
                  case None => ['\\', CharAt(line, i + 1)];
      (match StringBody(line, i + 2)
       case None => None
       case Some((text, end)) => Some((head + text, end)))
    else if CharAt(line, i) == '"' then Some(("", i))
    else
      match StringBody(line, i + 1)
      case None => None
      case Some((text, end)) => Some(([CharAt(line, i)] + text, end))
  }

  function StringPiece(line: string, row: nat, col: nat): Piece {
    match StringBody(line, col + 1)
    case None => Bad
    case Some((text, end)) => Piece([Token(StringLit, text, row, col)], end + 1)
  }

  /** A one-character or backslash text with its escape resolved. */
  function CharText(text: string): string {
    if |text| == 2 && text[0] == '\\' && ControlCode(text[1]).Some? then [ControlCode(text[1]).value] else text
  }

  function CharPiece(line: string, row: nat, col: nat): Piece {
    var end := col + (if CharAt(line, col + 1) == '\\' then 3 else 2);
    if CharAt(line, end) != '\'' then Bad
    else Piece([Token(CharLit, CharText(Slice(line, col + 1, end)), row, col)], end + 1)
  }

  function SkipDigits(line: string, i: nat): (j: nat)
    ensures i <= j && (i <= |line| ==> j <= |line|) && (i < |line| && IsDigit(line[i]) ==> i < j)
    ensures forall k: nat :: i <= k < j ==> IsDigit(CharAt(line, k))
    decreases |line| - i
  {
    if i < |line| && IsDigit(line[i]) then SkipDigits(line, i + 1) else i
  }

  function Lower(c: char): char {
    if 'A' <= c <= 'Z' then (c as int + 32) as char else c
  }

  /** The rest of a number: up to a space or an operator other than a dot, and over the sign of an exponent. */
  function NumberTail(line: string, i: nat, isReal: bool): (r: (nat, bool))
    ensures r.0 >= i
    decreases |line| + 2 - i
  {
    var c := CharAt(line, i);
    if i > |line| || (c != '.' && (IsSpace(c) || IsOperator(c))) then (i, isReal)
    else if Lower(c) == 'e' && (CharAt(line, i + 1) == '-' || CharAt(line, i + 1) == '+') then NumberTail(line, i + 2, true)
    else NumberTail(line, i + 1, isReal)
  }

  /** Behind the leading digits: a base letter, a dot. */
  function NumberHead(line: string, start: nat): (nat, bool) {
    var i := SkipDigits(line, start);
    if i >= |line| then (|line|, false) else
    var i1 := if Lower(line[i]) == 'b' || Lower(line[i]) == 'x' then i + 1 else i;
    if CharAt(line, i1) == '.' then (i1 + 1, true) else (i1, false)
  }

  function NumberEnd(line: string, start: nat): (nat, bool) {
    var (i, isReal) := NumberHead(line, start);
    NumberTail(line, i, isReal)
  }

  function NumberPiece(line: string, row: nat, col: nat, check: NumberCheck): Piece {
    var (end, isReal) := NumberEnd(line, col);
    match check(Slice(line, col, end), isReal)
    case None => Bad
    case Some(text) => Piece([Token(if isReal then RealLit else IntLit, text, row, col)], end)
  }

  function WordEnd(line: string, i: nat): (j: nat)
    ensures j >= i && (i <= |line| ==> j <= |line|)
    ensures forall k: nat :: i <= k < j ==> !IsOperator(CharAt(line, k))
    ensures j < |line| ==> IsOperator(line[j])
    decreases |line| - i
  {
    if i < |line| && !IsOperator(line[i]) then WordEnd(line, i + 1) else i
  }

  predicate IsSkipped(c: char) {
    c == ' ' || c == '\t' || c == '\r' || c == '@' || c == '`'
  }

  /** The switch of AnalyzeLine. */
  function Handle(line: string, row: nat, col: nat, check: NumberCheck): Piece
    requires col < |line|
  {
    var c := line[col];
    if IsSkipped(c) then Piece([], col + 1)
    else if c == '/' then SlashPiece(line, row, col)
    else if c == '"' then StringPiece(line, row, col)
    else if c == '\'' then CharPiece(line, row, col)
    else if IsDigit(c) then NumberPiece(line, row, col, check)
    else if IsSymbol(c) then SymbolPiece(line, row, col)
    else Piece([Token(Word, line[col..WordEnd(line, col)], row, col)], WordEnd(line, col))
  }

  /** Every handler moves on. */
  lemma HandleAdvances(line: string, row: nat, col: nat, check: NumberCheck)
    requires col < |line|
    ensures var p := Handle(line, row, col, check); p.Piece? ==> p.next > col
  {
    if IsDigit(line[col]) {
      var (i, isReal) := NumberHead(line, col);
      assert SkipDigits(line, col) > col && i > col;
    } else if !IsSkipped(line[col]) && line[col] != '/' && line[col] != '"' && line[col] != '\'' && !IsSymbol(line[col]) {
      assert !IsOperator(line[col]);
    }
  }

  /** What is found on a line from a column on: its tokens, and whether a comment stays open. */
  datatype Outcome = Fine(toks: seq<Token>, open: bool) | Failed

  function Before(toks: seq<Token>, o: Outcome): Outcome {
    match o
    case Fine(more, open) => Fine(toks + more, open)
    case Failed => Failed
  }

  lemma BeforeBefore(a: seq<Token>, b: seq<Token>, o: Outcome)
    ensures Before(a, Before(b, o)) == Before(a + b, o) && Before([], o) == o
  {
    if o.Fine? {
      assert a + (b + o.toks) == (a + b) + o.toks;
    }
  }

  function Analyze(line: string, row: nat, col: nat, check: NumberCheck): Outcome
    decreases |line| - col
  {
    if col >= |line| then Fine([], false) else
    match Handle(line, row, col, check)
    case Bad => Failed
    case Open => Fine([], true)
    case Piece(toks, next) =>
      HandleAdvances(line, row, col, check);
      Before(toks, Analyze(line, row, next, check))
  }

  /** One line, when a comment may be open from the line before. */
  function LexLine(line: string, row: nat, open: bool, check: NumberCheck): Outcome {
    if !open then Analyze(line, row, 0, check) else
    match CommentEnd(line, 0)
    case None => Fine([], true)
    case Some(end) => Analyze(line, row, end, check)
  }

  /** ParseToToken: rows count from one; a comment must be closed at the end. */
  function LexFrom(lines: seq<string>, row: nat, open: bool, check: NumberCheck): Option<seq<Token>>
    decreases lines
  {
    if lines == [] then (if open then None else Some([])) else
    match LexLine(lines[0], row, open, check)
    case Failed => None
    case Fine(toks, open1) =>
      match LexFrom(lines[1..], row + 1, open1, check)
      case None => None
      case Some(more) => Some(toks + more)
  }

  function Lex(lines: seq<string>, check: NumberCheck): Option<seq<Token>> {
    LexFrom(lines, 1, false, check)
  }
}
