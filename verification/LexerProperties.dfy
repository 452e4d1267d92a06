/** What the lexer promises: positions that only grow, comments that count as
    spaces however many lines they cross (section 6.4.9 of ISO/IEC 9899:2011),
    and string literals that print as they were written. */
module LexerProperties {
  import opened Ast
  import opened LexerSpec

  // ----- positions -----

  predicate Earlier(a: Token, b: Token) {
    a.row < b.row || (a.row == b.row && a.col < b.col)
  }

  ghost predicate InOrder(toks: seq<Token>) {
    forall i, j :: 0 <= i < j < |toks| ==> Earlier(toks[i], toks[j])
  }

  ghost predicate OnRow(toks: seq<Token>, row: nat, from: nat, to: nat) {
    forall i :: 0 <= i < |toks| ==> toks[i].row == row && from <= toks[i].col < to
  }

  lemma HandlePlaces(line: string, row: nat, col: nat, check: NumberCheck)
    requires col < |line|
    ensures var p := Handle(line, row, col, check);
            p.Piece? ==>
              && |p.toks| <= 1 && p.next > col
              && OnRow(p.toks, row, col, |line|) && OnRow(p.toks, row, col, p.next)
  {
    HandleAdvances(line, row, col, check);
  }

  lemma {:induction false} AnalyzeInOrder(line: string, row: nat, col: nat, check: NumberCheck)
    ensures var o := Analyze(line, row, col, check);
            o.Fine? ==> InOrder(o.toks) && OnRow(o.toks, row, col, |line|)
    decreases |line| - col
  {
    if col < |line| {
      HandlePlaces(line, row, col, check);
      match Handle(line, row, col, check) {
        case Piece(toks, next) => AnalyzeInOrder(line, row, next, check);
        case _ =>
      }
    }
  }

  /** The tokens of rows `row` on, each inside its line. */
  ghost predicate InLines(toks: seq<Token>, lines: seq<string>, row: nat) {
    forall i :: 0 <= i < |toks| ==>
      row <= toks[i].row < row + |lines| && toks[i].col < |lines[toks[i].row - row]|
  }

  lemma RowsJoin(a: seq<Token>, b: seq<Token>, lines: seq<string>, row: nat)
    requires lines != [] && InOrder(a) && OnRow(a, row, 0, |lines[0]|)
    requires InOrder(b) && InLines(b, lines[1..], row + 1)
    ensures InOrder(a + b) && InLines(a + b, lines, row)
  {
    assert forall i :: 0 <= i < |b| ==> b[i].row > row && lines[1..][b[i].row - (row + 1)] == lines[b[i].row - row];
  }

  /** The tokens of a text have strictly growing positions inside their lines;
      in particular no two share a position. */
  lemma {:induction false} LexInOrder(lines: seq<string>, row: nat, open: bool, check: NumberCheck)
    ensures var r := LexFrom(lines, row, open, check);
            r.Some? ==> InOrder(r.value) && InLines(r.value, lines, row)
    decreases lines
  {
    if lines != [] {
      var line := lines[0];
      AnalyzeInOrder(line, row, if open && CommentEnd(line, 0).Some? then CommentEnd(line, 0).value else 0, check);
      hide InOrder, InLines, Analyze;
      match LexLine(line, row, open, check) {
        case Failed =>
        case Fine(toks, open1) =>
          LexInOrder(lines[1..], row + 1, open1, check);
          var more := LexFrom(lines[1..], row + 1, open1, check);
          if more.Some? {
            NoTokens();
            RowsJoin(toks, more.value, lines, row);
          }
      }
    } else {
      assert InOrder([]) && InLines([], lines, row);
    }
  }

  lemma NoTokens()
    ensures InOrder([])
  {
  }

  // ----- comments -----

  /** A scanner that reads one character at a time, seeing the next one: in
      code, entering, inside or leaving a block comment, in a line comment, in a
      string, behind a backslash in it, or with characters of a constant left. */
  datatype Mode = Code | Opening | Block | Closing | LineComment | Text | Escaped | Const(left: nat)

  function Shift(m: Mode, c: char, d: char): Mode {
    match m
    case Code =>
      if c == '/' && d == '*' then Opening
      else if c == '/' && d == '/' then LineComment
      else if c == '"' then Text
      else if c == '\'' then Const(if d == '\\' then 3 else 2)
      else Code
    case Opening => Block
    case Block => if c == '*' && d == '/' then Closing else Block
    case Closing => Code
    case LineComment => LineComment
    case Text => if c == '\\' then Escaped else if c == '"' then Code else Text
    case Escaped => Text
    case Const(left) => if left <= 1 then Code else Const(left - 1)
  }

  predicate InComment(m: Mode) {
    m.Opening? || m.Block? || m.Closing? || m.LineComment?
  }

  /** Characters of a comment become spaces. */
  function Shown(m: Mode, c: char, d: char): char {
    if InComment(m) || (m == Code && InComment(Shift(m, c, d))) then ' ' else c
  }

  /** The mode in front of the `i`-th character. */
  function ModeAt(line: string, m: Mode, i: nat): Mode
    requires i <= |line|
  {
    if i == 0 then m else Shift(ModeAt(line, m, i - 1), line[i - 1], CharAt(line, i))
  }

  function Blanked(line: string, m: Mode): string {
    seq(|line|, i requires 0 <= i < |line| => Shown(ModeAt(line, m, i), line[i], CharAt(line, i + 1)))
  }

  /** Only block comments go on in the next line. */
  function Carry(line: string, m: Mode): Mode {
    var last := ModeAt(line, m, |line|);
    if last.Opening? || last.Block? then Block else Code
  }

  function BlankedText(lines: seq<string>, m: Mode): seq<string> {
    if lines == [] then [] else [Blanked(lines[0], m)] + BlankedText(lines[1..], Carry(lines[0], m))
  }

  function FinalMode(lines: seq<string>, m: Mode): Mode {
    if lines == [] then m else FinalMode(lines[1..], Carry(lines[0], m))
  }

  /** The mode the blanked line is in: nothing of it is a comment. */
  function Plain(m: Mode): Mode {
    if InComment(m) then Code else m
  }

  /** One character of the blanked line, seen with the next one of the blanked line. */
  lemma ShiftShown(m: Mode, c: char, d: char, e: char)
    ensures Shift(Plain(m), Shown(m, c, d), Shown(Shift(m, c, d), d, e)) == Plain(Shift(m, c, d))
    ensures d == 0 as char ==> Shift(Plain(m), Shown(m, c, d), d) == Plain(Shift(m, c, d))
  {
  }

  lemma ModeStep(line: string, m: Mode, i: nat)
    requires i < |line|
    ensures ModeAt(line, m, i + 1) == Shift(ModeAt(line, m, i), line[i], CharAt(line, i + 1))
  {
    hide Shift;
  }

  lemma BlankedChar(line: string, m: Mode, i: nat)
    ensures |Blanked(line, m)| == |line|
    ensures CharAt(Blanked(line, m), i)
         == if i < |line| then Shown(ModeAt(line, m, i), line[i], CharAt(line, i + 1)) else 0 as char
  {
    hide Shift, Shown, ModeAt;
  }

  lemma {:induction false} BlankedModes(line: string, m: Mode, i: nat)
    requires i <= |line|
    ensures |Blanked(line, m)| == |line| && ModeAt(Blanked(line, m), Plain(m), i) == Plain(ModeAt(line, m, i))
  {
    hide Shift, Shown, Plain, Blanked;
    BlankedChar(line, m, i);
    if i > 0 {
      BlankedModes(line, m, i - 1);
      BlankedChar(line, m, i - 1);
      ShiftShown(ModeAt(line, m, i - 1), line[i - 1], CharAt(line, i), CharAt(line, i + 1));
    }
  }

  /** Blanking removes every comment and makes none: a second scan changes nothing. */
  lemma BlankedTwice(line: string, m: Mode)
    ensures Blanked(Blanked(line, m), Plain(m)) == Blanked(line, m)
    ensures Carry(Blanked(line, m), Plain(m)) == Code
  {
    hide Shift, Shown, Blanked, ModeAt;
    var b := Blanked(line, m);
    BlankedModes(line, m, |line|);
    BlankedChar(line, m, 0);
    BlankedChar(b, Plain(m), 0);
    forall i: nat | i < |line|
      ensures Blanked(b, Plain(m))[i] == b[i]
    {
      hide Plain;
      BlankedModes(line, m, i);
      BlankedChar(line, m, i);
      BlankedChar(line, m, i + 1);
      BlankedChar(b, Plain(m), i);
      ModeStep(line, m, i);
      ShownTwice(ModeAt(line, m, i), line[i], CharAt(line, i + 1), CharAt(line, i + 2));
    }
  }

  lemma ShownTwice(m: Mode, c: char, d: char, e: char)
    ensures Shown(Plain(m), Shown(m, c, d), Shown(Shift(m, c, d), d, e)) == Shown(m, c, d)
    ensures d == 0 as char ==> Shown(Plain(m), Shown(m, c, d), d) == Shown(m, c, d)
  {
  }

  // ----- lexing the blanked line finds the same tokens -----

  predicate IsQuote(c: char) {
    c == '"' || c == '\''
  }

  /** The end of the number or word that starts at `col`, if one does. */
  function PlainEnd(line: string, col: nat): nat
    requires col < |line|
  {
    var c := line[col];
    if IsSkipped(c) || c == '/' || IsQuote(c) then col
    else if IsDigit(c) then NumberEnd(line, col).0
    else if IsSymbol(c) then col
    else WordEnd(line, col)
  }

  /** From `col` on, no number and no word runs into a quote: every quote
      outside literals and comments starts a token. */
  predicate QuotesStartTokens(line: string, row: nat, col: nat, check: NumberCheck)
    decreases |line| - col
  {
    col >= |line| ||
    (&& (forall k: nat :: col <= k < PlainEnd(line, col) ==> !IsQuote(CharAt(line, k)))
     && match Handle(line, row, col, check)
        case Piece(_, next) =>
          HandleAdvances(line, row, col, check);
          QuotesStartTokens(line, row, next, check)
        case _ => true)
  }

  /** In code the blanked line shows the character, or a space for a slash. */
  ghost predicate Like(line: string, b: string, k: nat) {
    CharAt(b, k) == CharAt(line, k) || (CharAt(line, k) == '/' && CharAt(b, k) == ' ')
  }

  ghost predicate LikeOn(line: string, b: string, from: nat, to: nat) {
    |b| == |line| && forall k: nat :: from <= k <= to ==> Like(line, b, k)
  }

  lemma CodeIsLike(line: string, m: Mode, k: nat)
    requires k >= |line| || ModeAt(line, m, k) == Code
    ensures |Blanked(line, m)| == |line| && Like(line, Blanked(line, m), k)
    ensures k < |line| && line[k] != '/' ==> CharAt(Blanked(line, m), k) == line[k]
  {
    hide Blanked, ModeAt;
    BlankedChar(line, m, k);
  }

  /** Code without slashes and quotes stays code. */
  lemma {:induction false} CodeGoesOn(line: string, m: Mode, from: nat, to: nat)
    requires from <= to <= |line| && ModeAt(line, m, from) == Code
    requires forall k: nat :: from <= k < to ==> line[k] != '/' && !IsQuote(line[k])
    ensures ModeAt(line, m, to) == Code
    decreases |line| - from
  {
    hide ModeAt;
    if from < to {
      ModeStep(line, m, from);
      CodeGoesOn(line, m, from + 1, to);
    }
  }

  lemma LikeFrom(line: string, m: Mode, from: nat, to: nat)
    requires from < |line| && from <= to && ModeAt(line, m, from) == Code
    requires forall k: nat :: from <= k < to && k < |line| ==> line[k] != '/' && !IsQuote(line[k])
    ensures LikeOn(line, Blanked(line, m), from, to)
    ensures to <= |line| ==> ModeAt(line, m, to) == Code
    ensures to > |line| ==> ModeAt(line, m, |line|) == Code
    ensures forall k: nat :: from <= k < to && k < |line| ==> CharAt(Blanked(line, m), k) == line[k]
  {
    hide ModeAt, Blanked;
    BlankedChar(line, m, from);
    forall k: nat | from <= k <= to
      ensures Like(line, Blanked(line, m), k)
    {
      if k < |line| {
        CodeGoesOn(line, m, from, k);
      }
      CodeIsLike(line, m, k);
    }
    forall k: nat | from <= k < to && k < |line|
      ensures CharAt(Blanked(line, m), k) == line[k]
    {
      CodeGoesOn(line, m, from, k);
      CodeIsLike(line, m, k);
    }
    CodeGoesOn(line, m, from, if to <= |line| then to else |line|);
  }

  // Words and numbers end at the same place.

  lemma {:induction false} WordEndLike(line: string, b: string, i: nat)
    requires LikeOn(line, b, i, WordEnd(line, i))
    ensures WordEnd(b, i) == WordEnd(line, i)
    decreases |line| - i
  {
    assert Like(line, b, i);
    if i < |line| && !IsOperator(line[i]) {
      WordEndLike(line, b, i + 1);
    }
  }

  lemma {:induction false} SkipDigitsLike(line: string, b: string, i: nat)
    requires LikeOn(line, b, i, SkipDigits(line, i))
    ensures SkipDigits(b, i) == SkipDigits(line, i)
    decreases |line| - i
  {
    assert Like(line, b, i);
    if i < |line| && IsDigit(line[i]) {
      SkipDigitsLike(line, b, i + 1);
    }
  }

  lemma {:induction false} NumberTailLike(line: string, b: string, i: nat, isReal: bool)
    requires LikeOn(line, b, i, NumberTail(line, i, isReal).0)
    ensures NumberTail(b, i, isReal) == NumberTail(line, i, isReal)
    decreases |line| + 2 - i
  {
    assert Like(line, b, i);
    var c := CharAt(line, i);
    if i > |line| || (c != '.' && (IsSpace(c) || IsOperator(c))) {
    } else {
      assert Like(line, b, i + 1);
      if Lower(c) == 'e' && (CharAt(line, i + 1) == '-' || CharAt(line, i + 1) == '+') {
        NumberTailLike(line, b, i + 2, true);
      } else {
        NumberTailLike(line, b, i + 1, isReal);
      }
    }
  }

  lemma NumberHeadLike(line: string, b: string, start: nat)
    requires |b| == |line| && SkipDigits(b, start) == SkipDigits(line, start)
    requires Like(line, b, SkipDigits(line, start))
    requires NumberHead(line, start).0 > SkipDigits(line, start) ==> Like(line, b, SkipDigits(line, start) + 1)
    ensures NumberHead(b, start) == NumberHead(line, start)
  {
    assert Lower(' ') == ' ' && Lower('/') == '/';
    hide Lower, SkipDigits;
  }

  lemma NumberEndLike(line: string, b: string, start: nat)
    requires start <= |line| && LikeOn(line, b, start, NumberEnd(line, start).0)
    ensures NumberEnd(b, start) == NumberEnd(line, start)
  {
    hide NumberHead, NumberTail, SkipDigits, Like;
    NumberHeadBounds(line, start);
    SkipDigitsLike(line, b, start);
    NumberHeadLike(line, b, start);
    var (i, isReal) := NumberHead(line, start);
    NumberTailLike(line, b, i, isReal);
  }

  lemma NumberHeadBounds(line: string, start: nat)
    requires start <= |line|
    ensures start <= SkipDigits(line, start) <= NumberHead(line, start).0 <= NumberEnd(line, start).0
  {
  }

  /** A number takes no slash. */
  lemma {:induction false} NumberTailNoSlash(line: string, i: nat, isReal: bool)
    ensures forall k: nat :: i <= k < NumberTail(line, i, isReal).0 ==> CharAt(line, k) != '/'
    decreases |line| + 2 - i
  {
    var c := CharAt(line, i);
    if i > |line| || (c != '.' && (IsSpace(c) || IsOperator(c))) {
    } else if Lower(c) == 'e' && (CharAt(line, i + 1) == '-' || CharAt(line, i + 1) == '+') {
      NumberTailNoSlash(line, i + 2, true);
    } else {
      NumberTailNoSlash(line, i + 1, isReal);
    }
  }

  lemma NumberNoSlash(line: string, start: nat)
    ensures forall k: nat :: start <= k < NumberEnd(line, start).0 ==> CharAt(line, k) != '/'
  {
    var (i, isReal) := NumberHead(line, start);
    NumberTailNoSlash(line, i, isReal);
  }

  // Literals.

  /** In a string both lines are equal up to its end. */
  lemma {:induction false} StringBodyLike(line: string, m: Mode, i: nat)
    requires i <= |line| ==> ModeAt(line, m, i) == Text
    ensures StringBody(Blanked(line, m), i) == StringBody(line, i)
    ensures var r := StringBody(line, i); r.Some? ==> ModeAt(line, m, r.value.1 + 1) == Code
    decreases |line| + 2 - i
  {
    hide Blanked, ModeAt, ControlCode;
    var b := Blanked(line, m);
    BlankedChar(line, m, i);
    if i < |line| {
      ModeStep(line, m, i);
      BlankedChar(line, m, i + 1);
      if line[i] == '\\' {
        if i + 1 < |line| {
          ModeStep(line, m, i + 1);
        }
        StringBodyLike(line, m, i + 2);
      } else if line[i] != '"' {
        StringBodyLike(line, m, i + 1);
      }
    } else {
      NoStringBody(line, i);
      NoStringBody(b, i);
    }
  }

  lemma NoStringBody(line: string, i: nat)
    requires i >= |line|
    ensures StringBody(line, i).None?
  {
    if i == |line| {
      assert StringBody(line, i + 1).None?;
    }
  }

  /** The characters of a constant are copied, whatever they are. */
  lemma {:induction false} ConstLike(line: string, m: Mode, i: nat, left: nat)
    requires left >= 1 && i <= |line| && ModeAt(line, m, i) == Const(left)
    ensures forall k: nat :: i <= k < i + left ==> CharAt(Blanked(line, m), k) == CharAt(line, k)
    ensures i + left <= |line| ==> ModeAt(line, m, i + left) == Code
    decreases left
  {
    hide Blanked, ModeAt;
    BlankedChar(line, m, i);
    if i < |line| {
      ModeStep(line, m, i);
      if left > 1 {
        ConstLike(line, m, i + 1, left - 1);
      }
    } else {
      forall k: nat | i <= k < i + left
        ensures CharAt(Blanked(line, m), k) == CharAt(line, k)
      {
        BlankedChar(line, m, k);
      }
    }
  }

  // Comments.

  /** A run of spaces adds nothing. */
  lemma {:induction false} SpacesSkipped(b: string, row: nat, from: nat, until: nat, check: NumberCheck)
    requires from <= until <= |b| && forall k :: from <= k < until ==> b[k] == ' '
    ensures Analyze(b, row, from, check) == Analyze(b, row, until, check)
    decreases until
  {
    if from < until {
      SpacesSkipped(b, row, from, until - 1, check);
      assert Handle(b, row, until - 1, check) == Piece([], until);
      assert Analyze(b, row, until - 1, check) == Before([], Analyze(b, row, until, check));
    }
  }

  /** A block comment is blank up to its end, or up to the end of the line. */
  lemma {:induction false} BlockBlank(line: string, m: Mode, i: nat)
    requires i <= |line| && ModeAt(line, m, i) == Block
    ensures |Blanked(line, m)| == |line|
    ensures match CommentEnd(line, i)
            case Some(end) =>
              ModeAt(line, m, end) == Code && forall k :: i <= k < end ==> Blanked(line, m)[k] == ' '
            case None =>
              ModeAt(line, m, |line|) == Block && forall k :: i <= k < |line| ==> Blanked(line, m)[k] == ' '
    decreases |line| - i
  {
    hide Blanked, ModeAt;
    BlankedChar(line, m, i);
    if i < |line| {
      ModeStep(line, m, i);
      if i + 1 < |line| && line[i] == '*' && line[i + 1] == '/' {
        BlankedChar(line, m, i + 1);
        ModeStep(line, m, i + 1);
      } else {
        BlockBlank(line, m, i + 1);
        assert i + 1 >= |line| ==> CommentEnd(line, i + 1).None?;
      }
    }
  }

  lemma {:induction false} LineCommentBlank(line: string, m: Mode, i: nat)
    requires i <= |line| && ModeAt(line, m, i) == LineComment
    ensures |Blanked(line, m)| == |line| && ModeAt(line, m, |line|) == LineComment
    ensures forall k :: i <= k < |line| ==> Blanked(line, m)[k] == ' '
    decreases |line| - i
  {
    hide Blanked, ModeAt;
    BlankedChar(line, m, i);
    if i < |line| {
      ModeStep(line, m, i);
      LineCommentBlank(line, m, i + 1);
    }
  }

  // One handler after the other.

  /** The lexer looks at code, or has finished a line that leaves no comment open. */
  ghost predicate InCode(line: string, m: Mode, col: nat) {
    if col < |line| then ModeAt(line, m, col) == Code else Carry(line, m) == Code
  }

  predicate StartsComment(line: string, col: nat)
    requires col < |line|
  {
    line[col] == '/' && (CharAt(line, col + 1) == '/' || CharAt(line, col + 1) == '*')
  }

  /** Both lines give the same piece here, and go on in code. */
  ghost predicate SamePiece(line: string, m: Mode, row: nat, col: nat, check: NumberCheck)
    requires col < |line|
  {
    var b, p := Blanked(line, m), Handle(line, row, col, check);
    && |b| == |line| && Handle(b, row, col, check) == p && p != Open
    && (p.Piece? ==> InCode(line, m, p.next))
  }

  lemma CodeEnds(line: string, m: Mode, col: nat)
    requires if col <= |line| then ModeAt(line, m, col) == Code else ModeAt(line, m, |line|) == Code
    ensures InCode(line, m, col)
  {
    hide ModeAt;
  }

  lemma SkippedLike(line: string, m: Mode, row: nat, col: nat, check: NumberCheck)
    requires col < |line| && ModeAt(line, m, col) == Code && IsSkipped(line[col])
    ensures SamePiece(line, m, row, col, check)
  {
    hide Blanked, ModeAt, Carry;
    BlankedChar(line, m, col);
    ModeStep(line, m, col);
    CodeEnds(line, m, col + 1);
  }

  lemma SymbolFacts(c: char, d: char)
    ensures !IsDouble(c, '/') && !IsDouble(c, ' ') && (IsDouble(c, d) ==> d != '/' && d != 0 as char && !IsQuote(d))
    ensures IsSymbol(c) ==> !IsQuote(c) && !IsSkipped(c) && !IsDigit(c)
  {
  }

  lemma SymbolHandled(line: string, row: nat, col: nat, check: NumberCheck)
    requires col < |line| && IsSymbol(line[col]) && !StartsComment(line, col)
    ensures Handle(line, row, col, check) == SymbolPiece(line, row, col)
  {
    SymbolFacts(line[col], ' ');
    hide IsSymbol, IsDouble, IsSkipped, IsDigit, CommentEnd;
  }

  lemma SymbolLike(line: string, m: Mode, row: nat, col: nat, check: NumberCheck)
    requires col < |line| && ModeAt(line, m, col) == Code && IsSymbol(line[col]) && !StartsComment(line, col)
    ensures SamePiece(line, m, row, col, check)
  {
    hide Blanked, ModeAt, Carry, IsSymbol, IsDouble, Handle;
    var b, c, d := Blanked(line, m), line[col], CharAt(line, col + 1);
    SymbolFacts(c, d);
    BlankedChar(line, m, col);
    ModeStep(line, m, col);
    CodeEnds(line, m, col + 1);
    CodeIsLike(line, m, col + 1);
    if IsDouble(c, d) {
      ModeStep(line, m, col + 1);
      CodeEnds(line, m, col + 2);
      assert b[col..col + 2] == [c, d] == line[col..col + 2];
    }
    SymbolHandled(line, row, col, check);
    SymbolHandled(b, row, col, check);
  }

  lemma StringLike(line: string, m: Mode, row: nat, col: nat, check: NumberCheck)
    requires col < |line| && ModeAt(line, m, col) == Code && line[col] == '"'
    ensures SamePiece(line, m, row, col, check)
  {
    hide Blanked, ModeAt, Carry;
    BlankedChar(line, m, col);
    ModeStep(line, m, col);
    StringBodyLike(line, m, col + 1);
    var r := StringBody(line, col + 1);
    if r.Some? {
      CodeEnds(line, m, r.value.1 + 1);
    }
  }

  lemma CharLike(line: string, m: Mode, row: nat, col: nat, check: NumberCheck)
    requires col < |line| && ModeAt(line, m, col) == Code && line[col] == '\''
    ensures SamePiece(line, m, row, col, check)
  {
    hide Blanked, ModeAt, Carry, CharText;
    var b, left := Blanked(line, m), if CharAt(line, col + 1) == '\\' then 3 else 2;
    BlankedChar(line, m, col);
    ModeStep(line, m, col);
    ConstLike(line, m, col + 1, left);
    var end := col + left;
    assert CharAt(b, col + 1) == CharAt(line, col + 1) && CharAt(b, end) == CharAt(line, end);
    if CharAt(line, end) == '\'' {
      CodeEnds(line, m, end + 1);
      SameSlice(line, b, col + 1, end);
    }
  }

  lemma SameSlice(line: string, b: string, from: nat, until: nat)
    requires |b| == |line| && from <= until
    requires forall k: nat :: from <= k < until && k < |line| ==> CharAt(b, k) == CharAt(line, k)
    ensures Slice(b, from, until) == Slice(line, from, until)
  {
    var n := |Slice(line, from, until)|;
    assert |Slice(b, from, until)| == n;
    forall i | 0 <= i < n
      ensures Slice(b, from, until)[i] == Slice(line, from, until)[i]
    {
      assert CharAt(b, from + i) == CharAt(line, from + i);
    }
  }

  lemma NumberLike(line: string, m: Mode, row: nat, col: nat, check: NumberCheck)
    requires col < |line| && ModeAt(line, m, col) == Code && IsDigit(line[col])
    requires forall k: nat :: col <= k < NumberEnd(line, col).0 ==> !IsQuote(CharAt(line, k))
    ensures SamePiece(line, m, row, col, check)
  {
    hide Blanked, ModeAt, Carry, NumberHead, NumberTail, SkipDigits, Like, Slice;
    var b, end := Blanked(line, m), NumberEnd(line, col).0;
    NumberNoSlash(line, col);
    NumberHeadBounds(line, col);
    assert forall k: nat :: col <= k < end && k < |line| ==> CharAt(line, k) == line[k];
    LikeFrom(line, m, col, end);
    NumberEndLike(line, b, col);
    SameSlice(line, b, col, end);
    BlankedChar(line, m, col);
    CodeEnds(line, m, end);
  }

  lemma WordLike(line: string, m: Mode, row: nat, col: nat, check: NumberCheck)
    requires col < |line| && ModeAt(line, m, col) == Code
    requires var c := line[col]; !IsSkipped(c) && c != '/' && !IsQuote(c) && !IsDigit(c) && !IsSymbol(c)
    requires forall k: nat :: col <= k < WordEnd(line, col) ==> !IsQuote(CharAt(line, k))
    ensures SamePiece(line, m, row, col, check)
  {
    hide Blanked, ModeAt, Carry, Like;
    var b, end := Blanked(line, m), WordEnd(line, col);
    assert end > col && IsOperator('/');
    forall k: nat | col <= k < end && k < |line|
      ensures line[k] != '/' && !IsQuote(line[k])
    {
      assert !IsOperator(CharAt(line, k)) && !IsQuote(CharAt(line, k));
    }
    LikeFrom(line, m, col, end);
    WordEndLike(line, b, col);
    assert CharAt(b, col) == line[col];
    assert b[col..end] == line[col..end];
    CodeEnds(line, m, end);
  }

  lemma PieceLike(line: string, m: Mode, row: nat, col: nat, check: NumberCheck)
    requires col < |line| && ModeAt(line, m, col) == Code && !StartsComment(line, col)
    requires forall k: nat :: col <= k < PlainEnd(line, col) ==> !IsQuote(CharAt(line, k))
    ensures SamePiece(line, m, row, col, check)
  {
    hide SamePiece, ModeAt, NumberEnd, WordEnd;
    var c := line[col];
    if IsSkipped(c) {
      SkippedLike(line, m, row, col, check);
    } else if c == '"' {
      StringLike(line, m, row, col, check);
    } else if c == '\'' {
      CharLike(line, m, row, col, check);
    } else if c == '/' {
      SymbolLike(line, m, row, col, check);
    } else if IsDigit(c) {
      NumberLike(line, m, row, col, check);
    } else if IsSymbol(c) {
      SymbolLike(line, m, row, col, check);
    } else {
      WordLike(line, m, row, col, check);
    }
  }

  /** Lexing a line, and lexing its blanked form: the same tokens in the same
      places or both a failure; and the lexer sees a comment left open exactly
      when the scanner does. */
  ghost predicate Agree(line: string, m: Mode, o: Outcome, blank: Outcome) {
    match o
    case Failed => blank == Failed
    case Fine(toks, open) => blank == Fine(toks, false) && (open <==> Carry(line, m) == Block)
  }

  lemma {:induction false} LinesAgree(line: string, m: Mode, row: nat, col: nat, check: NumberCheck)
    requires InCode(line, m, col) && QuotesStartTokens(line, row, col, check)
    ensures |Blanked(line, m)| == |line|
    ensures Agree(line, m, Analyze(line, row, col, check), Analyze(Blanked(line, m), row, col, check))
    decreases |line| - col
  {
    hide ModeAt, Blanked, Carry, Handle;
    var b := Blanked(line, m);
    BlankedChar(line, m, 0);
    if col < |line| {
      HandleAdvances(line, row, col, check);
      if StartsComment(line, col) {
        CommentAgrees(line, m, row, col, check);
      } else {
        PieceLike(line, m, row, col, check);
        match Handle(line, row, col, check) {
          case Piece(toks, next) => LinesAgree(line, m, row, next, check);
          case _ =>
        }
      }
    }
  }

  /** At a comment the lexer goes to its end, or to the end of the line. */
  lemma CommentHandled(line: string, row: nat, col: nat, check: NumberCheck)
    requires col < |line| && StartsComment(line, col)
    ensures Analyze(line, row, col, check)
         == if line[col + 1] == '/' then Fine([], false)
            else match CommentEnd(line, col + 2)
                 case None => Fine([], true)
                 case Some(end) => Analyze(line, row, end, check)
    ensures CharAt(line, col + 1) == '*' && CommentEnd(line, col + 2).Some? && QuotesStartTokens(line, row, col, check) ==>
              QuotesStartTokens(line, row, CommentEnd(line, col + 2).value, check)
  {
    assert Handle(line, row, col, check) == SlashPiece(line, row, col);
    hide Handle, CommentEnd;
    if line[col + 1] == '/' {
      assert Analyze(line, row, |line| + 1, check) == Fine([], false);
    } else if CommentEnd(line, col + 2).Some? {
      var o := Analyze(line, row, CommentEnd(line, col + 2).value, check);
      assert Before([], o) == o;
    }
  }

  lemma {:induction false} CommentAgrees(line: string, m: Mode, row: nat, col: nat, check: NumberCheck)
    requires col < |line| && ModeAt(line, m, col) == Code && StartsComment(line, col)
    requires QuotesStartTokens(line, row, col, check)
    ensures Agree(line, m, Analyze(line, row, col, check), Analyze(Blanked(line, m), row, col, check))
    decreases |line| - col, 0
  {
    CommentHandled(line, row, col, check);
    CommentBlank(line, m, col);
    hide ModeAt, Blanked, Handle, Carry, QuotesStartTokens, CommentEnd, Analyze;
    var b := Blanked(line, m);
    NothingThere(b, row, |line|, check);
    if line[col + 1] == '/' || CommentEnd(line, col + 2).None? {
      SpacesSkipped(b, row, col, |line|, check);
    } else {
      var end := CommentEnd(line, col + 2).value;
      SpacesSkipped(b, row, col, end, check);
      CodeEnds(line, m, end);
      LinesAgree(line, m, row, end, check);
    }
  }

  lemma NothingThere(line: string, row: nat, col: nat, check: NumberCheck)
    requires col >= |line|
    ensures Analyze(line, row, col, check) == Fine([], false)
  {
  }

  /** The scanner blanks a comment from its first character on. */
  lemma CommentBlank(line: string, m: Mode, col: nat)
    requires col < |line| && ModeAt(line, m, col) == Code && StartsComment(line, col)
    ensures var b, end := Blanked(line, m), CommentEnd(line, col + 2);
            && |b| == |line|
            && (if line[col + 1] == '*' && end.Some?
                then ModeAt(line, m, end.value) == Code && forall k :: col <= k < end.value ==> b[k] == ' '
                else Carry(line, m) == (if line[col + 1] == '*' then Block else Code)
                     && forall k :: col <= k < |line| ==> b[k] == ' ')
  {
    hide ModeAt, Blanked, CommentEnd, Carry;
    var b := Blanked(line, m);
    BlankedChar(line, m, col);
    BlankedChar(line, m, col + 1);
    ModeStep(line, m, col);
    assert b[col] == ' ' && b[col + 1] == ' ';
    if line[col + 1] == '/' {
      LineCommentBlank(line, m, col + 1);
      NotCarried(line, m);
    } else {
      ModeStep(line, m, col + 1);
      BlockBlank(line, m, col + 2);
      if CommentEnd(line, col + 2).None? {
        Carried(line, m);
      }
    }
  }

  lemma NotCarried(line: string, m: Mode)
    requires ModeAt(line, m, |line|) == LineComment
    ensures Carry(line, m) == Code
  {
  }

  lemma Carried(line: string, m: Mode)
    requires ModeAt(line, m, |line|) == Block
    ensures Carry(line, m) == Block
  {
  }

  // ----- whole texts -----

  /** Where lexing of a line starts, when a comment may still be open. */
  function LineStart(line: string, m: Mode): nat {
    if m != Block then 0 else if CommentEnd(line, 0).Some? then CommentEnd(line, 0).value else |line|
  }

  predicate QuotesInText(lines: seq<string>, row: nat, m: Mode, check: NumberCheck) {
    lines == [] ||
    (&& QuotesStartTokens(lines[0], row, LineStart(lines[0], m), check)
     && QuotesInText(lines[1..], row + 1, Carry(lines[0], m), check))
  }

  lemma LineAgrees(line: string, m: Mode, row: nat, check: NumberCheck)
    requires (m == Code || m == Block) && QuotesStartTokens(line, row, LineStart(line, m), check)
    ensures Agree(line, m, LexLine(line, row, m == Block, check), LexLine(Blanked(line, m), row, false, check))
    ensures Carry(line, m) == Code || Carry(line, m) == Block
  {
    hide Blanked, Analyze;
    var b := Blanked(line, m);
    assert ModeAt(line, m, 0) == m;
    if m == Code {
      CodeEnds(line, m, 0);
      LinesAgree(line, m, row, 0, check);
    } else {
      BlockBlank(line, m, 0);
      hide ModeAt;
      if CommentEnd(line, 0).None? {
        SpacesSkipped(b, row, 0, |line|, check);
        Carried(line, m);
        NothingThere(b, row, |line|, check);
      } else {
        var end := CommentEnd(line, 0).value;
        SpacesSkipped(b, row, 0, end, check);
        CodeEnds(line, m, end);
        LinesAgree(line, m, row, end, check);
      }
    }
  }

  /** Lexing line by line with the comment flag, for any number of lines and
      comments, gives the tokens and positions of the text in which the
      character scanner has blanked every comment; and it fails for an open
      comment exactly when the scanner ends inside one. */
  lemma {:induction false} CommentsAreSpaces(lines: seq<string>, row: nat, m: Mode, check: NumberCheck)
    requires (m == Code || m == Block) && QuotesInText(lines, row, m, check)
    ensures LexFrom(lines, row, m == Block, check)
         == if FinalMode(lines, m) == Block then None else LexFrom(BlankedText(lines, m), row, false, check)
    decreases lines
  {
    if lines != [] {
      hide Blanked, Carry, LexLine;
      var m1 := Carry(lines[0], m);
      LineAgrees(lines[0], m, row, check);
      CommentsAreSpaces(lines[1..], row + 1, m1, check);
      assert BlankedText(lines, m)[1..] == BlankedText(lines[1..], m1);
    }
  }

  /** The condition is needed: a word runs on over a quote, so a string that the
      scanner sees closed is seen open by the lexer, and the other way round. */
  lemma WordSwallowsQuote(check: NumberCheck)
    ensures var line := "a\" \"//\"";
            && !QuotesInText([line], 1, Code, check)
            && Lex([line], check) == Some([Token(Word, "a\"", 1, 0), Token(StringLit, "//", 1, 3)])
            && Lex(BlankedText([line], Code), check) == None
  {
    var line, blank := "a\" \"//\"", "a\" \"   ";
    StringBodies();
    BlankedStrings();
    hide StringBody, Blanked, Carry, Handle, PlainEnd, IsQuote;
    WordAndString(line, check);
    WordAndString(blank, check);
    assert !QuotesStartTokens(line, 1, 0, check) by { QuoteInside(line, check); }
    var toks := [Token(Word, "a\"", 1, 0), Token(StringLit, "//", 1, 3)];
    NothingThere(line, 1, 7, check);
    assert Analyze(line, 1, 0, check) == Before(toks, Fine([], false)) && toks + [] == toks;
    assert BlankedText([line], Code) == [blank] && [blank][1..] == [] && [line][1..] == [];
  }

  lemma QuoteInside(line: string, check: NumberCheck)
    requires |line| == 7 && line[1] == '"' && PlainEnd(line, 0) == 2
    ensures !QuotesStartTokens(line, 1, 0, check)
  {
    hide PlainEnd;
    var k: nat := 1;
    assert IsQuote(CharAt(line, k));
  }

  lemma StringBodies()
    ensures StringBody("a\" \"//\"", 4) == Some(("//", 6)) && StringBody("a\" \"   ", 4) == None
  {
    var line, blank := "a\" \"//\"", "a\" \"   ";
    assert StringBody(blank, 8) == None && StringBody(blank, 7) == None && StringBody(blank, 5) == None;
    assert "/" + "" == "/" && "/" + "/" == "//";
    assert StringBody(line, 6) == Some(("", 6)) && StringBody(line, 5) == Some(("/" + "", 6));
    assert StringBody(line, 4) == Some(("/" + "/", 6));
  }

  lemma BlankedStrings()
    ensures Blanked("a\" \"//\"", Code) == "a\" \"   "
  {
    var line := "a\" \"//\"";
    assert ModeAt(line, Code, 2) == Text && ModeAt(line, Code, 4) == Code && ModeAt(line, Code, 5) == LineComment;
  }

  lemma WordAndString(line: string, check: NumberCheck)
    requires |line| == 7 && line[0] == 'a' && line[1] == '"' && line[2] == ' ' && line[3] == '"'
    ensures PlainEnd(line, 0) == 2
    ensures Analyze(line, 1, 0, check)
         == match StringBody(line, 4)
            case None => Failed
            case Some((text, end)) =>
              Before([Token(Word, "a\"", 1, 0), Token(StringLit, text, 1, 3)], Analyze(line, 1, end + 1, check))
  {
    hide *;
    var word := [Token(Word, "a\"", 1, 0)];
    ThreePieces(line, check);
    StringPieceIs(line);
    OnePiece(line, 1, 0, check);
    OnePiece(line, 1, 2, check);
    OnePiece(line, 1, 3, check);
    var o := Analyze(line, 1, 3, check);
    assert Analyze(line, 1, 0, check) == Before(word, Before([], o));
    BeforeBefore(word, [], o);
    assert word + [] == word;
    if StringBody(line, 4).Some? {
      var (text, end) := StringBody(line, 4).value;
      var literal := [Token(StringLit, text, 1, 3)];
      BeforeBefore(word, literal, Analyze(line, 1, end + 1, check));
      assert word + literal == [word[0], literal[0]];
    } else {
      assert Before(word, Failed) == Failed by { FailedStays(word); }
    }
  }

  lemma OnePiece(line: string, row: nat, col: nat, check: NumberCheck)
    requires col < |line|
    ensures Analyze(line, row, col, check) == match Handle(line, row, col, check)
                                              case Bad => Failed
                                              case Open => Fine([], true)
                                              case Piece(toks, next) => Before(toks, Analyze(line, row, next, check))
  {
    hide Handle;
  }

  lemma FailedStays(toks: seq<Token>)
    ensures Before(toks, Failed) == Failed
  {
  }

  lemma ThreePieces(line: string, check: NumberCheck)
    requires |line| == 7 && line[0] == 'a' && line[1] == '"' && line[2] == ' ' && line[3] == '"'
    ensures PlainEnd(line, 0) == 2
    ensures Handle(line, 1, 0, check) == Piece([Token(Word, "a\"", 1, 0)], 2)
    ensures Handle(line, 1, 2, check) == Piece([], 3)
    ensures Handle(line, 1, 3, check) == StringPiece(line, 1, 3)
  {
    assert line[0..2] == "a\"";
    WordEndsAtSpace(line);
    hide WordEnd, IsOperator, IsSymbol, NumberEnd, NumberPiece, SymbolPiece, SlashPiece, CharPiece, StringPiece;
  }

  lemma StringPieceIs(line: string)
    ensures StringPiece(line, 1, 3) == match StringBody(line, 4)
                                       case None => Bad
                                       case Some((text, end)) => Piece([Token(StringLit, text, 1, 3)], end + 1)
  {
  }

  lemma WordEndsAtSpace(line: string)
    requires |line| > 2 && line[0] == 'a' && line[1] == '"' && line[2] == ' '
    ensures WordEnd(line, 0) == 2 && !IsSymbol('a') && !IsDigit('a')
  {
    hide IsSymbol;
    assert IsOperator(' ');
    assert !IsSymbol('a') && !IsSymbol('"') by { PlainChars(); }
    assert WordEnd(line, 2) == 2 && WordEnd(line, 1) == 2;
  }

  lemma PlainChars()
    ensures !IsSymbol('a') && !IsSymbol('"')
  {
  }

  // ----- string literals -----

  /** Token::to_str with escaping, between the quotes. */
  function Escape(text: string): string {
    if text == "" then "" else (if IsControl(text[0]) then ControlName(text[0]) else [text[0]]) + Escape(text[1..])
  }

  predicate NoControls(s: string) {
    forall i :: 0 <= i < |s| ==> !IsControl(s[i])
  }

  lemma {:induction false} EscapeAppend(a: string, b: string)
    ensures Escape(a + b) == Escape(a) + Escape(b)
  {
    if a == "" {
      assert a + b == b;
    } else {
      assert (a + b)[1..] == a[1..] + b;
      EscapeAppend(a[1..], b);
    }
  }

  /** Printed text has no control characters. */
  lemma {:induction false} EscapedIsPlain(text: string)
    ensures NoControls(Escape(text))
  {
    if text != "" {
      EscapedIsPlain(text[1..]);
      assert NoControls(ControlName(text[0]));
    }
  }

  /** An escape of the source text prints as it was written. */
  lemma EscapePrints(c: char)
    ensures ControlCode(c).Some? ==>
              IsControl(ControlCode(c).value) && ControlName(ControlCode(c).value) == ['\\', c]
    ensures !IsControl('\\')
  {
  }

  lemma {:induction false} BodyPrints(line: string, i: nat)
    requires StringBody(line, i).Some? && NoControls(line[i..StringBody(line, i).value.1])
    ensures Escape(StringBody(line, i).value.0) == line[i..StringBody(line, i).value.1]
    decreases |line| + 2 - i
  {
    var end := StringBody(line, i).value.1;
    var whole := line[i..end];
    if i < end {
      var c := line[i];
      assert c == whole[0];
      if c == '\\' {
        var d := line[i + 1];
        var rest := StringBody(line, i + 2).value.0;
        var head := if ControlCode(d).Some? then [ControlCode(d).value] else [c, d];
        assert d == whole[1] && line[i + 2..end] == whole[2..];
        BodyPrints(line, i + 2);
        EscapePrints(d);
        EscapeAppend(head, rest);
        assert Escape(head) == [c, d];
        assert whole == [c, d] + whole[2..];
      } else {
        assert line[i + 1..end] == whole[1..];
        BodyPrints(line, i + 1);
        EscapeAppend([c], StringBody(line, i + 1).value.0);
        assert Escape([c]) == [c];
        assert whole == [c] + whole[1..];
      }
    }
  }

  /** Printing a lexed string literal with escaping gives back its source text
      if and only if the source has no raw control character. */
  lemma LiteralRoundTrip(line: string, row: nat, col: nat)
    requires col < |line| && line[col] == '"' && StringPiece(line, row, col).Piece?
    ensures var p := StringPiece(line, row, col);
            var source := line[col + 1..p.next - 1];
            Escape(p.toks[0].text) == source <==> NoControls(source)
  {
    var (text, end) := StringBody(line, col + 1).value;
    if NoControls(line[col + 1..end]) {
      BodyPrints(line, col + 1);
    }
    EscapedIsPlain(text);
  }
}
