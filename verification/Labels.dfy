/** The label names of hzcc/codegen/LabelManager.cc: how scopes are named, how
    the innermost loop is found, and why two different labels never get the
    same text. */
module Labels {
  import opened Ast

  datatype ScopeKind = IfS | DoS | WhileS | ForS | SwitchS | EqualS | NotEqualS | ElseIfS | LogicalS | TernaryS

  /** An entry of the scope stack; the innermost scope is the last entry. */
  datatype Scope = Scope(id: string, kind: ScopeKind)

  function KindName(k: ScopeKind): string {
    match k
    case IfS => "if"
    case DoS => "do"
    case WhileS => "while"
    case ForS => "for"
    case SwitchS => "switch"
    case EqualS => "equal"
    case NotEqualS => "notequal"
    case ElseIfS => "else_if"
    case LogicalS => "logical"
    case TernaryS => "ternary"
  }

  predicate IsLoop(k: ScopeKind) {
    k == WhileS || k == ForS || k == DoS
  }

  function Digit(d: nat): char
    requires d < 10
  {
    '0' + d as char
  }

  /** std::to_string of a non-negative number. */
  function Decimal(n: nat): (s: string)
    ensures |s| > 0 && forall i :: 0 <= i < |s| ==> '0' <= s[i] <= '9'
  {
    if n < 10 then [Digit(n)] else Decimal(n / 10) + [Digit(n % 10)]
  }

  function ScopeId(pos: Pos, kind: ScopeKind): string {
    Decimal(pos.row) + "_" + Decimal(pos.col) + "_" + KindName(kind)
  }

  function MakeScope(pos: Pos, kind: ScopeKind): Scope {
    Scope(ScopeId(pos, kind), kind)
  }

  function Innermost(sc: seq<Scope>): string
    requires sc != []
  {
    sc[|sc| - 1].id
  }

  function ExitLabel(sc: seq<Scope>): string
    requires sc != []
  {
    "L" + Innermost(sc) + "_exit"
  }

  function EntryLabel(sc: seq<Scope>): string
    requires sc != []
  {
    "L" + Innermost(sc) + "_entry"
  }

  function NamedLabel(sc: seq<Scope>, name: string): string {
    "L" + (if sc == [] then "" else Innermost(sc) + "_") + name
  }

  function LineLabel(count: nat): string {
    "L_LINE_" + Decimal(count)
  }

  /** The index of the innermost loop scope, or -1. */
  function LoopIndex(sc: seq<Scope>): (i: int)
    ensures -1 <= i < |sc|
    ensures i >= 0 ==> IsLoop(sc[i].kind)
    ensures forall j :: i < j < |sc| ==> !IsLoop(sc[j].kind)
  {
    if sc == [] then -1
    else if IsLoop(sc[|sc| - 1].kind) then |sc| - 1
    else LoopIndex(sc[..|sc| - 1])
  }

  function LoopCount(sc: seq<Scope>): nat {
    if sc == [] then 0
    else LoopCount(sc[..|sc| - 1]) + (if IsLoop(sc[|sc| - 1].kind) then 1 else 0)
  }

  /** The loop counter is zero exactly when the search below finds no loop. */
  lemma {:induction false} LoopCountFindsLoop(sc: seq<Scope>)
    ensures LoopCount(sc) == 0 <==> LoopIndex(sc) == -1
  {
    if sc != [] {
      LoopCountFindsLoop(sc[..|sc| - 1]);
    }
  }

  function LoopExitLabel(sc: seq<Scope>): string {
    if LoopIndex(sc) < 0 then "" else "L" + sc[LoopIndex(sc)].id + "_exit"
  }

  function LoopEntryLabel(sc: seq<Scope>): string {
    if LoopIndex(sc) < 0 then "" else "L" + sc[LoopIndex(sc)].id + "_entry"
  }

  lemma PushLoop(sc: seq<Scope>, s: Scope)
    requires IsLoop(s.kind)
    ensures LoopExitLabel(sc + [s]) == ExitLabel(sc + [s])
    ensures LoopEntryLabel(sc + [s]) == EntryLabel(sc + [s])
    ensures LoopIndex(sc + [s]) == |sc| && LoopCount(sc + [s]) == LoopCount(sc) + 1
  {
    assert (sc + [s])[..|sc|] == sc;
  }

  lemma PushOther(sc: seq<Scope>, s: Scope)
    requires !IsLoop(s.kind)
    ensures LoopExitLabel(sc + [s]) == LoopExitLabel(sc)
    ensures LoopEntryLabel(sc + [s]) == LoopEntryLabel(sc)
    ensures LoopIndex(sc + [s]) == LoopIndex(sc) && LoopCount(sc + [s]) == LoopCount(sc)
  {
    assert (sc + [s])[..|sc|] == sc;
  }

  // ----- the texts themselves -----

  /** The number that a string of digits stands for. */
  function Numeral(s: string): int {
    if s == "" then 0 else Numeral(s[..|s| - 1]) * 10 + (s[|s| - 1] as int - '0' as int)
  }

  /** The decimal notation of a number, without leading zeros. */
  lemma {:induction false} DecimalNotation(n: nat)
    ensures Numeral(Decimal(n)) == n && (n > 0 ==> Decimal(n)[0] != '0')
  {
    var s := Decimal(n);
    if n < 10 {
      assert s[..0] == "";
    } else {
      DecimalNotation(n / 10);
      assert s[..|s| - 1] == Decimal(n / 10);
    }
  }

  /** The labels of the statements' scopes: row, column, kind, and what the label is for. */
  lemma ScopeLabelTexts(sc: seq<Scope>, pos: Pos)
    ensures var at := Decimal(pos.row) + "_" + Decimal(pos.col) + "_";
            && ExitLabel(sc + [MakeScope(pos, IfS)]) == "L" + (at + "if") + "_exit"
            && EntryLabel(sc + [MakeScope(pos, ElseIfS)]) == "L" + (at + "else_if") + "_entry"
            && NamedLabel(sc + [MakeScope(pos, IfS)], "stmt_end") == "L" + ((at + "if") + "_" + "stmt_end")
            && ExitLabel(sc + [MakeScope(pos, WhileS)]) == "L" + (at + "while") + "_exit"
            && EntryLabel(sc + [MakeScope(pos, DoS)]) == "L" + (at + "do") + "_entry"
            && NamedLabel(sc + [MakeScope(pos, ForS)], "for_cond") == "L" + ((at + "for") + "_" + "for_cond")
  {
    hide Decimal;
  }

  // ----- the text of a label determines the label -----

  datatype Suffix = ExitX | EntryX | StmtEndX | ForCondX

  function SuffixName(x: Suffix): string {
    match x
    case ExitX => "_exit"
    case EntryX => "_entry"
    case StmtEndX => "_stmt_end"
    case ForCondX => "_for_cond"
  }

  /** What a label stands for: a place in a scope, or a line. */
  datatype LabelRef = ScopeRef(pos: Pos, kind: ScopeKind, suffix: Suffix) | LineRef(count: nat)

  function Text(l: LabelRef): string {
    match l
    case ScopeRef(pos, kind, suffix) => "L" + ScopeId(pos, kind) + SuffixName(suffix)
    case LineRef(count) => LineLabel(count)
  }

  lemma {:induction false} DecimalInjective(m: nat, n: nat)
    requires Decimal(m) == Decimal(n)
    ensures m == n
  {
    var s := Decimal(m);
    if m >= 10 && n >= 10 {
      assert Decimal(m / 10) == s[..|s| - 1] == Decimal(n / 10);
      assert Digit(m % 10) == s[|s| - 1] == Digit(n % 10);
      DecimalInjective(m / 10, n / 10);
    } else if m < 10 && n < 10 {
      assert s[0] == Digit(m) == Digit(n);
    }
  }

  ghost predicate NoUnderscore(s: string) {
    forall i :: 0 <= i < |s| ==> s[i] != '_'
  }

  /** Text up to the first underscore is determined by the whole. */
  lemma SplitAtUnderscore(a: string, x: string, b: string, y: string)
    requires NoUnderscore(a) && NoUnderscore(b)
    requires a + "_" + x == b + "_" + y
    ensures a == b && x == y
  {
    var s := a + "_" + x;
    assert s[|a|] == '_' && s[|b|] == '_';
    assert forall i :: 0 <= i < |a| ==> s[i] == a[i];
    assert forall i :: 0 <= i < |b| ==> s[i] == b[i];
    assert |a| == |b|;
    assert a == s[..|a|] && b == s[..|b|];
    assert x == s[|a| + 1..] && y == s[|b| + 1..];
  }

  lemma KindNameInjective(k: ScopeKind, k': ScopeKind)
    requires KindName(k) == KindName(k')
    ensures k == k'
  {
    var s := KindName(k);
    assert s[0] == KindName(k')[0] && s[1] == KindName(k')[1];
  }

  lemma TailInjective(k: ScopeKind, x: Suffix, k': ScopeKind, x': Suffix)
    requires KindName(k) + SuffixName(x) == KindName(k') + SuffixName(x')
    ensures k == k' && x == x'
  {
    var a, b := KindName(k), SuffixName(x);
    var a', b' := KindName(k'), SuffixName(x');
    var s := a + b;
    assert |b| >= 3 && |b'| >= 3;
    assert s[|s| - 1] == b[|b| - 1] == b'[|b'| - 1];
    assert s[|s| - 3] == b[|b| - 3] == b'[|b'| - 3];
    assert x == x';
    assert a == s[..|a|] && a' == s[..|a'|];
    KindNameInjective(k, k');
  }

  /** A scope label's text after the leading L: row, column, kind and suffix. */
  function ScopeTail(l: LabelRef): string
    requires l.ScopeRef?
  {
    KindName(l.kind) + SuffixName(l.suffix)
  }

  lemma Assoc(a: string, b: string, c: string)
    ensures a + b + c == a + (b + c)
  {
  }

  lemma ScopeText(l: LabelRef)
    requires l.ScopeRef?
    ensures Text(l)[1..] == Decimal(l.pos.row) + "_" + (Decimal(l.pos.col) + "_" + ScopeTail(l))
    ensures |Text(l)| > 1 && Text(l)[1] != '_'
  {
    var row, col, kind, suffix := Decimal(l.pos.row), Decimal(l.pos.col), KindName(l.kind), SuffixName(l.suffix);
    var head, mid := row + "_", col + "_";
    var id := ScopeId(l.pos, l.kind);
    assert id == head + col + "_" + kind;
    Assoc(head, col, "_");
    Assoc(head, mid, kind);
    Assoc("L", id, suffix);
    assert Text(l)[1..] == id + suffix;
    Assoc(head, mid + kind, suffix);
    Assoc(mid, kind, suffix);
    assert Text(l)[1..][0] == row[0];
  }

  lemma ScopeTextInjective(l: LabelRef, l': LabelRef)
    requires l.ScopeRef? && l'.ScopeRef? && Text(l) == Text(l')
    ensures l == l'
  {
    ScopeText(l);
    ScopeText(l');
    var rest, rest' := Decimal(l.pos.col) + "_" + ScopeTail(l), Decimal(l'.pos.col) + "_" + ScopeTail(l');
    SplitAtUnderscore(Decimal(l.pos.row), rest, Decimal(l'.pos.row), rest');
    SplitAtUnderscore(Decimal(l.pos.col), ScopeTail(l), Decimal(l'.pos.col), ScopeTail(l'));
    DecimalInjective(l.pos.row, l'.pos.row);
    DecimalInjective(l.pos.col, l'.pos.col);
    TailInjective(l.kind, l.suffix, l'.kind, l'.suffix);
  }

  /** Two labels with the same text stand for the same place. */
  lemma TextInjective(l: LabelRef, l': LabelRef)
    requires Text(l) == Text(l')
    ensures l == l'
  {
    if l.ScopeRef? && l'.ScopeRef? {
      ScopeTextInjective(l, l');
    } else if l.ScopeRef? {
      ScopeText(l);
    } else if l'.ScopeRef? {
      ScopeText(l');
    } else {
      assert Text(l)[7..] == Decimal(l.count) && Text(l')[7..] == Decimal(l'.count);
      DecimalInjective(l.count, l'.count);
    }
  }
}
