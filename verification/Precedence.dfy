/** Operator precedence (section 6.5 of ISO/IEC 9899:2011), with the operators
    written out from the loosest to the tightest. Operators of one rung group
    to the right, as in the code. */
module Precedence {
  import opened Tokens
  import opened Grammar
  import opened ParserSpec
  import opened ParserCorrectness

  /** The binary operators, rung by rung; `?:` stands between rungs 1 and 2. */
  predicate OnRung(s: Symbol, i: nat) {
    match i
    case 0 => s == Comma
    case 1 =>
      || s == Assign || s == AddAssign || s == SubAssign || s == MulAssign || s == DivAssign || s == ModAssign
      || s == LShiftAssign || s == RShiftAssign || s == AndAssign || s == XorAssign || s == OrAssign
    case 2 => s == LogicalOr
    case 3 => s == LogicalAnd
    case 4 => s == BitOr
    case 5 => s == BitXor
    case 6 => s == BitAnd
    case 7 => s == EQ || s == NE
    case 8 => s == Less || s == Greater || s == LE || s == GE
    case 9 => s == LShift || s == RShift
    case 10 => s == Add || s == Sub
    case 11 => s == Mul || s == Div || s == Mod
    case _ => false
  }

  /** Prefix operators whose operand may be a cast, and the others. */
  predicate BeforeCasts(s: Symbol) {
    s == Sub || s == Mul || s == BitNot || s == LogicalNot || s == BitAnd
  }

  predicate BeforeUnary(s: Symbol) {
    s == Sizeof || s == Inc || s == Dec
  }

  /** The rung of an operator, 12 for other symbols. */
  function Rung(s: Symbol): (i: nat)
    ensures i <= 12 && (i < 12 ==> OnRung(s, i))
  {
    RungFrom(s, 0)
  }

  function RungFrom(s: Symbol, i: nat): (j: nat)
    requires i <= 12
    ensures i <= j <= 12 && (j < 12 ==> OnRung(s, j)) && forall k :: i <= k < j ==> !OnRung(s, k)
    decreases 12 - i
  {
    if i == 12 || OnRung(s, i) then i else RungFrom(s, i + 1)
  }

  lemma Levels(s: Symbol, i: nat)
    ensures OnRung(s, i) ==> i < 12 && OpLevel(s) == if i < 2 then i else i + 1
  {
    if i < 6 {
      LowLevels(s, i);
    } else if i < 9 {
      MiddleLevels(s, i);
    } else {
      HighLevels(s, i);
    }
  }

  lemma LowLevels(s: Symbol, i: nat)
    requires i < 6
    ensures OnRung(s, i) ==> OpLevel(s) == if i < 2 then i else i + 1
  {
  }

  lemma MiddleLevels(s: Symbol, i: nat)
    requires 6 <= i < 9
    ensures OnRung(s, i) ==> OpLevel(s) == i + 1
  {
  }

  lemma HighLevels(s: Symbol, i: nat)
    requires i >= 9
    ensures OnRung(s, i) ==> i < 12 && OpLevel(s) == i + 1
  {
  }

  lemma RungLevel(s: Symbol)
    ensures Rung(s) < 12 ==> OpLevel(s) == if Rung(s) < 2 then Rung(s) else Rung(s) + 1
  {
    hide OnRung, OpLevel, RungFrom;
    Levels(s, Rung(s));
  }

  /** No symbol stands on two rungs. */
  lemma OneRung(s: Symbol, i: nat)
    ensures OnRung(s, i) ==> Rung(s) == i
  {
    hide OnRung, OpLevel;
    if OnRung(s, i) {
      Levels(s, i);
      Levels(s, Rung(s));
    }
  }

  lemma Prefixes(s: Symbol)
    ensures TakesCast(s) <==> BeforeCasts(s)
    ensures TakesUnary(s) <==> BeforeUnary(s)
  {
  }

  lemma LowRungs(s: Symbol)
    ensures 0 <= OpLevel(s) < 2 ==> OnRung(s, OpLevel(s))
    ensures 2 <= OpLevel(s) < 8 ==> OnRung(s, OpLevel(s) - 1)
  {
  }

  lemma HighRungs(s: Symbol)
    ensures 8 <= OpLevel(s) ==> OnRung(s, OpLevel(s) - 1)
  {
  }

  lemma OffTheLadder(s: Symbol)
    requires forall i :: !OnRung(s, i)
    ensures OpLevel(s) < 0
  {
    hide OnRung, OpLevel;
    LowRungs(s);
    HighRungs(s);
  }

  // ----- chains of binary operators -----

  /** An operand without binary operators of its own outside parentheses. */
  predicate Operand(c: Cst) {
    Good(c) && !c.Bin? && !c.Cond? && !c.Cast?
  }

  ghost predicate IsChain(es: seq<Cst>, ops: seq<Symbol>) {
    && |es| == |ops| + 1
    && (forall i :: 0 <= i < |es| ==> Operand(es[i]))
    && forall i :: 0 <= i < |ops| ==> Rung(ops[i]) < 12
  }

  /** `e0 op0 e1 op1 ... en`. */
  function ChainTokens(es: seq<Cst>, ops: seq<Symbol>): seq<Token>
    requires |es| == |ops| + 1
  {
    if ops == [] then Yield(es[0]) else Yield(es[0]) + ([Sym(ops[0])] + ChainTokens(es[1..], ops[1..]))
  }

  /** The leftmost of the loosest operators. */
  function Root(ops: seq<Symbol>): (k: nat)
    requires ops != []
    ensures k < |ops|
  {
    if |ops| == 1 then 0 else
    var k := Root(ops[1..]);
    if Rung(ops[1..][k]) < Rung(ops[0]) then k + 1 else 0
  }

  lemma {:induction false} RootIsLoosest(ops: seq<Symbol>)
    requires ops != []
    ensures forall j :: 0 <= j < Root(ops) ==> Rung(ops[j]) > Rung(ops[Root(ops)])
    ensures forall j :: Root(ops) < j < |ops| ==> Rung(ops[j]) >= Rung(ops[Root(ops)])
  {
    hide Rung;
    if |ops| > 1 {
      RootIsLoosest(ops[1..]);
      assert forall j :: 1 <= j < |ops| ==> ops[j] == ops[1..][j - 1];
    }
  }

  /** The chain is split at its root, again and again. */
  function Grouped(es: seq<Cst>, ops: seq<Symbol>): Cst
    requires |es| == |ops| + 1
    decreases |ops|
  {
    if ops == [] then es[0] else
    var k := Root(ops);
    Bin(ops[k], Grouped(es[..k + 1], ops[..k]), Grouped(es[k + 1..], ops[k + 1..]))
  }

  function GroupedTree(es: seq<Cst>, ops: seq<Symbol>): Tree
    requires |es| == |ops| + 1
    decreases |ops|
  {
    if ops == [] then Abs(es[0]) else
    var k := Root(ops);
    Binary(ops[k], GroupedTree(es[..k + 1], ops[..k]), GroupedTree(es[k + 1..], ops[k + 1..]))
  }

  /** Nothing that could go on with an expression. */
  predicate EndsExpression(rest: seq<Token>) {
    rest == [] || rest[0] == Sym(SemiColon) || rest[0] == Sym(RParen) || rest[0] == Sym(RBracket)
  }

  lemma {:induction false} ChainSplits(es: seq<Cst>, ops: seq<Symbol>, k: nat)
    requires |es| == |ops| + 1 && k < |ops|
    ensures ChainTokens(es, ops)
         == ChainTokens(es[..k + 1], ops[..k]) + ([Sym(ops[k])] + ChainTokens(es[k + 1..], ops[k + 1..]))
    decreases k
  {
    hide Yield;
    if k > 0 {
      var more := [Sym(ops[k])] + ChainTokens(es[k + 1..], ops[k + 1..]);
      ChainSplits(es[1..], ops[1..], k - 1);
      assert es[1..][..k] == es[..k + 1][1..] && ops[1..][..k - 1] == ops[..k][1..];
      assert es[1..][k..] == es[k + 1..] && ops[1..][k..] == ops[k + 1..];
      AssocThree(Yield(es[0]), Sym(ops[0]), ChainTokens(es[1..][..k], ops[1..][..k - 1]), more);
    } else {
      assert es[..1] == [es[0]] && ops[..0] == [];
    }
  }

  lemma BinIs(op: Symbol, l: Cst, r: Cst)
    ensures Yield(Bin(op, l, r)) == Yield(l) + ([Sym(op)] + Yield(r))
    ensures Abs(Bin(op, l, r)) == Binary(op, Abs(l), Abs(r))
  {
  }

  lemma Whole(c: Cst, rest: seq<Token>)
    requires Good(c) && Level(c) >= 0 && EndsExpression(rest)
    ensures Parse(0, Yield(c) + rest) == Parsed(c, rest)
  {
    hide Parse, Yield, Good, Level, Stops;
    AlwaysStops(c, First(rest));
    ParseComplete(0, c, rest);
  }

  // ----- small derivations -----

  /** `c` is a derivation at `level` of these tokens, and this is its tree. */
  ghost predicate Written(c: Cst, level: nat, toks: seq<Token>, t: Tree) {
    Good(c) && Level(c) >= level && Yield(c) == toks && Abs(c) == t
  }

  lemma Parses(c: Cst, level: nat, toks: seq<Token>, t: Tree, rest: seq<Token>)
    requires Written(c, level, toks, t) && EndsExpression(rest)
    ensures var o := Parse(0, toks + rest); o.Parsed? && o.rest == rest && Abs(o.c) == t
  {
    hide Parse, Yield, Good, Level, Abs, EndsExpression;
    Whole(c, rest);
  }

  lemma OneName(a: string, level: nat)
    requires level <= 15
    ensures Written(Id(a), level, [Ident(a)], Name(a))
  {
  }

  lemma Infix(p: Symbol, i: nat, l: Cst, ls: seq<Token>, tl: Tree, r: Cst, rs: seq<Token>, tr: Tree)
    requires OnRung(p, i)
    requires Written(l, if i < 2 then i + 1 else i + 2, ls, tl) && Written(r, if i < 2 then i else i + 1, rs, tr)
    ensures Written(Bin(p, l, r), if i < 2 then i else i + 1, ls + [Sym(p)] + rs, Binary(p, tl, tr))
  {
    hide OnRung, OpLevel;
    Levels(p, i);
    BinIs(p, l, r);
    hide Yield, Abs;
    assert ls + [Sym(p)] + rs == ls + ([Sym(p)] + rs);
  }

  lemma Conditional(l: Cst, ls: seq<Token>, tl: Tree, m: Cst, ms: seq<Token>, tm: Tree, r: Cst, rs: seq<Token>, tr: Tree)
    requires Written(l, 3, ls, tl) && Written(m, 2, ms, tm) && Written(r, 2, rs, tr)
    ensures Written(Cond(l, m, r), 2, ls + [Sym(Question)] + ms + [Sym(Colon)] + rs, Ternary(tl, tm, tr))
  {
    assert ls + [Sym(Question)] + ms + [Sym(Colon)] + rs == ls + ([Sym(Question)] + (ms + ([Sym(Colon)] + rs)));
  }

  lemma Prefix(u: Symbol, c: Cst, toks: seq<Token>, t: Tree)
    requires IsPrefix(u) && Written(c, 13, toks, t)
    ensures Written(Pre(u, c), 13, [Sym(u)] + toks, Unary(u, t))
  {
    Prefixes(u);
    hide TakesCast, TakesUnary, OpLevel;
  }

  /** A cast as the code knows it, with any number of stars behind the type. */
  function CastSpelling(name: string, n: nat, a: string): seq<Token> {
    [Sym(RParen), Type(name)] + seq(n, i => Sym(Mul)) + [Sym(RParen), Ident(a)]
  }

  lemma CastTokens(name: string, n: nat, a: string)
    ensures Yield(Cast(name, n, Id(a))) == CastSpelling(name, n, a)
    ensures Abs(Cast(name, n, Id(a))) == CastTo(name, n, Name(a))
  {
    assert Stars(n) == seq(n, i => Sym(Mul));
  }

  lemma PreIs(u: Symbol, c: Cst)
    ensures Yield(Pre(u, c)) == [Sym(u)] + Yield(c) && Abs(Pre(u, c)) == Unary(u, Abs(c)) && Level(Pre(u, c)) == 13
  {
  }

  lemma CastIsGood(u: Symbol, name: string, n: nat, a: string)
    requires TakesCast(u)
    ensures Good(Pre(u, Cast(name, n, Id(a))))
  {
    hide TakesCast;
    assert Good(Id(a)) && IsCastOperand(Id(a));
    assert Good(Cast(name, n, Id(a))) && IsCastOperand(Cast(name, n, Id(a)));
  }

  lemma CastPrefix(u: Symbol, name: string, n: nat, a: string)
    requires BeforeCasts(u)
    ensures Written(Pre(u, Cast(name, n, Id(a))), 13, [Sym(u)] + CastSpelling(name, n, a),
                    Unary(u, CastTo(name, n, Name(a))))
  {
    hide BeforeCasts, Good, Level, Yield, Abs, TakesCast, CastSpelling;
    Prefixes(u);
    CastTokens(name, n, a);
    CastIsGood(u, name, n, a);
    PreIs(u, Cast(name, n, Id(a)));
  }

  lemma Element(a: string, b: string)
    ensures Written(Index(Id(a), Id(b)), 13, [Ident(a), Sym(LBracket), Ident(b), Sym(RBracket)], Subscript(Name(a), Name(b)))
  {
  }

  lemma Postfix(a: string, op: Symbol)
    requires op == Inc || op == Dec
    ensures Written(Post(Id(a), op), 13, [Ident(a), Sym(op)], PostUnary(op, Name(a)))
  {
  }

  /** A pair of names and an operator, at any level up to the operator's. */
  lemma Two(a: string, p: Symbol, b: string, i: nat, level: nat)
    requires OnRung(p, i) && level <= if i < 2 then i else i + 1
    ensures Written(Bin(p, Id(a), Id(b)), level, [Ident(a), Sym(p), Ident(b)], Binary(p, Name(a), Name(b)))
  {
    hide OnRung, Written;
    assert i < 12 by { Levels(p, i); }
    OneName(a, if i < 2 then i + 1 else i + 2);
    OneName(b, if i < 2 then i else i + 1);
    Infix(p, i, Id(a), [Ident(a)], Name(a), Id(b), [Ident(b)], Name(b));
    assert [Ident(a)] + [Sym(p)] + [Ident(b)] == [Ident(a), Sym(p), Ident(b)];
    Lower(Bin(p, Id(a), Id(b)), if i < 2 then i else i + 1, [Ident(a), Sym(p), Ident(b)], Binary(p, Name(a), Name(b)), level);
  }

  lemma Lower(c: Cst, level: nat, toks: seq<Token>, t: Tree, level': nat)
    requires Written(c, level, toks, t) && level' <= level
    ensures Written(c, level', toks, t)
  {
    hide Good, Level, Yield, Abs;
  }

  // ----- chains -----

  lemma OperandWritten(c: Cst, level: nat)
    requires Operand(c) && level <= 13
    ensures Written(c, level, Yield(c), Abs(c))
  {
    hide Good, Yield, Abs;
  }

  lemma GroupedSplits(es: seq<Cst>, ops: seq<Symbol>)
    requires |es| == |ops| + 1
    ensures ops == [] ==>
              Grouped(es, ops) == es[0] && GroupedTree(es, ops) == Abs(es[0]) && ChainTokens(es, ops) == Yield(es[0])
    ensures ops != [] ==>
              var k := Root(ops);
              && Grouped(es, ops) == Bin(ops[k], Grouped(es[..k + 1], ops[..k]), Grouped(es[k + 1..], ops[k + 1..]))
              && GroupedTree(es, ops)
                 == Binary(ops[k], GroupedTree(es[..k + 1], ops[..k]), GroupedTree(es[k + 1..], ops[k + 1..]))
  {
    hide Yield, Abs, Root;
  }

  /** A chain whose operators are no looser than `rung`. */
  ghost predicate ChainFrom(es: seq<Cst>, ops: seq<Symbol>, rung: nat) {
    IsChain(es, ops) && rung <= 12 && forall i :: 0 <= i < |ops| ==> Rung(ops[i]) >= rung
  }

  lemma ChainFacts(es: seq<Cst>, ops: seq<Symbol>, rung: nat)
    requires ChainFrom(es, ops, rung)
    ensures |es| == |ops| + 1 && rung <= 12 && Operand(es[0])
  {
    hide Operand;
  }

  lemma ChainParts(es: seq<Cst>, ops: seq<Symbol>, rung: nat)
    requires ChainFrom(es, ops, rung) && ops != []
    ensures var k := Root(ops);
            && rung <= Rung(ops[k]) < 12 && OnRung(ops[k], Rung(ops[k]))
            && ChainFrom(es[..k + 1], ops[..k], Rung(ops[k]) + 1) && ChainFrom(es[k + 1..], ops[k + 1..], Rung(ops[k]))
  {
    hide Operand, OnRung, RungFrom;
    RootIsLoosest(ops);
  }

  lemma {:induction false} GroupedIsWritten(es: seq<Cst>, ops: seq<Symbol>, rung: nat)
    requires ChainFrom(es, ops, rung)
    ensures Written(Grouped(es, ops), if rung < 2 then rung else rung + 1, ChainTokens(es, ops), GroupedTree(es, ops))
    decreases |ops|
  {
    hide Operand, OnRung, Rung, Written, Grouped, GroupedTree, ChainTokens, ChainFrom, IsChain, Yield, Abs;
    ChainFacts(es, ops, rung);
    GroupedSplits(es, ops);
    if ops == [] {
      OperandWritten(es[0], if rung < 2 then rung else rung + 1);
    } else {
      var k := Root(ops);
      var r := Rung(ops[k]);
      ChainParts(es, ops, rung);
      var l, m := Grouped(es[..k + 1], ops[..k]), Grouped(es[k + 1..], ops[k + 1..]);
      var ls, ms := ChainTokens(es[..k + 1], ops[..k]), ChainTokens(es[k + 1..], ops[k + 1..]);
      var tl, tm := GroupedTree(es[..k + 1], ops[..k]), GroupedTree(es[k + 1..], ops[k + 1..]);
      GroupedIsWritten(es[..k + 1], ops[..k], r + 1);
      GroupedIsWritten(es[k + 1..], ops[k + 1..], r);
      Lower(l, if r + 1 < 2 then r + 1 else r + 2, ls, tl, if r < 2 then r + 1 else r + 2);
      Infix(ops[k], r, l, ls, tl, m, ms, tm);
      ChainSplits(es, ops, k);
      Assoc(ls, [Sym(ops[k])], ms);
      Lower(Bin(ops[k], l, m), if r < 2 then r else r + 1, ChainTokens(es, ops), GroupedTree(es, ops),
            if rung < 2 then rung else rung + 1);
    }
  }

  /** Any number of operands and operators: the tree is split at the loosest
      operator, at the leftmost one where several are loosest, and both sides
      likewise. */
  lemma ChainsGroup(es: seq<Cst>, ops: seq<Symbol>, rest: seq<Token>)
    requires IsChain(es, ops) && EndsExpression(rest)
    ensures var o := Parse(0, ChainTokens(es, ops) + rest);
            o.Parsed? && o.rest == rest && Abs(o.c) == GroupedTree(es, ops)
  {
    GroupedIsWritten(es, ops, 0);
    hide *;
    Parses(Grouped(es, ops), 0, ChainTokens(es, ops), GroupedTree(es, ops), rest);
  }

  // ----- two binary operators -----

  /** `a p b q c`: to the right if `q` is as tight as `p` or tighter, and to the left otherwise. */
  lemma TwoOperators(a: string, p: Symbol, b: string, q: Symbol, c: string, i: nat, j: nat, rest: seq<Token>)
    requires OnRung(p, i) && OnRung(q, j) && EndsExpression(rest)
    ensures var o := Parse(0, [Ident(a), Sym(p), Ident(b), Sym(q), Ident(c)] + rest);
            && o.Parsed? && o.rest == rest
            && Abs(o.c) == if j >= i then Binary(p, Name(a), Binary(q, Name(b), Name(c)))
                           else Binary(q, Binary(p, Name(a), Name(b)), Name(c))
  {
    hide *;
    var toks := [Ident(a), Sym(p), Ident(b), Sym(q), Ident(c)];
    Levels(p, i);
    Levels(q, j);
    if j >= i {
      OneName(a, if i < 2 then i + 1 else i + 2);
      Two(b, q, c, j, if i < 2 then i else i + 1);
      Infix(p, i, Id(a), [Ident(a)], Name(a),
            Bin(q, Id(b), Id(c)), [Ident(b), Sym(q), Ident(c)], Binary(q, Name(b), Name(c)));
      assert [Ident(a)] + [Sym(p)] + [Ident(b), Sym(q), Ident(c)] == toks;
      Parses(Bin(p, Id(a), Bin(q, Id(b), Id(c))), if i < 2 then i else i + 1, toks,
             Binary(p, Name(a), Binary(q, Name(b), Name(c))), rest);
    } else {
      Two(a, p, b, i, if j < 2 then j + 1 else j + 2);
      OneName(c, if j < 2 then j else j + 1);
      Infix(q, j, Bin(p, Id(a), Id(b)), [Ident(a), Sym(p), Ident(b)], Binary(p, Name(a), Name(b)), Id(c), [Ident(c)], Name(c));
      assert [Ident(a), Sym(p), Ident(b)] + [Sym(q)] + [Ident(c)] == toks;
      Parses(Bin(q, Bin(p, Id(a), Id(b)), Id(c)), if j < 2 then j else j + 1, toks,
             Binary(q, Binary(p, Name(a), Name(b)), Name(c)), rest);
    }
  }

  // ----- the conditional operator -----

  lemma Choice(a: string, b: string, c: string, level: nat)
    requires level <= 2
    ensures Written(Cond(Id(a), Id(b), Id(c)), level, [Ident(a), Sym(Question), Ident(b), Sym(Colon), Ident(c)],
                    Ternary(Name(a), Name(b), Name(c)))
  {
    hide *;
    OneName(a, 3);
    OneName(b, 2);
    OneName(c, 2);
    Conditional(Id(a), [Ident(a)], Name(a), Id(b), [Ident(b)], Name(b), Id(c), [Ident(c)], Name(c));
    assert [Ident(a)] + [Sym(Question)] + [Ident(b)] + [Sym(Colon)] + [Ident(c)]
        == [Ident(a), Sym(Question), Ident(b), Sym(Colon), Ident(c)];
    Lower(Cond(Id(a), Id(b), Id(c)), 2, [Ident(a), Sym(Question), Ident(b), Sym(Colon), Ident(c)],
          Ternary(Name(a), Name(b), Name(c)), level);
  }

  /** `a p b ? c : d`: the operator belongs to the condition, unless it is a comma or an assignment. */
  lemma BeforeQuestion(a: string, p: Symbol, b: string, c: string, d: string, i: nat, rest: seq<Token>)
    requires OnRung(p, i) && EndsExpression(rest)
    ensures var o := Parse(0, [Ident(a), Sym(p), Ident(b), Sym(Question), Ident(c), Sym(Colon), Ident(d)] + rest);
            && o.Parsed? && o.rest == rest
            && Abs(o.c) == if i >= 2 then Ternary(Binary(p, Name(a), Name(b)), Name(c), Name(d))
                           else Binary(p, Name(a), Ternary(Name(b), Name(c), Name(d)))
  {
    hide *;
    var toks := [Ident(a), Sym(p), Ident(b), Sym(Question), Ident(c), Sym(Colon), Ident(d)];
    if i >= 2 {
      var whole, first := Cond(Bin(p, Id(a), Id(b)), Id(c), Id(d)), [Ident(a), Sym(p), Ident(b)];
      Two(a, p, b, i, 3);
      OneName(c, 2);
      OneName(d, 2);
      Conditional(Bin(p, Id(a), Id(b)), first, Binary(p, Name(a), Name(b)), Id(c), [Ident(c)], Name(c), Id(d), [Ident(d)], Name(d));
      assert first + [Sym(Question)] + [Ident(c)] + [Sym(Colon)] + [Ident(d)] == toks;
      Parses(whole, 2, toks, Ternary(Binary(p, Name(a), Name(b)), Name(c), Name(d)), rest);
    } else {
      var inner, last := Cond(Id(b), Id(c), Id(d)), [Ident(b), Sym(Question), Ident(c), Sym(Colon), Ident(d)];
      OneName(a, i + 1);
      Choice(b, c, d, i);
      Infix(p, i, Id(a), [Ident(a)], Name(a), inner, last, Ternary(Name(b), Name(c), Name(d)));
      assert [Ident(a)] + [Sym(p)] + last == toks;
      Parses(Bin(p, Id(a), inner), i, toks, Binary(p, Name(a), Ternary(Name(b), Name(c), Name(d))), rest);
    }
  }

  /** `a ? b : c p d`: likewise, behind the colon. */
  lemma AfterColon(a: string, b: string, c: string, p: Symbol, d: string, i: nat, rest: seq<Token>)
    requires OnRung(p, i) && EndsExpression(rest)
    ensures var o := Parse(0, [Ident(a), Sym(Question), Ident(b), Sym(Colon), Ident(c), Sym(p), Ident(d)] + rest);
            && o.Parsed? && o.rest == rest
            && Abs(o.c) == if i >= 2 then Ternary(Name(a), Name(b), Binary(p, Name(c), Name(d)))
                           else Binary(p, Ternary(Name(a), Name(b), Name(c)), Name(d))
  {
    hide *;
    var toks := [Ident(a), Sym(Question), Ident(b), Sym(Colon), Ident(c), Sym(p), Ident(d)];
    if i >= 2 {
      var whole, last := Cond(Id(a), Id(b), Bin(p, Id(c), Id(d))), [Ident(c), Sym(p), Ident(d)];
      OneName(a, 3);
      OneName(b, 2);
      Two(c, p, d, i, 2);
      Conditional(Id(a), [Ident(a)], Name(a), Id(b), [Ident(b)], Name(b), Bin(p, Id(c), Id(d)), last, Binary(p, Name(c), Name(d)));
      assert [Ident(a)] + [Sym(Question)] + [Ident(b)] + [Sym(Colon)] + last == toks;
      Parses(whole, 2, toks, Ternary(Name(a), Name(b), Binary(p, Name(c), Name(d))), rest);
    } else {
      var inner, first := Cond(Id(a), Id(b), Id(c)), [Ident(a), Sym(Question), Ident(b), Sym(Colon), Ident(c)];
      Choice(a, b, c, i + 1);
      OneName(d, i);
      Infix(p, i, inner, first, Ternary(Name(a), Name(b), Name(c)), Id(d), [Ident(d)], Name(d));
      assert first + [Sym(p)] + [Ident(d)] == toks;
      Parses(Bin(p, inner, Id(d)), i, toks, Binary(p, Ternary(Name(a), Name(b), Name(c)), Name(d)), rest);
    }
  }

  /** Between `?` and `:` the code takes no comma and no assignment, where C takes any expression. */
  lemma ConditionalMiddle(a: string, b: string, p: Symbol, c: string, d: string, i: nat, rest: seq<Token>)
    requires OnRung(p, i) && EndsExpression(rest)
    ensures var o := Parse(0, [Ident(a), Sym(Question), Ident(b), Sym(p), Ident(c), Sym(Colon), Ident(d)] + rest);
            && (o.Parsed? <==> i >= 2)
            && (o.Parsed? ==> o.rest == rest && Abs(o.c) == Ternary(Name(a), Binary(p, Name(b), Name(c)), Name(d)))
  {
    hide *;
    var toks := [Ident(a), Sym(Question), Ident(b), Sym(p), Ident(c), Sym(Colon), Ident(d)];
    if i >= 2 {
      var middle := [Ident(b), Sym(p), Ident(c)];
      OneName(a, 3);
      Two(b, p, c, i, 2);
      OneName(d, 2);
      Conditional(Id(a), [Ident(a)], Name(a), Bin(p, Id(b), Id(c)), middle, Binary(p, Name(b), Name(c)), Id(d), [Ident(d)], Name(d));
      assert [Ident(a)] + [Sym(Question)] + middle + [Sym(Colon)] + [Ident(d)] == toks;
      Parses(Cond(Id(a), Bin(p, Id(b), Id(c)), Id(d)), 2, toks, Ternary(Name(a), Binary(p, Name(b), Name(c)), Name(d)), rest);
    } else {
      Levels(p, i);
      MiddleFails(a, b, p, [Ident(c), Sym(Colon), Ident(d)] + rest);
      assert toks + rest == [Ident(a), Sym(Question), Ident(b), Sym(p)] + ([Ident(c), Sym(Colon), Ident(d)] + rest);
    }
  }

  lemma NameAlone(level: nat, a: string, rest: seq<Token>)
    requires level <= 13 && Quiet(level, First(rest)) && EndsAll(First(rest))
    ensures Parse(level, [Ident(a)] + rest) == Parsed(Id(a), rest)
  {
    hide Parse;
    assert Yield(Id(a)) == [Ident(a)];
    ParseComplete(level, Id(a), rest);
  }

  lemma MiddleFails(a: string, b: string, p: Symbol, more: seq<Token>)
    requires OpLevel(p) == 0 || OpLevel(p) == 1
    ensures Parse(0, [Ident(a), Sym(Question), Ident(b), Sym(p)] + more).Failed?
  {
    hide Parse;
    var inner, toks := [Sym(p)] + more, [Ident(a), Sym(Question), Ident(b), Sym(p)] + more;
    var behind := [Sym(Question)] + ([Ident(b)] + inner);
    assert toks == [Ident(a)] + behind && behind[1..] == [Ident(b)] + inner;
    assert p != LParen && p != Colon && EndsAll(Sym(p));
    NameAlone(3, a, behind);
    NameAlone(2, b, inner);
    assert ParseBranches(Id(a), behind).Failed?;
    FailsAtTwo(toks);
  }

  lemma FailsAtTwo(toks: seq<Token>)
    requires Parse(3, toks).Parsed? && ParseBranches(Parse(3, toks).c, Parse(3, toks).rest).Failed?
    ensures Parse(0, toks).Failed?
  {
    hide ParseBranches;
    assert Parse(2, toks).Failed?;
    assert Parse(1, toks).Failed?;
  }

  // ----- prefix and postfix operators -----

  predicate IsPrefix(u: Symbol) {
    BeforeCasts(u) || BeforeUnary(u)
  }

  /** `u a p b` and `a p u b`: prefix operators are tighter than every binary operator, on either side. */
  lemma PrefixBeforeBinary(u: Symbol, a: string, p: Symbol, b: string, i: nat, rest: seq<Token>)
    requires IsPrefix(u) && OnRung(p, i) && EndsExpression(rest)
    ensures var o := Parse(0, [Sym(u), Ident(a), Sym(p), Ident(b)] + rest);
            o.Parsed? && o.rest == rest && Abs(o.c) == Binary(p, Unary(u, Name(a)), Name(b))
    ensures var o := Parse(0, [Ident(a), Sym(p), Sym(u), Ident(b)] + rest);
            o.Parsed? && o.rest == rest && Abs(o.c) == Binary(p, Name(a), Unary(u, Name(b)))
  {
    hide *;
    var low, high := if i < 2 then i else i + 1, if i < 2 then i + 1 else i + 2;
    Levels(p, i);
    OneName(a, 13);
    OneName(b, 13);
    Prefix(u, Id(a), [Ident(a)], Name(a));
    Prefix(u, Id(b), [Ident(b)], Name(b));
    OneName(a, high);
    OneName(b, low);
    Lower(Pre(u, Id(a)), 13, [Sym(u)] + [Ident(a)], Unary(u, Name(a)), high);
    Lower(Pre(u, Id(b)), 13, [Sym(u)] + [Ident(b)], Unary(u, Name(b)), low);
    Infix(p, i, Pre(u, Id(a)), [Sym(u)] + [Ident(a)], Unary(u, Name(a)), Id(b), [Ident(b)], Name(b));
    Infix(p, i, Id(a), [Ident(a)], Name(a), Pre(u, Id(b)), [Sym(u)] + [Ident(b)], Unary(u, Name(b)));
    var first, second := [Sym(u), Ident(a), Sym(p), Ident(b)], [Ident(a), Sym(p), Sym(u), Ident(b)];
    assert [Sym(u)] + [Ident(a)] + [Sym(p)] + [Ident(b)] == first;
    assert [Ident(a)] + [Sym(p)] + ([Sym(u)] + [Ident(b)]) == second;
    Parses(Bin(p, Pre(u, Id(a)), Id(b)), low, first, Binary(p, Unary(u, Name(a)), Name(b)), rest);
    Parses(Bin(p, Id(a), Pre(u, Id(b))), low, second, Binary(p, Name(a), Unary(u, Name(b))), rest);
  }

  /** `u a [ b ]`, `u a ++`: postfix operators are tighter than prefix operators. */
  lemma PostfixBeforePrefix(u: Symbol, a: string, b: string, op: Symbol, rest: seq<Token>)
    requires IsPrefix(u) && (op == Inc || op == Dec) && EndsExpression(rest)
    ensures var o := Parse(0, [Sym(u), Ident(a), Sym(LBracket), Ident(b), Sym(RBracket)] + rest);
            o.Parsed? && o.rest == rest && Abs(o.c) == Unary(u, Subscript(Name(a), Name(b)))
    ensures var o := Parse(0, [Sym(u), Ident(a), Sym(op)] + rest);
            o.Parsed? && o.rest == rest && Abs(o.c) == Unary(u, PostUnary(op, Name(a)))
  {
    hide *;
    var first, second := [Sym(u), Ident(a), Sym(LBracket), Ident(b), Sym(RBracket)], [Sym(u), Ident(a), Sym(op)];
    Element(a, b);
    Postfix(a, op);
    Prefix(u, Index(Id(a), Id(b)), [Ident(a), Sym(LBracket), Ident(b), Sym(RBracket)], Subscript(Name(a), Name(b)));
    Prefix(u, Post(Id(a), op), [Ident(a), Sym(op)], PostUnary(op, Name(a)));
    assert [Sym(u)] + [Ident(a), Sym(LBracket), Ident(b), Sym(RBracket)] == first && [Sym(u)] + [Ident(a), Sym(op)] == second;
    Parses(Pre(u, Index(Id(a), Id(b))), 13, first, Unary(u, Subscript(Name(a), Name(b))), rest);
    Parses(Pre(u, Post(Id(a), op)), 13, second, Unary(u, PostUnary(op, Name(a))), rest);
  }

  /** Only `-`, `*`, `~`, `!` and `&` take a cast, in the spelling the code knows. */
  lemma CastOperands(u: Symbol, name: string, n: nat, a: string, rest: seq<Token>)
    requires IsPrefix(u) && EndsExpression(rest)
    ensures var o := Parse(0, [Sym(u)] + CastSpelling(name, n, a) + rest);
            && (o.Parsed? <==> BeforeCasts(u))
            && (o.Parsed? ==> o.rest == rest && Abs(o.c) == Unary(u, CastTo(name, n, Name(a))))
  {
    hide *;
    if BeforeCasts(u) {
      CastPrefix(u, name, n, a);
      Parses(Pre(u, Cast(name, n, Id(a))), 13, [Sym(u)] + CastSpelling(name, n, a), Unary(u, CastTo(name, n, Name(a))), rest);
    } else {
      CastBegins(name, n, a);
      var more := CastSpelling(name, n, a)[1..] + rest;
      assert [Sym(u)] + CastSpelling(name, n, a) + rest == [Sym(u), Sym(RParen)] + more;
      CastRefused(u, more);
    }
  }

  lemma CastBegins(name: string, n: nat, a: string)
    ensures |CastSpelling(name, n, a)| > 1 && CastSpelling(name, n, a)[0] == Sym(RParen)
  {
  }

  lemma NoPrefix()
    ensures !IsPrefix(RParen)
  {
  }

  lemma CastRefused(u: Symbol, more: seq<Token>)
    requires IsPrefix(u) && !BeforeCasts(u)
    ensures Parse(0, [Sym(u), Sym(RParen)] + more).Failed?
  {
    hide Parse, TakesCast, TakesUnary, BeforeCasts, BeforeUnary;
    Prefixes(u);
    var toks := [Sym(u), Sym(RParen)] + more;
    assert toks[1..] == [Sym(RParen)] + more;
    NoPrefix();
    NothingBegins(RParen, more);
    assert ParseUnary(toks).Failed?;
    FailsBelow(0, toks);
  }

  // ----- operands -----

  function Names(xs: seq<string>): seq<Tree> {
    if xs == [] then [] else [Name(xs[0])] + Names(xs[1..])
  }

  /** `x0 , x1 , ... xn`. */
  function Separated(xs: seq<string>): seq<Token> {
    if xs == [] then []
    else if |xs| == 1 then [Ident(xs[0])]
    else [Ident(xs[0]), Sym(Comma)] + Separated(xs[1..])
  }

  function Ids(xs: seq<string>): seq<Cst> {
    seq(|xs|, i requires 0 <= i < |xs| => Id(xs[i]))
  }

  lemma {:induction false} NamesAreIds(xs: seq<string>)
    ensures Commas(Ids(xs)) == Separated(xs) && AbsAll(Ids(xs)) == Names(xs)
  {
    if xs != [] {
      NamesAreIds(xs[1..]);
      assert Ids(xs)[1..] == Ids(xs[1..]) && Ids(xs)[0] == Id(xs[0]);
      assert Yield(Id(xs[0])) == [Ident(xs[0])] && Abs(Id(xs[0])) == Name(xs[0]);
      if |xs| > 1 {
        assert [Ident(xs[0])] + ([Sym(Comma)] + Separated(xs[1..])) == [Ident(xs[0]), Sym(Comma)] + Separated(xs[1..]);
      }
    }
  }

  /** `f ( x0 , ... xn )`, for any number of arguments: a call of `f` with these, in this order. */
  lemma CallArguments(f: string, xs: seq<string>, rest: seq<Token>)
    requires EndsExpression(rest)
    ensures var o := Parse(0, [Ident(f), Sym(LParen)] + Separated(xs) + [Sym(RParen)] + rest);
            o.Parsed? && o.rest == rest && Abs(o.c) == Call(f, Names(xs))
  {
    hide Parse, EndsExpression, Commas, AbsAll, Separated, Names;
    var c, toks := Apply(f, Ids(xs)), [Ident(f), Sym(LParen)] + Separated(xs) + [Sym(RParen)];
    NamesAreIds(xs);
    assert forall i :: 0 <= i < |xs| ==> Good(Id(xs[i])) && Level(Id(xs[i])) >= 1;
    assert Yield(c) == [Ident(f), Sym(LParen)] + (Separated(xs) + [Sym(RParen)]) == toks;
    Parses(c, 0, toks, Call(f, Names(xs)), rest);
  }

  /** `( a p b ) q c` and `a p ( b q c )`: parentheses group, whatever the operators, and leave no node. */
  lemma Parentheses(a: string, p: Symbol, b: string, q: Symbol, c: string, i: nat, j: nat, rest: seq<Token>)
    requires OnRung(p, i) && OnRung(q, j) && EndsExpression(rest)
    ensures var o := Parse(0, [Sym(LParen), Ident(a), Sym(p), Ident(b), Sym(RParen), Sym(q), Ident(c)] + rest);
            o.Parsed? && o.rest == rest && Abs(o.c) == Binary(q, Binary(p, Name(a), Name(b)), Name(c))
    ensures var o := Parse(0, [Ident(a), Sym(p), Sym(LParen), Ident(b), Sym(q), Ident(c), Sym(RParen)] + rest);
            o.Parsed? && o.rest == rest && Abs(o.c) == Binary(p, Name(a), Binary(q, Name(b), Name(c)))
  {
    hide *;
    var left, right := Paren(Bin(p, Id(a), Id(b))), Paren(Bin(q, Id(b), Id(c)));
    var first := [Sym(LParen), Ident(a), Sym(p), Ident(b), Sym(RParen), Sym(q), Ident(c)];
    var second := [Ident(a), Sym(p), Sym(LParen), Ident(b), Sym(q), Ident(c), Sym(RParen)];
    var li, lj := if i < 2 then i else i + 1, if j < 2 then j else j + 1;
    Levels(p, i);
    Levels(q, j);
    Two(a, p, b, i, 0);
    Two(b, q, c, j, 0);
    Enclosed(Bin(p, Id(a), Id(b)), [Ident(a), Sym(p), Ident(b)], Binary(p, Name(a), Name(b)), lj + 1);
    Enclosed(Bin(q, Id(b), Id(c)), [Ident(b), Sym(q), Ident(c)], Binary(q, Name(b), Name(c)), li);
    OneName(c, lj);
    OneName(a, li + 1);
    Infix(q, j, left, [Sym(LParen)] + [Ident(a), Sym(p), Ident(b)] + [Sym(RParen)], Binary(p, Name(a), Name(b)),
          Id(c), [Ident(c)], Name(c));
    Infix(p, i, Id(a), [Ident(a)], Name(a),
          right, [Sym(LParen)] + [Ident(b), Sym(q), Ident(c)] + [Sym(RParen)], Binary(q, Name(b), Name(c)));
    assert [Sym(LParen)] + [Ident(a), Sym(p), Ident(b)] + [Sym(RParen)] + [Sym(q)] + [Ident(c)] == first;
    assert [Ident(a)] + [Sym(p)] + ([Sym(LParen)] + [Ident(b), Sym(q), Ident(c)] + [Sym(RParen)]) == second;
    Parses(Bin(q, left, Id(c)), lj, first, Binary(q, Binary(p, Name(a), Name(b)), Name(c)), rest);
    Parses(Bin(p, Id(a), right), li, second, Binary(p, Name(a), Binary(q, Name(b), Name(c))), rest);
  }

  lemma Enclosed(c: Cst, toks: seq<Token>, t: Tree, level: nat)
    requires Written(c, 0, toks, t) && level <= 15
    ensures Written(Paren(c), level, [Sym(LParen)] + toks + [Sym(RParen)], t)
  {
    hide OpLevel;
    assert [Sym(LParen)] + toks + [Sym(RParen)] == [Sym(LParen)] + (toks + [Sym(RParen)]);
  }

  // ----- all other symbols -----

  lemma NothingBegins(s: Symbol, rest: seq<Token>)
    requires !IsPrefix(s) && s != LParen
    ensures ParseUnary([Sym(s)] + rest).Failed?
  {
    hide TakesCast, TakesUnary, BeforeCasts, BeforeUnary;
    Prefixes(s);
    assert ParsePrimary([Sym(s)] + rest).Failed?;
  }

  /** No expression begins with a symbol other than a prefix operator or `(`. */
  lemma NoOtherStart(s: Symbol, rest: seq<Token>)
    requires !IsPrefix(s) && s != LParen
    ensures Parse(0, [Sym(s)] + rest).Failed?
  {
    hide *;
    NothingBegins(s, rest);
    FailsAtZero([Sym(s)] + rest);
  }

  lemma FailsAtZero(toks: seq<Token>)
    requires ParseUnary(toks).Failed?
    ensures Parse(0, toks).Failed?
  {
    hide Parse, ParseUnary;
    FailsBelow(0, toks);
  }

  /** A symbol of no rung ends an expression, unless it is `?` or opens a call or a postfix chain. */
  lemma NoOtherOperator(a: string, s: Symbol, rest: seq<Token>)
    requires forall i :: !OnRung(s, i)
    requires s != Question && s != LParen && s != LBracket && s != Dot && s != Arrow && s != Inc && s != Dec
    ensures Parse(0, [Ident(a), Sym(s)] + rest) == Parsed(Id(a), [Sym(s)] + rest)
  {
    hide Parse, OnRung, OpLevel;
    OffTheLadder(s);
    assert Yield(Id(a)) + ([Sym(s)] + rest) == [Ident(a), Sym(s)] + rest;
    ParseComplete(0, Id(a), [Sym(s)] + rest);
  }

  // ----- postfix chains, strings, literals -----

  /** `[ x ]`; `. t m` or `-> t m`, where the code takes one token more than it
      shows; `++` or `--`. */
  datatype Link = At(x: string) | Field(op: Symbol, t: Token, m: string) | Bump(op: Symbol)

  predicate IsLink(k: Link) {
    match k
    case At(_) => true
    case Field(op, _, _) => op == Dot || op == Arrow
    case Bump(op) => op == Inc || op == Dec
  }

  predicate SameKind(k: Link, k': Link) {
    k.At? == k'.At? && k.Field? == k'.Field?
  }

  /** Any number of links of one kind. */
  ghost predicate IsPostfix(links: seq<Link>) {
    forall i :: 0 <= i < |links| ==> IsLink(links[i]) && SameKind(links[i], links[0])
  }

  function LinkTokens(k: Link): seq<Token> {
    match k
    case At(x) => [Sym(LBracket), Ident(x), Sym(RBracket)]
    case Field(op, t, m) => [Sym(op), t, Ident(m)]
    case Bump(op) => [Sym(op)]
  }

  /** A member is reached through a pointer if the token in between is `->`. */
  function LinkTree(k: Link, base: Tree): Tree {
    match k
    case At(x) => Subscript(base, Name(x))
    case Field(_, t, m) => Member(t == Sym(Arrow), m, base)
    case Bump(op) => PostUnary(op, base)
  }

  function PostfixTokens(a: string, links: seq<Link>): seq<Token>
    decreases |links|
  {
    if links == [] then [Ident(a)]
    else PostfixTokens(a, links[..|links| - 1]) + LinkTokens(links[|links| - 1])
  }

  /** The last link is the outermost. */
  function PostfixTree(a: string, links: seq<Link>): Tree
    decreases |links|
  {
    if links == [] then Name(a)
    else LinkTree(links[|links| - 1], PostfixTree(a, links[..|links| - 1]))
  }

  function Linked(k: Link, base: Cst): Cst {
    match k
    case At(x) => Index(base, Id(x))
    case Field(op, t, m) => Dotted(base, op, t, m)
    case Bump(op) => Post(base, op)
  }

  function PostfixCst(a: string, links: seq<Link>): Cst
    decreases |links|
  {
    if links == [] then Id(a) else Linked(links[|links| - 1], PostfixCst(a, links[..|links| - 1]))
  }

  /** Nothing or a link of the same kind is inside. */
  predicate LinksOnto(k: Link, base: Cst) {
    base.Id? || (k.At? && base.Index?) || (k.Field? && base.Dotted?) || (k.Bump? && base.Post?)
  }

  lemma LinkWritten(k: Link, base: Cst, toks: seq<Token>, t: Tree)
    requires IsLink(k) && LinksOnto(k, base) && Written(base, 13, toks, t)
    ensures Written(Linked(k, base), 13, toks + LinkTokens(k), LinkTree(k, t))
  {
    match k
    case At(x) =>
      assert Yield(Index(base, Id(x))) == toks + ([Sym(LBracket)] + ([Ident(x)] + [Sym(RBracket)]));
      assert [Sym(LBracket)] + ([Ident(x)] + [Sym(RBracket)]) == LinkTokens(k);
    case Field(_, _, _) =>
    case Bump(_) =>
  }

  lemma {:induction false} PostfixWritten(a: string, links: seq<Link>)
    requires IsPostfix(links)
    ensures Written(PostfixCst(a, links), 13, PostfixTokens(a, links), PostfixTree(a, links))
    ensures if links == [] then PostfixCst(a, links) == Id(a) else LinksOnto(links[0], PostfixCst(a, links))
    decreases |links|
  {
    hide Written, Good, Level, Yield, Abs;
    if links == [] {
      OneName(a, 13);
    } else {
      var last, before := links[|links| - 1], links[..|links| - 1];
      PostfixWritten(a, before);
      assert before != [] ==> before[0] == links[0];
      LinkWritten(last, PostfixCst(a, before), PostfixTokens(a, before), PostfixTree(a, before));
    }
  }

  /** `a [ x ] [ y ] ...`, `a . x . y ...`, `a ++ -- ...`, of any length: each link is about all that is left of it. */
  lemma PostfixChain(a: string, links: seq<Link>, rest: seq<Token>)
    requires IsPostfix(links) && EndsExpression(rest)
    ensures var o := Parse(0, PostfixTokens(a, links) + rest);
            o.Parsed? && o.rest == rest && Abs(o.c) == PostfixTree(a, links)
  {
    hide Written, Parse, IsPostfix, EndsExpression, PostfixTokens, PostfixTree, PostfixCst;
    PostfixWritten(a, links);
    Parses(PostfixCst(a, links), 13, PostfixTokens(a, links), PostfixTree(a, links), rest);
  }

  lemma LinkStops(k: Link, base: Cst, next: Link, rest: seq<Token>)
    requires IsLink(k) && IsLink(next) && !SameKind(k, next) && LinksOnto(k, base) && !base.Id?
    ensures Stops(base, First(LinkTokens(next) + rest)) && Quiet(0, First(LinkTokens(next) + rest))
  {
    var t := First(LinkTokens(next) + rest);
    assert t == LinkTokens(next)[0];
  }

  /** Behind them, a link of another kind is not taken: `a [ x ] ++` ends in front of the `++`. */
  lemma PostfixUnmixed(a: string, links: seq<Link>, next: Link, rest: seq<Token>)
    requires IsPostfix(links) && links != [] && IsLink(next) && !SameKind(links[0], next)
    ensures var o := Parse(0, PostfixTokens(a, links) + (LinkTokens(next) + rest));
            o.Parsed? && o.rest == LinkTokens(next) + rest && Abs(o.c) == PostfixTree(a, links)
  {
    hide Parse, Good, Level, Stops, Quiet, Yield, Abs, PostfixTokens, PostfixTree, PostfixCst, LinkTokens;
    PostfixWritten(a, links);
    NotAName(a, links);
    LinkStops(links[0], PostfixCst(a, links), next, rest);
    ParseComplete(0, PostfixCst(a, links), LinkTokens(next) + rest);
  }

  lemma NotAName(a: string, links: seq<Link>)
    requires links != []
    ensures !PostfixCst(a, links).Id?
  {
  }

  /** A literal is its token's kind and text. */
  lemma Literals(kind: LitKind, text: string, rest: seq<Token>)
    requires EndsExpression(rest)
    ensures var o := Parse(0, [Lit(kind, text)] + rest);
            o.Parsed? && o.rest == rest && Abs(o.c) == Literal(kind, text)
    ensures var o := Parse(0, [Str(text)] + rest); o.Parsed? && o.rest == rest && Abs(o.c) == Text(text)
  {
    hide Parse, EndsExpression;
    Parses(Const(kind, text), 13, [Lit(kind, text)], Literal(kind, text), rest);
    assert Pieces([text]) == [Str(text)] && Joined([text]) == text + Joined([]);
    Parses(Strings([text]), 13, [Str(text)], Text(text), rest);
  }

  lemma StringsParse(parts: seq<string>, rest: seq<Token>)
    requires parts != [] && EndsExpression(rest)
    ensures var o := Parse(0, Pieces(parts) + rest); o.Parsed? && o.rest == rest && Abs(o.c) == Text(Joined(parts))
  {
    hide Parse, EndsExpression;
    Parses(Strings(parts), 13, Pieces(parts), Text(Joined(parts)), rest);
  }

  /** Strings next to each other are one: each further string is added at the end. */
  lemma StringsJoin(parts: seq<string>, last: string, rest: seq<Token>)
    requires parts != [] && EndsExpression(rest)
    ensures var strs := seq(|parts|, i requires 0 <= i < |parts| => Str(parts[i]));
            var o, o' := Parse(0, strs + rest), Parse(0, (strs + [Str(last)]) + rest);
            && o.Parsed? && o'.Parsed? && o.rest == rest && o'.rest == rest
            && Abs(o.c).Text? && Abs(o'.c) == Text(Abs(o.c).text + last)
  {
    hide Parse, EndsExpression, Abs, Joined;
    var strs := seq(|parts|, i requires 0 <= i < |parts| => Str(parts[i]));
    assert Pieces(parts) == strs && Pieces(parts + [last]) == strs + [Str(last)];
    StringsParse(parts, rest);
    StringsParse(parts + [last], rest);
    JoinedSnoc(parts, last);
  }

  lemma {:induction false} JoinedSnoc(parts: seq<string>, last: string)
    ensures Joined(parts + [last]) == Joined(parts) + last
  {
    if parts == [] {
      assert Joined([last]) == last + Joined([]);
    } else {
      JoinedSnoc(parts[1..], last);
      assert (parts + [last])[1..] == parts[1..] + [last];
    }
  }
}
