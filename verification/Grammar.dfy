/** The expression grammar that the parser's fourteen levels implement
    (hzcc/parser/syntax/parser/statement_parser.cc:103-668): every binary level
    is right-recursive, a subscript, member or increment chain cannot be mixed
    with another, a member access takes one token more than it shows, and a
    cast is written `) type )`. */
module Grammar {
  import opened Tokens

  /** The trees the parser returns. Which side an increment was written on is
      told in the source by the node's location. */
  datatype Tree =
    | Binary(op: Symbol, l: Tree, r: Tree)
    | Ternary(c: Tree, t: Tree, e: Tree)
    | Unary(op: Symbol, e: Tree)
    | PostUnary(op: Symbol, e: Tree)
    | CastTo(name: string, stars: nat, e: Tree)
    | Subscript(base: Tree, index: Tree)
    | Member(isPtr: bool, name: string, base: Tree)
    | Call(f: string, args: seq<Tree>)
    | Name(x: string)
    | Literal(kind: LitKind, text: string)
    | Text(text: string)

  /** Derivations: trees with their parentheses and string pieces. */
  datatype Cst =
    | Bin(op: Symbol, l: Cst, r: Cst)
    | Cond(c: Cst, t: Cst, e: Cst)
    | Pre(op: Symbol, e: Cst)
    | Cast(name: string, stars: nat, e: Cst)
    | Index(base: Cst, index: Cst)
    | Dotted(base: Cst, op: Symbol, skipped: Token, name: string)
    | Post(base: Cst, op: Symbol)
    | Paren(e: Cst)
    | Apply(f: string, args: seq<Cst>)
    | Id(x: string)
    | Const(kind: LitKind, text: string)
    | Strings(parts: seq<string>)

  // ----- levels -----

  const UNARY := 13
  const POSTFIX := 14
  const PRIMARY := 15

  /** The level of a binary operator, -1 for other symbols. */
  function OpLevel(s: Symbol): int {
    match s
    case Comma => 0
    case Assign => 1 case AddAssign => 1 case SubAssign => 1 case MulAssign => 1 case DivAssign => 1
    case ModAssign => 1 case LShiftAssign => 1 case RShiftAssign => 1
    case AndAssign => 1 case XorAssign => 1 case OrAssign => 1
    case LogicalOr => 3
    case LogicalAnd => 4
    case BitOr => 5
    case BitXor => 6
    case BitAnd => 7
    case EQ => 8 case NE => 8
    case Less => 9 case Greater => 9 case LE => 9 case GE => 9
    case LShift => 10 case RShift => 10
    case Add => 11 case Sub => 11
    case Mul => 12 case Div => 12 case Mod => 12
    case _ => -1
  }

  /** Operators in front of a cast expression: `-`, `*`, `~`, `!`, `&`. */
  predicate TakesCast(s: Symbol) {
    s == Sub || s == Mul || s == BitNot || s == LogicalNot || s == BitAnd
  }

  /** Operators in front of a unary expression. */
  predicate TakesUnary(s: Symbol) {
    s == Sizeof || s == Inc || s == Dec
  }

  function Level(c: Cst): int {
    match c
    case Bin(op, _, _) => OpLevel(op)
    case Cond(_, _, _) => 2
    case Pre(_, _) => UNARY
    case Cast(_, _, _) => -1
    case Index(_, _) => POSTFIX
    case Dotted(_, _, _, _) => POSTFIX
    case Post(_, _) => POSTFIX
    case _ => PRIMARY
  }

  predicate IsPrimary(c: Cst) {
    Level(c) == PRIMARY
  }

  /** A well-formed operand of a prefix operator. */
  predicate IsCastOperand(c: Cst) {
    c.Cast? || Level(c) >= UNARY
  }

  /** The grammar. */
  predicate Good(c: Cst) {
    match c
    case Bin(op, l, r) => OpLevel(op) >= 0 && Good(l) && Level(l) > OpLevel(op) && Good(r) && Level(r) >= OpLevel(op)
    case Cond(c0, t, e) => Good(c0) && Level(c0) >= 3 && Good(t) && Level(t) >= 2 && Good(e) && Level(e) >= 2
    case Pre(op, e) =>
      Good(e) && ((TakesCast(op) && IsCastOperand(e)) || (TakesUnary(op) && Level(e) >= UNARY))
    case Cast(_, _, e) => Good(e) && IsCastOperand(e)
    case Index(b, i) => Good(b) && (IsPrimary(b) || b.Index?) && Good(i) && Level(i) >= 0
    case Dotted(b, op, _, _) => Good(b) && (IsPrimary(b) || b.Dotted?) && (op == Dot || op == Arrow)
    case Post(b, op) => Good(b) && (IsPrimary(b) || b.Post?) && (op == Inc || op == Dec)
    case Paren(e) => Good(e) && Level(e) >= 0
    case Apply(_, args) => forall i :: 0 <= i < |args| ==> Good(args[i]) && Level(args[i]) >= 1
    case Id(_) => true
    case Const(_, _) => true
    case Strings(parts) => parts != []
  }

  // ----- the tokens of a derivation -----

  function Stars(n: nat): seq<Token> {
    seq(n, i => Sym(Mul))
  }

  function Pieces(parts: seq<string>): seq<Token> {
    seq(|parts|, i requires 0 <= i < |parts| => Str(parts[i]))
  }

  function Yield(c: Cst): seq<Token>
    decreases c
  {
    match c
    case Bin(op, l, r) => Yield(l) + ([Sym(op)] + Yield(r))
    case Cond(c0, t, e) => Yield(c0) + ([Sym(Question)] + (Yield(t) + ([Sym(Colon)] + Yield(e))))
    case Pre(op, e) => [Sym(op)] + Yield(e)
    case Cast(name, n, e) => [Sym(RParen), Type(name)] + (Stars(n) + ([Sym(RParen)] + Yield(e)))
    case Index(b, i) => Yield(b) + ([Sym(LBracket)] + (Yield(i) + [Sym(RBracket)]))
    case Dotted(b, op, skipped, name) => Yield(b) + [Sym(op), skipped, Ident(name)]
    case Post(b, op) => Yield(b) + [Sym(op)]
    case Paren(e) => [Sym(LParen)] + (Yield(e) + [Sym(RParen)])
    case Apply(f, args) => [Ident(f), Sym(LParen)] + (Commas(args) + [Sym(RParen)])
    case Id(x) => [Ident(x)]
    case Const(kind, text) => [Lit(kind, text)]
    case Strings(parts) => Pieces(parts)
  }

  function Commas(args: seq<Cst>): seq<Token>
    decreases args
  {
    if args == [] then []
    else if |args| == 1 then Yield(args[0])
    else Yield(args[0]) + ([Sym(Comma)] + Commas(args[1..]))
  }

  /** The tree of a derivation. */
  function Abs(c: Cst): Tree
    decreases c
  {
    match c
    case Bin(op, l, r) => Binary(op, Abs(l), Abs(r))
    case Cond(c0, t, e) => Ternary(Abs(c0), Abs(t), Abs(e))
    case Pre(op, e) => Unary(op, Abs(e))
    case Cast(name, n, e) => CastTo(name, n, Abs(e))
    case Index(b, i) => Subscript(Abs(b), Abs(i))
    case Dotted(b, _, skipped, name) => Member(skipped == Sym(Arrow), name, Abs(b))
    case Post(b, op) => PostUnary(op, Abs(b))
    case Paren(e) => Abs(e)
    case Apply(f, args) => Call(f, AbsAll(args))
    case Id(x) => Name(x)
    case Const(kind, text) => Literal(kind, text)
    case Strings(parts) => Text(Joined(parts))
  }

  function AbsAll(args: seq<Cst>): (ts: seq<Tree>)
    ensures |ts| == |args|
    decreases args
  {
    if args == [] then [] else [Abs(args[0])] + AbsAll(args[1..])
  }

  function Joined(parts: seq<string>): string {
    if parts == [] then "" else parts[0] + Joined(parts[1..])
  }

  // ----- which next token a derivation would have taken -----

  /** No binary operator of `level` or above, and no `?` for which it is early enough. */
  predicate Quiet(level: nat, t: Token) {
    t.Sym? ==> OpLevel(t.sym) < level && (t.sym == Question ==> level > 2)
  }

  /** The right edge of the derivation does not go on with `t`. */
  predicate Stops(c: Cst, t: Token) {
    match c
    case Bin(_, _, r) => Stops(r, t)
    case Cond(_, _, e) => Stops(e, t)
    case Pre(_, e) => Stops(e, t)
    case Cast(_, _, e) => Stops(e, t)
    case Index(_, _) => t != Sym(LBracket)
    case Dotted(_, _, _, _) => t != Sym(Dot) && t != Sym(Arrow)
    case Post(_, _) => t != Sym(Inc) && t != Sym(Dec)
    case _ => !OpensChain(t) && StopsPrimary(c, t)
  }

  predicate OpensChain(t: Token) {
    t == Sym(LBracket) || t == Sym(Dot) || t == Sym(Arrow) || t == Sym(Inc) || t == Sym(Dec)
  }

  /** A name is no call and a string literal is complete. */
  predicate StopsPrimary(c: Cst, t: Token) {
    (c.Id? ==> t != Sym(LParen)) && (c.Strings? ==> !t.Str?)
  }

  /** No derivation goes on with a token that opens no chain, call or string. */
  predicate EndsAll(t: Token) {
    t != Sym(LParen) && !OpensChain(t) && !t.Str?
  }

  lemma {:induction false} AlwaysStops(c: Cst, t: Token)
    requires EndsAll(t)
    ensures Stops(c, t)
  {
    match c {
      case Bin(_, _, r) => AlwaysStops(r, t);
      case Cond(_, _, e) => AlwaysStops(e, t);
      case Pre(_, e) => AlwaysStops(e, t);
      case Cast(_, _, e) => AlwaysStops(e, t);
      case _ =>
    }
  }

  // ----- first tokens -----

  function Start(c: Cst): Token {
    match c
    case Bin(_, l, _) => Start(l)
    case Cond(c0, _, _) => Start(c0)
    case Pre(op, _) => Sym(op)
    case Cast(_, _, _) => Sym(RParen)
    case Index(b, _) => Start(b)
    case Dotted(b, _, _, _) => Start(b)
    case Post(b, _) => Start(b)
    case Paren(_) => Sym(LParen)
    case Apply(f, _) => Ident(f)
    case Id(x) => Ident(x)
    case Const(kind, text) => Lit(kind, text)
    case Strings(parts) => if parts == [] then End else Str(parts[0])
  }

  predicate StartsPrimary(t: Token) {
    t == Sym(LParen) || t.Ident? || t.Lit? || t.Str?
  }

  /** How derivations begin: no operand begins with `)`, and only the prefix
      operators' level begins with a prefix operator. */
  lemma {:induction false} YieldStarts(c: Cst, rest: seq<Token>)
    requires Good(c)
    ensures First(Yield(c) + rest) == Start(c) && Yield(c) != []
    ensures Level(c) >= 0 ==> Start(c) != Sym(RParen)
    ensures Level(c) >= POSTFIX ==> StartsPrimary(Start(c))
    ensures !Start(c).Type?
  {
    match c {
      case Bin(_, l, _) => YieldStarts(l, []); assert Yield(l) + [] == Yield(l);
      case Cond(c0, _, _) => YieldStarts(c0, []); assert Yield(c0) + [] == Yield(c0);
      case Index(b, _) => YieldStarts(b, []); assert Yield(b) + [] == Yield(b);
      case Dotted(b, _, _, _) => YieldStarts(b, []); assert Yield(b) + [] == Yield(b);
      case Post(b, _) => YieldStarts(b, []); assert Yield(b) + [] == Yield(b);
      case _ =>
    }
  }
}
