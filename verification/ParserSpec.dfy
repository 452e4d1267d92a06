/** The expression parser as a function of the token list, level by level as
    in hzcc/parser/syntax/parser/statement_parser.cc:103-668, and what it
    accepts: exactly the derivations of `Grammar` that the next token does not
    continue. */
module ParserSpec {
  import opened Tokens
  import opened Grammar

  /** `left` and `rest` are the tokens that have not been consumed. */
  datatype Outcome = Parsed(c: Cst, rest: seq<Token>) | Failed(left: seq<Token>)

  predicate IsOp(level: nat, t: Token) {
    t.Sym? && OpLevel(t.sym) == level
  }

  /** Comma down to multiplicative, and unary, expressions. */
  function Parse(level: nat, toks: seq<Token>): (o: Outcome)
    requires level <= UNARY
    ensures o.Parsed? ==> |o.rest| < |toks|
    decreases |toks|, 30 - level
  {
    if level == UNARY then ParseUnary(toks) else
    match Parse(level + 1, toks)
    case Failed(left) => Failed(left)
    case Parsed(lhs, rest) =>
      if level == 2 then ParseBranches(lhs, rest)
      else if IsOp(level, First(rest)) then
        (match Parse(level, rest[1..])
         case Failed(left) => Failed(left)
         case Parsed(rhs, rest1) => Parsed(Bin(rest[0].sym, lhs, rhs), rest1))
      else Parsed(lhs, rest)
  }

  /** The branches of a conditional expression, if there are any. */
  function ParseBranches(cond: Cst, toks: seq<Token>): (o: Outcome)
    ensures o.Parsed? ==> |o.rest| <= |toks|
    decreases |toks|, 40
  {
    if First(toks) != Sym(Question) then Parsed(cond, toks) else
    match Parse(2, toks[1..])
    case Failed(left) => Failed(left)
    case Parsed(t, rest) =>
      if First(rest) != Sym(Colon) then Failed(rest) else
      match Parse(2, rest[1..])
      case Failed(left) => Failed(left)
      case Parsed(e, rest1) => Parsed(Cond(cond, t, e), rest1)
  }

  function ParseUnary(toks: seq<Token>): (o: Outcome)
    ensures o.Parsed? ==> |o.rest| < |toks|
    decreases |toks|, 10
  {
    if First(toks).Sym? && (TakesCast(toks[0].sym) || TakesUnary(toks[0].sym)) then
      match if TakesCast(toks[0].sym) then ParseCast(toks[1..]) else ParseUnary(toks[1..])
      case Failed(left) => Failed(left)
      case Parsed(e, rest) => Parsed(Pre(toks[0].sym, e), rest)
    else ParsePostfix(toks)
  }

  /** A cast is recognised by a closing parenthesis. */
  function ParseCast(toks: seq<Token>): (o: Outcome)
    ensures o.Parsed? ==> |o.rest| < |toks|
    decreases |toks|, 11
  {
    if First(toks) != Sym(RParen) then ParseUnary(toks) else
    var after := Tail(toks[1..]);
    match First(toks[1..])
    case Type(name) =>
      var n := CountStars(after);
      if First(after[n..]) != Sym(RParen) then Failed(after[n..]) else
      (match ParseCast(after[n + 1..])
       case Failed(left) => Failed(left)
       case Parsed(e, rest) => Parsed(Cast(name, n, e), rest))
    case Sym(s) => Failed(if s == Struct || s == Enum then Tail(after) else after)
    case _ => Failed(after)
  }

  function CountStars(toks: seq<Token>): (n: nat)
    ensures n <= |toks| && First(toks[n..]) != Sym(Mul)
  {
    if First(toks) == Sym(Mul) then 1 + CountStars(toks[1..]) else 0
  }

  function ParsePostfix(toks: seq<Token>): (o: Outcome)
    ensures o.Parsed? ==> |o.rest| < |toks|
    decreases |toks|, 9
  {
    match ParsePrimary(toks)
    case Failed(left) => Failed(left)
    case Parsed(c, rest) => ParseChain(c, rest)
  }

  /** What follows a primary expression: one kind of chain only. */
  function ParseChain(base: Cst, toks: seq<Token>): (o: Outcome)
    ensures o.Parsed? ==> |o.rest| <= |toks|
    decreases |toks|, 8
  {
    match First(toks)
    case Sym(LBracket) => ParseIndices(base, toks)
    case Sym(Dot) => ParseMembers(base, toks)
    case Sym(Arrow) => ParseMembers(base, toks)
    case _ => ParseIncrements(base, toks)
  }

  function ParseIndices(base: Cst, toks: seq<Token>): (o: Outcome)
    ensures o.Parsed? ==> |o.rest| <= |toks|
    decreases |toks|, 7
  {
    if First(toks) != Sym(LBracket) then Parsed(base, toks) else
    match Parse(0, toks[1..])
    case Failed(left) => Failed(left)
    case Parsed(i, rest) =>
      if First(rest) != Sym(RBracket) then Failed(rest) else ParseIndices(Index(base, i), rest[1..])
  }

  /** Besides the operator a second token is dropped before the name. */
  function ParseMembers(base: Cst, toks: seq<Token>): (o: Outcome)
    ensures o.Parsed? ==> |o.rest| <= |toks|
    decreases |toks|
  {
    if First(toks) != Sym(Dot) && First(toks) != Sym(Arrow) then Parsed(base, toks) else
    var after := Tail(toks[1..]);
    if First(after).Ident? then
      ParseMembers(Dotted(base, toks[0].sym, First(toks[1..]), after[0].name), after[1..])
    else Failed(after)
  }

  function ParseIncrements(base: Cst, toks: seq<Token>): (o: Outcome)
    ensures o.Parsed? && |o.rest| <= |toks|
    decreases |toks|
  {
    if First(toks) != Sym(Inc) && First(toks) != Sym(Dec) then Parsed(base, toks)
    else ParseIncrements(Post(base, toks[0].sym), toks[1..])
  }

  /** A parenthesised expression, a call, a name or a literal. */
  function ParsePrimary(toks: seq<Token>): (o: Outcome)
    ensures o.Parsed? ==> |o.rest| < |toks|
    decreases |toks|, 6
  {
    match First(toks)
    case Sym(LParen) =>
      (match Parse(0, toks[1..])
       case Failed(left) => Failed(left)
       case Parsed(e, rest) => if First(rest) == Sym(RParen) then Parsed(Paren(e), rest[1..]) else Failed(rest))
    case Ident(x) =>
      if First(toks[1..]) == Sym(LParen) then ParseArguments(x, [], toks[2..]) else Parsed(Id(x), toks[1..])
    case Lit(kind, text) => Parsed(Const(kind, text), toks[1..])
    case Str(text) => ParseStrings([text], toks[1..])
    case _ => Failed(toks)
  }

  function ParseStrings(parts: seq<string>, toks: seq<Token>): (o: Outcome)
    ensures o.Parsed? && |o.rest| <= |toks|
    decreases |toks|
  {
    if First(toks).Str? then ParseStrings(parts + [toks[0].text], toks[1..]) else Parsed(Strings(parts), toks)
  }

  function ParseArguments(f: string, done: seq<Cst>, toks: seq<Token>): (o: Outcome)
    ensures o.Parsed? ==> |o.rest| <= |toks|
    decreases |toks|, 41
  {
    if First(toks) == Sym(RParen) then Parsed(Apply(f, done), toks[1..]) else
    match Parse(1, toks)
    case Failed(left) => Failed(left)
    case Parsed(a, rest) =>
      if First(rest) == Sym(RParen) then ParseArguments(f, done + [a], rest)
      else if First(rest) != Sym(Comma) then Failed(rest)
      else if First(rest[1..]) == Sym(RParen) then Failed(rest[1..])
      else ParseArguments(f, done + [a], rest[1..])
  }
}
