/** The parsing functions themselves: they consume a shared token list step by
    step (hzcc/parser/syntax/parser/statement_parser.cc:103-668). Each is proved
    to return the tree, and to leave the list, that `ParserSpec` says. Levels
    whose functions differ only in their operators share one method. */
module ExprParser {
  import opened Tokens
  import opened Grammar
  import opened ParserSpec
  import opened ParserCorrectness
  import ExprPrinter

  datatype Reply = Ok(tree: Tree) | SyntaxError

  /** The reply and the remaining tokens are those of `o`. */
  ghost predicate Answers(r: Reply, left: seq<Token>, o: Outcome) {
    match o
    case Parsed(c, rest) => r == Ok(Abs(c)) && left == rest
    case Failed(rest) => r == SyntaxError && left == rest
  }

  /** HZCC_CheckAndConsume_ReturnErr. */
  method CheckAndConsume(s: Symbol, list: CachedList) returns (ok: bool)
    requires Clean(list.tokens)
    modifies list
    ensures ok == (First(old(list.tokens)) == Sym(s))
    ensures list.tokens == if ok then old(list.tokens)[1..] else old(list.tokens)
    ensures Clean(list.tokens) && list.attributes == old(list.attributes)
  {
    ok := list.Peek() == Sym(s);
    if ok {
      var _ := list.Pop();
    }
  }

  method ParseExpr(level: nat, list: CachedList) returns (r: Reply)
    requires level <= UNARY && Clean(list.tokens)
    modifies list
    ensures Answers(r, list.tokens, Parse(level, old(list.tokens)))
    ensures Clean(list.tokens) && list.attributes == old(list.attributes)
    decreases |list.tokens|, 60 - 2 * level
  {
    if level == UNARY {
      r := ParseUnaryExpr(list);
    } else if level == 2 {
      r := ParseConditionalExpr(list);
    } else {
      r := ParseExpr(level + 1, list);
      if r.Ok? && IsOp(level, list.Peek()) {
        var op := list.Pop();
        var rhs := ParseExpr(level, list);
        r := if rhs.Ok? then Ok(Binary(op.sym, r.tree, rhs.tree)) else SyntaxError;
      }
    }
  }

  method ParseConditionalExpr(list: CachedList) returns (r: Reply)
    requires Clean(list.tokens)
    modifies list
    ensures Answers(r, list.tokens, Parse(2, old(list.tokens)))
    ensures Clean(list.tokens) && list.attributes == old(list.attributes)
    decreases |list.tokens|, 55
  {
    r := ParseExpr(3, list);
    if r.Ok? && list.Peek() == Sym(Question) {
      var _ := list.Pop();
      var t := ParseExpr(2, list);
      if !t.Ok? {
        return SyntaxError;
      }
      var ok := CheckAndConsume(Colon, list);
      if !ok {
        return SyntaxError;
      }
      var e := ParseExpr(2, list);
      r := if e.Ok? then Ok(Ternary(r.tree, t.tree, e.tree)) else SyntaxError;
    }
  }

  method ParseUnaryExpr(list: CachedList) returns (r: Reply)
    requires Clean(list.tokens)
    modifies list
    ensures Answers(r, list.tokens, ParseUnary(old(list.tokens)))
    ensures Clean(list.tokens) && list.attributes == old(list.attributes)
    decreases |list.tokens|, 10
  {
    var next := list.Peek();
    if next.Sym? && TakesCast(next.sym) {
      var op := list.Pop();
      r := ParseCastExpr(list);
      r := if r.Ok? then Ok(Unary(op.sym, r.tree)) else SyntaxError;
    } else if next.Sym? && TakesUnary(next.sym) {
      var op := list.Pop();
      r := ParseUnaryExpr(list);
      r := if r.Ok? then Ok(Unary(op.sym, r.tree)) else SyntaxError;
    } else {
      r := ParsePostfixExpr(list);
    }
  }

  method ParseCastExpr(list: CachedList) returns (r: Reply)
    requires Clean(list.tokens)
    modifies list
    ensures Answers(r, list.tokens, ParseCast(old(list.tokens)))
    ensures Clean(list.tokens) && list.attributes == old(list.attributes)
    decreases |list.tokens|, 11
  {
    hide CountStars, ParseUnary;
    if list.Peek() != Sym(RParen) {
      r := ParseUnaryExpr(list);
      return;
    }
    var _ := list.Pop();
    var ok, name, stars := ParseTypeName(list);
    if !ok {
      return SyntaxError;
    }
    ok := CheckAndConsume(RParen, list);
    if !ok {
      return SyntaxError;
    }
    r := ParseCastExpr(list);
    r := if r.Ok? then Ok(CastTo(name, stars, r.tree)) else SyntaxError;
  }

  /** A primitive type and its stars; no other type is known here. */
  method ParseTypeName(list: CachedList) returns (ok: bool, name: string, stars: nat)
    requires Clean(list.tokens)
    modifies list
    ensures Clean(list.tokens) && list.attributes == old(list.attributes) && |list.tokens| <= |old(list.tokens)|
    ensures ok == First(old(list.tokens)).Type?
    ensures ok ==>
              var after := Tail(old(list.tokens));
              && First(old(list.tokens)) == Type(name) && stars == CountStars(after) && list.tokens == after[stars..]
    ensures !ok ==>
              var after, first := Tail(old(list.tokens)), First(old(list.tokens));
              list.tokens == if first == Sym(Struct) || first == Sym(Enum) then Tail(after) else after
  {
    name, stars := "", 0;
    var t := list.Pop();
    ok := t.Type?;
    if ok {
      name := t.name;
      ghost var after := list.tokens;
      while list.Peek() == Sym(Mul)
        invariant Clean(list.tokens) && list.attributes == old(list.attributes)
        invariant stars <= |after| && list.tokens == after[stars..]
        invariant CountStars(after) == stars + CountStars(list.tokens)
        decreases |list.tokens|
      {
        var _ := list.Pop();
        stars := stars + 1;
      }
    } else if t == Sym(Struct) || t == Sym(Enum) {
      var _ := list.Pop();
    }
  }

  method ParsePostfixExpr(list: CachedList) returns (r: Reply)
    requires Clean(list.tokens)
    modifies list
    ensures Answers(r, list.tokens, ParsePostfix(old(list.tokens)))
    ensures Clean(list.tokens) && list.attributes == old(list.attributes)
    decreases |list.tokens|, 9
  {
    hide ParseChain, ParsePrimary, Abs;
    ghost var o := ParsePrimary(list.tokens);
    if list.Peek() == Sym(LParen) {
      r := ParseParenExpr(list);
    } else {
      r := ParseAccessExpr(list);
    }
    if r.Ok? {
      r := ParsePostfixChain(r.tree, list, o.c);
    }
  }

  /** Subscripts, member accesses or increments: the first one decides. */
  method ParsePostfixChain(base: Tree, list: CachedList, ghost c: Cst) returns (r: Reply)
    requires Clean(list.tokens) && base == Abs(c)
    modifies list
    ensures Answers(r, list.tokens, ParseChain(c, old(list.tokens)))
    ensures Clean(list.tokens) && list.attributes == old(list.attributes)
    decreases |list.tokens|, 8
  {
    hide ParseIndices, ParseMembers, ParseIncrements, Abs;
    var next := list.Peek();
    if next == Sym(LBracket) {
      r := ParseSubscripts(base, list, c);
    } else if next == Sym(Dot) || next == Sym(Arrow) {
      r := ParseMemberAccess(base, list, c);
    } else {
      r := ParsePostIncDec(base, list, c);
    }
  }

  method ParseParenExpr(list: CachedList) returns (r: Reply)
    requires Clean(list.tokens) && First(list.tokens) == Sym(LParen)
    modifies list
    ensures Answers(r, list.tokens, ParsePrimary(old(list.tokens)))
    ensures Clean(list.tokens) && list.attributes == old(list.attributes)
    decreases |list.tokens|, 8
  {
    var _ := list.Pop();
    r := ParseExpr(0, list);
    if r.Ok? {
      var ok := CheckAndConsume(RParen, list);
      if !ok {
        r := SyntaxError;
      }
    }
  }

  method ParseSubscripts(base: Tree, list: CachedList, ghost c: Cst) returns (r: Reply)
    requires Clean(list.tokens) && base == Abs(c)
    modifies list
    ensures Answers(r, list.tokens, ParseIndices(c, old(list.tokens)))
    ensures Clean(list.tokens) && list.attributes == old(list.attributes)
    decreases |list.tokens|, 7
  {
    var tree := base;
    ghost var done := c;
    while list.Peek() == Sym(LBracket)
      invariant Clean(list.tokens) && list.attributes == old(list.attributes) && |list.tokens| <= |old(list.tokens)|
      invariant tree == Abs(done) && ParseIndices(done, list.tokens) == ParseIndices(c, old(list.tokens))
      decreases |list.tokens|
    {
      var _ := list.Pop();
      ghost var o := Parse(0, list.tokens);
      var index := ParseExpr(0, list);
      if !index.Ok? {
        return SyntaxError;
      }
      var ok := CheckAndConsume(RBracket, list);
      if !ok {
        return SyntaxError;
      }
      tree := Subscript(tree, index.tree);
      done := Index(done, o.c);
    }
    r := Ok(tree);
  }


  method ParseMemberAccess(base: Tree, list: CachedList, ghost c: Cst) returns (r: Reply)
    requires Clean(list.tokens) && base == Abs(c)
    modifies list
    ensures Answers(r, list.tokens, ParseMembers(c, old(list.tokens)))
    ensures Clean(list.tokens) && list.attributes == old(list.attributes)
  {
    hide ParseMembers, Qualifiers;
    var tree := base;
    ghost var done := c;
    while list.Peek() == Sym(Dot) || list.Peek() == Sym(Arrow)
      invariant Clean(list.tokens) && list.attributes == old(list.attributes)
      invariant tree == Abs(done) && ParseMembers(done, list.tokens) == ParseMembers(c, old(list.tokens))
      decreases |list.tokens|
    {
      MembersTurn(done, list.tokens);
      var op := list.Pop();
      var skipped := list.Pop();
      if !list.Peek().Ident? {
        return SyntaxError;
      }
      var ident := list.Pop();
      tree := Member(skipped == Sym(Arrow), ident.name, tree);
      done := Dotted(done, op.sym, skipped, ident.name);
    }
    MembersTurn(done, list.tokens);
    r := Ok(tree);
  }

  method ParsePostIncDec(base: Tree, list: CachedList, ghost c: Cst) returns (r: Reply)
    requires Clean(list.tokens) && base == Abs(c)
    modifies list
    ensures Answers(r, list.tokens, ParseIncrements(c, old(list.tokens)))
    ensures Clean(list.tokens) && list.attributes == old(list.attributes)
  {
    var tree := base;
    ghost var done := c;
    while list.Peek() == Sym(Inc) || list.Peek() == Sym(Dec)
      invariant Clean(list.tokens) && list.attributes == old(list.attributes)
      invariant tree == Abs(done) && ParseIncrements(done, list.tokens) == ParseIncrements(c, old(list.tokens))
      decreases |list.tokens|
    {
      var op := list.Pop();
      tree := PostUnary(op.sym, tree);
      done := Post(done, op.sym);
    }
    r := Ok(tree);
  }

  method ParseAccessExpr(list: CachedList) returns (r: Reply)
    requires Clean(list.tokens) && First(list.tokens) != Sym(LParen)
    modifies list
    ensures Answers(r, list.tokens, ParsePrimary(old(list.tokens)))
    ensures Clean(list.tokens) && list.attributes == old(list.attributes)
    decreases |list.tokens|, 8
  {
    var next := list.Peek();
    if next.Ident? {
      var _ := list.Pop();
      if list.Peek() == Sym(LParen) {
        var _ := list.Pop();
        assert list.tokens == old(list.tokens)[2..];
        r := ParseArgs(next.name, list);
      } else {
        r := Ok(Name(next.name));
      }
    } else if next.Lit? {
      var _ := list.Pop();
      r := Ok(Literal(next.kind, next.text));
    } else if next.Str? {
      r := ParseStringLit(list);
    } else {
      r := SyntaxError;
    }
  }

  /** Adjacent string literals are one literal. */
  method ParseStringLit(list: CachedList) returns (r: Reply)
    requires Clean(list.tokens) && First(list.tokens).Str?
    modifies list
    ensures Answers(r, list.tokens, ParsePrimary(old(list.tokens)))
    ensures Clean(list.tokens) && list.attributes == old(list.attributes)
  {
    var first := list.Pop();
    var value := first.text;
    ghost var parts := [first.text];
    assert Joined(parts) == parts[0] + Joined([]);
    while list.Peek().Str?
      invariant Clean(list.tokens) && list.attributes == old(list.attributes)
      invariant value == Joined(parts)
      invariant ParseStrings(parts, list.tokens) == ParsePrimary(old(list.tokens))
      decreases |list.tokens|
    {
      var t := list.Pop();
      value := value + t.text;
      JoinedMore(parts, t.text);
      parts := parts + [t.text];
    }
    r := Ok(Text(value));
  }

  lemma {:induction false} JoinedMore(parts: seq<string>, more: string)
    ensures Joined(parts + [more]) == Joined(parts) + more
  {
    if parts == [] {
      assert parts + [more] == [more];
      assert Joined([more]) == more + Joined([]);
    } else {
      assert (parts + [more])[1..] == parts[1..] + [more];
      JoinedMore(parts[1..], more);
    }
  }

  lemma {:induction false} AbsAllMore(cs: seq<Cst>, c: Cst)
    ensures AbsAll(cs + [c]) == AbsAll(cs) + [Abs(c)]
  {
    if cs == [] {
      assert cs + [c] == [c];
      assert AbsAll([c]) == [Abs(c)] + AbsAll([]);
    } else {
      assert (cs + [c])[1..] == cs[1..] + [c];
      AbsAllMore(cs[1..], c);
    }
  }

  /** The arguments of a call, behind its opening parenthesis. */
  method ParseArgs(f: string, list: CachedList) returns (r: Reply)
    requires Clean(list.tokens)
    modifies list
    ensures Answers(r, list.tokens, ParseArguments(f, [], old(list.tokens)))
    ensures Clean(list.tokens) && list.attributes == old(list.attributes)
    decreases |list.tokens|, 70
  {
    var args: seq<Tree> := [];
    ghost var done: seq<Cst> := [];
    while list.Peek() != Sym(RParen)
      invariant Clean(list.tokens) && list.attributes == old(list.attributes) && |list.tokens| <= |old(list.tokens)|
      invariant args == AbsAll(done)
      invariant ParseArguments(f, done, list.tokens) == ParseArguments(f, [], old(list.tokens))
      decreases |list.tokens|
    {
      ghost var o := Parse(1, list.tokens);
      var arg := ParseExpr(1, list);
      if !arg.Ok? {
        return SyntaxError;
      }
      if list.Peek() != Sym(RParen) {
        var ok := CheckAndConsume(Comma, list);
        if !ok || list.Peek() == Sym(RParen) {
          return SyntaxError;
        }
      }
      AbsAllMore(done, o.c);
      args := args + [arg.tree];
      done := done + [o.c];
    }
    var _ := CheckAndConsume(RParen, list);
    r := Ok(Call(f, args));
  }

  /** What a caller of the parser gets: a tree if and only if the list begins
      with a derivation that the next token does not continue; then exactly the
      tokens of that derivation are gone, and no shorter way of writing the tree
      exists. */
  method ParseExpression(list: CachedList) returns (r: Reply)
    requires Clean(list.tokens)
    modifies list
    ensures r.Ok? <==> exists c, rest ::
                Derives(0, c, old(list.tokens), rest) && Quiet(0, First(rest))
    ensures r.Ok? ==> exists c ::
                Derives(0, c, old(list.tokens), list.tokens) && Quiet(0, First(list.tokens)) && r.tree == Abs(c)
    ensures r.Ok? ==> |ExprPrinter.Print(0, r.tree)| <= |old(list.tokens)| - |list.tokens|
  {
    ghost var toks := list.tokens;
    r := ParseExpr(0, list);
    ghost var o := Parse(0, toks);
    if o.Parsed? {
      ParseExactly(0, toks, o.c, o.rest);
      ExprPrinter.FewestTokens(0, toks);
    }
    if c, rest :| Derives(0, c, toks, rest) && Quiet(0, First(rest)) {
      ParseExactly(0, toks, c, rest);
    }
  }
}
