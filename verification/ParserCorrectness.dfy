/** The parser accepts exactly the derivations of the grammar: soundness,
    completeness for every derivation and every continuation, and so
    unambiguity. */
module ParserCorrectness {
  import opened Tokens
  import opened Grammar
  import opened ParserSpec

  /** `c` is a derivation at `level` of what was consumed, and its right edge
      would not have taken the next token. */
  ghost predicate Derives(level: int, c: Cst, toks: seq<Token>, rest: seq<Token>) {
    Good(c) && Level(c) >= level && toks == Yield(c) + rest && Stops(c, First(rest))
  }

  lemma Assoc(a: seq<Token>, b: seq<Token>, c: seq<Token>)
    ensures (a + b) + c == a + (b + c)
  {
  }

  /** Re-association of an infix derivation in front of what follows it. */
  lemma AssocThree(a: seq<Token>, t: Token, b: seq<Token>, r: seq<Token>)
    ensures (a + ([t] + b)) + r == a + ([t] + (b + r))
    ensures ([t] + (b + r))[1..] == b + r && First([t] + (b + r)) == t
  {
  }

  lemma Behind(t: Token, r: seq<Token>)
    ensures ([t] + r)[1..] == r && First([t] + r) == t
  {
  }

  lemma HeadTail(toks: seq<Token>)
    ensures toks != [] ==> toks == [First(toks)] + toks[1..]
  {
  }

  // ----- soundness -----

  lemma {:induction false} ParseSound(level: nat, toks: seq<Token>)
    requires level <= UNARY
    ensures var o := Parse(level, toks); o.Parsed? ==> Derives(level, o.c, toks, o.rest) && Quiet(level, First(o.rest))
    decreases |toks|, 30 - level
  {
    hide Yield, Good, Stops;
    if level == UNARY {
      UnarySound(toks);
    } else {
      ParseSound(level + 1, toks);
      var o := Parse(level + 1, toks);
      if o.Parsed? {
        if level == 2 {
          BranchesSound(o.c, toks, o.rest);
        } else if IsOp(level, First(o.rest)) {
          ParseSound(level, o.rest[1..]);
          var o1 := Parse(level, o.rest[1..]);
          if o1.Parsed? {
            HeadTail(o.rest);
            BinDerives(level, o.rest[0].sym, o.c, toks, o1.c, o.rest, o1.rest);
          }
        }
      }
    }
  }

  lemma BinDerives(level: nat, op: Symbol, l: Cst, toks: seq<Token>, r: Cst, rest: seq<Token>, rest1: seq<Token>)
    requires OpLevel(op) == level && Derives(level + 1, l, toks, rest)
    requires rest != [] && rest[0] == Sym(op) && Derives(level, r, rest[1..], rest1)
    ensures Derives(level, Bin(op, l, r), toks, rest1)
  {
    AssocThree(Yield(l), Sym(op), Yield(r), rest1);
    HeadTail(rest);
  }

  lemma {:induction false} BranchesSound(c: Cst, toks: seq<Token>, rest: seq<Token>)
    requires Derives(3, c, toks, rest) && Quiet(3, First(rest))
    ensures var o := ParseBranches(c, rest); o.Parsed? ==> Derives(2, o.c, toks, o.rest) && Quiet(2, First(o.rest))
    decreases |rest|, 40
  {
    if First(rest) == Sym(Question) {
      hide Yield, Good, Stops;
      ParseSound(2, rest[1..]);
      var o := Parse(2, rest[1..]);
      if o.Parsed? && First(o.rest) == Sym(Colon) {
        ParseSound(2, o.rest[1..]);
        var o1 := Parse(2, o.rest[1..]);
        if o1.Parsed? {
          CondDerives(c, toks, rest, o.c, o.rest, o1.c, o1.rest);
        }
      }
    }
  }

  lemma CondDerives(c: Cst, toks: seq<Token>, r0: seq<Token>, t: Cst, r1: seq<Token>, e: Cst, r2: seq<Token>)
    requires Derives(3, c, toks, r0) && First(r0) == Sym(Question) && Derives(2, t, r0[1..], r1)
    requires First(r1) == Sym(Colon) && Derives(2, e, r1[1..], r2)
    ensures Derives(2, Cond(c, t, e), toks, r2)
  {
    HeadTail(r0);
    HeadTail(r1);
    AssocThree(Yield(t), Sym(Colon), Yield(e), r2);
    AssocThree(Yield(c), Sym(Question), Yield(t) + ([Sym(Colon)] + Yield(e)), r2);
  }

  lemma {:induction false} UnarySound(toks: seq<Token>)
    ensures var o := ParseUnary(toks); o.Parsed? ==> Derives(UNARY, o.c, toks, o.rest)
    decreases |toks|, 10
  {
    hide Yield, Stops;
    if First(toks).Sym? && (TakesCast(toks[0].sym) || TakesUnary(toks[0].sym)) {
      var o := if TakesCast(toks[0].sym) then ParseCast(toks[1..]) else ParseUnary(toks[1..]);
      if TakesCast(toks[0].sym) { CastSound(toks[1..]); } else { UnarySound(toks[1..]); }
      if o.Parsed? {
        PreDerives(toks, o.c, o.rest);
      }
    } else {
      PostfixSound(toks);
    }
  }

  lemma PreDerives(toks: seq<Token>, e: Cst, rest: seq<Token>)
    requires toks != [] && toks[0].Sym? && Good(Pre(toks[0].sym, e))
    requires toks[1..] == Yield(e) + rest && Stops(e, First(rest))
    ensures Derives(UNARY, Pre(toks[0].sym, e), toks, rest)
  {
    Assoc([toks[0]], Yield(e), rest);
    HeadTail(toks);
  }

  lemma {:induction false} CastSound(toks: seq<Token>)
    ensures var o := ParseCast(toks);
            o.Parsed? ==> Good(o.c) && IsCastOperand(o.c) && toks == Yield(o.c) + o.rest && Stops(o.c, First(o.rest))
    decreases |toks|, 11
  {
    hide Yield, Stops, CountStars;
    if First(toks) != Sym(RParen) {
      UnarySound(toks);
    } else if First(toks[1..]).Type? {
      var after, n := toks[2..], CountStars(toks[2..]);
      assert Tail(toks[1..]) == after;
      if First(after[n..]) == Sym(RParen) {
        CastSound(after[n + 1..]);
        var o := ParseCast(after[n + 1..]);
        if o.Parsed? {
          StarsCounted(after);
          CastYields(toks[1].name, n, toks, o.c, o.rest);
        }
      }
    }
  }

  lemma CastYields(name: string, n: nat, toks: seq<Token>, e: Cst, rest: seq<Token>)
    requires |toks| > n + 2 && toks[0] == Sym(RParen) && toks[1] == Type(name)
    requires toks[2..] == Stars(n) + toks[2..][n..] && toks[2..][n] == Sym(RParen)
    requires toks[2..][n + 1..] == Yield(e) + rest
    ensures toks == Yield(Cast(name, n, e)) + rest
    ensures Stops(e, First(rest)) ==> Stops(Cast(name, n, e), First(rest))
  {
    hide Stars;
    var after := toks[2..];
    assert after[n..][1..] == after[n + 1..];
    HeadTail(after[n..]);
    Assoc([Sym(RParen)], Yield(e), rest);
    Assoc(Stars(n), [Sym(RParen)] + Yield(e), rest);
    Assoc([Sym(RParen), Type(name)], Stars(n) + ([Sym(RParen)] + Yield(e)), rest);
    assert toks == [Sym(RParen), Type(name)] + after;
  }

  lemma {:induction false} StarsCounted(toks: seq<Token>)
    ensures toks == Stars(CountStars(toks)) + toks[CountStars(toks)..]
  {
    if First(toks) == Sym(Mul) {
      StarsCounted(toks[1..]);
      var n := CountStars(toks[1..]);
      assert Stars(n + 1) == [Sym(Mul)] + Stars(n);
      HeadTail(toks);
      Assoc([Sym(Mul)], Stars(n), toks[1..][n..]);
      assert toks[1..][n..] == toks[n + 1..];
    }
  }

  lemma {:induction false} PostfixSound(toks: seq<Token>)
    ensures var o := ParsePostfix(toks); o.Parsed? ==> Derives(POSTFIX, o.c, toks, o.rest)
    decreases |toks|, 9
  {
    hide Yield, Good, Stops;
    PrimarySound(toks);
    var o := ParsePrimary(toks);
    if o.Parsed? {
      ChainSound(o.c, toks, o.rest);
    }
  }

  /** Which chain is parsed depends on the next token alone. */
  lemma ChainKinds(base: Cst, rest: seq<Token>)
    ensures First(rest) == Sym(LBracket) ==> ParseChain(base, rest) == ParseIndices(base, rest)
    ensures First(rest) == Sym(Dot) || First(rest) == Sym(Arrow) ==> ParseChain(base, rest) == ParseMembers(base, rest)
    ensures First(rest) != Sym(LBracket) && First(rest) != Sym(Dot) && First(rest) != Sym(Arrow) ==>
              ParseChain(base, rest) == ParseIncrements(base, rest)
  {
    hide ParseIndices, ParseMembers, ParseIncrements;
  }

  lemma {:induction false} ChainSound(base: Cst, toks: seq<Token>, rest: seq<Token>)
    requires Good(base) && IsPrimary(base) && toks == Yield(base) + rest && StopsPrimary(base, First(rest))
    ensures var o := ParseChain(base, rest); o.Parsed? ==> Derives(POSTFIX, o.c, toks, o.rest)
    decreases |rest|, 8
  {
    hide *;
    ChainKinds(base, rest);
    if First(rest) == Sym(LBracket) {
      IndicesSound(base, toks, rest);
    } else if First(rest) == Sym(Dot) || First(rest) == Sym(Arrow) {
      MembersSound(base, toks, rest);
    } else {
      IncrementsSound(base, toks, rest);
    }
  }

  lemma {:induction false} IndicesSound(base: Cst, toks: seq<Token>, rest: seq<Token>)
    requires Good(base) && toks == Yield(base) + rest
    requires base.Index? || (IsPrimary(base) && First(rest) == Sym(LBracket))
    ensures var o := ParseIndices(base, rest); o.Parsed? ==> Derives(POSTFIX, o.c, toks, o.rest)
    decreases |rest|, 7
  {
    if First(rest) == Sym(LBracket) {
      ParseSound(0, rest[1..]);
      var o := Parse(0, rest[1..]);
      if o.Parsed? && First(o.rest) == Sym(RBracket) {
        var c, next := Index(base, o.c), o.rest[1..];
        HeadTail(rest);
        HeadTail(o.rest);
        Assoc(Yield(o.c), [Sym(RBracket)], next);
        AssocThree(Yield(base), Sym(LBracket), Yield(o.c) + [Sym(RBracket)], next);
        IndicesSound(c, toks, next);
      }
    }
  }

  /** One step of a chain of member accesses. */
  lemma MembersTurn(base: Cst, toks: seq<Token>)
    ensures First(toks) != Sym(Dot) && First(toks) != Sym(Arrow) ==> ParseMembers(base, toks) == Parsed(base, toks)
    ensures var after := Tail(toks[if toks == [] then 0 else 1..]);
            First(toks) == Sym(Dot) || First(toks) == Sym(Arrow) ==>
              ParseMembers(base, toks)
              == if First(after).Ident?
                 then ParseMembers(Dotted(base, toks[0].sym, First(toks[1..]), after[0].name), after[1..])
                 else Failed(after)
  {
  }

  lemma {:induction false} MembersSound(base: Cst, toks: seq<Token>, rest: seq<Token>)
    requires Good(base) && toks == Yield(base) + rest
    requires base.Dotted? || (IsPrimary(base) && (First(rest) == Sym(Dot) || First(rest) == Sym(Arrow)))
    ensures var o := ParseMembers(base, rest); o.Parsed? ==> Derives(POSTFIX, o.c, toks, o.rest)
    decreases |rest|
  {
    if First(rest) == Sym(Dot) || First(rest) == Sym(Arrow) {
      var after := Tail(rest[1..]);
      if First(after).Ident? {
        var c := Dotted(base, rest[0].sym, First(rest[1..]), after[0].name);
        assert rest == [rest[0], rest[1], after[0]] + after[1..];
        Assoc(Yield(base), [rest[0], rest[1], after[0]], after[1..]);
        MembersSound(c, toks, after[1..]);
      }
    }
  }

  lemma {:induction false} IncrementsSound(base: Cst, toks: seq<Token>, rest: seq<Token>)
    requires Good(base) && toks == Yield(base) + rest
    requires base.Post? || (IsPrimary(base) && StopsPrimary(base, First(rest)))
    requires base.Post? || (First(rest) != Sym(LBracket) && First(rest) != Sym(Dot) && First(rest) != Sym(Arrow))
    ensures var o := ParseIncrements(base, rest); Derives(POSTFIX, o.c, toks, o.rest)
    decreases |rest|
  {
    if First(rest) == Sym(Inc) || First(rest) == Sym(Dec) {
      HeadTail(rest);
      Assoc(Yield(base), [rest[0]], rest[1..]);
      IncrementsSound(Post(base, rest[0].sym), toks, rest[1..]);
    }
  }

  /** `c` is a whole primary expression, standing in front of `rest`. */
  ghost predicate Stands(c: Cst, toks: seq<Token>, rest: seq<Token>) {
    Good(c) && IsPrimary(c) && toks == Yield(c) + rest && StopsPrimary(c, First(rest))
  }

  lemma {:induction false} PrimarySound(toks: seq<Token>)
    ensures var o := ParsePrimary(toks); o.Parsed? ==> Stands(o.c, toks, o.rest)
    decreases |toks|, 6
  {
    hide Yield, Good, Level, IsPrimary, StopsPrimary, Stands, Commas, Derives, Pieces, Parse, ParseArguments, ParseStrings;
    match First(toks) {
      case Sym(LParen) =>
        ParseSound(0, toks[1..]);
        var o := Parse(0, toks[1..]);
        if o.Parsed? && First(o.rest) == Sym(RParen) {
          ParenStands(toks, o.c, o.rest);
        }
      case Ident(x) =>
        if First(toks[1..]) == Sym(LParen) {
          var o := ParseArguments(x, [], toks[2..]);
          if o.Parsed? {
            var args := ArgumentsSound(x, [], toks[2..]);
            assert [] + args == args;
            CallStands(x, toks, args, o.rest);
          }
        } else {
          NameStands(toks);
        }
      case Str(text) =>
        StringsSound([text], toks[1..]);
        var o := ParseStrings([text], toks[1..]);
        StringsStand(toks, o.c, o.rest);
      case Lit(_, _) => NameStands(toks);
      case _ =>
    }
  }

  lemma ParenStands(toks: seq<Token>, e: Cst, rest: seq<Token>)
    requires First(toks) == Sym(LParen) && Derives(0, e, toks[1..], rest) && First(rest) == Sym(RParen)
    ensures Stands(Paren(e), toks, rest[1..])
  {
    HeadTail(toks);
    HeadTail(rest);
    Assoc(Yield(e), [Sym(RParen)], rest[1..]);
    Assoc([Sym(LParen)], Yield(e) + [Sym(RParen)], rest[1..]);
  }

  lemma CallStands(f: string, toks: seq<Token>, args: seq<Cst>, rest: seq<Token>)
    requires First(toks) == Ident(f) && First(toks[1..]) == Sym(LParen)
    requires Good(Apply(f, args)) && toks[2..] == Commas(args) + ([Sym(RParen)] + rest)
    ensures Stands(Apply(f, args), toks, rest)
  {
    Assoc([Ident(f), Sym(LParen)], Commas(args) + [Sym(RParen)], rest);
    Assoc(Commas(args), [Sym(RParen)], rest);
    assert toks == [Ident(f), Sym(LParen)] + toks[2..];
  }

  lemma StringsStand(toks: seq<Token>, c: Cst, rest: seq<Token>)
    requires First(toks).Str? && Good(c) && c.Strings? && !First(rest).Str?
    requires Pieces([First(toks).text]) + toks[1..] == Yield(c) + rest
    ensures Stands(c, toks, rest)
  {
    assert Pieces([First(toks).text]) == [First(toks)];
    HeadTail(toks);
  }

  lemma NameStands(toks: seq<Token>)
    ensures First(toks).Ident? && First(toks[1..]) != Sym(LParen) ==> Stands(Id(First(toks).name), toks, toks[1..])
    ensures First(toks).Lit? ==> Stands(Const(First(toks).kind, First(toks).text), toks, toks[1..])
  {
    HeadTail(toks);
  }

  lemma {:induction false} StringsSound(parts: seq<string>, toks: seq<Token>)
    requires parts != []
    ensures var o := ParseStrings(parts, toks);
            && Good(o.c) && IsPrimary(o.c) && o.c.Strings? && !First(o.rest).Str?
            && Pieces(parts) + toks == Yield(o.c) + o.rest
    decreases |toks|
  {
    if First(toks).Str? {
      StringsSound(parts + [toks[0].text], toks[1..]);
      assert Pieces(parts + [toks[0].text]) == Pieces(parts) + [toks[0]];
    }
  }

  /** Arguments still to come: `args` behind those already read. */
  /** One turn of the argument loop: an argument, and the comma behind it unless it is the last. */
  lemma ArgumentsStep(f: string, done: seq<Cst>, toks: seq<Token>)
    requires First(toks) != Sym(RParen) && ParseArguments(f, done, toks).Parsed?
    ensures var o := Parse(1, toks);
            && o.Parsed? && o.rest != []
            && var next := if First(o.rest) == Sym(RParen) then o.rest else o.rest[1..];
               && ParseArguments(f, done + [o.c], next) == ParseArguments(f, done, toks)
               && (First(o.rest) != Sym(RParen) ==> First(o.rest) == Sym(Comma) && First(next) != Sym(RParen))
  {
    hide Parse;
  }

  lemma {:induction false} ArgumentsSound(f: string, done: seq<Cst>, toks: seq<Token>) returns (args: seq<Cst>)
    requires ParseArguments(f, done, toks).Parsed?
    ensures var o := ParseArguments(f, done, toks);
            && o.c == Apply(f, done + args) && toks == Commas(args) + ([Sym(RParen)] + o.rest)
    ensures Good(Apply(f, args))
    ensures args == [] <==> First(toks) == Sym(RParen)
    decreases |toks|, 41
  {
    if First(toks) == Sym(RParen) {
      args := [];
      HeadTail(toks);
    } else {
      ArgumentsStep(f, done, toks);
      hide Good, Stops, Level, Yield, Commas, Parse, ParseArguments;
      ParseSound(1, toks);
      var o := Parse(1, toks);
      var next := if First(o.rest) == Sym(RParen) then o.rest else o.rest[1..];
      var more := ArgumentsSound(f, done + [o.c], next);
      args := [o.c] + more;
      Onward(f, done, o.c, more);
      ArgumentsJoin(o.c, more, toks, o.rest, next, ParseArguments(f, done, toks).rest);
    }
  }

  lemma Onward(f: string, done: seq<Cst>, a: Cst, more: seq<Cst>)
    ensures done + [a] + more == done + ([a] + more) && [a] + more != []
    ensures Good(a) && Level(a) >= 1 && Good(Apply(f, more)) ==> Good(Apply(f, [a] + more))
  {
  }

  lemma ArgumentsJoin(a: Cst, more: seq<Cst>, toks: seq<Token>, rest: seq<Token>, next: seq<Token>, end: seq<Token>)
    requires toks == Yield(a) + rest && next == Commas(more) + ([Sym(RParen)] + end)
    requires if more == [] then rest == next else First(rest) == Sym(Comma) && next == rest[1..]
    ensures toks == Commas([a] + more) + ([Sym(RParen)] + end)
  {
    hide Yield;
    CommasMore(a, more);
    HeadTail(rest);
    AssocThree(Yield(a), Sym(Comma), Commas(more), [Sym(RParen)] + end);
  }

  lemma CommasMore(a: Cst, more: seq<Cst>)
    ensures Commas([a] + more) == if more == [] then Yield(a) else Yield(a) + ([Sym(Comma)] + Commas(more))
  {
    assert ([a] + more)[1..] == more;
  }

  // ----- completeness -----

  /** A derivation at `level` that the next token does not continue. */
  ghost predicate Complete(level: nat, c: Cst, next: Token) {
    (Good(c) && Level(c) >= level && Quiet(level, next) && Stops(c, next)) == true
  }

  lemma BinParts(c: Cst, level: nat, next: Token)
    requires Complete(level, c, next) && c.Bin? && Level(c) == level
    ensures Complete(level + 1, c.l, Sym(c.op)) && Complete(level, c.r, next)
    ensures OpLevel(c.op) == level && level != 2 && level < UNARY
  {
    AlwaysStops(c.l, Sym(c.op));
  }

  lemma CondParts(c: Cst, next: Token)
    requires Complete(2, c, next) && c.Cond?
    ensures Complete(3, c.c, Sym(Question)) && Complete(2, c.t, Sym(Colon)) && Complete(2, c.e, next)
  {
    AlwaysStops(c.c, Sym(Question));
    AlwaysStops(c.t, Sym(Colon));
  }

  /** One level up, and nothing of this level follows. */
  lemma Deeper(level: nat, c: Cst, next: Token)
    requires level < UNARY && Complete(level, c, next) && Level(c) != level
    ensures Complete(level + 1, c, next)
    ensures !IsOp(level, next) && (level == 2 ==> next != Sym(Question))
  {
  }

  lemma {:induction false} ParseComplete(level: nat, c: Cst, rest: seq<Token>)
    requires level <= UNARY && Complete(level, c, First(rest))
    ensures Parse(level, Yield(c) + rest) == Parsed(c, rest)
    decreases c, 30 - level
  {
    hide Complete, Yield, ParseUnary, IsOp;
    if level == UNARY {
      UnaryComplete(c, rest);
    } else if Level(c) != level {
      Deeper(level, c, First(rest));
      ParseComplete(level + 1, c, rest);
    } else if c.Bin? {
      BinComplete(level, c, rest);
    } else {
      CondComplete(c, rest);
    }
  }

  lemma {:induction false} BinComplete(level: nat, c: Cst, rest: seq<Token>)
    requires c.Bin? && level < UNARY && Level(c) == level && Complete(level, c, First(rest))
    ensures Parse(level, Yield(c) + rest) == Parsed(c, rest)
    decreases c, 0
  {
    AssocThree(Yield(c.l), Sym(c.op), Yield(c.r), rest);
    BinParts(c, level, First(rest));
    hide Complete, Yield, ParseUnary;
    var behind := [Sym(c.op)] + (Yield(c.r) + rest);
    ParseComplete(level + 1, c.l, behind);
    ParseComplete(level, c.r, rest);
  }

  lemma {:induction false} CondComplete(c: Cst, rest: seq<Token>)
    requires c.Cond? && Complete(2, c, First(rest))
    ensures Parse(2, Yield(c) + rest) == Parsed(c, rest)
    decreases c, 0
  {
    AssocThree(Yield(c.c), Sym(Question), Yield(c.t) + ([Sym(Colon)] + Yield(c.e)), rest);
    AssocThree(Yield(c.t), Sym(Colon), Yield(c.e), rest);
    CondParts(c, First(rest));
    hide Complete, Yield, ParseUnary;
    var behind2 := [Sym(Colon)] + (Yield(c.e) + rest);
    var behind1 := [Sym(Question)] + (Yield(c.t) + behind2);
    ParseComplete(3, c.c, behind1);
    ParseComplete(2, c.t, behind2);
    ParseComplete(2, c.e, rest);
  }

  lemma {:induction false} UnaryComplete(c: Cst, rest: seq<Token>)
    requires Complete(UNARY, c, First(rest))
    ensures ParseUnary(Yield(c) + rest) == Parsed(c, rest)
    decreases c, 10
  {
    if c.Pre? {
      Assoc([Sym(c.op)], Yield(c.e), rest);
      Behind(Sym(c.op), Yield(c.e) + rest);
      if TakesCast(c.op) {
        CastComplete(c.e, rest);
      } else {
        UnaryComplete(c.e, rest);
      }
    } else {
      YieldStarts(c, rest);
      PostfixComplete(c, rest);
    }
  }

  ghost predicate CompleteCast(c: Cst, next: Token) {
    (Good(c) && IsCastOperand(c) && Stops(c, next)) == true
  }

  lemma {:induction false} CastComplete(c: Cst, rest: seq<Token>)
    requires CompleteCast(c, First(rest))
    ensures ParseCast(Yield(c) + rest) == Parsed(c, rest)
    decreases c, 11
  {
    if c.Cast? {
      var name, n := c.name, c.stars;
      var tail := [Sym(RParen)] + (Yield(c.e) + rest);
      var after := Stars(n) + tail;
      CastLayout(c, rest);
      StarsStop(n, tail);
      CastComplete(c.e, rest);
    } else {
      YieldStarts(c, rest);
      UnaryComplete(c, rest);
    }
  }

  lemma CastLayout(c: Cst, rest: seq<Token>)
    requires c.Cast?
    ensures var toks := Yield(c) + rest;
            var after := Stars(c.stars) + ([Sym(RParen)] + (Yield(c.e) + rest));
            && First(toks) == Sym(RParen) && First(toks[1..]) == Type(c.name) && Tail(toks[1..]) == after
            && after[c.stars..] == [Sym(RParen)] + (Yield(c.e) + rest) && after[c.stars + 1..] == Yield(c.e) + rest
  {
    var n := c.stars;
    var after := Stars(n) + ([Sym(RParen)] + (Yield(c.e) + rest));
    Assoc([Sym(RParen)], Yield(c.e), rest);
    Assoc(Stars(n), [Sym(RParen)] + Yield(c.e), rest);
    Assoc([Sym(RParen), Type(c.name)], Stars(n) + ([Sym(RParen)] + Yield(c.e)), rest);
    assert Yield(c) + rest == [Sym(RParen), Type(c.name)] + after;
    assert after[n + 1..] == after[n..][1..];
  }

  lemma {:induction false} StarsStop(n: nat, tail: seq<Token>)
    requires First(tail) != Sym(Mul)
    ensures CountStars(Stars(n) + tail) == n
  {
    if n == 0 {
      assert Stars(0) + tail == tail;
    } else {
      assert (Stars(n) + tail)[1..] == Stars(n - 1) + tail;
      StarsStop(n - 1, tail);
    }
  }

  lemma {:induction false} PostfixComplete(c: Cst, rest: seq<Token>)
    requires Good(c) && Level(c) >= POSTFIX && Stops(c, First(rest))
    ensures ParsePostfix(Yield(c) + rest) == Parsed(c, rest)
    decreases c, 9
  {
    if c.Index? {
      IndexChain(c, rest);
    } else if c.Dotted? {
      MemberChain(c, rest);
    } else if c.Post? {
      IncrementChain(c, rest);
    } else {
      PrimaryComplete(c, rest);
    }
  }

  /** A chain of subscripts is parsed up to its end, and then goes on. */
  lemma {:induction false} IndexChain(c: Cst, rest: seq<Token>)
    requires Good(c) && c.Index?
    ensures ParsePostfix(Yield(c) + rest) == ParseIndices(c, rest)
    decreases c, 7
  {
    var b, i := c.base, c.index;
    var close := [Sym(RBracket)] + rest;
    var open0 := [Sym(LBracket)] + (Yield(i) + close);
    Assoc(Yield(i), [Sym(RBracket)], rest);
    AssocThree(Yield(b), Sym(LBracket), Yield(i) + [Sym(RBracket)], rest);
    IndexParts(c);
    hide Yield, Good, Stops, Level, Complete, ParsePostfix, Parse, ParseIndices;
    ParseComplete(0, i, close);
    IndexStep(b, i, rest);
    if b.Index? {
      IndexChain(b, open0);
    } else {
      PrimaryThenChain(b, open0);
    }
  }

  lemma IndexParts(c: Cst)
    requires Good(c) && c.Index?
    ensures Good(c.base) && (c.base.Index? || IsPrimary(c.base)) && Complete(0, c.index, Sym(RBracket))
  {
    AlwaysStops(c.index, Sym(RBracket));
  }

  lemma IndexStep(b: Cst, i: Cst, rest: seq<Token>)
    requires Parse(0, Yield(i) + ([Sym(RBracket)] + rest)) == Parsed(i, [Sym(RBracket)] + rest)
    ensures ParseIndices(b, [Sym(LBracket)] + (Yield(i) + ([Sym(RBracket)] + rest))) == ParseIndices(Index(b, i), rest)
  {
    hide Parse, Yield;
    Behind(Sym(LBracket), Yield(i) + ([Sym(RBracket)] + rest));
    Behind(Sym(RBracket), rest);
  }

  /** A primary expression, and the chain that opens behind it. */
  lemma {:induction false} PrimaryThenChain(b: Cst, rest: seq<Token>)
    requires Good(b) && IsPrimary(b) && OpensChain(First(rest))
    ensures ParsePostfix(Yield(b) + rest) == ParseChain(b, rest)
    ensures First(rest) == Sym(LBracket) ==> ParsePostfix(Yield(b) + rest) == ParseIndices(b, rest)
    decreases b, 8
  {
    PrimaryComplete(b, rest);
  }

  lemma {:induction false} MemberChain(c: Cst, rest: seq<Token>)
    requires Good(c) && c.Dotted?
    ensures ParsePostfix(Yield(c) + rest) == ParseMembers(c, rest)
    decreases c, 7
  {
    var b := c.base;
    var dotted := [Sym(c.op), c.skipped, Ident(c.name)] + rest;
    Assoc(Yield(b), [Sym(c.op), c.skipped, Ident(c.name)], rest);
    hide Yield, ParsePostfix, ParseMembers;
    MemberStep(b, c.op, c.skipped, c.name, rest);
    if b.Dotted? {
      MemberChain(b, dotted);
    } else {
      PrimaryThenChain(b, dotted);
    }
  }

  lemma MemberStep(b: Cst, op: Symbol, skipped: Token, name: string, rest: seq<Token>)
    requires op == Dot || op == Arrow
    ensures var dotted := [Sym(op), skipped, Ident(name)] + rest;
            && ParseMembers(b, dotted) == ParseMembers(Dotted(b, op, skipped, name), rest)
            && ParseChain(b, dotted) == ParseMembers(b, dotted) && OpensChain(First(dotted))
  {
    hide ParseMembers;
    var dotted := [Sym(op), skipped, Ident(name)] + rest;
    MembersTurn(b, dotted);
    assert Tail(dotted[1..]) == [Ident(name)] + rest;
    Behind(Ident(name), rest);
  }

  lemma {:induction false} IncrementChain(c: Cst, rest: seq<Token>)
    requires Good(c) && c.Post?
    ensures ParsePostfix(Yield(c) + rest) == ParseIncrements(c, rest)
    decreases c, 7
  {
    var b := c.base;
    Assoc(Yield(b), [Sym(c.op)], rest);
    Behind(Sym(c.op), rest);
    if b.Post? {
      IncrementChain(b, [Sym(c.op)] + rest);
    } else {
      PrimaryComplete(b, [Sym(c.op)] + rest);
    }
  }

  lemma {:induction false} PrimaryComplete(c: Cst, rest: seq<Token>)
    requires Good(c) && IsPrimary(c) && StopsPrimary(c, First(rest))
    ensures ParsePrimary(Yield(c) + rest) == Parsed(c, rest)
    decreases c, 6
  {
    if c.Paren? {
      ParenComplete(c, rest);
    } else if c.Apply? {
      ApplyComplete(c, rest);
    } else if c.Strings? {
      var parts := c.parts;
      assert Pieces(parts) == [Str(parts[0])] + Pieces(parts[1..]);
      Assoc([Str(parts[0])], Pieces(parts[1..]), rest);
      Behind(Str(parts[0]), Pieces(parts[1..]) + rest);
      StringsComplete([parts[0]], parts[1..], rest);
      assert [parts[0]] + parts[1..] == parts;
    } else {
      assert (Yield(c) + rest)[1..] == rest;
    }
  }

  lemma {:induction false} ParenComplete(c: Cst, rest: seq<Token>)
    requires Good(c) && c.Paren?
    ensures ParsePrimary(Yield(c) + rest) == Parsed(c, rest)
    decreases c, 1
  {
    var e, close := c.e, [Sym(RParen)] + rest;
    Assoc(Yield(e), [Sym(RParen)], rest);
    Assoc([Sym(LParen)], Yield(e) + [Sym(RParen)], rest);
    AlwaysStops(e, Sym(RParen));
    hide Yield, Parse;
    Behind(Sym(LParen), Yield(e) + close);
    Behind(Sym(RParen), rest);
    ParseComplete(0, e, close);
  }

  lemma {:induction false} ApplyComplete(c: Cst, rest: seq<Token>)
    requires Good(c) && c.Apply?
    ensures ParsePrimary(Yield(c) + rest) == Parsed(c, rest)
    decreases c, 1
  {
    var f, args, close := c.f, c.args, [Sym(RParen)] + rest;
    Assoc(Commas(args), [Sym(RParen)], rest);
    Assoc([Ident(f), Sym(LParen)], Commas(args) + [Sym(RParen)], rest);
    ArgumentsComplete(f, [], args, rest);
    assert [] + args == args;
    hide Commas, Yield, ParseArguments;
    var toks := [Ident(f), Sym(LParen)] + (Commas(args) + close);
    assert toks[1..] == [Sym(LParen)] + (Commas(args) + close) && toks[2..] == Commas(args) + close;
  }

  lemma {:induction false} StringsComplete(parts: seq<string>, more: seq<string>, rest: seq<Token>)
    requires !First(rest).Str?
    ensures ParseStrings(parts, Pieces(more) + rest) == Parsed(Strings(parts + more), rest)
    decreases more
  {
    if more == [] {
      assert Pieces(more) + rest == rest && parts + more == parts;
    } else {
      assert (Pieces(more) + rest)[1..] == Pieces(more[1..]) + rest;
      StringsComplete(parts + [more[0]], more[1..], rest);
      assert parts + [more[0]] + more[1..] == parts + more;
    }
  }

  ghost predicate GoodArguments(args: seq<Cst>) {
    (forall i :: 0 <= i < |args| ==> Good(args[i]) && Level(args[i]) >= 1) == true
  }

  /** What stands behind an argument: the closing parenthesis, or a comma and more arguments. */
  function Behind1(more: seq<Cst>, rest: seq<Token>): seq<Token> {
    if more == [] then [Sym(RParen)] + rest else [Sym(Comma)] + ArgumentTokens(more, rest)
  }

  function ArgumentTokens(args: seq<Cst>, rest: seq<Token>): seq<Token> {
    Commas(args) + ([Sym(RParen)] + rest)
  }

  lemma ArgumentParts(args: seq<Cst>, rest: seq<Token>)
    requires GoodArguments(args) && args != []
    ensures Complete(1, args[0], First(Behind1(args[1..], rest))) && GoodArguments(args[1..])
    ensures ArgumentTokens(args, rest) == Yield(args[0]) + Behind1(args[1..], rest)
    ensures First(ArgumentTokens(args, rest)) != Sym(RParen)
  {
    var a := args[0];
    AlwaysStops(a, Sym(RParen));
    AlwaysStops(a, Sym(Comma));
    YieldStarts(a, Behind1(args[1..], rest));
    hide Yield, Stops, Good, Level;
    ArgumentsLayout(args, [Sym(RParen)] + rest);
  }

  /** One turn of the argument loop. */
  lemma ArgumentsTurn(f: string, done: seq<Cst>, a: Cst, more: seq<Cst>, rest: seq<Token>)
    requires Parse(1, Yield(a) + Behind1(more, rest)) == Parsed(a, Behind1(more, rest))
    requires First(Yield(a) + Behind1(more, rest)) != Sym(RParen)
    requires more != [] ==> First(ArgumentTokens(more, rest)) != Sym(RParen)
    ensures ParseArguments(f, done, Yield(a) + Behind1(more, rest))
         == ParseArguments(f, done + [a], ArgumentTokens(more, rest))
  {
    hide Parse, Yield;
    if more == [] {
      assert ArgumentTokens(more, rest) == Behind1(more, rest);
    } else {
      hide Commas;
      Behind(Sym(Comma), ArgumentTokens(more, rest));
    }
  }

  lemma Shift(done: seq<Cst>, args: seq<Cst>)
    requires args != []
    ensures done + [args[0]] + args[1..] == done + args
  {
  }

  lemma NoMoreArguments(f: string, done: seq<Cst>, rest: seq<Token>)
    ensures ParseArguments(f, done, ArgumentTokens([], rest)) == Parsed(Apply(f, done + []), rest)
  {
    Behind(Sym(RParen), rest);
    assert ArgumentTokens([], rest) == [Sym(RParen)] + rest && done + [] == done;
  }

  lemma {:induction false} ArgumentsComplete(f: string, done: seq<Cst>, args: seq<Cst>, rest: seq<Token>)
    requires GoodArguments(args)
    ensures ParseArguments(f, done, ArgumentTokens(args, rest)) == Parsed(Apply(f, done + args), rest)
    decreases args, 5
  {
    if args == [] {
      NoMoreArguments(f, done, rest);
    } else {
      hide Commas, Yield, Good, Stops, Level, ParseArguments, Parse, GoodArguments, Complete, ArgumentTokens, Behind1;
      var a, more := args[0], args[1..];
      ArgumentParts(args, rest);
      if more != [] {
        ArgumentParts(more, rest);
      }
      ParseComplete(1, a, Behind1(more, rest));
      ArgumentsComplete(f, done + [a], more, rest);
      ArgumentsTurn(f, done, a, more, rest);
      Shift(done, args);
    }
  }

  lemma ArgumentsLayout(args: seq<Cst>, close: seq<Token>)
    requires args != []
    ensures Commas(args) + close
         == Yield(args[0]) + (if args[1..] == [] then close else [Sym(Comma)] + (Commas(args[1..]) + close))
  {
    hide Yield;
    if |args| > 1 {
      AssocThree(Yield(args[0]), Sym(Comma), Commas(args[1..]), close);
    }
  }

  // ----- the two together -----

  /** The parser at `level` succeeds with derivation `c` and leaves `rest` if
      and only if `c` is a derivation at that level of the consumed tokens and
      the next token does not continue it. */
  lemma ParseExactly(level: nat, toks: seq<Token>, c: Cst, rest: seq<Token>)
    requires level <= UNARY
    ensures Parse(level, toks) == Parsed(c, rest)
       <==> Derives(level, c, toks, rest) && Quiet(level, First(rest))
  {
    hide Parse, Good, Stops, Yield;
    ParseSound(level, toks);
    if Derives(level, c, toks, rest) && Quiet(level, First(rest)) {
      ParseComplete(level, c, rest);
    }
  }

  /** A token string has at most one derivation, and so at most one tree. */
  lemma Unambiguous(c: Cst, c': Cst)
    requires Good(c) && Good(c') && Level(c) >= 0 && Level(c') >= 0 && Yield(c) == Yield(c')
    ensures c == c'
  {
    hide Good, Stops, Level, Yield, Parse, Complete, First;
    CompleteAtEnd(c);
    CompleteAtEnd(c');
    ParseComplete(0, c, []);
    ParseComplete(0, c', []);
  }

  lemma CompleteAtEnd(c: Cst)
    ensures Good(c) && Level(c) >= 0 ==> Complete(0, c, First([]))
  {
    hide Good, Stops, Level;
    AlwaysStops(c, End);
  }

  /** A cast in the usual spelling, `( type )` before an operand, is never
      accepted: the cast level looks for `)` first, and no expression begins
      with the name of a type. */
  lemma UsualCastFails(level: nat, op: Symbol, name: string, toks: seq<Token>)
    requires level <= UNARY && (TakesCast(op) || TakesUnary(op))
    ensures Parse(level, [Sym(op), Sym(LParen), Type(name)] + toks).Failed?
  {
    var inner, whole := [Type(name)] + toks, [Sym(op), Sym(LParen), Type(name)] + toks;
    assert whole[1..][1..] == inner;
    if Parse(0, inner).Parsed? {
      ParseSound(0, inner);
      YieldStarts(Parse(0, inner).c, Parse(0, inner).rest);
    }
    var operand := whole[1..];
    assert First(operand) == Sym(LParen) && ParsePrimary(operand).Failed?;
    assert ParseUnary(operand).Failed? && ParseCast(operand).Failed?;
    assert ParseUnary(whole).Failed?;
    FailsBelow(level, whole);
  }

  lemma {:induction false} FailsBelow(level: nat, toks: seq<Token>)
    requires level <= UNARY && ParseUnary(toks).Failed?
    ensures Parse(level, toks).Failed?
    decreases UNARY - level
  {
    if level < UNARY {
      FailsBelow(level + 1, toks);
    }
  }
}
