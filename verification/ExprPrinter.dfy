/** Writing a tree with just the parentheses that the levels and the right
    grouping ask for: parsing gives the tree back, and no shorter token string
    does. */
module ExprPrinter {
  import opened Tokens
  import opened Grammar
  import opened ParserSpec
  import opened ParserCorrectness

  /** The trees of the grammar; a cast stands only under a prefix operator or a cast. */
  predicate Writable(t: Tree) {
    match t
    case Binary(op, l, r) => OpLevel(op) >= 0 && Writable(l) && !l.CastTo? && Writable(r) && !r.CastTo?
    case Ternary(c, a, b) => Writable(c) && !c.CastTo? && Writable(a) && !a.CastTo? && Writable(b) && !b.CastTo?
    case Unary(op, e) => Writable(e) && (TakesCast(op) || (TakesUnary(op) && !e.CastTo?))
    case PostUnary(op, e) => (op == Inc || op == Dec) && Writable(e) && !e.CastTo?
    case CastTo(_, _, e) => Writable(e)
    case Subscript(b, i) => Writable(b) && !b.CastTo? && Writable(i) && !i.CastTo?
    case Member(_, _, b) => Writable(b) && !b.CastTo?
    case Call(_, args) => forall i :: 0 <= i < |args| ==> Writable(args[i]) && !args[i].CastTo?
    case _ => true
  }

  function Wrap(needed: bool, c: Cst): Cst {
    if needed then Paren(c) else c
  }

  function Fit(level: int, c: Cst): Cst {
    Wrap(Level(c) < level, c)
  }

  function Build(t: Tree): Cst
    decreases t
  {
    match t
    case Binary(op, l, r) => Bin(op, Fit(OpLevel(op) + 1, Build(l)), Fit(OpLevel(op), Build(r)))
    case Ternary(c, a, b) => Cond(Fit(3, Build(c)), Fit(2, Build(a)), Fit(2, Build(b)))
    case Unary(op, e) => Pre(op, Wrap(!IsCastOperand(Build(e)), Build(e)))
    case PostUnary(op, e) => Post(Wrap(!IsPrimary(Build(e)) && !Build(e).Post?, Build(e)), op)
    case CastTo(name, n, e) => Cast(name, n, Wrap(!IsCastOperand(Build(e)), Build(e)))
    case Subscript(b, i) => Index(Wrap(!IsPrimary(Build(b)) && !Build(b).Index?, Build(b)), Build(i))
    case Member(isPtr, name, b) =>
      var op := if isPtr then Arrow else Dot;
      Dotted(Wrap(!IsPrimary(Build(b)) && !Build(b).Dotted?, Build(b)), op, Sym(op), name)
    case Call(f, args) => Apply(f, BuildAll(args))
    case Name(x) => Id(x)
    case Literal(kind, text) => Const(kind, text)
    case Text(text) => Strings([text])
  }

  function BuildAll(args: seq<Tree>): (cs: seq<Cst>)
    ensures |cs| == |args|
    decreases args
  {
    if args == [] then [] else [Fit(1, Build(args[0]))] + BuildAll(args[1..])
  }

  /** The tokens of a tree where an expression of `level` is expected. */
  function Print(level: nat, t: Tree): seq<Token> {
    Yield(Fit(level, Build(t)))
  }

  /** The printed derivation is one, and is the tree's. */
  ghost predicate Built(t: Tree) {
    && Good(Build(t)) && Abs(Build(t)) == t
    && (t.CastTo? <==> Build(t).Cast?) && (!t.CastTo? ==> Level(Build(t)) >= 0)
  }

  lemma WrapGood(needed: bool, c: Cst)
    requires Good(c) && (needed ==> Level(c) >= 0)
    ensures Good(Wrap(needed, c)) && Abs(Wrap(needed, c)) == Abs(c) && (needed ==> IsPrimary(Wrap(needed, c)))
  {
  }

  lemma BinaryBuilt(t: Tree)
    requires t.Binary? && OpLevel(t.op) >= 0 && Built(t.l) && Built(t.r) && !t.l.CastTo? && !t.r.CastTo?
    ensures Built(t)
  {
    WrapGood(Level(Build(t.l)) < OpLevel(t.op) + 1, Build(t.l));
    WrapGood(Level(Build(t.r)) < OpLevel(t.op), Build(t.r));
    hide Wrap;
  }

  lemma TernaryBuilt(t: Tree)
    requires t.Ternary? && Built(t.c) && Built(t.t) && Built(t.e) && !t.c.CastTo? && !t.t.CastTo? && !t.e.CastTo?
    ensures Built(t)
  {
    WrapGood(Level(Build(t.c)) < 3, Build(t.c));
    WrapGood(Level(Build(t.t)) < 2, Build(t.t));
    WrapGood(Level(Build(t.e)) < 2, Build(t.e));
    hide Wrap;
  }

  lemma UnaryBuilt(t: Tree)
    requires t.Unary? || t.CastTo?
    requires Built(t.e) && (t.Unary? ==> TakesCast(t.op) || (TakesUnary(t.op) && !t.e.CastTo?))
    ensures Built(t)
  {
    WrapGood(!IsCastOperand(Build(t.e)), Build(t.e));
    hide Wrap;
  }

  lemma PostBuilt(t: Tree)
    requires t.PostUnary? && (t.op == Inc || t.op == Dec) && Built(t.e) && !t.e.CastTo?
    ensures Built(t)
  {
    WrapGood(!IsPrimary(Build(t.e)) && !Build(t.e).Post?, Build(t.e));
    hide Wrap;
  }

  lemma SubscriptBuilt(t: Tree)
    requires t.Subscript? && Built(t.base) && !t.base.CastTo? && Built(t.index) && !t.index.CastTo?
    ensures Built(t)
  {
    WrapGood(!IsPrimary(Build(t.base)) && !Build(t.base).Index?, Build(t.base));
    hide Wrap;
  }

  lemma MemberBuilt(t: Tree)
    requires t.Member? && Built(t.base) && !t.base.CastTo?
    ensures Built(t)
  {
    WrapGood(!IsPrimary(Build(t.base)) && !Build(t.base).Dotted?, Build(t.base));
    hide Wrap;
  }

  lemma {:induction false} BuildGood(t: Tree)
    ensures Writable(t) ==> Built(t)
    decreases t
  {
    if Writable(t) {
      match t {
        case Binary(_, l, r) => BuildGood(l); BuildGood(r); BinaryBuilt(t);
        case Ternary(c, a, b) => BuildGood(c); BuildGood(a); BuildGood(b); TernaryBuilt(t);
        case Unary(_, e) => BuildGood(e); UnaryBuilt(t);
        case PostUnary(_, e) => BuildGood(e); PostBuilt(t);
        case CastTo(_, _, e) => BuildGood(e); UnaryBuilt(t);
        case Subscript(b, i) => BuildGood(b); BuildGood(i); SubscriptBuilt(t);
        case Member(_, _, b) => BuildGood(b); MemberBuilt(t);
        case Call(_, args) => BuildAllGood(args);
        case Text(text) => assert Joined([text]) == text + Joined([]);
        case _ =>
      }
    }
  }

  lemma {:induction false} BuildAllGood(args: seq<Tree>)
    requires forall i :: 0 <= i < |args| ==> Writable(args[i]) && !args[i].CastTo?
    ensures forall i :: 0 <= i < |args| ==> Good(BuildAll(args)[i]) && Level(BuildAll(args)[i]) >= 1
    ensures AbsAll(BuildAll(args)) == args
    decreases args
  {
    if args != [] {
      BuildGood(args[0]);
      BuildAllGood(args[1..]);
      assert BuildAll(args)[1..] == BuildAll(args[1..]);
    }
  }

  /** Printing and parsing gives the tree back and leaves what followed. */
  lemma RoundTrip(level: nat, t: Tree, rest: seq<Token>)
    requires level <= UNARY && Writable(t) && !t.CastTo?
    requires Quiet(level, First(rest)) && EndsAll(First(rest))
    ensures var o := Parse(level, Print(level, t) + rest);
            o.Parsed? && o.rest == rest && Abs(o.c) == t
  {
    var c := Fit(level, Build(t));
    BuildGood(t);
    AlwaysStops(c, First(rest));
    ParseComplete(level, c, rest);
  }

  /** The trees of derivations are the writable ones. */
  lemma {:induction false} DerivedIsWritable(c: Cst)
    requires Good(c)
    ensures Writable(Abs(c)) && (Abs(c).CastTo? <==> c.Cast?)
    decreases c
  {
    match c {
      case Bin(_, l, r) => DerivedIsWritable(l); DerivedIsWritable(r);
      case Cond(c0, a, b) => DerivedIsWritable(c0); DerivedIsWritable(a); DerivedIsWritable(b);
      case Pre(_, e) => DerivedIsWritable(e);
      case Cast(_, _, e) => DerivedIsWritable(e);
      case Index(b, i) => DerivedIsWritable(b); DerivedIsWritable(i);
      case Dotted(b, _, _, _) => DerivedIsWritable(b);
      case Post(b, _) => DerivedIsWritable(b);
      case Paren(e) => DerivedIsWritable(e);
      case Apply(_, args) => AllWritable(args);
      case _ =>
    }
  }

  lemma {:induction false} AllWritable(args: seq<Cst>)
    requires forall i :: 0 <= i < |args| ==> Good(args[i]) && Level(args[i]) >= 1
    ensures forall i :: 0 <= i < |args| ==> Writable(AbsAll(args)[i]) && !AbsAll(args)[i].CastTo?
    decreases args
  {
    if args != [] {
      DerivedIsWritable(args[0]);
      AllWritable(args[1..]);
    }
  }

  /** A tree has a derivation exactly when it can be written. */
  lemma WritableIffDerivable(t: Tree)
    ensures Writable(t) <==> exists c :: Good(c) && Abs(c) == t
  {
    if Writable(t) {
      BuildGood(t);
    }
    if c :| Good(c) && Abs(c) == t {
      DerivedIsWritable(c);
    }
  }

  // ----- no derivation of the tree is shorter -----

  /** Outside parentheses the printed derivation has the shape of any other. */
  ghost predicate Alike(c: Cst, b: Cst) {
    !c.Paren? ==>
      && Level(b) == Level(c)
      && (b.Index? <==> c.Index?) && (b.Dotted? <==> c.Dotted?) && (b.Post? <==> c.Post?) && (b.Cast? <==> c.Cast?)
  }

  ghost predicate Short(c: Cst) {
    && Alike(c, Build(Abs(c)))
    && |Yield(Build(Abs(c)))| + (if c.Paren? then 2 else 0) <= |Yield(c)|
  }

  /** Parentheses are only added where the other derivation has them too. */
  lemma WrapShort(needed: bool, c: Cst)
    requires Short(c) && (needed ==> c.Paren?)
    ensures |Yield(Wrap(needed, Build(Abs(c))))| <= |Yield(c)|
  {
    ParenLength(Build(Abs(c)));
  }

  lemma InfixShort(c: Cst)
    requires Good(c) && match c
                        case Bin(_, l, r) => Short(l) && Short(r)
                        case Cond(c0, a, b) => Short(c0) && Short(a) && Short(b)
                        case _ => false
    ensures Short(c)
  {
    hide Wrap;
    match c {
      case Bin(op, l, r) =>
        WrapShort(Level(Build(Abs(l))) < OpLevel(op) + 1, l);
        WrapShort(Level(Build(Abs(r))) < OpLevel(op), r);
      case Cond(c0, a, b) =>
        WrapShort(Level(Build(Abs(c0))) < 3, c0);
        WrapShort(Level(Build(Abs(a))) < 2, a);
        WrapShort(Level(Build(Abs(b))) < 2, b);
    }
  }

  lemma PrefixShort(c: Cst)
    requires (c.Pre? || c.Cast?) && Good(c) && Short(c.e)
    ensures Short(c)
  {
    WrapShort(!IsCastOperand(Build(Abs(c.e))), c.e);
    hide Wrap;
  }

  lemma PostShort(c: Cst)
    requires c.Post? && Good(c) && Short(c.base)
    ensures Short(c)
  {
    var b := Build(Abs(c.base));
    WrapShort(!IsPrimary(b) && !b.Post?, c.base);
    hide Wrap;
  }

  lemma IndexShort(c: Cst)
    requires c.Index? && Good(c) && Short(c.base) && Short(c.index)
    ensures Short(c)
  {
    var b := Build(Abs(c.base));
    WrapShort(!IsPrimary(b) && !b.Index?, c.base);
    hide Wrap;
  }

  lemma MemberShort(c: Cst)
    requires c.Dotted? && Good(c) && Short(c.base)
    ensures Short(c)
  {
    hide Wrap;
    var b := Build(Abs(c.base));
    WrapShort(!IsPrimary(b) && !b.Dotted?, c.base);
  }

  lemma {:induction false} Shortest(c: Cst)
    ensures Good(c) ==> Short(c)
    decreases c
  {
    if Good(c) {
      match c {
        case Bin(_, l, r) => Shortest(l); Shortest(r); InfixShort(c);
        case Cond(c0, a, b) => Shortest(c0); Shortest(a); Shortest(b); InfixShort(c);
        case Pre(_, e) => Shortest(e); PrefixShort(c);
        case Cast(_, _, e) => Shortest(e); PrefixShort(c);
        case Index(b, i) => Shortest(b); Shortest(i); IndexShort(c);
        case Dotted(b, _, _, _) => Shortest(b); MemberShort(c);
        case Post(b, _) => Shortest(b); PostShort(c);
        case Paren(e) => Shortest(e);
        case Apply(_, args) => ShortestAll(args);
        case _ =>
      }
    }
  }

  lemma {:induction false} ShortestAll(args: seq<Cst>)
    requires forall i :: 0 <= i < |args| ==> Good(args[i]) && Level(args[i]) >= 1
    ensures |Commas(BuildAll(AbsAll(args)))| <= |Commas(args)|
    decreases args
  {
    if args != [] {
      Shortest(args[0]);
      ShortestAll(args[1..]);
      assert AbsAll(args)[1..] == AbsAll(args[1..]);
      assert BuildAll(AbsAll(args))[1..] == BuildAll(AbsAll(args[1..]));
    }
  }

  /** Every token string that parses to a tree is at least as long as the printed one. */
  lemma FewestTokens(level: nat, toks: seq<Token>)
    requires level <= UNARY && Parse(level, toks).Parsed?
    ensures var o := Parse(level, toks); |Print(level, Abs(o.c))| <= |toks| - |o.rest|
  {
    hide Parse, Yield;
    ParseSound(level, toks);
    var c := Parse(level, toks).c;
    Shortest(c);
    ParenLength(Build(Abs(c)));
  }

  lemma ParenLength(c: Cst)
    ensures |Yield(Paren(c))| == |Yield(c)| + 2
  {
  }
}
