/** When one object per name is what C means: the condition under which the
    flat meaning of a function, which its code has, is its block-scoped meaning. */
module ScopeAgreement {
  import opened Ast
  import opened World
  import opened CSemantics
  import opened BlockScopes
  import Int32

  // ----- expressions in two tables -----

  function NamesIn(e: Expr): set<string> {
    match e
    case Lit(_) => {}
    case Var(x) => {x}
    case Arith(_, l, r) => NamesIn(l) + NamesIn(r)
    case Neg(e1) => NamesIn(e1)
    case Call(_, args) => NamesInAll(args)
    case Index(base, sub) => NamesIn(base) + NamesIn(sub)
    case Assign(_, lhs, rhs) => NamesIn(lhs) + NamesIn(rhs)
    case IncDec(_, target) => NamesIn(target)
    case Rel(_, l, r) => NamesIn(l) + NamesIn(r)
    case Logic(_, l, r) => NamesIn(l) + NamesIn(r)
  }

  function NamesInAll(es: seq<Expr>): set<string> {
    if es == [] then {} else NamesIn(es[0]) + NamesInAll(es[1..])
  }

  /** On these names both tables and both stores say the same. */
  ghost predicate Agree(vs: set<string>, env: Env, st: Store, env': Env, st': Store) {
    && st.world == st'.world
    && forall x :: x in vs ==>
         && (x in env.slots <==> x in env'.slots)
         && (x in env.slots ==> (x in st.locals <==> x in st'.locals) && (x in st.locals ==> st.locals[x] == st'.locals[x]))
  }

  /** No local other than these got a value. */
  ghost predicate Within(vs: set<string>, env: Env, st: Store, st1: Store) {
    forall x :: x in st1.locals ==> x in st.locals || (x in vs && x in env.slots)
  }

  ghost predicate SameEval(vs: set<string>, env: Env, st: Store, r: Eval, env': Env, st': Store, r': Eval) {
    match r
    case Err(why) => r' == Err(why)
    case Ok(v, st1) =>
      r'.Ok? && r'.v == v && Agree(vs, env, st1, env', r'.st) && Within(vs, env, st, st1) && Within(vs, env', st', r'.st)
  }

  ghost predicate SameEvals(vs: set<string>, env: Env, st: Store, r: EvalList, env': Env, st': Store, r': EvalList) {
    match r
    case Errs(why) => r' == Errs(why)
    case Oks(ns, st1) =>
      r'.Oks? && r'.vs == ns && Agree(vs, env, st1, env', r'.st) && Within(vs, env, st, st1) && Within(vs, env', st', r'.st)
  }

  /** An evaluation later on, seen from the start. */
  lemma SameEvalFrom(vs: set<string>, env: Env, st: Store, st1: Store, r: Eval, env': Env, st': Store, st1': Store, r': Eval)
    requires Within(vs, env, st, st1) && Within(vs, env', st', st1') && SameEval(vs, env, st1, r, env', st1', r')
    ensures SameEval(vs, env, st, r, env', st', r')
  {
  }

  lemma SameWrite(vs: set<string>, env: Env, st: Store, env': Env, st': Store, x: string, v: Value)
    requires Agree(vs, env, st, env', st') && x in vs
    ensures var st1, st1' := WriteVar(env, x, v, st), WriteVar(env', x, v, st');
            Agree(vs, env, st1, env', st1') && Within(vs, env, st, st1) && Within(vs, env', st', st1')
  {
  }

  lemma SameRead(vs: set<string>, env: Env, st: Store, env': Env, st': Store, x: string, kind: VarKind)
    requires Agree(vs, env, st, env', st') && x in vs
    ensures ReadVar(env, x, kind, st) == ReadVar(env', x, kind, st')
  {
  }

  lemma SameStart(vs: set<string>, env: Env, st: Store, env': Env, st': Store)
    requires Agree(vs, env, st, env', st')
    ensures forall v :: SameEval(vs, env, st, Ok(v, st), env', st', Ok(v, st'))
    ensures SameEvals(vs, env, st, Oks([], st), env', st', Oks([], st'))
    ensures st.world == st'.world
  {
  }

  /** The same change of the world on both sides. */
  lemma SameWorld(vs: set<string>, env: Env, st: Store, env': Env, st': Store, w: World, v: int)
    requires Agree(vs, env, st, env', st')
    ensures SameEval(vs, env, st, Ok(v, st.(world := w)), env', st', Ok(v, st'.(world := w)))
    ensures Agree(vs, env, st.(world := w), env', st'.(world := w))
  {
  }

  lemma SameWritten(vs: set<string>, env: Env, st: Store, env': Env, st': Store, x: string, n: int, v: int)
    requires Agree(vs, env, st, env', st') && x in vs
    ensures SameEval(vs, env, st, Ok(v, WriteVar(env, x, IntV(n), st)), env', st', Ok(v, WriteVar(env', x, IntV(n), st')))
  {
  }

  /** Only the names in it matter to an expression. */
  lemma {:induction false} SameValue(vs: set<string>, env: Env, st: Store, env': Env, st': Store, callee: Callee, e: Expr)
    requires NamesIn(e) <= vs && Agree(vs, env, st, env', st')
    ensures SameEval(vs, env, st, Evaluate(env, callee, e, st), env', st', Evaluate(env', callee, e, st'))
    decreases e, 1
  {
    hide Agree, Within, ReadVar, WriteVar;
    SameStart(vs, env, st, env', st');
    match e {
      case Lit(_) =>
      case Var(x) => SameRead(vs, env, st, env', st', x, Scalar);
      case Arith(_, l, r) => SamePair(vs, env, st, env', st', callee, e, l, r);
      case Neg(e1) =>
        SameValue(vs, env, st, env', st', callee, e1);
      case Call(f, args) =>
        SameValues(vs, env, st, env', st', callee, args);
        match EvaluateAll(env, callee, args, st) {
          case Errs(_) =>
          case Oks(ns, st1) =>
            var st1' := EvaluateAll(env', callee, args, st').st;
            SameStart(vs, env, st1, env', st1');
            match callee(f, ns, Record(st1.world, f, ns)) {
              case None =>
              case Some((v, w)) =>
                SameWorld(vs, env, st1, env', st1', w, v);
                SameEvalFrom(vs, env, st, st1, Ok(v, st1.(world := w)), env', st', st1', Ok(v, st1'.(world := w)));
            }
        }
      case Index(base, sub) =>
        SamePlace(vs, env, st, env', st', callee, base, sub);
        if Locate(env, callee, base, sub, st).Ok? {
          SameStart(vs, env, Locate(env, callee, base, sub, st).st, env', Locate(env', callee, base, sub, st').st);
        }
      case Assign(_, _, _) => SameAssign(vs, env, st, env', st', callee, e);
      case IncDec(op, target) =>
        if target.Var? {
          SameRead(vs, env, st, env', st', target.x, Scalar);
          match ReadVar(env, target.x, Scalar, st) {
            case Missing(_) =>
            case Got(before) =>
              if before.IntV? {
                var after := Int32.Wrap(before.n + Delta(op));
                SameWritten(vs, env, st, env', st', target.x, after, if IsPre(op) then after else before.n);
              }
          }
        }
      case Rel(_, l, r) => SamePair(vs, env, st, env', st', callee, e, l, r);
      case Logic(_, l, r) => SamePair(vs, env, st, env', st', callee, e, l, r);
    }
  }

  /** What a binary operator makes of its right operand, when the left one gave `a`. */
  function Joint(e: Expr, a: int, right: Eval): Eval
    requires e.Arith? || e.Rel? || e.Logic?
  {
    match right
    case Err(why) => Err(why)
    case Ok(b, st) =>
      if e.Arith? then
        (match Compute(e.aop, a, b)
         case None => Err(DivByZero)
         case Some(v) => Ok(v, st))
      else if e.Rel? then Ok(BoolInt(Compare(e.rop, a, b)), st)
      else Ok(BoolInt(b != 0), st)
  }

  /** The left operand alone decides. */
  predicate Decided(e: Expr, a: int) {
    e.Logic? && (a != 0) == (e.lop == Or)
  }

  lemma PairValue(env: Env, callee: Callee, e: Expr, st: Store)
    requires e.Arith? || e.Rel? || e.Logic?
    ensures Evaluate(env, callee, e, st)
            == match Evaluate(env, callee, e.l, st)
               case Err(why) => Err(why)
               case Ok(a, st1) =>
                 if Decided(e, a) then Ok(BoolInt(e.lop == Or), st1)
                 else Joint(e, a, Evaluate(env, callee, e.r, st1))
  {
    hide Compute, Compare;
  }

  lemma SameJoint(vs: set<string>, env: Env, st: Store, r: Eval, env': Env, st': Store, r': Eval, e: Expr, a: int)
    requires (e.Arith? || e.Rel? || e.Logic?) && SameEval(vs, env, st, r, env', st', r')
    ensures SameEval(vs, env, st, Joint(e, a, r), env', st', Joint(e, a, r'))
  {
    hide Agree, Within, Compute, Compare;
  }

  /** Two operands, the second perhaps skipped. */
  lemma {:induction false} SamePair(vs: set<string>, env: Env, st: Store, env': Env, st': Store, callee: Callee,
                                    e: Expr, l: Expr, r: Expr)
    requires (e.Arith? || e.Rel? || e.Logic?) && l == e.l && r == e.r
    requires NamesIn(e) <= vs && Agree(vs, env, st, env', st')
    ensures SameEval(vs, env, st, Evaluate(env, callee, e, st), env', st', Evaluate(env', callee, e, st'))
    decreases e, 0
  {
    hide Agree, Within, Evaluate, Joint;
    PairValue(env, callee, e, st);
    PairValue(env', callee, e, st');
    SameValue(vs, env, st, env', st', callee, l);
    match Evaluate(env, callee, l, st) {
      case Err(_) =>
      case Ok(a, st1) =>
        if !Decided(e, a) {
          var st1' := Evaluate(env', callee, l, st').st;
          var right, right' := Evaluate(env, callee, r, st1), Evaluate(env', callee, r, st1');
          SameValue(vs, env, st1, env', st1', callee, r);
          SameJoint(vs, env, st1, right, env', st1', right', e, a);
          SameEvalFrom(vs, env, st, st1, Joint(e, a, right), env', st', st1', Joint(e, a, right'));
        }
    }
  }

  lemma {:induction false} SamePlace(vs: set<string>, env: Env, st: Store, env': Env, st': Store, callee: Callee,
                                     base: Expr, sub: Expr)
    requires NamesIn(base) + NamesIn(sub) <= vs && Agree(vs, env, st, env', st')
    ensures SameEval(vs, env, st, Locate(env, callee, base, sub, st), env', st', Locate(env', callee, base, sub, st'))
    ensures Locate(env, callee, base, sub, st).Ok? ==> RefOf(env, base, st) == RefOf(env', base, st')
    decreases sub, 2
  {
    hide Agree, Within, ReadVar;
    if base.Var? {
      SameRead(vs, env, st, env', st', base.x, Array);
      SameValue(vs, env, st, env', st', callee, sub);
    }
  }

  lemma {:induction false} SameValues(vs: set<string>, env: Env, st: Store, env': Env, st': Store, callee: Callee, es: seq<Expr>)
    requires NamesInAll(es) <= vs && Agree(vs, env, st, env', st')
    ensures SameEvals(vs, env, st, EvaluateAll(env, callee, es, st), env', st', EvaluateAll(env', callee, es, st'))
    decreases es
  {
    hide Agree, Within;
    SameStart(vs, env, st, env', st');
    if es != [] {
      SameValue(vs, env, st, env', st', callee, es[0]);
      match Evaluate(env, callee, es[0], st) {
        case Err(_) =>
        case Ok(v, st1) =>
          var st1' := Evaluate(env', callee, es[0], st').st;
          SameValues(vs, env, st1, env', st1', callee, es[1..]);
          SameEvalsFrom(vs, env, st, st1, EvaluateAll(env, callee, es[1..], st1),
                        env', st', st1', EvaluateAll(env', callee, es[1..], st1'));
      }
    }
  }

  lemma SameEvalsFrom(vs: set<string>, env: Env, st: Store, st1: Store, r: EvalList,
                      env': Env, st': Store, st1': Store, r': EvalList)
    requires Within(vs, env, st, st1) && Within(vs, env', st', st1') && SameEvals(vs, env, st1, r, env', st1', r')
    ensures SameEvals(vs, env, st, r, env', st', r')
  {
  }

  lemma {:induction false} SameAssign(vs: set<string>, env: Env, st: Store, env': Env, st': Store, callee: Callee, e: Expr)
    requires e.Assign? && NamesIn(e) <= vs && Agree(vs, env, st, env', st')
    ensures SameEval(vs, env, st, Evaluate(env, callee, e, st), env', st', Evaluate(env', callee, e, st'))
    decreases e, 0
  {
    hide Agree, Within, ReadVar, WriteVar, WriteElem, InBounds, Combine;
    match e.lhs {
      case Var(x) =>
        SameRead(vs, env, st, env', st', x, Scalar);
        SameValue(vs, env, st, env', st', callee, e.rhs);
        var before := if e.sop == Set then Got(IntV(0)) else ReadVar(env, x, Scalar, st);
        if before.Got? && before.v.IntV? && Evaluate(env, callee, e.rhs, st).Ok? {
          var Ok(b, st1) := Evaluate(env, callee, e.rhs, st);
          var st1' := Evaluate(env', callee, e.rhs, st').st;
          match Combine(e.sop, before.v.n, b) {
            case None =>
            case Some(v) =>
              SameWritten(vs, env, st1, env', st1', x, v, v);
              SameEvalFrom(vs, env, st, st1, Ok(v, WriteVar(env, x, IntV(v), st1)),
                           env', st', st1', Ok(v, WriteVar(env', x, IntV(v), st1')));
          }
        }
      case Index(base, sub) =>
        SamePlace(vs, env, st, env', st', callee, base, sub);
        if Locate(env, callee, base, sub, st).Ok? {
          var Ok(i, st1) := Locate(env, callee, base, sub, st);
          var st1' := Locate(env', callee, base, sub, st').st;
          SameStart(vs, env, st1, env', st1');
          SameValue(vs, env, st1, env', st1', callee, e.rhs);
          SameEvalFrom(vs, env, st, st1, Evaluate(env, callee, e.rhs, st1), env', st', st1', Evaluate(env', callee, e.rhs, st1'));
          if Evaluate(env, callee, e.rhs, st1).Ok? {
            SameStore(vs, env, st, Evaluate(env, callee, e.rhs, st1).st,
                      env', st', Evaluate(env', callee, e.rhs, st1').st, RefOf(env, base, st), i);
          }
        }
      case _ =>
    }
  }

  lemma SameStore(vs: set<string>, env: Env, st: Store, st2: Store, env': Env, st': Store, st2': Store, r: nat, i: int)
    requires Agree(vs, env, st2, env', st2') && Within(vs, env, st, st2) && Within(vs, env', st', st2')
    ensures st2.world == st2'.world
    ensures InBounds(st2.world, r, i) ==> forall v ::
              SameEval(vs, env, st, Ok(v, st2.(world := WriteElem(st2.world, r, i, v))),
                       env', st', Ok(v, st2'.(world := WriteElem(st2.world, r, i, v))))
  {
  }

  // ----- blocks without hiding -----

  /** The names each open block declares, innermost last. */
  type Layers = seq<set<string>>

  function Joined(layers: Layers): set<string> {
    if layers == [] then {} else Joined(layers[..|layers| - 1]) + layers[|layers| - 1]
  }

  ghost predicate Shaped(layers: Layers, bs: seq<Block>) {
    |bs| == |layers| && forall i :: 0 <= i < |bs| ==> bs[i].names == layers[i] && bs[i].values.Keys <= layers[i]
  }

  /** No block hides a name of another. */
  ghost predicate Apart(layers: Layers) {
    forall i, j :: 0 <= i < j < |layers| ==> layers[i] !! layers[j]
  }

  lemma {:induction false} JoinedHas(layers: Layers, i: nat)
    requires i < |layers|
    ensures layers[i] <= Joined(layers)
  {
    if i < |layers| - 1 {
      JoinedHas(layers[..|layers| - 1], i);
    }
  }

  lemma {:induction false} JoinedFrom(layers: Layers, x: string) returns (i: nat)
    requires x in Joined(layers)
    ensures i < |layers| && x in layers[i]
  {
    if x in layers[|layers| - 1] {
      i := |layers| - 1;
    } else {
      i := JoinedFrom(layers[..|layers| - 1], x);
    }
  }

  lemma {:induction false} ShapedValues(layers: Layers, bs: seq<Block>)
    requires Shaped(layers, bs) && Apart(layers)
    ensures Names(bs) == Joined(layers) && Values(bs).Keys <= Joined(layers)
    ensures forall i :: 0 <= i < |bs| ==> Restrict(Values(bs), layers[i]) == bs[i].values
    decreases |bs|
  {
    if bs != [] {
      var n := |bs| - 1;
      ShapedValues(layers[..n], bs[..n]);
      forall i | 0 <= i < |bs|
        ensures Restrict(Values(bs), layers[i]) == bs[i].values
      {
        if i < n {
          JoinedHas(layers[..n], i);
          assert layers[i] !! layers[n];
          assert Restrict(Values(bs[..n]), layers[..n][i]) == bs[i].values;
          assert forall x :: x in layers[i] ==> (x in Values(bs) <==> x in Values(bs[..n]));
        } else {
          assert forall x :: x in layers[n] ==> (x in Values(bs) <==> x in bs[n].values);
        }
      }
    }
  }

  /** What the names of an inner block are given does not matter to other names. */
  lemma RestrictMerged(m: map<string, Value>, inner: set<string>, hidden: map<string, Value>, names: set<string>)
    requires names !! inner
    ensures Restrict((m - inner) + Restrict(hidden, inner), names) == Restrict(m, names)
  {
  }

  lemma AbsorbStep(bs: seq<Block>, m: map<string, Value>)
    requires bs != []
    ensures var n := |bs| - 1;
            Absorb(bs, m) == Absorb(bs[..n], (m - bs[n].names) + Restrict(Values(bs[..n]), bs[n].names))
                             + [Block(bs[n].names, Restrict(m, bs[n].names))]
  {
  }

  lemma {:induction false} Absorbed(layers: Layers, bs: seq<Block>, m: map<string, Value>)
    requires Shaped(layers, bs) && Apart(layers)
    ensures Shaped(layers, Absorb(bs, m))
    ensures forall i :: 0 <= i < |bs| ==> Absorb(bs, m)[i].values == Restrict(m, layers[i])
    decreases |bs|
  {
    if bs == [] {
    } else {
      var n := |bs| - 1;
      var hidden := Values(bs[..n]);
      var m1 := (m - bs[n].names) + Restrict(hidden, bs[n].names);
      AbsorbStep(bs, m);
      Absorbed(layers[..n], bs[..n], m1);
      hide Absorb, Values;
      forall i | 0 <= i < n
        ensures Restrict(m1, layers[i]) == Restrict(m, layers[i])
      {
        assert layers[i] !! layers[n];
        RestrictMerged(m, layers[n], hidden, layers[i]);
      }
    }
  }

  // ----- states that match -----

  /** `seen` are the names declared so far, anywhere; every declared name has
      its own object, and no other local has a value. */
  ghost predicate Matches(env: Env, layers: Layers, seen: set<string>, sc: Scoped, st: Store) {
    && Shaped(layers, sc.blocks) && Apart(layers)
    && Joined(layers) <= seen && Joined(layers) <= env.slots.Keys
    && sc.world == st.world && st.locals.Keys <= seen
    && forall i :: 0 <= i < |layers| ==> sc.blocks[i].values == Restrict(st.locals, layers[i])
  }

  /** Every local the expression names is visible. */
  predicate Sees(env: Env, vis: set<string>, e: Expr) {
    forall x <- NamesIn(e) :: x in env.slots ==> x in vis
  }

  ghost predicate SameScoped(env: Env, layers: Layers, seen: set<string>, r: ScopedEval, r': Eval) {
    match r'
    case Err(why) => r == Stuck(why)
    case Ok(v, st) => r.Val? && r.v == v && Matches(env, layers, seen, r.sc, st)
  }

  lemma ViewAgrees(env: Env, layers: Layers, seen: set<string>, sc: Scoped, st: Store, e: Expr)
    requires Matches(env, layers, seen, sc, st) && Sees(env, Joined(layers), e)
    ensures Agree(Joined(layers) + NamesIn(e), Seen(env, sc.blocks), Store(Values(sc.blocks), sc.world), env, st)
    ensures Seen(env, sc.blocks).slots.Keys == Joined(layers) && Values(sc.blocks).Keys <= Joined(layers)
  {
    ShapedValues(layers, sc.blocks);
    var m := Values(sc.blocks);
    forall x | x in Joined(layers)
      ensures (x in m <==> x in st.locals) && (x in m ==> m[x] == st.locals[x])
    {
      var i := JoinedFrom(layers, x);
      assert Restrict(m, layers[i]) == sc.blocks[i].values == Restrict(st.locals, layers[i]);
      assert x in m <==> x in Restrict(m, layers[i]);
      assert x in st.locals <==> x in Restrict(st.locals, layers[i]);
    }
  }

  lemma NoOtherNames(env: Env, layers: Layers, e: Expr)
    ensures Sees(env, Joined(layers), e) ==>
              forall x :: x in Joined(layers) + NamesIn(e) && x in env.slots ==> x in Joined(layers)
  {
  }

  lemma ValueMatches(env: Env, layers: Layers, seen: set<string>, sc: Scoped, st: Store, callee: Callee, e: Expr)
    requires Matches(env, layers, seen, sc, st) && Sees(env, Joined(layers), e)
    ensures SameScoped(env, layers, seen, ValueIn(env, callee, e, sc), Evaluate(env, callee, e, st))
  {
    hide Evaluate, Seen, Values, NamesIn, Joined, Agree, Within, Absorb, Matches, Sees;
    var vs, env1, st1 := Joined(layers) + NamesIn(e), Seen(env, sc.blocks), Store(Values(sc.blocks), sc.world);
    ViewAgrees(env, layers, seen, sc, st, e);
    NoOtherNames(env, layers, e);
    SameValue(vs, env1, st1, env, st, callee, e);
    match Evaluate(env1, callee, e, st1) {
      case Err(_) =>
      case Ok(v, view) => ViewAbsorbed(env, layers, seen, sc, st, vs, env1, st1, view, Evaluate(env, callee, e, st).st);
    }
  }

  lemma ViewAbsorbed(env: Env, layers: Layers, seen: set<string>, sc: Scoped, st: Store, vs: set<string>,
                     env1: Env, st1: Store, view: Store, after: Store)
    requires Matches(env, layers, seen, sc, st) && Agree(vs, env1, view, env, after) && Within(vs, env, st, after)
    requires Joined(layers) <= vs && env1.slots.Keys == Joined(layers)
    requires forall x :: x in vs && x in env.slots ==> x in Joined(layers)
    ensures Matches(env, layers, seen, Scoped(Absorb(sc.blocks, view.locals), view.world), after)
  {
    Absorbed(layers, sc.blocks, view.locals);
    forall i | 0 <= i < |layers|
      ensures Restrict(view.locals, layers[i]) == Restrict(after.locals, layers[i])
    {
      JoinedHas(layers, i);
    }
  }

  // ----- statements without declarations -----

  /** No declaration, and every local used is visible. */
  predicate Plain(env: Env, vis: set<string>, s: Stmt) {
    match s
    case Empty => true
    case ExprStmt(e) => Sees(env, vis, e)
    case Decl(_, _) => false
    case ArrayDecl(_, _) => false
    case Compound(body) => forall i :: 0 <= i < |body| ==> Plain(env, vis, body[i])
    case If(_, cond, thn, elifs, els) =>
      && Sees(env, vis, cond) && Plain(env, vis, thn)
      && (forall i :: 0 <= i < |elifs| ==> Sees(env, vis, elifs[i].cond) && Plain(env, vis, elifs[i].body))
      && (els.Some? ==> Plain(env, vis, els.value))
    case While(_, cond, body) => Sees(env, vis, cond) && Plain(env, vis, body)
    case Do(_, body, cond) => Plain(env, vis, body) && (cond.Some? ==> Sees(env, vis, cond.value))
    case For(_, init, cond, step, body) =>
      && Plain(env, vis, init) && (cond.Some? ==> Sees(env, vis, cond.value))
      && Plain(env, vis, step) && Plain(env, vis, body)
    case Break => true
    case Continue => true
    case Return(val) => val.Some? ==> Sees(env, vis, val.value)
  }

  ghost predicate SameEnd(env: Env, layers: Layers, seen: set<string>, o: Ending<Scoped>, o': Outcome) {
    match o'
    case Normal(st) => o.Normal? && Matches(env, layers, seen, o.st, st)
    case Broke(st) => o.Broke? && Matches(env, layers, seen, o.st, st)
    case Continued(st) => o.Continued? && Matches(env, layers, seen, o.st, st)
    case Done(v, w) => o == Done(v, w)
    case Error(why) => o == Error(why)
    case Timeout => o == Timeout
  }

  lemma EnterMatches(env: Env, layers: Layers, seen: set<string>, sc: Scoped, st: Store)
    requires Matches(env, layers, seen, sc, st)
    ensures Matches(env, layers + [{}], seen, Enter(sc), st) && Joined(layers + [{}]) == Joined(layers)
  {
    assert (layers + [{}])[..|layers|] == layers;
    assert Restrict(st.locals, {}) == map[];
  }

  lemma ExitMatches(env: Env, layers: Layers, own: set<string>, seen: set<string>, sc: Scoped, st: Store)
    requires Matches(env, layers + [own], seen, sc, st)
    ensures Matches(env, layers, seen, Exit(sc), st)
  {
    assert (layers + [own])[..|layers|] == layers;
    assert forall i :: 0 <= i < |layers| ==> (layers + [own])[i] == layers[i];
  }

  lemma ExitEnds(env: Env, layers: Layers, own: set<string>, seen: set<string>, o: Ending<Scoped>, o': Outcome)
    requires SameEnd(env, layers + [own], seen, o, o')
    ensures SameEnd(env, layers, seen, ExitWith(o), o')
  {
    if o'.Normal? || o'.Broke? || o'.Continued? {
      ExitMatches(env, layers, own, seen, o.st, o'.st);
    }
  }

  lemma {:induction false} PlainEnds(env: Env, layers: Layers, seen: set<string>, sc: Scoped, st: Store, callee: Callee,
                                     s: Stmt, fuel: nat)
    requires Matches(env, layers, seen, sc, st) && Plain(env, Joined(layers), s)
    ensures SameEnd(env, layers, seen, Perform(env, callee, s, sc, fuel), Exec(env, callee, s, st, fuel))
    decreases fuel, s, if s.If? then |s.elifs| + 2 else 2
  {
    hide Matches, Sees, Evaluate, ValueIn, Iterate, Loop, Repeat, DoLoop, PerformElse, ExecElse, PerformAll, ExecAll;
    match s {
      case Empty =>
      case ExprStmt(e) => ValueMatches(env, layers, seen, sc, st, callee, e);
      case Compound(body) =>
        EnterMatches(env, layers, seen, sc, st);
        PlainAllEnds(env, layers + [{}], seen, Enter(sc), st, callee, body, fuel);
        ExitEnds(env, layers, {}, seen, PerformAll(env, callee, body, Enter(sc), fuel), ExecAll(env, callee, body, st, fuel));
      case If(_, cond, thn, _, _) =>
        ValueMatches(env, layers, seen, sc, st, callee, cond);
        if Evaluate(env, callee, cond, st).Ok? {
          var sc1, st1 := ValueIn(env, callee, cond, sc).sc, Evaluate(env, callee, cond, st).st;
          if Evaluate(env, callee, cond, st).v != 0 {
            BlockEnds(env, layers, seen, sc1, st1, callee, thn, fuel);
          } else {
            ElseEnds(env, layers, seen, sc1, st1, callee, s, 0, fuel);
          }
        }
      case While(_, _, _) => LoopEnds(env, layers, seen, sc, st, callee, s, fuel);
      case Do(_, _, _) => DoEnds(env, layers, seen, sc, st, callee, s, fuel);
      case For(_, init, _, _, _) =>
        PlainEnds(env, layers, seen, sc, st, callee, init, fuel);
        var o := Exec(env, callee, init, st, fuel);
        if o.Normal? {
          LoopEnds(env, layers, seen, Perform(env, callee, init, sc, fuel).st, o.st, callee, s, fuel);
        }
      case Return(Some(e)) =>
        ValueMatches(env, layers, seen, sc, st, callee, e);
        ValueWorld(env, layers, seen, sc, st, callee, e);
      case Return(None) => MatchesWorld(env, layers, seen, sc, st);
      case _ =>
    }
  }

  lemma MatchesWorld(env: Env, layers: Layers, seen: set<string>, sc: Scoped, st: Store)
    requires Matches(env, layers, seen, sc, st)
    ensures sc.world == st.world
  {
  }

  lemma ValueWorld(env: Env, layers: Layers, seen: set<string>, sc: Scoped, st: Store, callee: Callee, e: Expr)
    requires SameScoped(env, layers, seen, ValueIn(env, callee, e, sc), Evaluate(env, callee, e, st))
    ensures Evaluate(env, callee, e, st).Ok? ==> ValueIn(env, callee, e, sc).sc.world == Evaluate(env, callee, e, st).st.world
  {
    hide Evaluate, ValueIn;
  }

  /** A substatement, as a block of its own. */
  lemma {:induction false} BlockEnds(env: Env, layers: Layers, seen: set<string>, sc: Scoped, st: Store, callee: Callee,
                                     s: Stmt, fuel: nat)
    requires Matches(env, layers, seen, sc, st) && Plain(env, Joined(layers), s)
    ensures SameEnd(env, layers, seen, ExitWith(Perform(env, callee, s, Enter(sc), fuel)), Exec(env, callee, s, st, fuel))
    decreases fuel, s, if s.If? then |s.elifs| + 3 else 3
  {
    hide Matches, Sees, Perform, Exec;
    EnterMatches(env, layers, seen, sc, st);
    PlainEnds(env, layers + [{}], seen, Enter(sc), st, callee, s, fuel);
    ExitEnds(env, layers, {}, seen, Perform(env, callee, s, Enter(sc), fuel), Exec(env, callee, s, st, fuel));
  }

  lemma {:induction false} PlainAllEnds(env: Env, layers: Layers, seen: set<string>, sc: Scoped, st: Store, callee: Callee,
                                        ss: seq<Stmt>, fuel: nat)
    requires Matches(env, layers, seen, sc, st) && forall i :: 0 <= i < |ss| ==> Plain(env, Joined(layers), ss[i])
    ensures SameEnd(env, layers, seen, PerformAll(env, callee, ss, sc, fuel), ExecAll(env, callee, ss, st, fuel))
    decreases fuel, ss
  {
    hide Matches, Plain, Perform, Exec;
    if ss != [] {
      PlainEnds(env, layers, seen, sc, st, callee, ss[0], fuel);
      var o := Exec(env, callee, ss[0], st, fuel);
      if o.Normal? {
        PlainAllEnds(env, layers, seen, Perform(env, callee, ss[0], sc, fuel).st, o.st, callee, ss[1..], fuel);
      }
    }
  }

  lemma {:induction false} ElseEnds(env: Env, layers: Layers, seen: set<string>, sc: Scoped, st: Store, callee: Callee,
                                    s: Stmt, i: nat, fuel: nat)
    requires s.If? && i <= |s.elifs| && Matches(env, layers, seen, sc, st) && Plain(env, Joined(layers), s)
    ensures SameEnd(env, layers, seen, PerformElse(env, callee, s, i, sc, fuel), ExecElse(env, callee, s, i, st, fuel))
    decreases fuel, s, |s.elifs| - i + 1
  {
    hide Matches, Sees, Perform, Exec, Evaluate, ValueIn;
    if i == |s.elifs| {
      if s.els.Some? {
        BlockEnds(env, layers, seen, sc, st, callee, s.els.value, fuel);
      }
    } else {
      var cond := s.elifs[i].cond;
      ValueMatches(env, layers, seen, sc, st, callee, cond);
      if Evaluate(env, callee, cond, st).Ok? {
        var sc1, st1 := ValueIn(env, callee, cond, sc).sc, Evaluate(env, callee, cond, st).st;
        if Evaluate(env, callee, cond, st).v != 0 {
          BlockEnds(env, layers, seen, sc1, st1, callee, s.elifs[i].body, fuel);
        } else {
          ElseEnds(env, layers, seen, sc1, st1, callee, s, i + 1, fuel);
        }
      }
    }
  }

  lemma TruthMatches(env: Env, layers: Layers, seen: set<string>, sc: Scoped, st: Store, callee: Callee, cond: Option<Expr>)
    requires Matches(env, layers, seen, sc, st) && (cond.Some? ==> Sees(env, Joined(layers), cond.value))
    ensures SameScoped(env, layers, seen, Truth(env, callee, cond, sc), Test(env, callee, cond, st))
  {
    hide Matches, Evaluate, ValueIn;
    if cond.Some? {
      ValueMatches(env, layers, seen, sc, st, callee, cond.value);
    }
  }

  lemma LoopParts(env: Env, vis: set<string>, s: Stmt)
    requires (s.While? || s.For?) && Plain(env, vis, s)
    ensures Plain(env, vis, LoopBody(s)) && (LoopCond(s).Some? ==> Sees(env, vis, LoopCond(s).value))
  {
    hide Sees;
  }

  lemma {:induction false} LoopEnds(env: Env, layers: Layers, seen: set<string>, sc: Scoped, st: Store, callee: Callee,
                                    s: Stmt, fuel: nat)
    requires (s.While? || s.For?) && Matches(env, layers, seen, sc, st) && Plain(env, Joined(layers), s)
    ensures SameEnd(env, layers, seen, Iterate(env, callee, s, sc, fuel), Loop(env, callee, s, st, fuel))
    decreases fuel, s, 0
  {
    LoopParts(env, Joined(layers), s);
    hide Matches, Sees, Plain, Perform, Exec, Test, Truth, Again, IterateOn, Joined, LoopCond, LoopBody, ExitWith, Enter;
    if fuel > 0 {
      TruthMatches(env, layers, seen, sc, st, callee, LoopCond(s));
      var test := Test(env, callee, LoopCond(s), st);
      if test.Ok? && test.v != 0 {
        TurnEnds(env, layers, seen, Truth(env, callee, LoopCond(s), sc).sc, test.st, callee, s, fuel - 1);
      }
    }
  }

  /** What follows a true test, on both sides. */
  function Turn(env: Env, callee: Callee, s: Stmt, sc: Scoped, fuel: nat): Ending<Scoped>
    requires s.While? || s.For?
  {
    match ExitWith(Perform(env, callee, LoopBody(s), Enter(sc), fuel))
    case Normal(sc2) => IterateOn(env, callee, s, sc2, fuel)
    case Continued(sc2) => IterateOn(env, callee, s, sc2, fuel)
    case Broke(sc2) => Normal(sc2)
    case other => other
  }

  function FlatTurn(env: Env, callee: Callee, s: Stmt, st: Store, fuel: nat): Outcome
    requires s.While? || s.For?
  {
    match Exec(env, callee, LoopBody(s), st, fuel)
    case Normal(st2) => Again(env, callee, s, st2, fuel)
    case Continued(st2) => Again(env, callee, s, st2, fuel)
    case Broke(st2) => Normal(st2)
    case other => other
  }

  lemma {:induction false} TurnEnds(env: Env, layers: Layers, seen: set<string>, sc: Scoped, st: Store, callee: Callee,
                                    s: Stmt, fuel: nat)
    requires (s.While? || s.For?) && Matches(env, layers, seen, sc, st) && Plain(env, Joined(layers), s)
    ensures SameEnd(env, layers, seen, Turn(env, callee, s, sc, fuel), FlatTurn(env, callee, s, st, fuel))
    decreases fuel, s, 2
  {
    LoopParts(env, Joined(layers), s);
    hide Matches, Sees, Plain, Perform, Exec, Again, IterateOn, Joined, LoopCond, LoopBody, ExitWith, Enter;
    BlockEnds(env, layers, seen, sc, st, callee, LoopBody(s), fuel);
    var o, o' := ExitWith(Perform(env, callee, LoopBody(s), Enter(sc), fuel)), Exec(env, callee, LoopBody(s), st, fuel);
    if o'.Normal? || o'.Continued? {
      OnwardEnds(env, layers, seen, o.st, o'.st, callee, s, fuel);
    }
  }

  lemma {:induction false} OnwardEnds(env: Env, layers: Layers, seen: set<string>, sc: Scoped, st: Store, callee: Callee,
                                      s: Stmt, fuel: nat)
    requires (s.While? || s.For?) && Matches(env, layers, seen, sc, st) && Plain(env, Joined(layers), s)
    ensures SameEnd(env, layers, seen, IterateOn(env, callee, s, sc, fuel), Again(env, callee, s, st, fuel))
    decreases fuel, s, 1
  {
    hide Matches, Sees, Perform, Exec, Iterate, Loop;
    if s.While? {
      LoopEnds(env, layers, seen, sc, st, callee, s, fuel);
    } else {
      PlainEnds(env, layers, seen, sc, st, callee, s.step, fuel);
      var o := Exec(env, callee, s.step, st, fuel);
      if o.Normal? {
        LoopEnds(env, layers, seen, Perform(env, callee, s.step, sc, fuel).st, o.st, callee, s, fuel);
      }
    }
  }

  lemma {:induction false} DoEnds(env: Env, layers: Layers, seen: set<string>, sc: Scoped, st: Store, callee: Callee,
                                  s: Stmt, fuel: nat)
    requires s.Do? && Matches(env, layers, seen, sc, st) && Plain(env, Joined(layers), s)
    ensures SameEnd(env, layers, seen, Repeat(env, callee, s, sc, fuel), DoLoop(env, callee, s, st, fuel))
    decreases fuel, s, 0
  {
    hide Matches, Sees, Perform, Exec, RepeatTest, DoTest;
    if fuel > 0 {
      BlockEnds(env, layers, seen, sc, st, callee, s.dbody, fuel - 1);
      var o, o' := ExitWith(Perform(env, callee, s.dbody, Enter(sc), fuel - 1)), Exec(env, callee, s.dbody, st, fuel - 1);
      if o'.Normal? || o'.Continued? {
        DoTestEnds(env, layers, seen, o.st, o'.st, callee, s, fuel - 1);
      }
    }
  }

  lemma {:induction false} DoTestEnds(env: Env, layers: Layers, seen: set<string>, sc: Scoped, st: Store, callee: Callee,
                                      s: Stmt, fuel: nat)
    requires s.Do? && Matches(env, layers, seen, sc, st) && Plain(env, Joined(layers), s)
    ensures SameEnd(env, layers, seen, RepeatTest(env, callee, s, sc, fuel), DoTest(env, callee, s, st, fuel))
    decreases fuel, s, 1
  {
    hide Matches, Sees, Repeat, DoLoop, Test, Truth;
    TruthMatches(env, layers, seen, sc, st, callee, s.dcond);
    var test := Test(env, callee, s.dcond, st);
    if test.Ok? && test.v != 0 {
      DoEnds(env, layers, seen, Truth(env, callee, s.dcond, sc).sc, test.st, callee, s, fuel);
    }
  }

  // ----- functions -----

  /** The names declared by a statement for its own block, and anywhere in it. */
  function Own(s: Stmt): set<string> {
    match s
    case Decl(x, _) => {x}
    case ArrayDecl(x, _) => {x}
    case _ => {}
  }

  function Declared(s: Stmt): set<string> {
    match s
    case Decl(x, _) => {x}
    case ArrayDecl(x, _) => {x}
    case Compound(body) => DeclaredAll(body)
    case _ => {}
  }

  function DeclaredAll(ss: seq<Stmt>): set<string> {
    if ss == [] then {} else Declared(ss[0]) + DeclaredAll(ss[1..])
  }

  function OwnAll(ss: seq<Stmt>): set<string> {
    if ss == [] then {} else Own(ss[0]) + OwnAll(ss[1..])
  }

  /** A name is declared once in the function, as itself or in a nested block
      but not under an `if` or a loop, where the analyser does not look for
      declarations; and it is used only in its scope: behind its declaration,
      in its block. `vis` are the visible names, `seen` all declared so far. */
  predicate Tidy(env: Env, vis: set<string>, seen: set<string>, s: Stmt)
    decreases s
  {
    match s
    case Decl(x, init) =>
      x in env.slots && x !in seen && (init.Some? ==> Sees(env, vis + {x}, init.value))
    case ArrayDecl(x, _) => x in env.slots && x !in seen
    case Compound(body) => TidyAll(env, vis, seen, body)
    case _ => Plain(env, vis, s)
  }

  predicate TidyAll(env: Env, vis: set<string>, seen: set<string>, ss: seq<Stmt>)
    decreases ss
  {
    ss == [] ||
    (Tidy(env, vis, seen, ss[0]) && TidyAll(env, vis + Own(ss[0]), seen + Declared(ss[0]), ss[1..]))
  }

  function Grown(layers: Layers, names: set<string>): Layers
    requires layers != []
  {
    layers[..|layers| - 1] + [layers[|layers| - 1] + names]
  }

  /** The same end; after a normal one, the states match. */
  ghost predicate SameTidy(env: Env, layers: Layers, seen: set<string>, o: Ending<Scoped>, o': Outcome) {
    match o'
    case Normal(st) => o.Normal? && Matches(env, layers, seen, o.st, st)
    case Broke(_) => o.Broke?
    case Continued(_) => o.Continued?
    case Done(v, w) => o == Done(v, w)
    case Error(why) => o == Error(why)
    case Timeout => o == Timeout
  }

  lemma GrownJoins(layers: Layers, names: set<string>)
    requires layers != []
    ensures Joined(Grown(layers, names)) == Joined(layers) + names
    ensures names == {} ==> Grown(layers, names) == layers
  {
    assert Grown(layers, names)[..|layers| - 1] == layers[..|layers| - 1];
    assert layers == layers[..|layers| - 1] + [layers[|layers| - 1]];
    assert layers[|layers| - 1] + {} == layers[|layers| - 1];
  }

  lemma DeclareMatches(env: Env, layers: Layers, seen: set<string>, sc: Scoped, st: Store, x: string)
    requires Matches(env, layers, seen, sc, st) && layers != [] && x in env.slots && x !in seen
    ensures Matches(env, Grown(layers, {x}), seen + {x}, Declare(sc, x), st)
  {
    var n := |layers| - 1;
    var layers1, bs1 := Grown(layers, {x}), Declare(sc, x).blocks;
    GrownJoins(layers, {x});
    forall i | 0 <= i < |layers|
      ensures layers[i] <= seen
    {
      JoinedHas(layers, i);
    }
    assert forall i :: 0 <= i < n ==> bs1[i] == sc.blocks[i] && layers1[i] == layers[i];
    assert Restrict(st.locals, layers1[n]) == Restrict(st.locals, layers[n]);
  }

  lemma InitialiseMatches(env: Env, layers: Layers, seen: set<string>, sc: Scoped, st: Store, x: string, v: Value)
    requires Matches(env, layers, seen, sc, st) && layers != [] && x in layers[|layers| - 1]
    ensures Matches(env, layers, seen, Initialise(sc, x, v), WriteVar(env, x, v, st))
  {
    var n := |layers| - 1;
    var st1, bs1 := WriteVar(env, x, v, st), Initialise(sc, x, v).blocks;
    JoinedHas(layers, n);
    forall i | 0 <= i <= n
      ensures bs1[i].values == Restrict(st1.locals, layers[i])
    {
      if i < n {
        assert layers[i] !! layers[n];
      }
    }
  }

  lemma AllocateMatches(env: Env, layers: Layers, seen: set<string>, sc: Scoped, st: Store, size: nat)
    requires Matches(env, layers, seen, sc, st)
    ensures Matches(env, layers, seen, sc.(world := Allocate(sc.world, size)), st.(world := Allocate(st.world, size)))
    ensures sc.world == st.world
  {
  }

  lemma PlainIsTidy(env: Env, layers: Layers, seen: set<string>, o: Ending<Scoped>, o': Outcome)
    requires SameEnd(env, layers, seen, o, o') && layers != []
    ensures SameTidy(env, Grown(layers, {}), seen + {}, o, o')
  {
    GrownJoins(layers, {});
    assert seen + {} == seen;
  }

  lemma {:induction false} TidyEnds(env: Env, layers: Layers, seen: set<string>, sc: Scoped, st: Store, callee: Callee,
                                    s: Stmt, fuel: nat)
    requires Matches(env, layers, seen, sc, st) && layers != [] && Tidy(env, Joined(layers), seen, s)
    ensures SameTidy(env, Grown(layers, Own(s)), seen + Declared(s),
                     Perform(env, callee, s, sc, fuel), Exec(env, callee, s, st, fuel))
    decreases s, 1
  {
    hide Matches, Sees, Evaluate, ValueIn, PerformAll, ExecAll, Declare, Initialise, Grown, WriteVar, Allocate;
    match s {
      case Decl(x, init) =>
        DeclareMatches(env, layers, seen, sc, st, x);
        GrownJoins(layers, {x});
        GrownLast(layers, {x});
        if init.Some? {
          var layers1, sc1 := Grown(layers, {x}), Declare(sc, x);
          ValueMatches(env, layers1, seen + {x}, sc1, st, callee, init.value);
          var r, r' := ValueIn(env, callee, init.value, sc1), Evaluate(env, callee, init.value, st);
          if r'.Ok? {
            InitialiseMatches(env, layers1, seen + {x}, r.sc, r'.st, x, IntV(r'.v));
          }
        }
      case ArrayDecl(x, size) =>
        AllocateMatches(env, layers, seen, sc, st, size);
        var sc1, st1 := sc.(world := Allocate(sc.world, size)), st.(world := Allocate(st.world, size));
        DeclareMatches(env, layers, seen, sc1, st1, x);
        GrownLast(layers, {x});
        InitialiseMatches(env, Grown(layers, {x}), seen + {x}, Declare(sc1, x), st1, x, RefV(|st.world.heap|));
      case Compound(body) =>
        EnterMatches(env, layers, seen, sc, st);
        TidyAllEnds(env, layers + [{}], seen, Enter(sc), st, callee, body, fuel);
        GrownJoins(layers, {});
        var o, o' := PerformAll(env, callee, body, Enter(sc), fuel), ExecAll(env, callee, body, st, fuel);
        if o'.Normal? {
          GrownAbove(layers, OwnAll(body));
          ExitMatches(env, layers, OwnAll(body), seen + DeclaredAll(body), o.st, o'.st);
        }
      case _ =>
        PlainEnds(env, layers, seen, sc, st, callee, s, fuel);
        PlainIsTidy(env, layers, seen, Perform(env, callee, s, sc, fuel), Exec(env, callee, s, st, fuel));
    }
  }

  lemma GrownLast(layers: Layers, names: set<string>)
    requires layers != []
    ensures Grown(layers, names) != [] && names <= Grown(layers, names)[|Grown(layers, names)| - 1]
  {
  }

  lemma GrownAbove(layers: Layers, names: set<string>)
    ensures Grown(layers + [{}], names) == layers + [names]
  {
    assert (layers + [{}])[..|layers|] == layers && {} + names == names;
  }

  lemma {:induction false} TidyAllEnds(env: Env, layers: Layers, seen: set<string>, sc: Scoped, st: Store, callee: Callee,
                                       ss: seq<Stmt>, fuel: nat)
    requires Matches(env, layers, seen, sc, st) && layers != [] && TidyAll(env, Joined(layers), seen, ss)
    ensures SameTidy(env, Grown(layers, OwnAll(ss)), seen + DeclaredAll(ss),
                     PerformAll(env, callee, ss, sc, fuel), ExecAll(env, callee, ss, st, fuel))
    decreases ss, 0
  {
    hide Matches, Tidy, Perform, Exec, Grown, Own, Declared;
    GrownJoins(layers, {});
    if ss == [] {
      assert seen + {} == seen;
    } else {
      TidyEnds(env, layers, seen, sc, st, callee, ss[0], fuel);
      var layers1, seen1 := Grown(layers, Own(ss[0])), seen + Declared(ss[0]);
      var o := Exec(env, callee, ss[0], st, fuel);
      if o.Normal? {
        GrownJoins(layers, Own(ss[0]));
        GrownLast(layers, Own(ss[0]));
        TidyAllEnds(env, layers1, seen1, Perform(env, callee, ss[0], sc, fuel).st, o.st, callee, ss[1..], fuel);
        GrownTwice(layers, Own(ss[0]), OwnAll(ss[1..]));
        assert seen1 + DeclaredAll(ss[1..]) == seen + DeclaredAll(ss);
      }
    }
  }

  lemma GrownTwice(layers: Layers, a: set<string>, b: set<string>)
    requires layers != []
    ensures Grown(layers, a) != [] && Grown(Grown(layers, a), b) == Grown(layers, a + b)
  {
    var n := |layers| - 1;
    assert Grown(layers, a)[..n] == layers[..n];
    assert (layers[n] + a) + b == layers[n] + (a + b);
  }

  /** The call of a function: its parameters are declared in its outermost block, and have values. */
  function Called(params: set<string>, st: Store): Scoped {
    Scoped([Block(params, st.locals)], st.world)
  }

  /** The same as seen from outside the function. */
  predicate SameResult(o: Ending<Scoped>, o': Outcome) {
    match o'
    case Normal(st) => o.Normal? && o.st.world == st.world
    case Broke(_) => o.Broke?
    case Continued(_) => o.Continued?
    case Done(v, w) => o == Done(v, w)
    case Error(why) => o == Error(why)
    case Timeout => o == Timeout
  }

  /** For every tidy function, one object per name is what C means: the same
      end, with the same result, world or error. */
  lemma FlatIsScoped(env: Env, params: set<string>, callee: Callee, body: seq<Stmt>, st: Store, fuel: nat)
    requires params <= env.slots.Keys && st.locals.Keys <= params && TidyAll(env, params, params, body)
    ensures SameResult(PerformAll(env, callee, body, Called(params, st), fuel), ExecAll(env, callee, body, st, fuel))
  {
    var layers: Layers := [params];
    assert layers[..0] == [] && Joined(layers) == params;
    assert Restrict(st.locals, params) == st.locals;
    TidyAllEnds(env, layers, params, Called(params, st), st, callee, body, fuel);
  }

  // ----- where they part -----

  /** int x = a; { int y = b; } return x; */
  function InnerDecl(x: string, y: string, a: int, b: int): seq<Stmt> {
    [Decl(x, Some(Lit(a))), Compound([Decl(y, Some(Lit(b)))]), Return(Some(Var(x)))]
  }

  ghost predicate Proper(bs: seq<Block>) {
    forall i :: 0 <= i < |bs| ==> bs[i].values.Keys <= bs[i].names
  }

  /** Values seen through a block, split again into hidden and own ones. */
  lemma SplitValues(outer: map<string, Value>, names: set<string>, own: map<string, Value>)
    requires own.Keys <= names
    ensures var m := (outer - names) + own;
            Restrict(m, names) == own && (m - names) + Restrict(outer, names) == outer
  {
  }

  lemma {:induction false} AbsorbValues(bs: seq<Block>)
    requires Proper(bs)
    ensures Absorb(bs, Values(bs)) == bs
    decreases |bs|
  {
    if bs == [] {
    } else {
      var n := |bs| - 1;
      AbsorbStep(bs, Values(bs));
      AbsorbValues(bs[..n]);
      SplitValues(Values(bs[..n]), bs[n].names, bs[n].values);
      assert bs == bs[..n] + [bs[n]];
      hide Absorb, Restrict;
    }
  }

  /** In C a name's value is that of its innermost declaration, even if outer ones are hidden. */
  lemma ReadsInnermost(env: Env, callee: Callee, sc: Scoped, x: string, a: int)
    requires Proper(sc.blocks) && x in Names(sc.blocks) && x in Values(sc.blocks) && Values(sc.blocks)[x] == IntV(a)
    ensures ValueIn(env, callee, Var(x), sc) == Val(a, sc)
  {
    AbsorbValues(sc.blocks);
  }

  lemma DeclaresLiteral(env: Env, callee: Callee, sc: Scoped, x: string, a: int, fuel: nat)
    requires Proper(sc.blocks) && sc.blocks != [] && Int32.Fits(a)
    ensures Perform(env, callee, Decl(x, Some(Lit(a))), sc, fuel) == Normal(Initialise(Declare(sc, x), x, IntV(a)))
  {
    AbsorbValues(Declare(sc, x).blocks);
  }

  lemma OneStatement(env: Env, callee: Callee, s: Stmt, ss: seq<Stmt>, sc: Scoped, st: Store, fuel: nat)
    ensures ([s] + ss)[0] == s && ([s] + ss)[1..] == ss
    ensures PerformAll(env, callee, [s] + ss, sc, fuel)
         == match Perform(env, callee, s, sc, fuel)
            case Normal(sc1) => PerformAll(env, callee, ss, sc1, fuel)
            case other => other
    ensures ExecAll(env, callee, [s] + ss, st, fuel)
         == match Exec(env, callee, s, st, fuel)
            case Normal(st1) => ExecAll(env, callee, ss, st1, fuel)
            case other => other
  {
    hide Perform, Exec;
    assert ([s] + ss)[1..] == ss;
  }

  /** In C a block that only declares changes nothing outside. */
  lemma BlockLeavesNothing(env: Env, callee: Callee, sc: Scoped, y: string, b: int, fuel: nat)
    requires Proper(sc.blocks) && Int32.Fits(b)
    ensures Perform(env, callee, Compound([Decl(y, Some(Lit(b)))]), sc, fuel) == Normal(sc)
  {
    var inner := Enter(sc);
    var sc1 := Initialise(Declare(inner, y), y, IntV(b));
    DeclaresLiteral(env, callee, inner, y, b, fuel);
    assert inner.blocks[..|sc.blocks|] == sc.blocks;
    assert sc1.blocks[..|sc.blocks|] == sc.blocks && Exit(sc1) == sc;
    OneStatement(env, callee, Decl(y, Some(Lit(b))), [], inner, Store(map[], sc.world), fuel);
    NoStatement(env, callee, sc1, Store(map[], sc.world), fuel);
    assert [Decl(y, Some(Lit(b)))] + [] == [Decl(y, Some(Lit(b)))];
    hide PerformAll;
    assert PerformAll(env, callee, [Decl(y, Some(Lit(b)))], inner, fuel) == Normal(sc1);
  }

  lemma SingleBlock(b: Block)
    ensures Values([b]) == b.values && Names([b]) == b.names
  {
    var none: map<string, Value> := map[];
    assert [b][..0] == [] && none - b.names == none && none + b.values == b.values && {} + b.names == b.names;
  }

  lemma FirstDeclaration(st: Store, x: string, a: int)
    requires st.locals == map[]
    ensures Initialise(Declare(Called({}, st), x), x, IntV(a)) == Scoped([Block({x}, map[x := IntV(a)])], st.world)
  {
    var none: map<string, Value> := map[];
    assert {} + {x} == {x} && none - {x} == none;
    assert Declare(Called({}, st), x) == Scoped([Block({x}, none)], st.world);
  }

  lemma ReturnsInnermost(env: Env, callee: Callee, st: Store, x: string, a: int, fuel: nat)
    ensures Perform(env, callee, Return(Some(Var(x))), Scoped([Block({x}, map[x := IntV(a)])], st.world), fuel)
         == Done(Some(a), st.world)
  {
    var sc := Scoped([Block({x}, map[x := IntV(a)])], st.world);
    SingleBlock(sc.blocks[0]);
    ReadsInnermost(env, callee, sc, x, a);
    hide ValueIn;
  }

  lemma InnerDeclIs(x: string, y: string, a: int, b: int)
    ensures var s0, s1, s2 := Decl(x, Some(Lit(a))), Compound([Decl(y, Some(Lit(b)))]), Return(Some(Var(x)));
            InnerDecl(x, y, a, b) == [s0] + [s1, s2] && [s1, s2] == [s1] + [s2] && [s2] == [s2] + []
  {
  }

  lemma OneProper(st: Store, x: string, a: int)
    requires st.locals == map[]
    ensures Called({}, st).blocks != [] && Proper(Called({}, st).blocks) && Proper([Block({x}, map[x := IntV(a)])])
  {
  }

  lemma InnerDeclScoped(env: Env, callee: Callee, st: Store, fuel: nat, x: string, y: string, a: int, b: int)
    requires st.locals == map[] && Int32.Fits(a) && Int32.Fits(b)
    ensures PerformAll(env, callee, InnerDecl(x, y, a, b), Called({}, st), fuel) == Done(Some(a), st.world)
  {
    var s0, s1, s2 := Decl(x, Some(Lit(a))), Compound([Decl(y, Some(Lit(b)))]), Return(Some(Var(x)));
    var sc, sc1 := Called({}, st), Scoped([Block({x}, map[x := IntV(a)])], st.world);
    InnerDeclIs(x, y, a, b);
    OneProper(st, x, a);
    hide *;
    DeclaresLiteral(env, callee, sc, x, a, fuel);
    FirstDeclaration(st, x, a);
    BlockLeavesNothing(env, callee, sc1, y, b, fuel);
    ReturnsInnermost(env, callee, st, x, a, fuel);
    OneStatement(env, callee, s2, [], sc1, st, fuel);
    OneStatement(env, callee, s1, [s2], sc1, st, fuel);
    OneStatement(env, callee, s0, [s1, s2], sc, st, fuel);
  }

  lemma DeclaresFlat(env: Env, callee: Callee, st: Store, x: string, a: int, fuel: nat)
    requires x in env.slots && Int32.Fits(a)
    ensures Exec(env, callee, Decl(x, Some(Lit(a))), st, fuel) == Normal(st.(locals := st.locals[x := IntV(a)]))
  {
  }

  lemma ReturnsFlat(env: Env, callee: Callee, st: Store, x: string, fuel: nat)
    requires x in env.slots && x in st.locals && st.locals[x].IntV?
    ensures Exec(env, callee, Return(Some(Var(x))), st, fuel) == Done(Some(st.locals[x].n), st.world)
  {
  }

  lemma BlockWritesThrough(env: Env, callee: Callee, st: Store, y: string, b: int, fuel: nat)
    requires y in env.slots && Int32.Fits(b)
    ensures Exec(env, callee, Compound([Decl(y, Some(Lit(b)))]), st, fuel) == Normal(st.(locals := st.locals[y := IntV(b)]))
  {
    var s, st1 := Decl(y, Some(Lit(b))), st.(locals := st.locals[y := IntV(b)]);
    DeclaresFlat(env, callee, st, y, b, fuel);
    OneStatement(env, callee, s, [], Called({}, st), st, fuel);
    NoStatement(env, callee, Called({}, st), st1, fuel);
    assert [s] + [] == [s];
    hide ExecAll;
    assert ExecAll(env, callee, [s], st, fuel) == Normal(st1);
  }

  lemma InnerDeclFlat(env: Env, callee: Callee, st: Store, fuel: nat, x: string, y: string, a: int, b: int)
    requires x in env.slots && y in env.slots && Int32.Fits(a) && Int32.Fits(b)
    ensures ExecAll(env, callee, InnerDecl(x, y, a, b), st, fuel) == Done(Some(if x == y then b else a), st.world)
  {
    var s0, s1, s2 := Decl(x, Some(Lit(a))), Compound([Decl(y, Some(Lit(b)))]), Return(Some(Var(x)));
    var st1 := st.(locals := st.locals[x := IntV(a)]);
    var st2 := st1.(locals := st1.locals[y := IntV(b)]);
    InnerDeclIs(x, y, a, b);
    hide *;
    DeclaresFlat(env, callee, st, x, a, fuel);
    ReturnsFlat(env, callee, st2, x, fuel);
    BlockWritesThrough(env, callee, st1, y, b, fuel);
    OneStatement(env, callee, s2, [], Called({}, st), st2, fuel);
    OneStatement(env, callee, s1, [s2], Called({}, st), st1, fuel);
    OneStatement(env, callee, s0, [s1, s2], Called({}, st), st, fuel);
  }

  /** A declaration in an inner block: C keeps its object apart from the outer
      one, the code has one object per name. They agree if and only if the names
      differ, or the values do not. */
  lemma InnerDeclaration(env: Env, callee: Callee, st: Store, fuel: nat, x: string, y: string, a: int, b: int)
    requires x in env.slots && y in env.slots && st.locals == map[] && Int32.Fits(a) && Int32.Fits(b)
    ensures PerformAll(env, callee, InnerDecl(x, y, a, b), Called({}, st), fuel) == Done(Some(a), st.world)
    ensures ExecAll(env, callee, InnerDecl(x, y, a, b), st, fuel) == Done(Some(a), st.world) <==> x != y || a == b
  {
    InnerDeclScoped(env, callee, st, fuel, x, y, a, b);
    InnerDeclFlat(env, callee, st, fuel, x, y, a, b);
  }

  /** x = a; int y = b; */
  function LateDecl(x: string, y: string, a: int, b: int): seq<Stmt> {
    [ExprStmt(Assign(Set, Var(x), Lit(a))), Decl(y, Some(Lit(b)))]
  }

  function WithGlobal(w: World, x: string, a: int): World {
    w.(globals := w.globals[x := IntV(a)])
  }

  lemma AssignsGlobal(env: Env, callee: Callee, sc: Scoped, x: string, a: int, fuel: nat)
    requires Proper(sc.blocks) && x !in Names(sc.blocks) && Int32.Fits(a)
    ensures Perform(env, callee, ExprStmt(Assign(Set, Var(x), Lit(a))), sc, fuel)
         == Normal(sc.(world := WithGlobal(sc.world, x, a)))
  {
    AbsorbValues(sc.blocks);
    AssignsLiteral(Seen(env, sc.blocks), callee, Store(Values(sc.blocks), sc.world), x, a);
  }

  lemma AssignsLiteral(env: Env, callee: Callee, st: Store, x: string, a: int)
    requires Int32.Fits(a)
    ensures Evaluate(env, callee, Assign(Set, Var(x), Lit(a)), st) == Ok(a, WriteVar(env, x, IntV(a), st))
  {
    assert Evaluate(env, callee, Lit(a), st) == Ok(a, st);
  }

  lemma AssignsFlat(env: Env, callee: Callee, st: Store, x: string, a: int, fuel: nat)
    requires Int32.Fits(a)
    ensures Exec(env, callee, ExprStmt(Assign(Set, Var(x), Lit(a))), st, fuel)
         == Normal(if x in env.slots then st.(locals := st.locals[x := IntV(a)]) else st.(world := WithGlobal(st.world, x, a)))
  {
    AssignsLiteral(env, callee, st, x, a);
  }

  /** A name used before it is declared is C's global, but the code's local.
      They agree if and only if the names differ, or the global had the value already. */
  lemma LateDeclaration(env: Env, callee: Callee, st: Store, fuel: nat, x: string, y: string, a: int, b: int)
    requires env.slots.Keys == {y} && st.locals == map[] && Int32.Fits(a) && Int32.Fits(b)
    ensures var o := PerformAll(env, callee, LateDecl(x, y, a, b), Called({}, st), fuel);
            o.Normal? && o.st.world == WithGlobal(st.world, x, a)
    ensures var o := ExecAll(env, callee, LateDecl(x, y, a, b), st, fuel);
            o.Normal? && (o.st.world == WithGlobal(st.world, x, a)
                          <==> x != y || (x in st.world.globals && st.world.globals[x] == IntV(a)))
  {
    var w := WithGlobal(st.world, x, a);
    LateDeclScoped(env, callee, st, fuel, x, y, a, b);
    LateDeclFlat(env, callee, st, fuel, x, y, a, b);
    hide PerformAll, ExecAll;
    if x == y {
      assert st.world == w <==> st.world.globals == w.globals;
    }
  }

  /** The block a function body starts in, before and after a write to a global. */
  lemma EmptyBlock(st: Store, w: World, x: string, y: string, v: Value)
    requires st.locals == map[]
    ensures var sc, sc1 := Called({}, st), Called({}, Store(map[], w));
            && Proper(sc.blocks) && Proper(sc1.blocks) && sc1.blocks != [] && x !in Names(sc.blocks)
            && sc.world == st.world && sc.(world := w) == sc1
            && Initialise(Declare(sc1, y), y, v).world == w
  {
    hide Values;
    SingleBlock(Called({}, st).blocks[0]);
  }

  lemma LateDeclScoped(env: Env, callee: Callee, st: Store, fuel: nat, x: string, y: string, a: int, b: int)
    requires st.locals == map[] && Int32.Fits(a) && Int32.Fits(b)
    ensures var o := PerformAll(env, callee, LateDecl(x, y, a, b), Called({}, st), fuel);
            o.Normal? && o.st.world == WithGlobal(st.world, x, a)
  {
    hide *;
    var s0, s1 := ExprStmt(Assign(Set, Var(x), Lit(a))), Decl(y, Some(Lit(b)));
    var w := WithGlobal(st.world, x, a);
    var sc, sc1 := Called({}, st), Called({}, Store(map[], w));
    EmptyBlock(st, w, x, y, IntV(b));
    LateDeclIs(x, y, a, b);
    AssignsGlobal(env, callee, sc, x, a, fuel);
    DeclaresLiteral(env, callee, sc1, y, b, fuel);
    OneStatement(env, callee, s1, [], sc1, st, fuel);
    OneStatement(env, callee, s0, [s1], sc, st, fuel);
    NoStatement(env, callee, Initialise(Declare(sc1, y), y, IntV(b)), st, fuel);
  }

  lemma LateDeclIs(x: string, y: string, a: int, b: int)
    ensures var s0, s1 := ExprStmt(Assign(Set, Var(x), Lit(a))), Decl(y, Some(Lit(b)));
            LateDecl(x, y, a, b) == [s0] + [s1] && [s1] == [s1] + []
  {
  }

  lemma LateDeclFlat(env: Env, callee: Callee, st: Store, fuel: nat, x: string, y: string, a: int, b: int)
    requires env.slots.Keys == {y} && Int32.Fits(a) && Int32.Fits(b)
    ensures var o := ExecAll(env, callee, LateDecl(x, y, a, b), st, fuel);
            o.Normal? && o.st.world == if x == y then st.world else WithGlobal(st.world, x, a)
  {
    var s0, s1 := ExprStmt(Assign(Set, Var(x), Lit(a))), Decl(y, Some(Lit(b)));
    var st1 := if x == y then st.(locals := st.locals[x := IntV(a)]) else st.(world := WithGlobal(st.world, x, a));
    assert (x in env.slots <==> x in env.slots.Keys) && y in env.slots.Keys;
    LateDeclIs(x, y, a, b);
    hide *;
    AssignsFlat(env, callee, st, x, a, fuel);
    DeclaresFlat(env, callee, st1, y, b, fuel);
    OneStatement(env, callee, s1, [], Called({}, st), st1, fuel);
    OneStatement(env, callee, s0, [s1], Called({}, st), st, fuel);
    NoStatement(env, callee, Called({}, st), st1.(locals := st1.locals[y := IntV(b)]), fuel);
  }

  lemma NoStatement(env: Env, callee: Callee, sc: Scoped, st: Store, fuel: nat)
    ensures PerformAll(env, callee, [], sc, fuel) == Normal(sc) && ExecAll(env, callee, [], st, fuel) == Normal(st)
  {
  }
}
