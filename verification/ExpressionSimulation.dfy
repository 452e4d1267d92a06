/** The code of an expression computes the expression's value: running it from
    an operand stack `s` ends behind the code with the value on top of `s` and
    the same store and call trace as the source evaluation, or stops for the
    same reason. */
module ExpressionSimulation {
  import opened Ast
  import opened World
  import opened Jvm
  import opened CSemantics
  import opened Folding
  import opened CodeSpec
  import opened SimulationBase
  import Int32

  ghost function Here(ctx: Ctx, pc: nat, s: seq<Value>, st: Store): Config
    requires ctx.env.Valid()
  {
    Running(pc, s, FrameOf(ctx.env, st))
  }

  ghost function ValueOf(ctx: Ctx, e: Expr, st: Store): Eval {
    Evaluate(ctx.env, ctx.callee, e, st)
  }

  /** The outcome of an evaluation is reached from `c`: at `pc`, with the value
      pushed on `s` if `leave` asks for it, or stopped. */
  ghost predicate Lands(ctx: Ctx, c: Config, res: Eval, pc: nat, s: seq<Value>, leave: bool)
    requires ctx.env.Valid()
  {
    match res
    case Ok(v, st) => Reaches(ctx, c, Here(ctx, pc, if leave then s + [IntV(v)] else s, st))
    case Err(why) => Reaches(ctx, c, Faulted(why))
  }

  ghost predicate LandsAll(ctx: Ctx, c: Config, res: EvalList, pc: nat, s: seq<Value>)
    requires ctx.env.Valid()
  {
    match res
    case Oks(vs, st) => Reaches(ctx, c, Here(ctx, pc, s + IntVs(vs), st))
    case Errs(why) => Reaches(ctx, c, Faulted(why))
  }

  /** Both operands of `e` have been evaluated, left first. */
  ghost predicate LandsTwo(ctx: Ctx, c: Config, e: Expr, st: Store, pc: nat, s: seq<Value>)
    requires ctx.env.Valid() && (e.Arith? || e.Rel?)
  {
    match ValueOf(ctx, e.l, st)
    case Err(why) => Reaches(ctx, c, Faulted(why))
    case Ok(a, st1) =>
      match ValueOf(ctx, e.r, st1)
      case Err(why) => Reaches(ctx, c, Faulted(why))
      case Ok(b, st2) => Reaches(ctx, c, Here(ctx, pc, s + [IntV(a)] + [IntV(b)], st2))
  }

  /** A landing seen from an earlier configuration. */
  lemma LandsFrom(ctx: Ctx, c: Config, c1: Config, res: Eval, pc: nat, s: seq<Value>, leave: bool)
    requires ctx.env.Valid() && Reaches(ctx, c, c1) && Lands(ctx, c1, res, pc, s, leave)
    ensures Lands(ctx, c, res, pc, s, leave)
  {
    match res {
      case Ok(v, st) => Then(ctx, c, c1, Here(ctx, pc, if leave then s + [IntV(v)] else s, st));
      case Err(why) => Then(ctx, c, c1, Faulted(why));
    }
  }

  lemma {:induction false} OperandRuns(ctx: Ctx, e: Expr, pure: bool, at: nat, s: seq<Value>, st: Store)
    requires ctx.env.Valid() && IsValue(ctx.env, e, pure) && At(ctx, at, Operand(ctx.env, e))
    ensures Lands(ctx, Here(ctx, at, s, st), ValueOf(ctx, e, st), at + |Operand(ctx.env, e)|, s, true)
    decreases e, 2
  {
    hide Jvm.Step, Reaches, At, FrameOf, Int32.Wrap, Env.Valid;
    if IsConstant(e) {
      FoldingIsSound(ctx.env, ctx.callee, e, st);
      StepPush(ctx, at, s, st, Fold(e).v);
      Steps(ctx, Here(ctx, at, s, st));
    } else {
      CodeRuns(ctx, e, pure, at, s, st);
    }
  }

  lemma LiteralFits(n: int)
    ensures FoldsWell(Lit(n)) ==> Int32.Fits(n)
  {
  }

  lemma {:induction false} CodeRuns(ctx: Ctx, e: Expr, pure: bool, at: nat, s: seq<Value>, st: Store)
    requires ctx.env.Valid() && IsValue(ctx.env, e, pure) && At(ctx, at, Code(ctx.env, e))
    ensures Lands(ctx, Here(ctx, at, s, st), ValueOf(ctx, e, st), at + |Code(ctx.env, e)|, s, true)
    decreases e, 1, 3
  {
    hide Jvm.Step, Reaches, At, FrameOf, Int32.Wrap, Fold, Safe, Env.Valid;
    match e {
      case Lit(n) =>
        LiteralFits(n);
        StepPush(ctx, at, s, st, n);
        Steps(ctx, Here(ctx, at, s, st));
      case Var(x) =>
        StepLoadVar(ctx, at, s, st, x);
        Steps(ctx, Here(ctx, at, s, st));
      case Arith(_, _, _) => ArithRuns(ctx, e, pure, at, s, st);
      case Neg(_) => NegRuns(ctx, e, pure, at, s, st);
      case Call(_, _) => CallRuns(ctx, e, pure, at, s, st);
      case Index(_, _) => IndexRuns(ctx, e, pure, at, s, st);
      case Assign(_, _, _) => AssignRuns(ctx, e, true, at, s, st);
      case IncDec(_, _) => BumpRuns(ctx, e, true, at, s, st);
      case Rel(_, _, _) =>
      case Logic(_, _, _) =>
    }
  }

  lemma {:induction false} TwoRun(ctx: Ctx, e: Expr, pure: bool, at: nat, s: seq<Value>, st: Store)
    requires ctx.env.Valid() && (e.Arith? || e.Rel?)
    requires IsValue(ctx.env, e.l, pure) && IsValue(ctx.env, e.r, pure)
    requires At(ctx, at, Operand(ctx.env, e.l) + Operand(ctx.env, e.r))
    ensures LandsTwo(ctx, Here(ctx, at, s, st), e, st, at + |Operand(ctx.env, e.l) + Operand(ctx.env, e.r)|, s)
    decreases e, 0
  {
    hide Jvm.Step, Reaches, At, FrameOf, Int32.Wrap, Fold, Safe, Env.Valid;
    var at1 := at + |Operand(ctx.env, e.l)|;
    AtSplit(ctx, at, Operand(ctx.env, e.l), Operand(ctx.env, e.r));
    OperandRuns(ctx, e.l, pure, at, s, st);
    if ValueOf(ctx, e.l, st).Ok? {
      var Ok(a, st1) := ValueOf(ctx, e.l, st);
      OperandRuns(ctx, e.r, pure, at1, s + [IntV(a)], st1);
      LandsFrom(ctx, Here(ctx, at, s, st), Here(ctx, at1, s + [IntV(a)], st1), ValueOf(ctx, e.r, st1),
                at1 + |Operand(ctx.env, e.r)|, s + [IntV(a)], true);
    }
  }

  lemma {:induction false} ArithRuns(ctx: Ctx, e: Expr, pure: bool, at: nat, s: seq<Value>, st: Store)
    requires ctx.env.Valid() && e.Arith? && IsValue(ctx.env, e, pure) && At(ctx, at, Code(ctx.env, e))
    ensures Lands(ctx, Here(ctx, at, s, st), ValueOf(ctx, e, st), at + |Code(ctx.env, e)|, s, true)
    decreases e, 1, 0
  {
    hide Jvm.Step, Reaches, At, FrameOf, Int32.Wrap, Fold, Safe, Env.Valid;
    var pc := at + |Operand(ctx.env, e.l) + Operand(ctx.env, e.r)|;
    AtSplit(ctx, at, Operand(ctx.env, e.l) + Operand(ctx.env, e.r), [IArith(e.aop)]);
    TwoRun(ctx, e, pure, at, s, st);
    if ValueOf(ctx, e.l, st).Ok? && ValueOf(ctx, e.r, ValueOf(ctx, e.l, st).st).Ok? {
      var Ok(a, st1) := ValueOf(ctx, e.l, st);
      var Ok(b, st2) := ValueOf(ctx, e.r, st1);
      StepArith(ctx, pc, s, st2, e.aop, a, b);
      ThenStep(ctx, Here(ctx, at, s, st), Here(ctx, pc, s + [IntV(a)] + [IntV(b)], st2));
    }
  }

  lemma {:induction false} NegRuns(ctx: Ctx, e: Expr, pure: bool, at: nat, s: seq<Value>, st: Store)
    requires ctx.env.Valid() && e.Neg? && IsValue(ctx.env, e, pure) && At(ctx, at, Code(ctx.env, e))
    ensures Lands(ctx, Here(ctx, at, s, st), ValueOf(ctx, e, st), at + |Code(ctx.env, e)|, s, true)
    decreases e, 0
  {
    hide Jvm.Step, Reaches, At, FrameOf, Int32.Wrap, Fold, Safe, Env.Valid;
    var pc := at + |Code(ctx.env, e.e)|;
    AtSplit(ctx, at, Code(ctx.env, e.e), [INeg]);
    CodeRuns(ctx, e.e, pure, at, s, st);
    if ValueOf(ctx, e.e, st).Ok? {
      var Ok(a, st1) := ValueOf(ctx, e.e, st);
      StepNeg(ctx, pc, s, st1, a);
      ThenStep(ctx, Here(ctx, at, s, st), Here(ctx, pc, s + [IntV(a)], st1));
    }
  }

  lemma PushedInOrder(s: seq<Value>, v: int, vs: seq<int>)
    ensures s + [IntV(v)] + IntVs(vs) == s + IntVs([v] + vs)
    ensures s + IntVs([]) == s
  {
  }

  lemma {:induction false} ArgumentsRun(ctx: Ctx, args: seq<Expr>, pure: bool, at: nat, s: seq<Value>, st: Store)
    requires ctx.env.Valid() && forall i :: 0 <= i < |args| ==> IsValue(ctx.env, args[i], pure)
    requires At(ctx, at, Arguments(ctx.env, args))
    ensures LandsAll(ctx, Here(ctx, at, s, st), EvaluateAll(ctx.env, ctx.callee, args, st),
                     at + |Arguments(ctx.env, args)|, s)
    decreases args
  {
    hide Jvm.Step, Reaches, At, FrameOf, Int32.Wrap, Fold, Safe, Env.Valid, IntVs;
    var c := Here(ctx, at, s, st);
    if args == [] {
      PushedInOrder(s, 0, []);
      Stays(ctx, c);
    } else {
      AtSplit(ctx, at, Operand(ctx.env, args[0]), Arguments(ctx.env, args[1..]));
      OperandRuns(ctx, args[0], pure, at, s, st);
      if ValueOf(ctx, args[0], st).Ok? {
        var Ok(v, st1) := ValueOf(ctx, args[0], st);
        var c1 := Here(ctx, at + |Operand(ctx.env, args[0])|, s + [IntV(v)], st1);
        ArgumentsRun(ctx, args[1..], pure, c1.pc, s + [IntV(v)], st1);
        match EvaluateAll(ctx.env, ctx.callee, args[1..], st1) {
          case Errs(why) => Then(ctx, c, c1, Faulted(why));
          case Oks(vs, st2) =>
            PushedInOrder(s, v, vs);
            Then(ctx, c, c1, Here(ctx, at + |Arguments(ctx.env, args)|, s + [IntV(v)] + IntVs(vs), st2));
        }
      }
    }
  }

  /** Arguments and invocation; a void callee pushes nothing. */
  lemma {:induction false} InvokeRuns(ctx: Ctx, e: Expr, pure: bool, at: nat, s: seq<Value>, st: Store)
    requires ctx.env.Valid() && e.Call? && At(ctx, at, Code(ctx.env, e)) && KnownCall(ctx.env, e.f, |e.args|)
    requires forall i :: 0 <= i < |e.args| ==> IsValue(ctx.env, e.args[i], pure)
    ensures Lands(ctx, Here(ctx, at, s, st), ValueOf(ctx, e, st), at + |Code(ctx.env, e)|, s, !ctx.env.funcs[e.f].isVoid)
    decreases e, 0
  {
    hide Jvm.Step, Reaches, At, FrameOf, Int32.Wrap, Fold, Safe, Env.Valid;
    var sig := SigOf(ctx.env, e.f);
    AtSplit(ctx, at, Arguments(ctx.env, e.args), [InvokeStatic(e.f, sig)]);
    ArgumentsRun(ctx, e.args, pure, at, s, st);
    match EvaluateAll(ctx.env, ctx.callee, e.args, st) {
      case Errs(why) =>
      case Oks(vs, st1) =>
        var pc := at + |Arguments(ctx.env, e.args)|;
        StepInvoke(ctx, pc, s, st1, e.f, sig, vs);
        ThenStep(ctx, Here(ctx, at, s, st), Here(ctx, pc, s + IntVs(vs), st1));
    }
  }

  lemma {:induction false} CallRuns(ctx: Ctx, e: Expr, pure: bool, at: nat, s: seq<Value>, st: Store)
    requires ctx.env.Valid() && e.Call? && IsValue(ctx.env, e, pure) && At(ctx, at, Code(ctx.env, e))
    ensures Lands(ctx, Here(ctx, at, s, st), ValueOf(ctx, e, st), at + |Code(ctx.env, e)|, s, true)
    decreases e, 1, 0
  {
    InvokeRuns(ctx, e, pure, at, s, st);
  }

  /** The array reference and the subscript of an element access. */
  lemma {:induction false} AddressRuns(ctx: Ctx, base: Expr, sub: Expr, pure: bool, at: nat, s: seq<Value>, st: Store)
    requires ctx.env.Valid() && IsArray(ctx.env, base) && IsValue(ctx.env, sub, pure)
    requires At(ctx, at, [LoadArray(ctx.env, base.x)] + Operand(ctx.env, sub))
    ensures var c := Here(ctx, at, s, st);
            match Locate(ctx.env, ctx.callee, base, sub, st)
            case Err(why) => Reaches(ctx, c, Faulted(why))
            case Ok(i, st1) =>
              Reaches(ctx, c, Here(ctx, at + 1 + |Operand(ctx.env, sub)|,
                                   s + [RefV(RefOf(ctx.env, base, st))] + [IntV(i)], st1))
    decreases sub, 3
  {
    hide Jvm.Step, Reaches, At, FrameOf, Int32.Wrap, Fold, Safe, Env.Valid;
    var c := Here(ctx, at, s, st);
    AtSplit(ctx, at, [LoadArray(ctx.env, base.x)], Operand(ctx.env, sub));
    StepLoadArray(ctx, at, s, st, base.x);
    Steps(ctx, c);
    if ReadVar(ctx.env, base.x, Array, st).Got? {
      var v := ReadVar(ctx.env, base.x, Array, st).v;
      OperandRuns(ctx, sub, pure, at + 1, s + [v], st);
      LandsFrom(ctx, c, Here(ctx, at + 1, s + [v], st), ValueOf(ctx, sub, st),
                at + 1 + |Operand(ctx.env, sub)|, s + [v], true);
    }
  }

  lemma {:induction false} IndexRuns(ctx: Ctx, e: Expr, pure: bool, at: nat, s: seq<Value>, st: Store)
    requires ctx.env.Valid() && e.Index? && IsValue(ctx.env, e, pure) && At(ctx, at, Code(ctx.env, e))
    ensures Lands(ctx, Here(ctx, at, s, st), ValueOf(ctx, e, st), at + |Code(ctx.env, e)|, s, true)
    decreases e, 0
  {
    hide Jvm.Step, Reaches, At, FrameOf, Int32.Wrap, Fold, Safe, Env.Valid;
    var pc := at + 1 + |Operand(ctx.env, e.sub)|;
    AtSplit(ctx, at, [LoadArray(ctx.env, e.base.x)] + Operand(ctx.env, e.sub), [IALoad]);
    AddressRuns(ctx, e.base, e.sub, pure, at, s, st);
    match Locate(ctx.env, ctx.callee, e.base, e.sub, st) {
      case Err(why) =>
      case Ok(i, st1) =>
        var r := RefOf(ctx.env, e.base, st);
        StepIALoad(ctx, pc, s, st1, r, i);
        ThenStep(ctx, Here(ctx, at, s, st), Here(ctx, pc, s + [RefV(r)] + [IntV(i)], st1));
    }
  }

  /** The end of an assignment to a variable: keep a copy if asked, then store. */
  lemma StoreVarRuns(ctx: Ctx, x: string, v: int, leave: bool, at: nat, s: seq<Value>, st: Store)
    requires ctx.env.Valid() && ctx.env.Known(x, Scalar)
    requires At(ctx, at, if leave then [Dup] else [])
    requires At(ctx, at + (if leave then 1 else 0), [SaveVar(ctx.env, x)])
    ensures Reaches(ctx, Here(ctx, at, s + [IntV(v)], st),
                    Here(ctx, at + (if leave then 2 else 1), if leave then s + [IntV(v)] else s,
                         WriteVar(ctx.env, x, IntV(v), st)))
  {
    hide Jvm.Step, Reaches, At, FrameOf, Int32.Wrap, Fold, Safe, Env.Valid;
    var c := Here(ctx, at, s + [IntV(v)], st);
    if leave {
      StepDup(ctx, at, s, st, IntV(v));
      Steps(ctx, c);
      StepSaveVar(ctx, at + 1, s + [IntV(v)], st, x, v);
      ThenStep(ctx, c, Here(ctx, at + 1, s + [IntV(v)] + [IntV(v)], st));
    } else {
      StepSaveVar(ctx, at, s, st, x, v);
      Steps(ctx, c);
    }
  }

  /** The end of an assignment to an element. */
  lemma StoreElemRuns(ctx: Ctx, r: nat, i: int, v: int, leave: bool, at: nat, s: seq<Value>, st: Store)
    requires ctx.env.Valid()
    requires At(ctx, at, if leave then [DupX2] else [])
    requires At(ctx, at + (if leave then 1 else 0), [IAStore])
    ensures Reaches(ctx, Here(ctx, at, s + [RefV(r)] + [IntV(i)] + [IntV(v)], st),
                    if InBounds(st.world, r, i)
                    then Here(ctx, at + (if leave then 2 else 1), if leave then s + [IntV(v)] else s,
                              st.(world := WriteElem(st.world, r, i, v)))
                    else Faulted(BadIndex))
  {
    hide Jvm.Step, Reaches, At, FrameOf, Int32.Wrap, Fold, Safe, Env.Valid;
    var c := Here(ctx, at, s + [RefV(r)] + [IntV(i)] + [IntV(v)], st);
    if leave {
      StepDupX2(ctx, at, s, st, RefV(r), IntV(i), IntV(v));
      Steps(ctx, c);
      StepIAStore(ctx, at + 1, s + [IntV(v)], st, r, i, v);
      ThenStep(ctx, c, Here(ctx, at + 1, s + [IntV(v)] + [RefV(r)] + [IntV(i)] + [IntV(v)], st));
    } else {
      StepIAStore(ctx, at, s, st, r, i, v);
      Steps(ctx, c);
    }
  }

  /** The right-hand side, combined with the old value that a compound assignment pushed first. */
  lemma {:induction false} RightSideRuns(ctx: Ctx, e: Expr, before: int, at: nat, s: seq<Value>, st: Store)
    requires ctx.env.Valid() && e.Assign? && IsValue(ctx.env, e.rhs, false)
    requires At(ctx, at, Operand(ctx.env, e.rhs))
    requires At(ctx, at + |Operand(ctx.env, e.rhs)|, if e.sop == Set then [] else [IArith(OpOf(e.sop))])
    ensures var c := Here(ctx, at, if e.sop == Set then s else s + [IntV(before)], st);
            var pc := at + |Operand(ctx.env, e.rhs)| + (if e.sop == Set then 0 else 1);
            match ValueOf(ctx, e.rhs, st)
            case Err(why) => Reaches(ctx, c, Faulted(why))
            case Ok(b, st1) =>
              match Combine(e.sop, before, b)
              case None => Reaches(ctx, c, Faulted(DivByZero))
              case Some(v) => Reaches(ctx, c, Here(ctx, pc, s + [IntV(v)], st1))
    decreases e.rhs, 3
  {
    hide Jvm.Step, Reaches, At, FrameOf, Int32.Wrap, Fold, Safe, Env.Valid;
    var s0 := if e.sop == Set then s else s + [IntV(before)];
    var pc := at + |Operand(ctx.env, e.rhs)|;
    OperandRuns(ctx, e.rhs, false, at, s0, st);
    match ValueOf(ctx, e.rhs, st) {
      case Err(why) =>
      case Ok(b, st1) =>
        if e.sop != Set {
          StepArith(ctx, pc, s, st1, OpOf(e.sop), before, b);
          ThenStep(ctx, Here(ctx, at, s0, st), Here(ctx, pc, s0 + [IntV(b)], st1));
        }
    }
  }

  lemma {:induction false} AssignRuns(ctx: Ctx, e: Expr, leave: bool, at: nat, s: seq<Value>, st: Store)
    requires ctx.env.Valid() && e.Assign? && IsAssignment(ctx.env, e)
    requires At(ctx, at, AssignCode(ctx.env, e, leave))
    ensures Lands(ctx, Here(ctx, at, s, st), ValueOf(ctx, e, st), at + |AssignCode(ctx.env, e, leave)|, s, leave)
    decreases e, 1, 2
  {
    if e.lhs.Var? {
      AssignVarRuns(ctx, e, leave, at, s, st);
    } else {
      AssignElemRuns(ctx, e, leave, at, s, st);
    }
  }

  /** Where the pieces of an assignment to a variable are. */
  lemma VarLayout(ctx: Ctx, e: Expr, leave: bool, at: nat)
    requires e.Assign? && e.lhs.Var? && At(ctx, at, AssignCode(ctx.env, e, leave))
    ensures var rhs := at + (if e.sop == Set then 0 else 1);
            var op := rhs + |Operand(ctx.env, e.rhs)|;
            var copy := op + (if e.sop == Set then 0 else 1);
            var store := copy + (if leave then 1 else 0);
            && At(ctx, at, if e.sop == Set then [] else [LoadVar(ctx.env, e.lhs.x)])
            && At(ctx, rhs, Operand(ctx.env, e.rhs))
            && At(ctx, op, if e.sop == Set then [] else [IArith(OpOf(e.sop))])
            && At(ctx, copy, if leave then [Dup] else [])
            && At(ctx, store, [SaveVar(ctx.env, e.lhs.x)])
            && at + |AssignCode(ctx.env, e, leave)| == store + 1
  {
    hide At, Operand, LoadVar, SaveVar, OpOf;
    var load := if e.sop == Set then [] else [LoadVar(ctx.env, e.lhs.x)];
    var value := Operand(ctx.env, e.rhs);
    var op := if e.sop == Set then [] else [IArith(OpOf(e.sop))];
    var copy := if leave then [Dup] else [];
    AtSplit(ctx, at, load + value + op + copy, [SaveVar(ctx.env, e.lhs.x)]);
    AtSplit(ctx, at, load + value + op, copy);
    AtSplit(ctx, at, load + value, op);
    AtSplit(ctx, at, load, value);
  }

  lemma {:induction false} AssignVarRuns(ctx: Ctx, e: Expr, leave: bool, at: nat, s: seq<Value>, st: Store)
    requires ctx.env.Valid() && e.Assign? && e.lhs.Var? && IsAssignment(ctx.env, e)
    requires At(ctx, at, AssignCode(ctx.env, e, leave))
    ensures Lands(ctx, Here(ctx, at, s, st), ValueOf(ctx, e, st), at + |AssignCode(ctx.env, e, leave)|, s, leave)
    decreases e, 1, 1
  {
    hide Jvm.Step, Reaches, At, FrameOf, Int32.Wrap, Fold, Safe, Env.Valid, AssignCode, Operand, IsValue;
    var x := e.lhs.x;
    VarLayout(ctx, e, leave, at);
    var c := Here(ctx, at, s, st);
    if e.sop == Set {
      Stays(ctx, c);
    } else {
      StepLoadVar(ctx, at, s, st, x);
      Steps(ctx, c);
    }
    if e.sop == Set || ReadVar(ctx.env, x, Scalar, st).Got? {
      var before := if e.sop == Set then 0 else ReadVar(ctx.env, x, Scalar, st).v.n;
      var rhs := at + (if e.sop == Set then 0 else 1);
      var c1 := Here(ctx, rhs, if e.sop == Set then s else s + [IntV(before)], st);
      RightSideRuns(ctx, e, before, rhs, s, st);
      match ValueOf(ctx, e.rhs, st) {
        case Err(why) => Then(ctx, c, c1, Faulted(why));
        case Ok(b, st1) =>
          match Combine(e.sop, before, b) {
            case None => Then(ctx, c, c1, Faulted(DivByZero));
            case Some(v) =>
              var pc := rhs + |Operand(ctx.env, e.rhs)| + (if e.sop == Set then 0 else 1);
              Then(ctx, c, c1, Here(ctx, pc, s + [IntV(v)], st1));
              StoreVarRuns(ctx, x, v, leave, pc, s, st1);
              LandsFrom(ctx, c, Here(ctx, pc, s + [IntV(v)], st1),
                        Ok(v, WriteVar(ctx.env, x, IntV(v), st1)), pc + (if leave then 2 else 1), s, leave);
          }
      }
    }
  }

  /** The value a compound assignment to an element starts from. */
  lemma BeforeElemRuns(ctx: Ctx, op: AssignOp, r: nat, i: int, at: nat, s: seq<Value>, st: Store)
    requires ctx.env.Valid() && At(ctx, at, if op == Set then [] else [Dup2, IALoad])
    ensures var c := Here(ctx, at, s + [RefV(r)] + [IntV(i)], st);
            if op == Set then Reaches(ctx, c, c)
            else if InBounds(st.world, r, i)
            then Reaches(ctx, c, Here(ctx, at + 2, s + [RefV(r)] + [IntV(i)] + [IntV(st.world.heap[r][i])], st))
            else Reaches(ctx, c, Faulted(BadIndex))
  {
    hide Jvm.Step, Reaches, At, FrameOf, Int32.Wrap, Fold, Safe, Env.Valid;
    var c := Here(ctx, at, s + [RefV(r)] + [IntV(i)], st);
    if op == Set {
      Stays(ctx, c);
    } else {
      assert [Dup2, IALoad] == [Dup2] + [IALoad];
      AtSplit(ctx, at, [Dup2], [IALoad]);
      StepDup2(ctx, at, s, st, RefV(r), IntV(i));
      Steps(ctx, c);
      var s1 := s + [RefV(r)] + [IntV(i)];
      StepIALoad(ctx, at + 1, s1, st, r, i);
      ThenStep(ctx, c, Here(ctx, at + 1, s1 + [RefV(r)] + [IntV(i)], st));
    }
  }

  /** What an assignment to element `i` of array `r` gives, once its right-hand side has been evaluated. */
  function ElemOutcome(e: Expr, r: nat, i: int, before: int, rhs: Eval): Eval
    requires e.Assign?
  {
    match rhs
    case Err(why) => Err(why)
    case Ok(b, st) =>
      match Combine(e.sop, before, b)
      case None => Err(DivByZero)
      case Some(v) =>
        if InBounds(st.world, r, i) then Ok(v, st.(world := WriteElem(st.world, r, i, v))) else Err(BadIndex)
  }

  /** The second half of an assignment to an element: right-hand side, operation, store. */
  lemma {:induction false} FinishElemRuns(ctx: Ctx, e: Expr, leave: bool, r: nat, i: int, before: int,
                                          at: nat, s: seq<Value>, st: Store)
    requires ctx.env.Valid() && e.Assign? && IsValue(ctx.env, e.rhs, false)
    requires At(ctx, at, Operand(ctx.env, e.rhs))
    requires At(ctx, at + |Operand(ctx.env, e.rhs)|, if e.sop == Set then [] else [IArith(OpOf(e.sop))])
    requires var pc := at + |Operand(ctx.env, e.rhs)| + (if e.sop == Set then 0 else 1);
             At(ctx, pc, if leave then [DupX2] else []) && At(ctx, pc + (if leave then 1 else 0), [IAStore])
    ensures var s1 := s + [RefV(r)] + [IntV(i)];
            var pc := at + |Operand(ctx.env, e.rhs)| + (if e.sop == Set then 0 else 1) + (if leave then 2 else 1);
            Lands(ctx, Here(ctx, at, if e.sop == Set then s1 else s1 + [IntV(before)], st),
                  ElemOutcome(e, r, i, before, ValueOf(ctx, e.rhs, st)), pc, s, leave)
    decreases e.rhs, 4
  {
    hide Jvm.Step, Reaches, At, FrameOf, Int32.Wrap, Fold, Safe, Env.Valid, IsValue, Evaluate, Operand;
    var s1 := s + [RefV(r)] + [IntV(i)];
    var c := Here(ctx, at, if e.sop == Set then s1 else s1 + [IntV(before)], st);
    RightSideRuns(ctx, e, before, at, s1, st);
    match ValueOf(ctx, e.rhs, st) {
      case Err(why) =>
      case Ok(b, st2) =>
        match Combine(e.sop, before, b) {
          case None =>
          case Some(v) =>
            var pc := at + |Operand(ctx.env, e.rhs)| + (if e.sop == Set then 0 else 1);
            StoreElemRuns(ctx, r, i, v, leave, pc, s, st2);
            LandsFrom(ctx, c, Here(ctx, pc, s1 + [IntV(v)], st2), ElemOutcome(e, r, i, before, Ok(b, st2)),
                      pc + (if leave then 2 else 1), s, leave);
        }
    }
  }

  /** What an assignment to an element gives. */
  ghost function ElemAssigned(ctx: Ctx, e: Expr, st: Store): Eval
    requires e.Assign? && e.lhs.Index?
  {
    match Locate(ctx.env, ctx.callee, e.lhs.base, e.lhs.sub, st)
    case Err(why) => Err(why)
    case Ok(i, st1) =>
      var r := RefOf(ctx.env, e.lhs.base, st);
      if e.sop != Set && !InBounds(st1.world, r, i) then Err(BadIndex)
      else ElemOutcome(e, r, i, if e.sop == Set then 0 else st1.world.heap[r][i], ValueOf(ctx, e.rhs, st1))
  }

  lemma ElemAssignedIsValue(ctx: Ctx, e: Expr, st: Store)
    requires e.Assign? && e.lhs.Index? && e.lhs.base.Var?
    ensures ValueOf(ctx, e, st) == ElemAssigned(ctx, e, st)
  {
    hide Int32.Wrap, ReadVar, InBounds, WriteElem, Combine;
  }

  lemma ElemParts(env: Env, e: Expr)
    requires e.Assign? && e.lhs.Index?
    ensures IsAssignment(env, e) ==>
      && e.lhs.base.Var? && IsArray(env, e.lhs.base) && SaveVar(env, e.lhs.base.x) == IAStore
      && IsValue(env, e.lhs.sub, false) && IsValue(env, e.rhs, false)
  {
  }

  /** Where the pieces of an assignment to an element are. */
  lemma ElemLayout(ctx: Ctx, e: Expr, leave: bool, at: nat)
    requires e.Assign? && e.lhs.Index? && e.lhs.base.Var?
    requires At(ctx, at, AssignCode(ctx.env, e, leave))
    ensures var load := at + |[LoadArray(ctx.env, e.lhs.base.x)] + Operand(ctx.env, e.lhs.sub)|;
            var rhs := load + (if e.sop == Set then 0 else 2);
            var op := rhs + |Operand(ctx.env, e.rhs)|;
            var copy := op + (if e.sop == Set then 0 else 1);
            var store := copy + (if leave then 1 else 0);
            && At(ctx, at, [LoadArray(ctx.env, e.lhs.base.x)] + Operand(ctx.env, e.lhs.sub))
            && At(ctx, load, if e.sop == Set then [] else [Dup2, IALoad])
            && At(ctx, rhs, Operand(ctx.env, e.rhs))
            && At(ctx, op, if e.sop == Set then [] else [IArith(OpOf(e.sop))])
            && At(ctx, copy, if leave then [DupX2] else [])
            && At(ctx, store, [SaveVar(ctx.env, e.lhs.base.x)])
            && at + |AssignCode(ctx.env, e, leave)| == store + 1
  {
    hide At, Operand, LoadArray, SaveVar, OpOf;
    var x := e.lhs.base.x;
    var address := [LoadArray(ctx.env, x)] + Operand(ctx.env, e.lhs.sub);
    var load := if e.sop == Set then [] else [Dup2, IALoad];
    var value := Operand(ctx.env, e.rhs);
    var op := if e.sop == Set then [] else [IArith(OpOf(e.sop))];
    var copy := if leave then [DupX2] else [];
    AtSplit(ctx, at, address + load + value + op + copy, [SaveVar(ctx.env, x)]);
    AtSplit(ctx, at, address + load + value + op, copy);
    AtSplit(ctx, at, address + load + value, op);
    AtSplit(ctx, at, address + load, value);
    AtSplit(ctx, at, address, load);
  }

  lemma {:induction false} AssignElemRuns(ctx: Ctx, e: Expr, leave: bool, at: nat, s: seq<Value>, st: Store)
    requires ctx.env.Valid() && e.Assign? && e.lhs.Index? && IsAssignment(ctx.env, e)
    requires At(ctx, at, AssignCode(ctx.env, e, leave))
    ensures Lands(ctx, Here(ctx, at, s, st), ValueOf(ctx, e, st), at + |AssignCode(ctx.env, e, leave)|, s, leave)
    decreases e, 1, 1
  {
    hide Jvm.Step, Reaches, At, FrameOf, Int32.Wrap, Fold, Safe, Env.Valid;
    hide AssignCode, Operand, Evaluate, IsValue, IsArray, IsAssignment, SaveVar, LoadArray;
    ElemParts(ctx.env, e);
    ElemLayout(ctx, e, leave, at);
    ElemAssignedIsValue(ctx, e, st);
    var Index(base, sub) := e.lhs;
    var load := at + |[LoadArray(ctx.env, base.x)] + Operand(ctx.env, sub)|;
    var rhs := load + (if e.sop == Set then 0 else 2);
    var c := Here(ctx, at, s, st);
    AddressRuns(ctx, base, sub, false, at, s, st);
    if Locate(ctx.env, ctx.callee, base, sub, st).Ok? {
      var Ok(i, st1) := Locate(ctx.env, ctx.callee, base, sub, st);
      var r := RefOf(ctx.env, base, st);
      var c1 := Here(ctx, load, s + [RefV(r)] + [IntV(i)], st1);
      BeforeElemRuns(ctx, e.sop, r, i, load, s, st1);
      if e.sop != Set && !InBounds(st1.world, r, i) {
        Then(ctx, c, c1, Faulted(BadIndex));
      } else {
        var before := if e.sop == Set then 0 else st1.world.heap[r][i];
        var c2 := Here(ctx, rhs, if e.sop == Set then c1.stack else c1.stack + [IntV(before)], st1);
        Then(ctx, c, c1, c2);
        FinishElemRuns(ctx, e, leave, r, i, before, rhs, s, st1);
        LandsFrom(ctx, c, c2, ElemAssigned(ctx, e, st), at + |AssignCode(ctx.env, e, leave)|, s, leave);
      }
    }
  }

  /** Increments and decrements, by `iinc` or by load, add and store. */
  lemma BumpRuns(ctx: Ctx, e: Expr, leave: bool, at: nat, s: seq<Value>, st: Store)
    requires ctx.env.Valid() && e.IncDec? && IsScalar(ctx.env, e.target)
    requires At(ctx, at, Bump(ctx.env, e.iop, e.target.x, leave))
    ensures Lands(ctx, Here(ctx, at, s, st), ValueOf(ctx, e, st), at + |Bump(ctx.env, e.iop, e.target.x, leave)|, s, leave)
  {
    var x := e.target.x;
    if x !in ctx.env.globalKinds && x in ctx.env.slots {
      if leave && !IsPre(e.iop) {
        BumpAfterLoad(ctx, e, at, s, st);
      } else {
        BumpInPlace(ctx, e, leave, at, s, st);
      }
    } else {
      BumpByAdding(ctx, e, leave, at, s, st);
    }
  }

  /** `iinc`, then a load if the new value is wanted. */
  lemma BumpInPlace(ctx: Ctx, e: Expr, leave: bool, at: nat, s: seq<Value>, st: Store)
    requires ctx.env.Valid() && e.IncDec? && IsScalar(ctx.env, e.target)
    requires e.target.x !in ctx.env.globalKinds && e.target.x in ctx.env.slots && (leave ==> IsPre(e.iop))
    requires At(ctx, at, Bump(ctx.env, e.iop, e.target.x, leave))
    ensures Lands(ctx, Here(ctx, at, s, st), ValueOf(ctx, e, st), at + (if leave then 2 else 1), s, leave)
  {
    hide Jvm.Step, Reaches, At, FrameOf, Int32.Wrap, Fold, Safe, Env.Valid;
    var x := e.target.x;
    var bump := [IInc(ctx.env.slots[x], Delta(e.iop))];
    var load := if leave then [LoadVar(ctx.env, x)] else [];
    assert Bump(ctx.env, e.iop, x, leave) == bump + load;
    AtSplit(ctx, at, bump, load);
    StepIInc(ctx, at, s, st, x, Delta(e.iop));
    Steps(ctx, Here(ctx, at, s, st));
    if ReadVar(ctx.env, x, Scalar, st).Got? && leave {
      var after := Int32.Wrap(ReadVar(ctx.env, x, Scalar, st).v.n + Delta(e.iop));
      var st1 := WriteVar(ctx.env, x, IntV(after), st);
      StepLoadVar(ctx, at + 1, s, st1, x);
      ThenStep(ctx, Here(ctx, at, s, st), Here(ctx, at + 1, s, st1));
    }
  }

  /** A load of the old value, then `iinc`. */
  lemma BumpAfterLoad(ctx: Ctx, e: Expr, at: nat, s: seq<Value>, st: Store)
    requires ctx.env.Valid() && e.IncDec? && IsScalar(ctx.env, e.target) && !IsPre(e.iop)
    requires e.target.x !in ctx.env.globalKinds && e.target.x in ctx.env.slots
    requires At(ctx, at, Bump(ctx.env, e.iop, e.target.x, true))
    ensures Lands(ctx, Here(ctx, at, s, st), ValueOf(ctx, e, st), at + 2, s, true)
  {
    hide Jvm.Step, Reaches, At, FrameOf, Int32.Wrap, Fold, Safe, Env.Valid;
    var x := e.target.x;
    var bump := [IInc(ctx.env.slots[x], Delta(e.iop))];
    assert Bump(ctx.env, e.iop, x, true) == [LoadVar(ctx.env, x)] + bump;
    AtSplit(ctx, at, [LoadVar(ctx.env, x)], bump);
    StepLoadVar(ctx, at, s, st, x);
    Steps(ctx, Here(ctx, at, s, st));
    if ReadVar(ctx.env, x, Scalar, st).Got? {
      var v := ReadVar(ctx.env, x, Scalar, st).v;
      StepIInc(ctx, at + 1, s + [v], st, x, Delta(e.iop));
      ThenStep(ctx, Here(ctx, at, s, st), Here(ctx, at + 1, s + [v], st));
    }
  }

  /** Load, add one, store; with a copy of the old or of the new value underneath. */
  lemma BumpByAdding(ctx: Ctx, e: Expr, leave: bool, at: nat, s: seq<Value>, st: Store)
    requires ctx.env.Valid() && e.IncDec? && IsScalar(ctx.env, e.target)
    requires e.target.x in ctx.env.globalKinds || e.target.x !in ctx.env.slots
    requires At(ctx, at, Bump(ctx.env, e.iop, e.target.x, leave))
    ensures Lands(ctx, Here(ctx, at, s, st), ValueOf(ctx, e, st), at + |Bump(ctx.env, e.iop, e.target.x, leave)|, s, leave)
  {
    hide Jvm.Step, Reaches, At, FrameOf, Int32.Wrap, Fold, Safe, Env.Valid;
    var x, op := e.target.x, if Delta(e.iop) == 1 then Add else Sub;
    var early := if leave && !IsPre(e.iop) then [Dup] else [];
    var late := if leave && IsPre(e.iop) then [Dup] else [];
    AtSplit(ctx, at, [LoadVar(ctx.env, x)] + early + [Push(1), IArith(op)] + late, [SaveVar(ctx.env, x)]);
    AtSplit(ctx, at, [LoadVar(ctx.env, x)] + early + [Push(1), IArith(op)], late);
    AtSplit(ctx, at, [LoadVar(ctx.env, x)] + early, [Push(1), IArith(op)]);
    AtSplit(ctx, at, [LoadVar(ctx.env, x)], early);
    var c := Here(ctx, at, s, st);
    StepLoadVar(ctx, at, s, st, x);
    Steps(ctx, c);
    if ReadVar(ctx.env, x, Scalar, st).Got? {
      var before := ReadVar(ctx.env, x, Scalar, st).v.n;
      var after := Int32.Wrap(before + Delta(e.iop));
      var s1 := if early == [] then s else s + [IntV(before)];
      if early != [] {
        StepDup(ctx, at + 1, s, st, IntV(before));
        ThenStep(ctx, c, Here(ctx, at + 1, s + [IntV(before)], st));
      }
      var pc := at + 1 + |early|;
      AddOneRuns(ctx, op, before, pc, s1, st);
      Then(ctx, c, Here(ctx, pc, s1 + [IntV(before)], st), Here(ctx, pc + 2, s1 + [IntV(after)], st));
      StoreVarRuns(ctx, x, after, late != [], pc + 2, s1, st);
      Then(ctx, c, Here(ctx, pc + 2, s1 + [IntV(after)], st),
           Here(ctx, pc + 2 + |late| + 1, if late != [] then s1 + [IntV(after)] else s1,
                WriteVar(ctx.env, x, IntV(after), st)));
    }
  }

  lemma AddOneRuns(ctx: Ctx, op: ArithOp, v: int, at: nat, s: seq<Value>, st: Store)
    requires ctx.env.Valid() && (op == Add || op == Sub) && At(ctx, at, [Push(1), IArith(op)])
    ensures Reaches(ctx, Here(ctx, at, s + [IntV(v)], st),
                    Here(ctx, at + 2, s + [IntV(Int32.Wrap(v + if op == Add then 1 else -1))], st))
  {
    hide Jvm.Step, Reaches, At, FrameOf, Int32.Wrap, Fold, Safe, Env.Valid;
    assert [Push(1), IArith(op)] == [Push(1)] + [IArith(op)];
    AtSplit(ctx, at, [Push(1)], [IArith(op)]);
    StepPush(ctx, at, s + [IntV(v)], st, 1);
    Steps(ctx, Here(ctx, at, s + [IntV(v)], st));
    StepArith(ctx, at + 1, s, st, op, v, 1);
    ThenStep(ctx, Here(ctx, at, s + [IntV(v)], st), Here(ctx, at + 1, s + [IntV(v)] + [IntV(1)], st));
  }

  /** Expression statements: nothing is left on the stack. */
  lemma EffectRuns(ctx: Ctx, e: Expr, at: nat, s: seq<Value>, st: Store)
    requires ctx.env.Valid() && IsEffect(ctx.env, e) && At(ctx, at, Effect(ctx.env, e))
    ensures Lands(ctx, Here(ctx, at, s, st), ValueOf(ctx, e, st), at + |Effect(ctx.env, e)|, s, false)
  {
    hide Jvm.Step, Reaches, At, FrameOf, Int32.Wrap, Fold, Safe, Env.Valid;
    match e {
      case Assign(_, _, _) => AssignRuns(ctx, e, false, at, s, st);
      case IncDec(_, _) => BumpRuns(ctx, e, false, at, s, st);
      case Call(f, args) =>
        var drop := if SigOf(ctx.env, f).isVoid then [] else [Pop];
        AtSplit(ctx, at, Code(ctx.env, e), drop);
        InvokeRuns(ctx, e, false, at, s, st);
        if drop != [] && ValueOf(ctx, e, st).Ok? {
          var Ok(v, st1) := ValueOf(ctx, e, st);
          var pc := at + |Code(ctx.env, e)|;
          StepPop(ctx, pc, s, st1, IntV(v));
          ThenStep(ctx, Here(ctx, at, s, st), Here(ctx, pc, s + [IntV(v)], st1));
        }
    }
  }
}
