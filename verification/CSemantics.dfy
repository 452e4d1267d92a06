/** Big-step meaning of the source language (sections 6.5 and 6.8 of
    ISO/IEC 9899:2011), on int scalars, int arrays and calls. Operands are
    evaluated left to right; arithmetic is 32-bit two's complement; where C
    leaves the behaviour undefined the result is an error. */
module CSemantics {
  import opened Ast
  import opened World
  import Int32

  datatype Store = Store(locals: map<string, Value>, world: World)

  datatype Eval = Ok(v: int, st: Store) | Err(why: Reason)

  datatype EvalList = Oks(vs: seq<int>, st: Store) | Errs(why: Reason)

  datatype Fetch = Got(v: Value) | Missing(why: Reason)

  /** The object a name denotes; a local hides a global. */
  function ReadVar(env: Env, x: string, kind: VarKind, st: Store): Fetch {
    var m := if env.IsLocal(x) then st.locals else st.world.globals;
    if x !in m then Missing(Unset)
    else if m[x].IntV? == (kind == Scalar) then Got(m[x])
    else Missing(BadType)
  }

  function WriteVar(env: Env, x: string, v: Value, st: Store): Store {
    if env.IsLocal(x) then st.(locals := st.locals[x := v])
    else st.(world := st.world.(globals := st.world.globals[x := v]))
  }

  function BoolInt(b: bool): int {
    if b then 1 else 0
  }

  /** The last step of an assignment: combine the old value, if the operator is compound. */
  function Combine(op: AssignOp, before: int, v: int): Option<int> {
    if op == Set then Some(v) else Compute(OpOf(op), before, v)
  }

  predicate IsPre(op: IncDecOp) {
    op == PreInc || op == PreDec
  }

  function Delta(op: IncDecOp): int {
    if op == PreInc || op == PostInc then 1 else -1
  }

  /** Section 6.5: the value of an expression, and the store it leaves. */
  function Evaluate(env: Env, callee: Callee, e: Expr, st: Store): Eval
    decreases e, 0
  {
    match e
    case Lit(n) => Ok(Int32.Wrap(n), st)
    case Var(x) =>
      (match ReadVar(env, x, Scalar, st)
       case Got(v) => if v.IntV? then Ok(v.n, st) else Err(BadType)
       case Missing(why) => Err(why))
    case Arith(op, l, r) =>
      (match Evaluate(env, callee, l, st)
       case Err(why) => Err(why)
       case Ok(a, st1) =>
         match Evaluate(env, callee, r, st1)
         case Err(why) => Err(why)
         case Ok(b, st2) =>
           match Compute(op, a, b)
           case None => Err(DivByZero)
           case Some(v) => Ok(v, st2))
    case Neg(e1) =>
      (match Evaluate(env, callee, e1, st)
       case Err(why) => Err(why)
       case Ok(a, st1) => Ok(Int32.Wrap(-a), st1))
    case Call(f, args) =>
      (match EvaluateAll(env, callee, args, st)
       case Errs(why) => Err(why)
       case Oks(vs, st1) =>
         match callee(f, vs, Record(st1.world, f, vs))
         case None => Err(CalleeFailed)
         case Some((v, w)) => Ok(v, st1.(world := w)))
    case Index(base, sub) =>
      (match Locate(env, callee, base, sub, st)
       case Err(why) => Err(why)
       case Ok(i, st1) =>
         var r := RefOf(env, base, st);
         if InBounds(st1.world, r, i) then Ok(st1.world.heap[r][i], st1) else Err(BadIndex))
    case Assign(op, Var(x), rhs) =>
      (match if op == Set then Got(IntV(0)) else ReadVar(env, x, Scalar, st)
       case Missing(why) => Err(why)
       case Got(before) =>
         match Evaluate(env, callee, rhs, st)
         case Err(why) => Err(why)
         case Ok(b, st1) =>
           if before.RefV? then Err(BadType) else
           match Combine(op, before.n, b)
           case None => Err(DivByZero)
           case Some(v) => Ok(v, WriteVar(env, x, IntV(v), st1)))
    case Assign(op, Index(base, sub), rhs) =>
      (match Locate(env, callee, base, sub, st)
       case Err(why) => Err(why)
       case Ok(i, st1) =>
         var r := RefOf(env, base, st);
         if op != Set && !InBounds(st1.world, r, i) then Err(BadIndex) else
         var before := if op == Set then 0 else st1.world.heap[r][i];
         match Evaluate(env, callee, rhs, st1)
         case Err(why) => Err(why)
         case Ok(b, st2) =>
           match Combine(op, before, b)
           case None => Err(DivByZero)
           case Some(v) =>
             if InBounds(st2.world, r, i) then Ok(v, st2.(world := WriteElem(st2.world, r, i, v)))
             else Err(BadIndex))
    case Assign(_, _, _) => Err(BadType)
    case IncDec(op, target) =>
      if !target.Var? then Err(BadType) else
      (match ReadVar(env, target.x, Scalar, st)
       case Missing(why) => Err(why)
       case Got(before) =>
         if before.RefV? then Err(BadType) else
         var after := Int32.Wrap(before.n + Delta(op));
         Ok(if IsPre(op) then after else before.n, WriteVar(env, target.x, IntV(after), st)))
    case Rel(op, l, r) =>
      (match Evaluate(env, callee, l, st)
       case Err(why) => Err(why)
       case Ok(a, st1) =>
         match Evaluate(env, callee, r, st1)
         case Err(why) => Err(why)
         case Ok(b, st2) => Ok(BoolInt(Compare(op, a, b)), st2))
    case Logic(op, l, r) =>
      (match Evaluate(env, callee, l, st)
       case Err(why) => Err(why)
       case Ok(a, st1) =>
         if (a != 0) == (op == Or) then Ok(BoolInt(op == Or), st1) else
         match Evaluate(env, callee, r, st1)
         case Err(why) => Err(why)
         case Ok(b, st2) => Ok(BoolInt(b != 0), st2))
  }

  /** The subscript of an element access, once its base is known to be an array. */
  function Locate(env: Env, callee: Callee, base: Expr, sub: Expr, st: Store): (res: Eval)
    ensures res.Ok? ==> base.Var? && ReadVar(env, base.x, Array, st).Got?
    decreases sub, 1
  {
    if !base.Var? then Err(BadType) else
    match ReadVar(env, base.x, Array, st)
    case Missing(why) => Err(why)
    case Got(_) => Evaluate(env, callee, sub, st)
  }

  function RefOf(env: Env, base: Expr, st: Store): nat
    requires base.Var? && ReadVar(env, base.x, Array, st).Got?
  {
    ReadVar(env, base.x, Array, st).v.r
  }

  function EvaluateAll(env: Env, callee: Callee, es: seq<Expr>, st: Store): (res: EvalList)
    ensures res.Oks? ==> |res.vs| == |es|
    decreases es, 0
  {
    if es == [] then Oks([], st) else
    match Evaluate(env, callee, es[0], st)
    case Err(why) => Errs(why)
    case Ok(v, st1) =>
      match EvaluateAll(env, callee, es[1..], st1)
      case Errs(why) => Errs(why)
      case Oks(vs, st2) => Oks([v] + vs, st2)
  }

  /** How a statement ends. `Timeout` is an execution cut short after `fuel` loop iterations. */
  datatype Ending<+S> =
    | Normal(st: S)
    | Broke(st: S)
    | Continued(st: S)
    | Done(val: Option<int>, world: World)
    | Error(why: Reason)
    | Timeout

  type Outcome = Ending<Store>

  /** The parts that `while` and `for` loops share. */
  function LoopCond(s: Stmt): Option<Expr>
    requires s.While? || s.For?
  {
    if s.While? then Some(s.cond) else s.fcond
  }

  function LoopBody(s: Stmt): Stmt
    requires s.While? || s.For?
  {
    if s.While? then s.wbody else s.fbody
  }

  /** The truth value of an optional condition; a missing one is true. */
  function Test(env: Env, callee: Callee, cond: Option<Expr>, st: Store): Eval {
    if cond.None? then Ok(1, st) else Evaluate(env, callee, cond.value, st)
  }

  /** Section 6.8: statements. Every loop iteration spends one unit of fuel. */
  function Exec(env: Env, callee: Callee, s: Stmt, st: Store, fuel: nat): Outcome
    decreases fuel, s, if s.If? then |s.elifs| + 1 else 1
  {
    match s
    case Empty => Normal(st)
    case ExprStmt(e) =>
      (match Evaluate(env, callee, e, st)
       case Err(why) => Error(why)
       case Ok(_, st1) => Normal(st1))
    case Decl(x, None) => Normal(st)
    case Decl(x, Some(e)) =>
      (match Evaluate(env, callee, e, st)
       case Err(why) => Error(why)
       case Ok(v, st1) => Normal(WriteVar(env, x, IntV(v), st1)))
    case ArrayDecl(x, size) =>
      Normal(WriteVar(env, x, RefV(|st.world.heap|), st.(world := Allocate(st.world, size))))
    case Compound(body) => ExecAll(env, callee, body, st, fuel)
    case If(_, cond, thn, _, _) =>
      (match Evaluate(env, callee, cond, st)
       case Err(why) => Error(why)
       case Ok(v, st1) =>
         if v != 0 then Exec(env, callee, thn, st1, fuel) else ExecElse(env, callee, s, 0, st1, fuel))
    case While(_, _, _) => Loop(env, callee, s, st, fuel)
    case Do(_, _, _) => DoLoop(env, callee, s, st, fuel)
    case For(_, init, _, _, _) =>
      (match Exec(env, callee, init, st, fuel)
       case Normal(st1) => Loop(env, callee, s, st1, fuel)
       case other => other)
    case Break => Broke(st)
    case Continue => Continued(st)
    case Return(None) => Done(None, st.world)
    case Return(Some(e)) =>
      match Evaluate(env, callee, e, st)
      case Err(why) => Error(why)
      case Ok(v, st1) => Done(Some(v), st1.world)
  }

  function ExecAll(env: Env, callee: Callee, ss: seq<Stmt>, st: Store, fuel: nat): Outcome
    decreases fuel, ss
  {
    if ss == [] then Normal(st) else
    match Exec(env, callee, ss[0], st, fuel)
    case Normal(st1) => ExecAll(env, callee, ss[1..], st1, fuel)
    case other => other
  }

  /** The rest of an `if` whose conditions before the `i`-th `else if` were all false. */
  function ExecElse(env: Env, callee: Callee, s: Stmt, i: nat, st: Store, fuel: nat): Outcome
    requires s.If? && i <= |s.elifs|
    decreases fuel, s, |s.elifs| - i
  {
    if i == |s.elifs| then
      (match s.els
       case None => Normal(st)
       case Some(s1) => Exec(env, callee, s1, st, fuel))
    else
      match Evaluate(env, callee, s.elifs[i].cond, st)
      case Err(why) => Error(why)
      case Ok(v, st1) =>
        if v != 0 then Exec(env, callee, s.elifs[i].body, st1, fuel)
        else ExecElse(env, callee, s, i + 1, st1, fuel)
  }

  /** `while` and `for`: test, body, step, again. */
  function Loop(env: Env, callee: Callee, s: Stmt, st: Store, fuel: nat): Outcome
    requires s.While? || s.For?
    decreases fuel, s, 0
  {
    if fuel == 0 then Timeout else
    match Test(env, callee, LoopCond(s), st)
    case Err(why) => Error(why)
    case Ok(v, st1) =>
      if v == 0 then Normal(st1) else
      match Exec(env, callee, LoopBody(s), st1, fuel - 1)
      case Normal(st2) => Again(env, callee, s, st2, fuel - 1)
      case Continued(st2) => Again(env, callee, s, st2, fuel - 1)
      case Broke(st2) => Normal(st2)
      case other => other
  }

  function Again(env: Env, callee: Callee, s: Stmt, st: Store, fuel: nat): Outcome
    requires s.While? || s.For?
    decreases fuel, s, 1
  {
    match if s.While? then Normal(st) else Exec(env, callee, s.step, st, fuel)
    case Normal(st1) => Loop(env, callee, s, st1, fuel)
    case other => other
  }

  /** `do`: body, test, again. */
  function DoLoop(env: Env, callee: Callee, s: Stmt, st: Store, fuel: nat): Outcome
    requires s.Do?
    decreases fuel, s, 0
  {
    if fuel == 0 then Timeout else
    match Exec(env, callee, s.dbody, st, fuel - 1)
    case Normal(st1) => DoTest(env, callee, s, st1, fuel - 1)
    case Continued(st1) => DoTest(env, callee, s, st1, fuel - 1)
    case Broke(st1) => Normal(st1)
    case other => other
  }

  function DoTest(env: Env, callee: Callee, s: Stmt, st: Store, fuel: nat): Outcome
    requires s.Do?
    decreases fuel, s, 1
  {
    match Test(env, callee, s.dcond, st)
    case Err(why) => Error(why)
    case Ok(v, st1) => if v == 0 then Normal(st1) else DoLoop(env, callee, s, st1, fuel)
  }
}
