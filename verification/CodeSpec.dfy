/** What the visitors of hzcc/codegen/jvm/visitor_impl emit, as a function of
    the tree alone, for the fragment of the language on which the visitors'
    context flags work. `Generator` proves that the flag-driven visitors emit
    exactly this. */
module CodeSpec {
  import opened Ast
  import opened World
  import opened Jvm
  import opened Labels
  import opened CSemantics
  import opened Folding
  import Int32

  // ----- the fragment -----

  /** No array element is named anywhere in the expression. */
  predicate ArrayFree(e: Expr) {
    match e
    case Index(_, _) => false
    case Lit(_) => true
    case Var(_) => true
    case Arith(_, l, r) => ArrayFree(l) && ArrayFree(r)
    case Neg(e1) => ArrayFree(e1)
    case Call(_, args) => forall i :: 0 <= i < |args| ==> ArrayFree(args[i])
    case Assign(_, l, r) => ArrayFree(l) && ArrayFree(r)
    case IncDec(_, e1) => ArrayFree(e1)
    case Rel(_, l, r) => ArrayFree(l) && ArrayFree(r)
    case Logic(_, l, r) => ArrayFree(l) && ArrayFree(r)
  }

  predicate KnownCall(env: Env, f: string, argc: nat) {
    f in env.funcs && env.funcs[f].arity == argc
  }

  predicate IsScalar(env: Env, e: Expr) {
    e.Var? && env.Known(e.x, Scalar)
  }

  predicate IsArray(env: Env, e: Expr) {
    e.Var? && env.Known(e.x, Array)
  }

  /** Constant parts are folded rightly, and a constant is an int. */
  predicate FoldsWell(e: Expr) {
    Safe(e) && (Fold(e).Constant? ==> Int32.Fits(Fold(e).v))
  }

  /** Value expressions. With `pure`, no assignment and no increment occurs:
      that is what conditions may contain. */
  predicate IsValue(env: Env, e: Expr, pure: bool)
    decreases e, 1
  {
    FoldsWell(e) &&
    match e
    case Lit(_) => true
    case Var(x) => env.Known(x, Scalar)
    case Arith(_, l, r) => IsValue(env, l, pure) && IsValue(env, r, pure)
    case Neg(e1) => IsValue(env, e1, pure)
    case Call(f, args) =>
      && KnownCall(env, f, |args|) && !env.funcs[f].isVoid
      && forall i :: 0 <= i < |args| ==> IsValue(env, args[i], pure)
    case Index(base, sub) => IsArray(env, base) && IsValue(env, sub, pure)
    case Assign(_, _, _) => !pure && IsAssignment(env, e)
    case IncDec(_, target) => !pure && IsScalar(env, target)
    case Rel(_, _, _) => false
    case Logic(_, _, _) => false
  }

  /** The subscript of an assigned element names no array. */
  predicate IsAssignment(env: Env, e: Expr)
    requires e.Assign?
    decreases e, 0
  {
    && IsValue(env, e.rhs, false)
    && match e.lhs
       case Var(_) => IsScalar(env, e.lhs)
       case Index(base, sub) => IsArray(env, base) && IsValue(env, sub, false) && ArrayFree(sub)
       case _ => false
  }

  /** Expression statements: assignments, increments and calls. */
  predicate IsEffect(env: Env, e: Expr) {
    match e
    case Assign(_, _, _) => IsAssignment(env, e)
    case IncDec(_, target) => IsScalar(env, target)
    case Call(f, args) =>
      KnownCall(env, f, |args|) && forall i :: 0 <= i < |args| ==> IsValue(env, args[i], false)
    case _ => false
  }

  /** A condition that is one value: a literal, a variable, an element,
      arithmetic, or the negation of such. */
  predicate IsAtom(env: Env, e: Expr) {
    && IsValue(env, e, true)
    && match e
       case Call(_, _) => false
       case Neg(e1) => IsAtom(env, e1)
       case _ => true
  }

  /** Conditions: one relation, one atom, or a chain of either with a single operator. */
  predicate IsChain(env: Env, op: LogicOp, e: Expr) {
    match e
    case Rel(_, l, r) => IsValue(env, l, true) && IsValue(env, r, true)
    case Logic(op', l, r) => op' == op && IsChain(env, op, l) && IsChain(env, op, r)
    case _ => IsAtom(env, e)
  }

  predicate IsCondition(env: Env, e: Expr) {
    IsChain(env, And, e) || IsChain(env, Or, e)
  }

  /** Initialisers: anything but a bare variable or element, for which no load is requested. */
  predicate IsInit(env: Env, e: Expr) {
    IsValue(env, e, false) && !e.Var? && !e.Index?
  }

  /** The innermost loop around a statement, as far as `continue` cares. */
  datatype Around = NoLoop | Stepping | Testing

  function LoopAround(sc: seq<Scope>): Around {
    if LoopIndex(sc) < 0 then NoLoop
    else if sc[LoopIndex(sc)].kind == DoS then Testing
    else Stepping
  }

  predicate IsSimple(env: Env, s: Stmt) {
    match s
    case Empty => true
    case ExprStmt(e) => IsEffect(env, e)
    case _ => false
  }

  /** Statements of the fragment: `||` is not used in `while` and `for`
      conditions, a `while` condition is not constant, `continue` is used in
      `for` and `while` loops only, and a local array has no global's name. */
  predicate InFragment(env: Env, s: Stmt, around: Around) {
    match s
    case Empty => true
    case ExprStmt(e) => IsEffect(env, e)
    case Decl(x, init) => x in env.slots && env.Known(x, Scalar) && (init.Some? ==> IsInit(env, init.value))
    case ArrayDecl(x, size) => x in env.slots && x !in env.globalKinds && env.Known(x, Array) && Int32.Fits(size)
    case Compound(body) => forall i :: 0 <= i < |body| ==> InFragment(env, body[i], around)
    case If(_, cond, thn, elifs, els) =>
      && IsCondition(env, cond)
      && InFragment(env, thn, around)
      && (forall i :: 0 <= i < |elifs| ==> IsCondition(env, elifs[i].cond) && InFragment(env, elifs[i].body, around))
      && (els.Some? ==> InFragment(env, els.value, around))
    case While(_, cond, body) =>
      IsChain(env, And, cond) && !IsConstant(cond) && InFragment(env, body, Stepping)
    case Do(_, body, cond) =>
      (cond.Some? ==> IsCondition(env, cond.value)) && InFragment(env, body, Testing)
    case For(_, init, cond, step, body) =>
      && IsSimple(env, init) && IsSimple(env, step)
      && (cond.Some? ==> IsChain(env, And, cond.value))
      && InFragment(env, body, Stepping)
    case Break => around != NoLoop
    case Continue => around == Stepping
    case Return(val) => val.Some? ==> IsValue(env, val.value, false)
  }

  // ----- expressions -----

  /** StackManager::LoadFromVariable and SaveToVariable, on names the tables know. */
  function LoadVar(env: Env, x: string): Instr {
    if x in env.slots then ILoad(env.slots[x]) else GetStatic(x, Scalar)
  }

  function LoadArray(env: Env, x: string): Instr {
    if x in env.slots then ALoad(env.slots[x]) else GetStatic(x, Array)
  }

  function SaveVar(env: Env, x: string): Instr {
    if env.Known(x, Array) then IAStore
    else if x in env.slots then IStore(env.slots[x])
    else PutStatic(x, Scalar)
  }

  /** Where a declared array goes: to the global of that name, if there is one. */
  function SaveArray(env: Env, x: string): Instr {
    if x in env.globalKinds then PutStatic(x, Array) else AStore(SlotOf(env, x))
  }

  function NameOf(e: Expr): string {
    if e.Var? then e.x else ""
  }

  function SigOf(env: Env, f: string): Signature {
    if f in env.funcs then env.funcs[f] else Signature(0, false)
  }

  /** A visit under HZCC_JVM_Use_Deduced_IF_POSSIBLE with a value requested. */
  function Operand(env: Env, e: Expr): seq<Instr>
    decreases e, 2
  {
    match Fold(e)
    case Constant(v) => [Push(v)]
    case _ => Code(env, e)
  }

  /** A visit that leaves the expression's value on the stack. */
  function Code(env: Env, e: Expr): seq<Instr>
    decreases e, 1
  {
    match e
    case Lit(n) => [Push(n)]
    case Var(x) => [LoadVar(env, x)]
    case Arith(op, l, r) => Operand(env, l) + Operand(env, r) + [IArith(op)]
    case Neg(e1) => Code(env, e1) + [INeg]
    case Call(f, args) => Arguments(env, args) + [InvokeStatic(f, SigOf(env, f))]
    case Index(base, sub) => [LoadArray(env, NameOf(base))] + Operand(env, sub) + [IALoad]
    case Assign(_, _, _) => AssignCode(env, e, true)
    case IncDec(op, target) => Bump(env, op, NameOf(target), true)
    case _ => []
  }

  function Arguments(env: Env, args: seq<Expr>): seq<Instr>
    decreases args
  {
    if args == [] then [] else Operand(env, args[0]) + Arguments(env, args[1..])
  }

  /** `leave` asks for the assigned value to stay on the stack. */
  function AssignCode(env: Env, e: Expr, leave: bool): seq<Instr>
    requires e.Assign?
    decreases e, 0
  {
    match e.lhs
    case Var(x) =>
      (if e.sop == Set then [] else [LoadVar(env, x)])
      + Operand(env, e.rhs)
      + (if e.sop == Set then [] else [IArith(OpOf(e.sop))])
      + (if leave then [Dup] else [])
      + [SaveVar(env, x)]
    case Index(base, sub) =>
      [LoadArray(env, NameOf(base))]
      + Operand(env, sub)
      + (if e.sop == Set then [] else [Dup2, IALoad])
      + Operand(env, e.rhs)
      + (if e.sop == Set then [] else [IArith(OpOf(e.sop))])
      + (if leave then [DupX2] else [])
      + [SaveVar(env, NameOf(base))]
    case _ => []
  }

  /** Increments: `iinc` unless the name is a global's. */
  function Bump(env: Env, op: IncDecOp, x: string, leave: bool): seq<Instr> {
    var up := op == PreInc || op == PostInc;
    var pre := op == PreInc || op == PreDec;
    if x !in env.globalKinds && x in env.slots then
      (if leave && !pre then [LoadVar(env, x)] else [])
      + [IInc(env.slots[x], if up then 1 else -1)]
      + (if leave && pre then [LoadVar(env, x)] else [])
    else
      [LoadVar(env, x)]
      + (if leave && !pre then [Dup] else [])
      + [Push(1), IArith(if up then Add else Sub)]
      + (if leave && pre then [Dup] else [])
      + [SaveVar(env, x)]
  }

  /** An expression statement. */
  function Effect(env: Env, e: Expr): seq<Instr> {
    match e
    case Assign(_, _, _) => AssignCode(env, e, false)
    case IncDec(op, target) => Bump(env, op, NameOf(target), false)
    case Call(f, args) => Code(env, e) + (if SigOf(env, f).isVoid then [] else [Pop])
    case _ => []
  }

  // ----- conditions -----

  /** The pending comparison: which relation the next branch must test. */
  datatype OpHint = Hint(op: RelOp) | NoHint

  /** kOpHintStrings: branch when the comparison holds. */
  function BranchIf(h: OpHint, l: string): Instr {
    match h
    case Hint(op) => IfICmp(op, l)
    case NoHint => IfZ(NE, l)
  }

  /** kOpHintReversedStrings: branch when it does not. */
  function BranchUnless(h: OpHint, l: string): Instr {
    match h
    case Hint(LT) => IfICmp(GE, l)
    case Hint(EQ) => IfICmp(NE, l)
    case Hint(NE) => IfICmp(EQ, l)
    case Hint(GT) => IfICmp(LE, l)
    case Hint(LE) => IfICmp(GT, l)
    case Hint(GE) => IfICmp(LT, l)
    case NoHint => IfZ(EQ, l)
  }

  /** The hint pending after a condition has been visited. */
  function HintOf(c: Expr): OpHint {
    match c
    case Rel(op, _, _) => Hint(op)
    case Logic(_, _, r) => HintOf(r)
    case _ => NoHint
  }

  /** The part of a condition before its last branch. */
  function ConditionCode(env: Env, c: Expr, entry: string, exit: string): seq<Instr> {
    match c
    case Rel(_, l, r) => Operand(env, l) + Operand(env, r)
    case Logic(op, l, r) =>
      ConditionCode(env, l, entry, exit)
      + [if op == And then BranchUnless(HintOf(l), exit) else BranchIf(HintOf(l), entry)]
      + ConditionCode(env, r, entry, exit)
    case _ => Code(env, c)
  }

  /** A condition that leaves to the innermost scope's exit label when it is false. */
  function Guard(env: Env, c: Expr, sc: seq<Scope>): seq<Instr>
    requires sc != []
  {
    ConditionCode(env, c, EntryLabel(sc), ExitLabel(sc)) + [BranchUnless(HintOf(c), ExitLabel(sc))]
  }

  // ----- statements -----

  /** How many line labels a statement uses up. */
  function Lines(s: Stmt): nat
    decreases s, if s.If? then |s.elifs| + 1 else 1
  {
    match s
    case Compound(body) => LinesAll(body)
    case If(_, _, thn, _, _) => Lines(thn) + LinesElse(s, 0)
    case While(_, _, body) => Lines(body)
    case Do(_, body, _) => Lines(body)
    case For(_, _, _, _, body) => Lines(body)
    case _ => 0
  }

  function LinesAll(ss: seq<Stmt>): nat
    decreases ss
  {
    if ss == [] then 0 else 1 + Lines(ss[0]) + LinesAll(ss[1..])
  }

  function LinesElse(s: Stmt, i: nat): nat
    requires s.If? && i <= |s.elifs|
    decreases s, |s.elifs| - i
  {
    if i < |s.elifs| then Lines(s.elifs[i].body) + LinesElse(s, i + 1)
    else if s.els.Some? then Lines(s.els.value)
    else 0
  }

  /** The code of a statement inside the scopes `sc`, when `k` line labels have been used before it. */
  function StmtCode(env: Env, s: Stmt, sc: seq<Scope>, k: nat): seq<Instr>
    decreases s, if s.If? then |s.elifs| + 1 else 1
  {
    match s
    case Empty => []
    case ExprStmt(e) => Effect(env, e)
    case Decl(x, init) => if init.None? then [] else Operand(env, init.value) + [SaveVar(env, x)]
    case ArrayDecl(x, size) => [Push(size), NewArray, SaveArray(env, x)]
    case Compound(body) => BodyCode(env, body, sc, k)
    case If(pos, cond, thn, _, _) =>
      var sc1 := sc + [MakeScope(pos, IfS)];
      var all := NamedLabel(sc1, "stmt_end");
      ArmCode(env, cond, StmtCode(env, thn, sc1, k), sc1, all)
      + ElseCode(env, s, 0, sc1, k + Lines(thn), all)
      + [Label(all)]
    case While(_, _, _) => LoopCode(env, s, sc, k)
    case Do(pos, body, cond) =>
      var sc1 := sc + [MakeScope(pos, DoS)];
      [Label(EntryLabel(sc1))]
      + StmtCode(env, body, sc1, k)
      + DoGuard(env, cond, sc1)
      + [Label(ExitLabel(sc1))]
    case For(_, init, _, _, _) => SimpleCode(env, init) + LoopCode(env, s, sc, k)
    case Break => [Goto(LoopExitLabel(sc))]
    case Continue => [Goto(LoopEntryLabel(sc))]
    case Return(None) => [Instr.Return]
    case Return(Some(e)) => Operand(env, e) + [IReturn]
  }

  /** The scope a loop opens, and the label at its top: a `while` starts at its
      entry label; in a `for` that label stands before the step. */
  function LoopScope(s: Stmt, sc: seq<Scope>): (r: seq<Scope>)
    requires s.While? || s.For?
    ensures r != []
  {
    sc + [MakeScope(s.pos, if s.While? then WhileS else ForS)]
  }

  function AgainLabel(s: Stmt, sc: seq<Scope>): string
    requires s.While? || s.For?
  {
    if s.While? then EntryLabel(LoopScope(s, sc)) else NamedLabel(LoopScope(s, sc), "for_cond")
  }

  function LoopGuard(env: Env, s: Stmt, sc: seq<Scope>): seq<Instr>
    requires s.While? || s.For?
  {
    if LoopCond(s).None? then [] else Guard(env, LoopCond(s).value, LoopScope(s, sc))
  }

  function LoopTail(env: Env, s: Stmt, sc: seq<Scope>): seq<Instr>
    requires s.While? || s.For?
  {
    if s.While? then [] else [Label(EntryLabel(LoopScope(s, sc)))] + SimpleCode(env, s.step)
  }

  /** A `while`, or a `for` after its initialisation. */
  function LoopCode(env: Env, s: Stmt, sc: seq<Scope>, k: nat): seq<Instr>
    requires s.While? || s.For?
    decreases s, 0
  {
    [Label(AgainLabel(s, sc))]
    + LoopGuard(env, s, sc)
    + StmtCode(env, LoopBody(s), LoopScope(s, sc), k)
    + LoopTail(env, s, sc)
    + [Goto(AgainLabel(s, sc)), Label(ExitLabel(LoopScope(s, sc)))]
  }

  function SlotOf(env: Env, x: string): nat {
    if x in env.slots then env.slots[x] else 0
  }

  function SimpleCode(env: Env, s: Stmt): seq<Instr> {
    if s.ExprStmt? then Effect(env, s.e) else []
  }

  /** The test at the bottom of a `do`: back to the entry when it holds. */
  function DoGuard(env: Env, cond: Option<Expr>, sc: seq<Scope>): seq<Instr>
    requires sc != []
  {
    match cond
    case None => [Goto(EntryLabel(sc))]
    case Some(c) =>
      ConditionCode(env, c, EntryLabel(sc), ExitLabel(sc)) + [BranchIf(HintOf(c), EntryLabel(sc))]
  }

  /** One arm of an `if`: its condition, its body, and the jump past the whole statement. */
  function ArmCode(env: Env, cond: Expr, body: seq<Instr>, sc: seq<Scope>, all: string): seq<Instr>
    requires sc != []
  {
    Guard(env, cond, sc) + [Label(EntryLabel(sc))] + body + [Goto(all), Label(ExitLabel(sc))]
  }

  /** The arms from the `i`-th `else if` on. */
  function ElseCode(env: Env, s: Stmt, i: nat, sc: seq<Scope>, k: nat, all: string): seq<Instr>
    requires s.If? && i <= |s.elifs|
    decreases s, |s.elifs| - i
  {
    if i < |s.elifs| then
      var sc1 := sc + [MakeScope(s.elifs[i].pos, ElseIfS)];
      ArmCode(env, s.elifs[i].cond, StmtCode(env, s.elifs[i].body, sc1, k), sc1, all)
      + ElseCode(env, s, i + 1, sc, k + Lines(s.elifs[i].body), all)
    else if s.els.Some? then StmtCode(env, s.els.value, sc, k)
    else []
  }

  /** The statements of a compound, each behind its line label. */
  function BodyCode(env: Env, ss: seq<Stmt>, sc: seq<Scope>, k: nat): seq<Instr>
    decreases ss
  {
    if ss == [] then [] else
      [Label(LineLabel(k))]
      + StmtCode(env, ss[0], sc, k + 1)
      + BodyCode(env, ss[1..], sc, k + 1 + Lines(ss[0]))
  }
}
