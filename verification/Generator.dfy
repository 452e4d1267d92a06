/** The code generator as the source writes it: one object whose visitors append
    to an output buffer while saving, setting and restoring context flags, a
    pending comparison, a stack of names and a stack of scopes. Every visitor is
    proved to append exactly the code `CodeSpec` prescribes and to leave the
    flags, the scopes and the loop count as it found them. */
module Generator {
  import opened Ast
  import opened World
  import opened Jvm
  import opened Labels
  import opened LabelManager
  import opened Folding
  import opened CodeSpec
  import FunctionCorrectness

  /** Why an expression is visited: for its value, for its effect, as a
      condition, for a variable's name, for the address of an element to be
      assigned, or for the array an element is read from. */
  datatype Mode = ForValue | ForEffect | ForCondition | ForName | ForAddress | ForBase

  /** What a visit appends. */
  function Emits(env: Env, sc: seq<Scope>, mode: Mode, e: Expr): seq<Instr> {
    match mode
    case ForValue => Code(env, e)
    case ForEffect => Effect(env, e)
    case ForCondition => if sc == [] then [] else ConditionCode(env, e, EntryLabel(sc), ExitLabel(sc))
    case ForName => []
    case ForAddress => if e.Index? then [LoadArray(env, NameOf(e.base))] + Operand(env, e.sub) else []
    case ForBase => [LoadArray(env, NameOf(e))]
  }

  /** What visiting a value, condition or effect leaves on the return stack for
      good: the names of the arrays it reads elements of, in order. */
  function Remains(e: Expr): seq<string> {
    match e
    case Arith(_, l, r) => Remains(l) + Remains(r)
    case Neg(e1) => Remains(e1)
    case Call(_, args) => RemainsAll(args)
    case Index(base, sub) => [NameOf(base)] + Remains(sub)
    case Assign(_, _, rhs) => Remains(rhs)
    case Rel(_, l, r) => Remains(l) + Remains(r)
    case Logic(_, l, r) => Remains(l) + Remains(r)
    case _ => []
  }

  function RemainsAll(args: seq<Expr>): seq<string> {
    if args == [] then [] else Remains(args[0]) + RemainsAll(args[1..])
  }

  /** What a visit leaves there: the name it was asked for, or what remains. */
  function Leaves(mode: Mode, e: Expr): seq<string> {
    match mode
    case ForName => [NameOf(e)]
    case ForAddress => if e.Index? then [NameOf(e.base)] else []
    case ForBase => [NameOf(e)]
    case _ => Remains(e)
  }

  lemma {:induction false} NothingRemains(e: Expr)
    ensures ArrayFree(e) || Fold(e).Constant? ==> Remains(e) == []
  {
    match e {
      case Arith(_, l, r) =>
        NothingRemains(l);
        NothingRemains(r);
      case Neg(e1) => NothingRemains(e1);
      case Call(_, args) =>
        if ArrayFree(e) {
          NothingRemainsOf(args);
        }
      case Assign(_, _, rhs) => NothingRemains(rhs);
      case Rel(_, l, r) =>
        NothingRemains(l);
        NothingRemains(r);
      case Logic(_, l, r) =>
        NothingRemains(l);
        NothingRemains(r);
      case _ =>
    }
  }

  lemma {:induction false} NothingRemainsOf(args: seq<Expr>)
    requires forall i :: 0 <= i < |args| ==> ArrayFree(args[i])
    ensures RemainsAll(args) == []
  {
    if args != [] {
      NothingRemains(args[0]);
      NothingRemainsOf(args[1..]);
    }
  }

  lemma {:induction false} RemainsSnoc(args: seq<Expr>, a: Expr)
    ensures RemainsAll(args + [a]) == RemainsAll(args) + Remains(a)
  {
    if args != [] {
      assert (args + [a])[1..] == args[1..] + [a];
      RemainsSnoc(args[1..], a);
    } else {
      assert [a][1..] == [];
    }
  }

  lemma {:induction false} SafeNeverTraps(e: Expr)
    requires Safe(e)
    ensures !Fold(e).Trap?
  {
    if e.Arith? {
      SafeNeverTraps(e.l);
      SafeNeverTraps(e.r);
      if Fold(e.l).Constant? && Fold(e.r).Constant? {
        SafeOpNarrows(e.aop, Fold(e.l).v, Fold(e.r).v);
      }
    }
  }

  /** Appending pieces one by one appends their concatenation. */
  lemma Gather(o: seq<Instr>, a: seq<Instr>, b: seq<Instr>, c: seq<Instr>, d: seq<Instr>)
    ensures o + a + b + c + d == o + (a + b + c + d)
  {
  }

  lemma GatherThree<T>(o: seq<T>, a: seq<T>, b: seq<T>, c: seq<T>)
    ensures o + a + b + c == o + (a + b + c)
    ensures c == [] ==> o + a + b == o + (a + b)
  {
  }

  function AssignedName(e: Expr): string
    requires e.Assign?
  {
    if e.lhs.Index? then NameOf(e.lhs.base) else NameOf(e.lhs)
  }

  function TargetMode(e: Expr): Mode
    requires e.Assign?
  {
    if e.lhs.Index? then ForAddress else ForName
  }

  function BeforeCode(env: Env, e: Expr): seq<Instr>
    requires e.Assign?
  {
    if e.sop == Set then [] else if e.lhs.Index? then [Dup2, IALoad] else [LoadVar(env, AssignedName(e))]
  }

  function StoreCode(env: Env, e: Expr, leave: bool): seq<Instr>
    requires e.Assign?
  {
    (if e.sop == Set then [] else [IArith(OpOf(e.sop))])
    + (if leave then [if e.lhs.Index? then DupX2 else Dup] else [])
    + [SaveVar(env, AssignedName(e))]
  }

  /** The assignment's code, in the pieces the visitor emits. */
  lemma AssignCodeParts(env: Env, e: Expr, sc: seq<Scope>, leave: bool)
    requires e.Assign? && (e.lhs.Var? || e.lhs.Index?)
    ensures AssignCode(env, e, leave)
         == Emits(env, sc, TargetMode(e), e.lhs)
            + BeforeCode(env, e) + Operand(env, e.rhs) + StoreCode(env, e, leave)
  {
    hide Operand, LoadVar, LoadArray, SaveVar;
  }

  lemma AssignmentParts(env: Env, e: Expr)
    requires e.Assign? && IsAssignment(env, e)
    ensures IsValue(env, e.rhs, false)
    ensures || (IsScalar(env, e.lhs) && (ArrayFree(e) ==> ArrayFree(e.rhs)))
            || (e.lhs.Index? && !ArrayFree(e)
                && IsArray(env, e.lhs.base) && IsValue(env, e.lhs.sub, false) && ArrayFree(e.lhs.sub))
  {
  }

  /** A condition that is one value is visited like that value. */
  lemma AtomIsCondition(env: Env, e: Expr, entry: string, exit: string)
    requires IsAtom(env, e)
    ensures IsCondition(env, e) && HintOf(e) == NoHint && ConditionCode(env, e, entry, exit) == Code(env, e)
  {
  }

  lemma {:induction false} ArgumentsSnoc(env: Env, args: seq<Expr>, a: Expr)
    ensures Arguments(env, args + [a]) == Arguments(env, args) + Operand(env, a)
  {
    if args == [] {
      assert args + [a] == [a];
      assert Arguments(env, [a]) == Operand(env, a) + Arguments(env, []);
    } else {
      assert (args + [a])[1..] == args[1..] + [a];
      ArgumentsSnoc(env, args[1..], a);
    }
  }

  // ----- the code of a statement, piece by piece in the order of emission -----

  lemma GatherSix(o: seq<Instr>, a: seq<Instr>, b: seq<Instr>, c: seq<Instr>, d: seq<Instr>, e: seq<Instr>, f: seq<Instr>)
    ensures o + a + b + c + d + e + f == o + (a + b + c + d + e + f)
  {
    Gather(o, a, b, c, d);
    Gather(o, a + b + c + d, e, f, []);
  }

  /** The scopes left when the innermost one is closed. */
  function Outer(sc: seq<Scope>): seq<Scope> {
    if sc == [] then [] else sc[..|sc| - 1]
  }

  /** What is around a statement inside one more scope. */
  lemma AroundPushed(sc: seq<Scope>, pos: Pos, kind: ScopeKind)
    ensures LoopAround(sc + [MakeScope(pos, kind)])
         == if !IsLoop(kind) then LoopAround(sc) else if kind == DoS then Testing else Stepping
    ensures Outer(sc + [MakeScope(pos, kind)]) == sc
  {
    if IsLoop(kind) {
      PushLoop(sc, MakeScope(pos, kind));
    } else {
      PushOther(sc, MakeScope(pos, kind));
    }
  }

  /** The first statement's code goes in front of the rest's. */
  lemma BodyUnfolds(env: Env, ss: seq<Stmt>, sc: seq<Scope>, k: nat, before: seq<Instr>)
    requires ss != []
    ensures before + [Label(LineLabel(k))] + StmtCode(env, ss[0], sc, k + 1)
            + BodyCode(env, ss[1..], sc, k + 1 + Lines(ss[0]))
         == before + BodyCode(env, ss, sc, k)
    ensures LinesAll(ss) == 1 + Lines(ss[0]) + LinesAll(ss[1..])
  {
    hide StmtCode, LineLabel;
  }

  lemma BodyEnds(env: Env, sc: seq<Scope>, k: nat)
    ensures BodyCode(env, [], sc, k) == [] && LinesAll([]) == 0
  {
  }

  lemma ElseUnfolds(env: Env, s: Stmt, i: nat, sc: seq<Scope>, sc1: seq<Scope>, k: nat, all: string, before: seq<Instr>)
    requires s.If? && i < |s.elifs| && sc1 == sc + [MakeScope(s.elifs[i].pos, ElseIfS)]
    ensures before + ArmCode(env, s.elifs[i].cond, StmtCode(env, s.elifs[i].body, sc1, k), sc1, all)
            + ElseCode(env, s, i + 1, sc, k + Lines(s.elifs[i].body), all)
         == before + ElseCode(env, s, i, sc, k, all)
    ensures LinesElse(s, i) == Lines(s.elifs[i].body) + LinesElse(s, i + 1)
  {
    hide StmtCode, ArmCode;
  }

  lemma ElseEnds(env: Env, s: Stmt, sc: seq<Scope>, k: nat, all: string)
    requires s.If?
    ensures ElseCode(env, s, |s.elifs|, sc, k, all) == if s.els.Some? then StmtCode(env, s.els.value, sc, k) else []
    ensures LinesElse(s, |s.elifs|) == if s.els.Some? then Lines(s.els.value) else 0
  {
  }

  lemma IfParts(env: Env, s: Stmt, around: Around)
    ensures s.If? ==> Lines(s) == Lines(s.thn) + LinesElse(s, 0)
    ensures s.If? && InFragment(env, s, around) ==>
              && IsCondition(env, s.cond) && InFragment(env, s.thn, around)
              && (s.els.Some? ==> InFragment(env, s.els.value, around))
  {
  }

  lemma ElseIfParts(env: Env, s: Stmt, around: Around, i: nat)
    ensures s.If? && InFragment(env, s, around) && i < |s.elifs| ==>
              IsCondition(env, s.elifs[i].cond) && InFragment(env, s.elifs[i].body, around)
  {
  }

  /** An `if` inside its own scope. */
  function IfInside(env: Env, s: Stmt, sc: seq<Scope>, k: nat): seq<Instr>
    requires s.If? && sc != []
  {
    ArmCode(env, s.cond, StmtCode(env, s.thn, sc, k), sc, NamedLabel(sc, "stmt_end"))
    + ElseCode(env, s, 0, sc, k + Lines(s.thn), NamedLabel(sc, "stmt_end"))
    + [Label(NamedLabel(sc, "stmt_end"))]
  }

  lemma WhileParts(env: Env, s: Stmt, around: Around)
    ensures s.While? ==> Lines(s) == Lines(s.wbody)
    ensures s.While? && InFragment(env, s, around) ==>
              IsCondition(env, s.cond) && !IsConstant(s.cond) && InFragment(env, s.wbody, Stepping)
  {
  }

  function WhileInside(env: Env, s: Stmt, sc: seq<Scope>, k: nat): seq<Instr>
    requires s.While? && sc != []
  {
    [Label(EntryLabel(sc))] + Guard(env, s.cond, sc) + StmtCode(env, s.wbody, sc, k)
    + [Goto(EntryLabel(sc))] + [Label(ExitLabel(sc))]
  }

  lemma DoParts(env: Env, s: Stmt, around: Around)
    ensures s.Do? ==> Lines(s) == Lines(s.dbody)
    ensures s.Do? && InFragment(env, s, around) ==>
              (s.dcond.Some? ==> IsCondition(env, s.dcond.value)) && InFragment(env, s.dbody, Testing)
  {
  }

  function DoInside(env: Env, s: Stmt, sc: seq<Scope>, k: nat): seq<Instr>
    requires s.Do? && sc != []
  {
    [Label(EntryLabel(sc))] + StmtCode(env, s.dbody, sc, k) + DoGuard(env, s.dcond, sc) + [Label(ExitLabel(sc))]
  }

  lemma ForParts(env: Env, s: Stmt, around: Around)
    ensures s.For? ==> Lines(s) == Lines(s.fbody)
    ensures s.For? && InFragment(env, s, around) ==>
              && IsSimple(env, s.init0) && IsSimple(env, s.step) && InFragment(env, s.fbody, Stepping)
              && (s.fcond.Some? ==> IsCondition(env, s.fcond.value))
  {
  }

  /** A `for` after its initialisation. */
  function ForInside(env: Env, s: Stmt, sc: seq<Scope>, k: nat): seq<Instr>
    requires s.For? && sc != []
  {
    [Label(NamedLabel(sc, "for_cond"))]
    + (if s.fcond.None? then [] else Guard(env, s.fcond.value, sc))
    + StmtCode(env, s.fbody, sc, k)
    + ([Label(EntryLabel(sc))] + SimpleCode(env, s.step))
    + [Goto(NamedLabel(sc, "for_cond"))] + [Label(ExitLabel(sc))]
  }

  lemma InsideShapes(env: Env, s: Stmt, sc: seq<Scope>, k: nat)
    ensures s.If? ==> StmtCode(env, s, sc, k) == IfInside(env, s, sc + [MakeScope(s.pos, IfS)], k)
    ensures s.Do? ==> StmtCode(env, s, sc, k) == DoInside(env, s, sc + [MakeScope(s.pos, DoS)], k)
  {
    hide ArmCode, ElseCode, NamedLabel, DoGuard, EntryLabel, ExitLabel, MakeScope;
  }

  /** A loop's own parts do not depend on what is around it. */
  lemma LoopAnywhere(env: Env, s: Stmt, around: Around)
    ensures (s.While? || s.Do? || s.For?) && InFragment(env, s, around) ==> InFragment(env, s, NoLoop)
  {
  }

  lemma ForCode(env: Env, s: Stmt, sc: seq<Scope>, k: nat, o: seq<Instr>)
    requires s.For?
    ensures o + StmtCode(env, s, sc, k) == o + SimpleCode(env, s.init0) + LoopCode(env, s, sc, k)
  {
    hide SimpleCode, LoopCode;
  }

  lemma LoopShapes(env: Env, s: Stmt, sc: seq<Scope>, k: nat)
    ensures s.While? ==> StmtCode(env, s, sc, k) == WhileInside(env, s, sc + [MakeScope(s.pos, WhileS)], k)
    ensures s.For? ==> LoopCode(env, s, sc, k) == ForInside(env, s, sc + [MakeScope(s.pos, ForS)], k)
  {
    hide Guard, EntryLabel, ExitLabel, NamedLabel, SimpleCode, MakeScope;
    if s.While? || s.For? {
      var again, exit := AgainLabel(s, sc), ExitLabel(LoopScope(s, sc));
      assert [Goto(again), Label(exit)] == [Goto(again)] + [Label(exit)];
    }
  }

  lemma SimpleShape(env: Env, s: Stmt, sc: seq<Scope>, k: nat, around: Around)
    requires IsSimple(env, s)
    ensures InFragment(env, s, around) && StmtCode(env, s, sc, k) == SimpleCode(env, s) && Lines(s) == 0
  {
  }

  lemma IndexParts(env: Env, sc: seq<Scope>, mode: Mode, e: Expr)
    requires e.Index? && e.base.Var? && (mode == ForAddress ==> ArrayFree(e.sub))
    requires mode == ForValue || mode == ForAddress || (mode == ForCondition && sc != [])
    ensures Emits(env, sc, mode, e)
         == [LoadArray(env, e.base.x)] + Operand(env, e.sub) + (if mode == ForAddress then [] else [IALoad])
    ensures Leaves(mode, e) == [e.base.x] + Remains(e.sub)
  {
    NothingRemains(e.sub);
    hide Operand, ArrayFree;
  }

  lemma LogicParts(env: Env, sc: seq<Scope>, e: Expr)
    requires e.Logic? && sc != []
    ensures IsCondition(env, e) ==> IsCondition(env, e.l) && IsCondition(env, e.r)
    ensures Emits(env, sc, ForCondition, e)
         == Emits(env, sc, ForCondition, e.l)
            + [if e.lop == And then BranchUnless(HintOf(e.l), ExitLabel(sc)) else BranchIf(HintOf(e.l), EntryLabel(sc))]
            + Emits(env, sc, ForCondition, e.r)
    ensures HintOf(e) == HintOf(e.r) && Remains(e) == Remains(e.l) + Remains(e.r)
  {
    hide BranchIf, BranchUnless, ExitLabel, EntryLabel, IsAtom, Code;
  }

  class JvmGenerator {
    const env: Env

    var cache: seq<Instr>
    var prevOp: OpHint
    var generateLoad: bool
    var requestLeave: bool
    var underCompare: bool
    var returnStack: seq<string>

    var scopes: seq<Scope>
    var loopCount: nat
    var labelCount: nat

    constructor (env: Env)
      ensures this.env == env && AtStatement()
      ensures cache == [] && returnStack == [] && scopes == [] && labelCount == 0
    {
      this.env := env;
      cache, prevOp, returnStack := [], NoHint, [];
      generateLoad, requestLeave, underCompare := false, false, false;
      scopes, loopCount, labelCount := [], 0, 0;
    }

    /** Between statements no context is set and no comparison is pending; the
        loop count is the number of loops among the open scopes. */
    predicate AtStatement()
      reads this
    {
      && !generateLoad && !requestLeave && !underCompare && prevOp == NoHint
      && loopCount == LoopCount(scopes)
    }

    /** The flags suit the purpose of the visit. */
    predicate Ready(mode: Mode, e: Expr)
      reads this
    {
      && prevOp == NoHint
      && match mode
         case ForValue =>
           requestLeave && if generateLoad then IsValue(env, e, underCompare) else !underCompare && IsInit(env, e)
         case ForEffect => !generateLoad && !requestLeave && !underCompare && IsEffect(env, e)
         case ForCondition => !requestLeave && underCompare && IsCondition(env, e) && scopes != []
         case ForName => !generateLoad && !underCompare && IsScalar(env, e)
         case ForAddress =>
           && !generateLoad && !underCompare
           && e.Index? && IsArray(env, e.base) && IsValue(env, e.sub, false) && ArrayFree(e.sub)
         case ForBase => generateLoad && IsArray(env, e)
    }

    predicate AcceptsOperand(e: Expr)
      reads this`underCompare
    {
      IsValue(env, e, underCompare) == true
    }

    /** The statement is in the fragment, where it stands. */
    predicate Accepts(s: Stmt)
      reads this`scopes
    {
      InFragment(env, s, LoopAround(scopes)) == true
    }

    /** The loop is in the fragment, wherever it stands. */
    predicate AcceptsLoop(s: Stmt) {
      InFragment(env, s, NoLoop) == true
    }

    predicate AcceptsCondition(e: Expr)
      ensures AcceptsCondition(e) == IsCondition(env, e)
    {
      IsCondition(env, e) == true
    }

    // ----- LabelManager and the return stack -----

    function Keeping(): Keeper
      reads this`scopes, this`loopCount, this`labelCount
    {
      Keeper(scopes, loopCount, labelCount)
    }

    method EnterScope(pos: Pos, kind: ScopeKind)
      modifies this`scopes, this`loopCount
      requires loopCount == LoopCount(scopes)
      ensures scopes == old(scopes) + [MakeScope(pos, kind)] && loopCount == LoopCount(scopes)
      ensures Keeping() == Serve(old(Keeping()), Enter(pos, kind))
    {
      if kind == WhileS || kind == ForS || kind == DoS {
        loopCount := loopCount + 1;
      }
      scopes := scopes + [MakeScope(pos, kind)];
      assert scopes[..|scopes| - 1] == old(scopes);
    }

    method LeaveScope()
      modifies this`scopes, this`loopCount
      requires scopes != [] && loopCount == LoopCount(scopes)
      ensures scopes == Outer(old(scopes)) && loopCount == LoopCount(scopes)
      ensures Keeping() == Serve(old(Keeping()), Leave)
    {
      if IsLoop(scopes[|scopes| - 1].kind) {
        loopCount := loopCount - 1;
      }
      scopes := scopes[..|scopes| - 1];
    }

    method GenerateLineLabel() returns (l: string)
      modifies this`labelCount
      ensures l == LineLabel(old(labelCount)) && labelCount == old(labelCount) + 1
      ensures Keeping() == Serve(old(Keeping()), NewLine)
    {
      l := LineLabel(labelCount);
      labelCount := labelCount + 1;
    }

    /** Before each function: the scopes and the label counter, but not the loop counter. */
    method ResetLabels()
      modifies this`scopes, this`labelCount
      ensures Keeping() == Serve(old(Keeping()), Reset)
    {
      scopes, labelCount := [], 0;
    }

    method AddToCache(i: Instr)
      modifies this`cache
      ensures cache == old(cache) + [i]
    {
      cache := cache + [i];
    }

    method PushReturnStack(name: string)
      modifies this`returnStack
      ensures returnStack == old(returnStack) + [name]
    {
      returnStack := returnStack + [name];
    }

    method ConsumeReturnStack() returns (name: string)
      requires returnStack != []
      modifies this`returnStack
      ensures name == old(returnStack[|returnStack| - 1]) && returnStack == old(returnStack[..|returnStack| - 1])
    {
      name := returnStack[|returnStack| - 1];
      returnStack := returnStack[..|returnStack| - 1];
    }

    /** Reading the pending comparison resets it. */
    method GetLastOpHint() returns (h: OpHint)
      modifies this`prevOp
      ensures h == old(prevOp) && prevOp == NoHint
    {
      h := prevOp;
      prevOp := NoHint;
    }

    // ----- expressions -----

    method VisitExpr(e: Expr, ghost mode: Mode)
      requires Ready(mode, e)
      modifies this`cache, this`prevOp, this`generateLoad, this`requestLeave, this`underCompare, this`returnStack
      ensures cache == old(cache) + Emits(env, scopes, mode, e)
      ensures prevOp == if mode == ForCondition then HintOf(e) else NoHint
      ensures generateLoad == old(generateLoad) && requestLeave == old(requestLeave) && underCompare == old(underCompare)
      ensures returnStack == old(returnStack) + Leaves(mode, e)
      decreases e, 1
    {
      match e {
        case Lit(n) =>
          AddToCache(Push(n));
        case Var(_) => VisitDeclRef(e, mode);
        case Arith(_, _, _) => VisitArithmetic(e, mode);
        case Neg(_) => VisitUnaryMinus(e, mode);
        case Call(_, _) => VisitFuncCall(e, mode);
        case Index(_, _) => VisitArraySubscript(e, mode);
        case Assign(_, _, _) => VisitAssign(e, mode);
        case IncDec(_, _) => VisitIncDec(e, mode);
        case Rel(_, _, _) => VisitRelational(e, mode);
        case Logic(_, _, _) => VisitLogical(e, mode);
      }
    }

    /** HZCC_JVM_Use_Deduced_IF_POSSIBLE. */
    method UseDeduced(e: Expr, ghost mode: Mode)
      requires Ready(mode, e) && (mode == ForValue || (mode == ForCondition && !IsConstant(e)))
      modifies this`cache, this`prevOp, this`generateLoad, this`requestLeave, this`underCompare, this`returnStack
      ensures cache == old(cache) + if mode == ForValue then Operand(env, e) else Emits(env, scopes, mode, e)
      ensures prevOp == if mode == ForCondition then HintOf(e) else NoHint
      ensures generateLoad == old(generateLoad) && requestLeave == old(requestLeave) && underCompare == old(underCompare)
      ensures returnStack == old(returnStack) + Remains(e)
      decreases e, 2
    {
      match Fold(e) {
        case Constant(v) =>
          NothingRemains(e);
          if requestLeave {
            AddToCache(Push(v));
          }
        case NotConstant => VisitExpr(e, mode);
        case Trap =>
          SafeNeverTraps(e);
      }
    }

    /** An operand: a value is requested whatever the context. */
    method VisitOperand(e: Expr)
      requires prevOp == NoHint && AcceptsOperand(e)
      modifies this`cache, this`prevOp, this`generateLoad, this`requestLeave, this`underCompare, this`returnStack
      ensures cache == old(cache) + Operand(env, e)
      ensures prevOp == NoHint
      ensures generateLoad == old(generateLoad) && requestLeave == old(requestLeave) && underCompare == old(underCompare)
      ensures returnStack == old(returnStack) + Remains(e)
      decreases e, 3
    {
      // HZCC_LEAVE_RET_ON_STACK(HZCC_JVM_GENERATE_LOAD_INSTR(...))
      var wasLeaving, wasLoading := requestLeave, generateLoad;
      requestLeave, generateLoad := true, true;
      UseDeduced(e, ForValue);
      requestLeave, generateLoad := wasLeaving, wasLoading;
    }

    method VisitDeclRef(e: Expr, ghost mode: Mode)
      requires e.Var? && Ready(mode, e)
      modifies this`cache, this`returnStack
      ensures cache == old(cache) + Emits(env, scopes, mode, e)
      ensures returnStack == old(returnStack) + Leaves(mode, e)
      decreases e, 0
    {
      if generateLoad || underCompare {
        if env.Known(e.x, Array) {
          PushReturnStack(e.x);
          AddToCache(LoadArray(env, e.x));
        } else {
          AddToCache(LoadVar(env, e.x));
        }
      } else {
        PushReturnStack(e.x);
      }
    }

    method VisitArithmetic(e: Expr, ghost mode: Mode)
      requires e.Arith? && Ready(mode, e)
      modifies this`cache, this`prevOp, this`generateLoad, this`requestLeave, this`underCompare, this`returnStack
      ensures cache == old(cache) + Code(env, e) && prevOp == NoHint
      ensures generateLoad == old(generateLoad) && requestLeave == old(requestLeave) && underCompare == old(underCompare)
      ensures returnStack == old(returnStack) + Remains(e)
      decreases e, 0
    {
      assert AcceptsOperand(e.l) && AcceptsOperand(e.r) && prevOp == NoHint && (requestLeave || underCompare);
      assert Code(env, e) == Operand(env, e.l) + Operand(env, e.r) + [IArith(e.aop)];
      assert Remains(e) == Remains(e.l) + Remains(e.r);
      hide *;
      if requestLeave || underCompare {
        VisitOperand(e.l);
        VisitOperand(e.r);
        AddToCache(IArith(e.aop));
      }
    }

    method VisitUnaryMinus(e: Expr, ghost mode: Mode)
      requires e.Neg? && Ready(mode, e)
      modifies this`cache, this`prevOp, this`generateLoad, this`requestLeave, this`underCompare, this`returnStack
      ensures cache == old(cache) + Code(env, e) && prevOp == NoHint
      ensures generateLoad == old(generateLoad) && requestLeave == old(requestLeave) && underCompare == old(underCompare)
      ensures returnStack == old(returnStack) + Remains(e)
      decreases e, 0
    {
      if requestLeave || underCompare {
        var lastOpHint := GetLastOpHint();
        if lastOpHint == NoHint {
          if mode == ForCondition {
            AtomIsCondition(env, e.e, EntryLabel(scopes), ExitLabel(scopes));
          }
          var wasLoading := generateLoad;
          generateLoad := true;
          VisitExpr(e.e, mode);
          generateLoad := wasLoading;
          AddToCache(INeg);
        }
      }
    }

    method VisitFuncCall(e: Expr, ghost mode: Mode)
      requires e.Call? && Ready(mode, e)
      modifies this`cache, this`prevOp, this`generateLoad, this`requestLeave, this`underCompare, this`returnStack
      ensures cache == old(cache) + Emits(env, scopes, mode, e) && prevOp == NoHint
      ensures generateLoad == old(generateLoad) && requestLeave == old(requestLeave) && underCompare == old(underCompare)
      ensures returnStack == old(returnStack) + Remains(e)
      decreases e, 0
    {
      VisitArguments(e);
      if e.f in env.funcs {
        AddToCache(InvokeStatic(e.f, env.funcs[e.f]));
        if !requestLeave && !env.funcs[e.f].isVoid {
          AddToCache(Pop);
        }
      }
    }

    method VisitArguments(e: Expr)
      requires e.Call? && prevOp == NoHint && forall i :: 0 <= i < |e.args| ==> AcceptsOperand(e.args[i])
      modifies this`cache, this`prevOp, this`generateLoad, this`requestLeave, this`underCompare, this`returnStack
      ensures cache == old(cache) + Arguments(env, e.args) && prevOp == NoHint
      ensures generateLoad == old(generateLoad) && requestLeave == old(requestLeave) && underCompare == old(underCompare)
      ensures returnStack == old(returnStack) + RemainsAll(e.args)
      decreases e, 0, 0
    {
      hide AcceptsOperand, Operand, Remains;
      for i := 0 to |e.args|
        invariant cache == old(cache) + Arguments(env, e.args[..i]) && prevOp == NoHint
        invariant generateLoad == old(generateLoad) && requestLeave == old(requestLeave)
        invariant underCompare == old(underCompare)
        invariant returnStack == old(returnStack) + RemainsAll(e.args[..i])
      {
        VisitOperand(e.args[i]);
        assert e.args[..i + 1] == e.args[..i] + [e.args[i]];
        ArgumentsSnoc(env, e.args[..i], e.args[i]);
        RemainsSnoc(e.args[..i], e.args[i]);
      }
      assert e.args[..|e.args|] == e.args;
    }

    /** HZCC_JVM_GENERATE_LOAD_INSTR around an array's name. */
    method VisitBase(e: Expr)
      requires IsArray(env, e) && prevOp == NoHint
      modifies this`cache, this`prevOp, this`generateLoad, this`requestLeave, this`underCompare, this`returnStack
      ensures cache == old(cache) + [LoadArray(env, e.x)] && returnStack == old(returnStack) + [e.x] && prevOp == NoHint
      ensures generateLoad == old(generateLoad) && requestLeave == old(requestLeave) && underCompare == old(underCompare)
      decreases e, 2
    {
      var wasLoading := generateLoad;
      generateLoad := true;
      VisitExpr(e, ForBase);
      generateLoad := wasLoading;
    }

    method VisitArraySubscript(e: Expr, ghost mode: Mode)
      requires e.Index? && Ready(mode, e)
      modifies this`cache, this`prevOp, this`generateLoad, this`requestLeave, this`underCompare, this`returnStack
      ensures cache == old(cache) + Emits(env, scopes, mode, e) && prevOp == NoHint
      ensures generateLoad == old(generateLoad) && requestLeave == old(requestLeave) && underCompare == old(underCompare)
      ensures returnStack == old(returnStack) + Leaves(mode, e)
      decreases e, 0
    {
      assert IsArray(env, e.base) && AcceptsOperand(e.sub) && prevOp == NoHint;
      assert (mode == ForAddress) == !(generateLoad || underCompare);
      assert mode == ForAddress ==> ArrayFree(e.sub);
      IndexParts(env, scopes, mode, e);
      hide *;
      VisitBase(e.base);
      VisitOperand(e.sub);
      if generateLoad || underCompare {
        AddToCache(IALoad);
      }
    }

    /** Plain and compound assignment. The `iinc` form of the source is not
        reachable: it asks whether the left operand has a compile-time value,
        and no variable or element has one. */
    method VisitAssign(e: Expr, ghost mode: Mode)
      requires e.Assign? && Ready(mode, e)
      modifies this`cache, this`prevOp, this`generateLoad, this`requestLeave, this`underCompare, this`returnStack
      ensures cache == old(cache) + AssignCode(env, e, requestLeave) && prevOp == NoHint
      ensures generateLoad == old(generateLoad) && requestLeave == old(requestLeave) && underCompare == old(underCompare)
      ensures returnStack == old(returnStack) + Remains(e)
      decreases e, 0
    {
      assert IsAssignment(env, e) && !underCompare;
      AssignmentParts(env, e);
      AssignCodeParts(env, e, scopes, requestLeave);
      hide Operand, Code, ArrayFree, IsValue, IsAssignment, AssignCode, Emits, BeforeCode, StoreCode, Ready;
      var varName := VisitTarget(e);
      LoadBefore(e, varName);
      VisitOperand(e.rhs);
      StoreResult(e, varName);
      Gather(old(cache), Emits(env, scopes, TargetMode(e), e.lhs), BeforeCode(env, e), Operand(env, e.rhs),
             StoreCode(env, e, requestLeave));
    }

    /** The assigned variable's name, or the assigned element's address and its array's name. */
    method VisitTarget(e: Expr) returns (varName: string)
      requires e.Assign? && IsAssignment(env, e) && prevOp == NoHint && !underCompare
      modifies this`cache, this`prevOp, this`generateLoad, this`requestLeave, this`underCompare, this`returnStack
      ensures varName == AssignedName(e)
      ensures cache == old(cache) + Emits(env, scopes, TargetMode(e), e.lhs) && prevOp == NoHint
      ensures generateLoad == old(generateLoad) && requestLeave == old(requestLeave) && underCompare == old(underCompare)
      ensures returnStack == old(returnStack)
      decreases e, 0, 0
    {
      AssignmentParts(env, e);
      hide Operand, Code, ArrayFree, IsValue, IsAssignment, Emits;
      // HZCC_JVM_NOT_GENERATE_LOAD_INSTR(...)
      var wasLoading := generateLoad;
      generateLoad := false;
      VisitExpr(e.lhs, TargetMode(e));
      generateLoad := wasLoading;
      varName := ConsumeReturnStack();
      assert returnStack == old(returnStack);
    }

    /** A compound assignment loads the old value first. */
    method LoadBefore(e: Expr, varName: string)
      requires e.Assign? && varName == AssignedName(e)
      modifies this`cache
      ensures cache == old(cache) + BeforeCode(env, e)
    {
      if e.sop != Set {
        if e.lhs.Index? {
          AddToCache(Dup2);
          AddToCache(IALoad);
        } else {
          AddToCache(LoadVar(env, varName));
        }
      }
    }

    /** The operation of a compound assignment, a copy if the value is wanted, and the store. */
    method StoreResult(e: Expr, varName: string)
      requires e.Assign? && varName == AssignedName(e) && !underCompare
      modifies this`cache
      ensures cache == old(cache) + StoreCode(env, e, requestLeave)
    {
      if e.sop != Set {
        AddToCache(IArith(OpOf(e.sop)));
      }
      if requestLeave || underCompare {
        AddToCache(if e.lhs.Index? then DupX2 else Dup);
      }
      AddToCache(SaveVar(env, varName));
    }

    method VisitIncDec(e: Expr, ghost mode: Mode)
      requires e.IncDec? && Ready(mode, e)
      modifies this`cache, this`prevOp, this`generateLoad, this`requestLeave, this`underCompare, this`returnStack
      ensures cache == old(cache) + Bump(env, e.iop, NameOf(e.target), requestLeave) && prevOp == NoHint
      ensures generateLoad == old(generateLoad) && requestLeave == old(requestLeave) && underCompare == old(underCompare)
      ensures returnStack == old(returnStack)
      decreases e, 0
    {
      assert IsScalar(env, e.target) && !underCompare;
      var wasLoading := generateLoad;
      generateLoad := false;
      VisitExpr(e.target, ForName);
      generateLoad := wasLoading;

      var varName := ConsumeReturnStack();
      assert cache == old(cache) && varName == e.target.x;
      if varName !in env.globalKinds && varName in env.slots {
        BumpInSlot(e.iop, varName);
      } else {
        BumpByAdding(e.iop, varName);
      }
    }

    method BumpInSlot(op: IncDecOp, varName: string)
      requires varName in env.slots && varName !in env.globalKinds && !underCompare
      modifies this`cache
      ensures cache == old(cache) + Bump(env, op, varName, requestLeave)
    {
      match op {
        case PreInc =>
          AddToCache(IInc(env.slots[varName], 1));
          if requestLeave || underCompare { AddToCache(LoadVar(env, varName)); }
        case PreDec =>
          AddToCache(IInc(env.slots[varName], -1));
          if requestLeave || underCompare { AddToCache(LoadVar(env, varName)); }
        case PostInc =>
          if requestLeave || underCompare { AddToCache(LoadVar(env, varName)); }
          AddToCache(IInc(env.slots[varName], 1));
        case PostDec =>
          if requestLeave || underCompare { AddToCache(LoadVar(env, varName)); }
          AddToCache(IInc(env.slots[varName], -1));
      }
    }

    method BumpByAdding(op: IncDecOp, varName: string)
      requires varName !in env.slots || varName in env.globalKinds
      requires !underCompare
      modifies this`cache
      ensures cache == old(cache) + Bump(env, op, varName, requestLeave)
    {
      AddToCache(LoadVar(env, varName));
      if (op == PostInc || op == PostDec) && (requestLeave || underCompare) { AddToCache(Dup); }
      AddToCache(Push(1));
      AddToCache(IArith(if op == PreInc || op == PostInc then Add else Sub));
      if (op == PreInc || op == PreDec) && (requestLeave || underCompare) { AddToCache(Dup); }
      AddToCache(SaveVar(env, varName));
    }

    method VisitRelational(e: Expr, ghost mode: Mode)
      requires e.Rel? && Ready(mode, e)
      modifies this`cache, this`prevOp, this`generateLoad, this`requestLeave, this`underCompare, this`returnStack
      ensures mode == ForCondition
      ensures cache == old(cache) + Emits(env, scopes, mode, e) && prevOp == HintOf(e)
      ensures generateLoad == old(generateLoad) && requestLeave == old(requestLeave) && underCompare == old(underCompare)
      ensures returnStack == old(returnStack) + Remains(e)
      decreases e, 0
    {
      VisitOperand(e.l);
      VisitOperand(e.r);
      prevOp := Hint(e.rop);
    }

    /** `&&` and `||` under comparison. */
    method VisitLogical(e: Expr, ghost mode: Mode)
      requires e.Logic? && Ready(mode, e)
      modifies this`cache, this`prevOp, this`generateLoad, this`requestLeave, this`underCompare, this`returnStack
      ensures mode == ForCondition
      ensures cache == old(cache) + Emits(env, scopes, mode, e) && prevOp == HintOf(e)
      ensures generateLoad == old(generateLoad) && requestLeave == old(requestLeave) && underCompare == old(underCompare)
      ensures returnStack == old(returnStack) + Remains(e)
      decreases e, 0
    {
      LogicParts(env, scopes, e);
      assert mode == ForCondition && scopes != [] && underCompare && prevOp == NoHint && IsCondition(env, e);
      hide *;
      ghost var left, right := Emits(env, scopes, ForCondition, e.l), Emits(env, scopes, ForCondition, e.r);
      VisitCondition(e.l);
      VisitBranch(e.lop);
      ghost var branch := cache[|cache| - 1];
      VisitLast(e.r);
      GatherThree(old(cache), left, [branch], right);
      GatherThree(old(returnStack), Remains(e.l), Remains(e.r), []);
    }

    /** The jump behind the left operand. */
    method VisitBranch(op: LogicOp)
      requires scopes != []
      modifies this`cache, this`prevOp
      ensures cache == old(cache) + [if op == And then BranchUnless(old(prevOp), ExitLabel(scopes))
                                     else BranchIf(old(prevOp), EntryLabel(scopes))]
      ensures prevOp == NoHint
    {
      if op == And {
        var hint := GetLastOpHint();
        AddToCache(BranchUnless(hint, ExitLabel(scopes)));
      } else {
        var hint := GetLastOpHint();
        AddToCache(BranchIf(hint, EntryLabel(scopes)));
      }
    }

    /** HZCC_NOT_LEAVE_RET_ON_STACK(...), where the comparison context is already set. */
    method VisitLast(e: Expr)
      requires prevOp == NoHint && AcceptsCondition(e) && scopes != [] && underCompare
      modifies this`cache, this`prevOp, this`generateLoad, this`requestLeave, this`underCompare, this`returnStack
      ensures cache == old(cache) + Emits(env, scopes, ForCondition, e) && prevOp == HintOf(e)
      ensures generateLoad == old(generateLoad) && requestLeave == old(requestLeave) && underCompare == old(underCompare)
      ensures returnStack == old(returnStack) + Remains(e)
      decreases e, 2
    {
      var wasLeaving := requestLeave;
      requestLeave := false;
      VisitExpr(e, ForCondition);
      requestLeave := wasLeaving;
    }

    /** HZCC_CONTEXT_COMPARE(HZCC_NOT_LEAVE_RET_ON_STACK(...)). */
    method VisitCondition(e: Expr)
      requires prevOp == NoHint && AcceptsCondition(e) && scopes != []
      modifies this`cache, this`prevOp, this`generateLoad, this`requestLeave, this`underCompare, this`returnStack
      ensures cache == old(cache) + Emits(env, scopes, ForCondition, e) && prevOp == HintOf(e)
      ensures generateLoad == old(generateLoad) && requestLeave == old(requestLeave) && underCompare == old(underCompare)
      ensures returnStack == old(returnStack) + Remains(e)
      decreases e, 2
    {
      var wasComparing, wasLeaving := underCompare, requestLeave;
      underCompare, requestLeave := true, false;
      VisitExpr(e, ForCondition);
      underCompare, requestLeave := wasComparing, wasLeaving;
    }

    /** A condition and the branch to the innermost scope's exit label when it is false. */
    method VisitGuard(e: Expr)
      requires AtStatement() && AcceptsCondition(e) && scopes != []
      modifies this`cache, this`prevOp, this`generateLoad, this`requestLeave, this`underCompare, this`returnStack
      ensures old(returnStack) <= returnStack
      ensures AtStatement() && cache == old(cache) + Guard(env, e, scopes)
    {
      VisitCondition(e);
      var hint := GetLastOpHint();
      AddToCache(BranchUnless(hint, ExitLabel(scopes)));
    }

    // ----- statements -----

    method VisitStmt(s: Stmt)
      requires AtStatement() && Accepts(s)
      modifies this
      ensures old(returnStack) <= returnStack
      ensures AtStatement() && scopes == old(scopes)
      ensures cache == old(cache) + StmtCode(env, s, scopes, old(labelCount))
      ensures labelCount == old(labelCount) + Lines(s)
      decreases s, 4
    {
      LoopAnywhere(env, s, LoopAround(scopes));
      match s {
        case Empty =>
        case ExprStmt(e) => VisitExpr(e, ForEffect);
        case Decl(_, _) => VisitVarDecl(s);
        case ArrayDecl(_, _) => VisitArrayDecl(s);
        case Compound(body) => VisitCompound(body);
        case If(_, _, _, _, _) => VisitIf(s);
        case While(_, _, _) => VisitWhile(s);
        case Do(_, _, _) => VisitDo(s);
        case For(_, _, _, _, _) => VisitFor(s);
        case Break =>
          LoopCountFindsLoop(scopes);
          assert loopCount != 0;
          AddToCache(Goto(LoopExitLabel(scopes)));
        case Continue =>
          LoopCountFindsLoop(scopes);
          assert loopCount != 0;
          AddToCache(Goto(LoopEntryLabel(scopes)));
        case Return(_) => VisitReturn(s);
      }
    }

    method VisitVarDecl(s: Stmt)
      requires s.Decl? && AtStatement() && Accepts(s)
      modifies this`cache, this`prevOp, this`generateLoad, this`requestLeave, this`underCompare, this`returnStack
      ensures old(returnStack) <= returnStack
      ensures AtStatement() && cache == old(cache) + StmtCode(env, s, scopes, labelCount)
    {
      if s.init.Some? {
        var wasLeaving := requestLeave;
        requestLeave := true;
        UseDeduced(s.init.value, ForValue);
        requestLeave := wasLeaving;
        AddToCache(SaveVar(env, s.x));
      }
    }

    method VisitArrayDecl(s: Stmt)
      requires s.ArrayDecl?
      modifies this`cache
      ensures cache == old(cache) + StmtCode(env, s, scopes, labelCount)
    {
      AddToCache(Push(s.size));
      AddToCache(NewArray);
      if s.x in env.globalKinds {
        AddToCache(PutStatic(s.x, Array));
      } else {
        AddToCache(AStore(SlotOf(env, s.x)));
      }
    }

    method VisitReturn(s: Stmt)
      requires s.Return? && AtStatement() && Accepts(s)
      modifies this`cache, this`prevOp, this`generateLoad, this`requestLeave, this`underCompare, this`returnStack
      ensures old(returnStack) <= returnStack
      ensures AtStatement() && cache == old(cache) + StmtCode(env, s, scopes, labelCount)
    {
      if s.val.Some? {
        VisitOperand(s.val.value);
        AddToCache(IReturn);
      } else {
        AddToCache(Instr.Return);
      }
    }

    method VisitCompound(ss: seq<Stmt>)
      requires AtStatement() && forall i :: 0 <= i < |ss| ==> Accepts(ss[i])
      modifies this
      ensures old(returnStack) <= returnStack
      ensures AtStatement() && scopes == old(scopes)
      ensures cache == old(cache) + BodyCode(env, ss, scopes, old(labelCount))
      ensures labelCount == old(labelCount) + LinesAll(ss)
      decreases ss
    {
      hide StmtCode, BodyCode, Guard, InFragment, LoopAround, LoopCount, IsCondition, IsChain, Lines, LinesAll, ExitLabel, EntryLabel, MakeScope, ConditionCode, NamedLabel, BranchUnless, BranchIf, HintOf, Outer;
      assert ss[0..] == ss;
      for i := 0 to |ss|
        invariant AtStatement() && scopes == old(scopes) && old(returnStack) <= returnStack
        invariant cache + BodyCode(env, ss[i..], scopes, labelCount)
               == old(cache) + BodyCode(env, ss, scopes, old(labelCount))
        invariant labelCount + LinesAll(ss[i..]) == old(labelCount) + LinesAll(ss)
      {
        ghost var before, k, rest := cache, labelCount, ss[i..];
        assert rest[0] == ss[i] && rest[1..] == ss[i + 1..];
        var line := GenerateLineLabel();
        AddToCache(Label(line));
        VisitStmt(ss[i]);
        BodyUnfolds(env, rest, scopes, k, before);
      }
      BodyEnds(env, scopes, labelCount);
      assert ss[|ss|..] == [];
    }

    method VisitIf(s: Stmt)
      requires s.If? && AtStatement() && Accepts(s)
      modifies this
      ensures old(returnStack) <= returnStack
      ensures AtStatement() && scopes == old(scopes)
      ensures cache == old(cache) + StmtCode(env, s, scopes, old(labelCount))
      ensures labelCount == old(labelCount) + Lines(s)
      decreases s, 1
    {
      AroundPushed(scopes, s.pos, IfS);
      InsideShapes(env, s, scopes, labelCount);
      hide StmtCode, BodyCode, Guard, InFragment, LoopAround, LoopCount, IsCondition, IsChain, Lines, LinesAll, ExitLabel, EntryLabel, MakeScope, ConditionCode, NamedLabel, BranchUnless, BranchIf, HintOf, Outer, IfInside;
      EnterScope(s.pos, IfS);
      VisitIfInside(s);
      LeaveScope();
    }

    method VisitIfInside(s: Stmt)
      requires s.If? && AtStatement() && Accepts(s) && scopes != []
      modifies this
      ensures old(returnStack) <= returnStack
      ensures AtStatement() && scopes == old(scopes)
      ensures cache == old(cache) + IfInside(env, s, scopes, old(labelCount))
      ensures labelCount == old(labelCount) + Lines(s)
      decreases s, 0
    {
      IfParts(env, s, LoopAround(scopes));
      hide StmtCode, BodyCode, Guard, InFragment, LoopAround, LoopCount, IsCondition, IsChain, Lines, LinesAll, ExitLabel, EntryLabel, MakeScope, ConditionCode, NamedLabel, BranchUnless, BranchIf, HintOf, Outer, ArmCode, ElseCode, LinesElse;
      ghost var k := labelCount;
      var all := NamedLabel(scopes, "stmt_end");
      VisitArm(s.cond, s.thn, all);
      VisitElse(s, all);
      AddToCache(Label(all));
      Gather(old(cache), ArmCode(env, s.cond, StmtCode(env, s.thn, scopes, k), scopes, all),
             ElseCode(env, s, 0, scopes, k + Lines(s.thn), all), [Label(all)], []);
    }

    /** The loop over the `else if`s, and the `else`. */
    method VisitElse(s: Stmt, all: string)
      requires s.If? && AtStatement() && Accepts(s)
      modifies this
      ensures old(returnStack) <= returnStack
      ensures AtStatement() && scopes == old(scopes)
      ensures cache == old(cache) + ElseCode(env, s, 0, scopes, old(labelCount), all)
      ensures labelCount == old(labelCount) + LinesElse(s, 0)
      decreases s, 0, 0
    {
      IfParts(env, s, LoopAround(scopes));
      hide StmtCode, BodyCode, Guard, InFragment, LoopAround, LoopCount, IsCondition, IsChain, Lines, LinesAll, ExitLabel, EntryLabel, MakeScope, ConditionCode, NamedLabel, BranchUnless, BranchIf, HintOf, Outer, ArmCode, ElseCode, LinesElse;
      for i := 0 to |s.elifs|
        invariant AtStatement() && scopes == old(scopes) && old(returnStack) <= returnStack
        invariant cache + ElseCode(env, s, i, scopes, labelCount, all)
               == old(cache) + ElseCode(env, s, 0, scopes, old(labelCount), all)
        invariant labelCount + LinesElse(s, i) == old(labelCount) + LinesElse(s, 0)
      {
        ElseIfParts(env, s, LoopAround(scopes), i);
        VisitElseIf(s, i, all);
      }
      ElseEnds(env, s, scopes, labelCount, all);
      if s.els.Some? {
        VisitStmt(s.els.value);
      }
    }

    /** The `i`-th `else if`, in a scope of its own. */
    method VisitElseIf(s: Stmt, i: nat, all: string)
      requires s.If? && i < |s.elifs| && AtStatement()
      requires AcceptsCondition(s.elifs[i].cond) && Accepts(s.elifs[i].body)
      modifies this
      ensures old(returnStack) <= returnStack
      ensures AtStatement() && scopes == old(scopes)
      ensures cache + ElseCode(env, s, i + 1, scopes, labelCount, all)
           == old(cache) + ElseCode(env, s, i, scopes, old(labelCount), all)
      ensures labelCount + LinesElse(s, i + 1) == old(labelCount) + LinesElse(s, i)
      decreases s.elifs[i].body, 6
    {
      hide StmtCode, BodyCode, Guard, InFragment, LoopAround, LoopCount, IsCondition, IsChain, Lines, LinesAll, ExitLabel, EntryLabel, MakeScope, ConditionCode, NamedLabel, BranchUnless, BranchIf, HintOf, Outer, ArmCode, ElseCode, LinesElse;
      AroundPushed(scopes, s.elifs[i].pos, ElseIfS);
      EnterScope(s.elifs[i].pos, ElseIfS);
      ElseUnfolds(env, s, i, old(scopes), scopes, labelCount, all, cache);
      VisitArm(s.elifs[i].cond, s.elifs[i].body, all);
      LeaveScope();
    }

    /** One arm: condition, entry label, body, jump past the statement, exit label. */
    method VisitArm(cond: Expr, body: Stmt, all: string)
      requires AtStatement() && AcceptsCondition(cond) && scopes != [] && Accepts(body)
      modifies this
      ensures old(returnStack) <= returnStack
      ensures AtStatement() && scopes == old(scopes)
      ensures cache == old(cache) + ArmCode(env, cond, StmtCode(env, body, scopes, old(labelCount)), scopes, all)
      ensures labelCount == old(labelCount) + Lines(body)
      decreases body, 5
    {
      hide StmtCode, BodyCode, Guard, InFragment, LoopAround, LoopCount, IsCondition, IsChain, Lines, LinesAll, ExitLabel, EntryLabel, MakeScope, ConditionCode, NamedLabel, BranchUnless, BranchIf, HintOf, Outer;
      ghost var entry, inner := [Label(EntryLabel(scopes))], StmtCode(env, body, scopes, labelCount);
      VisitGuard(cond);
      AddToCache(Label(EntryLabel(scopes)));
      VisitStmt(body);
      AddToCache(Goto(all));
      AddToCache(Label(ExitLabel(scopes)));
      GatherSix(old(cache), Guard(env, cond, scopes), entry, inner, [], [Goto(all)], [Label(ExitLabel(scopes))]);
    }

    method VisitWhile(s: Stmt)
      requires s.While? && AtStatement() && AcceptsLoop(s)
      modifies this
      ensures old(returnStack) <= returnStack
      ensures AtStatement() && scopes == old(scopes)
      ensures cache == old(cache) + StmtCode(env, s, scopes, old(labelCount))
      ensures labelCount == old(labelCount) + Lines(s)
      decreases s, 1
    {
      AroundPushed(scopes, s.pos, WhileS);
      LoopShapes(env, s, scopes, labelCount);
      hide StmtCode, BodyCode, Guard, InFragment, LoopAround, LoopCount, IsCondition, IsChain, Lines, LinesAll, ExitLabel, EntryLabel, MakeScope, ConditionCode, NamedLabel, BranchUnless, BranchIf, HintOf, Outer, WhileInside;
      EnterScope(s.pos, WhileS);
      VisitWhileInside(s);
      LeaveScope();
    }

    method VisitWhileInside(s: Stmt)
      requires s.While? && AtStatement() && AcceptsLoop(s)
      requires scopes != [] && LoopAround(scopes) == Stepping
      modifies this
      ensures old(returnStack) <= returnStack
      ensures AtStatement() && scopes == old(scopes)
      ensures cache == old(cache) + WhileInside(env, s, scopes, old(labelCount))
      ensures labelCount == old(labelCount) + Lines(s)
      decreases s, 0
    {
      WhileParts(env, s, NoLoop);
      hide StmtCode, BodyCode, Guard, InFragment, LoopAround, LoopCount, IsCondition, IsChain, Lines, LinesAll, ExitLabel, EntryLabel, MakeScope, ConditionCode, NamedLabel, BranchUnless, BranchIf, HintOf, Outer;
      ghost var entry, body := [Label(EntryLabel(scopes))], StmtCode(env, s.wbody, scopes, labelCount);
      AddToCache(Label(EntryLabel(scopes)));
      VisitWhileGuard(s.cond);
      VisitStmt(s.wbody);
      AddToCache(Goto(EntryLabel(scopes)));
      AddToCache(Label(ExitLabel(scopes)));
      GatherSix(old(cache), entry, Guard(env, s.cond, scopes), body, [], [Goto(EntryLabel(scopes))],
                [Label(ExitLabel(scopes))]);
    }

    /** HZCC_CONTEXT_COMPARE(HZCC_JVM_Use_Deduced_IF_POSSIBLE(...)) and the branch. */
    method VisitWhileGuard(e: Expr)
      requires AtStatement() && AcceptsCondition(e) && !IsConstant(e) && scopes != []
      modifies this`cache, this`prevOp, this`generateLoad, this`requestLeave, this`underCompare, this`returnStack
      ensures old(returnStack) <= returnStack
      ensures AtStatement() && cache == old(cache) + Guard(env, e, scopes)
    {
      hide IsCondition, ConditionCode, LoopCount;
      var wasComparing := underCompare;
      underCompare := true;
      UseDeduced(e, ForCondition);
      underCompare := wasComparing;
      var hint := GetLastOpHint();
      AddToCache(BranchUnless(hint, ExitLabel(scopes)));
    }

    method VisitDo(s: Stmt)
      requires s.Do? && AtStatement() && AcceptsLoop(s)
      modifies this
      ensures old(returnStack) <= returnStack
      ensures AtStatement() && scopes == old(scopes)
      ensures cache == old(cache) + StmtCode(env, s, scopes, old(labelCount))
      ensures labelCount == old(labelCount) + Lines(s)
      decreases s, 1
    {
      AroundPushed(scopes, s.pos, DoS);
      InsideShapes(env, s, scopes, labelCount);
      hide StmtCode, BodyCode, Guard, InFragment, LoopAround, LoopCount, IsCondition, IsChain, Lines, LinesAll, ExitLabel, EntryLabel, MakeScope, ConditionCode, NamedLabel, BranchUnless, BranchIf, HintOf, Outer, DoInside;
      EnterScope(s.pos, DoS);
      VisitDoInside(s);
      LeaveScope();
    }

    method VisitDoInside(s: Stmt)
      requires s.Do? && AtStatement() && AcceptsLoop(s)
      requires scopes != [] && LoopAround(scopes) == Testing
      modifies this
      ensures old(returnStack) <= returnStack
      ensures AtStatement() && scopes == old(scopes)
      ensures cache == old(cache) + DoInside(env, s, scopes, old(labelCount))
      ensures labelCount == old(labelCount) + Lines(s)
      decreases s, 0
    {
      DoParts(env, s, NoLoop);
      hide StmtCode, BodyCode, Guard, InFragment, LoopAround, LoopCount, IsCondition, IsChain, Lines, LinesAll, ExitLabel, EntryLabel, MakeScope, ConditionCode, NamedLabel, BranchUnless, BranchIf, HintOf, Outer, DoGuard;
      ghost var entry, body := [Label(EntryLabel(scopes))], StmtCode(env, s.dbody, scopes, labelCount);
      AddToCache(Label(EntryLabel(scopes)));
      VisitStmt(s.dbody);
      VisitDoGuard(s.dcond);
      AddToCache(Label(ExitLabel(scopes)));
      Gather(old(cache), entry, body, DoGuard(env, s.dcond, scopes), [Label(ExitLabel(scopes))]);
    }

    /** The test at the bottom of a `do`; a missing one always repeats. */
    method VisitDoGuard(cond: Option<Expr>)
      requires AtStatement() && (cond.Some? ==> IsCondition(env, cond.value)) && scopes != []
      modifies this`cache, this`prevOp, this`generateLoad, this`requestLeave, this`underCompare, this`returnStack
      ensures old(returnStack) <= returnStack
      ensures AtStatement() && cache == old(cache) + DoGuard(env, cond, scopes)
    {
      hide IsCondition, ConditionCode, LoopCount;
      if cond.Some? {
        VisitCondition(cond.value);
        var hint := GetLastOpHint();
        AddToCache(BranchIf(hint, EntryLabel(scopes)));
      } else {
        AddToCache(Goto(EntryLabel(scopes)));
      }
    }

    method VisitFor(s: Stmt)
      requires s.For? && AtStatement() && AcceptsLoop(s)
      modifies this
      ensures old(returnStack) <= returnStack
      ensures AtStatement() && scopes == old(scopes)
      ensures cache == old(cache) + StmtCode(env, s, scopes, old(labelCount))
      ensures labelCount == old(labelCount) + Lines(s)
      decreases s, 3
    {
      ForParts(env, s, NoLoop);
      ForCode(env, s, scopes, labelCount, cache);
      hide StmtCode, BodyCode, Guard, InFragment, LoopAround, LoopCount, IsCondition, IsChain, Lines, LinesAll, ExitLabel, EntryLabel, MakeScope, ConditionCode, NamedLabel, BranchUnless, BranchIf, HintOf, Outer, SimpleCode, IsSimple, LoopCode;
      VisitStep(s.init0);
      VisitForLoop(s);
    }

    method VisitForLoop(s: Stmt)
      requires s.For? && AtStatement() && AcceptsLoop(s)
      modifies this
      ensures old(returnStack) <= returnStack
      ensures AtStatement() && scopes == old(scopes)
      ensures cache == old(cache) + LoopCode(env, s, scopes, old(labelCount))
      ensures labelCount == old(labelCount) + Lines(s)
      decreases s, 2
    {
      hide StmtCode, BodyCode, Guard, InFragment, LoopAround, LoopCount, IsCondition, IsChain, Lines, LinesAll, ExitLabel, EntryLabel, MakeScope, ConditionCode, NamedLabel, BranchUnless, BranchIf, HintOf, Outer, LoopCode, ForInside;
      AroundPushed(scopes, s.pos, ForS);
      LoopShapes(env, s, scopes, labelCount);
      EnterScope(s.pos, ForS);
      VisitForInside(s);
      LeaveScope();
    }

    method VisitForInside(s: Stmt)
      requires s.For? && AtStatement() && AcceptsLoop(s)
      requires scopes != [] && LoopAround(scopes) == Stepping
      modifies this
      ensures old(returnStack) <= returnStack
      ensures AtStatement() && scopes == old(scopes)
      ensures cache == old(cache) + ForInside(env, s, scopes, old(labelCount))
      ensures labelCount == old(labelCount) + Lines(s)
      decreases s, 1
    {
      ForParts(env, s, NoLoop);
      hide StmtCode, BodyCode, Guard, InFragment, LoopAround, LoopCount, IsCondition, IsChain, Lines, LinesAll, ExitLabel, EntryLabel, MakeScope, ConditionCode, NamedLabel, BranchUnless, BranchIf, HintOf, Outer, SimpleCode, IsSimple;
      ghost var guard := if s.fcond.None? then [] else Guard(env, s.fcond.value, scopes);
      ghost var body := StmtCode(env, s.fbody, scopes, labelCount);
      var condLabel := NamedLabel(scopes, "for_cond");
      AddToCache(Label(condLabel));
      if s.fcond.Some? {
        VisitGuard(s.fcond.value);
      }
      assert cache == old(cache) + [Label(condLabel)] + guard;
      VisitStmt(s.fbody);
      VisitForTail(s);
      AddToCache(Goto(condLabel));
      AddToCache(Label(ExitLabel(scopes)));
      GatherSix(old(cache), [Label(condLabel)], guard, body, [Label(EntryLabel(scopes))] + SimpleCode(env, s.step),
                [Goto(condLabel)], [Label(ExitLabel(scopes))]);
    }

    /** The entry label, where `continue` goes, and the step. */
    method VisitForTail(s: Stmt)
      requires s.For? && AtStatement() && IsSimple(env, s.step) && scopes != []
      modifies this
      ensures old(returnStack) <= returnStack
      ensures AtStatement() && scopes == old(scopes) && labelCount == old(labelCount)
      ensures cache == old(cache) + ([Label(EntryLabel(scopes))] + SimpleCode(env, s.step))
      decreases s.step, 6
    {
      hide EntryLabel, SimpleCode;
      AddToCache(Label(EntryLabel(scopes)));
      VisitStep(s.step);
    }

    /** The initialisation or the step of a `for`. */
    method VisitStep(s: Stmt)
      requires AtStatement() && IsSimple(env, s)
      modifies this
      ensures old(returnStack) <= returnStack
      ensures AtStatement() && scopes == old(scopes) && labelCount == old(labelCount)
      ensures cache == old(cache) + SimpleCode(env, s)
      decreases s, 5
    {
      SimpleShape(env, s, scopes, labelCount, LoopAround(scopes));
      hide StmtCode, BodyCode, Guard, InFragment, LoopAround, LoopCount, IsCondition, IsChain, Lines, LinesAll, ExitLabel, EntryLabel, MakeScope, ConditionCode, NamedLabel, BranchUnless, BranchIf, HintOf, Outer;
      if s != Empty {
        VisitStmt(s);
      }
    }

    /** The body of a function, with a `return` added unless the last statement is one. */
    /** One function after another: the loop counter, which no reset clears, is right again at the end of each. */
    method VisitFunction(body: seq<Stmt>)
      requires AtStatement() && scopes == []
      requires FunctionCorrectness.FunctionInFragment(env, body)
      modifies this
      ensures AtStatement() && scopes == [] && old(returnStack) <= returnStack
      ensures cache == old(cache) + FunctionCorrectness.MethodCode(env, body)
    {
      ResetLabels();
      VisitFunctionBody(body);
    }

    method VisitFunctionBody(body: seq<Stmt>)
      requires AtStatement() && scopes == [] && labelCount == 0
      requires FunctionCorrectness.FunctionInFragment(env, body)
      modifies this
      ensures old(returnStack) <= returnStack
      ensures AtStatement() && scopes == []
      ensures cache == old(cache) + FunctionCorrectness.MethodCode(env, body)
    {
      VisitCompound(body);
      if body == [] || !body[|body| - 1].Return? {
        AddToCache(Instr.Return);
      }
    }
  }
}
