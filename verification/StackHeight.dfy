/** Operand-stack discipline of generated code (section 2.6.2 of the Java
    Virtual Machine Specification): one height per program point whatever path
    reaches it, zero at every label and statement boundary, and no run that
    pops an empty stack, jumps nowhere or falls off the end of the code. */
module StackHeight {
  import opened Ast
  import opened World
  import opened Jvm
  import opened Labels
  import opened CSemantics
  import opened Folding
  import opened CodeSpec
  import opened FunctionCorrectness
  import opened LabelUniqueness

  /** May the instruction stand where the stack has height `h`? Labels, jumps
      and returns leave nothing behind on the stack. */
  predicate Fits(i: Instr, h: nat) {
    && Pops(i) <= h
    && (i.Label? || i.Goto? || i.IfICmp? || i.IfZ? || i.IReturn? || i.Return? ==> h == Pops(i))
  }

  /** The height behind a piece of code entered at height `h`, read from the
      text alone, or None when an instruction does not fit. */
  function Scan(code: seq<Instr>, h: nat): Option<nat> {
    if code == [] then Some(h)
    else if !Fits(code[0], h) then None
    else Scan(code[1..], h - Pops(code[0]) + Pushes(code[0]))
  }

  /** The greatest height on the way. */
  function Peak(code: seq<Instr>, h: nat): nat {
    if code == [] || !Fits(code[0], h) then h
    else
      var rest := Peak(code[1..], h - Pops(code[0]) + Pushes(code[0]));
      if h > rest then h else rest
  }

  ghost predicate Goes(code: seq<Instr>, h: nat, h': nat) {
    Scan(code, h) == Some(h')
  }

  lemma {:induction false} ScanAppend(a: seq<Instr>, b: seq<Instr>, h: nat)
    ensures Scan(a, h).Some? ==> Scan(a + b, h) == Scan(b, Scan(a, h).value)
    ensures Scan(a, h).None? ==> Scan(a + b, h).None?
  {
    if a == [] {
      assert a + b == b;
    } else {
      assert (a + b)[1..] == a[1..] + b;
      if Fits(a[0], h) {
        ScanAppend(a[1..], b, h - Pops(a[0]) + Pushes(a[0]));
      }
    }
  }

  lemma GoesOn(a: seq<Instr>, b: seq<Instr>, h: nat, h1: nat, h2: nat)
    requires Goes(a, h, h1) && Goes(b, h1, h2)
    ensures Goes(a + b, h, h2)
  {
    ScanAppend(a, b, h);
  }

  lemma GoesNowhere()
    ensures forall k: nat :: Goes([], k, k)
  {
  }

  lemma GoesOne(i: Instr, h: nat)
    requires Fits(i, h)
    ensures Goes([i], h, h - Pops(i) + Pushes(i))
  {
    assert [i][1..] == [];
  }

  lemma GoesTwo(i: Instr, j: Instr, h: nat)
    requires Fits(i, h) && Fits(j, h - Pops(i) + Pushes(i))
    ensures Goes([i, j], h, h - Pops(i) + Pushes(i) - Pops(j) + Pushes(j))
  {
    assert [i, j][1..] == [j];
    GoesOne(j, h - Pops(i) + Pushes(i));
  }

  // ----- expressions -----

  lemma {:induction false} OperandHeight(env: Env, e: Expr, pure: bool, h: nat)
    ensures IsValue(env, e, pure) ==> Goes(Operand(env, e), h, h + 1)
    decreases e, 2
  {
    hide Scan;
    CodeHeight(env, e, pure, h);
    if Fold(e).Constant? {
      GoesOne(Push(Fold(e).v), h);
    }
  }

  /** Every value expression adds exactly one slot. */
  lemma {:induction false} CodeHeight(env: Env, e: Expr, pure: bool, h: nat)
    ensures IsValue(env, e, pure) ==> Goes(Code(env, e), h, h + 1)
    decreases e, 1
  {
    hide Scan;
    if IsValue(env, e, pure) {
      match e {
        case Lit(n) => GoesOne(Push(n), h);
        case Var(x) => GoesOne(LoadVar(env, x), h);
        case Arith(op, l, r) =>
          OperandHeight(env, l, pure, h);
          OperandHeight(env, r, pure, h + 1);
          GoesOne(IArith(op), h + 2);
          GoesOn(Operand(env, l), Operand(env, r), h, h + 1, h + 2);
          GoesOn(Operand(env, l) + Operand(env, r), [IArith(op)], h, h + 2, h + 1);
        case Neg(e1) =>
          CodeHeight(env, e1, pure, h);
          GoesOne(INeg, h + 1);
          GoesOn(Code(env, e1), [INeg], h, h + 1, h + 1);
        case Call(f, args) => CallHeight(env, e, pure, h);
        case Index(base, sub) =>
          OperandHeight(env, sub, pure, h + 1);
          GoesOne(LoadArray(env, NameOf(base)), h);
          GoesOne(IALoad, h + 2);
          GoesOn([LoadArray(env, NameOf(base))], Operand(env, sub), h, h + 1, h + 2);
          GoesOn([LoadArray(env, NameOf(base))] + Operand(env, sub), [IALoad], h, h + 2, h + 1);
        case Assign(_, _, _) => AssignHeight(env, e, true, h);
        case IncDec(op, target) => BumpHeight(env, op, NameOf(target), true, h);
        case _ =>
      }
    }
  }

  lemma {:induction false} CallHeight(env: Env, e: Expr, pure: bool, h: nat)
    requires e.Call? && KnownCall(env, e.f, |e.args|)
    ensures (forall i :: 0 <= i < |e.args| ==> IsValue(env, e.args[i], pure))
        ==> Goes(Code(env, e), h, if env.funcs[e.f].isVoid then h else h + 1)
    decreases e, 0
  {
    hide Scan;
    var call := InvokeStatic(e.f, SigOf(env, e.f));
    ArgumentsHeight(env, e.args, pure, h);
    GoesOne(call, h + |e.args|);
    if forall i :: 0 <= i < |e.args| ==> IsValue(env, e.args[i], pure) {
      GoesOn(Arguments(env, e.args), [call], h, h + |e.args|, h + Pushes(call));
    }
  }

  lemma {:induction false} ArgumentsHeight(env: Env, args: seq<Expr>, pure: bool, h: nat)
    ensures (forall i :: 0 <= i < |args| ==> IsValue(env, args[i], pure)) ==> Goes(Arguments(env, args), h, h + |args|)
    decreases args
  {
    hide Operand, IsValue;
    if args != [] {
      hide Scan;
      OperandHeight(env, args[0], pure, h);
      ArgumentsHeight(env, args[1..], pure, h + 1);
      if forall i :: 0 <= i < |args| ==> IsValue(env, args[i], pure) {
        GoesOn(Operand(env, args[0]), Arguments(env, args[1..]), h, h + 1, h + |args|);
      }
    }
  }

  /** An assignment leaves its value exactly when it is asked for. */
  lemma {:induction false} AssignHeight(env: Env, e: Expr, leave: bool, h: nat)
    requires e.Assign?
    ensures IsAssignment(env, e) ==> Goes(AssignCode(env, e, leave), h, if leave then h + 1 else h)
    decreases e, 0
  {
    if IsAssignment(env, e) {
      var load, index := if e.sop == Set then h else h + 1, if e.sop == Set then h + 2 else h + 3;
      if e.lhs.Var? {
        OperandHeight(env, e.rhs, false, load);
        StoreHeight(env, e, leave, h);
      } else {
        OperandHeight(env, e.lhs.sub, false, h + 1);
        OperandHeight(env, e.rhs, false, index);
        ElementStoreHeight(env, e, leave, h);
      }
    }
  }

  /** The code around the right-hand side, for a scalar. */
  lemma StoreHeight(env: Env, e: Expr, leave: bool, h: nat)
    requires e.Assign? && IsScalar(env, e.lhs)
    requires var h1 := if e.sop == Set then h else h + 1; Goes(Operand(env, e.rhs), h1, h1 + 1)
    ensures Goes(AssignCode(env, e, leave), h, if leave then h + 1 else h)
  {
    hide Scan, Operand;
    GoesNowhere();
    var set0, x, rhs := e.sop == Set, e.lhs.x, Operand(env, e.rhs);
    var load, apply := if set0 then [] else [LoadVar(env, x)], if set0 then [] else [IArith(OpOf(e.sop))];
    var dup := if leave then [Dup] else [];
    var h1, h2 := if set0 then h else h + 1, if leave then h + 2 else h + 1;
    if !set0 {
      GoesOne(LoadVar(env, x), h);
      GoesOne(IArith(OpOf(e.sop)), h + 2);
    }
    if leave {
      GoesOne(Dup, h + 1);
    }
    GoesOne(SaveVar(env, x), h2);
    GoesOn(load, rhs, h, h1, h1 + 1);
    GoesOn(load + rhs, apply, h, h1 + 1, h + 1);
    GoesOn(load + rhs + apply, dup, h, h + 1, h2);
    GoesOn(load + rhs + apply + dup, [SaveVar(env, x)], h, h2, h2 - 1);
  }

  /** The code around subscript and right-hand side, for an element. */
  lemma ElementStoreHeight(env: Env, e: Expr, leave: bool, h: nat)
    requires e.Assign? && e.lhs.Index? && IsArray(env, e.lhs.base)
    requires Goes(Operand(env, e.lhs.sub), h + 1, h + 2)
    requires var h1 := if e.sop == Set then h + 2 else h + 3; Goes(Operand(env, e.rhs), h1, h1 + 1)
    ensures Goes(AssignCode(env, e, leave), h, if leave then h + 1 else h)
  {
    hide Scan, Goes, Operand, LoadArray, SaveVar;
    GoesNowhere();
    var set0, x, index, rhs := e.sop == Set, NameOf(e.lhs.base), Operand(env, e.lhs.sub), Operand(env, e.rhs);
    var load, apply := if set0 then [] else [Dup2, IALoad], if set0 then [] else [IArith(OpOf(e.sop))];
    var dup := if leave then [DupX2] else [];
    var h1, h2 := if set0 then h + 2 else h + 3, if leave then h + 4 else h + 3;
    ArrayAccessHeight(env, x, h, h2);
    if !set0 {
      GoesTwo(Dup2, IALoad, h + 2);
      GoesOne(IArith(OpOf(e.sop)), h + 4);
    }
    if leave {
      GoesOne(DupX2, h + 3);
    }
    GoesOn([LoadArray(env, x)], index, h, h + 1, h + 2);
    GoesOn([LoadArray(env, x)] + index, load, h, h + 2, h1);
    GoesOn([LoadArray(env, x)] + index + load, rhs, h, h1, h1 + 1);
    GoesOn([LoadArray(env, x)] + index + load + rhs, apply, h, h1 + 1, h + 3);
    GoesOn([LoadArray(env, x)] + index + load + rhs + apply, dup, h, h + 3, h2);
    GoesOn([LoadArray(env, x)] + index + load + rhs + apply + dup, [SaveVar(env, x)], h, h2, h2 - 3);
  }

  lemma ArrayAccessHeight(env: Env, x: string, h: nat, h': nat)
    requires env.Known(x, Array) && h' >= 3
    ensures Goes([LoadArray(env, x)], h, h + 1) && Goes([SaveVar(env, x)], h', h' - 3)
  {
    GoesOne(LoadArray(env, x), h);
    GoesOne(SaveVar(env, x), h');
  }

  lemma BumpHeight(env: Env, op: IncDecOp, x: string, leave: bool, h: nat)
    requires env.Known(x, Scalar)
    ensures Goes(Bump(env, op, x, leave), h, if leave then h + 1 else h)
  {
    hide Bump, Goes, Env.Known;
    if x !in env.globalKinds && x in env.slots {
      SlotBumpHeight(env, op, x, leave, h);
    } else {
      StaticBumpHeight(env, op, x, leave, h);
    }
  }

  lemma SlotBumpHeight(env: Env, op: IncDecOp, x: string, leave: bool, h: nat)
    requires env.Known(x, Scalar) && x !in env.globalKinds && x in env.slots
    ensures Goes(Bump(env, op, x, leave), h, if leave then h + 1 else h)
  {
    hide Goes;
    GoesNowhere();
    var up, pre := op == PreInc || op == PostInc, op == PreInc || op == PreDec;
    var before, after := if leave && !pre then [LoadVar(env, x)] else [], if leave && pre then [LoadVar(env, x)] else [];
    var inc := IInc(env.slots[x], if up then 1 else -1);
    var h2 := if leave && !pre then h + 1 else h;
    GoesOne(LoadVar(env, x), h);
    GoesOne(inc, h2);
    GoesOn(before, [inc], h, h2, h2);
    GoesOn(before + [inc], after, h, h2, if leave then h + 1 else h);
  }

  lemma StaticBumpHeight(env: Env, op: IncDecOp, x: string, leave: bool, h: nat)
    requires env.Known(x, Scalar) && !(x !in env.globalKinds && x in env.slots)
    ensures Goes(Bump(env, op, x, leave), h, if leave then h + 1 else h)
  {
    hide Goes;
    GoesNowhere();
    var up, pre := op == PreInc || op == PostInc, op == PreInc || op == PreDec;
    var h1 := if leave then h + 1 else h;
    var before, after := if leave && !pre then [Dup] else [], if leave && pre then [Dup] else [];
    var add := IArith(if up then Add else Sub);
    var h2 := if leave && !pre then h + 2 else h + 1;
    GoesOne(LoadVar(env, x), h);
    GoesOne(Dup, h + 1);
    GoesTwo(Push(1), add, h2);
    GoesOne(SaveVar(env, x), h1 + 1);
    GoesOn([LoadVar(env, x)], before, h, h + 1, h2);
    GoesOn([LoadVar(env, x)] + before, [Push(1), add], h, h2, h2);
    GoesOn([LoadVar(env, x)] + before + [Push(1), add], after, h, h2, h1 + 1);
    GoesOn([LoadVar(env, x)] + before + [Push(1), add] + after, [SaveVar(env, x)], h, h1 + 1, h1);
  }

  lemma EffectHeight(env: Env, e: Expr)
    ensures IsEffect(env, e) ==> Goes(Effect(env, e), 0, 0)
  {
    hide Scan;
    if IsEffect(env, e) {
      match e {
        case Assign(_, _, _) => AssignHeight(env, e, false, 0);
        case IncDec(op, target) => BumpHeight(env, op, NameOf(target), false, 0);
        case Call(f, args) =>
          CallHeight(env, e, false, 0);
          if !env.funcs[f].isVoid {
            GoesOne(Instr.Pop, 1);
            GoesOn(Code(env, e), [Instr.Pop], 0, 1, 0);
          } else {
            assert Code(env, e) + [] == Code(env, e);
          }
        case _ =>
      }
    }
  }

  // ----- conditions -----

  /** Operands that the branch behind a condition takes. */
  function Pending(c: Expr): nat {
    if HintOf(c) == NoHint then 1 else 2
  }

  lemma {:induction false} ConditionHeight(env: Env, op: LogicOp, c: Expr, entry: string, exit: string)
    ensures IsChain(env, op, c) ==> Goes(ConditionCode(env, c, entry, exit), 0, Pending(c))
  {
    hide Scan, Operand, Code, IsValue, IsAtom;
    if IsChain(env, op, c) {
      if c.Rel? {
        OperandHeight(env, c.l, true, 0);
        OperandHeight(env, c.r, true, 1);
        GoesOn(Operand(env, c.l), Operand(env, c.r), 0, 1, 2);
      } else if c.Logic? {
        var first, second := ConditionCode(env, c.l, entry, exit), ConditionCode(env, c.r, entry, exit);
        var branch := if op == And then BranchUnless(HintOf(c.l), exit) else BranchIf(HintOf(c.l), entry);
        ConditionHeight(env, op, c.l, entry, exit);
        ConditionHeight(env, op, c.r, entry, exit);
        GoesOne(branch, Pending(c.l));
        GoesOn(first, [branch], 0, Pending(c.l), 0);
        GoesOn(first + [branch], second, 0, 0, Pending(c.r));
      } else {
        AtomIsValue(env, c);
        CodeHeight(env, c, true, 0);
      }
    }
  }

  lemma AtomIsValue(env: Env, e: Expr)
    ensures IsAtom(env, e) ==> IsValue(env, e, true)
  {
  }

  lemma GuardHeight(env: Env, c: Expr, sc: seq<Scope>)
    requires sc != []
    ensures IsCondition(env, c) ==> Level(Guard(env, c, sc))
  {
    hide Scan, IsChain;
    var branch := BranchUnless(HintOf(c), ExitLabel(sc));
    ConditionHeight(env, And, c, EntryLabel(sc), ExitLabel(sc));
    ConditionHeight(env, Or, c, EntryLabel(sc), ExitLabel(sc));
    GoesOne(branch, Pending(c));
    if IsCondition(env, c) {
      GoesOn(ConditionCode(env, c, EntryLabel(sc), ExitLabel(sc)), [branch], 0, Pending(c), 0);
    }
  }

  lemma DoGuardHeight(env: Env, cond: Option<Expr>, sc: seq<Scope>)
    requires sc != []
    ensures (cond.Some? ==> IsCondition(env, cond.value)) ==> Level(DoGuard(env, cond, sc))
  {
    hide Scan, IsChain;
    match cond {
      case None => GoesOne(Goto(EntryLabel(sc)), 0);
      case Some(c) =>
        var branch := BranchIf(HintOf(c), EntryLabel(sc));
        ConditionHeight(env, And, c, EntryLabel(sc), ExitLabel(sc));
        ConditionHeight(env, Or, c, EntryLabel(sc), ExitLabel(sc));
        GoesOne(branch, Pending(c));
        if IsCondition(env, c) {
          GoesOn(ConditionCode(env, c, EntryLabel(sc), ExitLabel(sc)), [branch], 0, Pending(c), 0);
        }
    }
  }

  // ----- statements: from height zero to height zero -----

  ghost predicate Level(code: seq<Instr>) {
    Goes(code, 0, 0)
  }

  lemma LevelAppend(a: seq<Instr>, b: seq<Instr>)
    ensures Level(a) && Level(b) ==> Level(a + b)
  {
    if Level(a) && Level(b) {
      GoesOn(a, b, 0, 0, 0);
    }
  }

  lemma LevelFour(a: seq<Instr>, b: seq<Instr>, c: seq<Instr>, d: seq<Instr>)
    ensures Level(a) && Level(b) && Level(c) && Level(d) ==> Level(a + b + c + d)
  {
    hide *;
    LevelAppend(a, b);
    LevelAppend(a + b, c);
    LevelAppend(a + b + c, d);
  }

  lemma LevelJump(again: string, exit: string)
    ensures Level([Goto(again), Label(exit)])
  {
    LevelLabel(again);
    LevelLabel(exit);
    LevelAppend([Goto(again)], [Label(exit)]);
    assert [Goto(again)] + [Label(exit)] == [Goto(again), Label(exit)];
  }

  lemma LevelLabel(l: string)
    ensures Level([Label(l)]) && Level([Goto(l)]) && Level([]) && Level([Instr.Return])
  {
    GoesOne(Label(l), 0);
    GoesOne(Goto(l), 0);
    GoesOne(Instr.Return, 0);
  }

  lemma LevelSimple(env: Env, s: Stmt)
    ensures IsSimple(env, s) ==> Level(SimpleCode(env, s))
  {
    if s.ExprStmt? {
      EffectHeight(env, s.e);
    }
  }

  lemma DeclHeight(env: Env, s: Stmt, sc: seq<Scope>, k: nat)
    requires s.Decl? || s.ArrayDecl? || s.Return?
    ensures InFragment(env, s, LoopAround(sc)) ==> Level(StmtCode(env, s, sc, k))
  {
    hide Scan, Operand, IsValue;
    LevelLabel("");
    match s {
      case Decl(x, Some(e)) =>
        OperandHeight(env, e, false, 0);
        if IsInit(env, e) && env.Known(x, Scalar) {
          GoesOne(SaveVar(env, x), 1);
          GoesOn(Operand(env, e), [SaveVar(env, x)], 0, 1, 0);
        }
      case ArrayDecl(x, size) =>
        GoesTwo(Push(size), NewArray, 0);
        GoesOne(SaveArray(env, x), 1);
        GoesOn([Push(size), NewArray], [SaveArray(env, x)], 0, 1, 0);
        assert StmtCode(env, s, sc, k) == [Push(size), NewArray] + [SaveArray(env, x)];
      case Return(Some(e)) =>
        OperandHeight(env, e, false, 0);
        GoesOne(IReturn, 1);
        if IsValue(env, e, false) {
          GoesOn(Operand(env, e), [IReturn], 0, 1, 0);
        }
      case _ =>
    }
  }

  lemma {:induction false} StmtHeight(env: Env, s: Stmt, sc: seq<Scope>, k: nat)
    ensures InFragment(env, s, LoopAround(sc)) ==> Level(StmtCode(env, s, sc, k))
    decreases s, if s.If? then |s.elifs| + 2 else 2
  {
    hide Level, LoopExitLabel, LoopEntryLabel, IsEffect;
    if InFragment(env, s, LoopAround(sc)) {
      match s {
        case Empty => LevelLabel("");
        case ExprStmt(e) => LevelSimple(env, s);
        case Compound(body) => BodyHeight(env, body, sc, k);
        case If(_, _, _, _, _) => IfHeight(env, s, sc, k);
        case While(_, _, _) => LoopHeight(env, s, sc, k);
        case Do(_, _, _) => DoHeight(env, s, sc, k);
        case For(_, init, _, _, _) =>
          LevelSimple(env, init);
          LoopHeight(env, s, sc, k);
          LevelAppend(SimpleCode(env, init), LoopCode(env, s, sc, k));
        case Break => LevelLabel(LoopExitLabel(sc));
        case Continue => LevelLabel(LoopEntryLabel(sc));
        case _ => DeclHeight(env, s, sc, k);
      }
    }
  }

  lemma BodySplits(env: Env, ss: seq<Stmt>, sc: seq<Scope>, k: nat)
    ensures ss == [] ==> BodyCode(env, ss, sc, k) == []
    ensures ss != [] ==>
              BodyCode(env, ss, sc, k)
              == [Label(LineLabel(k))] + StmtCode(env, ss[0], sc, k + 1)
                 + BodyCode(env, ss[1..], sc, k + 1 + Lines(ss[0]))
  {
    hide StmtCode, Lines, LineLabel;
  }

  lemma {:induction false} BodyHeight(env: Env, ss: seq<Stmt>, sc: seq<Scope>, k: nat)
    ensures (forall i :: 0 <= i < |ss| ==> InFragment(env, ss[i], LoopAround(sc))) ==> Level(BodyCode(env, ss, sc, k))
    decreases ss
  {
    hide *;
    BodySplits(env, ss, sc, k);
    LevelLabel(LineLabel(k));
    if ss != [] && forall i :: 0 <= i < |ss| ==> InFragment(env, ss[i], LoopAround(sc)) {
      var k1 := k + 1 + Lines(ss[0]);
      StmtHeight(env, ss[0], sc, k + 1);
      BodyHeight(env, ss[1..], sc, k1);
      LevelAppend([Label(LineLabel(k))], StmtCode(env, ss[0], sc, k + 1));
      LevelAppend([Label(LineLabel(k))] + StmtCode(env, ss[0], sc, k + 1), BodyCode(env, ss[1..], sc, k1));
    }
  }

  lemma LoopPartsHeight(env: Env, s: Stmt, sc: seq<Scope>, around: Around)
    requires (s.While? || s.For?) && InFragment(env, s, around)
    ensures Level(LoopGuard(env, s, sc)) && Level(LoopTail(env, s, sc))
    ensures InFragment(env, LoopBody(s), Stepping)
  {
    var sc1 := LoopScope(s, sc);
    hide Level, EntryLabel, Guard, SimpleCode, IsSimple;
    LevelLabel(EntryLabel(sc1));
    if LoopCond(s).Some? {
      GuardHeight(env, LoopCond(s).value, sc1);
    }
    if s.For? {
      LevelSimple(env, s.step);
      LevelAppend([Label(EntryLabel(sc1))], SimpleCode(env, s.step));
    }
  }

  lemma {:induction false} LoopHeight(env: Env, s: Stmt, sc: seq<Scope>, k: nat)
    requires s.While? || s.For?
    ensures InFragment(env, s, LoopAround(sc)) ==> Level(LoopCode(env, s, sc, k))
    decreases s, 0
  {
    if InFragment(env, s, LoopAround(sc)) {
      var kind, sc1 := if s.While? then WhileS else ForS, LoopScope(s, sc);
      var again, body := AgainLabel(s, sc), StmtCode(env, LoopBody(s), sc1, k);
      var guard, tail := LoopGuard(env, s, sc), LoopTail(env, s, sc);
      assert LoopCode(env, s, sc, k)
          == ([Label(again)] + guard + body + tail) + [Goto(again), Label(ExitLabel(sc1))];
      LoopPartsHeight(env, s, sc, LoopAround(sc));
      OuterOfLoop(sc, s.pos, kind);
      assert LoopAround(sc1) == Stepping;
      hide *;
      StmtHeight(env, LoopBody(s), sc1, k);
      LevelLabel(again);
      LevelJump(again, ExitLabel(sc1));
      LevelFour([Label(again)], guard, body, tail);
      LevelAppend([Label(again)] + guard + body + tail, [Goto(again), Label(ExitLabel(sc1))]);
    }
  }

  lemma {:induction false} DoHeight(env: Env, s: Stmt, sc: seq<Scope>, k: nat)
    requires s.Do?
    ensures InFragment(env, s, LoopAround(sc)) ==> Level(StmtCode(env, s, sc, k))
    decreases s, 0
  {
    hide Level, EntryLabel, ExitLabel, DoGuard, IsChain;
    if InFragment(env, s, LoopAround(sc)) {
      var sc1 := sc + [MakeScope(s.pos, DoS)];
      var body := StmtCode(env, s.dbody, sc1, k);
      OuterOfLoop(sc, s.pos, DoS);
      StmtHeight(env, s.dbody, sc1, k);
      DoGuardHeight(env, s.dcond, sc1);
      LevelLabel(EntryLabel(sc1));
      LevelLabel(ExitLabel(sc1));
      LevelFour([Label(EntryLabel(sc1))], body, DoGuard(env, s.dcond, sc1), [Label(ExitLabel(sc1))]);
    }
  }

  lemma {:induction false} ArmHeight(env: Env, cond: Expr, body: Stmt, sc: seq<Scope>, pos: Pos, kind: ScopeKind,
                                     k: nat, all: string)
    requires !IsLoop(kind)
    ensures var sc1 := sc + [MakeScope(pos, kind)];
            IsCondition(env, cond) && InFragment(env, body, LoopAround(sc)) ==>
              Level(ArmCode(env, cond, StmtCode(env, body, sc1, k), sc1, all))
    decreases body, if body.If? then |body.elifs| + 3 else 3
  {
    var sc1 := sc + [MakeScope(pos, kind)];
    var guard, inner := Guard(env, cond, sc1), StmtCode(env, body, sc1, k);
    var entry, exit := [Label(EntryLabel(sc1))], [Goto(all), Label(ExitLabel(sc1))];
    assert ArmCode(env, cond, inner, sc1, all) == guard + entry + inner + exit;
    OuterOfArm(sc, pos, kind);
    hide *;
    StmtHeight(env, body, sc1, k);
    GuardHeight(env, cond, sc1);
    LevelLabel(EntryLabel(sc1));
    LevelJump(all, ExitLabel(sc1));
    LevelFour(guard, entry, inner, exit);
  }

  lemma {:induction false} ElseHeight(env: Env, s: Stmt, i: nat, sc: seq<Scope>, k: nat, all: string)
    requires s.If? && i <= |s.elifs|
    ensures InFragment(env, s, LoopAround(sc)) ==> Level(ElseCode(env, s, i, sc, k, all))
    decreases s, |s.elifs| - i
  {
    hide Level, StmtCode, ArmCode, IsCondition;
    if InFragment(env, s, LoopAround(sc)) {
      if i < |s.elifs| {
        var ElseIf(pos, cond, body) := s.elifs[i];
        var sc1 := sc + [MakeScope(pos, ElseIfS)];
        ArmHeight(env, cond, body, sc, pos, ElseIfS, k, all);
        ElseHeight(env, s, i + 1, sc, k + Lines(body), all);
        LevelAppend(ArmCode(env, cond, StmtCode(env, body, sc1, k), sc1, all),
                    ElseCode(env, s, i + 1, sc, k + Lines(body), all));
      } else if s.els.Some? {
        StmtHeight(env, s.els.value, sc, k);
      } else {
        LevelLabel("");
      }
    }
  }

  lemma {:induction false} IfHeight(env: Env, s: Stmt, sc: seq<Scope>, k: nat)
    requires s.If?
    ensures InFragment(env, s, LoopAround(sc)) ==> Level(StmtCode(env, s, sc, k))
    decreases s, |s.elifs| + 1
  {
    hide Level, StmtCode, ArmCode, ElseCode, NamedLabel, MakeScope, IsCondition, LoopAround, LoopIndex, LabelUniqueness.Outer;
    if InFragment(env, s, LoopAround(sc)) {
      var sc1 := sc + [MakeScope(s.pos, IfS)];
      var all := NamedLabel(sc1, "stmt_end");
      var arm := ArmCode(env, s.cond, StmtCode(env, s.thn, sc1, k), sc1, all);
      var rest := ElseCode(env, s, 0, sc1, k + Lines(s.thn), all);
      IfParts(env, s, sc, k);
      OuterOfArm(sc, s.pos, IfS);
      ArmHeight(env, s.cond, s.thn, sc, s.pos, IfS, k, all);
      ElseHeight(env, s, 0, sc1, k + Lines(s.thn), all);
      LevelLabel(all);
      LevelAppend(arm, rest);
      LevelAppend(arm + rest, [Label(all)]);
    }
  }

  // ----- every run -----

  /** The machine is at a point of the code, with the height the text gives it. */
  ghost predicate AtHeight(code: seq<Instr>, c: Config) {
    match c
    case Running(pc, stack, _) => pc < |code| && Scan(code[..pc], 0) == Some(|stack|)
    case Returned(_, _) => true
    case Faulted(why) => why != Malformed
  }

  /** Balanced code whose jumps land and which does not end by falling off. */
  ghost predicate WellFormed(code: seq<Instr>) {
    && Level(code)
    && (forall i, l :: 0 <= i < |code| && l in Aim(code[i]) ==> Target(code, l) < |code|)
    && code != [] && (code[|code| - 1].Return? || code[|code| - 1].IReturn?)
  }

  lemma {:induction false} FindIsLabel(code: seq<Instr>, l: string, from: nat)
    requires from <= |code| && Find(code, l, from) < |code|
    ensures code[Find(code, l, from)] == Label(l)
    decreases |code| - from
  {
    if code[from] != Label(l) {
      FindIsLabel(code, l, from + 1);
    }
  }

  /** In balanced code the instruction at `pc` fits the height in front of it. */
  lemma ScanThrough(code: seq<Instr>, pc: nat)
    requires Scan(code, 0).Some? && pc < |code|
    ensures Scan(code[..pc], 0).Some? && Fits(code[pc], Scan(code[..pc], 0).value)
    ensures var h := Scan(code[..pc], 0).value;
            Scan(code[..pc + 1], 0) == Some(h - Pops(code[pc]) + Pushes(code[pc]))
  {
    assert code == code[..pc] + code[pc..];
    ScanAppend(code[..pc], code[pc..], 0);
    assert code[..pc + 1] == code[..pc] + [code[pc]];
    ScanAppend(code[..pc], [code[pc]], 0);
    assert [code[pc]][1..] == [];
  }

  /** One step changes the stack by what the instruction says, and goes to the
      next instruction or to the target of the jump. */
  lemma StepHeight(code: seq<Instr>, callee: Callee, c: Config)
    requires c.Running? && c.pc < |code| && Pops(code[c.pc]) <= |c.stack|
    requires forall l :: l in Aim(code[c.pc]) ==> Target(code, l) < |code|
    ensures match Step(code, callee, c)
            case Running(pc, stack, _) =>
              && |stack| == |c.stack| - Pops(code[c.pc]) + Pushes(code[c.pc])
              && ((pc == c.pc + 1 && !code[c.pc].Return? && !code[c.pc].IReturn?)
                  || exists l :: l in Aim(code[c.pc]) && pc == Target(code, l))
            case Returned(_, _) => true
            case Faulted(why) => why != Malformed
  {
    hide Invoke, Target, Compute, Compare, InBounds, WriteElem, Allocate, Record, KindMatches, AllInts, Ints, Int32.Wrap;
    if code[c.pc].InvokeStatic? {
      InvokeHeight(callee, code[c.pc].f, code[c.pc].sig, c.pc + 1, c.stack, c.frame);
    }
  }

  lemma InvokeHeight(callee: Callee, f: string, sig: Signature, pc: nat, stack: seq<Value>, frame: Jvm.Frame)
    requires sig.arity <= |stack|
    ensures match Invoke(callee, f, sig, pc, stack, frame)
            case Running(pc', stack', _) => pc' == pc && |stack'| == |stack| - sig.arity + (if sig.isVoid then 0 else 1)
            case Returned(_, _) => false
            case Faulted(why) => why != Malformed
  {
    hide AllInts, Record;
  }

  lemma StepKeepsHeight(code: seq<Instr>, callee: Callee, c: Config)
    requires WellFormed(code) && AtHeight(code, c)
    ensures AtHeight(code, Step(code, callee, c))
  {
    if c.Running? {
      var c' := Step(code, callee, c);
      ScanThrough(code, c.pc);
      StepHeight(code, callee, c);
      if c'.Running? && c'.pc != c.pc + 1 {
        var l :| l in Aim(code[c.pc]) && c'.pc == Target(code, l);
        FindIsLabel(code, l, 0);
        ScanThrough(code, c'.pc);
      }
    }
  }

  lemma {:induction false} RunKeepsHeight(code: seq<Instr>, callee: Callee, c: Config, n: nat)
    requires WellFormed(code) && AtHeight(code, c)
    ensures AtHeight(code, Run(code, callee, c, n))
    decreases n
  {
    if n > 0 {
      StepKeepsHeight(code, callee, c);
      RunKeepsHeight(code, callee, Step(code, callee, c), n - 1);
    }
  }

  lemma {:induction false} PeakBounds(code: seq<Instr>, h: nat, pc: nat)
    requires Scan(code, h).Some? && pc <= |code|
    ensures Scan(code[..pc], h).Some? && Scan(code[..pc], h).value <= Peak(code, h)
  {
    if pc > 0 {
      assert code[..pc][1..] == code[1..][..pc - 1];
      PeakBounds(code[1..], h - Pops(code[0]) + Pushes(code[0]), pc - 1);
    }
  }

  lemma MethodWellFormed(env: Env, body: seq<Stmt>)
    requires FunctionInFragment(env, body)
    ensures WellFormed(MethodCode(env, body))
  {
    hide BodyCode, InFragment, Scan;
    var code := MethodCode(env, body);
    assert LoopAround([]) == NoLoop;
    BodyHeight(env, body, [], 0);
    LevelLabel("");
    LevelAppend(BodyCode(env, body, [], 0), if EndsInReturn(body) then [] else [Instr.Return]);
    if EndsInReturn(body) {
      BodyEndsInReturn(env, body, 0);
    }
    forall i, l | 0 <= i < |code| && l in Aim(code[i])
      ensures Target(code, l) < |code|
    {
      JumpsLand(env, body, i, l);
    }
  }

  lemma {:induction false} BodyEndsInReturn(env: Env, ss: seq<Stmt>, k: nat)
    requires EndsInReturn(ss)
    ensures var code := BodyCode(env, ss, [], k);
            code != [] && (code[|code| - 1].Return? || code[|code| - 1].IReturn?)
    decreases ss
  {
    hide Operand;
    if |ss| > 1 {
      hide StmtCode;
      BodyEndsInReturn(env, ss[1..], k + 1 + Lines(ss[0]));
    } else {
      assert BodyCode(env, ss[1..], [], k + 1 + Lines(ss[0])) == [];
    }
  }

  /** Whatever the callees do and whatever the frame holds: at every point of
      every run of a generated method the operand stack has the height the
      text gives that point, never more than `Peak`, and the run is never
      stopped by an empty stack, a missing label or the end of the code. */
  lemma MethodNeverMalformed(env: Env, body: seq<Stmt>, callee: Callee, fr: Jvm.Frame, n: nat)
    requires FunctionInFragment(env, body)
    ensures var code := MethodCode(env, body);
            var c := Run(code, callee, Running(0, [], fr), n);
            && AtHeight(code, c)
            && (c.Running? ==> |c.stack| <= Peak(code, 0))
            && (c.Running? && code[c.pc].Label? ==> c.stack == [])
  {
    hide MethodCode, FunctionInFragment;
    var code := MethodCode(env, body);
    MethodWellFormed(env, body);
    assert code[..0] == [];
    RunKeepsHeight(code, callee, Running(0, [], fr), n);
    var c := Run(code, callee, Running(0, [], fr), n);
    if c.Running? {
      PeakBounds(code, 0, c.pc);
      ScanThrough(code, c.pc);
    }
  }
}
