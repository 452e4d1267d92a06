/** The second traversal of a function, which bounds the operand stack
    (hzcc/codegen/jvm/FuncAnalyzer.cc): on straight-line bodies its running
    size never falls below the true height of the emitted code, and its
    maximum is at least the greatest height the code reaches. */
module StackBound {
  import opened Ast
  import opened World
  import opened Jvm
  import opened Labels
  import opened Folding
  import opened CodeSpec
  import opened StackHeight
  import FunctionCorrectness
  import Generator
  import Int32

  // ----- the greatest height of composed code -----

  function Max(a: int, b: int): int {
    if a >= b then a else b
  }

  lemma {:induction false} PeakOn(a: seq<Instr>, b: seq<Instr>, h: nat, h1: nat)
    requires Goes(a, h, h1)
    ensures Peak(a + b, h) == Max(Peak(a, h), Peak(b, h1))
  {
    if a == [] {
      assert a + b == b;
    } else {
      assert (a + b)[1..] == a[1..] + b;
      PeakOn(a[1..], b, h - Pops(a[0]) + Pushes(a[0]), h1);
    }
  }

  lemma PeakCovers(code: seq<Instr>, h: nat, h': nat)
    requires Goes(code, h, h')
    ensures h <= Peak(code, h) && h' <= Peak(code, h)
  {
    PeakBounds(code, h, 0);
    PeakBounds(code, h, |code|);
    assert code[..|code|] == code;
  }

  lemma PeakOne(i: Instr, h: nat)
    requires Fits(i, h)
    ensures Peak([i], h) == Max(h, h - Pops(i) + Pushes(i))
  {
    assert [i][1..] == [];
  }

  lemma PeakTwo(i: Instr, j: Instr, h: nat)
    requires Fits(i, h) && Fits(j, h - Pops(i) + Pushes(i))
    ensures var h1 := h - Pops(i) + Pushes(i);
            Peak([i, j], h) == Max(h, Max(h1, h1 - Pops(j) + Pushes(j)))
  {
    assert [i, j][1..] == [j];
    PeakOne(j, h - Pops(i) + Pushes(i));
  }

  lemma PeakNone(h: nat)
    ensures Peak([], h) == h
  {
  }

  /** A folded operand needs one slot. */
  lemma OperandPeak(env: Env, e: Expr, h: nat)
    ensures Peak(Operand(env, e), h) == if Fold(e).Constant? then h + 1 else Peak(Code(env, e), h)
  {
    if Fold(e).Constant? {
      PeakOne(Push(Fold(e).v), h);
    }
  }

  lemma ArithPeak(env: Env, e: Expr, h: nat)
    requires e.Arith?
    requires Goes(Operand(env, e.l), h, h + 1) && Goes(Operand(env, e.r), h + 1, h + 2)
    ensures Peak(Code(env, e), h) == Max(Peak(Operand(env, e.l), h), Peak(Operand(env, e.r), h + 1))
  {
    hide Scan, Peak, Operand;
    PeakOne(IArith(e.aop), h + 2);
    PeakCovers(Operand(env, e.r), h + 1, h + 2);
    GoesOn(Operand(env, e.l), Operand(env, e.r), h, h + 1, h + 2);
    PeakOn(Operand(env, e.l), Operand(env, e.r), h, h + 1);
    PeakOn(Operand(env, e.l) + Operand(env, e.r), [IArith(e.aop)], h, h + 2);
  }

  lemma NegPeak(env: Env, e: Expr, h: nat)
    requires e.Neg? && Goes(Code(env, e.e), h, h + 1)
    ensures Peak(Code(env, e), h) == Peak(Code(env, e.e), h)
  {
    PeakOne(INeg, h + 1);
    PeakCovers(Code(env, e.e), h, h + 1);
    PeakOn(Code(env, e.e), [INeg], h, h + 1);
  }

  lemma IndexPeak(env: Env, e: Expr, h: nat)
    requires e.Index? && Goes(Operand(env, e.sub), h + 1, h + 2)
    ensures Peak(Code(env, e), h) == Peak(Operand(env, e.sub), h + 1) >= h + 2
  {
    hide Scan, Peak, Operand;
    var base := LoadArray(env, NameOf(e.base));
    PeakOne(base, h);
    PeakOne(IALoad, h + 2);
    PeakCovers(Operand(env, e.sub), h + 1, h + 2);
    GoesOne(base, h);
    GoesOn([base], Operand(env, e.sub), h, h + 1, h + 2);
    PeakOn([base], Operand(env, e.sub), h, h + 1);
    PeakOn([base] + Operand(env, e.sub), [IALoad], h, h + 2);
  }

  /** Entered at `h` the code ends at `h1`, and the greatest height is `m`. */
  ghost predicate Climbs(code: seq<Instr>, h: nat, h1: nat, m: nat) {
    Goes(code, h, h1) && Peak(code, h) == m
  }

  lemma ClimbsOn(a: seq<Instr>, b: seq<Instr>, h: nat, h1: nat, h2: nat, m: nat, n: nat)
    ensures Climbs(a, h, h1, m) && Climbs(b, h1, h2, n) ==> Climbs(a + b, h, h2, Max(m, n))
  {
    hide Goes, Peak;
    if Climbs(a, h, h1, m) && Climbs(b, h1, h2, n) {
      GoesOn(a, b, h, h1, h2);
      PeakOn(a, b, h, h1);
    }
  }

  lemma ClimbsOne(i: Instr, h: nat)
    requires Fits(i, h)
    ensures Climbs([i], h, h - Pops(i) + Pushes(i), Max(h, h - Pops(i) + Pushes(i)))
  {
    GoesOne(i, h);
    PeakOne(i, h);
  }

  lemma ClimbsTwo(i: Instr, j: Instr, h: nat)
    requires Fits(i, h) && Fits(j, h - Pops(i) + Pushes(i))
    ensures var h1 := h - Pops(i) + Pushes(i);
            var h2 := h1 - Pops(j) + Pushes(j);
            Climbs([i, j], h, h2, Max(h, Max(h1, h2)))
  {
    GoesTwo(i, j, h);
    PeakTwo(i, j, h);
  }

  lemma ClimbsNowhere(h: nat)
    ensures Climbs([], h, h, h)
  {
  }

  /** Old value, right-hand side, operation, copy and store of an assignment. */
  lemma ClimbsFive(a: seq<Instr>, b: seq<Instr>, c: seq<Instr>, d: seq<Instr>, e: seq<Instr>,
                   h: nat, h1: nat, h2: nat, h3: nat, h4: nat, h5: nat, m1: nat, m2: nat, m3: nat, m4: nat, m5: nat)
    requires Climbs(a, h, h1, m1) && Climbs(b, h1, h2, m2) && Climbs(c, h2, h3, m3)
    requires Climbs(d, h3, h4, m4) && Climbs(e, h4, h5, m5)
    ensures Climbs(a + b + c + d + e, h, h5, Max(Max(Max(Max(m1, m2), m3), m4), m5))
  {
    hide Climbs;
    ClimbsOn(a, b, h, h1, h2, m1, m2);
    ClimbsOn(a + b, c, h, h2, h3, Max(m1, m2), m3);
    ClimbsOn(a + b + c, d, h, h3, h4, Max(Max(m1, m2), m3), m4);
    ClimbsOn(a + b + c + d, e, h, h4, h5, Max(Max(Max(m1, m2), m3), m4), m5);
  }

  /** The operation of a compound assignment, above `h` slots. */
  lemma ApplyClimbs(op: AssignOp, h: nat)
    ensures var h1 := if op == Set then h + 1 else h + 2;
            Climbs(if op == Set then [] else [IArith(OpOf(op))], h1, h + 1, h1)
  {
    if op == Set {
      ClimbsNowhere(h + 1);
    } else {
      ClimbsOne(IArith(OpOf(op)), h + 2);
    }
  }

  lemma StoreClimbs(env: Env, e: Expr, leave: bool, h: nat)
    requires e.Assign? && IsScalar(env, e.lhs)
    ensures var h1 := if e.sop == Set then h else h + 1;
            Climbs(if e.sop == Set then [] else [LoadVar(env, e.lhs.x)], h, h1, h1)
    ensures var h2 := if leave then h + 2 else h + 1;
            && Climbs(if leave then [Dup] else [], h + 1, h2, h2)
            && Climbs([SaveVar(env, e.lhs.x)], h2, if leave then h + 1 else h, h2)
  {
    hide Climbs;
    if e.sop == Set {
      ClimbsNowhere(h);
    } else {
      ClimbsOne(LoadVar(env, e.lhs.x), h);
    }
    if leave {
      ClimbsOne(Dup, h + 1);
    } else {
      ClimbsNowhere(h + 1);
    }
    ClimbsOne(SaveVar(env, e.lhs.x), if leave then h + 2 else h + 1);
  }

  lemma StoreParts(env: Env, e: Expr, leave: bool)
    requires e.Assign? && e.lhs.Var?
    ensures AssignCode(env, e, leave)
            == (if e.sop == Set then [] else [LoadVar(env, e.lhs.x)]) + Operand(env, e.rhs)
               + (if e.sop == Set then [] else [IArith(OpOf(e.sop))]) + (if leave then [Dup] else [])
               + [SaveVar(env, e.lhs.x)]
  {
    hide Operand, LoadVar, SaveVar, OpOf;
  }

  lemma StorePeak(env: Env, e: Expr, leave: bool, h: nat)
    requires e.Assign? && IsScalar(env, e.lhs)
    requires var h1 := if e.sop == Set then h else h + 1;
             Goes(Operand(env, e.rhs), h1, h1 + 1)
    ensures var h1 := if e.sop == Set then h else h + 1;
            && Peak(AssignCode(env, e, leave), h) == Max(Peak(Operand(env, e.rhs), h1), if leave then h + 2 else h + 1)
            && Peak(Operand(env, e.rhs), h1) >= h1 + 1
  {
    hide AssignCode, Operand, LoadVar, SaveVar, OpOf, Goes, Peak;
    var h1, h2 := if e.sop == Set then h else h + 1, if leave then h + 2 else h + 1;
    StoreParts(env, e, leave);
    StoreClimbs(env, e, leave, h);
    ApplyClimbs(e.sop, h);
    PeakCovers(Operand(env, e.rhs), h1, h1 + 1);
    ClimbsFive(if e.sop == Set then [] else [LoadVar(env, e.lhs.x)], Operand(env, e.rhs),
               if e.sop == Set then [] else [IArith(OpOf(e.sop))], if leave then [Dup] else [], [SaveVar(env, e.lhs.x)],
               h, h1, h1 + 1, h + 1, h2, h2 - 1, h1, Peak(Operand(env, e.rhs), h1), h1 + 1, h2, h2);
  }

  lemma ElementStoreClimbs(env: Env, e: Expr, leave: bool, h: nat)
    requires e.Assign? && e.lhs.Index? && IsArray(env, e.lhs.base)
    ensures Climbs([LoadArray(env, e.lhs.base.x)], h, h + 1, h + 1)
    ensures Climbs(if e.sop == Set then [] else [Dup2, IALoad], h + 2,
                   if e.sop == Set then h + 2 else h + 3, if e.sop == Set then h + 2 else h + 4)
    ensures var h2 := if leave then h + 4 else h + 3;
            && Climbs(if leave then [DupX2] else [], h + 3, h2, h2)
            && Climbs([SaveVar(env, e.lhs.base.x)], h2, if leave then h + 1 else h, h2)
  {
    hide Climbs;
    ClimbsOne(LoadArray(env, e.lhs.base.x), h);
    if e.sop == Set {
      ClimbsNowhere(h + 2);
    } else {
      ClimbsTwo(Dup2, IALoad, h + 2);
    }
    if leave {
      ClimbsOne(DupX2, h + 3);
    } else {
      ClimbsNowhere(h + 3);
    }
    ClimbsOne(SaveVar(env, e.lhs.base.x), if leave then h + 4 else h + 3);
  }

  lemma ElementStoreParts(env: Env, e: Expr, leave: bool)
    requires e.Assign? && e.lhs.Index? && e.lhs.base.Var?
    ensures AssignCode(env, e, leave)
            == [LoadArray(env, e.lhs.base.x)] + Operand(env, e.lhs.sub) + (if e.sop == Set then [] else [Dup2, IALoad])
               + Operand(env, e.rhs) + (if e.sop == Set then [] else [IArith(OpOf(e.sop))])
               + (if leave then [DupX2] else []) + [SaveVar(env, e.lhs.base.x)]
  {
    hide Operand, LoadArray, SaveVar, OpOf;
  }

  lemma ElementStorePeak(env: Env, e: Expr, leave: bool, h: nat)
    requires e.Assign? && e.lhs.Index? && IsArray(env, e.lhs.base)
    requires Goes(Operand(env, e.lhs.sub), h + 1, h + 2)
    requires var h1 := if e.sop == Set then h + 2 else h + 3;
             Goes(Operand(env, e.rhs), h1, h1 + 1)
    ensures var h1 := if e.sop == Set then h + 2 else h + 3;
            && Peak(AssignCode(env, e, leave), h)
               == Max(Max(Peak(Operand(env, e.lhs.sub), h + 1), Peak(Operand(env, e.rhs), h1)),
                      if leave then h + 4 else h + 3)
            && Peak(Operand(env, e.rhs), h1) >= h1 + 1
  {
    hide AssignCode, Operand, LoadArray, SaveVar, OpOf, Goes, Peak;
    var h1, h2 := if e.sop == Set then h + 2 else h + 3, if leave then h + 4 else h + 3;
    var base, load := [LoadArray(env, e.lhs.base.x)], if e.sop == Set then [] else [Dup2, IALoad];
    var m, n := Peak(Operand(env, e.lhs.sub), h + 1), Peak(Operand(env, e.rhs), h1);
    ElementStoreParts(env, e, leave);
    ElementStoreClimbs(env, e, leave, h);
    ApplyClimbs(e.sop, h + 2);
    PeakCovers(Operand(env, e.lhs.sub), h + 1, h + 2);
    PeakCovers(Operand(env, e.rhs), h1, h1 + 1);
    var m1 := if e.sop == Set then h + 2 else h + 4;
    ClimbsOn(base, Operand(env, e.lhs.sub), h, h + 1, h + 2, h + 1, m);
    ClimbsOn(base + Operand(env, e.lhs.sub), load, h, h + 2, h1, Max(h + 1, m), m1);
    ClimbsFive(base + Operand(env, e.lhs.sub) + load, Operand(env, e.rhs),
               if e.sop == Set then [] else [IArith(OpOf(e.sop))], if leave then [DupX2] else [],
               [SaveVar(env, e.lhs.base.x)], h, h1, h1 + 1, h + 3, h2, if leave then h + 1 else h,
               Max(Max(h + 1, m), m1), n, h1 + 1, h2, h2);
  }

  /** An increment of a local needs one slot if its value is wanted, one of a global at most three. */
  lemma BumpPeak(env: Env, op: IncDecOp, x: string, leave: bool, h: nat)
    requires env.Known(x, Scalar)
    ensures Peak(Bump(env, op, x, leave), h) <= h + 3
    ensures x !in env.globalKinds ==> Peak(Bump(env, op, x, leave), h) == if leave then h + 1 else h
  {
    hide Scan, Peak, Goes, Bump;
    ScalarAccess(env, x, h);
    if x !in env.globalKinds && x in env.slots {
      SlotBumpPeak(env, op, x, leave, h);
    } else {
      StaticBumpPeak(env, op, x, leave, h);
    }
  }

  lemma ScalarAccess(env: Env, x: string, h: nat)
    requires env.Known(x, Scalar)
    ensures Goes([LoadVar(env, x)], h, h + 1) && Peak([LoadVar(env, x)], h) == h + 1
    ensures Peak([SaveVar(env, x)], h + 1) == h + 1 && Peak([SaveVar(env, x)], h + 2) == h + 2
  {
    GoesOne(LoadVar(env, x), h);
    PeakOne(LoadVar(env, x), h);
    PeakOne(SaveVar(env, x), h + 1);
    PeakOne(SaveVar(env, x), h + 2);
  }

  lemma SlotBumpPeak(env: Env, op: IncDecOp, x: string, leave: bool, h: nat)
    requires x !in env.globalKinds && x in env.slots
    requires Goes([LoadVar(env, x)], h, h + 1) && Peak([LoadVar(env, x)], h) == h + 1
    ensures Peak(Bump(env, op, x, leave), h) == if leave then h + 1 else h
  {
    hide Scan, Peak, Goes, LoadVar;
    GoesNowhere();
    PeakNone(h); PeakNone(h + 1);
    var up, pre := op == PreInc || op == PostInc, op == PreInc || op == PreDec;
    var before, after := if leave && !pre then [LoadVar(env, x)] else [], if leave && pre then [LoadVar(env, x)] else [];
    var inc := IInc(env.slots[x], if up then 1 else -1);
    var h2 := if leave && !pre then h + 1 else h;
    GoesOne(inc, h2);
    PeakOne(inc, h2);
    GoesOn(before, [inc], h, h2, h2);
    PeakOn(before, [inc], h, h2);
    PeakOn(before + [inc], after, h, h2);
  }

  lemma StaticBumpPeak(env: Env, op: IncDecOp, x: string, leave: bool, h: nat)
    requires !(x !in env.globalKinds && x in env.slots)
    requires Goes([LoadVar(env, x)], h, h + 1) && Peak([LoadVar(env, x)], h) == h + 1
    requires Peak([SaveVar(env, x)], h + 1) == h + 1 && Peak([SaveVar(env, x)], h + 2) == h + 2
    ensures Peak(Bump(env, op, x, leave), h) == if leave && (op == PostInc || op == PostDec) then h + 3 else h + 2
  {
    hide Scan, Peak, Goes, LoadVar, SaveVar;
    GoesNowhere();
    PeakNone(h + 1); PeakNone(h + 2);
    var up, pre := op == PreInc || op == PostInc, op == PreInc || op == PreDec;
    var before, after := if leave && !pre then [Dup] else [], if leave && pre then [Dup] else [];
    var add := IArith(if up then Add else Sub);
    var h1, h2 := if leave then h + 1 else h, if leave && !pre then h + 2 else h + 1;
    GoesOne(Dup, h + 1);
    PeakOne(Dup, h + 1);
    GoesTwo(Push(1), add, h2);
    PeakTwo(Push(1), add, h2);
    GoesOn([LoadVar(env, x)], before, h, h + 1, h2);
    PeakOn([LoadVar(env, x)], before, h, h + 1);
    GoesOn([LoadVar(env, x)] + before, [Push(1), add], h, h2, h2);
    PeakOn([LoadVar(env, x)] + before, [Push(1), add], h, h2);
    GoesOn([LoadVar(env, x)] + before + [Push(1), add], after, h, h2, h1 + 1);
    PeakOn([LoadVar(env, x)] + before + [Push(1), add], after, h, h2);
    PeakOn([LoadVar(env, x)] + before + [Push(1), add] + after, [SaveVar(env, x)], h, h1 + 1);
  }

  // ----- what the analyser counts -----

  type Table = seq<(string, VarKind)>

  /** The first entry for a name in the analyser's symbol table. */
  function LocalKind(table: Table, x: string): Option<VarKind> {
    if table == [] then None
    else if table[0].0 == x then Some(table[0].1)
    else LocalKind(table[1..], x)
  }

  function TableKind(env: Env, table: Table, x: string): Option<VarKind> {
    if LocalKind(table, x).Some? then LocalKind(table, x)
    else if x in env.globalKinds then Some(env.globalKinds[x])
    else None
  }

  /** The table has the name's own kind. A name it does not have stops the analyser. */
  predicate Resolves(env: Env, table: Table, x: string) {
    forall kind :: env.Known(x, kind) ==> TableKind(env, table, x) == Some(kind)
  }

  predicate Resolved(env: Env, table: Table, e: Expr) {
    match e
    case Lit(_) => true
    case Var(x) => Resolves(env, table, x)
    case Arith(_, l, r) => Resolved(env, table, l) && Resolved(env, table, r)
    case Neg(e1) => Resolved(env, table, e1)
    case Call(_, args) => forall i :: 0 <= i < |args| ==> Resolved(env, table, args[i])
    case Index(base, sub) => Resolved(env, table, base) && Resolved(env, table, sub)
    case Assign(_, l, r) => Resolved(env, table, l) && Resolved(env, table, r)
    case IncDec(_, e1) => Resolved(env, table, e1)
    case Rel(_, l, r) => Resolved(env, table, l) && Resolved(env, table, r)
    case Logic(_, l, r) => Resolved(env, table, l) && Resolved(env, table, r)
  }

  /** Assignments stand only where the analyser counts their value as staying
      on the stack. */
  predicate Counted(e: Expr, leave: bool)
    decreases e, 1
  {
    match e
    case Arith(_, l, r) => Counted(l, leave) && Counted(r, leave)
    case Neg(e1) => Counted(e1, leave)
    case Call(_, args) => forall i :: 0 <= i < |args| ==> Counted(args[i], leave)
    case Index(_, sub) => Counted(sub, leave)
    case Assign(_, _, _) => leave && CountedAssign(e, leave)
    case _ => true
  }

  predicate CountedAssign(e: Expr, leave: bool)
    requires e.Assign?
    decreases e, 0
  {
    Counted(e.rhs, true) && (e.lhs.Index? ==> Counted(e.lhs.sub, leave))
  }

  /** No increment of a global, and no operation that is folded away: these the
      analyser counts differently from the code. */
  predicate Plain(env: Env, e: Expr) {
    && (Fold(e).Constant? ==> e.Lit?)
    && match e
       case Arith(_, l, r) => Plain(env, l) && Plain(env, r)
       case Neg(e1) => Plain(env, e1)
       case Call(_, args) => forall i :: 0 <= i < |args| ==> Plain(env, args[i])
       case Index(_, sub) => Plain(env, sub)
       case Assign(_, lhs, rhs) => (lhs.Index? ==> Plain(env, lhs.sub)) && Plain(env, rhs)
       case IncDec(_, target) => NameOf(target) !in env.globalKinds
       case _ => true
  }

  /** Nor an increment whose value nobody uses, nor anything behind a `return`:
      both are left on the analyser's stack. */
  predicate PlainStmt(env: Env, s: Stmt) {
    match s
    case ExprStmt(e) => Plain(env, e) && !e.IncDec?
    case Decl(_, Some(e)) => Plain(env, e)
    case Compound(body) => PlainBody(env, body)
    case Return(Some(e)) => Plain(env, e)
    case _ => true
  }

  predicate PlainBody(env: Env, ss: seq<Stmt>) {
    ss == [] || (PlainStmt(env, ss[0]) && (|ss| > 1 ==> !Returns(ss[0])) && PlainBody(env, ss[1..]))
  }

  predicate PlainAll(env: Env, args: seq<Expr>) {
    forall i :: 0 <= i < |args| ==> Plain(env, args[i])
  }

  predicate ArrayFreeAll(args: seq<Expr>) {
    forall i :: 0 <= i < |args| ==> ArrayFree(args[i])
  }

  lemma PlainOperand(env: Env, e: Expr)
    ensures Plain(env, e) ==> Operand(env, e) == Code(env, e)
  {
  }

  lemma PlainParts(env: Env, e: Expr)
    requires Plain(env, e)
    ensures e.Arith? ==> Plain(env, e.l) && Plain(env, e.r)
    ensures e.Neg? ==> Plain(env, e.e)
    ensures e.Call? ==> PlainAll(env, e.args)
    ensures e.Index? ==> Plain(env, e.sub)
    ensures e.Assign? ==> Plain(env, e.rhs) && (e.lhs.Index? ==> Plain(env, e.lhs.sub))
    ensures e.IncDec? ==> NameOf(e.target) !in env.globalKinds
  {
  }

  /** The symbol table after a statement. */
  function Declares(table: Table, s: Stmt): Table
    decreases s
  {
    match s
    case Decl(x, _) => table + [(x, Scalar)]
    case ArrayDecl(x, _) => table + [(x, Array)]
    case Compound(body) => DeclaresAll(table, body)
    case _ => table
  }

  function DeclaresAll(table: Table, ss: seq<Stmt>): Table
    decreases ss
  {
    if ss == [] then table else DeclaresAll(Declares(table, ss[0]), ss[1..])
  }

  /** Straight-line statements of the fragment, names declared before use. A
      call is no initialiser here: the analyser takes its result off twice. */
  predicate StraightLine(env: Env, table: Table, s: Stmt)
    decreases s
  {
    match s
    case Empty => true
    case ExprStmt(e) =>
      && IsEffect(env, e) && Resolved(env, table, e)
      && (if e.Assign? then CountedAssign(e, false) else Counted(e, false))
    case Decl(x, init) =>
      && x in env.slots && env.Known(x, Scalar) && Resolves(env, table + [(x, Scalar)], x)
      && (init.Some? ==>
            && IsInit(env, init.value) && !init.value.Call?
            && Counted(init.value, false) && Resolved(env, table + [(x, Scalar)], init.value))
    case ArrayDecl(x, size) => x in env.slots && x !in env.globalKinds && env.Known(x, Array) && Int32.Fits(size)
    case Compound(body) => AllStraight(env, table, body)
    case Return(Some(e)) => IsValue(env, e, false) && Counted(e, true) && Resolved(env, table, e)
    case _ => false
  }

  predicate AllStraight(env: Env, table: Table, ss: seq<Stmt>)
    decreases ss
  {
    ss == [] || (StraightLine(env, table, ss[0]) && AllStraight(env, Declares(table, ss[0]), ss[1..]))
  }

  /** Does a `return` occur? */
  predicate Returns(s: Stmt) {
    match s
    case Return(_) => true
    case Compound(body) => AnyReturns(body)
    case _ => false
  }

  predicate AnyReturns(ss: seq<Stmt>) {
    ss != [] && (Returns(ss[0]) || AnyReturns(ss[1..]))
  }

  /** Straight-line bodies are bodies of the fragment. */
  lemma {:induction false} StraightAnywhere(env: Env, table: Table, s: Stmt, around: Around)
    ensures StraightLine(env, table, s) ==> InFragment(env, s, around)
    decreases s
  {
    if s.Compound? {
      AllStraightAnywhere(env, table, s.body, around);
    }
  }

  lemma {:induction false} AllStraightAnywhere(env: Env, table: Table, ss: seq<Stmt>, around: Around)
    ensures AllStraight(env, table, ss) ==> forall i :: 0 <= i < |ss| ==> InFragment(env, ss[i], around)
    decreases ss
  {
    if ss != [] {
      StraightAnywhere(env, table, ss[0], around);
      AllStraightAnywhere(env, Declares(table, ss[0]), ss[1..], around);
      assert forall i :: 0 < i < |ss| ==> ss[i] == ss[1..][i - 1];
    }
  }

  /** A value the analyser counts, in the present context. */
  predicate Countable(env: Env, table: Table, e: Expr, leave: bool) {
    (IsValue(env, e, false) && Counted(e, leave) && Resolved(env, table, e)) == true
  }

  predicate CountableAll(env: Env, table: Table, args: seq<Expr>, leave: bool) {
    forall i :: 0 <= i < |args| ==> Countable(env, table, args[i], leave)
  }

  predicate CountableAssign(env: Env, table: Table, e: Expr, leave: bool)
    requires e.Assign?
  {
    (IsAssignment(env, e) && CountedAssign(e, leave) && Resolved(env, table, e)) == true
  }

  lemma CountableParts(env: Env, table: Table, e: Expr, leave: bool)
    requires Countable(env, table, e, leave)
    ensures e.Var? ==> env.Known(e.x, Scalar) && Resolves(env, table, e.x)
    ensures e.Arith? ==> Countable(env, table, e.l, leave) && Countable(env, table, e.r, leave)
    ensures e.Neg? ==> Countable(env, table, e.e, leave)
    ensures e.Call? ==>
              KnownCall(env, e.f, |e.args|) && !env.funcs[e.f].isVoid && CountableAll(env, table, e.args, leave)
    ensures e.Index? ==> IsArray(env, e.base) && Countable(env, table, e.sub, leave)
    ensures e.Assign? ==> leave && CountableAssign(env, table, e, leave)
    ensures e.IncDec? ==> IsScalar(env, e.target) && Resolves(env, table, e.target.x)
    ensures !e.Rel? && !e.Logic?
  {
    if e.IncDec? {
      assert Resolved(env, table, e.target);
    }
  }

  lemma AssignParts(env: Env, table: Table, e: Expr, leave: bool)
    requires e.Assign? && CountableAssign(env, table, e, leave)
    ensures Countable(env, table, e.rhs, true)
    ensures IsScalar(env, e.lhs) || (e.lhs.Index? && IsArray(env, e.lhs.base))
    ensures e.lhs.Var? ==> Resolves(env, table, e.lhs.x)
    ensures e.lhs.Index? ==>
              Resolves(env, table, e.lhs.base.x) && Countable(env, table, e.lhs.sub, leave) && ArrayFree(e.lhs.sub)
  {
    assert Resolved(env, table, e.lhs);
    if e.lhs.Index? {
      assert Resolved(env, table, e.lhs.base);
    }
  }

  /** The heights around a countable value. */
  lemma CountableHeight(env: Env, table: Table, e: Expr, leave: bool, h: nat)
    requires Countable(env, table, e, leave)
    ensures Goes(Operand(env, e), h, h + 1) && Goes(Code(env, e), h, h + 1)
  {
    OperandHeight(env, e, false, h);
    CodeHeight(env, e, false, h);
  }

  /** What an assignment to a scalar needs, told by its right-hand side. */
  lemma StoreFacts(env: Env, table: Table, e: Expr, leave: bool, h: nat)
    requires e.Assign? && IsScalar(env, e.lhs) && Countable(env, table, e.rhs, true)
    ensures var h1 := if e.sop == Set then h else h + 1;
            var m := Peak(Operand(env, e.rhs), h1);
            && Peak(AssignCode(env, e, leave), h) == Max(m, if leave then h + 2 else h + 1) && m >= h1 + 1
    ensures Plain(env, e) ==> Plain(env, e.rhs) && Operand(env, e.rhs) == Code(env, e.rhs)
  {
    hide Plain, Peak, Code, AssignCode, Operand, Countable, Goes;
    var h1 := if e.sop == Set then h else h + 1;
    CountableHeight(env, table, e.rhs, true, h1);
    StorePeak(env, e, leave, h);
    if Plain(env, e) {
      PlainParts(env, e);
      PlainOperand(env, e.rhs);
    }
  }

  lemma ElementStoreFacts(env: Env, table: Table, e: Expr, leave: bool, h: nat)
    requires e.Assign? && e.lhs.Index? && IsArray(env, e.lhs.base)
    requires Countable(env, table, e.lhs.sub, leave) && Countable(env, table, e.rhs, true)
    ensures var h1 := if e.sop == Set then h + 2 else h + 3;
            var m := Peak(Operand(env, e.rhs), h1);
            && Peak(AssignCode(env, e, leave), h)
               == Max(Max(Peak(Operand(env, e.lhs.sub), h + 1), m), if leave then h + 4 else h + 3)
            && m >= h1 + 1
    ensures Plain(env, e) ==> Plain(env, e.rhs) && Operand(env, e.rhs) == Code(env, e.rhs) && Plain(env, e.lhs.sub)
  {
    hide Plain, Peak, Code, AssignCode, Operand, Countable, Goes;
    var h1 := if e.sop == Set then h + 2 else h + 3;
    CountableHeight(env, table, e.lhs.sub, leave, h + 1);
    CountableHeight(env, table, e.rhs, true, h1);
    ElementStorePeak(env, e, leave, h);
    if Plain(env, e) {
      PlainParts(env, e);
      PlainOperand(env, e.rhs);
    }
  }

  lemma ArrayFreeStore(e: Expr)
    requires e.Assign?
    ensures ArrayFree(e) ==> ArrayFree(e.rhs)
  {
  }

  lemma CallPeak(env: Env, e: Expr, h: nat)
    requires e.Call? && KnownCall(env, e.f, |e.args|)
    requires Goes(Arguments(env, e.args), h, h + |e.args|)
    ensures Peak(Code(env, e), h)
         == Max(Peak(Arguments(env, e.args), h), if env.funcs[e.f].isVoid then h else h + 1)
  {
    hide Scan, Peak, Arguments;
    var call := InvokeStatic(e.f, SigOf(env, e.f));
    PeakOne(call, h + |e.args|);
    PeakCovers(Arguments(env, e.args), h, h + |e.args|);
    PeakOn(Arguments(env, e.args), [call], h, h + |e.args|);
  }

  /** One more argument behind those already pushed. */
  lemma ArgumentsGrow(env: Env, args: seq<Expr>, i: nat, h: nat)
    requires i < |args| && Goes(Arguments(env, args[..i]), h, h + i)
    requires Goes(Operand(env, args[i]), h + i, h + i + 1)
    ensures Goes(Arguments(env, args[..i + 1]), h, h + i + 1)
    ensures Peak(Arguments(env, args[..i + 1]), h)
         == Max(Peak(Arguments(env, args[..i]), h), Peak(Operand(env, args[i]), h + i))
  {
    hide Scan, Peak, Operand, Arguments;
    assert args[..i + 1] == args[..i] + [args[i]];
    Generator.ArgumentsSnoc(env, args[..i], args[i]);
    GoesOn(Arguments(env, args[..i]), Operand(env, args[i]), h, h + i, h + i + 1);
    PeakOn(Arguments(env, args[..i]), Operand(env, args[i]), h, h + i);
  }

  /** Code that leaves one value, and one more instruction that takes it. */
  lemma TakePeak(code: seq<Instr>, i: Instr)
    requires Goes(code, 0, 1) && Pops(i) == 1 && Pushes(i) == 0
    ensures Peak(code + [i], 0) == Peak(code, 0) >= 1
  {
    PeakCovers(code, 0, 1);
    PeakOne(i, 1);
    PeakOn(code, [i], 0, 1);
  }

  lemma NewArrayPeak(env: Env, n: int, x: string)
    ensures Peak([Push(n), NewArray, SaveArray(env, x)], 0) == 1
  {
    var save := SaveArray(env, x);
    assert [Push(n), NewArray, save][1..] == [NewArray, save];
    PeakTwo(NewArray, save, 1);
  }

  /** What the analyser has counted so far. */
  datatype Tally = Tally(table: Table, returned: bool, size: int, top: int)

  /** From `start` on, above `h` slots, the first `i` arguments have been looked at. */
  ghost predicate Loaded(env: Env, args: seq<Expr>, i: nat, h: nat, start: Tally, names0: seq<string>,
                         now: Tally, names: seq<string>)
    requires i <= |args|
  {
    var code := Arguments(env, args[..i]);
    && h + i <= now.size <= now.top && start.top <= now.top
    && names0 <= names && (ArrayFreeAll(args) ==> names == names0)
    && Goes(code, h, h + i) && Peak(code, h) <= now.top
    && (PlainAll(env, args) ==> now.size == start.size + i && now.top == Max(start.top, start.size + Peak(code, h) - h))
  }

  lemma NothingLoaded(env: Env, args: seq<Expr>, h: nat, start: Tally, names0: seq<string>)
    requires h <= start.size <= start.top
    ensures Loaded(env, args, 0, h, start, names0, start, names0)
  {
    assert args[..0] == [];
  }

  lemma LoadedSize(env: Env, args: seq<Expr>, i: nat, h: nat, start: Tally, names0: seq<string>,
                   now: Tally, names: seq<string>)
    requires i <= |args| && Loaded(env, args, i, h, start, names0, now, names)
    ensures h + i <= now.size <= now.top
  {
  }

  lemma OneMoreLoaded(env: Env, args: seq<Expr>, i: nat, h: nat, start: Tally, names0: seq<string>,
                      before: Tally, names1: seq<string>, now: Tally, names: seq<string>)
    requires i < |args| && Loaded(env, args, i, h, start, names0, before, names1)
    requires Goes(Operand(env, args[i]), h + i, h + i + 1) && Peak(Operand(env, args[i]), h + i) <= now.top
    requires h + i + 1 <= now.size <= now.top && before.top <= now.top
    requires names1 <= names && (ArrayFree(args[i]) ==> names == names1)
    requires Plain(env, args[i]) ==>
               && now.size == before.size + 1
               && now.top == Max(before.top, before.size + Peak(Code(env, args[i]), h + i) - (h + i))
    ensures Loaded(env, args, i + 1, h, start, names0, now, names)
  {
    hide Peak, Operand, Code, Goes, Arguments, ArrayFree, Plain;
    PlainOperand(env, args[i]);
    ArgumentsGrow(env, args, i, h);
  }

  lemma AllLoaded(env: Env, args: seq<Expr>, h: nat, start: Tally, names0: seq<string>, now: Tally, names: seq<string>)
    requires Loaded(env, args, |args|, h, start, names0, now, names)
    ensures h + |args| <= now.size <= now.top && start.top <= now.top
    ensures names0 <= names && (ArrayFreeAll(args) ==> names == names0)
    ensures Goes(Arguments(env, args), h, h + |args|) && Peak(Arguments(env, args), h) <= now.top
    ensures PlainAll(env, args) ==>
              && now.size == start.size + |args|
              && now.top == Max(start.top, start.size + Peak(Arguments(env, args), h) - h)
  {
    hide Peak, Goes, Arguments, PlainAll, ArrayFreeAll;
    assert args[..|args|] == args;
  }

  /** The code of a straight-line statement starts and ends with an empty stack. */
  lemma {:induction false} StraightLevel(env: Env, table: Table, s: Stmt, sc: seq<Scope>, k: nat)
    requires StraightLine(env, table, s)
    ensures Level(StmtCode(env, s, sc, k))
  {
    StraightAnywhere(env, table, s, LoopAround(sc));
    StmtHeight(env, s, sc, k);
  }

  /** The next statement of a body, behind the code already looked at. */
  lemma BodyPeak(env: Env, ss: seq<Stmt>, sc: seq<Scope>, k: nat, done: seq<Instr>)
    requires ss != [] && Goes(done, 0, 0) && Level(StmtCode(env, ss[0], sc, k + 1))
    ensures var next := done + [Label(LineLabel(k))] + StmtCode(env, ss[0], sc, k + 1);
            && Goes(next, 0, 0) && Peak(next, 0) == Max(Peak(done, 0), Peak(StmtCode(env, ss[0], sc, k + 1), 0))
            && next + BodyCode(env, ss[1..], sc, k + 1 + Lines(ss[0])) == done + BodyCode(env, ss, sc, k)
  {
    Generator.BodyUnfolds(env, ss, sc, k, done);
    hide Peak, Scan, StmtCode, BodyCode, LineLabel;
    var line, code := [Label(LineLabel(k))], StmtCode(env, ss[0], sc, k + 1);
    GoesOne(Label(LineLabel(k)), 0);
    PeakOne(Label(LineLabel(k)), 0);
    GoesOn(done, line, 0, 0, 0);
    PeakOn(done, line, 0, 0);
    GoesOn(done + line, code, 0, 0, 0);
    PeakOn(done + line, code, 0, 0);
  }

  /** A body is its first statement and the rest. */
  lemma NextStatement(env: Env, table: Table, ss: seq<Stmt>, sc: seq<Scope>, k: nat)
    requires ss != [] && AllStraight(env, table, ss)
    ensures StraightLine(env, table, ss[0]) && AllStraight(env, Declares(table, ss[0]), ss[1..])
    ensures DeclaresAll(table, ss) == DeclaresAll(Declares(table, ss[0]), ss[1..])
    ensures AnyReturns(ss) == (Returns(ss[0]) || AnyReturns(ss[1..]))
    ensures Level(StmtCode(env, ss[0], sc, k + 1))
  {
    StraightLevel(env, table, ss[0], sc, k + 1);
  }

  lemma NextPlain(env: Env, ss: seq<Stmt>)
    requires ss != [] && PlainBody(env, ss)
    ensures PlainStmt(env, ss[0]) && PlainBody(env, ss[1..])
    ensures |ss| > 1 ==> !Returns(ss[0])
    ensures AnyReturns(ss) == if |ss| > 1 then AnyReturns(ss[1..]) else Returns(ss[0])
  {
    hide PlainStmt, Returns;
  }

  lemma NoStatement(env: Env, table: Table, sc: seq<Scope>, k: nat)
    ensures DeclaresAll(table, []) == table && !AnyReturns([]) && BodyCode(env, [], sc, k) == []
  {
  }

  /** From `start` on, the statements of `body` in front of `rest`, whose code is
      `done`, have been looked at. */
  ghost predicate Looked(env: Env, start: Tally, body: seq<Stmt>, sc: seq<Scope>, k: nat,
                         now: Tally, rest: seq<Stmt>, done: seq<Instr>, k1: nat) {
    && AllStraight(env, now.table, rest)
    && DeclaresAll(start.table, body) == DeclaresAll(now.table, rest)
    && (start.returned || AnyReturns(body)) == (now.returned || AnyReturns(rest))
    && done + BodyCode(env, rest, sc, k1) == BodyCode(env, body, sc, k)
    && Goes(done, 0, 0) && Peak(done, 0) <= now.top && start.top <= now.top
    && (PlainBody(env, body) ==>
          && PlainBody(env, rest) && now.top == Max(start.top, start.size + Peak(done, 0))
          && (if rest == [] then now.size == (if AnyReturns(body) then start.size + 1 else start.size)
              else now.size == start.size && AnyReturns(rest) == AnyReturns(body)))
  }

  lemma NothingLooked(env: Env, start: Tally, body: seq<Stmt>, sc: seq<Scope>, k: nat)
    requires AllStraight(env, start.table, body) && 0 <= start.size <= start.top
    ensures Looked(env, start, body, sc, k, start, body, [], k)
  {
    hide AllStraight, DeclaresAll, BodyCode, PlainBody;
    assert [] + BodyCode(env, body, sc, k) == BodyCode(env, body, sc, k);
  }

  lemma MoreToLook(env: Env, start: Tally, body: seq<Stmt>, sc: seq<Scope>, k: nat,
                   now: Tally, rest: seq<Stmt>, done: seq<Instr>, k1: nat)
    requires Looked(env, start, body, sc, k, now, rest, done, k1) && rest != []
    ensures StraightLine(env, now.table, rest[0])
  {
    hide BodyCode, PlainBody, DeclaresAll, AnyReturns, Peak, Goes;
  }

  lemma OneMoreLooked(env: Env, start: Tally, body: seq<Stmt>, sc: seq<Scope>, k: nat,
                      before: Tally, rest: seq<Stmt>, done: seq<Instr>, k1: nat, now: Tally)
    requires Looked(env, start, body, sc, k, before, rest, done, k1) && rest != []
    requires now.table == Declares(before.table, rest[0])
    requires now.returned == (before.returned || Returns(rest[0]))
    requires now.top >= before.top && now.top >= Peak(StmtCode(env, rest[0], sc, k1 + 1), 0)
    requires PlainStmt(env, rest[0]) ==>
               && now.size == (if Returns(rest[0]) then before.size + 1 else before.size)
               && now.top == Max(before.top, before.size + Peak(StmtCode(env, rest[0], sc, k1 + 1), 0))
    ensures Looked(env, start, body, sc, k, now, rest[1..],
                   done + [Label(LineLabel(k1))] + StmtCode(env, rest[0], sc, k1 + 1), k1 + 1 + Lines(rest[0]))
  {
    hide Peak, StmtCode, BodyCode, Goes, StraightLine, AllStraight, Declares, DeclaresAll, Returns, AnyReturns, LineLabel,
         PlainStmt, PlainBody;
    if PlainBody(env, rest) {
      NextPlain(env, rest);
    }
    NextStatement(env, before.table, rest, sc, k1);
    BodyPeak(env, rest, sc, k1, done);
  }

  lemma AllLooked(env: Env, start: Tally, body: seq<Stmt>, sc: seq<Scope>, k: nat,
                  now: Tally, done: seq<Instr>, k1: nat)
    requires Looked(env, start, body, sc, k, now, [], done, k1)
    ensures now.table == DeclaresAll(start.table, body) && now.top >= start.top
    ensures now.returned == (start.returned || AnyReturns(body))
    ensures Peak(BodyCode(env, body, sc, k), 0) <= now.top
    ensures PlainBody(env, body) ==>
              && now.size == (if AnyReturns(body) then start.size + 1 else start.size)
              && now.top == Max(start.top, start.size + Peak(BodyCode(env, body, sc, k), 0))
  {
    hide Peak, Goes, AllStraight, PlainBody;
    NoStatement(env, now.table, sc, k1);
    assert done + [] == done;
  }

  lemma MethodPeak(env: Env, table: Table, body: seq<Stmt>)
    requires AllStraight(env, table, body)
    ensures Peak(FunctionCorrectness.MethodCode(env, body), 0) == Peak(BodyCode(env, body, [], 0), 0)
  {
    hide Peak, BodyCode, InFragment, Scan, AllStraight;
    AllStraightAnywhere(env, table, body, LoopAround([]));
    BodyHeight(env, body, [], 0);
    var last := if FunctionCorrectness.EndsInReturn(body) then [] else [Instr.Return];
    PeakNone(0);
    PeakOne(Instr.Return, 0);
    PeakOn(BodyCode(env, body, [], 0), last, 0, 0);
  }

  /** Assignments and increments whose value is wanted. */
  lemma WantedCode(env: Env, e: Expr)
    ensures e.Assign? ==> Code(env, e) == AssignCode(env, e, true)
    ensures e.IncDec? ==> Code(env, e) == Bump(env, e.iop, NameOf(e.target), true)
  {
    hide AssignCode, Bump;
  }

  lemma PushPeak(env: Env, e: Expr, h: nat)
    requires e.Lit? || (e.Var? && env.Known(e.x, Scalar))
    ensures Peak(Code(env, e), h) == h + 1
  {
    if e.Lit? {
      PeakOne(Push(e.n), h);
    } else {
      PeakOne(LoadVar(env, e.x), h);
    }
  }

  class FuncAnalyzer {
    /** The types of names, as the tree carries them; its global table is the analyser's. */
    const types: Env

    var locals: Table
    var names: seq<string>
    var generateLoad: bool
    var requestLeave: bool
    var hasReturn: bool
    var size: int
    var top: int

    constructor (types: Env)
      ensures this.types == types && locals == [] && names == []
      ensures !generateLoad && !requestLeave && !hasReturn && size == 0 && top == 0
    {
      this.types := types;
      locals, names := [], [];
      generateLoad, requestLeave, hasReturn := false, false, false;
      size, top := 0, 0;
    }

    /** The running size covers the true height `h`, and the maximum covers the running size. */
    predicate Covers(h: nat)
      reads this`size, this`top
    {
      h <= size <= top
    }

    /** Flags and tables are as they were. */
    twostate predicate SameContext()
      reads this
    {
      && generateLoad == old(generateLoad) && requestLeave == old(requestLeave)
      && locals == old(locals) && hasReturn == old(hasReturn)
    }

    /** The running size moves as the true height from `h` to `h1`, and the
        maximum rises to just what code that reaches `m` needs. */
    twostate predicate Rises(h: nat, h1: nat, m: nat)
      reads this`size, this`top
    {
      size == old(size) + h1 - h && top == Max(old(top), old(size) + m - h)
    }

    method ModifyStackSize(n: int)
      modifies this`size, this`top
      ensures size == old(size) + n
      ensures top == Max(old(top), size)
    {
      size := size + n;
      if size > top {
        top := size;
      }
    }

    method DecreaseCurrentStack(n: nat)
      modifies this`size
      ensures size == old(size) - n
    {
      size := size - n;
    }

    /** What loading a name adds; the name must be in a table. */
    function LoadFromVariable(x: string): int
      reads this`locals
      requires TableKind(types, locals, x).Some?
    {
      if LocalKind(locals, x) == Some(Array) then -1 else 1
    }

    function SaveToVariable(x: string): int
      reads this`locals
      requires TableKind(types, locals, x).Some?
    {
      if TableKind(types, locals, x) == Some(Array) then -3 else -1
    }

    method ConsumeReturnStack() returns (x: string)
      requires names != []
      modifies this`names
      ensures x == old(names[|names| - 1]) && names == old(names[..|names| - 1])
    {
      x := names[|names| - 1];
      names := names[..|names| - 1];
    }

    /** After visiting a value at true height `h`: the running size covers one
        slot more, and the maximum covers every height on the way. */
    twostate predicate Added(e: Expr, h: nat)
      reads this
    {
      && SameContext() && Covers(h + 1) && top >= old(top)
      && old(names) <= names && (ArrayFree(e) ==> names == old(names))
      && Peak(Code(types, e), h) <= top && Peak(Operand(types, e), h) <= top
      && (Plain(types, e) ==> Rises(h, h + 1, Peak(Code(types, e), h)))
    }

    /** Visits under HZCC_JVM_GENERATE_LOAD_INSTR. */
    method VisitLoaded(e: Expr, ghost h: nat)
      requires Countable(types, locals, e, requestLeave) && Covers(h)
      modifies this
      ensures Added(e, h)
      decreases e, 4
    {
      var wasLoading := generateLoad;
      generateLoad := true;
      VisitValue(e, h);
      generateLoad := wasLoading;
    }

    method VisitValue(e: Expr, ghost h: nat)
      requires Countable(types, locals, e, requestLeave) && Covers(h)
      requires generateLoad || (!e.Var? && !e.Index? && !e.Call?)
      modifies this
      ensures Added(e, h)
      decreases e, 3
    {
      hide Peak, Code, Operand, Countable, Resolves, Goes, Fold, Plain, Env.Known, AssignCode, Bump, ArrayFreeAll;
      CountableParts(types, locals, e, requestLeave);
      WantedCode(types, e);
      if Plain(types, e) {
        PlainParts(types, e);
      }
      match e {
        case Lit(_) =>
          ModifyStackSize(1);
          PushPeak(types, e, h);
        case Var(x) => VisitDeclRef(e, h);
        case Arith(_, _, _) => VisitArith(e, h);
        case Neg(_) => VisitNeg(e, h);
        case Call(_, _) => VisitCall(e, h);
        case Index(_, _) => VisitIndex(e, h);
        case Assign(_, _, _) => VisitAssign(e, h);
        case IncDec(_, _) => VisitUnary(e, h);
        case _ =>
      }
      OperandPeak(types, e, h);
    }

    /** A name under a load request. */
    method VisitDeclRef(e: Expr, ghost h: nat)
      requires e.Var? && types.Known(e.x, Scalar) && Resolves(types, locals, e.x) && Covers(h)
      modifies this
      ensures SameContext() && names == old(names) && Covers(h + 1) && top >= old(top)
      ensures Peak(Code(types, e), h) <= top && Rises(h, h + 1, Peak(Code(types, e), h))
    {
      ModifyStackSize(LoadFromVariable(e.x));
      PushPeak(types, e, h);
    }

    method VisitArith(e: Expr, ghost h: nat)
      requires e.Arith? && Countable(types, locals, e, requestLeave) && Covers(h)
      modifies this
      ensures SameContext() && Covers(h + 1) && top >= old(top)
      ensures old(names) <= names && (ArrayFree(e) ==> names == old(names))
      ensures Peak(Code(types, e), h) <= top
      ensures Plain(types, e) ==> Rises(h, h + 1, Peak(Code(types, e), h))
      decreases e, 0
    {
      hide Peak, Code, Operand, Countable, Goes, Plain;
      CountableParts(types, locals, e, requestLeave);
      CountableHeight(types, locals, e.l, requestLeave, h);
      CountableHeight(types, locals, e.r, requestLeave, h + 1);
      if Plain(types, e) {
        PlainParts(types, e);
        PlainOperand(types, e.l);
        PlainOperand(types, e.r);
      }
      VisitLoaded(e.l, h);
      VisitLoaded(e.r, h + 1);
      DecreaseCurrentStack(1);
      ArithPeak(types, e, h);
    }

    method VisitNeg(e: Expr, ghost h: nat)
      requires e.Neg? && Countable(types, locals, e, requestLeave) && Covers(h)
      modifies this
      ensures SameContext() && Covers(h + 1) && top >= old(top)
      ensures old(names) <= names && (ArrayFree(e) ==> names == old(names))
      ensures Peak(Code(types, e), h) <= top
      ensures Plain(types, e) ==> Rises(h, h + 1, Peak(Code(types, e), h))
      decreases e, 0
    {
      CountableParts(types, locals, e, requestLeave);
      CountableHeight(types, locals, e.e, requestLeave, h);
      hide Peak, Code, Operand, Countable, Goes;
      VisitLoaded(e.e, h);
      NegPeak(types, e, h);
    }

    /** An element that is read, or, without a load request, the address of one
        to be assigned. Its array's name stays behind on the return stack. */
    method VisitIndex(e: Expr, ghost h: nat)
      requires e.Index? && IsArray(types, e.base) && Countable(types, locals, e.sub, requestLeave) && Covers(h)
      modifies this
      ensures SameContext() && Covers(if generateLoad then h + 1 else h + 2) && top >= old(top)
      ensures old(names) + [e.base.x] <= names && (ArrayFree(e.sub) ==> names == old(names) + [e.base.x])
      ensures Peak(Code(types, e), h) <= top && Peak(Operand(types, e.sub), h + 1) <= top
      ensures Peak(Code(types, e), h) == Peak(Operand(types, e.sub), h + 1)
      ensures Plain(types, e.sub) ==> Rises(h, if generateLoad then h + 1 else h + 2, Peak(Code(types, e), h))
      decreases e, 0
    {
      CountableHeight(types, locals, e.sub, requestLeave, h + 1);
      PlainOperand(types, e.sub);
      hide Peak, Code, Operand, Countable, Goes, ArrayFree, Plain;
      ModifyStackSize(1);
      names := names + [e.base.x];
      VisitLoaded(e.sub, h + 1);
      if generateLoad {
        ModifyStackSize(-1);
      }
      IndexPeak(types, e, h);
    }

    /** Arguments one after the other; a result that nobody loads is taken off again. */
    method VisitCall(e: Expr, ghost h: nat)
      requires e.Call? && KnownCall(types, e.f, |e.args|) && CountableAll(types, locals, e.args, requestLeave) && Covers(h)
      modifies this
      ensures SameContext() && top >= old(top) && old(names) <= names && (ArrayFree(e) ==> names == old(names))
      ensures Covers(if types.funcs[e.f].isVoid || !generateLoad then h else h + 1)
      ensures Peak(Code(types, e), h) <= top
      ensures Plain(types, e) ==>
                Rises(h, if types.funcs[e.f].isVoid || !generateLoad then h else h + 1, Peak(Code(types, e), h))
      decreases e, 0
    {
      hide Peak, Operand, Countable, Goes, Plain;
      if Plain(types, e) {
        PlainParts(types, e);
      }
      VisitArguments(e.args, h);
      ModifyStackSize(-|e.args|);
      if !types.funcs[e.f].isVoid {
        ModifyStackSize(1);
      }
      if !generateLoad && !types.funcs[e.f].isVoid {
        ModifyStackSize(-1);
      }
      CallPeak(types, e, h);
    }

    method VisitArguments(args: seq<Expr>, ghost h: nat)
      requires CountableAll(types, locals, args, requestLeave) && Covers(h)
      modifies this
      ensures SameContext() && Covers(h + |args|) && top >= old(top)
      ensures old(names) <= names && (ArrayFreeAll(args) ==> names == old(names))
      ensures Goes(Arguments(types, args), h, h + |args|) && Peak(Arguments(types, args), h) <= top
      ensures PlainAll(types, args) ==> Rises(h, h + |args|, Peak(Arguments(types, args), h))
      decreases args, 1
    {
      hide Loaded, Peak, Goes, Arguments, ArrayFreeAll, PlainAll, CountableAll;
      NothingLoaded(types, args, h, Now(), names);
      for i := 0 to |args|
        invariant SameContext() && Loaded(types, args, i, h, old(Now()), old(names), Now(), names)
      {
        VisitArgument(args, i, h, old(Now()), old(names));
      }
      AllLoaded(types, args, h, old(Now()), old(names), Now(), names);
    }

    method VisitArgument(args: seq<Expr>, i: nat, ghost h: nat, ghost start: Tally, ghost names0: seq<string>)
      requires i < |args| && CountableAll(types, locals, args, requestLeave)
      requires Loaded(types, args, i, h, start, names0, Now(), names)
      modifies this
      ensures SameContext() && Loaded(types, args, i + 1, h, start, names0, Now(), names)
      decreases args, 0
    {
      hide Loaded, Peak, Operand, Code, Countable, Goes, ArrayFree, Plain;
      CountableHeight(types, locals, args[i], requestLeave, h + i);
      LoadedSize(types, args, i, h, start, names0, Now(), names);
      VisitLoaded(args[i], h + i);
      OneMoreLoaded(types, args, i, h, start, names0, old(Now()), old(names), Now(), names);
    }

    /** An assignment, whether or not its value is asked for. */
    method VisitAssign(e: Expr, ghost h: nat)
      requires e.Assign? && CountableAssign(types, locals, e, requestLeave) && Covers(h)
      modifies this
      ensures SameContext() && Covers(if requestLeave then h + 1 else h) && top >= old(top)
      ensures old(names) <= names && (ArrayFree(e) ==> names == old(names))
      ensures Peak(AssignCode(types, e, requestLeave), h) <= top
      ensures Plain(types, e) ==> Rises(h, if requestLeave then h + 1 else h, Peak(AssignCode(types, e, requestLeave), h))
      decreases e, 2
    {
      AssignParts(types, locals, e, requestLeave);
      hide AssignCode, Plain;
      if e.lhs.Var? {
        VisitStore(e, h);
      } else {
        assert !ArrayFree(e.lhs);
        VisitElementStore(e, h);
      }
    }

    method VisitStore(e: Expr, ghost h: nat)
      requires e.Assign? && IsScalar(types, e.lhs) && Resolves(types, locals, e.lhs.x)
      requires Countable(types, locals, e.rhs, true) && Covers(h)
      modifies this
      ensures SameContext() && Covers(if requestLeave then h + 1 else h) && top >= old(top)
      ensures old(names) <= names && (ArrayFree(e) ==> names == old(names))
      ensures Peak(AssignCode(types, e, requestLeave), h) <= top
      ensures Plain(types, e) ==> Rises(h, if requestLeave then h + 1 else h, Peak(AssignCode(types, e, requestLeave), h))
      decreases e, 1
    {
      hide Peak, Code, Operand, Countable, AssignCode, Plain, ArrayFree;
      ghost var h1 := if e.sop == Set then h else h + 1;
      StoreFacts(types, locals, e, requestLeave, h);
      ArrayFreeStore(e);
      names := names + [e.lhs.x];
      var varName := ConsumeReturnStack();
      assert names == old(names);
      if e.sop != Set {
        ModifyStackSize(LoadFromVariable(varName));
      }
      VisitLeft(e.rhs, h1);
      FinishStore(e, varName, Scalar);
    }

    method VisitElementStore(e: Expr, ghost h: nat)
      requires e.Assign? && e.lhs.Index? && IsArray(types, e.lhs.base) && Resolves(types, locals, e.lhs.base.x)
      requires Countable(types, locals, e.lhs.sub, requestLeave) && ArrayFree(e.lhs.sub)
      requires Countable(types, locals, e.rhs, true) && Covers(h)
      modifies this
      ensures SameContext() && Covers(if requestLeave then h + 1 else h) && top >= old(top)
      ensures old(names) <= names
      ensures Peak(AssignCode(types, e, requestLeave), h) <= top
      ensures Plain(types, e) ==> Rises(h, if requestLeave then h + 1 else h, Peak(AssignCode(types, e, requestLeave), h))
      decreases e, 1
    {
      hide Peak, Code, Operand, Countable, AssignCode, Plain, Resolves, Env.Known, ArrayFree;
      ghost var h1 := if e.sop == Set then h + 2 else h + 3;
      ElementStoreFacts(types, locals, e, requestLeave, h);
      var varName := VisitElement(e.lhs, h);
      if e.sop != Set {
        ModifyStackSize(1);
      }
      VisitLeft(e.rhs, h1);
      FinishStore(e, varName, Array);
    }

    /** Under HZCC_JVM_NOT_GENERATE_LOAD_INSTR: an element's address, and its array's name. */
    method VisitElement(e: Expr, ghost h: nat) returns (varName: string)
      requires e.Index? && IsArray(types, e.base) && Countable(types, locals, e.sub, requestLeave) && Covers(h)
      requires ArrayFree(e.sub)
      modifies this
      ensures SameContext() && Covers(h + 2) && top >= old(top)
      ensures names == old(names) && varName == e.base.x
      ensures Peak(Operand(types, e.sub), h + 1) <= top
      ensures Plain(types, e.sub) ==> Rises(h, h + 2, Peak(Operand(types, e.sub), h + 1))
      decreases e, 1
    {
      hide ArrayFree, Code, Operand, Peak, Countable, Plain;
      var wasLoading := generateLoad;
      generateLoad := false;
      VisitIndex(e, h);
      generateLoad := wasLoading;
      varName := ConsumeReturnStack();
      assert names == old(names);
    }

    /** Under HZCC_LEAVE_RET_ON_STACK and HZCC_JVM_GENERATE_LOAD_INSTR. */
    method VisitLeft(e: Expr, ghost h: nat)
      requires Countable(types, locals, e, true) && Covers(h)
      modifies this
      ensures Added(e, h)
      decreases e, 5
    {
      var wasLeaving := requestLeave;
      requestLeave := true;
      VisitLoaded(e, h);
      requestLeave := wasLeaving;
    }

    /** The operation of a compound assignment, the copy if one is asked for, the store. */
    method FinishStore(e: Expr, varName: string, ghost kind: VarKind)
      requires e.Assign? && types.Known(varName, kind) && Resolves(types, locals, varName) && size <= top
      modifies this`size, this`top
      ensures var applied := if e.sop == Set then old(size) else old(size) - 1;
              var copied := if requestLeave then applied + 1 else applied;
              size == copied - (if kind == Array then 3 else 1) && top == Max(old(top), copied)
    {
      hide Env.Known;
      if e.sop != Set {
        ModifyStackSize(-1);
      }
      if requestLeave {
        ModifyStackSize(1);
      }
      ModifyStackSize(SaveToVariable(varName));
    }

    /** An increment or decrement: `iinc` and a load, or load, add and store. */
    method VisitUnary(e: Expr, ghost h: nat)
      requires e.IncDec? && IsScalar(types, e.target) && Resolves(types, locals, e.target.x) && Covers(h)
      modifies this
      ensures SameContext() && names == old(names) && Covers(h + 1) && top >= old(top)
      ensures forall leave :: Peak(Bump(types, e.iop, e.target.x, leave), h) <= top
      ensures e.target.x !in types.globalKinds ==>
                size == old(size) + 1 && top == Max(old(top), old(size) + 1)
                && Peak(Bump(types, e.iop, e.target.x, true), h) == h + 1
      ensures e.target.x in types.globalKinds ==> size == old(size) + 3 && top == Max(old(top), old(size) + 4)
    {
      names := names + [e.target.x];
      var varName := ConsumeReturnStack();
      assert names == old(names);
      if varName !in types.globalKinds {
        ModifyStackSize(LoadFromVariable(varName));
      } else {
        ModifyStackSize(LoadFromVariable(varName));
        ModifyStackSize(3);
        ModifyStackSize(SaveToVariable(varName));
      }
      BumpPeak(types, e.iop, varName, true, h);
      BumpPeak(types, e.iop, varName, false, h);
    }

    // ----- statements -----

    /** Between statements: no context, and a running size that covers the empty stack. */
    predicate AtStatement()
      reads this
    {
      !generateLoad && !requestLeave && Covers(0)
    }

    ghost function Now(): Tally
      reads this
    {
      Tally(locals, hasReturn, size, top)
    }

    method AddLocalVariable(x: string, kind: VarKind)
      modifies this`locals
      ensures locals == old(locals) + [(x, kind)]
    {
      locals := locals + [(x, kind)];
    }

    method VisitStmt(s: Stmt, ghost sc: seq<Scope>, ghost k: nat)
      requires AtStatement() && StraightLine(types, locals, s)
      modifies this
      ensures AtStatement() && locals == Declares(old(locals), s) && top >= old(top)
      ensures hasReturn == (old(hasReturn) || Returns(s))
      ensures Peak(StmtCode(types, s, sc, k), 0) <= top
      ensures PlainStmt(types, s) ==> Rises(0, if Returns(s) then 1 else 0, Peak(StmtCode(types, s, sc, k), 0))
      decreases s, 1
    {
      hide Peak, Effect, Plain;
      match s {
        case Empty => PeakNone(0);
        case ExprStmt(e) => VisitEffect(e);
        case Decl(_, _) => VisitVarDecl(s, sc, k);
        case ArrayDecl(_, _) => VisitArrayDecl(s, sc, k);
        case Compound(body) => VisitCompound(body, sc, k);
        case Return(_) => VisitReturn(s, sc, k);
      }
    }

    method VisitEffect(e: Expr)
      requires AtStatement() && IsEffect(types, e) && Resolved(types, locals, e)
      requires if e.Assign? then CountedAssign(e, false) else Counted(e, false)
      modifies this
      ensures AtStatement() && SameContext() && top >= old(top)
      ensures Peak(Effect(types, e), 0) <= top
      ensures Plain(types, e) && !e.IncDec? ==> Rises(0, 0, Peak(Effect(types, e), 0))
    {
      if e.Call? {
        CallHeight(types, e, false, 0);
      }
      hide Peak, Code, AssignCode, Bump, IsValue, IsAssignment, Resolves, Goes, Plain;
      match e {
        case Assign(_, _, _) => VisitAssign(e, 0);
        case IncDec(_, _) => VisitUnary(e, 0);
        case Call(f, _) =>
          VisitCall(e, 0);
          if !types.funcs[f].isVoid {
            TakePeak(Code(types, e), Instr.Pop);
          } else {
            assert Code(types, e) + [] == Code(types, e);
          }
        case _ =>
      }
    }

    method VisitVarDecl(s: Stmt, ghost sc: seq<Scope>, ghost k: nat)
      requires s.Decl? && AtStatement() && StraightLine(types, locals, s)
      modifies this
      ensures AtStatement() && locals == old(locals) + [(s.x, Scalar)] && top >= old(top) && hasReturn == old(hasReturn)
      ensures Peak(StmtCode(types, s, sc, k), 0) <= top
      ensures PlainStmt(types, s) ==> Rises(0, 0, Peak(StmtCode(types, s, sc, k), 0))
      decreases s, 0
    {
      hide Peak, Operand, Code, Goes, Plain;
      PeakNone(0);
      AddLocalVariable(s.x, Scalar);
      if s.init.Some? {
        CountableHeight(types, locals, s.init.value, false, 0);
        PlainOperand(types, s.init.value);
        VisitValue(s.init.value, 0);
        TakePeak(Operand(types, s.init.value), SaveVar(types, s.x));
        ModifyStackSize(SaveToVariable(s.x));
      }
    }

    method VisitArrayDecl(s: Stmt, ghost sc: seq<Scope>, ghost k: nat)
      requires s.ArrayDecl? && AtStatement()
      modifies this
      ensures AtStatement() && locals == old(locals) + [(s.x, Array)] && top >= old(top) && hasReturn == old(hasReturn)
      ensures Peak(StmtCode(types, s, sc, k), 0) <= top && Rises(0, 0, Peak(StmtCode(types, s, sc, k), 0))
    {
      AddLocalVariable(s.x, Array);
      ModifyStackSize(1);
      ModifyStackSize(-1);
      NewArrayPeak(types, Int32.Wrap(s.size), s.x);
    }

    method VisitReturn(s: Stmt, ghost sc: seq<Scope>, ghost k: nat)
      requires s.Return? && AtStatement() && StraightLine(types, locals, s)
      modifies this
      ensures AtStatement() && locals == old(locals) && top >= old(top) && hasReturn
      ensures Peak(StmtCode(types, s, sc, k), 0) <= top
      ensures PlainStmt(types, s) ==> Rises(0, 1, Peak(StmtCode(types, s, sc, k), 0))
      decreases s, 0
    {
      var e := s.val.value;
      CountableHeight(types, locals, e, true, 0);
      PlainOperand(types, e);
      hide Peak, Operand, Code, Goes, Countable, Plain;
      hasReturn := true;
      VisitLeft(e, 0);
      TakePeak(Operand(types, e), IReturn);
    }

    method VisitCompound(body: seq<Stmt>, ghost sc: seq<Scope>, ghost k: nat)
      requires AtStatement() && AllStraight(types, locals, body)
      modifies this
      ensures AtStatement() && locals == DeclaresAll(old(locals), body) && top >= old(top)
      ensures hasReturn == (old(hasReturn) || AnyReturns(body))
      ensures Peak(BodyCode(types, body, sc, k), 0) <= top
      ensures PlainBody(types, body) ==> Rises(0, if AnyReturns(body) then 1 else 0, Peak(BodyCode(types, body, sc, k), 0))
      decreases body, 0
    {
      hide Looked, Peak, StmtCode, BodyCode, AllStraight, DeclaresAll, AnyReturns, PlainBody;
      ghost var done, k1: nat := [], k;
      assert body[0..] == body;
      NothingLooked(types, Now(), body, sc, k);
      for i := 0 to |body|
        invariant AtStatement() && Looked(types, old(Now()), body, sc, k, Now(), body[i..], done, k1)
      {
        done, k1 := VisitNext(body[i], body, body[i..], sc, k, k1, done, old(Now()));
        assert body[i..][1..] == body[i + 1..];
      }
      assert body[|body|..] == [];
      AllLooked(types, old(Now()), body, sc, k, Now(), done, k1);
    }

    method VisitNext(s: Stmt, ghost body: seq<Stmt>, ghost rest: seq<Stmt>, ghost sc: seq<Scope>, ghost k: nat,
                     ghost k1: nat, ghost done: seq<Instr>, ghost start: Tally)
      returns (ghost done': seq<Instr>, ghost k': nat)
      requires AtStatement() && rest != [] && rest[0] == s && Looked(types, start, body, sc, k, Now(), rest, done, k1)
      modifies this
      ensures AtStatement() && Looked(types, start, body, sc, k, Now(), rest[1..], done', k')
      decreases s, 2
    {
      hide Looked, Peak, StmtCode, StraightLine, Declares, Returns, PlainStmt;
      MoreToLook(types, start, body, sc, k, Now(), rest, done, k1);
      VisitStmt(s, sc, k1 + 1);
      OneMoreLooked(types, start, body, sc, k, old(Now()), rest, done, k1, Now());
      done' := done + [Label(LineLabel(k1))] + StmtCode(types, s, sc, k1 + 1);
      k' := k1 + 1 + Lines(s);
    }

    function GetMaxStackSize(): int
      reads this`top
    {
      top + 20
    }

    /** The size in the `.code stack` directive of a function: 20 above what is needed. */
    method Analyze(params: seq<string>, body: seq<Stmt>)
      requires AtStatement() && locals == [] && !hasReturn
      requires AllStraight(types, seq(|params|, i requires 0 <= i < |params| => (params[i], Scalar)), body)
      modifies this
      ensures GetMaxStackSize() >= Peak(FunctionCorrectness.MethodCode(types, body), 0) + 20
      ensures PlainBody(types, body) ==>
                GetMaxStackSize() == Max(old(top), old(size) + Peak(FunctionCorrectness.MethodCode(types, body), 0)) + 20
      ensures hasReturn == AnyReturns(body)
    {
      for i := 0 to |params|
        invariant AtStatement() && !hasReturn && size == old(size) && top == old(top)
        invariant locals == seq(i, j requires 0 <= j < i => (params[j], Scalar))
      {
        AddLocalVariable(params[i], Scalar);
      }
      ghost var table := locals;
      VisitCompound(body, [], 0);
      MethodPeak(types, table, body);
    }
  }
}
