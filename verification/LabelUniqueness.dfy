/** Jumps: when the scope-opening statements of a function have distinct
    positions and kinds, every label of its code is defined once, and every
    jump names a label that is defined. */
module LabelUniqueness {
  import opened Ast
  import opened World
  import opened Jvm
  import opened Labels
  import opened CSemantics
  import opened CodeSpec
  import opened FunctionCorrectness

  // ----- the scopes a statement opens -----

  type Site = (Pos, ScopeKind)

  function Opened(s: Stmt): multiset<Site>
    decreases s, if s.If? then |s.elifs| + 1 else 1
  {
    match s
    case Compound(body) => OpenedAll(body)
    case If(pos, _, thn, _, _) => multiset{(pos, IfS)} + Opened(thn) + OpenedElse(s, 0)
    case While(pos, _, body) => multiset{(pos, WhileS)} + Opened(body)
    case Do(pos, body, _) => multiset{(pos, DoS)} + Opened(body)
    case For(pos, _, _, _, body) => multiset{(pos, ForS)} + Opened(body)
    case _ => multiset{}
  }

  function OpenedAll(ss: seq<Stmt>): multiset<Site>
    decreases ss
  {
    if ss == [] then multiset{} else Opened(ss[0]) + OpenedAll(ss[1..])
  }

  function OpenedElse(s: Stmt, i: nat): multiset<Site>
    requires s.If? && i <= |s.elifs|
    decreases s, |s.elifs| - i
  {
    if i < |s.elifs| then multiset{(s.elifs[i].pos, ElseIfS)} + Opened(s.elifs[i].body) + OpenedElse(s, i + 1)
    else if s.els.Some? then Opened(s.els.value)
    else multiset{}
  }

  ghost predicate DistinctSites(body: seq<Stmt>) {
    forall x: Site :: OpenedAll(body)[x] <= 1
  }

  // ----- labels and jumps of a piece of code -----

  function Def(i: Instr): set<string> {
    if i.Label? then {i.name} else {}
  }

  function Aim(i: Instr): set<string> {
    match i
    case Goto(l) => {l}
    case IfICmp(_, l) => {l}
    case IfZ(_, l) => {l}
    case _ => {}
  }

  function Defs(code: seq<Instr>): set<string> {
    if code == [] then {} else Def(code[0]) + Defs(code[1..])
  }

  function Aims(code: seq<Instr>): set<string> {
    if code == [] then {} else Aim(code[0]) + Aims(code[1..])
  }

  // ----- counting definitions of a label -----

  function Count(code: seq<Instr>, l: string): nat {
    if code == [] then 0 else (if code[0] == Label(l) then 1 else 0) + Count(code[1..], l)
  }

  lemma {:induction false} CountAppend(a: seq<Instr>, b: seq<Instr>, l: string)
    ensures Count(a + b, l) == Count(a, l) + Count(b, l)
  {
    if a == [] {
      assert a + b == b;
    } else {
      assert (a + b)[1..] == a[1..] + b;
      CountAppend(a[1..], b, l);
    }
  }

  lemma {:induction false} Occurs(code: seq<Instr>, l: string, i: nat)
    requires i < |code| && code[i] == Label(l)
    ensures Count(code, l) >= 1
  {
    if i > 0 {
      Occurs(code[1..], l, i - 1);
    }
  }

  predicate Plain(code: seq<Instr>) {
    forall i :: 0 <= i < |code| ==> !code[i].Label?
  }

  /** Expression code: no labels and no jumps. */
  predicate Straight(code: seq<Instr>) {
    Plain(code) && forall i :: 0 <= i < |code| ==> Aim(code[i]) == {}
  }

  lemma {:induction false} PlainCounts(code: seq<Instr>, l: string)
    requires Plain(code)
    ensures Count(code, l) == 0
  {
    if code != [] {
      PlainCounts(code[1..], l);
    }
  }

  lemma StraightJoin(a: seq<Instr>, b: seq<Instr>)
    ensures Straight(a) && Straight(b) ==> Straight(a + b)
  {
  }

  lemma StraightPieces(env: Env, x: string, op: ArithOp)
    ensures Straight([]) && Straight([IArith(op)]) && Straight([INeg]) && Straight([IALoad]) && Straight([Dup2, IALoad])
    ensures Straight([Dup]) && Straight([DupX2]) && Straight([LoadVar(env, x)]) && Straight([LoadArray(env, x)])
    ensures Straight([SaveVar(env, x)])
  {
  }

  lemma {:induction false} OperandPlain(env: Env, e: Expr)
    ensures Straight(Operand(env, e))
    decreases e, 2
  {
    CodePlain(env, e);
  }

  lemma {:induction false} CodePlain(env: Env, e: Expr)
    ensures Straight(Code(env, e))
    decreases e, 1
  {
    hide Straight, Operand, LoadVar, LoadArray, AssignCode, Arguments;
    match e {
      case Lit(n) => PushPlain(n);
      case Var(x) => StraightPieces(env, x, Add);
      case Arith(op, l, r) =>
        OperandPlain(env, l);
        OperandPlain(env, r);
        StraightPieces(env, "", op);
        StraightJoin(Operand(env, l), Operand(env, r));
        StraightJoin(Operand(env, l) + Operand(env, r), [IArith(op)]);
      case Neg(e1) =>
        CodePlain(env, e1);
        StraightPieces(env, "", Add);
        StraightJoin(Code(env, e1), [INeg]);
      case Call(f, args) =>
        ArgumentsPlain(env, args);
        CallPlain(f, SigOf(env, f));
        StraightJoin(Arguments(env, args), [InvokeStatic(f, SigOf(env, f))]);
      case Index(base, sub) =>
        OperandPlain(env, sub);
        StraightPieces(env, NameOf(base), Add);
        StraightJoin([LoadArray(env, NameOf(base))], Operand(env, sub));
        StraightJoin([LoadArray(env, NameOf(base))] + Operand(env, sub), [IALoad]);
      case Assign(_, _, _) => AssignPlain(env, e, true);
      case IncDec(op, target) => BumpPlain(env, op, NameOf(target), true);
      case _ => StraightPieces(env, "", Add);
    }
  }

  lemma PushPlain(n: int)
    ensures Straight([Push(n)])
  {
  }

  lemma CallPlain(f: string, sig: Signature)
    ensures Straight([InvokeStatic(f, sig)])
  {
  }

  lemma BumpPlain(env: Env, op: IncDecOp, x: string, leave: bool)
    ensures Straight(Bump(env, op, x, leave))
  {
  }

  /** The two shapes of an assignment, around opaque operands. */
  lemma {:induction false} AssignPlain(env: Env, e: Expr, leave: bool)
    requires e.Assign?
    ensures Straight(AssignCode(env, e, leave))
    decreases e, 0
  {
    OperandPlain(env, e.rhs);
    var value := Operand(env, e.rhs);
    var op := if e.sop == Set then [] else [IArith(OpOf(e.sop))];
    match e.lhs {
      case Var(x) =>
        var load := if e.sop == Set then [] else [LoadVar(env, x)];
        assert AssignCode(env, e, leave) == load + value + op + (if leave then [Dup] else []) + [SaveVar(env, x)];
        StraightPieces(env, x, if e.sop == Set then Add else OpOf(e.sop));
        hide *;
        StraightFive(load, value, op, if leave then [Dup] else [], [SaveVar(env, x)]);
      case Index(base, sub) =>
        OperandPlain(env, sub);
        var x := NameOf(base);
        var address, load := [LoadArray(env, x)] + Operand(env, sub), if e.sop == Set then [] else [Dup2, IALoad];
        assert AssignCode(env, e, leave) == address + load + value + op + (if leave then [DupX2] else []) + [SaveVar(env, x)];
        StraightPieces(env, x, if e.sop == Set then Add else OpOf(e.sop));
        hide *;
        StraightJoin([LoadArray(env, x)], Operand(env, sub));
        StraightFive(address, load, value, op, if leave then [DupX2] else []);
        StraightJoin(address + load + value + op + (if leave then [DupX2] else []), [SaveVar(env, x)]);
      case _ =>
    }
  }

  lemma StraightFive(a: seq<Instr>, b: seq<Instr>, c: seq<Instr>, d: seq<Instr>, e: seq<Instr>)
    ensures Straight(a) && Straight(b) && Straight(c) && Straight(d) && Straight(e) ==> Straight(a + b + c + d + e)
  {
    hide *;
    StraightJoin(a, b);
    StraightJoin(a + b, c);
    StraightJoin(a + b + c, d);
    StraightJoin(a + b + c + d, e);
  }

  lemma {:induction false} ArgumentsPlain(env: Env, args: seq<Expr>)
    ensures Straight(Arguments(env, args))
    decreases args
  {
    if args != [] {
      OperandPlain(env, args[0]);
      ArgumentsPlain(env, args[1..]);
    }
  }

  lemma EffectPlain(env: Env, e: Expr)
    ensures Straight(Effect(env, e))
  {
    match e {
      case Assign(_, _, _) => AssignPlain(env, e, false);
      case Call(_, _) => CodePlain(env, e);
      case _ =>
    }
  }

  lemma {:induction false} ConditionPlain(env: Env, e: Expr, entry: string, exit: string)
    ensures Plain(ConditionCode(env, e, entry, exit))
  {
    match e {
      case Rel(_, l, r) =>
        OperandPlain(env, l);
        OperandPlain(env, r);
      case Logic(_, l, r) =>
        ConditionPlain(env, l, entry, exit);
        ConditionPlain(env, r, entry, exit);
      case _ => CodePlain(env, e);
    }
  }

  /** At most how often the code of a statement may define the label `r`:
      once per scope opened at its place, and once if it is one of the
      statement's own line labels. */
  function Allowance(sites: multiset<Site>, k: nat, lines: nat, r: LabelRef): nat {
    match r
    case ScopeRef(pos, kind, _) => sites[(pos, kind)]
    case LineRef(count) => if k <= count < k + lines then 1 else 0
  }

  /** `n` is allowed; and exit labels are defined exactly once per scope. */
  ghost predicate Within(n: nat, sites: multiset<Site>, k: nat, lines: nat, r: LabelRef) {
    && n <= Allowance(sites, k, lines, r)
    && (r.ScopeRef? && r.suffix == ExitX ==> n == Allowance(sites, k, lines, r))
  }

  /** The labels a scope is asked for are the texts of its places. */
  lemma ScopeTexts(sc: seq<Scope>, pos: Pos, kind: ScopeKind)
    ensures var sc1 := sc + [MakeScope(pos, kind)];
            && EntryLabel(sc1) == Text(ScopeRef(pos, kind, EntryX))
            && ExitLabel(sc1) == Text(ScopeRef(pos, kind, ExitX))
            && NamedLabel(sc1, "stmt_end") == Text(ScopeRef(pos, kind, StmtEndX))
            && NamedLabel(sc1, "for_cond") == Text(ScopeRef(pos, kind, ForCondX))
  {
    var id := ScopeId(pos, kind);
    assert "L" + (id + "_") + "stmt_end" == "L" + id + "_stmt_end";
    assert "L" + (id + "_") + "for_cond" == "L" + id + "_for_cond";
  }

  /** One label, and how much of the allowance of `r` it takes. */
  lemma CountLabel(r0: LabelRef, r: LabelRef)
    ensures Count([Label(Text(r0))], Text(r)) == if r0 == r then 1 else 0
  {
    var code := [Label(Text(r0))];
    assert code[1..] == [];
    if Text(r0) == Text(r) {
      TextInjective(r0, r);
    }
  }

  /** Two pieces of code, side by side. */
  lemma WithinSum(x: nat, a: multiset<Site>, m: nat, y: nat, b: multiset<Site>, n: nat, k: nat, r: LabelRef)
    ensures Within(x, a, k, m, r) && Within(y, b, k + m, n, r) ==> Within(x + y, a + b, k, m + n, r)
  {
    assert Allowance(a + b, k, m + n, r) == Allowance(a, k, m, r) + Allowance(b, k + m, n, r);
  }

  lemma LineWithin(k: nat, r: LabelRef)
    ensures Within(if LineRef(k) == r then 1 else 0, multiset{}, k, 1, r)
  {
  }

  function Hit(pos: Pos, kind: ScopeKind, x: Suffix, r: LabelRef): nat {
    if ScopeRef(pos, kind, x) == r then 1 else 0
  }

  /** A scope's labels, of which `more` and `again` may be missing, are different labels of one site. */
  lemma ScopeWithin(pos: Pos, kind: ScopeKind, more: bool, again: bool, k: nat, r: LabelRef)
    ensures Within(Hit(pos, kind, EntryX, r) + Hit(pos, kind, ExitX, r) + (if more then Hit(pos, kind, StmtEndX, r) else 0)
                     + (if again then Hit(pos, kind, ForCondX, r) else 0),
                   multiset{(pos, kind)}, k, 0, r)
  {
  }

  lemma CountFour(a: seq<Instr>, b: seq<Instr>, c: seq<Instr>, d: seq<Instr>, l: string)
    ensures Count(a + b + c + d, l) == Count(a, l) + Count(b, l) + Count(c, l) + Count(d, l)
  {
    CountAppend(a + b + c, d, l);
    CountAppend(a + b, c, l);
    CountAppend(a, b, l);
  }

  lemma CountGotoLabel(target: string, r0: LabelRef, r: LabelRef)
    ensures Count([Goto(target), Label(Text(r0))], Text(r)) == if r0 == r then 1 else 0
  {
    var code := [Goto(target), Label(Text(r0))];
    assert code[1..] == [Label(Text(r0))];
    CountLabel(r0, r);
  }

  lemma GuardCounts(env: Env, e: Expr, sc: seq<Scope>, l: string)
    requires sc != []
    ensures Count(Guard(env, e, sc), l) == 0
  {
    ConditionPlain(env, e, EntryLabel(sc), ExitLabel(sc));
    PlainCounts(Guard(env, e, sc), l);
  }

  lemma DoGuardCounts(env: Env, cond: Option<Expr>, sc: seq<Scope>, l: string)
    requires sc != []
    ensures Count(DoGuard(env, cond, sc), l) == 0
  {
    if cond.Some? {
      ConditionPlain(env, cond.value, EntryLabel(sc), ExitLabel(sc));
    }
    PlainCounts(DoGuard(env, cond, sc), l);
  }

  lemma SimpleCounts(env: Env, s: Stmt, l: string)
    ensures Count(SimpleCode(env, s), l) == 0
  {
    if s.ExprStmt? {
      EffectPlain(env, s.e);
    }
    PlainCounts(SimpleCode(env, s), l);
  }

  lemma {:induction false} CountStmt(env: Env, s: Stmt, sc: seq<Scope>, k: nat, r: LabelRef)
    ensures Within(Count(StmtCode(env, s, sc, k), Text(r)), Opened(s), k, Lines(s), r)
    decreases s, if s.If? then |s.elifs| + 2 else 2
  {
    hide Text, Count;
    match s {
      case Compound(body) => CountBody(env, body, sc, k, r);
      case If(_, _, _, _, _) => CountIf(env, s, sc, k, r);
      case While(_, _, _) => CountLoop(env, s, sc, k, r);
      case Do(_, _, _) => CountDo(env, s, sc, k, r);
      case For(_, init, _, _, body) =>
        SimpleCounts(env, init, Text(r));
        CountAppend(SimpleCode(env, init), LoopCode(env, s, sc, k), Text(r));
        CountLoop(env, s, sc, k, r);
      case Decl(_, init) =>
        if init.Some? {
          OperandPlain(env, init.value);
        }
        PlainCounts(StmtCode(env, s, sc, k), Text(r));
      case Return(val) =>
        if val.Some? {
          OperandPlain(env, val.value);
        }
        PlainCounts(StmtCode(env, s, sc, k), Text(r));
      case ExprStmt(e) =>
        EffectPlain(env, e);
        PlainCounts(Effect(env, e), Text(r));
      case _ => PlainCounts(StmtCode(env, s, sc, k), Text(r));
    }
  }

  lemma {:induction false} CountBody(env: Env, ss: seq<Stmt>, sc: seq<Scope>, k: nat, r: LabelRef)
    ensures Within(Count(BodyCode(env, ss, sc, k), Text(r)), OpenedAll(ss), k, LinesAll(ss), r)
    decreases ss
  {
    if ss != [] {
      hide *;
      BodyParts(env, ss, sc, k);
      var k1 := k + 1 + Lines(ss[0]);
      var one, more := StmtCode(env, ss[0], sc, k + 1), BodyCode(env, ss[1..], sc, k1);
      assert LineLabel(k) == Text(LineRef(k)) by { LineText(k); }
      CountLabel(LineRef(k), r);
      LineWithin(k, r);
      CountAppend([Label(LineLabel(k))] + one, more, Text(r));
      CountAppend([Label(LineLabel(k))], one, Text(r));
      CountStmt(env, ss[0], sc, k + 1, r);
      CountBody(env, ss[1..], sc, k1, r);
      var l, x, y := Count([Label(LineLabel(k))], Text(r)), Count(one, Text(r)), Count(more, Text(r));
      WithinSum(l, multiset{}, 1, x, Opened(ss[0]), Lines(ss[0]), k, r);
      WithinSum(l + x, multiset{} + Opened(ss[0]), 1 + Lines(ss[0]), y, OpenedAll(ss[1..]), LinesAll(ss[1..]), k, r);
    } else {
      PlainCounts([], Text(r));
    }
  }

  lemma BodyParts(env: Env, ss: seq<Stmt>, sc: seq<Scope>, k: nat)
    requires ss != []
    ensures BodyCode(env, ss, sc, k)
         == [Label(LineLabel(k))] + StmtCode(env, ss[0], sc, k + 1) + BodyCode(env, ss[1..], sc, k + 1 + Lines(ss[0]))
    ensures OpenedAll(ss) == multiset{} + Opened(ss[0]) + OpenedAll(ss[1..])
    ensures LinesAll(ss) == 1 + Lines(ss[0]) + LinesAll(ss[1..])
  {
    hide StmtCode, Opened, Lines;
  }

  lemma LineText(k: nat)
    ensures LineLabel(k) == Text(LineRef(k))
  {
  }

  lemma CountFive(a: seq<Instr>, b: seq<Instr>, c: seq<Instr>, d: seq<Instr>, e: seq<Instr>, l: string)
    ensures Count(a + b + c + d + e, l) == Count(a, l) + Count(b, l) + Count(c, l) + Count(d, l) + Count(e, l)
  {
    CountFour(a, b, c, d, l);
    CountAppend(a + b + c + d, e, l);
  }

  lemma LoopTailCounts(env: Env, s: Stmt, sc: seq<Scope>, r: LabelRef)
    requires s.While? || s.For?
    ensures Count(LoopTail(env, s, sc), Text(r)) == if s.For? then Hit(s.pos, ForS, EntryX, r) else 0
    ensures Count(LoopGuard(env, s, sc), Text(r)) == 0
  {
    hide Text, Count, EntryLabel, ExitLabel, Guard, SimpleCode;
    var kind, sc1 := if s.While? then WhileS else ForS, LoopScope(s, sc);
    ScopeTexts(sc, s.pos, kind);
    PlainCounts([], Text(r));
    if LoopCond(s).Some? {
      GuardCounts(env, LoopCond(s).value, sc1, Text(r));
    }
    if s.For? {
      CountLabel(ScopeRef(s.pos, kind, EntryX), r);
      SimpleCounts(env, s.step, Text(r));
      CountAppend([Label(EntryLabel(sc1))], SimpleCode(env, s.step), Text(r));
    }
  }

  /** A loop defines its own labels, and what its body defines. */
  lemma LoopCounts(env: Env, s: Stmt, sc: seq<Scope>, k: nat, r: LabelRef)
    requires s.While? || s.For?
    ensures var kind := if s.While? then WhileS else ForS;
            Count(LoopCode(env, s, sc, k), Text(r))
            == Hit(s.pos, kind, EntryX, r) + Hit(s.pos, kind, ExitX, r) + (if s.For? then Hit(s.pos, kind, ForCondX, r) else 0)
               + Count(StmtCode(env, LoopBody(s), LoopScope(s, sc), k), Text(r))
  {
    hide Text, Count, StmtCode, EntryLabel, ExitLabel, NamedLabel, LoopGuard, LoopTail;
    var kind, sc1 := if s.While? then WhileS else ForS, LoopScope(s, sc);
    var head, body := [Label(AgainLabel(s, sc))], StmtCode(env, LoopBody(s), sc1, k);
    var back := [Goto(AgainLabel(s, sc)), Label(ExitLabel(sc1))];
    ScopeTexts(sc, s.pos, kind);
    CountLabel(ScopeRef(s.pos, kind, EntryX), r);
    CountLabel(ScopeRef(s.pos, kind, ForCondX), r);
    CountGotoLabel(AgainLabel(s, sc), ScopeRef(s.pos, kind, ExitX), r);
    LoopTailCounts(env, s, sc, r);
    CountFive(head, LoopGuard(env, s, sc), body, LoopTail(env, s, sc), back, Text(r));
  }

  lemma {:induction false} CountLoop(env: Env, s: Stmt, sc: seq<Scope>, k: nat, r: LabelRef)
    requires s.While? || s.For?
    ensures Within(Count(LoopCode(env, s, sc, k), Text(r)), Opened(s), k, Lines(s), r)
    decreases s, 0
  {
    hide Text, Count, StmtCode, LoopCode, LoopScope, Within, Hit;
    var kind := if s.While? then WhileS else ForS;
    var body := StmtCode(env, LoopBody(s), LoopScope(s, sc), k);
    LoopCounts(env, s, sc, k, r);
    CountStmt(env, LoopBody(s), LoopScope(s, sc), k, r);
    ScopeWithin(s.pos, kind, false, s.For?, k, r);
    var own := Hit(s.pos, kind, EntryX, r) + Hit(s.pos, kind, ExitX, r) + (if s.For? then Hit(s.pos, kind, ForCondX, r) else 0);
    WithinSum(own, multiset{(s.pos, kind)}, 0, Count(body, Text(r)), Opened(LoopBody(s)), Lines(LoopBody(s)), k, r);
  }

  lemma {:induction false} CountDo(env: Env, s: Stmt, sc: seq<Scope>, k: nat, r: LabelRef)
    requires s.Do?
    ensures Within(Count(StmtCode(env, s, sc, k), Text(r)), Opened(s), k, Lines(s), r)
    decreases s, 0
  {
    hide Text, Count, EntryLabel, ExitLabel, NamedLabel, DoGuard, Within;
    var sc1 := sc + [MakeScope(s.pos, DoS)];
    var body := StmtCode(env, s.dbody, sc1, k);
    ScopeTexts(sc, s.pos, DoS);
    CountLabel(ScopeRef(s.pos, DoS, EntryX), r);
    CountLabel(ScopeRef(s.pos, DoS, ExitX), r);
    DoGuardCounts(env, s.dcond, sc1, Text(r));
    CountStmt(env, s.dbody, sc1, k, r);
    CountFour([Label(EntryLabel(sc1))], body, DoGuard(env, s.dcond, sc1), [Label(ExitLabel(sc1))], Text(r));
    ScopeWithin(s.pos, DoS, false, false, k, r);
    var own := Hit(s.pos, DoS, EntryX, r) + Hit(s.pos, DoS, ExitX, r);
    WithinSum(own, multiset{(s.pos, DoS)}, 0, Count(body, Text(r)), Opened(s.dbody), Lines(s.dbody), k, r);
  }

  /** One arm defines its scope's entry and exit labels and what its body defines. */
  lemma {:induction false} CountArm(env: Env, cond: Expr, body: Stmt, sc: seq<Scope>, pos: Pos, kind: ScopeKind,
                                    k: nat, all: string, r: LabelRef)
    returns (n: nat)
    ensures var sc1 := sc + [MakeScope(pos, kind)];
            Count(ArmCode(env, cond, StmtCode(env, body, sc1, k), sc1, all), Text(r))
            == Hit(pos, kind, EntryX, r) + Hit(pos, kind, ExitX, r) + n
    ensures Within(n, Opened(body), k, Lines(body), r)
    decreases body, if body.If? then |body.elifs| + 3 else 3
  {
    hide Text, Count, EntryLabel, ExitLabel, Guard, StmtCode, Opened, Lines, Within;
    var sc1 := sc + [MakeScope(pos, kind)];
    var guard, inner := Guard(env, cond, sc1), StmtCode(env, body, sc1, k);
    ScopeTexts(sc, pos, kind);
    GuardCounts(env, cond, sc1, Text(r));
    CountLabel(ScopeRef(pos, kind, EntryX), r);
    CountGotoLabel(all, ScopeRef(pos, kind, ExitX), r);
    CountStmt(env, body, sc1, k, r);
    n := Count(inner, Text(r));
    CountFour(guard, [Label(EntryLabel(sc1))], inner, [Goto(all), Label(ExitLabel(sc1))], Text(r));
  }

  /** One else-if and what follows it. */
  lemma ElsePieces(env: Env, s: Stmt, i: nat, sc: seq<Scope>, k: nat, all: string)
    requires s.If? && i < |s.elifs|
    ensures var ElseIf(pos, cond, body) := s.elifs[i];
            var sc1 := sc + [MakeScope(pos, ElseIfS)];
            (ElseCode(env, s, i, sc, k, all)
             == ArmCode(env, cond, StmtCode(env, body, sc1, k), sc1, all)
                + ElseCode(env, s, i + 1, sc, k + Lines(body), all))
    ensures OpenedElse(s, i) == multiset{(s.elifs[i].pos, ElseIfS)} + Opened(s.elifs[i].body) + OpenedElse(s, i + 1)
    ensures LinesElse(s, i) == Lines(s.elifs[i].body) + LinesElse(s, i + 1)
  {
    hide StmtCode, ArmCode, Opened, Lines, MakeScope;
  }

  /** The else branch, if there is one. */
  lemma LastPiece(env: Env, s: Stmt, sc: seq<Scope>, k: nat, all: string)
    requires s.If?
    ensures s.els.Some? ==>
              && ElseCode(env, s, |s.elifs|, sc, k, all) == StmtCode(env, s.els.value, sc, k)
              && OpenedElse(s, |s.elifs|) == Opened(s.els.value) && LinesElse(s, |s.elifs|) == Lines(s.els.value)
    ensures s.els.None? ==>
              && ElseCode(env, s, |s.elifs|, sc, k, all) == []
              && OpenedElse(s, |s.elifs|) == multiset{} && LinesElse(s, |s.elifs|) == 0
  {
    hide StmtCode, Opened, Lines;
  }

  lemma {:induction false} CountElse(env: Env, s: Stmt, i: nat, sc: seq<Scope>, k: nat, all: string, r: LabelRef)
    requires s.If? && i <= |s.elifs|
    ensures Within(Count(ElseCode(env, s, i, sc, k, all), Text(r)), OpenedElse(s, i), k, LinesElse(s, i), r)
    decreases s, |s.elifs| - i
  {
    hide *;
    if i < |s.elifs| {
      var ElseIf(pos, cond, body) := s.elifs[i];
      var sc1 := sc + [MakeScope(pos, ElseIfS)];
      var rest := ElseCode(env, s, i + 1, sc, k + Lines(body), all);
      ElsePieces(env, s, i, sc, k, all);
      var n := CountArm(env, cond, body, sc, pos, ElseIfS, k, all, r);
      CountElse(env, s, i + 1, sc, k + Lines(body), all, r);
      CountAppend(ArmCode(env, cond, StmtCode(env, body, sc1, k), sc1, all), rest, Text(r));
      ScopeWithin(pos, ElseIfS, false, false, k, r);
      var own := Hit(pos, ElseIfS, EntryX, r) + Hit(pos, ElseIfS, ExitX, r);
      WithinSum(own, multiset{(pos, ElseIfS)}, 0, n, Opened(body), Lines(body), k, r);
      WithinSum(own + n, multiset{(pos, ElseIfS)} + Opened(body), Lines(body),
                Count(rest, Text(r)), OpenedElse(s, i + 1), LinesElse(s, i + 1), k, r);
    } else {
      LastPiece(env, s, sc, k, all);
      if s.els.Some? {
        CountStmt(env, s.els.value, sc, k, r);
      } else {
        NothingWithin(k, r);
      }
    }
  }

  lemma NothingWithin(k: nat, r: LabelRef)
    ensures Within(Count([], Text(r)), multiset{}, k, 0, r)
  {
    PlainCounts([], Text(r));
  }

  lemma IfParts(env: Env, s: Stmt, sc: seq<Scope>, k: nat)
    requires s.If?
    ensures var sc1 := sc + [MakeScope(s.pos, IfS)];
            var all := NamedLabel(sc1, "stmt_end");
            StmtCode(env, s, sc, k)
            == ArmCode(env, s.cond, StmtCode(env, s.thn, sc1, k), sc1, all)
               + ElseCode(env, s, 0, sc1, k + Lines(s.thn), all) + [Label(all)]
    ensures Opened(s) == multiset{(s.pos, IfS)} + Opened(s.thn) + OpenedElse(s, 0)
    ensures Lines(s) == Lines(s.thn) + LinesElse(s, 0)
  {
    hide ArmCode, ElseCode, NamedLabel, MakeScope, OpenedElse, LinesElse;
  }

  lemma {:induction false} CountIf(env: Env, s: Stmt, sc: seq<Scope>, k: nat, r: LabelRef)
    requires s.If?
    ensures Within(Count(StmtCode(env, s, sc, k), Text(r)), Opened(s), k, Lines(s), r)
    decreases s, |s.elifs| + 1
  {
    hide Text, Count, StmtCode, Opened, Lines, ArmCode, ElseCode, NamedLabel, Within, MakeScope, OpenedElse, LinesElse;
    IfParts(env, s, sc, k);
    var sc1 := sc + [MakeScope(s.pos, IfS)];
    var all := NamedLabel(sc1, "stmt_end");
    var arm := ArmCode(env, s.cond, StmtCode(env, s.thn, sc1, k), sc1, all);
    var rest := ElseCode(env, s, 0, sc1, k + Lines(s.thn), all);
    ScopeTexts(sc, s.pos, IfS);
    var n := CountArm(env, s.cond, s.thn, sc, s.pos, IfS, k, all, r);
    CountElse(env, s, 0, sc1, k + Lines(s.thn), all, r);
    CountLabel(ScopeRef(s.pos, IfS, StmtEndX), r);
    CountAppend(arm + rest, [Label(all)], Text(r));
    CountAppend(arm, rest, Text(r));
    ScopeWithin(s.pos, IfS, true, false, k, r);
    var own := Hit(s.pos, IfS, EntryX, r) + Hit(s.pos, IfS, ExitX, r) + Hit(s.pos, IfS, StmtEndX, r);
    WithinSum(own, multiset{(s.pos, IfS)}, 0, n, Opened(s.thn), Lines(s.thn), k, r);
    WithinSum(own + n, multiset{(s.pos, IfS)} + Opened(s.thn), Lines(s.thn),
              Count(rest, Text(r)), OpenedElse(s, 0), LinesElse(s, 0), k, r);
  }

  // ----- labels come from places, and jumps stay inside -----

  ghost predicate IsText(l: string) {
    exists r: LabelRef :: Text(r) == l
  }

  /** Every label is the text of some place, and every jump aims at a label of
      the code itself or at one of `out`. */
  ghost predicate Closed(code: seq<Instr>, out: set<string>) {
    && Aims(code) <= Defs(code) + out
    && forall l :: l in Defs(code) ==> IsText(l)
  }

  /** Where `break` and `continue` lead. */
  function Outer(sc: seq<Scope>): set<string> {
    if LoopIndex(sc) < 0 then {} else {LoopExitLabel(sc), LoopEntryLabel(sc)}
  }

  lemma {:induction false} LinksAppend(a: seq<Instr>, b: seq<Instr>)
    ensures Defs(a + b) == Defs(a) + Defs(b) && Aims(a + b) == Aims(a) + Aims(b)
  {
    if a == [] {
      assert a + b == b;
    } else {
      assert (a + b)[1..] == a[1..] + b;
      LinksAppend(a[1..], b);
    }
  }

  lemma LinksFour(a: seq<Instr>, b: seq<Instr>, c: seq<Instr>, d: seq<Instr>)
    ensures Defs(a + b + c + d) == Defs(a) + Defs(b) + Defs(c) + Defs(d)
    ensures Aims(a + b + c + d) == Aims(a) + Aims(b) + Aims(c) + Aims(d)
  {
    LinksAppend(a + b + c, d);
    LinksAppend(a + b, c);
    LinksAppend(a, b);
  }

  lemma LinksOne(i: Instr)
    ensures Defs([i]) == Def(i) && Aims([i]) == Aim(i)
  {
    assert [i][1..] == [];
  }

  lemma LinksTwo(i: Instr, j: Instr)
    ensures Defs([i, j]) == Def(i) + Def(j) && Aims([i, j]) == Aim(i) + Aim(j)
  {
    assert [i, j] == [i] + [j];
    LinksAppend([i], [j]);
    LinksOne(i);
    LinksOne(j);
  }

  lemma {:induction false} StraightLinks(code: seq<Instr>)
    requires Straight(code)
    ensures Defs(code) == {} && Aims(code) == {}
  {
    if code != [] {
      StraightLinks(code[1..]);
    }
  }

  /** Conditions jump to the scope's entry and exit only. */
  lemma {:induction false} ConditionLinks(env: Env, e: Expr, entry: string, exit: string)
    ensures Defs(ConditionCode(env, e, entry, exit)) == {}
    ensures Aims(ConditionCode(env, e, entry, exit)) <= {entry, exit}
  {
    hide Defs, Aims, Operand, Code;
    match e {
      case Rel(_, l, r) =>
        OperandPlain(env, l);
        OperandPlain(env, r);
        StraightLinks(ConditionCode(env, e, entry, exit));
      case Logic(op, l, r) =>
        var branch := if op == And then BranchUnless(HintOf(l), exit) else BranchIf(HintOf(l), entry);
        ConditionLinks(env, l, entry, exit);
        ConditionLinks(env, r, entry, exit);
        LinksOne(branch);
        LinksAppend(ConditionCode(env, l, entry, exit) + [branch], ConditionCode(env, r, entry, exit));
        LinksAppend(ConditionCode(env, l, entry, exit), [branch]);
      case _ =>
        CodePlain(env, e);
        StraightLinks(Code(env, e));
    }
  }

  lemma GuardLinks(env: Env, e: Expr, sc: seq<Scope>)
    requires sc != []
    ensures Defs(Guard(env, e, sc)) == {} && Aims(Guard(env, e, sc)) <= {EntryLabel(sc), ExitLabel(sc)}
  {
    ConditionLinks(env, e, EntryLabel(sc), ExitLabel(sc));
    LinksOne(BranchUnless(HintOf(e), ExitLabel(sc)));
    LinksAppend(ConditionCode(env, e, EntryLabel(sc), ExitLabel(sc)), [BranchUnless(HintOf(e), ExitLabel(sc))]);
  }

  lemma DoGuardLinks(env: Env, cond: Option<Expr>, sc: seq<Scope>)
    requires sc != []
    ensures Defs(DoGuard(env, cond, sc)) == {} && Aims(DoGuard(env, cond, sc)) <= {EntryLabel(sc), ExitLabel(sc)}
  {
    match cond {
      case None => LinksOne(Goto(EntryLabel(sc)));
      case Some(c) =>
        ConditionLinks(env, c, EntryLabel(sc), ExitLabel(sc));
        LinksOne(BranchIf(HintOf(c), EntryLabel(sc)));
        LinksAppend(ConditionCode(env, c, EntryLabel(sc), ExitLabel(sc)), [BranchIf(HintOf(c), EntryLabel(sc))]);
    }
  }

  lemma SimpleLinks(env: Env, s: Stmt)
    ensures Defs(SimpleCode(env, s)) == {} && Aims(SimpleCode(env, s)) == {}
  {
    if s.ExprStmt? {
      EffectPlain(env, s.e);
    }
    StraightLinks(SimpleCode(env, s));
  }

  lemma ScopeLabels(sc: seq<Scope>, pos: Pos, kind: ScopeKind)
    ensures var sc1 := sc + [MakeScope(pos, kind)];
            && IsText(EntryLabel(sc1)) && IsText(ExitLabel(sc1))
            && IsText(NamedLabel(sc1, "stmt_end")) && IsText(NamedLabel(sc1, "for_cond"))
  {
    ScopeTexts(sc, pos, kind);
  }

  /** Inside a loop's own scope. */
  lemma OuterOfLoop(sc: seq<Scope>, pos: Pos, kind: ScopeKind)
    requires IsLoop(kind)
    ensures var sc1 := sc + [MakeScope(pos, kind)];
            && Outer(sc1) == {ExitLabel(sc1), EntryLabel(sc1)}
            && LoopAround(sc1) == if kind == DoS then Testing else Stepping
  {
    PushLoop(sc, MakeScope(pos, kind));
  }

  lemma OuterOfArm(sc: seq<Scope>, pos: Pos, kind: ScopeKind)
    requires !IsLoop(kind)
    ensures var sc1 := sc + [MakeScope(pos, kind)];
            Outer(sc1) == Outer(sc) && LoopAround(sc1) == LoopAround(sc)
  {
    PushOther(sc, MakeScope(pos, kind));
  }

  lemma {:induction false} StmtClosed(env: Env, s: Stmt, sc: seq<Scope>, k: nat)
    ensures InFragment(env, s, LoopAround(sc)) ==> Closed(StmtCode(env, s, sc, k), Outer(sc))
    decreases s, if s.If? then |s.elifs| + 2 else 2
  {
    hide Defs, Aims;
    if InFragment(env, s, LoopAround(sc)) {
      match s {
        case Compound(body) => BodyClosed(env, body, sc, k);
        case If(_, _, _, _, _) => IfClosed(env, s, sc, k);
        case While(_, _, _) => LoopClosed(env, s, sc, k);
        case Do(_, _, _) => DoClosed(env, s, sc, k);
        case For(_, init, _, _, _) =>
          SimpleLinks(env, init);
          LinksAppend(SimpleCode(env, init), LoopCode(env, s, sc, k));
          LoopClosed(env, s, sc, k);
        case Break => LinksOne(Goto(LoopExitLabel(sc)));
        case Continue => LinksOne(Goto(LoopEntryLabel(sc)));
        case _ => PlainStmtLinks(env, s, sc, k);
      }
    }
  }

  /** Statements without control flow. */
  lemma PlainStmtLinks(env: Env, s: Stmt, sc: seq<Scope>, k: nat)
    requires s.Empty? || s.ExprStmt? || s.Decl? || s.ArrayDecl? || s.Return?
    ensures Straight(StmtCode(env, s, sc, k))
    ensures Defs(StmtCode(env, s, sc, k)) == {} && Aims(StmtCode(env, s, sc, k)) == {}
  {
    match s {
      case ExprStmt(e) => EffectPlain(env, e);
      case Decl(_, init) => if init.Some? { OperandPlain(env, init.value); }
      case Return(val) => if val.Some? { OperandPlain(env, val.value); }
      case _ =>
    }
    StraightLinks(StmtCode(env, s, sc, k));
  }

  lemma ClosedBehindLine(l: string, one: seq<Instr>, more: seq<Instr>, out: set<string>)
    ensures IsText(l) && Closed(one, out) && Closed(more, out) ==> Closed([Label(l)] + one + more, out)
  {
    hide Defs, Aims, IsText;
    LinksOne(Label(l));
    LinksAppend([Label(l)] + one, more);
    LinksAppend([Label(l)], one);
  }

  lemma {:induction false} BodyClosed(env: Env, ss: seq<Stmt>, sc: seq<Scope>, k: nat)
    ensures (forall i :: 0 <= i < |ss| ==> InFragment(env, ss[i], LoopAround(sc)))
        ==> Closed(BodyCode(env, ss, sc, k), Outer(sc))
    decreases ss
  {
    hide Defs, Aims, StmtCode, Outer, LineLabel, Text, InFragment, Closed, IsText, LoopAround;
    if ss == [] {
      NothingClosed(Outer(sc));
    } else {
      var k1 := k + 1 + Lines(ss[0]);
      assert IsText(LineLabel(k)) by { LineIsText(k); }
      StmtClosed(env, ss[0], sc, k + 1);
      BodyClosed(env, ss[1..], sc, k1);
      ClosedBehindLine(LineLabel(k), StmtCode(env, ss[0], sc, k + 1), BodyCode(env, ss[1..], sc, k1), Outer(sc));
    }
  }

  lemma LineIsText(k: nat)
    ensures IsText(LineLabel(k))
  {
    LineText(k);
  }

  lemma NothingClosed(out: set<string>)
    ensures Closed([], out)
  {
  }

  /** What a loop adds to the links of its body. */
  lemma LoopLinks(env: Env, s: Stmt, sc: seq<Scope>, k: nat)
    requires s.While? || s.For?
    ensures var sc1, body := LoopScope(s, sc), StmtCode(env, LoopBody(s), LoopScope(s, sc), k);
            && Defs(LoopCode(env, s, sc, k))
               == {AgainLabel(s, sc), ExitLabel(sc1)} + Defs(body) + (if s.For? then {EntryLabel(sc1)} else {})
            && Aims(LoopCode(env, s, sc, k)) <= {AgainLabel(s, sc), EntryLabel(sc1), ExitLabel(sc1)} + Aims(body)
  {
    hide Defs, Aims, StmtCode, EntryLabel, ExitLabel, AgainLabel, NamedLabel, Guard;
    var sc1 := LoopScope(s, sc);
    var head, body := [Label(AgainLabel(s, sc))], StmtCode(env, LoopBody(s), sc1, k);
    var guard, tail := LoopGuard(env, s, sc), LoopTail(env, s, sc);
    var back := [Goto(AgainLabel(s, sc)), Label(ExitLabel(sc1))];
    StraightLinks([]);
    LinksOne(Label(AgainLabel(s, sc)));
    LinksTwo(Goto(AgainLabel(s, sc)), Label(ExitLabel(sc1)));
    if LoopCond(s).Some? {
      GuardLinks(env, LoopCond(s).value, sc1);
    }
    if s.For? {
      SimpleLinks(env, s.step);
      LinksOne(Label(EntryLabel(sc1)));
      LinksAppend([Label(EntryLabel(sc1))], SimpleCode(env, s.step));
    }
    LinksFour(head, guard, body, tail);
    LinksAppend(head + guard + body + tail, back);
  }

  lemma {:induction false} LoopClosed(env: Env, s: Stmt, sc: seq<Scope>, k: nat)
    requires s.While? || s.For?
    ensures InFragment(env, s, LoopAround(sc)) ==> Closed(LoopCode(env, s, sc, k), {})
    decreases s, 0
  {
    hide Defs, Aims, StmtCode, LoopCode, EntryLabel, ExitLabel, NamedLabel, IsText, Outer;
    var kind := if s.While? then WhileS else ForS;
    ScopeLabels(sc, s.pos, kind);
    OuterOfLoop(sc, s.pos, kind);
    StmtClosed(env, LoopBody(s), LoopScope(s, sc), k);
    LoopLinks(env, s, sc, k);
  }

  lemma {:induction false} DoClosed(env: Env, s: Stmt, sc: seq<Scope>, k: nat)
    requires s.Do?
    ensures InFragment(env, s, LoopAround(sc)) ==> Closed(StmtCode(env, s, sc, k), {})
    decreases s, 0
  {
    hide Defs, Aims, EntryLabel, ExitLabel, NamedLabel, DoGuard, IsText, Outer;
    if InFragment(env, s, LoopAround(sc)) {
      var sc1 := sc + [MakeScope(s.pos, DoS)];
      var body := StmtCode(env, s.dbody, sc1, k);
      ScopeLabels(sc, s.pos, DoS);
      OuterOfLoop(sc, s.pos, DoS);
      StmtClosed(env, s.dbody, sc1, k);
      DoGuardLinks(env, s.dcond, sc1);
      LinksOne(Label(EntryLabel(sc1)));
      LinksOne(Label(ExitLabel(sc1)));
      LinksFour([Label(EntryLabel(sc1))], body, DoGuard(env, s.dcond, sc1), [Label(ExitLabel(sc1))]);
    }
  }

  /** An arm around opaque pieces. */
  lemma ClosedArm(guard: seq<Instr>, entry: string, inner: seq<Instr>, all: string, exit: string, out: set<string>)
    ensures Defs(guard) == {} && Aims(guard) <= {entry, exit} && IsText(entry) && IsText(exit) && Closed(inner, out) ==>
              Closed(guard + [Label(entry)] + inner + [Goto(all), Label(exit)], out + {all})
  {
    hide Defs, Aims, IsText;
    LinksOne(Label(entry));
    LinksTwo(Goto(all), Label(exit));
    LinksFour(guard, [Label(entry)], inner, [Goto(all), Label(exit)]);
  }

  lemma {:induction false} ArmClosed(env: Env, cond: Expr, body: Stmt, sc: seq<Scope>, pos: Pos, kind: ScopeKind,
                                     k: nat, all: string)
    requires !IsLoop(kind)
    ensures var sc1 := sc + [MakeScope(pos, kind)];
            InFragment(env, body, LoopAround(sc)) ==>
              Closed(ArmCode(env, cond, StmtCode(env, body, sc1, k), sc1, all), Outer(sc) + {all})
    decreases body, if body.If? then |body.elifs| + 3 else 3
  {
    var sc1 := sc + [MakeScope(pos, kind)];
    var guard, inner := Guard(env, cond, sc1), StmtCode(env, body, sc1, k);
    assert ArmCode(env, cond, inner, sc1, all) == guard + [Label(EntryLabel(sc1))] + inner + [Goto(all), Label(ExitLabel(sc1))];
    ScopeLabels(sc, pos, kind);
    OuterOfArm(sc, pos, kind);
    hide *;
    StmtClosed(env, body, sc1, k);
    GuardLinks(env, cond, sc1);
    ClosedArm(guard, EntryLabel(sc1), inner, all, ExitLabel(sc1), Outer(sc));
  }

  lemma {:induction false} ElseClosed(env: Env, s: Stmt, i: nat, sc: seq<Scope>, k: nat, all: string)
    requires s.If? && i <= |s.elifs|
    ensures InFragment(env, s, LoopAround(sc)) ==> Closed(ElseCode(env, s, i, sc, k, all), Outer(sc) + {all})
    decreases s, |s.elifs| - i
  {
    hide Defs, Aims, StmtCode, ArmCode, Outer, IsText;
    if i < |s.elifs| {
      var ElseIf(pos, cond, body) := s.elifs[i];
      var sc1 := sc + [MakeScope(pos, ElseIfS)];
      ArmClosed(env, cond, body, sc, pos, ElseIfS, k, all);
      ElseClosed(env, s, i + 1, sc, k + Lines(body), all);
      LinksAppend(ArmCode(env, cond, StmtCode(env, body, sc1, k), sc1, all),
                  ElseCode(env, s, i + 1, sc, k + Lines(body), all));
    } else if s.els.Some? {
      StmtClosed(env, s.els.value, sc, k);
    } else {
      StraightLinks([]);
    }
  }

  lemma {:induction false} IfClosed(env: Env, s: Stmt, sc: seq<Scope>, k: nat)
    requires s.If?
    ensures InFragment(env, s, LoopAround(sc)) ==> Closed(StmtCode(env, s, sc, k), Outer(sc))
    decreases s, |s.elifs| + 1
  {
    hide Defs, Aims, StmtCode, ArmCode, ElseCode, NamedLabel, MakeScope, Outer, IsText;
    var sc1 := sc + [MakeScope(s.pos, IfS)];
    var all := NamedLabel(sc1, "stmt_end");
    var arm := ArmCode(env, s.cond, StmtCode(env, s.thn, sc1, k), sc1, all);
    var rest := ElseCode(env, s, 0, sc1, k + Lines(s.thn), all);
    IfParts(env, s, sc, k);
    ScopeLabels(sc, s.pos, IfS);
    OuterOfArm(sc, s.pos, IfS);
    ArmClosed(env, s.cond, s.thn, sc, s.pos, IfS, k, all);
    ElseClosed(env, s, 0, sc1, k + Lines(s.thn), all);
    LinksOne(Label(all));
    LinksAppend(arm + rest, [Label(all)]);
    LinksAppend(arm, rest);
  }

  // ----- whole functions -----

  lemma {:induction false} DefsHold(code: seq<Instr>, l: string)
    ensures l in Defs(code) <==> exists i :: 0 <= i < |code| && code[i] == Label(l)
  {
    if code != [] {
      DefsHold(code[1..], l);
      assert l in Defs(code[1..]) ==> exists i :: 0 <= i < |code| - 1 && code[1..][i] == code[i + 1] == Label(l);
    }
  }

  lemma {:induction false} AimsHold(code: seq<Instr>, i: nat)
    requires i < |code|
    ensures Aim(code[i]) <= Aims(code)
  {
    if i > 0 {
      AimsHold(code[1..], i - 1);
    }
  }

  lemma CountMethod(env: Env, body: seq<Stmt>, r: LabelRef)
    ensures Within(Count(MethodCode(env, body), Text(r)), OpenedAll(body), 0, LinesAll(body), r)
  {
    hide Text, Within, BodyCode, OpenedAll, LinesAll;
    var last := if EndsInReturn(body) then [] else [Instr.Return];
    CountBody(env, body, [], 0, r);
    CountAppend(BodyCode(env, body, [], 0), last, Text(r));
    PlainCounts(last, Text(r));
  }

  lemma MethodClosed(env: Env, body: seq<Stmt>)
    requires FunctionInFragment(env, body)
    ensures Closed(MethodCode(env, body), {})
  {
    hide BodyCode;
    var last := if EndsInReturn(body) then [] else [Instr.Return];
    assert LoopAround([]) == NoLoop;
    BodyClosed(env, body, [], 0);
    LinksAppend(BodyCode(env, body, [], 0), last);
    StraightLinks(last);
  }

  /** Two definitions of one label are counted twice. */
  lemma TwiceCounted(code: seq<Instr>, i: nat, j: nat, l: string)
    requires i < j < |code| && code[i] == code[j] == Label(l)
    ensures Count(code, l) >= 2
  {
    var a, b := code[..i + 1], code[i + 1..];
    assert code == a + b;
    CountAppend(a, b, l);
    Occurs(a, l, i);
    Occurs(b, l, j - i - 1);
  }

  lemma {:induction false} UniqueCounted(code: seq<Instr>, l: string)
    requires UniqueLabels(code)
    ensures Count(code, l) <= 1
  {
    if code != [] {
      var rest := code[1..];
      forall i, j | 0 <= i < j < |rest| && rest[i].Label? && rest[j].Label?
        ensures rest[i].name != rest[j].name
      {
        assert rest[i] == code[i + 1] && rest[j] == code[j + 1];
      }
      UniqueCounted(rest, l);
      if Count(rest, l) > 0 {
        var j := Occurrence(rest, l);
        assert code[j + 1] == rest[j];
        assert code[0] != Label(l);
      }
    }
  }

  lemma {:induction false} Occurrence(code: seq<Instr>, l: string) returns (i: nat)
    requires Count(code, l) > 0
    ensures i < |code| && code[i] == Label(l)
  {
    if code[0] == Label(l) {
      i := 0;
    } else {
      var j := Occurrence(code[1..], l);
      i := j + 1;
    }
  }

  /** The generated method defines every label once if and only if no two
      scopes of the function share position and kind. */
  lemma LabelsUnique(env: Env, body: seq<Stmt>)
    requires FunctionInFragment(env, body)
    ensures UniqueLabels(MethodCode(env, body)) <==> DistinctSites(body)
  {
    hide Count, Text, MethodCode, OpenedAll, FunctionInFragment;
    var code := MethodCode(env, body);
    if DistinctSites(body) {
      MethodClosed(env, body);
      forall i, j | 0 <= i < j < |code| && code[i].Label? && code[j].Label?
        ensures code[i].name != code[j].name
      {
        if code[i].name == code[j].name {
          DefsHold(code, code[i].name);
          var r: LabelRef :| Text(r) == code[i].name;
          TwiceCounted(code, i, j, Text(r));
          CountMethod(env, body, r);
        }
      }
    }
    if UniqueLabels(code) {
      forall x: Site
        ensures OpenedAll(body)[x] <= 1
      {
        var r := ScopeRef(x.0, x.1, ExitX);
        CountMethod(env, body, r);
        UniqueCounted(code, Text(r));
      }
    }
  }

  /** Every jump of a generated method names a label the method defines. */
  lemma JumpsLand(env: Env, body: seq<Stmt>, i: nat, l: string)
    requires FunctionInFragment(env, body) && i < |MethodCode(env, body)|
    requires l in Aim(MethodCode(env, body)[i])
    ensures Target(MethodCode(env, body), l) < |MethodCode(env, body)|
    ensures DistinctSites(body) ==>
              exists j :: 0 <= j < |MethodCode(env, body)| && MethodCode(env, body)[j] == Label(l)
                && forall j' :: 0 <= j' < |MethodCode(env, body)| && MethodCode(env, body)[j'] == Label(l) ==> j' == j
  {
    hide MethodCode, FunctionInFragment, DistinctSites;
    var code := MethodCode(env, body);
    MethodClosed(env, body);
    AimsHold(code, i);
    DefsHold(code, l);
    FindsDefined(code, l, 0);
    LabelsUnique(env, body);
  }

  lemma {:induction false} FindsDefined(code: seq<Instr>, l: string, from: nat)
    requires from <= |code|
    ensures (exists i :: from <= i < |code| && code[i] == Label(l)) ==> Find(code, l, from) < |code|
    decreases |code| - from
  {
    if from < |code| {
      FindsDefined(code, l, from + 1);
    }
  }
}
