/** Conditions branch by their truth value. A chain of one logical operator, of
    any length and nesting, evaluates its operands left to right, stops at the
    first that decides it, and leaves to the exit label (`&&`, false), to the
    entry label (`||`, true), or to the branch behind it. */
module ConditionSimulation {
  import opened Ast
  import opened World
  import opened Jvm
  import opened Labels
  import opened CSemantics
  import opened CodeSpec
  import opened SimulationBase
  import opened ExpressionSimulation

  /** The operands on the stack settle the pending comparison as `truth`. */
  ghost predicate Decides(h: OpHint, s: seq<Value>, truth: bool) {
    match h
    case Hint(op) => |s| == 2 && s[0].IntV? && s[1].IntV? && Compare(op, s[0].n, s[1].n) == truth
    case NoHint => |s| == 1 && s[0].IntV? && (s[0].n != 0) == truth
  }

  /** Running `c` gets to `pc` with a comparison pending whose verdict is `truth`. */
  ghost predicate Pending(ctx: Ctx, c: Config, pc: nat, h: OpHint, truth: bool, st: Store)
    requires ctx.env.Valid()
  {
    exists s :: Decides(h, s, truth) && Reaches(ctx, c, Here(ctx, pc, s, st))
  }

  ghost predicate Defined(ctx: Ctx, l: string) {
    Target(ctx.code, l) < |ctx.code|
  }

  lemma BranchUnlessSteps(ctx: Ctx, h: OpHint, l: string, pc: nat, s: seq<Value>, truth: bool, st: Store)
    requires ctx.env.Valid() && At(ctx, pc, [BranchUnless(h, l)]) && Decides(h, s, truth) && Defined(ctx, l)
    ensures Next(ctx, pc, s, st) == Here(ctx, if truth then pc + 1 else Target(ctx.code, l), [], st)
  {
    hide Target, At, UniqueLabels, Env.Valid;
    AtOne(ctx, pc, BranchUnless(h, l));
    assert Drop(s, |s|) == [];
  }

  lemma BranchIfSteps(ctx: Ctx, h: OpHint, l: string, pc: nat, s: seq<Value>, truth: bool, st: Store)
    requires ctx.env.Valid() && At(ctx, pc, [BranchIf(h, l)]) && Decides(h, s, truth) && Defined(ctx, l)
    ensures Next(ctx, pc, s, st) == Here(ctx, if truth then Target(ctx.code, l) else pc + 1, [], st)
  {
    hide Target, At, UniqueLabels, Env.Valid;
    AtOne(ctx, pc, BranchIf(h, l));
    assert Drop(s, |s|) == [];
  }

  /** A pending comparison followed by a branch. */
  lemma PendingUnless(ctx: Ctx, c: Config, pc: nat, h: OpHint, truth: bool, st: Store, l: string)
    requires ctx.env.Valid() && Pending(ctx, c, pc, h, truth, st) && At(ctx, pc, [BranchUnless(h, l)]) && Defined(ctx, l)
    ensures Reaches(ctx, c, Here(ctx, if truth then pc + 1 else Target(ctx.code, l), [], st))
  {
    hide Jvm.Step, Reaches, At, FrameOf;
    var s :| Decides(h, s, truth) && Reaches(ctx, c, Here(ctx, pc, s, st));
    BranchUnlessSteps(ctx, h, l, pc, s, truth, st);
    ThenStep(ctx, c, Here(ctx, pc, s, st));
  }

  lemma PendingIf(ctx: Ctx, c: Config, pc: nat, h: OpHint, truth: bool, st: Store, l: string)
    requires ctx.env.Valid() && Pending(ctx, c, pc, h, truth, st) && At(ctx, pc, [BranchIf(h, l)]) && Defined(ctx, l)
    ensures Reaches(ctx, c, Here(ctx, if truth then Target(ctx.code, l) else pc + 1, [], st))
  {
    hide Jvm.Step, Reaches, At, FrameOf;
    var s :| Decides(h, s, truth) && Reaches(ctx, c, Here(ctx, pc, s, st));
    BranchIfSteps(ctx, h, l, pc, s, truth, st);
    ThenStep(ctx, c, Here(ctx, pc, s, st));
  }

  /** How a condition in a chain of `op` can end when run from `c`. */
  ghost predicate Settles(ctx: Ctx, c: Config, op: LogicOp, e: Expr, entry: string, exit: string,
                          res: Eval, pc: nat)
    requires ctx.env.Valid()
  {
    match res
    case Err(why) => Reaches(ctx, c, Faulted(why))
    case Ok(v, st) =>
      || Pending(ctx, c, pc, HintOf(e), v != 0, st)
      || (e.Logic? && (v != 0) == (op == Or)
          && Reaches(ctx, c, Here(ctx, Target(ctx.code, if op == And then exit else entry), [], st)))
  }

  lemma SettlesFrom(ctx: Ctx, c: Config, c1: Config, op: LogicOp, e: Expr, entry: string, exit: string,
                    res: Eval, pc: nat)
    requires ctx.env.Valid() && Reaches(ctx, c, c1) && Settles(ctx, c1, op, e, entry, exit, res, pc)
    ensures Settles(ctx, c, op, e, entry, exit, res, pc)
  {
    hide Jvm.Step, Reaches, At, FrameOf, Target;
    match res {
      case Err(why) => Then(ctx, c, c1, Faulted(why));
      case Ok(v, st) =>
        if Pending(ctx, c1, pc, HintOf(e), v != 0, st) {
          var s :| Decides(HintOf(e), s, v != 0) && Reaches(ctx, c1, Here(ctx, pc, s, st));
          Then(ctx, c, c1, Here(ctx, pc, s, st));
        } else {
          Then(ctx, c, c1, Here(ctx, Target(ctx.code, if op == And then exit else entry), [], st));
        }
    }
  }

  /** A condition that is a single value. */
  lemma AtomRuns(ctx: Ctx, op: LogicOp, e: Expr, entry: string, exit: string, at: nat, st: Store)
    requires ctx.env.Valid() && IsAtom(ctx.env, e) && At(ctx, at, Code(ctx.env, e))
    ensures Settles(ctx, Here(ctx, at, [], st), op, e, entry, exit, ValueOf(ctx, e, st), at + |Code(ctx.env, e)|)
  {
    hide Jvm.Step, Reaches, At, FrameOf, Target, Evaluate, Code;
    CodeRuns(ctx, e, true, at, [], st);
    match ValueOf(ctx, e, st) {
      case Err(_) =>
      case Ok(v, st1) =>
        assert [] + [IntV(v)] == [IntV(v)];
        assert Decides(NoHint, [IntV(v)], v != 0);
    }
  }

  lemma RelationRuns(ctx: Ctx, op: LogicOp, e: Expr, entry: string, exit: string, at: nat, st: Store)
    requires ctx.env.Valid() && e.Rel? && IsValue(ctx.env, e.l, true) && IsValue(ctx.env, e.r, true)
    requires At(ctx, at, Operand(ctx.env, e.l) + Operand(ctx.env, e.r))
    ensures Settles(ctx, Here(ctx, at, [], st), op, e, entry, exit, ValueOf(ctx, e, st),
                    at + |Operand(ctx.env, e.l) + Operand(ctx.env, e.r)|)
  {
    hide Jvm.Step, Reaches, At, FrameOf, Target, Operand;
    TwoRun(ctx, e, true, at, [], st);
    if ValueOf(ctx, e.l, st).Ok? && ValueOf(ctx, e.r, ValueOf(ctx, e.l, st).st).Ok? {
      var Ok(a, st1) := ValueOf(ctx, e.l, st);
      var Ok(b, st2) := ValueOf(ctx, e.r, st1);
      assert [] + [IntV(a)] + [IntV(b)] == [IntV(a), IntV(b)];
      assert Decides(Hint(e.rop), [IntV(a), IntV(b)], Compare(e.rop, a, b));
    }
  }

  lemma {:induction false} ChainRuns(ctx: Ctx, op: LogicOp, e: Expr, entry: string, exit: string, at: nat, st: Store)
    requires ctx.env.Valid() && IsChain(ctx.env, op, e) && At(ctx, at, ConditionCode(ctx.env, e, entry, exit))
    requires e.Logic? ==> Defined(ctx, if op == And then exit else entry)
    ensures Settles(ctx, Here(ctx, at, [], st), op, e, entry, exit, ValueOf(ctx, e, st),
                    at + |ConditionCode(ctx.env, e, entry, exit)|)
    decreases e
  {
    hide Jvm.Step, Reaches, At, FrameOf, Target, Pending, Env.Valid, Defined, BranchIf, BranchUnless, Operand;
    match e {
      case Rel(_, _, _) => RelationRuns(ctx, op, e, entry, exit, at, st);
      case Logic(_, l, r) =>
        var left, right := ConditionCode(ctx.env, l, entry, exit), ConditionCode(ctx.env, r, entry, exit);
        var out := if op == And then exit else entry;
        var branch := [if op == And then BranchUnless(HintOf(l), out) else BranchIf(HintOf(l), out)];
        AtSplit(ctx, at, left + branch, right);
        AtSplit(ctx, at, left, branch);
        ChainRuns(ctx, op, l, entry, exit, at, st);
        var c, pc := Here(ctx, at, [], st), at + |left|;
        if ValueOf(ctx, l, st).Ok? && Pending(ctx, c, pc, HintOf(l), ValueOf(ctx, l, st).v != 0, ValueOf(ctx, l, st).st) {
          var Ok(a, st1) := ValueOf(ctx, l, st);
          if op == And {
            PendingUnless(ctx, c, pc, HintOf(l), a != 0, st1, out);
          } else {
            PendingIf(ctx, c, pc, HintOf(l), a != 0, st1, out);
          }
          if (a != 0) != (op == Or) {
            ChainRuns(ctx, op, r, entry, exit, pc + 1, st1);
            ChainContinues(ctx, c, op, e, entry, exit, pc + 1, st1);
          }
        }
      case _ => AtomRuns(ctx, op, e, entry, exit, at, st);
    }
  }

  /** The first operand did not decide, so the second one's end is the chain's. */
  lemma ChainContinues(ctx: Ctx, c: Config, op: LogicOp, e: Expr, entry: string, exit: string, pc: nat, st1: Store)
    requires ctx.env.Valid() && e.Logic? && Reaches(ctx, c, Here(ctx, pc, [], st1))
    requires Settles(ctx, Here(ctx, pc, [], st1), op, e.r, entry, exit, ValueOf(ctx, e.r, st1),
                     pc + |ConditionCode(ctx.env, e.r, entry, exit)|)
    ensures Settles(ctx, c, op, e, entry, exit,
                    match ValueOf(ctx, e.r, st1)
                    case Err(why) => Err(why)
                    case Ok(b, st2) => Ok(BoolInt(b != 0), st2),
                    pc + |ConditionCode(ctx.env, e.r, entry, exit)|)
  {
    hide Jvm.Step, Reaches, At, FrameOf, Target, Pending, Evaluate, ConditionCode;
    SettlesFrom(ctx, c, Here(ctx, pc, [], st1), op, e.r, entry, exit, ValueOf(ctx, e.r, st1),
                pc + |ConditionCode(ctx.env, e.r, entry, exit)|);
  }

  /** Where a test that continues at `yes` or at `no` goes. */
  ghost predicate Branches(ctx: Ctx, c: Config, res: Eval, yes: nat, no: nat)
    requires ctx.env.Valid()
  {
    match res
    case Err(why) => Reaches(ctx, c, Faulted(why))
    case Ok(v, st) => Reaches(ctx, c, Here(ctx, if v != 0 then yes else no, [], st))
  }

  /** The test before an `if` arm or a loop body: false goes to the exit label, true falls through.
      With `||`, the entry label must stand right behind the test. */
  lemma GuardRuns(ctx: Ctx, e: Expr, sc: seq<Scope>, at: nat, st: Store)
    requires ctx.env.Valid() && sc != [] && At(ctx, at, Guard(ctx.env, e, sc)) && Defined(ctx, ExitLabel(sc))
    requires || IsChain(ctx.env, And, e)
             || (IsChain(ctx.env, Or, e) && Defined(ctx, EntryLabel(sc))
                 && Target(ctx.code, EntryLabel(sc)) == at + |Guard(ctx.env, e, sc)|)
    ensures Branches(ctx, Here(ctx, at, [], st), ValueOf(ctx, e, st),
                     at + |Guard(ctx.env, e, sc)|, Target(ctx.code, ExitLabel(sc)))
  {
    hide Jvm.Step, Reaches, At, FrameOf, Target, Pending, Evaluate, ConditionCode, ExitLabel, EntryLabel;
    var entry, exit := EntryLabel(sc), ExitLabel(sc);
    var body := ConditionCode(ctx.env, e, entry, exit);
    var op := if IsChain(ctx.env, And, e) then And else Or;
    AtSplit(ctx, at, body, [BranchUnless(HintOf(e), exit)]);
    ChainRuns(ctx, op, e, entry, exit, at, st);
    if ValueOf(ctx, e, st).Ok? {
      var Ok(v, st1) := ValueOf(ctx, e, st);
      if Pending(ctx, Here(ctx, at, [], st), at + |body|, HintOf(e), v != 0, st1) {
        PendingUnless(ctx, Here(ctx, at, [], st), at + |body|, HintOf(e), v != 0, st1, exit);
      }
    }
  }

  /** The test behind a `do` body: true goes back to the entry label, false falls through to the exit label. */
  lemma DoGuardRuns(ctx: Ctx, e: Expr, sc: seq<Scope>, at: nat, st: Store)
    requires ctx.env.Valid() && sc != [] && IsCondition(ctx.env, e) && At(ctx, at, DoGuard(ctx.env, Some(e), sc))
    requires Defined(ctx, EntryLabel(sc)) && Defined(ctx, ExitLabel(sc))
    requires Target(ctx.code, ExitLabel(sc)) == at + |DoGuard(ctx.env, Some(e), sc)|
    ensures Branches(ctx, Here(ctx, at, [], st), ValueOf(ctx, e, st),
                     Target(ctx.code, EntryLabel(sc)), at + |DoGuard(ctx.env, Some(e), sc)|)
  {
    hide Jvm.Step, Reaches, At, FrameOf, Target, Pending, Evaluate, ConditionCode, ExitLabel, EntryLabel;
    var entry, exit := EntryLabel(sc), ExitLabel(sc);
    var body := ConditionCode(ctx.env, e, entry, exit);
    var op := if IsChain(ctx.env, And, e) then And else Or;
    AtSplit(ctx, at, body, [BranchIf(HintOf(e), entry)]);
    ChainRuns(ctx, op, e, entry, exit, at, st);
    if ValueOf(ctx, e, st).Ok? {
      var Ok(v, st1) := ValueOf(ctx, e, st);
      if Pending(ctx, Here(ctx, at, [], st), at + |body|, HintOf(e), v != 0, st1) {
        PendingIf(ctx, Here(ctx, at, [], st), at + |body|, HintOf(e), v != 0, st1, entry);
      }
    }
  }
}
