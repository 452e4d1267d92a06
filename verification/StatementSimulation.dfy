/** The code of a statement does what the statement does: from an empty operand
    stack it ends, with an empty operand stack and the same store and call
    trace, behind the code, at the innermost loop's exit label (`break`) or
    entry label (`continue`), or returned, or stopped for the same reason; and
    while the statement is still looping, so is the code. */
module StatementSimulation {
  import opened Ast
  import opened World
  import opened Jvm
  import opened Labels
  import opened CSemantics
  import opened CodeSpec
  import opened SimulationBase
  import opened ExpressionSimulation
  import opened ConditionSimulation
  import Int32

  ghost predicate Ends(ctx: Ctx, c: Config, o: Outcome, pc: nat, sc: seq<Scope>, fuel: nat)
    requires ctx.env.Valid()
  {
    match o
    case Normal(st) => Reaches(ctx, c, Here(ctx, pc, [], st))
    case Broke(st) =>
      LoopAround(sc) != NoLoop && Reaches(ctx, c, Here(ctx, Target(ctx.code, LoopExitLabel(sc)), [], st))
    case Continued(st) =>
      LoopAround(sc) == Stepping && Reaches(ctx, c, Here(ctx, Target(ctx.code, LoopEntryLabel(sc)), [], st))
    case Done(v, w) => Reaches(ctx, c, Returned(v, w))
    case Error(why) => Reaches(ctx, c, Faulted(why))
    case Timeout => RunsFor(ctx, c, fuel)
  }

  /** The context a statement's code is run in: its jump targets exist. */
  ghost predicate Placed(ctx: Ctx, sc: seq<Scope>) {
    && ctx.env.Valid()
    && UniqueLabels(ctx.code)
    && (LoopAround(sc) != NoLoop ==> Defined(ctx, LoopExitLabel(sc)))
    && (LoopAround(sc) == Stepping ==> Defined(ctx, LoopEntryLabel(sc)))
  }

  lemma EndsFrom(ctx: Ctx, c: Config, c1: Config, o: Outcome, pc: nat, sc: seq<Scope>, fuel: nat)
    requires ctx.env.Valid() && Reaches(ctx, c, c1) && Ends(ctx, c1, o, pc, sc, fuel)
    ensures Ends(ctx, c, o, pc, sc, fuel)
  {
    hide Reaches, RunsFor, FrameOf, Target, LoopExitLabel, LoopEntryLabel, LoopAround;
    match o {
      case Normal(st) => Then(ctx, c, c1, Here(ctx, pc, [], st));
      case Broke(st) => Then(ctx, c, c1, Here(ctx, Target(ctx.code, LoopExitLabel(sc)), [], st));
      case Continued(st) => Then(ctx, c, c1, Here(ctx, Target(ctx.code, LoopEntryLabel(sc)), [], st));
      case Done(v, w) => Then(ctx, c, c1, Returned(v, w));
      case Error(why) => Then(ctx, c, c1, Faulted(why));
      case Timeout => ReachesRunsFor(ctx, c, c1, fuel);
    }
  }

  /** A label is its own target, and does nothing. */
  lemma AtLabel(ctx: Ctx, pc: nat, l: string, st: Store)
    requires ctx.env.Valid() && UniqueLabels(ctx.code) && At(ctx, pc, [Label(l)])
    ensures Target(ctx.code, l) == pc && Defined(ctx, l)
    ensures Next(ctx, pc, [], st) == Here(ctx, pc + 1, [], st)
    ensures Reaches(ctx, Here(ctx, pc, [], st), Here(ctx, pc + 1, [], st))
  {
    AtOne(ctx, pc, Label(l));
    TargetIs(ctx.code, l, pc);
    Steps(ctx, Here(ctx, pc, [], st));
  }

  lemma AtGoto(ctx: Ctx, pc: nat, l: string, st: Store)
    requires ctx.env.Valid() && At(ctx, pc, [Goto(l)]) && Defined(ctx, l)
    ensures Reaches(ctx, Here(ctx, pc, [], st), Here(ctx, Target(ctx.code, l), [], st))
  {
    AtOne(ctx, pc, Goto(l));
    Steps(ctx, Here(ctx, pc, [], st));
  }

  lemma {:induction false} StmtRuns(ctx: Ctx, s: Stmt, sc: seq<Scope>, k: nat, at: nat, st: Store, fuel: nat)
    requires Placed(ctx, sc) && InFragment(ctx.env, s, LoopAround(sc))
    requires At(ctx, at, StmtCode(ctx.env, s, sc, k))
    ensures Ends(ctx, Here(ctx, at, [], st), Exec(ctx.env, ctx.callee, s, st, fuel),
                 at + |StmtCode(ctx.env, s, sc, k)|, sc, fuel)
    decreases fuel, s, if s.If? then |s.elifs| + 2 else 2
  {
    hide Reaches, RunsFor, At, FrameOf, Target, Defined, LoopAround, LoopExitLabel, LoopEntryLabel, Jvm.Step, UniqueLabels, Loop, DoLoop, ExecAll, ExecElse, LoopCode, BodyCode, ArmCode, ElseCode, DoGuard, Effect, Operand, Evaluate, IsValue, IsChain, LoadVar, SaveVar, Lines;
    var c := Here(ctx, at, [], st);
    match s {
      case Empty => Stays(ctx, c);
      case ExprStmt(e) => SimpleRuns(ctx, s, at, st);
      case Decl(x, init) =>
        if init.None? { Stays(ctx, c); } else { DeclRuns(ctx, s, at, st); }
      case ArrayDecl(_, _) => ArrayDeclRuns(ctx, s, at, st);
      case Compound(body) => BodyRuns(ctx, body, sc, k, at, st, fuel);
      case If(_, _, _, _, _) => IfRuns(ctx, s, sc, k, at, st, fuel);
      case While(_, _, _) => LoopRuns(ctx, s, sc, k, at, st, fuel);
      case Do(_, _, _) => DoRuns(ctx, s, sc, k, at, st, fuel);
      case For(_, init, _, _, _) =>
        AtSplit(ctx, at, SimpleCode(ctx.env, init), LoopCode(ctx.env, s, sc, k));
        SimpleRuns(ctx, init, at, st);
        match Exec(ctx.env, ctx.callee, init, st, fuel) {
          case Normal(st1) =>
            var at1 := at + |SimpleCode(ctx.env, init)|;
            LoopRuns(ctx, s, sc, k, at1, st1, fuel);

            EndsFrom(ctx, c, Here(ctx, at1, [], st1), Loop(ctx.env, ctx.callee, s, st1, fuel),
                     at + |StmtCode(ctx.env, s, sc, k)|, sc, fuel);
          case _ =>
        }
      case Break => AtGoto(ctx, at, LoopExitLabel(sc), st);
      case Continue => AtGoto(ctx, at, LoopEntryLabel(sc), st);
      case Return(_) => ReturnRuns(ctx, s, at, st);
    }
  }

  /** The outcome is a normal end at `pc` or an error, and is reached from `c`. */
  ghost predicate Passes(ctx: Ctx, c: Config, o: Outcome, pc: nat)
    requires ctx.env.Valid()
  {
    match o
    case Normal(st) => Reaches(ctx, c, Here(ctx, pc, [], st))
    case Error(why) => Reaches(ctx, c, Faulted(why))
    case _ => false
  }

  /** Empty and expression statements. */
  lemma SimpleRuns(ctx: Ctx, s: Stmt, at: nat, st: Store)
    requires ctx.env.Valid() && IsSimple(ctx.env, s) && At(ctx, at, SimpleCode(ctx.env, s))
    ensures forall fuel: nat ::
              Passes(ctx, Here(ctx, at, [], st), Exec(ctx.env, ctx.callee, s, st, fuel), at + |SimpleCode(ctx.env, s)|)
  {
    hide Reaches, At, FrameOf, Jvm.Step, Effect, Evaluate;
    if s.ExprStmt? {
      EffectRuns(ctx, s.e, at, [], st);
    } else {
      Stays(ctx, Here(ctx, at, [], st));
    }
  }

  lemma DeclRuns(ctx: Ctx, s: Stmt, at: nat, st: Store)
    requires ctx.env.Valid() && s.Decl? && s.init.Some? && InFragment(ctx.env, s, NoLoop)
    requires At(ctx, at, Operand(ctx.env, s.init.value) + [SaveVar(ctx.env, s.x)])
    ensures match ValueOf(ctx, s.init.value, st)
            case Err(why) => Reaches(ctx, Here(ctx, at, [], st), Faulted(why))
            case Ok(v, st1) => Reaches(ctx, Here(ctx, at, [], st),
                 Here(ctx, at + |Operand(ctx.env, s.init.value)| + 1, [], WriteVar(ctx.env, s.x, IntV(v), st1)))
  {
    hide Reaches, At, FrameOf, Jvm.Step, Evaluate, Operand;
    var e := s.init.value;
    AtSplit(ctx, at, Operand(ctx.env, e), [SaveVar(ctx.env, s.x)]);
    OperandRuns(ctx, e, false, at, [], st);
    match ValueOf(ctx, e, st) {
      case Err(why) =>
      case Ok(v, st1) =>
        var pc := at + |Operand(ctx.env, e)|;
        StepSaveVar(ctx, pc, [], st1, s.x, v);
        ThenStep(ctx, Here(ctx, at, [], st), Here(ctx, pc, [] + [IntV(v)], st1));
    }
  }

  /** The store after an array declaration's code: the new array is in the
      local, or in the global of that name if there is one. */
  function ArrayStored(env: Env, x: string, size: nat, st: Store): Store {
    var ref, st1 := RefV(|st.world.heap|), st.(world := Allocate(st.world, size));
    if x in env.globalKinds then st1.(world := st1.world.(globals := st1.world.globals[x := ref]))
    else WriteVar(env, x, ref, st1)
  }

  lemma ArrayDeclSteps(ctx: Ctx, x: string, size: nat, at: nat, st: Store)
    requires ctx.env.Valid() && x in ctx.env.slots && Int32.Fits(size)
    requires At(ctx, at, [Push(size), NewArray, SaveArray(ctx.env, x)])
    ensures Run(ctx.code, ctx.callee, Here(ctx, at, [], st), 3) == Here(ctx, at + 3, [], ArrayStored(ctx.env, x, size, st))
  {
    hide Jvm.Step, FrameOf, At, Allocate, SaveArray, WriteVar, ArrayStored;
    var save, ref := SaveArray(ctx.env, x), RefV(|st.world.heap|);
    var st1 := st.(world := Allocate(st.world, size));
    assert [Push(size), NewArray, save] == [Push(size)] + [NewArray] + [save];
    AtSplit(ctx, at, [Push(size)] + [NewArray], [save]);
    AtSplit(ctx, at, [Push(size)], [NewArray]);
    StepPush(ctx, at, [], st, size);
    StepNewArray(ctx, at + 1, st, size);
    StepSaveArray(ctx, at + 2, x, size, st);
    assert [] + [IntV(size)] == [IntV(size)];
    ThreeSteps(ctx, Here(ctx, at, [], st));
  }

  lemma StepSaveArray(ctx: Ctx, pc: nat, x: string, size: nat, st: Store)
    requires ctx.env.Valid() && x in ctx.env.slots && At(ctx, pc, [SaveArray(ctx.env, x)])
    ensures Next(ctx, pc, [RefV(|st.world.heap|)], st.(world := Allocate(st.world, size)))
         == Here(ctx, pc + 1, [], ArrayStored(ctx.env, x, size, st))
  {
    hide Next, FrameOf, At, Allocate, WriteVar;
    var st1 := st.(world := Allocate(st.world, size));
    if x in ctx.env.globalKinds {
      StepPutArray(ctx, pc, st1, x, |st.world.heap|);
    } else {
      StepAStore(ctx, pc, st1, x, |st.world.heap|);
    }
  }

  lemma ThreeSteps(ctx: Ctx, c: Config)
    ensures Run(ctx.code, ctx.callee, c, 3)
         == Jvm.Step(ctx.code, ctx.callee, Jvm.Step(ctx.code, ctx.callee, Jvm.Step(ctx.code, ctx.callee, c)))
  {
    hide Jvm.Step;
    var c1 := Jvm.Step(ctx.code, ctx.callee, c);
    var c2 := Jvm.Step(ctx.code, ctx.callee, c1);
    assert Run(ctx.code, ctx.callee, c2, 1) == Run(ctx.code, ctx.callee, Jvm.Step(ctx.code, ctx.callee, c2), 0);
    assert Run(ctx.code, ctx.callee, c1, 2) == Run(ctx.code, ctx.callee, c2, 1);
  }

  lemma ArrayDeclRuns(ctx: Ctx, s: Stmt, at: nat, st: Store)
    requires ctx.env.Valid() && s.ArrayDecl? && s.x in ctx.env.slots && s.x !in ctx.env.globalKinds && Int32.Fits(s.size)
    requires At(ctx, at, [Push(s.size), NewArray, SaveArray(ctx.env, s.x)])
    ensures Reaches(ctx, Here(ctx, at, [], st),
                    Here(ctx, at + 3, [],
                         WriteVar(ctx.env, s.x, RefV(|st.world.heap|), st.(world := Allocate(st.world, s.size)))))
  {
    ArrayDeclSteps(ctx, s.x, s.size, at, st);
  }

  /** A local array that has a global's name is lost: its declaration
      overwrites the global and leaves the local unset. */
  lemma ShadowingArrayDecl(ctx: Ctx, x: string, size: nat, at: nat, st: Store)
    requires ctx.env.Valid() && x in ctx.env.slots && x in ctx.env.globalKinds && Int32.Fits(size)
    requires At(ctx, at, [Push(size), NewArray, SaveArray(ctx.env, x)])
    ensures var ref, w := RefV(|st.world.heap|), Allocate(st.world, size);
            Reaches(ctx, Here(ctx, at, [], st), Here(ctx, at + 3, [], st.(world := w.(globals := w.globals[x := ref]))))
  {
    ArrayDeclSteps(ctx, x, size, at, st);
  }

  /** The code reaches the state C asks for if and only if no global has the
      name (or local and global already held the reference that is yet to be made). */
  lemma ArrayDeclExact(ctx: Ctx, x: string, size: nat, at: nat, st: Store)
    requires ctx.env.Valid() && x in ctx.env.slots && Int32.Fits(size)
    requires At(ctx, at, [Push(size), NewArray, SaveArray(ctx.env, x)])
    ensures var ref, st1 := RefV(|st.world.heap|), st.(world := Allocate(st.world, size));
            Run(ctx.code, ctx.callee, Here(ctx, at, [], st), 3) == Here(ctx, at + 3, [], WriteVar(ctx.env, x, ref, st1))
            <==> || x !in ctx.env.globalKinds
                 || (x in st.locals && st.locals[x] == ref && x in st.world.globals && st.world.globals[x] == ref)
  {
    var ref, st1 := RefV(|st.world.heap|), st.(world := Allocate(st.world, size));
    ArrayDeclSteps(ctx, x, size, at, st);
    if x in ctx.env.globalKinds {
      hide Jvm.Step, Run, At;
      SlotHolds(ctx.env, st.locals, x);
      SlotHolds(ctx.env, st1.locals[x := ref], x);
      FramesDiffer(ctx.env, x, ref, st1);
    }
  }

  lemma FramesDiffer(env: Env, x: string, ref: Value, st: Store)
    requires env.Valid() && x in env.slots
    ensures var lost, kept := st.(world := st.world.(globals := st.world.globals[x := ref])), WriteVar(env, x, ref, st);
            FrameOf(env, lost) == FrameOf(env, kept)
            <==> x in st.locals && st.locals[x] == ref && x in st.world.globals && st.world.globals[x] == ref
  {
    var lost, kept := st.(world := st.world.(globals := st.world.globals[x := ref])), WriteVar(env, x, ref, st);
    SlotHolds(env, st.locals, x);
    SlotHolds(env, kept.locals, x);
    if x in st.locals && st.locals[x] == ref {
      assert st.locals[x := ref] == st.locals;
    }
    if x in st.world.globals && st.world.globals[x] == ref {
      assert st.world.globals[x := ref] == st.world.globals;
    }
    if FrameOf(env, lost) == FrameOf(env, kept) {
      assert lost.world.globals == kept.world.globals && x in lost.world.globals;
      assert Slots(env, lost.locals) == Slots(env, kept.locals);
    }
  }

  lemma StepNewArray(ctx: Ctx, pc: nat, st: Store, size: nat)
    requires ctx.env.Valid() && At(ctx, pc, [NewArray])
    ensures Next(ctx, pc, [IntV(size)], st)
         == Here(ctx, pc + 1, [RefV(|st.world.heap|)], st.(world := Allocate(st.world, size)))
  {
    AtOne(ctx, pc, NewArray);
  }

  lemma StepPutArray(ctx: Ctx, pc: nat, st: Store, x: string, r: nat)
    requires ctx.env.Valid() && At(ctx, pc, [PutStatic(x, Array)])
    ensures Next(ctx, pc, [RefV(r)], st)
         == Here(ctx, pc + 1, [], st.(world := st.world.(globals := st.world.globals[x := RefV(r)])))
  {
    AtOne(ctx, pc, PutStatic(x, Array));
  }

  lemma StepAStore(ctx: Ctx, pc: nat, st: Store, x: string, r: nat)
    requires ctx.env.Valid() && x in ctx.env.slots && At(ctx, pc, [AStore(ctx.env.slots[x])])
    ensures Next(ctx, pc, [RefV(r)], st) == Here(ctx, pc + 1, [], WriteVar(ctx.env, x, RefV(r), st))
  {
    AtOne(ctx, pc, AStore(ctx.env.slots[x]));
    FrameWritten(ctx.env, st, x, RefV(r));
  }

  lemma ReturnRuns(ctx: Ctx, s: Stmt, at: nat, st: Store)
    requires ctx.env.Valid() && s.Return? && InFragment(ctx.env, s, NoLoop)
    requires At(ctx, at, if s.val.None? then [Instr.Return] else Operand(ctx.env, s.val.value) + [IReturn])
    ensures match if s.val.None? then Ok(0, st) else ValueOf(ctx, s.val.value, st)
            case Err(why) => Reaches(ctx, Here(ctx, at, [], st), Faulted(why))
            case Ok(v, st1) =>
              Reaches(ctx, Here(ctx, at, [], st), Returned(if s.val.None? then None else Some(v), st1.world))
  {
    hide Reaches, At, Evaluate, Operand;
    if s.val.None? {
      AtOne(ctx, at, Instr.Return);
      Steps(ctx, Here(ctx, at, [], st));
    } else {
      var e := s.val.value;
      AtSplit(ctx, at, Operand(ctx.env, e), [IReturn]);
      OperandRuns(ctx, e, false, at, [], st);
      match ValueOf(ctx, e, st) {
        case Err(why) =>
        case Ok(v, st1) =>
          var pc := at + |Operand(ctx.env, e)|;
          AtOne(ctx, pc, IReturn);
          ThenStep(ctx, Here(ctx, at, [], st), Here(ctx, pc, [] + [IntV(v)], st1));
      }
    }
  }

  lemma {:induction false} BodyRuns(ctx: Ctx, ss: seq<Stmt>, sc: seq<Scope>, k: nat, at: nat, st: Store, fuel: nat)
    requires Placed(ctx, sc) && forall i :: 0 <= i < |ss| ==> InFragment(ctx.env, ss[i], LoopAround(sc))
    requires At(ctx, at, BodyCode(ctx.env, ss, sc, k))
    ensures Ends(ctx, Here(ctx, at, [], st), ExecAll(ctx.env, ctx.callee, ss, st, fuel),
                 at + |BodyCode(ctx.env, ss, sc, k)|, sc, fuel)
    decreases fuel, ss, 0
  {
    hide Reaches, RunsFor, At, FrameOf, Target, Defined, LoopAround, LoopExitLabel, LoopEntryLabel, Jvm.Step, UniqueLabels, Exec, StmtCode, InFragment, Lines, LineLabel;
    var c := Here(ctx, at, [], st);
    if ss == [] {
      Stays(ctx, c);
    } else {
      var line, first := [Label(LineLabel(k))], StmtCode(ctx.env, ss[0], sc, k + 1);
      var rest := BodyCode(ctx.env, ss[1..], sc, k + 1 + Lines(ss[0]));
      AtSplit(ctx, at, line + first, rest);
      AtSplit(ctx, at, line, first);
      AtLabel(ctx, at, LineLabel(k), st);
      StmtRuns(ctx, ss[0], sc, k + 1, at + 1, st, fuel);
      var o := Exec(ctx.env, ctx.callee, ss[0], st, fuel);
      EndsFrom(ctx, c, Here(ctx, at + 1, [], st), o, at + 1 + |first|, sc, fuel);
      match o {
        case Normal(st1) =>
          BodyRuns(ctx, ss[1..], sc, k + 1 + Lines(ss[0]), at + 1 + |first|, st1, fuel);
          EndsFrom(ctx, c, Here(ctx, at + 1 + |first|, [], st1), ExecAll(ctx.env, ctx.callee, ss[1..], st1, fuel),
                   at + |BodyCode(ctx.env, ss, sc, k)|, sc, fuel);
        case _ =>
      }
    }
  }

  // ----- if -----

  /** A scope that is not a loop's leaves the jump targets alone. */
  lemma InsideIf(ctx: Ctx, sc: seq<Scope>, s: Scope)
    requires Placed(ctx, sc) && !IsLoop(s.kind)
    ensures Placed(ctx, sc + [s]) && LoopAround(sc + [s]) == LoopAround(sc)
    ensures forall c, o, pc, fuel :: Ends(ctx, c, o, pc, sc + [s], fuel) ==> Ends(ctx, c, o, pc, sc, fuel)
  {
    PushOther(sc, s);
  }

  /** How an arm ends once its condition has the given result. */
  ghost predicate ArmEnds(ctx: Ctx, c: Config, res: Eval, body: Stmt, behind: nat, end: nat, sc: seq<Scope>, fuel: nat)
    requires ctx.env.Valid()
  {
    match res
    case Err(why) => Reaches(ctx, c, Faulted(why))
    case Ok(v, st) =>
      if v != 0 then Ends(ctx, c, Exec(ctx.env, ctx.callee, body, st, fuel), end, sc, fuel)
      else Reaches(ctx, c, Here(ctx, behind, [], st))
  }

  /** Where the pieces of an arm are. */
  lemma ArmLayout(ctx: Ctx, cond: Expr, inner: seq<Instr>, sc: seq<Scope>, all: string, at: nat)
    requires sc != [] && At(ctx, at, ArmCode(ctx.env, cond, inner, sc, all))
    ensures var atEntry := at + |Guard(ctx.env, cond, sc)|;
            var atGoto := atEntry + 1 + |inner|;
            && At(ctx, at, Guard(ctx.env, cond, sc)) && At(ctx, atEntry, [Label(EntryLabel(sc))])
            && At(ctx, atEntry + 1, inner) && At(ctx, atGoto, [Goto(all)])
            && At(ctx, atGoto + 1, [Label(ExitLabel(sc))])
            && at + |ArmCode(ctx.env, cond, inner, sc, all)| == atGoto + 2
  {
    hide At, Guard, EntryLabel, ExitLabel;
    var guard, entry, exit := Guard(ctx.env, cond, sc), [Label(EntryLabel(sc))], [Label(ExitLabel(sc))];
    assert [Goto(all), Label(ExitLabel(sc))] == [Goto(all)] + exit;
    AtSplit(ctx, at, guard + entry + inner, [Goto(all)] + exit);
    AtSplit(ctx, at, guard + entry, inner);
    AtSplit(ctx, at, guard, entry);
    AtSplit(ctx, at + |guard + entry + inner|, [Goto(all)], exit);
  }

  /** One arm: a true condition runs the body and ends at `end`; a false one ends behind the arm. */
  lemma {:induction false} ArmRuns(ctx: Ctx, cond: Expr, body: Stmt, sc: seq<Scope>, k: nat, all: string,
                                   at: nat, end: nat, st: Store, fuel: nat)
    requires sc != [] && Placed(ctx, sc) && IsCondition(ctx.env, cond) && InFragment(ctx.env, body, LoopAround(sc))
    requires At(ctx, at, ArmCode(ctx.env, cond, StmtCode(ctx.env, body, sc, k), sc, all))
    requires Defined(ctx, all) && Target(ctx.code, all) == end
    ensures ArmEnds(ctx, Here(ctx, at, [], st), ValueOf(ctx, cond, st), body,
                    at + |ArmCode(ctx.env, cond, StmtCode(ctx.env, body, sc, k), sc, all)|, end, sc, fuel)
    decreases fuel, body, if body.If? then |body.elifs| + 3 else 3
  {
    hide Reaches, RunsFor, At, FrameOf, Target, Defined, LoopAround, LoopExitLabel, LoopEntryLabel, Jvm.Step, UniqueLabels, Exec, Evaluate, StmtCode, ArmCode, Guard, ExitLabel, EntryLabel, InFragment, Placed, IsChain;
    PlacedUnique(ctx, sc);
    var inner := StmtCode(ctx.env, body, sc, k);
    ArmLayout(ctx, cond, inner, sc, all, at);
    var atEntry := at + |Guard(ctx.env, cond, sc)|;
    var atInner, atGoto := atEntry + 1, atEntry + 1 + |inner|;
    AtLabel(ctx, atEntry, EntryLabel(sc), st);
    AtLabel(ctx, atGoto + 1, ExitLabel(sc), st);
    GuardRuns(ctx, cond, sc, at, st);
    var c := Here(ctx, at, [], st);
    match ValueOf(ctx, cond, st) {
      case Err(why) =>
      case Ok(v, st1) =>
        if v != 0 {
          AtLabel(ctx, atEntry, EntryLabel(sc), st1);
          Then(ctx, c, Here(ctx, atEntry, [], st1), Here(ctx, atInner, [], st1));
          StmtRuns(ctx, body, sc, k, atInner, st1, fuel);
          var o := Exec(ctx.env, ctx.callee, body, st1, fuel);
          EndsFrom(ctx, c, Here(ctx, atInner, [], st1), o, atGoto, sc, fuel);
          if o.Normal? {
            AtGoto(ctx, atGoto, all, o.st);
            Then(ctx, c, Here(ctx, atGoto, [], o.st), Here(ctx, end, [], o.st));
          }
        } else {
          AtLabel(ctx, atGoto + 1, ExitLabel(sc), st1);
          Then(ctx, c, Here(ctx, atGoto + 1, [], st1), Here(ctx, atGoto + 2, [], st1));
        }
    }
  }

  /** The arms from the `i`-th `else if` on, ending where the label behind them stands. */
  lemma {:induction false} ElseRuns(ctx: Ctx, s: Stmt, i: nat, sc: seq<Scope>, k: nat, all: string,
                                    at: nat, st: Store, fuel: nat)
    requires s.If? && i <= |s.elifs| && Placed(ctx, sc) && InFragment(ctx.env, s, LoopAround(sc))
    requires At(ctx, at, ElseCode(ctx.env, s, i, sc, k, all))
    requires Defined(ctx, all) && Target(ctx.code, all) == at + |ElseCode(ctx.env, s, i, sc, k, all)|
    ensures Ends(ctx, Here(ctx, at, [], st), ExecElse(ctx.env, ctx.callee, s, i, st, fuel),
                 at + |ElseCode(ctx.env, s, i, sc, k, all)|, sc, fuel)
    decreases fuel, s, |s.elifs| - i
  {
    hide Reaches, RunsFor, At, FrameOf, Target, Defined, LoopAround, LoopExitLabel, LoopEntryLabel, Jvm.Step, UniqueLabels, Exec, Evaluate, ArmCode, StmtCode, Lines, IsCondition;
    var c := Here(ctx, at, [], st);
    if i < |s.elifs| {
      var ElseIf(pos, cond, body) := s.elifs[i];
      var sc1 := sc + [MakeScope(pos, ElseIfS)];
      var arm := ArmCode(ctx.env, cond, StmtCode(ctx.env, body, sc1, k), sc1, all);
      var rest := ElseCode(ctx.env, s, i + 1, sc, k + Lines(body), all);
      AtSplit(ctx, at, arm, rest);
      InsideIf(ctx, sc, MakeScope(pos, ElseIfS));
      ArmRuns(ctx, cond, body, sc1, k, all, at, at + |arm + rest|, st, fuel);
      if ValueOf(ctx, cond, st).Ok? && ValueOf(ctx, cond, st).v == 0 {
        var st1 := ValueOf(ctx, cond, st).st;
        ElseRuns(ctx, s, i + 1, sc, k + Lines(body), all, at + |arm|, st1, fuel);
        EndsFrom(ctx, c, Here(ctx, at + |arm|, [], st1), ExecElse(ctx.env, ctx.callee, s, i + 1, st1, fuel),
                 at + |arm + rest|, sc, fuel);
      }
    } else if s.els.Some? {
      StmtRuns(ctx, s.els.value, sc, k, at, st, fuel);
    } else {
      Stays(ctx, c);
    }
  }

  lemma {:induction false} IfRuns(ctx: Ctx, s: Stmt, sc: seq<Scope>, k: nat, at: nat, st: Store, fuel: nat)
    requires s.If? && Placed(ctx, sc) && InFragment(ctx.env, s, LoopAround(sc))
    requires At(ctx, at, StmtCode(ctx.env, s, sc, k))
    ensures Ends(ctx, Here(ctx, at, [], st), Exec(ctx.env, ctx.callee, s, st, fuel),
                 at + |StmtCode(ctx.env, s, sc, k)|, sc, fuel)
    decreases fuel, s, |s.elifs| + 1
  {
    hide Reaches, RunsFor, At, FrameOf, Target, Defined, LoopAround, LoopExitLabel, LoopEntryLabel, Jvm.Step, UniqueLabels, Evaluate, ArmCode, NamedLabel, ElseCode;
    var sc1 := sc + [MakeScope(s.pos, IfS)];
    var all := NamedLabel(sc1, "stmt_end");
    var arm := ArmCode(ctx.env, s.cond, StmtCode(ctx.env, s.thn, sc1, k), sc1, all);
    var rest := ElseCode(ctx.env, s, 0, sc1, k + Lines(s.thn), all);
    AtSplit(ctx, at, arm + rest, [Label(all)]);
    AtSplit(ctx, at, arm, rest);
    InsideIf(ctx, sc, MakeScope(s.pos, IfS));
    var c, end := Here(ctx, at, [], st), at + |arm + rest|;
    AtLabel(ctx, end, all, st);
    ArmRuns(ctx, s.cond, s.thn, sc1, k, all, at, end, st, fuel);
    var o := Exec(ctx.env, ctx.callee, s, st, fuel);
    if ValueOf(ctx, s.cond, st).Ok? && ValueOf(ctx, s.cond, st).v == 0 {
      var st1 := ValueOf(ctx, s.cond, st).st;
      ElseRuns(ctx, s, 0, sc1, k + Lines(s.thn), all, at + |arm|, st1, fuel);
      EndsFrom(ctx, c, Here(ctx, at + |arm|, [], st1), o, end, sc1, fuel);
    }
    assert Ends(ctx, c, o, end, sc1, fuel);
    if o.Normal? {
      AtLabel(ctx, end, all, o.st);
      Then(ctx, c, Here(ctx, end, [], o.st), Here(ctx, end + 1, [], o.st));
    }
  }

  // ----- loops -----

  /** Inside a loop, `break` and `continue` mean that loop's labels. */
  lemma InsideLoop(ctx: Ctx, sc: seq<Scope>, pos: Pos, kind: ScopeKind)
    requires ctx.env.Valid() && UniqueLabels(ctx.code) && IsLoop(kind)
    requires Defined(ctx, ExitLabel(sc + [MakeScope(pos, kind)]))
    requires Defined(ctx, EntryLabel(sc + [MakeScope(pos, kind)]))
    ensures var sc1 := sc + [MakeScope(pos, kind)];
            && Placed(ctx, sc1)
            && LoopAround(sc1) == (if kind == DoS then Testing else Stepping)
            && LoopExitLabel(sc1) == ExitLabel(sc1) && LoopEntryLabel(sc1) == EntryLabel(sc1)
  {
    PushLoop(sc, MakeScope(pos, kind));
  }

  /** The parts of a `while` or `for` and where they stand. */
  lemma LoopLayout(ctx: Ctx, s: Stmt, sc: seq<Scope>, k: nat, at: nat)
    requires (s.While? || s.For?) && Placed(ctx, sc) && At(ctx, at, LoopCode(ctx.env, s, sc, k))
    ensures var guard, body := LoopGuard(ctx.env, s, sc), StmtCode(ctx.env, LoopBody(s), LoopScope(s, sc), k);
            var tail := LoopTail(ctx.env, s, sc);
            var atBody := at + 1 + |guard|;
            var atGoto := atBody + |body| + |tail|;
            && At(ctx, at, [Label(AgainLabel(s, sc))]) && At(ctx, at + 1, guard) && At(ctx, atBody, body)
            && At(ctx, atBody + |body|, tail) && At(ctx, atGoto, [Goto(AgainLabel(s, sc))])
            && At(ctx, atGoto + 1, [Label(ExitLabel(LoopScope(s, sc)))])
            && |LoopCode(ctx.env, s, sc, k)| == 1 + |guard| + |body| + |tail| + 2
  {
    hide At, StmtCode, LoopGuard, LoopTail, AgainLabel, ExitLabel, UniqueLabels;
    var head, guard := [Label(AgainLabel(s, sc))], LoopGuard(ctx.env, s, sc);
    var body, tail := StmtCode(ctx.env, LoopBody(s), LoopScope(s, sc), k), LoopTail(ctx.env, s, sc);
    var back, exit := [Goto(AgainLabel(s, sc))], [Label(ExitLabel(LoopScope(s, sc)))];
    assert [Goto(AgainLabel(s, sc)), Label(ExitLabel(LoopScope(s, sc)))] == back + exit;
    AtSplit(ctx, at, head + guard + body + tail, back + exit);
    AtSplit(ctx, at, head + guard + body, tail);
    AtSplit(ctx, at, head + guard, body);
    AtSplit(ctx, at, head, guard);
    AtSplit(ctx, at + |head + guard + body + tail|, back, exit);
  }

  /** Behind the last loop iteration nothing happened yet, so any run is long enough. */
  lemma NoFuel(ctx: Ctx, c: Config)
    requires c.Running?
    ensures RunsFor(ctx, c, 0)
  {
  }

  /** One step earlier, with one more unit of fuel. */
  lemma EndsNext(ctx: Ctx, c: Config, c1: Config, o: Outcome, pc: nat, sc: seq<Scope>, fuel: nat)
    requires ctx.env.Valid() && Step(ctx.code, ctx.callee, c) == c1 && Ends(ctx, c1, o, pc, sc, fuel)
    ensures Ends(ctx, c, o, pc, sc, fuel + 1)
  {
    hide Reaches, RunsFor, FrameOf, Target, Jvm.Step, LoopAround, LoopExitLabel, LoopEntryLabel;
    Steps(ctx, c);
    if o.Timeout? {
      StepRunsFor(ctx, c, fuel);
    } else {
      EndsFrom(ctx, c, c1, o, pc, sc, fuel);
    }
  }

  lemma LoopTestRuns(ctx: Ctx, s: Stmt, sc: seq<Scope>, at: nat, st: Store)
    requires (s.While? || s.For?) && ctx.env.Valid() && At(ctx, at, LoopGuard(ctx.env, s, sc))
    requires LoopCond(s).Some? ==> IsChain(ctx.env, And, LoopCond(s).value)
    requires Defined(ctx, ExitLabel(LoopScope(s, sc)))
    ensures Branches(ctx, Here(ctx, at, [], st), Test(ctx.env, ctx.callee, LoopCond(s), st),
                     at + |LoopGuard(ctx.env, s, sc)|, Target(ctx.code, ExitLabel(LoopScope(s, sc))))
  {
    if LoopCond(s).None? {
      Stays(ctx, Here(ctx, at, [], st));
    } else {
      GuardRuns(ctx, LoopCond(s).value, LoopScope(s, sc), at, st);
    }
  }

  /** From the end of the body: the step of a `for`, and back to the top. */
  lemma AgainRuns(ctx: Ctx, s: Stmt, sc: seq<Scope>, atTail: nat, at: nat, st: Store, fuel: nat)
    requires (s.While? || s.For?) && ctx.env.Valid() && UniqueLabels(ctx.code) && InFragment(ctx.env, s, LoopAround(sc))
    requires At(ctx, atTail, LoopTail(ctx.env, s, sc))
    requires At(ctx, atTail + |LoopTail(ctx.env, s, sc)|, [Goto(AgainLabel(s, sc))])
    requires Defined(ctx, AgainLabel(s, sc)) && Target(ctx.code, AgainLabel(s, sc)) == at
    ensures Passes(ctx, Here(ctx, atTail, [], st),
                   if s.While? then Normal(st) else Exec(ctx.env, ctx.callee, s.step, st, fuel), at)
  {
    hide Reaches, RunsFor, At, FrameOf, Target, Defined, LoopAround, Jvm.Step, UniqueLabels, AgainLabel, EntryLabel;
    var c := Here(ctx, atTail, [], st);
    if s.While? {
      AtGoto(ctx, atTail, AgainLabel(s, sc), st);
    } else {
      var entry, step := [Label(EntryLabel(LoopScope(s, sc)))], SimpleCode(ctx.env, s.step);
      AtSplit(ctx, atTail, entry, step);
      AtLabel(ctx, atTail, EntryLabel(LoopScope(s, sc)), st);
      SimpleRuns(ctx, s.step, atTail + 1, st);
      match Exec(ctx.env, ctx.callee, s.step, st, fuel) {
        case Normal(st1) =>
          Then(ctx, c, Here(ctx, atTail + 1, [], st), Here(ctx, atTail + 1 + |step|, [], st1));
          AtGoto(ctx, atTail + 1 + |step|, AgainLabel(s, sc), st1);
          Then(ctx, c, Here(ctx, atTail + 1 + |step|, [], st1), Here(ctx, at, [], st1));
        case Error(why) => Then(ctx, c, Here(ctx, atTail + 1, [], st), Faulted(why));
        case _ =>
      }
    }
  }

  /** Where a loop's labels are: the exit label behind the loop, the entry label where `continue` belongs. */
  lemma LoopLabels(ctx: Ctx, s: Stmt, sc: seq<Scope>, k: nat, at: nat)
    requires (s.While? || s.For?) && Placed(ctx, sc) && At(ctx, at, LoopCode(ctx.env, s, sc, k))
    ensures var sc1, len := LoopScope(s, sc), |LoopCode(ctx.env, s, sc, k)|;
            && Defined(ctx, AgainLabel(s, sc)) && Target(ctx.code, AgainLabel(s, sc)) == at
            && Defined(ctx, ExitLabel(sc1)) && Target(ctx.code, ExitLabel(sc1)) == at + len - 1
            && Target(ctx.code, EntryLabel(sc1))
               == (if s.While? then at else at + len - 2 - |LoopTail(ctx.env, s, sc)|)
            && Placed(ctx, sc1) && LoopAround(sc1) == Stepping
            && LoopExitLabel(sc1) == ExitLabel(sc1) && LoopEntryLabel(sc1) == EntryLabel(sc1)
  {
    hide Reaches, RunsFor, At, FrameOf, Target, Defined, Jvm.Step, UniqueLabels, EntryLabel, ExitLabel, StmtCode, LoopGuard, LoopCode;
    var st := Store(map[], World(map[], [], []));
    LoopLayout(ctx, s, sc, k, at);
    var sc1, len := LoopScope(s, sc), |LoopCode(ctx.env, s, sc, k)|;
    AtLabel(ctx, at, AgainLabel(s, sc), st);
    AtLabel(ctx, at + len - 1, ExitLabel(sc1), st);
    if s.For? {
      var atTail := at + len - 2 - |LoopTail(ctx.env, s, sc)|;
      AtSplit(ctx, atTail, [Label(EntryLabel(sc1))], SimpleCode(ctx.env, s.step));
      AtLabel(ctx, atTail, EntryLabel(sc1), st);
    }
    InsideLoop(ctx, sc, s.pos, if s.While? then WhileS else ForS);
  }

  lemma {:induction false} LoopRuns(ctx: Ctx, s: Stmt, sc: seq<Scope>, k: nat, at: nat, st: Store, fuel: nat)
    requires (s.While? || s.For?) && Placed(ctx, sc) && InFragment(ctx.env, s, LoopAround(sc))
    requires At(ctx, at, LoopCode(ctx.env, s, sc, k))
    ensures Ends(ctx, Here(ctx, at, [], st), Loop(ctx.env, ctx.callee, s, st, fuel),
                 at + |LoopCode(ctx.env, s, sc, k)|, sc, fuel)
    decreases fuel, s, 1
  {
    hide Reaches, RunsFor, At, FrameOf, Target, Defined, Jvm.Step, UniqueLabels, EntryLabel, ExitLabel, StmtCode, LoopGuard, LoopTail, LoopCode, AgainLabel, LoopAround, LoopExitLabel, LoopEntryLabel, LoopScope, Exec, Evaluate, Placed;
    PlacedUnique(ctx, sc);
    var c := Here(ctx, at, [], st);
    if fuel == 0 {
      NoFuel(ctx, c);
    } else {
      LoopLayout(ctx, s, sc, k, at);
      LoopLabels(ctx, s, sc, k, at);
      var sc1, end := LoopScope(s, sc), at + |LoopCode(ctx.env, s, sc, k)|;
      var c1, atBody := Here(ctx, at + 1, [], st), at + 1 + |LoopGuard(ctx.env, s, sc)|;
      var o := Loop(ctx.env, ctx.callee, s, st, fuel);
      AtLabel(ctx, at, AgainLabel(s, sc), st);
      FragmentParts(ctx.env, s, LoopAround(sc));
      LoopTestRuns(ctx, s, sc, at + 1, st);
      match Test(ctx.env, ctx.callee, LoopCond(s), st) {
        case Err(_) =>
        case Ok(v, st1) =>
          if v == 0 {
            AtLabel(ctx, end - 1, ExitLabel(sc1), st1);
            Then(ctx, c1, Here(ctx, end - 1, [], st1), Here(ctx, end, [], st1));
          } else {
            IterationRuns(ctx, s, sc, k, at, st1, fuel - 1);
            EndsFrom(ctx, c1, Here(ctx, atBody, [], st1), o, end, sc, fuel - 1);
          }
      }
      EndsNext(ctx, c, c1, o, end, sc, fuel - 1);
    }
  }

  lemma PlacedUnique(ctx: Ctx, sc: seq<Scope>)
    requires Placed(ctx, sc)
    ensures ctx.env.Valid() && UniqueLabels(ctx.code)
  {
  }

  lemma FragmentParts(env: Env, s: Stmt, around: Around)
    requires (s.While? || s.For?) && InFragment(env, s, around)
    ensures InFragment(env, LoopBody(s), Stepping)
    ensures LoopCond(s).Some? ==> IsChain(env, And, LoopCond(s).value)
  {
  }

  /** The rest of an iteration whose test succeeded: the body, then the remaining iterations. */
  function AfterTest(ctx: Ctx, s: Stmt, st: Store, fuel: nat): Outcome
    requires s.While? || s.For?
  {
    match Exec(ctx.env, ctx.callee, LoopBody(s), st, fuel)
    case Normal(st1) => Again(ctx.env, ctx.callee, s, st1, fuel)
    case Continued(st1) => Again(ctx.env, ctx.callee, s, st1, fuel)
    case Broke(st1) => Normal(st1)
    case other => other
  }

  lemma {:induction false} IterationRuns(ctx: Ctx, s: Stmt, sc: seq<Scope>, k: nat, at: nat, st: Store, fuel: nat)
    requires (s.While? || s.For?) && Placed(ctx, sc) && InFragment(ctx.env, s, LoopAround(sc))
    requires At(ctx, at, LoopCode(ctx.env, s, sc, k))
    ensures Ends(ctx, Here(ctx, at + 1 + |LoopGuard(ctx.env, s, sc)|, [], st), AfterTest(ctx, s, st, fuel),
                 at + |LoopCode(ctx.env, s, sc, k)|, sc, fuel)
    decreases fuel, s, 3
  {
    hide Reaches, RunsFor, At, FrameOf, Target, Defined, Jvm.Step, UniqueLabels, EntryLabel, ExitLabel, StmtCode, LoopGuard, LoopTail, LoopCode, AgainLabel, LoopScope, Exec, Evaluate, Placed, LoopAround, LoopExitLabel, LoopEntryLabel;
    LoopLayout(ctx, s, sc, k, at);
    LoopLabels(ctx, s, sc, k, at);
    FragmentParts(ctx.env, s, LoopAround(sc));
    PlacedUnique(ctx, sc);
    var sc1, end := LoopScope(s, sc), at + |LoopCode(ctx.env, s, sc, k)|;
    var atBody := at + 1 + |LoopGuard(ctx.env, s, sc)|;
    var atTail := atBody + |StmtCode(ctx.env, LoopBody(s), sc1, k)|;
    var c, o := Here(ctx, atBody, [], st), Exec(ctx.env, ctx.callee, LoopBody(s), st, fuel);
    StmtRuns(ctx, LoopBody(s), sc1, k, atBody, st, fuel);
    match o {
      case Broke(st1) =>
        AtLabel(ctx, end - 1, ExitLabel(sc1), st1);
        Then(ctx, c, Here(ctx, end - 1, [], st1), Here(ctx, end, [], st1));
      case Normal(st1) =>
        RepeatRuns(ctx, s, sc, k, at, atTail, st1, fuel);
        EndsFrom(ctx, c, Here(ctx, atTail, [], st1), Again(ctx.env, ctx.callee, s, st1, fuel), end, sc, fuel);
      case Continued(st1) =>
        if s.While? {
          LoopRuns(ctx, s, sc, k, at, st1, fuel);
          EndsFrom(ctx, c, Here(ctx, at, [], st1), Again(ctx.env, ctx.callee, s, st1, fuel), end, sc, fuel);
        } else {
          RepeatRuns(ctx, s, sc, k, at, atTail, st1, fuel);
          EndsFrom(ctx, c, Here(ctx, atTail, [], st1), Again(ctx.env, ctx.callee, s, st1, fuel), end, sc, fuel);
        }
      case _ =>
    }
  }

  /** From the end of the body through the step to the remaining iterations. */
  lemma {:induction false} RepeatRuns(ctx: Ctx, s: Stmt, sc: seq<Scope>, k: nat, at: nat, atTail: nat, st: Store, fuel: nat)
    requires (s.While? || s.For?) && Placed(ctx, sc) && InFragment(ctx.env, s, LoopAround(sc))
    requires At(ctx, at, LoopCode(ctx.env, s, sc, k))
    requires atTail == at + 1 + |LoopGuard(ctx.env, s, sc)| + |StmtCode(ctx.env, LoopBody(s), LoopScope(s, sc), k)|
    ensures Ends(ctx, Here(ctx, atTail, [], st), Again(ctx.env, ctx.callee, s, st, fuel),
                 at + |LoopCode(ctx.env, s, sc, k)|, sc, fuel)
    decreases fuel, s, 2
  {
    hide Reaches, RunsFor, At, FrameOf, Target, Defined, Jvm.Step, UniqueLabels, EntryLabel, ExitLabel, StmtCode, LoopGuard, LoopTail, LoopCode, AgainLabel, LoopScope, Exec, Evaluate, Placed, LoopAround;
    LoopLayout(ctx, s, sc, k, at);
    LoopLabels(ctx, s, sc, k, at);
    PlacedUnique(ctx, sc);
    var c, o := Here(ctx, atTail, [], st), if s.While? then Normal(st) else Exec(ctx.env, ctx.callee, s.step, st, fuel);
    AgainRuns(ctx, s, sc, atTail, at, st, fuel);
    if o.Normal? {
      LoopRuns(ctx, s, sc, k, at, o.st, fuel);
      EndsFrom(ctx, c, Here(ctx, at, [], o.st), Loop(ctx.env, ctx.callee, s, o.st, fuel),
               at + |LoopCode(ctx.env, s, sc, k)|, sc, fuel);
    }
  }

  // ----- do -----

  /** Where the pieces of a do-while loop are, and what its labels stand for. */
  lemma DoLayout(ctx: Ctx, s: Stmt, sc: seq<Scope>, k: nat, at: nat)
    requires s.Do? && At(ctx, at, StmtCode(ctx.env, s, sc, k))
    ensures var sc1 := sc + [MakeScope(s.pos, DoS)];
            var body, guard := StmtCode(ctx.env, s.dbody, sc1, k), DoGuard(ctx.env, s.dcond, sc1);
            && At(ctx, at, [Label(EntryLabel(sc1))]) && At(ctx, at + 1, body) && At(ctx, at + 1 + |body|, guard)
            && At(ctx, at + 1 + |body| + |guard|, [Label(ExitLabel(sc1))])
            && |StmtCode(ctx.env, s, sc, k)| == 1 + |body| + |guard| + 1
  {
    hide At, DoGuard, EntryLabel, ExitLabel;
    var sc1 := sc + [MakeScope(s.pos, DoS)];
    var entry, body := [Label(EntryLabel(sc1))], StmtCode(ctx.env, s.dbody, sc1, k);
    var guard, exit := DoGuard(ctx.env, s.dcond, sc1), [Label(ExitLabel(sc1))];
    AtSplit(ctx, at, entry + body + guard, exit);
    AtSplit(ctx, at, entry + body, guard);
    AtSplit(ctx, at, entry, body);
  }

  lemma DoLabels(ctx: Ctx, s: Stmt, sc: seq<Scope>, k: nat, at: nat)
    requires s.Do? && ctx.env.Valid() && UniqueLabels(ctx.code) && At(ctx, at, StmtCode(ctx.env, s, sc, k))
    ensures var sc1 := sc + [MakeScope(s.pos, DoS)];
            && Defined(ctx, EntryLabel(sc1)) && Target(ctx.code, EntryLabel(sc1)) == at
            && Defined(ctx, ExitLabel(sc1))
            && Target(ctx.code, ExitLabel(sc1)) == at + |StmtCode(ctx.env, s, sc, k)| - 1
            && Placed(ctx, sc1) && LoopAround(sc1) == Testing
            && LoopExitLabel(sc1) == ExitLabel(sc1) && LoopEntryLabel(sc1) == EntryLabel(sc1)
  {
    hide At, FrameOf, Target, Defined, Jvm.Step, UniqueLabels, EntryLabel, ExitLabel, StmtCode, DoGuard, Placed, MakeScope, Reaches, LoopAround, LoopExitLabel, LoopEntryLabel;
    DoLayout(ctx, s, sc, k, at);
    var sc1, st := sc + [MakeScope(s.pos, DoS)], Store(map[], World(map[], [], []));
    AtLabel(ctx, at, EntryLabel(sc1), st);
    AtLabel(ctx, at + |StmtCode(ctx.env, s, sc, k)| - 1, ExitLabel(sc1), st);
    InsideLoop(ctx, sc, s.pos, DoS);
  }

  lemma DoParts(env: Env, s: Stmt, around: Around)
    requires s.Do? && InFragment(env, s, around)
    ensures InFragment(env, s.dbody, Testing)
    ensures s.dcond.Some? ==> IsCondition(env, s.dcond.value)
  {
  }

  lemma {:induction false} DoRuns(ctx: Ctx, s: Stmt, sc: seq<Scope>, k: nat, at: nat, st: Store, fuel: nat)
    requires s.Do? && Placed(ctx, sc) && InFragment(ctx.env, s, LoopAround(sc))
    requires At(ctx, at, StmtCode(ctx.env, s, sc, k))
    ensures Ends(ctx, Here(ctx, at, [], st), DoLoop(ctx.env, ctx.callee, s, st, fuel),
                 at + |StmtCode(ctx.env, s, sc, k)|, sc, fuel)
    decreases fuel, s, 1
  {
    hide Reaches, RunsFor, At, FrameOf, Target, Defined, Jvm.Step, UniqueLabels, EntryLabel, ExitLabel, StmtCode, DoGuard, LoopAround, LoopExitLabel, LoopEntryLabel, MakeScope, Exec, Evaluate, Placed, InFragment;
    PlacedUnique(ctx, sc);
    var c := Here(ctx, at, [], st);
    if fuel == 0 {
      NoFuel(ctx, c);
    } else {
      DoLayout(ctx, s, sc, k, at);
      DoLabels(ctx, s, sc, k, at);
      DoParts(ctx.env, s, LoopAround(sc));
      var sc1, end := sc + [MakeScope(s.pos, DoS)], at + |StmtCode(ctx.env, s, sc, k)|;
      var atTest := at + 1 + |StmtCode(ctx.env, s.dbody, sc1, k)|;
      AtLabel(ctx, at, EntryLabel(sc1), st);
      var c1, o := Here(ctx, at + 1, [], st), Exec(ctx.env, ctx.callee, s.dbody, st, fuel - 1);
      StmtRuns(ctx, s.dbody, sc1, k, at + 1, st, fuel - 1);
      match o {
        case Broke(st1) =>
          AtLabel(ctx, end - 1, ExitLabel(sc1), st1);
          Then(ctx, c1, Here(ctx, end - 1, [], st1), Here(ctx, end, [], st1));
        case Normal(st1) =>
          DoTestRuns(ctx, s, sc, k, at, atTest, st1, fuel - 1);
          EndsFrom(ctx, c1, Here(ctx, atTest, [], st1), DoTest(ctx.env, ctx.callee, s, st1, fuel - 1), end, sc, fuel - 1);
        case _ =>
      }
      EndsNext(ctx, c, c1, DoLoop(ctx.env, ctx.callee, s, st, fuel), end, sc, fuel - 1);
    }
  }

  /** From the end of a `do` body: the test, and the remaining iterations. */
  lemma {:induction false} DoTestRuns(ctx: Ctx, s: Stmt, sc: seq<Scope>, k: nat, at: nat, atTest: nat, st: Store, fuel: nat)
    requires s.Do? && Placed(ctx, sc) && InFragment(ctx.env, s, LoopAround(sc))
    requires At(ctx, at, StmtCode(ctx.env, s, sc, k))
    requires atTest == at + 1 + |StmtCode(ctx.env, s.dbody, sc + [MakeScope(s.pos, DoS)], k)|
    ensures Ends(ctx, Here(ctx, atTest, [], st), DoTest(ctx.env, ctx.callee, s, st, fuel),
                 at + |StmtCode(ctx.env, s, sc, k)|, sc, fuel)
    decreases fuel, s, 2
  {
    hide Reaches, RunsFor, At, FrameOf, Target, Defined, Jvm.Step, UniqueLabels, EntryLabel, ExitLabel, StmtCode, LoopAround, LoopExitLabel, LoopEntryLabel, MakeScope, Exec, Evaluate, Placed, InFragment, DoLoop, IsCondition;
    PlacedUnique(ctx, sc);
    DoLayout(ctx, s, sc, k, at);
    DoLabels(ctx, s, sc, k, at);
    DoParts(ctx.env, s, LoopAround(sc));
    var sc1 := sc + [MakeScope(s.pos, DoS)];
    var c, end := Here(ctx, atTest, [], st), at + |StmtCode(ctx.env, s, sc, k)|;
    if s.dcond.None? {
      AtGoto(ctx, atTest, EntryLabel(sc1), st);
    } else {
      DoGuardRuns(ctx, s.dcond.value, sc1, atTest, st);
    }
    match Test(ctx.env, ctx.callee, s.dcond, st) {
      case Err(_) =>
      case Ok(v, st1) =>
        if v == 0 {
          AtLabel(ctx, end - 1, ExitLabel(sc1), st1);
          Then(ctx, c, Here(ctx, end - 1, [], st1), Here(ctx, end, [], st1));
        } else {
          DoRuns(ctx, s, sc, k, at, st1, fuel);
          EndsFrom(ctx, c, Here(ctx, at, [], st1), DoLoop(ctx.env, ctx.callee, s, st1, fuel), end, sc, fuel);
        }
    }
  }
}
