/** Common ground for relating source executions to runs of generated code:
    which machine frame stands for a store, and how runs are put together. */
module SimulationBase {
  import opened Ast
  import opened World
  import opened Jvm
  import opened CSemantics
  import opened CodeSpec
  import Int32

  /** A method's code, its name tables, and what the functions it calls do. */
  datatype Ctx = Ctx(code: seq<Instr>, callee: Callee, env: Env)

  // ----- stores and frames -----

  /** The machine keeps each local in its slot. */
  ghost function Slots(env: Env, locals: map<string, Value>): map<nat, Value>
    requires env.Valid()
  {
    map x | x in locals && x in env.slots :: env.slots[x] := locals[x]
  }

  ghost function FrameOf(env: Env, st: Store): Jvm.Frame
    requires env.Valid()
  {
    Jvm.Frame(Slots(env, st.locals), st.world)
  }

  lemma SlotHolds(env: Env, locals: map<string, Value>, x: string)
    requires env.Valid() && x in env.slots
    ensures env.slots[x] in Slots(env, locals) <==> x in locals
    ensures x in locals ==> Slots(env, locals)[env.slots[x]] == locals[x]
  {
  }

  lemma SlotUpdated(env: Env, locals: map<string, Value>, x: string, v: Value)
    requires env.Valid() && x in env.slots
    ensures Slots(env, locals[x := v]) == Slots(env, locals)[env.slots[x] := v]
  {
    var a, b := Slots(env, locals[x := v]), Slots(env, locals)[env.slots[x] := v];
    forall k | k in a
      ensures k in b && a[k] == b[k]
    {
      var y :| y in locals[x := v] && y in env.slots && env.slots[y] == k;
      SlotHolds(env, locals, y);
    }
    forall k | k in b
      ensures k in a
    {
      if k != env.slots[x] {
        var y :| y in locals && y in env.slots && env.slots[y] == k;
        assert y in locals[x := v];
      }
    }
  }

  lemma FrameWritten(env: Env, st: Store, x: string, v: Value)
    requires env.Valid() && x in env.slots
    ensures var fr := FrameOf(env, st);
            FrameOf(env, WriteVar(env, x, v, st)) == fr.(locals := fr.locals[env.slots[x] := v])
  {
    SlotUpdated(env, st.locals, x, v);
  }

  // ----- runs -----

  ghost predicate Reaches(ctx: Ctx, c: Config, c': Config) {
    exists n: nat :: Run(ctx.code, ctx.callee, c, n) == c'
  }

  /** Still running after `k` steps. */
  ghost predicate RunsFor(ctx: Ctx, c: Config, k: nat) {
    Run(ctx.code, ctx.callee, c, k).Running?
  }

  lemma Stays(ctx: Ctx, c: Config)
    ensures Reaches(ctx, c, c)
  {
    assert Run(ctx.code, ctx.callee, c, 0) == c;
  }

  lemma Steps(ctx: Ctx, c: Config)
    ensures Reaches(ctx, c, Step(ctx.code, ctx.callee, c))
  {
    var c' := Step(ctx.code, ctx.callee, c);
    assert Run(ctx.code, ctx.callee, c', 0) == c';
    assert Run(ctx.code, ctx.callee, c, 1) == c';
  }

  lemma Then(ctx: Ctx, c: Config, c1: Config, c2: Config)
    requires Reaches(ctx, c, c1) && Reaches(ctx, c1, c2)
    ensures Reaches(ctx, c, c2)
  {
    var m: nat :| Run(ctx.code, ctx.callee, c, m) == c1;
    var n: nat :| Run(ctx.code, ctx.callee, c1, n) == c2;
    RunAdd(ctx.code, ctx.callee, c, m, n);
    assert Run(ctx.code, ctx.callee, c, m + n) == c2;
  }

  /** After reaching `c1`, one more step. */
  lemma ThenStep(ctx: Ctx, c: Config, c1: Config)
    requires Reaches(ctx, c, c1)
    ensures Reaches(ctx, c, Step(ctx.code, ctx.callee, c1))
  {
    Steps(ctx, c1);
    Then(ctx, c, c1, Step(ctx.code, ctx.callee, c1));
  }

  lemma RunsForPrefix(ctx: Ctx, c: Config, j: nat, k: nat)
    requires j <= k && RunsFor(ctx, c, k)
    ensures RunsFor(ctx, c, j)
  {
    RunAdd(ctx.code, ctx.callee, c, j, k - j);
    if !RunsFor(ctx, c, j) {
      HaltedStays(ctx.code, ctx.callee, Run(ctx.code, ctx.callee, c, j), k - j);
    }
  }

  /** A run through `c1` lasts at least as long as the run from `c1`. */
  lemma ReachesRunsFor(ctx: Ctx, c: Config, c1: Config, k: nat)
    requires Reaches(ctx, c, c1) && RunsFor(ctx, c1, k)
    ensures RunsFor(ctx, c, k)
  {
    var n: nat :| Run(ctx.code, ctx.callee, c, n) == c1;
    RunAdd(ctx.code, ctx.callee, c, n, k);
    RunsForPrefix(ctx, c, k, n + k);
  }

  lemma StepRunsFor(ctx: Ctx, c: Config, k: nat)
    requires RunsFor(ctx, Step(ctx.code, ctx.callee, c), k)
    ensures RunsFor(ctx, c, k + 1)
  {
  }

  // ----- code in place -----

  ghost predicate At(ctx: Ctx, at: nat, code: seq<Instr>) {
    at + |code| <= |ctx.code| && ctx.code[at..at + |code|] == code
  }

  lemma AtSplit(ctx: Ctx, at: nat, a: seq<Instr>, b: seq<Instr>)
    requires At(ctx, at, a + b)
    ensures At(ctx, at, a) && At(ctx, at + |a|, b)
  {
    var c := ctx.code[at..at + |a + b|];
    assert a == (a + b)[..|a|] == c[..|a|] == ctx.code[at..at + |a|];
    assert b == (a + b)[|a|..] == c[|a|..] == ctx.code[at + |a|..at + |a| + |b|];
  }

  lemma AtOne(ctx: Ctx, at: nat, i: Instr)
    requires At(ctx, at, [i])
    ensures at < |ctx.code| && ctx.code[at] == i
  {
    assert ctx.code[at..at + 1][0] == i;
  }

  // ----- operands on the stack -----

  lemma OneUp(s: seq<Value>, a: Value)
    ensures Top(s + [a], 0) == a && Drop(s + [a], 1) == s
  {
  }

  lemma TwoUp(s: seq<Value>, a: Value, b: Value)
    ensures |s + [a] + [b]| == |s| + 2
    ensures Top(s + [a] + [b], 1) == a && Top(s + [a] + [b], 0) == b && Drop(s + [a] + [b], 2) == s
  {
  }

  lemma ThreeUp(s: seq<Value>, a: Value, b: Value, c: Value)
    ensures |s + [a] + [b] + [c]| == |s| + 3
    ensures Top(s + [a] + [b] + [c], 2) == a && Top(s + [a] + [b] + [c], 1) == b && Top(s + [a] + [b] + [c], 0) == c
    ensures Drop(s + [a] + [b] + [c], 3) == s
  {
  }

  // ----- single instructions -----

  ghost function Next(ctx: Ctx, pc: nat, s: seq<Value>, st: Store): Config
    requires ctx.env.Valid()
  {
    Step(ctx.code, ctx.callee, Running(pc, s, FrameOf(ctx.env, st)))
  }

  lemma StepLoadVar(ctx: Ctx, pc: nat, s: seq<Value>, st: Store, x: string)
    requires ctx.env.Valid() && ctx.env.Known(x, Scalar)
    requires At(ctx, pc, [LoadVar(ctx.env, x)])
    ensures match ReadVar(ctx.env, x, Scalar, st)
            case Got(v) => v.IntV? && Next(ctx, pc, s, st) == Running(pc + 1, s + [v], FrameOf(ctx.env, st))
            case Missing(why) => Next(ctx, pc, s, st) == Faulted(why)
  {
    AtOne(ctx, pc, LoadVar(ctx.env, x));
    if x in ctx.env.slots {
      SlotHolds(ctx.env, st.locals, x);
    }
  }

  lemma StepLoadArray(ctx: Ctx, pc: nat, s: seq<Value>, st: Store, x: string)
    requires ctx.env.Valid() && ctx.env.Known(x, Array)
    requires At(ctx, pc, [LoadArray(ctx.env, x)])
    ensures match ReadVar(ctx.env, x, Array, st)
            case Got(v) => v.RefV? && Next(ctx, pc, s, st) == Running(pc + 1, s + [v], FrameOf(ctx.env, st))
            case Missing(why) => Next(ctx, pc, s, st) == Faulted(why)
  {
    AtOne(ctx, pc, LoadArray(ctx.env, x));
    if x in ctx.env.slots {
      SlotHolds(ctx.env, st.locals, x);
    }
  }

  lemma StepSaveVar(ctx: Ctx, pc: nat, s: seq<Value>, st: Store, x: string, v: int)
    requires ctx.env.Valid() && ctx.env.Known(x, Scalar)
    requires At(ctx, pc, [SaveVar(ctx.env, x)])
    ensures Next(ctx, pc, s + [IntV(v)], st)
         == Running(pc + 1, s, FrameOf(ctx.env, WriteVar(ctx.env, x, IntV(v), st)))
  {
    AtOne(ctx, pc, SaveVar(ctx.env, x));
    OneUp(s, IntV(v));
    if x in ctx.env.slots {
      FrameWritten(ctx.env, st, x, IntV(v));
    }
  }

  lemma StepPush(ctx: Ctx, pc: nat, s: seq<Value>, st: Store, n: int)
    requires ctx.env.Valid() && At(ctx, pc, [Push(n)]) && Int32.Fits(n)
    ensures Next(ctx, pc, s, st) == Running(pc + 1, s + [IntV(n)], FrameOf(ctx.env, st))
  {
    AtOne(ctx, pc, Push(n));
  }

  lemma StepArith(ctx: Ctx, pc: nat, s: seq<Value>, st: Store, op: ArithOp, a: int, b: int)
    requires ctx.env.Valid() && At(ctx, pc, [IArith(op)])
    ensures match Compute(op, a, b)
            case Some(v) =>
              Next(ctx, pc, s + [IntV(a)] + [IntV(b)], st) == Running(pc + 1, s + [IntV(v)], FrameOf(ctx.env, st))
            case None => Next(ctx, pc, s + [IntV(a)] + [IntV(b)], st) == Faulted(DivByZero)
  {
    AtOne(ctx, pc, IArith(op));
    TwoUp(s, IntV(a), IntV(b));
  }

  lemma StepNeg(ctx: Ctx, pc: nat, s: seq<Value>, st: Store, a: int)
    requires ctx.env.Valid() && At(ctx, pc, [INeg])
    ensures Next(ctx, pc, s + [IntV(a)], st)
         == Running(pc + 1, s + [IntV(Int32.Wrap(-a))], FrameOf(ctx.env, st))
  {
    AtOne(ctx, pc, INeg);
    OneUp(s, IntV(a));
  }

  lemma StepDup(ctx: Ctx, pc: nat, s: seq<Value>, st: Store, a: Value)
    requires ctx.env.Valid() && At(ctx, pc, [Dup])
    ensures Next(ctx, pc, s + [a], st) == Running(pc + 1, s + [a] + [a], FrameOf(ctx.env, st))
  {
    AtOne(ctx, pc, Dup);
    OneUp(s, a);
  }

  lemma StepDup2(ctx: Ctx, pc: nat, s: seq<Value>, st: Store, a: Value, b: Value)
    requires ctx.env.Valid() && At(ctx, pc, [Dup2])
    ensures Next(ctx, pc, s + [a] + [b], st) == Running(pc + 1, s + [a] + [b] + [a] + [b], FrameOf(ctx.env, st))
  {
    AtOne(ctx, pc, Dup2);
    TwoUp(s, a, b);
    assert s + [a] + [b] + [a, b] == s + [a] + [b] + [a] + [b];
  }

  lemma StepDupX2(ctx: Ctx, pc: nat, s: seq<Value>, st: Store, a: Value, b: Value, c: Value)
    requires ctx.env.Valid() && At(ctx, pc, [DupX2])
    ensures Next(ctx, pc, s + [a] + [b] + [c], st)
         == Running(pc + 1, s + [c] + [a] + [b] + [c], FrameOf(ctx.env, st))
  {
    AtOne(ctx, pc, DupX2);
    ThreeUp(s, a, b, c);
    assert s + [c, a, b, c] == s + [c] + [a] + [b] + [c];
  }

  lemma StepPop(ctx: Ctx, pc: nat, s: seq<Value>, st: Store, a: Value)
    requires ctx.env.Valid() && At(ctx, pc, [Pop])
    ensures Next(ctx, pc, s + [a], st) == Running(pc + 1, s, FrameOf(ctx.env, st))
  {
    AtOne(ctx, pc, Pop);
    OneUp(s, a);
  }

  lemma StepIALoad(ctx: Ctx, pc: nat, s: seq<Value>, st: Store, r: nat, i: int)
    requires ctx.env.Valid() && At(ctx, pc, [IALoad])
    ensures Next(ctx, pc, s + [RefV(r)] + [IntV(i)], st)
         == if InBounds(st.world, r, i)
            then Running(pc + 1, s + [IntV(st.world.heap[r][i])], FrameOf(ctx.env, st))
            else Faulted(BadIndex)
  {
    AtOne(ctx, pc, IALoad);
    TwoUp(s, RefV(r), IntV(i));
  }

  lemma StepIAStore(ctx: Ctx, pc: nat, s: seq<Value>, st: Store, r: nat, i: int, v: int)
    requires ctx.env.Valid() && At(ctx, pc, [IAStore])
    ensures Next(ctx, pc, s + [RefV(r)] + [IntV(i)] + [IntV(v)], st)
         == if InBounds(st.world, r, i)
            then Running(pc + 1, s, FrameOf(ctx.env, st.(world := WriteElem(st.world, r, i, v))))
            else Faulted(BadIndex)
  {
    AtOne(ctx, pc, IAStore);
    ThreeUp(s, RefV(r), IntV(i), IntV(v));
  }

  lemma StepIncSlot(ctx: Ctx, pc: nat, s: seq<Value>, fr: Jvm.Frame, k: nat, d: int)
    requires At(ctx, pc, [IInc(k, d)])
    ensures Step(ctx.code, ctx.callee, Running(pc, s, fr))
         == if k !in fr.locals then Faulted(Unset)
            else if fr.locals[k].RefV? then Faulted(BadType)
            else Running(pc + 1, s, fr.(locals := fr.locals[k := IntV(Int32.Wrap(fr.locals[k].n + d))]))
  {
    AtOne(ctx, pc, IInc(k, d));
  }

  lemma StepIInc(ctx: Ctx, pc: nat, s: seq<Value>, st: Store, x: string, d: int)
    requires ctx.env.Valid() && x in ctx.env.slots && ctx.env.Known(x, Scalar)
    requires At(ctx, pc, [IInc(ctx.env.slots[x], d)])
    ensures ReadVar(ctx.env, x, Scalar, st).Missing? ==>
              Next(ctx, pc, s, st) == Faulted(ReadVar(ctx.env, x, Scalar, st).why)
    ensures ReadVar(ctx.env, x, Scalar, st).Got? ==>
              var v := ReadVar(ctx.env, x, Scalar, st).v;
              && v.IntV?
              && Next(ctx, pc, s, st)
                 == Running(pc + 1, s, FrameOf(ctx.env, WriteVar(ctx.env, x, IntV(Int32.Wrap(v.n + d)), st)))
  {
    hide Jvm.Step;
    SlotHolds(ctx.env, st.locals, x);
    StepIncSlot(ctx, pc, s, FrameOf(ctx.env, st), ctx.env.slots[x], d);
    if x in st.locals && st.locals[x].IntV? {
      FrameWritten(ctx.env, st, x, IntV(Int32.Wrap(st.locals[x].n + d)));
    }
  }

  function IntVs(vs: seq<int>): (s: seq<Value>)
    ensures |s| == |vs| && forall i :: 0 <= i < |vs| ==> s[i] == IntV(vs[i])
  {
    seq(|vs|, i requires 0 <= i < |vs| => IntV(vs[i]))
  }

  lemma StepInvoke(ctx: Ctx, pc: nat, s: seq<Value>, st: Store, f: string, sig: Signature, vs: seq<int>)
    requires ctx.env.Valid() && At(ctx, pc, [InvokeStatic(f, sig)]) && sig.arity == |vs|
    ensures Next(ctx, pc, s + IntVs(vs), st)
         == match ctx.callee(f, vs, Record(st.world, f, vs))
            case None => Faulted(CalleeFailed)
            case Some((v, w)) =>
              Running(pc + 1, if sig.isVoid then s else s + [IntV(v)], FrameOf(ctx.env, st.(world := w)))
  {
    AtOne(ctx, pc, InvokeStatic(f, sig));
    var full := s + IntVs(vs);
    var args := full[|full| - |vs|..];
    assert args == IntVs(vs);
    assert Ints(args) == vs;
    assert Drop(full, |vs|) == s;
  }

}
