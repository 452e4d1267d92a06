/** A whole function: the generated method halts exactly when the source
    function does, with the same result, the same globals, arrays and call
    trace, or for the same reason. */
module FunctionCorrectness {
  import opened Ast
  import opened World
  import opened Jvm
  import opened CSemantics
  import opened CodeSpec
  import opened SimulationBase
  import opened ExpressionSimulation
  import opened StatementSimulation

  /** The method body; a `return` is added unless the last statement is one. */
  function MethodCode(env: Env, body: seq<Stmt>): seq<Instr> {
    BodyCode(env, body, [], 0) + (if EndsInReturn(body) then [] else [Instr.Return])
  }

  predicate EndsInReturn(body: seq<Stmt>) {
    body != [] && body[|body| - 1].Return?
  }

  predicate FunctionInFragment(env: Env, body: seq<Stmt>) {
    forall i :: 0 <= i < |body| ==> InFragment(env, body[i], NoLoop)
  }

  /** What a finished execution of a function body means for its caller. */
  function Result(o: Outcome): Config
    requires o.Normal? || o.Done? || o.Error?
  {
    match o
    case Normal(st) => Returned(None, st.world)
    case Done(val, w) => Returned(val, w)
    case Error(why) => Faulted(why)
  }

  ghost function Start(ctx: Ctx, st: Store): Config
    requires ctx.env.Valid()
  {
    Here(ctx, 0, [], st)
  }

  /** A body that ends in `return` does not fall off its end. */
  lemma {:induction false} NoFallThrough(env: Env, callee: Callee, ss: seq<Stmt>, st: Store, fuel: nat)
    requires EndsInReturn(ss)
    ensures !ExecAll(env, callee, ss, st, fuel).Normal?
    decreases |ss|
  {
    var o := Exec(env, callee, ss[0], st, fuel);
    assert ss[0].Return? ==> !o.Normal?;
    if |ss| > 1 && o.Normal? {
      NoFallThrough(env, callee, ss[1..], o.st, fuel);
    }
  }

  /** Simulation of a function body, for every amount of fuel. */
  lemma MethodRuns(ctx: Ctx, body: seq<Stmt>, st: Store, fuel: nat)
    requires ctx.env.Valid() && FunctionInFragment(ctx.env, body)
    requires ctx.code == MethodCode(ctx.env, body) && UniqueLabels(ctx.code)
    ensures var o := ExecAll(ctx.env, ctx.callee, body, st, fuel);
            if o.Timeout? then RunsFor(ctx, Start(ctx, st), fuel)
            else (o.Normal? || o.Done? || o.Error?) && Reaches(ctx, Start(ctx, st), Result(o))
  {
    hide Reaches, RunsFor, BodyCode, ExecAll, UniqueLabels;
    var code, last := BodyCode(ctx.env, body, [], 0), if EndsInReturn(body) then [] else [Instr.Return];
    assert At(ctx, 0, code + last);
    AtSplit(ctx, 0, code, last);
    assert LoopAround([]) == NoLoop;
    BodyRuns(ctx, body, [], 0, 0, st, fuel);
    var o := ExecAll(ctx.env, ctx.callee, body, st, fuel);
    if o.Normal? {
      if EndsInReturn(body) {
        NoFallThrough(ctx.env, ctx.callee, body, st, fuel);
      } else {
        AtOne(ctx, |code|, Instr.Return);
        ThenStep(ctx, Start(ctx, st), Here(ctx, |code|, [], o.st));
      }
    }
  }

  /** A machine that halts, halts in one way. */
  lemma HaltsOnce(ctx: Ctx, c: Config, h: Config, h': Config)
    requires Reaches(ctx, c, h) && Reaches(ctx, c, h') && !h.Running? && !h'.Running?
    ensures h == h'
  {
    var m: nat :| Run(ctx.code, ctx.callee, c, m) == h;
    var n: nat :| Run(ctx.code, ctx.callee, c, n) == h';
    RunAdd(ctx.code, ctx.callee, c, m, n);
    RunAdd(ctx.code, ctx.callee, c, n, m);
    HaltedStays(ctx.code, ctx.callee, h, n);
    HaltedStays(ctx.code, ctx.callee, h', m);
  }

  /** The main theorem: the generated method halts in `h` if and only if the
      source function, given enough fuel, finishes with the result `h`. In
      particular the one diverges when the other does. */
  lemma MethodCorrect(ctx: Ctx, body: seq<Stmt>, st: Store, h: Config)
    requires ctx.env.Valid() && FunctionInFragment(ctx.env, body)
    requires ctx.code == MethodCode(ctx.env, body) && UniqueLabels(ctx.code)
    requires !h.Running?
    ensures Reaches(ctx, Start(ctx, st), h)
       <==> exists fuel: nat :: Finishes(ctx, body, st, fuel, h)
  {
    var c := Start(ctx, st);
    if Reaches(ctx, c, h) {
      var n: nat :| Run(ctx.code, ctx.callee, c, n) == h;
      RunAdd(ctx.code, ctx.callee, c, n, 1);
      HaltedStays(ctx.code, ctx.callee, h, 1);
      MethodRuns(ctx, body, st, n + 1);
      var o := ExecAll(ctx.env, ctx.callee, body, st, n + 1);
      assert !RunsFor(ctx, c, n + 1);
      HaltsOnce(ctx, c, h, Result(o));
      assert Finishes(ctx, body, st, n + 1, h);
    }
    if exists fuel: nat :: Finishes(ctx, body, st, fuel, h) {
      var fuel: nat :| Finishes(ctx, body, st, fuel, h);
      MethodRuns(ctx, body, st, fuel);
    }
  }

  /** With this much fuel the source function finishes with the result `h`. */
  ghost predicate Finishes(ctx: Ctx, body: seq<Stmt>, st: Store, fuel: nat, h: Config) {
    var o := ExecAll(ctx.env, ctx.callee, body, st, fuel);
    (o.Normal? || o.Done? || o.Error?) && Result(o) == h
  }
}
