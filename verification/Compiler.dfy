/** A function, compiled: optimised in place, visited by the generator, and what
    is then in the generator's buffer does what C says the function does. */
module Compiler {
  import opened Ast
  import opened World
  import opened Jvm
  import opened CSemantics
  import opened SimulationBase
  import opened FunctionCorrectness
  import opened LabelUniqueness
  import opened Passes
  import opened BlockScopes
  import opened ScopeAgreement
  import Generator

  /** What a finished call means for its caller, in C's terms. */
  function ScopedResult(o: Ending<Scoped>): Config
    requires o.Normal? || o.Done? || o.Error?
  {
    match o
    case Normal(sc) => Returned(None, sc.world)
    case Done(val, w) => Returned(val, w)
    case Error(why) => Faulted(why)
  }

  /** With this much fuel the call finishes, by C's scope rules, with the result `h`. */
  ghost predicate CallFinishes(env: Env, callee: Callee, params: set<string>, body: seq<Stmt>, st: Store, fuel: nat, h: Config) {
    var o := PerformAll(env, callee, body, Called(params, st), fuel);
    (o.Normal? || o.Done? || o.Error?) && ScopedResult(o) == h
  }

  /** The function can be compiled: it is in the fragment, its scopes have
      distinct places, and its names mean the same with and without blocks. */
  ghost predicate Compilable(env: Env, params: set<string>, body: seq<Stmt>) {
    && env.Valid() && params <= env.slots.Keys
    && FunctionInFragment(env, body) && DistinctSites(body) && TidyAll(env, params, params, body)
  }

  /** For a call with these arguments: the code halts in `h` if and only if C's
      call finishes with the result `h`; and it is never malformed. */
  ghost predicate Implements(env: Env, params: set<string>, body: seq<Stmt>, code: seq<Instr>,
                             callee: Callee, st: Store, h: Config)
    requires env.Valid()
  {
    var ctx := Ctx(code, callee, env);
    && (Reaches(ctx, Start(ctx, st), h) <==> exists fuel: nat :: CallFinishes(env, callee, params, body, st, fuel, h))
    && !Reaches(ctx, Start(ctx, st), Faulted(Malformed))
  }

  lemma FinishesAlike(ctx: Ctx, params: set<string>, body: seq<Stmt>, st: Store, fuel: nat, h: Config)
    requires Compilable(ctx.env, params, body) && st.locals.Keys <= params
    ensures Finishes(ctx, body, st, fuel, h) <==> CallFinishes(ctx.env, ctx.callee, params, body, st, fuel, h)
  {
    hide PerformAll, ExecAll;
    FlatIsScoped(ctx.env, params, ctx.callee, body, st, fuel);
  }

  /** The code of an optimised function is correct for every callee, call and result. */
  lemma CompiledCallCorrect(env: Env, params: set<string>, body: seq<Stmt>, ps: seq<Pass>, callee: Callee, st: Store, h: Config)
    requires Compilable(env, params, body) && st.locals.Keys <= params && !h.Running?
    ensures Implements(env, params, body, MethodCode(env, RunPasses(ps, body)), callee, st, h)
  {
    var ctx := Ctx(MethodCode(env, RunPasses(ps, body)), callee, env);
    CompiledFunctionCorrect(ctx, body, ps, st, h);
    hide Reaches, Finishes, CallFinishes, MethodCode;
    forall fuel: nat
      ensures Finishes(ctx, body, st, fuel, h) <==> CallFinishes(env, callee, params, body, st, fuel, h)
    {
      FinishesAlike(ctx, params, body, st, fuel, h);
    }
  }

  /** The passes in any order, then the visitors: the emitted buffer implements the function. */
  method Compile(env: Env, params: set<string>, body: seq<Stmt>, order: seq<Pass>) returns (code: seq<Instr>)
    requires Compilable(env, params, body)
    ensures forall callee: Callee, st: Store, h: Config :: st.locals.Keys <= params && !h.Running? ==>
              Implements(env, params, body, code, callee, st, h)
  {
    hide FunctionInFragment, DistinctSites, TidyAll, MethodCode, Implements, RunPasses;
    var f := new FuncDecl(Some(body));
    f.RunFunctionPass(order);
    PassesKeepFragment(env, order, body);
    var generator := new Generator.JvmGenerator(env);
    generator.VisitFunction(f.body.value);
    code := generator.cache;
    assert code == MethodCode(env, RunPasses(order, body));
    forall callee: Callee, st: Store, h: Config | st.locals.Keys <= params && !h.Running?
      ensures Implements(env, params, body, code, callee, st, h)
    {
      CompiledCallCorrect(env, params, body, order, callee, st, h);
    }
  }
}
