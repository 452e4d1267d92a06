/** The passes over a function body (hzcc/optimization/pass_impl), which run in
    whatever order an unordered map gives (hzcc/optimization/PassManagerImpl.cc:34-60):
    the order does not matter, and compiling the optimised body is correct with
    respect to the original one. */
module Passes {
  import opened Ast
  import opened World
  import opened Jvm
  import opened CSemantics
  import opened CodeSpec
  import opened SimulationBase
  import opened FunctionCorrectness
  import opened LabelUniqueness
  import opened StackHeight

  datatype Pass = DeadCodeElimination | EmptyStatementRemoval

  /** Everything up to the first `return` of the body's own list. */
  function UpToReturn(ss: seq<Stmt>): seq<Stmt> {
    if ss == [] then []
    else if ss[0].Return? then [ss[0]]
    else [ss[0]] + UpToReturn(ss[1..])
  }

  function WithoutEmpty(ss: seq<Stmt>): seq<Stmt> {
    if ss == [] then []
    else if ss[0].Empty? then WithoutEmpty(ss[1..])
    else [ss[0]] + WithoutEmpty(ss[1..])
  }

  function RunPass(p: Pass, ss: seq<Stmt>): seq<Stmt> {
    if p.DeadCodeElimination? then UpToReturn(ss) else WithoutEmpty(ss)
  }

  function RunPasses(ps: seq<Pass>, ss: seq<Stmt>): seq<Stmt> {
    if ps == [] then ss else RunPasses(ps[1..], RunPass(ps[0], ss))
  }

  /** What is left is the list up to its first `return`, and all of it if there is none. */
  lemma {:induction false} NothingFollowsReturn(ss: seq<Stmt>)
    ensures var kept := UpToReturn(ss);
            && kept <= ss
            && (forall j :: 0 <= j < |kept| - 1 ==> !kept[j].Return?)
            && (kept == ss || (kept != [] && kept[|kept| - 1].Return?))
  {
    if ss != [] && !ss[0].Return? {
      NothingFollowsReturn(ss[1..]);
      var kept := UpToReturn(ss[1..]);
      assert UpToReturn(ss) == [ss[0]] + kept;
      hide UpToReturn;
      assert ss == [ss[0]] + ss[1..];
    }
  }

  /** No empty statement is left. */
  lemma {:induction false} NoneEmpty(ss: seq<Stmt>)
    ensures forall j :: 0 <= j < |WithoutEmpty(ss)| ==> !WithoutEmpty(ss)[j].Empty?
  {
    if ss != [] {
      NoneEmpty(ss[1..]);
    }
  }

  /** Nothing but empty statements goes, and the order stays. */
  lemma {:induction false} OnlyEmptyGoes(a: seq<Stmt>, s: Stmt, b: seq<Stmt>)
    ensures WithoutEmpty(a + ([s] + b)) == WithoutEmpty(a) + ((if s == Empty then [] else [s]) + WithoutEmpty(b))
  {
    var rest := [s] + b;
    if a == [] {
      assert a + rest == rest && rest[1..] == b;
    } else {
      OnlyEmptyGoes(a[1..], s, b);
      assert (a + rest)[1..] == a[1..] + rest && (a + rest)[0] == a[0];
    }
  }

  // ----- the passes as they edit the list -----

  lemma NothingLeft()
    ensures WithoutEmpty([]) == []
  {
  }

  /** One turn of the removal loop: the front part stays, the rest is still to do. */
  lemma EraseOne(ss: seq<Stmt>, i: nat)
    requires i < |ss|
    ensures ss[i].Empty? ==>
              var ss1 := ss[..i] + ss[i + 1..];
              ss1[..i] + WithoutEmpty(ss1[i..]) == ss[..i] + WithoutEmpty(ss[i..])
    ensures !ss[i].Empty? ==> ss[..i + 1] + WithoutEmpty(ss[i + 1..]) == ss[..i] + WithoutEmpty(ss[i..])
  {
    assert ss[i..][1..] == ss[i + 1..];
    var ss1 := ss[..i] + ss[i + 1..];
    assert ss1[..i] == ss[..i] && ss1[i..] == ss[i + 1..];
  }

  class FuncDecl {
    var body: Option<seq<Stmt>>

    constructor (body: Option<seq<Stmt>>)
      ensures this.body == body
    {
      this.body := body;
    }

    /** Reports a change whenever there is a `return`, even when nothing is erased. */
    method EliminateDeadCode() returns (modified: bool)
      modifies this
      ensures old(body).None? ==> body == None && !modified
      ensures old(body).Some? ==>
                && body == Some(UpToReturn(old(body).value))
                && modified == exists i :: 0 <= i < |old(body).value| && old(body).value[i].Return?
    {
      modified := false;
      if body.None? {
        return;
      }
      ghost var ss := body.value;
      var i := 0;
      while i < |body.value|
        invariant body == old(body) && i <= |ss| && !modified
        invariant forall j :: 0 <= j < i ==> !ss[j].Return?
        invariant UpToReturn(ss) == ss[..i] + UpToReturn(ss[i..])
      {
        if body.value[i].Return? {
          modified := true;
          body := Some(body.value[..i + 1]);
          assert ss[..i] + [ss[i]] == ss[..i + 1];
          return;
        }
        assert ss[i..][1..] == ss[i + 1..];
        i := i + 1;
      }
      assert ss[..i] + [] == ss && ss[i..] == [];
    }

    method RemoveEmptyStatements() returns (modified: bool)
      modifies this
      ensures old(body).None? ==> body == None && !modified
      ensures old(body).Some? ==>
                && body == Some(WithoutEmpty(old(body).value))
                && (modified <==> body != old(body))
    {
      modified := false;
      if body.None? {
        return;
      }
      hide WithoutEmpty;
      var i := 0;
      ghost var erased := 0;
      while i < |body.value|
        invariant body.Some? && i <= |body.value| && |body.value| + erased == |old(body).value|
        invariant modified <==> erased > 0
        invariant WithoutEmpty(old(body).value) == body.value[..i] + WithoutEmpty(body.value[i..])
        invariant !modified ==> body == old(body)
        decreases |body.value| - i
      {
        EraseOne(body.value, i);
        if body.value[i].Empty? {
          modified := true;
          erased := erased + 1;
          body := Some(body.value[..i] + body.value[i + 1..]);
        } else {
          i := i + 1;
        }
      }
      NothingLeft();
      assert body.value[..i] + [] == body.value && body.value[i..] == [];
    }

    /** PassManagerImpl::RunFunctionPass, in the order of the map. */
    method RunFunctionPass(order: seq<Pass>)
      modifies this
      ensures body == if old(body).None? then None else Some(RunPasses(order, old(body).value))
    {
      for i := 0 to |order|
        invariant body.None? <==> old(body).None?
        invariant body.Some? ==> RunPasses(order, old(body).value) == RunPasses(order[i..], body.value)
      {
        assert order[i..][1..] == order[i + 1..];
        if order[i].DeadCodeElimination? {
          var _ := EliminateDeadCode();
        } else {
          var _ := RemoveEmptyStatements();
        }
      }
    }
  }

  // ----- any order -----

  lemma {:induction false} UpToReturnIdempotent(ss: seq<Stmt>)
    ensures UpToReturn(UpToReturn(ss)) == UpToReturn(ss)
  {
    if ss != [] && !ss[0].Return? {
      assert UpToReturn(ss)[1..] == UpToReturn(ss[1..]);
      UpToReturnIdempotent(ss[1..]);
    }
  }

  lemma {:induction false} WithoutEmptyIdempotent(ss: seq<Stmt>)
    ensures WithoutEmpty(WithoutEmpty(ss)) == WithoutEmpty(ss)
  {
    if ss != [] {
      if !ss[0].Empty? {
        assert WithoutEmpty(ss)[1..] == WithoutEmpty(ss[1..]);
      }
      WithoutEmptyIdempotent(ss[1..]);
    }
  }

  lemma {:induction false} PassesCommute(ss: seq<Stmt>)
    ensures UpToReturn(WithoutEmpty(ss)) == WithoutEmpty(UpToReturn(ss))
  {
    if ss != [] {
      PassesCommute(ss[1..]);
      if ss[0].Return? {
        assert WithoutEmpty(ss) == [ss[0]] + WithoutEmpty(ss[1..]);
        assert WithoutEmpty([ss[0]]) == [ss[0]] + WithoutEmpty([]);
      } else if ss[0].Empty? {
        assert UpToReturn(ss)[1..] == UpToReturn(ss[1..]);
      } else {
        assert UpToReturn(ss)[1..] == UpToReturn(ss[1..]);
        assert WithoutEmpty(ss)[1..] == WithoutEmpty(ss[1..]);
      }
    }
  }

  /** What a run of passes amounts to: which of the two occur in it. */
  function Summary(ps: seq<Pass>, ss: seq<Stmt>): seq<Stmt> {
    var ss1 := if DeadCodeElimination in ps then UpToReturn(ss) else ss;
    if EmptyStatementRemoval in ps then WithoutEmpty(ss1) else ss1
  }

  /** The result depends on which passes run, not on their order or number. */
  lemma {:induction false} OrderDoesNotMatter(ps: seq<Pass>, ss: seq<Stmt>)
    ensures RunPasses(ps, ss) == Summary(ps, ss)
    decreases ps
  {
    if ps != [] {
      OrderDoesNotMatter(ps[1..], RunPass(ps[0], ss));
      assert forall p :: p in ps <==> p == ps[0] || p in ps[1..];
      UpToReturnIdempotent(ss);
      WithoutEmptyIdempotent(ss);
      WithoutEmptyIdempotent(UpToReturn(ss));
      PassesCommute(ss);
    }
  }

  // ----- meaning -----

  lemma {:induction false} UpToReturnMeans(env: Env, callee: Callee, ss: seq<Stmt>, st: Store, fuel: nat)
    ensures ExecAll(env, callee, UpToReturn(ss), st, fuel) == ExecAll(env, callee, ss, st, fuel)
    decreases ss
  {
    if ss != [] {
      var o := Exec(env, callee, ss[0], st, fuel);
      if ss[0].Return? {
        assert !o.Normal?;
      } else {
        assert UpToReturn(ss)[1..] == UpToReturn(ss[1..]);
        if o.Normal? {
          UpToReturnMeans(env, callee, ss[1..], o.st, fuel);
        }
      }
    }
  }

  lemma {:induction false} WithoutEmptyMeans(env: Env, callee: Callee, ss: seq<Stmt>, st: Store, fuel: nat)
    ensures ExecAll(env, callee, WithoutEmpty(ss), st, fuel) == ExecAll(env, callee, ss, st, fuel)
    decreases ss
  {
    if ss != [] {
      var o := Exec(env, callee, ss[0], st, fuel);
      if !ss[0].Empty? {
        assert WithoutEmpty(ss)[1..] == WithoutEmpty(ss[1..]);
      }
      if o.Normal? {
        WithoutEmptyMeans(env, callee, ss[1..], o.st, fuel);
      }
    }
  }

  /** Passes keep what a body does, for every outcome: normal end, return,
      break, continue, error, or still running. */
  lemma {:induction false} PassesKeepMeaning(env: Env, callee: Callee, ps: seq<Pass>, ss: seq<Stmt>, st: Store, fuel: nat)
    ensures ExecAll(env, callee, RunPasses(ps, ss), st, fuel) == ExecAll(env, callee, ss, st, fuel)
    decreases ps
  {
    if ps != [] {
      UpToReturnMeans(env, callee, ss, st, fuel);
      WithoutEmptyMeans(env, callee, ss, st, fuel);
      PassesKeepMeaning(env, callee, ps[1..], RunPass(ps[0], ss), st, fuel);
    }
  }

  // ----- what the code generator needs -----

  lemma {:induction false} PassKeepsFragment(env: Env, p: Pass, ss: seq<Stmt>)
    requires FunctionInFragment(env, ss)
    ensures FunctionInFragment(env, RunPass(p, ss))
    decreases ss
  {
    if ss != [] {
      hide InFragment;
      assert forall i :: 0 < i < |ss| ==> ss[1..][i - 1] == ss[i];
      PassKeepsFragment(env, p, ss[1..]);
    }
  }

  /** No pass adds a scope. */
  lemma {:induction false} PassKeepsSites(p: Pass, ss: seq<Stmt>)
    ensures OpenedAll(RunPass(p, ss)) <= OpenedAll(ss)
    decreases ss
  {
    if ss != [] {
      hide Opened;
      PassKeepsSites(p, ss[1..]);
      assert p.DeadCodeElimination? && !ss[0].Return? ==> UpToReturn(ss)[1..] == UpToReturn(ss[1..]);
      assert p.EmptyStatementRemoval? && !ss[0].Empty? ==> WithoutEmpty(ss)[1..] == WithoutEmpty(ss[1..]);
    }
  }

  lemma {:induction false} PassesKeepFragment(env: Env, ps: seq<Pass>, ss: seq<Stmt>)
    requires FunctionInFragment(env, ss) && DistinctSites(ss)
    ensures FunctionInFragment(env, RunPasses(ps, ss)) && DistinctSites(RunPasses(ps, ss))
    decreases ps
  {
    if ps != [] {
      hide FunctionInFragment, OpenedAll;
      PassKeepsFragment(env, ps[0], ss);
      PassKeepsSites(ps[0], ss);
      assert forall x: Site :: OpenedAll(RunPass(ps[0], ss))[x] <= OpenedAll(ss)[x];
      PassesKeepFragment(env, ps[1..], RunPass(ps[0], ss));
    }
  }

  /** The whole way: a function of the fragment whose scopes have distinct
      places, optimised in any order and compiled, halts in `h` if and only if
      the original source function finishes with the result `h`; and no run of
      the method is ever malformed. */
  lemma CompiledFunctionCorrect(ctx: Ctx, body: seq<Stmt>, ps: seq<Pass>, st: Store, h: Config)
    requires ctx.env.Valid() && FunctionInFragment(ctx.env, body) && DistinctSites(body)
    requires ctx.code == MethodCode(ctx.env, RunPasses(ps, body)) && !h.Running?
    ensures Reaches(ctx, Start(ctx, st), h) <==> exists fuel: nat :: Finishes(ctx, body, st, fuel, h)
    ensures !Reaches(ctx, Start(ctx, st), Faulted(Malformed))
  {
    var optimised := RunPasses(ps, body);
    hide FunctionInFragment, MethodCode, ExecAll, OpenedAll;
    PassesKeepFragment(ctx.env, ps, body);
    LabelsUnique(ctx.env, optimised);
    MethodCorrect(ctx, optimised, st, h);
    forall fuel: nat
      ensures Finishes(ctx, optimised, st, fuel, h) <==> Finishes(ctx, body, st, fuel, h)
    {
      PassesKeepMeaning(ctx.env, ctx.callee, ps, body, st, fuel);
    }
    if Reaches(ctx, Start(ctx, st), Faulted(Malformed)) {
      var n: nat :| Run(ctx.code, ctx.callee, Start(ctx, st), n) == Faulted(Malformed);
      MethodNeverMalformed(ctx.env, optimised, ctx.callee, FrameOf(ctx.env, st), n);
    }
  }
}
