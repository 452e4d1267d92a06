/** What the statements of the source language do, each in terms of smaller
    ones (section 6.8 of ISO/IEC 9899:2011), without the selectors that the
    meaning of loops shares with their code. */
module StatementLaws {
  import opened Ast
  import opened World
  import opened CSemantics

  /** A truth value decides between the branches; no branch is nothing to do. */
  lemma IfChooses(env: Env, callee: Callee, pos: Pos, c: Expr, thn: Stmt, els: Option<Stmt>, st: Store, fuel: nat)
    ensures var test := Evaluate(env, callee, c, st);
            Exec(env, callee, If(pos, c, thn, [], els), st, fuel)
            == if test.Err? then Error(test.why)
               else if test.v != 0 then Exec(env, callee, thn, test.st, fuel)
               else if els.Some? then Exec(env, callee, els.value, test.st, fuel)
               else Normal(test.st)
  {
    hide Evaluate;
  }

  /** `if (c) s else if (d) t ...` is `if (c) s else { if (d) t ... }`. */
  lemma {:induction false} ElseIfNests(env: Env, callee: Callee, pos: Pos, c: Expr, thn: Stmt,
                                       first: ElseIf, rest: seq<ElseIf>, els: Option<Stmt>, st: Store, fuel: nat)
    ensures Exec(env, callee, If(pos, c, thn, [first] + rest, els), st, fuel)
         == Exec(env, callee, If(pos, c, thn, [], Some(If(first.pos, first.cond, first.body, rest, els))), st, fuel)
  {
    hide Evaluate;
    var whole, inner := If(pos, c, thn, [first] + rest, els), If(first.pos, first.cond, first.body, rest, els);
    var outer := If(pos, c, thn, [], Some(inner));
    match Evaluate(env, callee, c, st) {
      case Err(_) =>
      case Ok(v, st1) =>
        if v == 0 {
          assert Exec(env, callee, outer, st, fuel) == ExecElse(env, callee, outer, 0, st1, fuel) == Exec(env, callee, inner, st1, fuel);
          match Evaluate(env, callee, first.cond, st1) {
            case Err(_) =>
            case Ok(v1, st2) =>
              if v1 == 0 {
                ElseShift(env, callee, whole, inner, 0, st2, fuel);
              }
          }
        }
    }
  }

  lemma {:induction false} ElseShift(env: Env, callee: Callee, s: Stmt, s1: Stmt, i: nat, st: Store, fuel: nat)
    requires s.If? && s1.If? && s.els == s1.els && i <= |s1.elifs| && s.elifs != [] && s.elifs[1..] == s1.elifs
    ensures ExecElse(env, callee, s, i + 1, st, fuel) == ExecElse(env, callee, s1, i, st, fuel)
    decreases |s1.elifs| - i
  {
    hide Evaluate;
    if i < |s1.elifs| {
      assert s.elifs[i + 1] == s1.elifs[i];
      match Evaluate(env, callee, s1.elifs[i].cond, st) {
        case Err(_) =>
        case Ok(v, st1) =>
          if v == 0 {
            ElseShift(env, callee, s, s1, i + 1, st1, fuel);
          }
      }
    }
  }

  /** A true condition runs the body once and then the loop again, with one unit
      of fuel less; a false one ends the loop. `break` ends it, `continue` starts the next turn. */
  lemma WhileUnrolls(env: Env, callee: Callee, pos: Pos, c: Expr, body: Stmt, st: Store, fuel: nat)
    ensures var loop := While(pos, c, body);
            var test := Evaluate(env, callee, c, st);
            Exec(env, callee, loop, st, fuel + 1)
            == if test.Err? then Error(test.why)
               else if test.v == 0 then Normal(test.st)
               else match Exec(env, callee, body, test.st, fuel)
                    case Normal(st1) => Exec(env, callee, loop, st1, fuel)
                    case Continued(st1) => Exec(env, callee, loop, st1, fuel)
                    case Broke(st1) => Normal(st1)
                    case other => other
  {
    hide Evaluate;
    var loop := While(pos, c, body);
    assert Exec(env, callee, loop, st, fuel + 1) == Loop(env, callee, loop, st, fuel + 1);
    var test := Evaluate(env, callee, c, st);
    if test.Ok? && test.v != 0 {
      var o := Exec(env, callee, body, test.st, fuel);
      if o.Normal? || o.Continued? {
        assert Again(env, callee, loop, o.st, fuel) == Loop(env, callee, loop, o.st, fuel) == Exec(env, callee, loop, o.st, fuel);
      }
    }
  }

  /** One turn of a `for`: the step is run behind the body and behind `continue`, but not behind `break`. */
  lemma ForUnrolls(env: Env, callee: Callee, pos: Pos, c: Expr, step: Stmt, body: Stmt, st: Store, fuel: nat)
    ensures var loop := For(pos, Empty, Some(c), step, body);
            var test := Evaluate(env, callee, c, st);
            Exec(env, callee, loop, st, fuel + 1)
            == if test.Err? then Error(test.why)
               else if test.v == 0 then Normal(test.st)
               else match Exec(env, callee, body, test.st, fuel)
                    case Normal(st1) => Exec(env, callee, Compound([step, loop]), st1, fuel)
                    case Continued(st1) => Exec(env, callee, Compound([step, loop]), st1, fuel)
                    case Broke(st1) => Normal(st1)
                    case other => other
  {
    hide Evaluate;
    var loop := For(pos, Empty, Some(c), step, body);
    assert Exec(env, callee, loop, st, fuel + 1) == Loop(env, callee, loop, st, fuel + 1);
    var test := Evaluate(env, callee, c, st);
    if test.Ok? && test.v != 0 {
      var o := Exec(env, callee, body, test.st, fuel);
      if o.Normal? || o.Continued? {
        TwoInOrder(env, callee, step, loop, o.st, fuel);
        StepThenLoop(env, callee, loop, o.st, fuel);
      }
    }
  }

  lemma StepThenLoop(env: Env, callee: Callee, loop: Stmt, st: Store, fuel: nat)
    requires loop.For? && loop.init0 == Empty
    ensures Again(env, callee, loop, st, fuel)
         == match Exec(env, callee, loop.step, st, fuel)
            case Normal(st1) => Exec(env, callee, loop, st1, fuel)
            case other => other
  {
    var o := Exec(env, callee, loop.step, st, fuel);
    if o.Normal? {
      assert Exec(env, callee, Empty, o.st, fuel) == Normal(o.st);
      assert Exec(env, callee, loop, o.st, fuel) == Loop(env, callee, loop, o.st, fuel);
    }
  }

  /** Section 6.8.5.2: the body comes before the test. */
  lemma DoUnrolls(env: Env, callee: Callee, pos: Pos, body: Stmt, c: Expr, st: Store, fuel: nat)
    ensures Exec(env, callee, Do(pos, body, Some(c)), st, fuel + 1)
         == match Exec(env, callee, body, st, fuel)
            case Normal(st1) => Exec(env, callee, If(pos, c, Do(pos, body, Some(c)), [], None), st1, fuel)
            case Continued(st1) => Exec(env, callee, If(pos, c, Do(pos, body, Some(c)), [], None), st1, fuel)
            case Broke(st1) => Normal(st1)
            case other => other
  {
    hide Evaluate;
    var loop := Do(pos, body, Some(c));
    assert Exec(env, callee, loop, st, fuel + 1) == DoLoop(env, callee, loop, st, fuel + 1);
    var o := Exec(env, callee, body, st, fuel);
    if o.Normal? || o.Continued? {
      assert Exec(env, callee, loop, o.st, fuel) == DoLoop(env, callee, loop, o.st, fuel);
      IfChooses(env, callee, pos, c, loop, None, o.st, fuel);
      if Evaluate(env, callee, c, o.st).Ok? {
        assert Exec(env, callee, loop, Evaluate(env, callee, c, o.st).st, fuel)
            == DoLoop(env, callee, loop, Evaluate(env, callee, c, o.st).st, fuel);
      }
    }
  }

  /** The body never ends in `continue`, so that nothing can skip what stands behind it. */
  ghost predicate NeverContinues(env: Env, callee: Callee, s: Stmt) {
    forall st, fuel: nat :: !Exec(env, callee, s, st, fuel).Continued?
  }

  /** Section 6.8.5.3: `for (init; c; step) body` is `{ init; while (c) { body step } }`,
      if the body does not continue; a missing condition is a true one. */
  lemma {:induction false} ForIsWhile(env: Env, callee: Callee, pos: Pos, init: Expr, c: Option<Expr>, step: Expr,
                                      body: Stmt, st: Store, fuel: nat)
    requires NeverContinues(env, callee, body)
    ensures var test := if c.Some? then c.value else Lit(1);
            var turn := Compound([body, ExprStmt(step)]);
            Exec(env, callee, For(pos, ExprStmt(init), c, ExprStmt(step), body), st, fuel)
            == Exec(env, callee, Compound([ExprStmt(init), While(pos, test, turn)]), st, fuel)
  {
    hide Evaluate;
    var loop := While(pos, if c.Some? then c.value else Lit(1), Compound([body, ExprStmt(step)]));
    TwoInOrder(env, callee, ExprStmt(init), loop, st, fuel);
    var o := Exec(env, callee, ExprStmt(init), st, fuel);
    if o.Normal? {
      TurnsAlike(env, callee, pos, ExprStmt(init), c, step, body, o.st, fuel);
    }
  }

  lemma TwoInOrder(env: Env, callee: Callee, s1: Stmt, s2: Stmt, st: Store, fuel: nat)
    ensures Exec(env, callee, Compound([s1, s2]), st, fuel)
         == match Exec(env, callee, s1, st, fuel)
            case Normal(st1) => Exec(env, callee, s2, st1, fuel)
            case other => other
  {
    assert [s1, s2][1..] == [s2] && [s2][1..] == [];
    match Exec(env, callee, s1, st, fuel) {
      case Normal(st1) =>
        assert ExecAll(env, callee, [s2], st1, fuel) == Exec(env, callee, s2, st1, fuel);
      case _ =>
    }
  }

  lemma {:induction false} TurnsAlike(env: Env, callee: Callee, pos: Pos, init: Stmt, c: Option<Expr>, step: Expr,
                                      body: Stmt, st: Store, fuel: nat)
    requires NeverContinues(env, callee, body)
    ensures var test := if c.Some? then c.value else Lit(1);
            Loop(env, callee, For(pos, init, c, ExprStmt(step), body), st, fuel)
            == Loop(env, callee, While(pos, test, Compound([body, ExprStmt(step)])), st, fuel)
    decreases fuel
  {
    var test := if c.Some? then c.value else Lit(1);
    var s, loop := For(pos, init, c, ExprStmt(step), body), While(pos, test, Compound([body, ExprStmt(step)]));
    if fuel > 0 {
      assert Evaluate(env, callee, Lit(1), st) == Ok(1, st);
      hide Evaluate;
      match Evaluate(env, callee, test, st) {
        case Err(_) =>
        case Ok(v, st1) =>
          TwoInOrder(env, callee, body, ExprStmt(step), st1, fuel - 1);
          var o := Exec(env, callee, body, st1, fuel - 1);
          assert !o.Continued?;
          if o.Normal? {
            match Evaluate(env, callee, step, o.st) {
              case Err(_) =>
              case Ok(_, st2) => TurnsAlike(env, callee, pos, init, c, step, body, st2, fuel - 1);
            }
          }
      }
    }
  }
}
