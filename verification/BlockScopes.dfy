/** Names as C has them (section 6.2.1 of ISO/IEC 9899:2011): a declaration
    holds from where it stands to the end of its block and hides outer ones.
    CSemantics, like the code generator's slot table, has one object per name
    for the whole function. Here the two are compared. */
module BlockScopes {
  import opened Ast
  import opened World
  import opened CSemantics

  // ----- states -----

  /** One block: the names declared in it so far, and the values of those that have one. */
  datatype Block = Block(names: set<string>, values: map<string, Value>)

  /** The open blocks, innermost last. */
  datatype Scoped = Scoped(blocks: seq<Block>, world: World)

  function Names(bs: seq<Block>): set<string> {
    if bs == [] then {} else Names(bs[..|bs| - 1]) + bs[|bs| - 1].names
  }

  /** The values of all visible objects. */
  function Values(bs: seq<Block>): map<string, Value> {
    if bs == [] then map[]
    else (Values(bs[..|bs| - 1]) - bs[|bs| - 1].names) + bs[|bs| - 1].values
  }

  function Restrict(m: map<string, Value>, names: set<string>): map<string, Value> {
    map x | x in m && x in names :: m[x]
  }

  /** The blocks after the visible objects got the values `m`; hidden ones keep theirs. */
  function Absorb(bs: seq<Block>, m: map<string, Value>): seq<Block> {
    if bs == [] then [] else
    var rest, last := bs[..|bs| - 1], bs[|bs| - 1];
    Absorb(rest, (m - last.names) + Restrict(Values(rest), last.names)) + [Block(last.names, Restrict(m, last.names))]
  }

  /** The table in which exactly the visible names are local. */
  function Seen(env: Env, bs: seq<Block>): Env {
    env.(slots := map x | x in Names(bs) :: 0)
  }

  // ----- meaning -----

  datatype ScopedEval = Val(v: int, sc: Scoped) | Stuck(why: Reason)

  /** An expression opens no block: each of its names is the innermost visible one. */
  function ValueIn(env: Env, callee: Callee, e: Expr, sc: Scoped): ScopedEval {
    match Evaluate(Seen(env, sc.blocks), callee, e, Store(Values(sc.blocks), sc.world))
    case Err(why) => Stuck(why)
    case Ok(v, st) => Val(v, Scoped(Absorb(sc.blocks, st.locals), st.world))
  }

  function Truth(env: Env, callee: Callee, cond: Option<Expr>, sc: Scoped): ScopedEval {
    if cond.None? then Val(1, sc) else ValueIn(env, callee, cond.value, sc)
  }

  /** A declaration in the innermost block: the object has no value yet. */
  function Declare(sc: Scoped, x: string): Scoped {
    if sc.blocks == [] then sc else
    var n := |sc.blocks| - 1;
    var b := sc.blocks[n];
    sc.(blocks := sc.blocks[..n] + [Block(b.names + {x}, b.values - {x})])
  }

  function Initialise(sc: Scoped, x: string, v: Value): Scoped {
    if sc.blocks == [] then sc else
    var n := |sc.blocks| - 1;
    var b := sc.blocks[n];
    sc.(blocks := sc.blocks[..n] + [Block(b.names, b.values[x := v])])
  }

  function Enter(sc: Scoped): Scoped {
    sc.(blocks := sc.blocks + [Block({}, map[])])
  }

  function Exit(sc: Scoped): Scoped {
    if sc.blocks == [] then sc else sc.(blocks := sc.blocks[..|sc.blocks| - 1])
  }

  function ExitWith(o: Ending<Scoped>): Ending<Scoped> {
    match o
    case Normal(sc) => Normal(Exit(sc))
    case Broke(sc) => Broke(Exit(sc))
    case Continued(sc) => Continued(Exit(sc))
    case other => other
  }

  /** Section 6.8, with blocks: a compound statement is one, and so is each
      substatement of a selection or iteration statement (6.8.4p3, 6.8.5p5). */
  function Perform(env: Env, callee: Callee, s: Stmt, sc: Scoped, fuel: nat): Ending<Scoped>
    decreases fuel, s, if s.If? then |s.elifs| + 1 else 1
  {
    match s
    case Empty => Normal(sc)
    case ExprStmt(e) =>
      (match ValueIn(env, callee, e, sc)
       case Stuck(why) => Error(why)
       case Val(_, sc1) => Normal(sc1))
    case Decl(x, None) => Normal(Declare(sc, x))
    case Decl(x, Some(e)) =>
      (match ValueIn(env, callee, e, Declare(sc, x))
       case Stuck(why) => Error(why)
       case Val(v, sc1) => Normal(Initialise(sc1, x, IntV(v))))
    case ArrayDecl(x, size) =>
      Normal(Initialise(Declare(sc.(world := Allocate(sc.world, size)), x), x, RefV(|sc.world.heap|)))
    case Compound(body) => ExitWith(PerformAll(env, callee, body, Enter(sc), fuel))
    case If(_, cond, thn, _, _) =>
      (match ValueIn(env, callee, cond, sc)
       case Stuck(why) => Error(why)
       case Val(v, sc1) =>
         if v != 0 then ExitWith(Perform(env, callee, thn, Enter(sc1), fuel))
         else PerformElse(env, callee, s, 0, sc1, fuel))
    case While(_, _, _) => Iterate(env, callee, s, sc, fuel)
    case Do(_, _, _) => Repeat(env, callee, s, sc, fuel)
    case For(_, init, _, _, _) =>
      (match Perform(env, callee, init, sc, fuel)
       case Normal(sc1) => Iterate(env, callee, s, sc1, fuel)
       case other => other)
    case Break => Broke(sc)
    case Continue => Continued(sc)
    case Return(None) => Done(None, sc.world)
    case Return(Some(e)) =>
      match ValueIn(env, callee, e, sc)
      case Stuck(why) => Error(why)
      case Val(v, sc1) => Done(Some(v), sc1.world)
  }

  function PerformAll(env: Env, callee: Callee, ss: seq<Stmt>, sc: Scoped, fuel: nat): Ending<Scoped>
    decreases fuel, ss
  {
    if ss == [] then Normal(sc) else
    match Perform(env, callee, ss[0], sc, fuel)
    case Normal(sc1) => PerformAll(env, callee, ss[1..], sc1, fuel)
    case other => other
  }

  function PerformElse(env: Env, callee: Callee, s: Stmt, i: nat, sc: Scoped, fuel: nat): Ending<Scoped>
    requires s.If? && i <= |s.elifs|
    decreases fuel, s, |s.elifs| - i
  {
    if i == |s.elifs| then
      (match s.els
       case None => Normal(sc)
       case Some(s1) => ExitWith(Perform(env, callee, s1, Enter(sc), fuel)))
    else
      match ValueIn(env, callee, s.elifs[i].cond, sc)
      case Stuck(why) => Error(why)
      case Val(v, sc1) =>
        if v != 0 then ExitWith(Perform(env, callee, s.elifs[i].body, Enter(sc1), fuel))
        else PerformElse(env, callee, s, i + 1, sc1, fuel)
  }

  function Iterate(env: Env, callee: Callee, s: Stmt, sc: Scoped, fuel: nat): Ending<Scoped>
    requires s.While? || s.For?
    decreases fuel, s, 0
  {
    if fuel == 0 then Timeout else
    match Truth(env, callee, LoopCond(s), sc)
    case Stuck(why) => Error(why)
    case Val(v, sc1) =>
      if v == 0 then Normal(sc1) else
      match ExitWith(Perform(env, callee, LoopBody(s), Enter(sc1), fuel - 1))
      case Normal(sc2) => IterateOn(env, callee, s, sc2, fuel - 1)
      case Continued(sc2) => IterateOn(env, callee, s, sc2, fuel - 1)
      case Broke(sc2) => Normal(sc2)
      case other => other
  }

  function IterateOn(env: Env, callee: Callee, s: Stmt, sc: Scoped, fuel: nat): Ending<Scoped>
    requires s.While? || s.For?
    decreases fuel, s, 1
  {
    match if s.While? then Normal(sc) else Perform(env, callee, s.step, sc, fuel)
    case Normal(sc1) => Iterate(env, callee, s, sc1, fuel)
    case other => other
  }

  function Repeat(env: Env, callee: Callee, s: Stmt, sc: Scoped, fuel: nat): Ending<Scoped>
    requires s.Do?
    decreases fuel, s, 0
  {
    if fuel == 0 then Timeout else
    match ExitWith(Perform(env, callee, s.dbody, Enter(sc), fuel - 1))
    case Normal(sc1) => RepeatTest(env, callee, s, sc1, fuel - 1)
    case Continued(sc1) => RepeatTest(env, callee, s, sc1, fuel - 1)
    case Broke(sc1) => Normal(sc1)
    case other => other
  }

  function RepeatTest(env: Env, callee: Callee, s: Stmt, sc: Scoped, fuel: nat): Ending<Scoped>
    requires s.Do?
    decreases fuel, s, 1
  {
    match Truth(env, callee, s.dcond, sc)
    case Stuck(why) => Error(why)
    case Val(v, sc1) => if v == 0 then Normal(sc1) else Repeat(env, callee, s, sc1, fuel)
  }
}
