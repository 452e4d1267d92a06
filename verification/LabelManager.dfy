/** The label manager's state over any sequence of requests
    (hzcc/codegen/LabelManager.cc:83-140): a stack of scopes, a counter of open
    loops that is changed on its own at every enter and leave, and a counter of
    labels. Resetting, which happens before each function, clears the stack but
    not the loop counter. */
module LabelManager {
  import opened Ast
  import opened Labels

  datatype Keeper = Keeper(scopes: seq<Scope>, loops: int, labels: nat)

  datatype Request = Enter(pos: Pos, kind: ScopeKind) | Leave | NewLine | Reset

  const START := Keeper([], 0, 0)

  predicate Possible(k: Keeper, r: Request) {
    r.Leave? ==> k.scopes != []
  }

  function Serve(k: Keeper, r: Request): Keeper
    requires Possible(k, r)
  {
    match r
    case Enter(pos, kind) =>
      Keeper(k.scopes + [MakeScope(pos, kind)], if IsLoop(kind) then k.loops + 1 else k.loops, k.labels)
    case Leave =>
      var last := |k.scopes| - 1;
      Keeper(k.scopes[..last], if IsLoop(k.scopes[last].kind) then k.loops - 1 else k.loops, k.labels)
    case NewLine => k.(labels := k.labels + 1)
    case Reset => Keeper([], k.loops, 0)
  }

  predicate AllPossible(k: Keeper, rs: seq<Request>)
    decreases |rs|
  {
    rs == [] || (Possible(k, rs[0]) && AllPossible(Serve(k, rs[0]), rs[1..]))
  }

  function ServeAll(k: Keeper, rs: seq<Request>): Keeper
    requires AllPossible(k, rs)
    decreases |rs|
  {
    if rs == [] then k else ServeAll(Serve(k, rs[0]), rs[1..])
  }

  /** How many loop scopes are open at the resets, all together. */
  function LoopsLost(k: Keeper, rs: seq<Request>): nat
    requires AllPossible(k, rs)
    decreases |rs|
  {
    if rs == [] then 0
    else (if rs[0].Reset? then LoopCount(k.scopes) else 0) + LoopsLost(Serve(k, rs[0]), rs[1..])
  }

  lemma ServeCounts(k: Keeper, r: Request)
    requires Possible(k, r)
    ensures Serve(k, r).loops - LoopCount(Serve(k, r).scopes)
         == k.loops - LoopCount(k.scopes) + (if r.Reset? then LoopCount(k.scopes) else 0)
  {
    if r.Enter? {
      assert Serve(k, r).scopes[..|k.scopes|] == k.scopes;
    }
  }

  lemma {:induction false} CounterExact(k: Keeper, rs: seq<Request>)
    requires AllPossible(k, rs)
    ensures var k1 := ServeAll(k, rs);
            k1.loops - LoopCount(k1.scopes) == k.loops - LoopCount(k.scopes) + LoopsLost(k, rs)
    decreases |rs|
  {
    if rs != [] {
      ServeCounts(k, rs[0]);
      CounterExact(Serve(k, rs[0]), rs[1..]);
    }
  }

  /** After any requests the counter is never negative, and it is the number of
      loops on the stack if and only if no reset came while a loop was open.
      Then it is positive exactly when break and continue find a loop. */
  lemma CounterIsRight(rs: seq<Request>)
    requires AllPossible(START, rs)
    ensures ServeAll(START, rs).loops >= 0
    ensures ServeAll(START, rs).loops == LoopCount(ServeAll(START, rs).scopes) <==> LoopsLost(START, rs) == 0
    ensures LoopsLost(START, rs) == 0 ==>
              (ServeAll(START, rs).loops > 0 <==> LoopIndex(ServeAll(START, rs).scopes) >= 0)
  {
    CounterExact(START, rs);
    LoopCountFindsLoop(ServeAll(START, rs).scopes);
  }

  /** A loop left open at a reset is counted for ever, although there is none to find. */
  lemma ResetInsideLoop(pos: Pos)
    ensures var rs := [Enter(pos, WhileS), Reset];
            && AllPossible(START, rs)
            && ServeAll(START, rs).loops == 1 && LoopIndex(ServeAll(START, rs).scopes) == -1
  {
    var rs := [Enter(pos, WhileS), Reset];
    var k := Serve(START, rs[0]);
    assert rs[1..] == [Reset] && rs[1..][1..] == [];
    assert AllPossible(k, rs[1..]);
    assert ServeAll(START, rs) == ServeAll(k, [Reset]) == ServeAll(Serve(k, Reset), [Reset][1..]) == Serve(k, Reset);
  }
}
