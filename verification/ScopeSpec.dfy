/** The scope tree (hzcc/ast/SymbTbl.cc) as values: a stack of scopes, innermost
    first, is what a scope sees; a tree of parent-linked scopes gives one such
    stack for each of its nodes. */
module ScopeSpec {
  import opened Ast

  type Position = (nat, nat)

  datatype Variable = Variable(pos: Position, typeName: string)

  /** The two tables of one scope; a struct type is known by its definition's number. */
  datatype Scope = Scope(vars: map<string, Variable>, types: map<string, nat>)

  type Stack = seq<Scope>

  const EMPTY := Scope(map[], map[])

  // ----- what a stack of maps shows -----

  ghost predicate SeesVar(s: Stack, name: string) {
    exists i :: 0 <= i < |s| && name in s[i].vars
  }

  ghost predicate SeesType(s: Stack, name: string) {
    exists i :: 0 <= i < |s| && name in s[i].types
  }

  /** `s[i]` is the innermost scope that declares the variable. */
  ghost predicate BindsVar(s: Stack, name: string, i: nat) {
    i < |s| && name in s[i].vars && forall j :: 0 <= j < i ==> name !in s[j].vars
  }

  ghost predicate BindsType(s: Stack, name: string, i: nat) {
    i < |s| && name in s[i].types && forall j :: 0 <= j < i ==> name !in s[j].types
  }

  /** emplace: an entry that is already there stays. */
  function WithVar(s: Scope, name: string, v: Variable): Scope {
    if name in s.vars then s else s.(vars := s.vars[name := v])
  }

  function WithType(s: Scope, name: string, t: nat): Scope {
    if name in s.types then s else s.(types := s.types[name := t])
  }

  /** Looking one scope further out. */
  lemma OneOut(s: Stack, name: string)
    requires s != []
    ensures name in s[0].vars ==> forall i: nat :: BindsVar(s, name, i) ==> i == 0
    ensures name !in s[0].vars ==>
              && (SeesVar(s, name) <==> SeesVar(s[1..], name))
              && forall i: nat :: BindsVar(s, name, i) ==> i > 0 && BindsVar(s[1..], name, i - 1)
    ensures name in s[0].types ==> forall i: nat :: BindsType(s, name, i) ==> i == 0
    ensures name !in s[0].types ==>
              && (SeesType(s, name) <==> SeesType(s[1..], name))
              && forall i: nat :: BindsType(s, name, i) ==> i > 0 && BindsType(s[1..], name, i - 1)
  {
    var rest := s[1..];
    assert forall k :: 0 <= k < |rest| ==> rest[k] == s[k + 1];
    assert forall k :: 0 < k < |s| ==> s[k] == rest[k - 1];
  }

  // ----- the tree -----

  datatype Node = Node(parent: Option<nat>, scope: Scope)

  type Tree = seq<Node>

  /** Parents are older, so chains have no cycle. */
  predicate WellFormed(t: Tree) {
    forall i: nat :: i < |t| ==> t[i].parent.Some? ==> t[i].parent.value < i
  }

  /** The chain of scopes from `i` to the root. */
  function Chain(t: Tree, i: nat): (c: seq<nat>)
    requires WellFormed(t) && i < |t|
    ensures c != [] && c[0] == i
    ensures forall k :: 0 <= k < |c| ==> c[k] < |t| && c[k] <= i
    ensures forall k :: 0 <= k < |c| - 1 ==> c[k] > c[k + 1]
  {
    if t[i].parent.None? then [i] else [i] + Chain(t, t[i].parent.value)
  }

  function View(t: Tree, i: nat): (s: Stack)
    requires WellFormed(t) && i < |t|
    ensures |s| == |Chain(t, i)| && forall k :: 0 <= k < |s| ==> s[k] == t[Chain(t, i)[k]].scope
  {
    if t[i].parent.None? then [t[i].scope] else [t[i].scope] + View(t, t[i].parent.value)
  }

  // ----- runs -----

  datatype Op = Enter(at: nat) | AddVar(at: nat, name: string, v: Variable) | AddType(at: nat, name: string, t: nat)

  predicate Possible(t: Tree, op: Op) {
    op.at < |t|
  }

  /** The change an operation makes to the scope it is called on. */
  function Touch(s: Scope, op: Op): Scope {
    match op
    case Enter(_) => s
    case AddVar(_, name, v) => WithVar(s, name, v)
    case AddType(_, name, n) => WithType(s, name, n)
  }

  function Apply(t: Tree, op: Op): (u: Tree)
    requires WellFormed(t) && Possible(t, op)
    ensures WellFormed(u) && |u| >= |t|
  {
    if op.Enter? then t + [Node(Some(op.at), EMPTY)]
    else t[op.at := t[op.at].(scope := Touch(t[op.at].scope, op))]
  }

  predicate AllPossible(t: Tree, ops: seq<Op>)
    requires WellFormed(t)
    decreases |ops|
  {
    ops == [] || (Possible(t, ops[0]) && AllPossible(Apply(t, ops[0]), ops[1..]))
  }

  function Run(t: Tree, ops: seq<Op>): (u: Tree)
    requires WellFormed(t) && AllPossible(t, ops)
    ensures WellFormed(u) && |u| >= |t|
    decreases |ops|
  {
    if ops == [] then t else Run(Apply(t, ops[0]), ops[1..])
  }

  /** A step leaves every chain as it was; a new scope is put in front of its parent's chain. */
  lemma {:induction false} ChainsStay(t: Tree, op: Op, i: nat)
    requires WellFormed(t) && Possible(t, op) && i < |t|
    ensures Chain(Apply(t, op), i) == Chain(t, i)
  {
    var u := Apply(t, op);
    assert u[i].parent == t[i].parent;
    if t[i].parent.Some? {
      ChainsStay(t, op, t[i].parent.value);
    }
  }

  /** What an operation does to a stack whose scopes have the given numbers. */
  function Replayed(s: Stack, c: seq<nat>, op: Op): Stack
    requires |s| == |c|
  {
    seq(|s|, k requires 0 <= k < |s| => if c[k] == op.at then Touch(s[k], op) else s[k])
  }

  function ReplayedAll(s: Stack, c: seq<nat>, ops: seq<Op>): Stack
    requires |s| == |c|
    decreases |ops|
  {
    if ops == [] then s else ReplayedAll(Replayed(s, c, ops[0]), c, ops[1..])
  }

  lemma StepReplays(t: Tree, op: Op, i: nat)
    requires WellFormed(t) && Possible(t, op) && i < |t|
    ensures View(Apply(t, op), i) == Replayed(View(t, i), Chain(t, i), op)
  {
    ChainsStay(t, op, i);
    var u, c := Apply(t, op), Chain(t, i);
    forall k | 0 <= k < |c|
      ensures View(u, i)[k] == Replayed(View(t, i), c, op)[k]
    {
      assert View(u, i)[k] == u[c[k]].scope;
    }
  }

  /** The parent-linked tree refines a stack of maps: after any run, what a
      scope sees is its old stack with just the operations on its own chain
      replayed on it, in their order. */
  lemma {:induction false} TreeRefinesStack(t: Tree, ops: seq<Op>, i: nat)
    requires WellFormed(t) && AllPossible(t, ops) && i < |t|
    ensures View(Run(t, ops), i) == ReplayedAll(View(t, i), Chain(t, i), ops)
    decreases |ops|
  {
    if ops != [] {
      StepReplays(t, ops[0], i);
      ChainsStay(t, ops[0], i);
      TreeRefinesStack(Apply(t, ops[0]), ops[1..], i);
    }
  }

  /** Entering pushes an empty map. */
  lemma EnterPushes(t: Tree, at: nat)
    requires WellFormed(t) && at < |t|
    ensures View(Apply(t, Enter(at)), |t|) == [EMPTY] + View(t, at)
  {
    var u := Apply(t, Enter(at));
    StepReplays(t, Enter(at), at);
    assert View(u, |t|) == [EMPTY] + View(u, at);
    assert Replayed(View(t, at), Chain(t, at), Enter(at)) == View(t, at);
  }

  /** No operation of the run is an addition to a scope on the chain. */
  predicate Elsewhere(ops: seq<Op>, c: seq<nat>) {
    forall k :: 0 <= k < |ops| ==> ops[k].Enter? || ops[k].at !in c
  }

  lemma {:induction false} ReplayElsewhere(s: Stack, c: seq<nat>, ops: seq<Op>)
    requires |s| == |c| && Elsewhere(ops, c)
    ensures ReplayedAll(s, c, ops) == s
  {
    if ops != [] {
      assert ops[0] in ops;
      assert Replayed(s, c, ops[0]) == s;
      ReplayElsewhere(s, c, ops[1..]);
    }
  }

  /** Work in a child, a sibling or any other scope that is not on its chain never changes what a scope sees. */
  lemma OthersChangeNothing(t: Tree, ops: seq<Op>, i: nat)
    requires WellFormed(t) && AllPossible(t, ops) && i < |t| && Elsewhere(ops, Chain(t, i))
    ensures View(Run(t, ops), i) == View(t, i)
  {
    TreeRefinesStack(t, ops, i);
    ReplayElsewhere(View(t, i), Chain(t, i), ops);
  }

  /** Every binding of the one scope is in the other, with the same value. */
  predicate Keeps(was: Scope, now: Scope) {
    && (forall name <- was.vars :: name in now.vars && now.vars[name] == was.vars[name])
    && (forall name <- was.types :: name in now.types && now.types[name] == was.types[name])
  }

  lemma TouchKeeps(s: Scope, op: Op)
    ensures Keeps(s, Touch(s, op))
  {
  }

  /** Whatever the run does, a binding that a scope sees is only ever hidden by
      a new one further in: at its own place it stays for good. */
  lemma {:induction false} BindingsStay(t: Tree, ops: seq<Op>, i: nat, k: nat)
    requires WellFormed(t) && AllPossible(t, ops) && i < |t| && k < |View(t, i)|
    ensures |View(Run(t, ops), i)| == |View(t, i)| && Keeps(View(t, i)[k], View(Run(t, ops), i)[k])
    decreases |ops|
  {
    if ops != [] {
      StepReplays(t, ops[0], i);
      TouchKeeps(View(t, i)[k], ops[0]);
      assert Keeps(View(t, i)[k], View(Apply(t, ops[0]), i)[k]);
      hide View, Apply, Chain, WellFormed, Touch;
      BindingsStay(Apply(t, ops[0]), ops[1..], i, k);
    }
  }

  // ----- what is added is seen -----

  /** In a stack of scopes with different numbers: only the touched one changes. */
  lemma ReplayedBinds(s: Stack, c: seq<nat>, op: Op, k: nat)
    requires |s| == |c| && k < |c| && c[k] == op.at && forall j :: 0 <= j < k ==> c[j] != op.at
    ensures op.AddVar? ==>
              var s' := Replayed(s, c, op);
              && |s'| == |s| && SeesVar(s', op.name)
              && op.name in s'[k].vars && s'[k].vars[op.name] == (if op.name in s[k].vars then s[k].vars[op.name] else op.v)
              && (BindsVar(s', op.name, k) <==> forall j :: 0 <= j < k ==> op.name !in s[j].vars)
    ensures op.AddType? ==>
              var s' := Replayed(s, c, op);
              && |s'| == |s| && SeesType(s', op.name)
              && op.name in s'[k].types && s'[k].types[op.name] == (if op.name in s[k].types then s[k].types[op.name] else op.t)
              && (BindsType(s', op.name, k) <==> forall j :: 0 <= j < k ==> op.name !in s[j].types)
  {
    var s' := Replayed(s, c, op);
    assert s'[k] == Touch(s[k], op) && forall j :: 0 <= j < k ==> s'[j] == s[j];
  }

  /** Right after a variable was added at `at`, every scope whose chain contains
      `at` sees the name; `at` itself has the first value it was given, and that
      is what such a scope finds, unless a scope further in declares the name. */
  lemma AddedIsSeen(t: Tree, at: nat, name: string, v: Variable, i: nat, k: nat)
    requires WellFormed(t) && at < |t| && i < |t| && k < |Chain(t, i)| && Chain(t, i)[k] == at
    ensures var s, s' := View(t, i), View(Apply(t, AddVar(at, name, v)), i);
            && |s'| == |s| && SeesVar(s', name)
            && name in s'[k].vars && s'[k].vars[name] == (if name in s[k].vars then s[k].vars[name] else v)
            && (BindsVar(s', name, k) <==> forall j :: 0 <= j < k ==> name !in s[j].vars)
  {
    hide View, Chain, Apply, WellFormed, Replayed, SeesVar, BindsVar, Touch;
    StepReplays(t, AddVar(at, name, v), i);
    ChainFalls(t, i, k);
    ReplayedBinds(View(t, i), Chain(t, i), AddVar(at, name, v), k);
  }

  lemma {:induction false} ChainFalls(t: Tree, i: nat, k: nat)
    requires WellFormed(t) && i < |t| && k < |Chain(t, i)|
    ensures forall j :: 0 <= j < k ==> Chain(t, i)[j] > Chain(t, i)[k]
  {
    if k > 0 {
      ChainFalls(t, i, k - 1);
    }
  }

  /** Every other name means what it meant, and types are not touched. */
  lemma OtherNamesStay(t: Tree, at: nat, name: string, v: Variable, i: nat, k: nat, x: string)
    requires WellFormed(t) && at < |t| && i < |t| && k < |View(t, i)| && x != name
    ensures var s, s' := View(t, i), View(Apply(t, AddVar(at, name, v)), i);
            && |s'| == |s| && s'[k].types == s[k].types
            && (x in s'[k].vars <==> x in s[k].vars) && (x in s[k].vars ==> s'[k].vars[x] == s[k].vars[x])
  {
    StepReplays(t, AddVar(at, name, v), i);
  }

  /** The same for a struct type. */
  lemma AddedTypeIsSeen(t: Tree, at: nat, name: string, n: nat, i: nat, k: nat)
    requires WellFormed(t) && at < |t| && i < |t| && k < |Chain(t, i)| && Chain(t, i)[k] == at
    ensures var s, s' := View(t, i), View(Apply(t, AddType(at, name, n)), i);
            && |s'| == |s| && SeesType(s', name)
            && name in s'[k].types && s'[k].types[name] == (if name in s[k].types then s[k].types[name] else n)
            && (BindsType(s', name, k) <==> forall j :: 0 <= j < k ==> name !in s[j].types)
  {
    hide View, Chain, Apply, WellFormed, Replayed, SeesType, BindsType, Touch;
    StepReplays(t, AddType(at, name, n), i);
    ChainFalls(t, i, k);
    ReplayedBinds(View(t, i), Chain(t, i), AddType(at, name, n), k);
  }

  /** An added variable is seen for good, whatever is entered or added afterwards. */
  lemma AddedStays(t: Tree, at: nat, name: string, v: Variable, ops: seq<Op>, i: nat)
    requires WellFormed(t) && at < |t| && i < |t| && at in Chain(t, i)
    requires AllPossible(Apply(t, AddVar(at, name, v)), ops)
    ensures SeesVar(View(Run(Apply(t, AddVar(at, name, v)), ops), i), name)
  {
    var k :| 0 <= k < |Chain(t, i)| && Chain(t, i)[k] == at;
    var u := Apply(t, AddVar(at, name, v));
    AddedIsSeen(t, at, name, v, i, k);
    hide Apply, Chain, WellFormed, AllPossible, Run;
    BindingsStay(u, ops, i, k);
    assert name in View(Run(u, ops), i)[k].vars;
  }
}
