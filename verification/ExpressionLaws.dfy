/** What the operators of the source language compute, written out operator by
    operator (sections 6.5.3 to 6.5.16 of ISO/IEC 9899:2011), without the
    tables that evaluation and generated code share. */
module ExpressionLaws {
  import opened Ast
  import opened World
  import opened CSemantics
  import opened Folding
  import opened CodeSpec
  import opened Jvm
  import Int32

  // ----- arithmetic -----

  /** `v` is the 32-bit int that differs from `n` by a multiple of 2^32. */
  ghost predicate Low32(v: int, n: int) {
    -2147483648 <= v <= 2147483647 && exists k: int :: v == n + k * 4294967296
  }

  /** Section 6.5.5: `q` is the quotient truncated toward zero, `r` the remainder. */
  ghost predicate Divides(a: int, b: int, q: int, r: int) {
    && a == q * b + r
    && (if b < 0 then b < r < -b else -b < r < b)
    && (r == 0 || (r < 0 <==> a < 0))
  }

  lemma WrapIsLow32(n: int)
    ensures Low32(Int32.Wrap(n), n)
  {
    var q := Int32.WrapCongruent(n);
    assert Int32.Wrap(n) == n + (-q) * 4294967296;
  }

  lemma Products(q: int, d: int)
    ensures (-q) * d == -(q * d) && q * (-d) == -(q * d) && (-q) * (-d) == q * d
    ensures d * q == q * d && d * (-q) == -(q * d) && (-d) * q == -(q * d) && (-d) * (-q) == q * d
  {
  }

  lemma TruncatedDivides(a: int, b: int)
    requires b != 0
    ensures Divides(a, b, Int32.TruncDiv(a, b), Int32.TruncRem(a, b))
  {
    var n: int, d: int := Int32.Abs(a), Int32.Abs(b);
    var q: int, r: int := n / d, n % d;
    assert n == d * q + r;
    Products(q, d);
    assert Int32.TruncDiv(a, b) == if (a < 0) == (b < 0) then q else -q;
  }

  /** Both operands have been evaluated, left first, to `a` and `b`. */
  ghost predicate Operands(env: Env, callee: Callee, l: Expr, r: Expr, st: Store, a: int, b: int, st2: Store) {
    var left := Evaluate(env, callee, l, st);
    left.Ok? && left.v == a && Evaluate(env, callee, r, left.st) == Ok(b, st2)
  }

  /** Sums, differences and products are taken modulo 2^32. */
  lemma SumsAndProducts(env: Env, callee: Callee, l: Expr, r: Expr, st: Store, a: int, b: int, st2: Store)
    requires Operands(env, callee, l, r, st, a, b, st2)
    ensures var sum := Evaluate(env, callee, Arith(Add, l, r), st); sum.Ok? && sum.st == st2 && Low32(sum.v, a + b)
    ensures var diff := Evaluate(env, callee, Arith(Sub, l, r), st); diff.Ok? && diff.st == st2 && Low32(diff.v, a - b)
    ensures var prod := Evaluate(env, callee, Arith(Mul, l, r), st); prod.Ok? && prod.st == st2 && Low32(prod.v, a * b)
  {
    WrapIsLow32(a + b);
    WrapIsLow32(a - b);
    WrapIsLow32(a * b);
  }

  lemma OnlyOverflow(a: int, b: int, top: int)
    requires top > 0 && -top <= a < top && b != 0 && Int32.TruncDiv(a, b) >= top
    ensures a == -top && b == -1
  {
    hide Int32.TruncDiv, Int32.Abs;
    var q := Halves(a, b);
  }

  /** Dividing by anything but 1 or -1 halves the number at least. */
  lemma Halves(a: int, b: int) returns (q: int)
    requires b != 0
    ensures q >= 0 && Int32.TruncDiv(a, b) == if (a < 0) == (b < 0) then q else -q
    ensures var n := if a < 0 then -a else a;
            if b == 1 || b == -1 then q == n else q <= n / 2
  {
    var n, d := Int32.Abs(a), Int32.Abs(b);
    HalfAtMost(n, d);
    q := n / d;
  }

  lemma IntQuotient(a: int, b: int)
    requires -2147483648 <= a <= 2147483647 && -2147483648 <= b <= 2147483647 && b != 0
    ensures Divides(a, b, Int32.TruncDiv(a, b), Int32.TruncRem(a, b))
    ensures Int32.Fits(Int32.TruncDiv(a, b)) || (a == -2147483648 && b == -1)
    ensures Int32.Fits(Int32.TruncRem(a, b))
  {
    hide Int32.TruncDiv, Int32.TruncRem;
    TruncatedDivides(a, b);
    Int32.QuotientBound(a, b);
    if Int32.TruncDiv(a, b) >= 2147483648 {
      OnlyOverflow(a, b, 2147483648);
    }
  }

  lemma Quotients(a: int, b: int)
    requires -2147483648 <= a <= 2147483647 && -2147483648 <= b <= 2147483647 && b != 0
    ensures var div, rem := Compute(Div, a, b), Compute(Rem, a, b);
            && div.Some? && rem.Some?
            && if a == -2147483648 && b == -1 then div.value == -2147483648 && rem.value == 0
               else Divides(a, b, div.value, rem.value)
  {
    if a == -2147483648 && b == -1 {
      assert Int32.TruncDiv(a, b) == 2147483648;
    } else {
      hide Int32.TruncDiv, Int32.TruncRem, Int32.Wrap, Divides;
      IntQuotient(a, b);
    }
  }

  /** Quotient and remainder: an error for zero; otherwise of ints as in C, but
      that the one quotient that is no int wraps to the dividend. */
  lemma QuotientAndRemainder(env: Env, callee: Callee, l: Expr, r: Expr, st: Store, a: int, b: int, st2: Store)
    requires Operands(env, callee, l, r, st, a, b, st2)
    requires -2147483648 <= a <= 2147483647 && -2147483648 <= b <= 2147483647
    ensures var div, rem := Evaluate(env, callee, Arith(Div, l, r), st), Evaluate(env, callee, Arith(Rem, l, r), st);
            if b == 0 then div == Err(DivByZero) && rem == Err(DivByZero)
            else if a == -2147483648 && b == -1 then div == Ok(-2147483648, st2) && rem == Ok(0, st2)
            else div.Ok? && rem.Ok? && div.st == st2 && rem.st == st2 && Divides(a, b, div.v, rem.v)
  {
    hide Divides, Int32.TruncDiv, Int32.TruncRem, Int32.Wrap;
    if b != 0 {
      Quotients(a, b);
    }
  }

  lemma Negation(env: Env, callee: Callee, e: Expr, st: Store)
    requires Evaluate(env, callee, e, st).Ok?
    ensures var minus := Evaluate(env, callee, Neg(e), st);
            && minus.Ok? && minus.st == Evaluate(env, callee, e, st).st
            && Low32(minus.v, -Evaluate(env, callee, e, st).v)
  {
    WrapIsLow32(-Evaluate(env, callee, e, st).v);
  }

  // ----- relations and logical operators -----

  /** Sections 6.5.8 and 6.5.9: 1 if the relation holds and 0 otherwise. */
  lemma Relations(env: Env, callee: Callee, l: Expr, r: Expr, st: Store, a: int, b: int, st2: Store)
    requires Operands(env, callee, l, r, st, a, b, st2)
    ensures Evaluate(env, callee, Rel(LT, l, r), st) == Ok(if a < b then 1 else 0, st2)
    ensures Evaluate(env, callee, Rel(GT, l, r), st) == Ok(if a > b then 1 else 0, st2)
    ensures Evaluate(env, callee, Rel(LE, l, r), st) == Ok(if a <= b then 1 else 0, st2)
    ensures Evaluate(env, callee, Rel(GE, l, r), st) == Ok(if a >= b then 1 else 0, st2)
    ensures Evaluate(env, callee, Rel(EQ, l, r), st) == Ok(if a == b then 1 else 0, st2)
    ensures Evaluate(env, callee, Rel(NE, l, r), st) == Ok(if a != b then 1 else 0, st2)
  {
  }

  /** Sections 6.5.13 and 6.5.14: the right operand is evaluated only if the left one does not decide. */
  lemma LogicalOperators(env: Env, callee: Callee, l: Expr, r: Expr, st: Store)
    requires Evaluate(env, callee, l, st).Ok?
    ensures var Ok(a, st1) := Evaluate(env, callee, l, st);
            var right := Evaluate(env, callee, r, st1);
            && (a == 0 ==> Evaluate(env, callee, Logic(And, l, r), st) == Ok(0, st1))
            && (a != 0 ==> Evaluate(env, callee, Logic(Or, l, r), st) == Ok(1, st1))
            && (a != 0 && right.Ok? ==>
                  Evaluate(env, callee, Logic(And, l, r), st) == Ok(if right.v == 0 then 0 else 1, right.st))
            && (a == 0 && right.Ok? ==>
                  Evaluate(env, callee, Logic(Or, l, r), st) == Ok(if right.v == 0 then 0 else 1, right.st))
  {
  }

  // ----- assignment -----

  /** The pairs of section 6.5.16.2: `E1 op= E2` and `E1 = E1 op (E2)`. */
  ghost predicate Abbreviates(op: AssignOp, aop: ArithOp) {
    (op == AddSet && aop == Add) || (op == SubSet && aop == Sub) || (op == MulSet && aop == Mul) || (op == DivSet && aop == Div)
  }

  /** A compound assignment to a variable is the assignment it abbreviates. */
  lemma CompoundAssignment(env: Env, callee: Callee, op: AssignOp, aop: ArithOp, x: string, rhs: Expr, st: Store)
    requires Abbreviates(op, aop)
    ensures Evaluate(env, callee, Assign(op, Var(x), rhs), st)
         == Evaluate(env, callee, Assign(Set, Var(x), Arith(aop, Var(x), rhs)), st)
  {
    assert Evaluate(env, callee, Var(x), st)
        == match ReadVar(env, x, Scalar, st) case Got(v) => Ok(v.n, st) case Missing(why) => Err(why);
    hide Compute, WriteVar;
  }

  /** The code of a compound assignment ends in the instruction of its own operator, before the store. */
  lemma CompoundCode(env: Env, op: AssignOp, aop: ArithOp, lhs: Expr, rhs: Expr)
    requires Abbreviates(op, aop) && (lhs.Var? || lhs.Index?)
    ensures var code := Effect(env, Assign(op, lhs, rhs));
            |code| >= 2 && code[|code| - 2] == IArith(aop)
  {
    hide Operand, LoadVar, LoadArray, SaveVar;
    var code := Effect(env, Assign(op, lhs, rhs));
    var x := NameOf(if lhs.Var? then lhs else lhs.base);
    var front := if lhs.Var? then [LoadVar(env, lhs.x)] + Operand(env, rhs)
                 else [LoadArray(env, x)] + Operand(env, lhs.sub) + [Dup2, IALoad] + Operand(env, rhs);
    assert code == front + [IArith(aop)] + [] + [SaveVar(env, x)];
  }

  /** A simple assignment stores the value, gives it, and changes no other variable. */
  lemma SimpleAssignment(env: Env, callee: Callee, x: string, rhs: Expr, st: Store)
    requires Evaluate(env, callee, rhs, st).Ok?
    ensures var Ok(v, st1) := Evaluate(env, callee, rhs, st);
            var done := Evaluate(env, callee, Assign(Set, Var(x), rhs), st);
            && done.Ok? && done.v == v
            && Evaluate(env, callee, Var(x), done.st) == Ok(v, done.st)
            && (forall y, kind :: y != x ==> ReadVar(env, y, kind, done.st) == ReadVar(env, y, kind, st1))
            && done.st.world.heap == st1.world.heap && done.st.world.trace == st1.world.trace
  {
  }

  /** Section 6.5.3.1: `++x` is `x += 1`, `--x` is `x -= 1`. */
  lemma PrefixIncrement(env: Env, callee: Callee, x: string, st: Store)
    ensures Evaluate(env, callee, IncDec(PreInc, Var(x)), st) == Evaluate(env, callee, Assign(AddSet, Var(x), Lit(1)), st)
    ensures Evaluate(env, callee, IncDec(PreDec, Var(x)), st) == Evaluate(env, callee, Assign(SubSet, Var(x), Lit(1)), st)
  {
    assert Evaluate(env, callee, Lit(1), st) == Ok(1, st);
    hide Int32.Wrap;
  }

  /** Section 6.5.2.4: a postfix increment stores the same, but gives the old value. */
  lemma PostfixIncrement(env: Env, callee: Callee, up: bool, x: string, st: Store)
    ensures var post := Evaluate(env, callee, IncDec(if up then PostInc else PostDec, Var(x)), st);
            var pre := Evaluate(env, callee, IncDec(if up then PreInc else PreDec, Var(x)), st);
            if pre.Err? then post == pre
            else post.Ok? && post.st == pre.st && Evaluate(env, callee, Var(x), st) == Ok(post.v, st)
  {
  }

  // ----- arrays -----

  /** The element that `base[sub]` names: array, subscript, and the store behind the subscript. */
  ghost predicate Names(env: Env, callee: Callee, base: string, sub: Expr, st: Store, r: nat, i: int, st1: Store) {
    ReadVar(env, base, Array, st) == Got(RefV(r)) && Evaluate(env, callee, sub, st) == Ok(i, st1)
  }

  ghost predicate Exists(w: World, r: nat, i: int) {
    r < |w.heap| && 0 <= i < |w.heap[r]|
  }

  lemma ElementRead(env: Env, callee: Callee, base: string, sub: Expr, st: Store, r: nat, i: int, st1: Store)
    requires Names(env, callee, base, sub, st, r, i, st1)
    ensures Evaluate(env, callee, Index(Var(base), sub), st)
         == if Exists(st1.world, r, i) then Ok(st1.world.heap[r][i], st1) else Err(BadIndex)
  {
  }

  /** Only the one element of the one array changes. */
  ghost predicate Stored(w: World, w': World, r: nat, i: int, v: int) {
    && Exists(w, r, i)
    && w'.globals == w.globals && w'.trace == w.trace && |w'.heap| == |w.heap|
    && (forall s :: 0 <= s < |w.heap| && s != r ==> w'.heap[s] == w.heap[s])
    && |w'.heap[r]| == |w.heap[r]|
    && forall j :: 0 <= j < |w.heap[r]| ==> w'.heap[r][j] == if j == i then v else w.heap[r][j]
  }

  /** `base[sub] = rhs`: stores at the element named before `rhs` was evaluated. */
  lemma ElementAssignment(env: Env, callee: Callee, base: string, sub: Expr, rhs: Expr, st: Store, r: nat, i: int, st1: Store)
    requires Names(env, callee, base, sub, st, r, i, st1) && Evaluate(env, callee, rhs, st1).Ok?
    ensures var Ok(v, st2) := Evaluate(env, callee, rhs, st1);
            var done := Evaluate(env, callee, Assign(Set, Index(Var(base), sub), rhs), st);
            if Exists(st2.world, r, i)
            then done.Ok? && done.v == v && done.st.locals == st2.locals && Stored(st2.world, done.st.world, r, i, v)
            else done == Err(BadIndex)
  {
  }

  /** `base[sub] op= rhs`: what is stored is the old element combined with `rhs` by the operator itself. */
  lemma CompoundElement(env: Env, callee: Callee, op: AssignOp, aop: ArithOp, base: string, sub: Expr, rhs: Expr,
                        st: Store, r: nat, i: int, st1: Store, b: int, st2: Store)
    requires Abbreviates(op, aop) && Names(env, callee, base, sub, st, r, i, st1) && Exists(st1.world, r, i)
    requires Evaluate(env, callee, rhs, st1) == Ok(b, st2)
    ensures var done := Evaluate(env, callee, Assign(op, Index(Var(base), sub), rhs), st);
            var now := Compute(aop, st1.world.heap[r][i], b);
            if now.None? then done == Err(DivByZero)
            else if !Exists(st2.world, r, i) then done == Err(BadIndex)
            else done.Ok? && done.v == now.value && done.st.locals == st2.locals
                 && Stored(st2.world, done.st.world, r, i, now.value)
  {
    hide Compute, Stored, Evaluate, WriteElem, ReadVar;
    ElementUpdated(env, callee, op, base, sub, rhs, st, r, i, st1, b, st2);
    if Exists(st2.world, r, i) {
      ElementStored(st2.world, r, i, Compute(aop, st1.world.heap[r][i], b));
    }
  }

  lemma ElementUpdated(env: Env, callee: Callee, op: AssignOp, base: string, sub: Expr, rhs: Expr,
                       st: Store, r: nat, i: int, st1: Store, b: int, st2: Store)
    requires Names(env, callee, base, sub, st, r, i, st1) && Exists(st1.world, r, i)
    requires Evaluate(env, callee, rhs, st1) == Ok(b, st2)
    ensures var done := Evaluate(env, callee, Assign(op, Index(Var(base), sub), rhs), st);
            var now := Combine(op, if op == Set then 0 else st1.world.heap[r][i], b);
            if now.None? then done == Err(DivByZero)
            else if !Exists(st2.world, r, i) then done == Err(BadIndex)
            else done == Ok(now.value, st2.(world := WriteElem(st2.world, r, i, now.value)))
  {
    hide Combine, WriteElem;
  }

  lemma ElementStored(w: World, r: nat, i: int, v: Option<int>)
    requires Exists(w, r, i)
    ensures v.Some? ==> Stored(w, WriteElem(w, r, i, v.value), r, i, v.value)
  {
  }

  /** A declared array is a new one, all zeros; every other array and variable stays. */
  lemma NewArray(env: Env, callee: Callee, x: string, size: nat, st: Store, fuel: nat)
    ensures var o := Exec(env, callee, ArrayDecl(x, size), st, fuel);
            && o.Normal? && o.st.world.trace == st.world.trace
            && o.st.world.heap[..] == st.world.heap + [o.st.world.heap[|st.world.heap|]]
            && |o.st.world.heap[|st.world.heap|]| == size
            && (forall j :: 0 <= j < size ==> o.st.world.heap[|st.world.heap|][j] == 0)
            && ReadVar(env, x, Array, o.st) == Got(RefV(|st.world.heap|))
            && forall y, kind :: y != x ==> ReadVar(env, y, kind, o.st) == ReadVar(env, y, kind, st)
  {
  }

  // ----- calls -----

  /** The callee gets the argument values and a world in which the call is the
      last event and nothing else has changed. */
  lemma Calls(env: Env, callee: Callee, f: string, args: seq<Expr>, st: Store)
    requires EvaluateAll(env, callee, args, st).Oks?
    ensures var Oks(vs, st1) := EvaluateAll(env, callee, args, st);
            var w := st1.world;
            Evaluate(env, callee, Call(f, args), st)
            == match callee(f, vs, World(w.globals, w.heap, w.trace + [Event(f, vs)]))
               case None => Err(CalleeFailed)
               case Some(done) => Ok(done.0, Store(st1.locals, done.1))
  {
  }

  /** Arguments are evaluated one after the other, from the left. */
  lemma ArgumentsInOrder(env: Env, callee: Callee, first: Expr, rest: seq<Expr>, st: Store)
    requires Evaluate(env, callee, first, st).Ok? && EvaluateAll(env, callee, rest, Evaluate(env, callee, first, st).st).Oks?
    ensures var Ok(v, st1) := Evaluate(env, callee, first, st);
            var Oks(vs, st2) := EvaluateAll(env, callee, rest, st1);
            EvaluateAll(env, callee, [first] + rest, st) == Oks([v] + vs, st2)
  {
    assert ([first] + rest)[1..] == rest;
  }

  // ----- compile-time values -----

  lemma FoldedQuotient(a: int, b: int)
    requires -0x8000_0000_0000_0000 <= a < 0x8000_0000_0000_0000 && b != 0
    requires b != -1 || a > -0x8000_0000_0000_0000
    ensures Divides(a, b, Int32.TruncDiv(a, b), Int32.TruncRem(a, b)) && Fits64(Int32.TruncDiv(a, b))
  {
    TruncatedDivides(a, b);
    Int32.QuotientBound(a, b);
    if Int32.TruncDiv(a, b) >= 0x8000_0000_0000_0000 {
      OnlyOverflow(a, b, 0x8000_0000_0000_0000);
    }
  }

  /** Nothing else is folded: no variable, call, negation, element, assignment
      or relation, and no operation on what is not folded. */
  lemma NothingElseFolds(e: Expr)
    requires !e.Lit? && (e.Arith? ==> Fold(e.l) == NotConstant || Fold(e.r) == NotConstant)
    ensures Fold(e) == NotConstant
  {
  }

  /** What is folded: literals, and operations on two folded operands, in 64
      bits. A `%` gives the quotient. */
  lemma FoldedValues(l: Expr, r: Expr, a: int, b: int)
    requires Fold(l) == Constant(a) && Fold(r) == Constant(b)
    ensures -0x8000_0000_0000_0000 <= a + b < 0x8000_0000_0000_0000 ==> Fold(Arith(Add, l, r)) == Constant(a + b)
    ensures -0x8000_0000_0000_0000 <= a - b < 0x8000_0000_0000_0000 ==> Fold(Arith(Sub, l, r)) == Constant(a - b)
    ensures -0x8000_0000_0000_0000 <= a * b < 0x8000_0000_0000_0000 ==> Fold(Arith(Mul, l, r)) == Constant(a * b)
    ensures -0x8000_0000_0000_0000 <= a < 0x8000_0000_0000_0000 && b != 0 && (b != -1 || a > -0x8000_0000_0000_0000) ==>
              exists q: int, m: int :: Divides(a, b, q, m)
                && Fold(Arith(Div, l, r)) == Constant(q) && Fold(Arith(Rem, l, r)) == Constant(q)
    ensures forall n :: Fold(Lit(n)) == Constant(n)
  {
    hide Divides, Int32.TruncDiv, Int32.TruncRem;
    if -0x8000_0000_0000_0000 <= a < 0x8000_0000_0000_0000 && b != 0 && (b != -1 || a > -0x8000_0000_0000_0000) {
      FoldedQuotient(a, b);
      assert Divides(a, b, Int32.TruncDiv(a, b), Int32.TruncRem(a, b));
    }
  }
}
