/** Compile-time values: GetDeducedValue of literals and arithmetic, computed
    in 64 bits by the operators of hzcc/ast/DeduceValue.cc, and the choice of
    a push instruction for the result. */
module Folding {
  import opened Ast
  import opened World
  import opened CSemantics
  import Int32

  /** `Trap` is undefined behaviour inside the compiler itself: 64-bit
      overflow, or a division by zero. */
  datatype Folded = NotConstant | Constant(v: int) | Trap

  predicate Fits64(n: int) {
    -0x8000_0000_0000_0000 <= n <= 0x7fff_ffff_ffff_ffff
  }

  function Checked(n: int): Folded {
    if Fits64(n) then Constant(n) else Trap
  }

  /** The overloaded operators on integer values. The `%` operator divides. */
  function FoldOp(op: ArithOp, a: int, b: int): Folded {
    match op
    case Add => Checked(a + b)
    case Sub => Checked(a - b)
    case Mul => Checked(a * b)
    case Div => if b == 0 then Trap else Checked(Int32.TruncDiv(a, b))
    case Rem => if b == 0 then Trap else Checked(Int32.TruncDiv(a, b))
  }

  /** Only literals, and arithmetic on two constants, have a compile-time value. */
  function Fold(e: Expr): Folded {
    match e
    case Lit(n) => Constant(n)
    case Arith(op, l, r) =>
      (match (Fold(l), Fold(r))
       case (NotConstant, _) => NotConstant
       case (_, NotConstant) => NotConstant
       case (Constant(a), Constant(b)) => FoldOp(op, a, b)
       case _ => Trap)
    case _ => NotConstant
  }

  predicate IsConstant(e: Expr) {
    !Fold(e).NotConstant?
  }

  /** When the quotient happens to be the remainder. */
  predicate QuotientIsRemainder(a: int, b: int) {
    a == 0 || (b > 0 && Int32.Abs(a) % (b + 1) == 0 && Int32.Abs(a) / (b + 1) < b)
  }

  /** When folding one operation is right: it does not leave 64 bits; a division
      by an int comes to the same as dividing the narrowed dividend; the
      quotient of two ints, which a `%` folds to, happens to be the remainder. */
  predicate SafeOp(op: ArithOp, a: int, b: int) {
    match op
    case Div => Int32.Fits(b) && FoldOp(op, a, b).Constant? && Int32.DividesAlike(a, b)
    case Rem => Int32.Fits(a) && Int32.Fits(b) && b != 0 && QuotientIsRemainder(a, b)
    case _ => FoldOp(op, a, b).Constant?
  }

  /** Every constant operation in the expression is safe, and every literal is an int. */
  predicate Safe(e: Expr) {
    match e
    case Lit(n) => Int32.Fits(n)
    case Arith(op, l, r) =>
      && Safe(l) && Safe(r)
      && (Fold(l).Constant? && Fold(r).Constant? ==> SafeOp(op, Fold(l).v, Fold(r).v))
    case _ => true
  }

  /** One operation: narrowing afterwards agrees with the 32-bit operation on
      narrowed operands if and only if the operation is safe. */
  lemma SafeOpExact(op: ArithOp, a: int, b: int)
    requires FoldOp(op, a, b).Constant?
    requires (op.Div? ==> Int32.Fits(b)) && (op.Rem? ==> Int32.Fits(a) && Int32.Fits(b))
    ensures Compute(op, Int32.Wrap(a), Int32.Wrap(b)) == Some(Int32.Wrap(FoldOp(op, a, b).v)) <==> SafeOp(op, a, b)
  {
    match op {
      case Add => Int32.WrapSum(a, b);
      case Sub => Int32.WrapSum(a, b);
      case Mul => Int32.WrapProduct(a, b);
      case Div =>
        Int32.DivisionNarrows(a, b);
        hide Int32.TruncDiv, Int32.Wrap, Int32.DividesAlike;
      case Rem =>
        TruncatedDigits(a, b);
        hide Int32.TruncDiv, Int32.TruncRem, Int32.Wrap, QuotientIsRemainder;
    }
  }

  lemma SafeOpNarrows(op: ArithOp, a: int, b: int)
    requires SafeOp(op, a, b)
    ensures FoldOp(op, a, b).Constant?
    ensures Compute(op, Int32.Wrap(a), Int32.Wrap(b)) == Some(Int32.Wrap(FoldOp(op, a, b).v))
  {
    if op.Rem? {
      TruncatedDigits(a, b);
    }
    SafeOpExact(op, a, b);
  }

  /** The folded value, narrowed to 32 bits, is what evaluating the unfolded
      expression gives, and evaluation changes nothing. */
  lemma {:induction false} FoldingIsSound(env: Env, callee: Callee, e: Expr, st: Store)
    requires Safe(e) && IsConstant(e)
    ensures Fold(e).Constant? && Evaluate(env, callee, e, st) == Ok(Int32.Wrap(Fold(e).v), st)
  {
    if e.Arith? {
      FoldingIsSound(env, callee, e.l, st);
      FoldingIsSound(env, callee, e.r, st);
      SafeOpNarrows(e.aop, Fold(e.l).v, Fold(e.r).v);
    }
  }

  lemma ArithEvaluates(env: Env, callee: Callee, op: ArithOp, l: Expr, r: Expr, st: Store, a: int, b: int)
    requires Evaluate(env, callee, l, st) == Ok(a, st) && Evaluate(env, callee, r, st) == Ok(b, st)
    ensures Evaluate(env, callee, Arith(op, l, r), st)
         == match Compute(op, a, b) case None => Err(DivByZero) case Some(v) => Ok(v, st)
  {
    hide Compute;
  }

  /** An operation on two constant trees that are folded rightly is itself
      folded rightly if and only if it is safe. A divisor must be an int, and
      so must the dividend of a `%`. */
  lemma FoldingIsExact(env: Env, callee: Callee, op: ArithOp, l: Expr, r: Expr, st: Store)
    requires Safe(l) && Safe(r) && Fold(Arith(op, l, r)).Constant?
    requires (op.Div? ==> Int32.Fits(Fold(r).v)) && (op.Rem? ==> Int32.Fits(Fold(l).v) && Int32.Fits(Fold(r).v))
    ensures Evaluate(env, callee, Arith(op, l, r), st) == Ok(Int32.Wrap(Fold(Arith(op, l, r)).v), st)
       <==> SafeOp(op, Fold(l).v, Fold(r).v)
  {
    var a, b := Fold(l).v, Fold(r).v;
    FoldingIsSound(env, callee, l, st);
    FoldingIsSound(env, callee, r, st);
    SafeOpExact(op, a, b);
    ArithEvaluates(env, callee, op, l, r, st, Int32.Wrap(a), Int32.Wrap(b));
    hide Evaluate, SafeOp, Compute, FoldOp, Int32.Wrap;
  }

  /** `%` folds to the quotient: 7 % 3 is pushed as 2, but evaluates to 1. */
  lemma FoldedRemainderIsWrong(env: Env, callee: Callee, st: Store)
    ensures Fold(Arith(Rem, Lit(7), Lit(3))) == Constant(2)
    ensures Evaluate(env, callee, Arith(Rem, Lit(7), Lit(3)), st) == Ok(1, st)
  {
    assert Fold(Lit(7)) == Constant(7) && Fold(Lit(3)) == Constant(3);
    assert Evaluate(env, callee, Lit(7), st) == Ok(7, st);
  }

  lemma SameDigits(n: nat, b: nat)
    requires b > 0
    ensures n / b == n % b <==> n % (b + 1) == 0 && n / (b + 1) < b
  {
    var q, m := n / b, n / (b + 1);
    assert n == q * b + n % b && n == m * (b + 1) + n % (b + 1);
    if q == n % b {
      Int32.DivUnique(n, b + 1, q, 0);
    }
    if n % (b + 1) == 0 && m < b {
      Int32.DivUnique(n, b, m, m);
    }
  }

  lemma TruncatedDigits(a: int, b: int)
    requires Int32.Fits(a) && Int32.Fits(b) && b != 0
    ensures Fits64(Int32.TruncDiv(a, b)) && Int32.Fits(Int32.TruncRem(a, b))
    ensures Int32.Wrap(Int32.TruncDiv(a, b)) == Int32.TruncRem(a, b) <==> QuotientIsRemainder(a, b)
  {
    Int32.TruncatedSigns(a, b);
    var n, d := Int32.Abs(a), Int32.Abs(b);
    Int32.DivBound(n, d);
    SameDigits(n, d);
    HalfAtMost(n, d);
    hide Int32.TruncDiv, Int32.TruncRem;
    var q: int, r: int := n / d, n % d;
    assert a == 0 <==> q == 0 && r == 0;
  }

  lemma HalfAtMost(n: nat, d: nat)
    requires d > 0
    ensures d == 1 ==> n / d == n && n % d == 0
    ensures d > 1 ==> n / d <= n / 2
    ensures n % d < d && (n == 0 <==> n / d == 0 && n % d == 0)
  {
    Int32.DivBound(n, d);
    if d == 1 {
      Int32.DivUnique(n, d, n, 0);
    } else {
      var q, r := n / d, n % d;
      assert n == d * q + r;
      assert d * q == 2 * q + (d - 2) * q;
      Product(d - 2, q);
      if q == 0 {
        assert d * q == 0;
      }
    }
  }

  lemma Product(a: nat, b: nat)
    ensures a * b >= 0
  {
  }

  /** A dividend beyond 32 bits is divided before it is narrowed:
      (2147483647 + 1) / 2 is pushed as 1073741824 but evaluates to its negative. */
  lemma FoldedWideDivisionIsWrong(env: Env, callee: Callee, st: Store)
    ensures var e := Arith(Div, Arith(Add, Lit(2147483647), Lit(1)), Lit(2));
            Fold(e) == Constant(1073741824) && Evaluate(env, callee, e, st) == Ok(-1073741824, st)
  {
    var sum := Arith(Add, Lit(2147483647), Lit(1));
    assert Fold(Lit(2147483647)) == Constant(2147483647) && Fold(Lit(1)) == Constant(1) && Fold(Lit(2)) == Constant(2);
    assert Evaluate(env, callee, Lit(2147483647), st) == Ok(2147483647, st) && Evaluate(env, callee, Lit(1), st) == Ok(1, st);
    assert Evaluate(env, callee, sum, st) == Ok(-2147483648, st) && Evaluate(env, callee, Lit(2), st) == Ok(2, st);
  }

  // ----- the push instruction for an int -----

  datatype PushForm = IConst(i: int) | BiPush(n: int) | SiPush(n: int) | Ldc(n: int)

  /** ConstInstr::GenerateInstr for type int. */
  function PushInstr(v: int): PushForm {
    if -1 <= v <= 5 then IConst(v)
    else if -128 <= v <= 127 then BiPush(v)
    else if -32768 <= v <= 32767 then SiPush(v)
    else Ldc(v)
  }

  function SignExtend(n: int, bits: int): int
    requires bits == 0x100 || bits == 0x1_0000
  {
    var u := n % bits;
    if u < bits / 2 then u else u - bits
  }

  /** What the instruction pushes: there are seven `iconst` instructions, -1 to
      5; `bipush` and `sipush` keep the low 8 or 16 bits of their operand and
      sign-extend them; `ldc` names an int constant, which a number beyond 32
      bits is not. */
  function Pushed(i: PushForm): Option<int> {
    match i
    case IConst(n) => if -1 <= n <= 5 then Some(n) else None
    case BiPush(n) => Some(SignExtend(n, 0x100))
    case SiPush(n) => Some(SignExtend(n, 0x1_0000))
    case Ldc(n) => if Int32.Fits(n) then Some(n) else None
  }

  /** Bytes of the instruction, and of the constant that `ldc` needs. */
  function Space(i: PushForm): nat {
    match i
    case IConst(_) => 1
    case BiPush(_) => 2
    case SiPush(_) => 3
    case Ldc(_) => 2 + 5
  }

  /** The chosen instruction pushes the value if and only if that is an int, and
      no instruction that pushes it takes less space. */
  lemma PushInstrDenotes(v: int)
    ensures Pushed(PushInstr(v)) == Some(v) <==> Int32.Fits(v)
    ensures forall i :: Pushed(i) == Some(v) ==> Space(PushInstr(v)) <= Space(i)
  {
  }
}
