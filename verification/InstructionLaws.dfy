/** What the instructions do, told by what they do together (section 6.5 of the
    Java Virtual Machine Specification): which value comes back, which other
    instructions an instruction stands for, and where a branch goes. */
module InstructionLaws {
  import opened Ast
  import opened World
  import opened Jvm
  import opened ExpressionLaws
  import Int32

  /** The code on its own, from its beginning to its end. */
  function Through(code: seq<Instr>, callee: Callee, s: seq<Value>, fr: Frame): Config {
    Run(code, callee, Running(0, s, fr), |code|)
  }

  /** The same, but for the place in the code: the one piece of code can stand for the other. */
  predicate SameEnd(c: Config, d: Config) {
    match (c, d)
    case (Running(_, s, fr), Running(_, s1, fr1)) => s == s1 && fr == fr1
    case _ => c == d
  }

  lemma OneStep(code: seq<Instr>, callee: Callee, s: seq<Value>, fr: Frame)
    requires |code| == 1
    ensures Through(code, callee, s, fr) == Step(code, callee, Running(0, s, fr))
  {
    assert Run(code, callee, Running(0, s, fr), 1) == Run(code, callee, Step(code, callee, Running(0, s, fr)), 0);
  }

  lemma TwoSteps(code: seq<Instr>, callee: Callee, s: seq<Value>, fr: Frame)
    requires |code| == 2
    ensures Through(code, callee, s, fr) == Step(code, callee, Step(code, callee, Running(0, s, fr)))
  {
    hide Step;
    var c := Step(code, callee, Running(0, s, fr));
    assert Run(code, callee, Running(0, s, fr), 2) == Run(code, callee, c, 1) == Run(code, callee, Step(code, callee, c), 0);
  }

  lemma Onto(s: seq<Value>, x: Value)
    ensures Top(s + [x], 0) == x && Drop(s + [x], 1) == s
  {
  }

  lemma Onto2(s: seq<Value>, x: Value, y: Value)
    ensures Top(s + [x, y], 0) == y && Top(s + [x, y], 1) == x && Drop(s + [x, y], 2) == s
    ensures s + [x] + [y] == s + [x, y]
  {
  }

  lemma Onto3(s: seq<Value>, x: Value, y: Value, z: Value)
    ensures Top(s + [x, y, z], 0) == z && Top(s + [x, y, z], 1) == y && Top(s + [x, y, z], 2) == x
    ensures Drop(s + [x, y, z], 3) == s
  {
  }

  /** A value that is stored and loaded again is on the stack again, in its
      variable, and nowhere else. */
  lemma StoredIsLoaded(callee: Callee, s: seq<Value>, v: Value, k: nat, x: string, fr: Frame)
    ensures var kept := if v.IntV? then [IStore(k), ILoad(k)] else [AStore(k), ALoad(k)];
            Through(kept, callee, s + [v], fr) == Running(2, s + [v], Frame(fr.locals[k := v], fr.world))
    ensures var kind := if v.IntV? then Scalar else Array;
            Through([PutStatic(x, kind), GetStatic(x, kind)], callee, s + [v], fr)
            == Running(2, s + [v], Frame(fr.locals, World(fr.world.globals[x := v], fr.world.heap, fr.world.trace)))
  {
    Onto(s, v);
    var kept := if v.IntV? then [IStore(k), ILoad(k)] else [AStore(k), ALoad(k)];
    var kind := if v.IntV? then Scalar else Array;
    TwoSteps(kept, callee, s + [v], fr);
    TwoSteps([PutStatic(x, kind), GetStatic(x, kind)], callee, s + [v], fr);
  }

  /** The value on top, with what was below, and nothing else changed. */
  predicate Leaves(c: Config, s: seq<Value>, fr: Frame, v: int) {
    c.Running? && c.stack == s + [IntV(v)] && c.frame == fr
  }

  lemma ArithmeticStep(callee: Callee, op: ArithOp, s: seq<Value>, a: int, b: int, fr: Frame)
    ensures var c := Through([IArith(op)], callee, s + [IntV(a), IntV(b)], fr);
            match Compute(op, a, b)
            case Some(v) => Leaves(c, s, fr, v)
            case None => c == Faulted(DivByZero)
  {
    Onto2(s, IntV(a), IntV(b));
    OneStep([IArith(op)], callee, s + [IntV(a), IntV(b)], fr);
    hide Compute;
  }

  /** `iadd`, `isub`, `imul`, `idiv`, `irem`: the operand below the top comes first. */
  lemma Arithmetic(callee: Callee, s: seq<Value>, a: int, b: int, fr: Frame)
    ensures exists v :: Low32(v, a + b) && Leaves(Through([IArith(Add)], callee, s + [IntV(a), IntV(b)], fr), s, fr, v)
    ensures exists v :: Low32(v, a - b) && Leaves(Through([IArith(Sub)], callee, s + [IntV(a), IntV(b)], fr), s, fr, v)
    ensures exists v :: Low32(v, a * b) && Leaves(Through([IArith(Mul)], callee, s + [IntV(a), IntV(b)], fr), s, fr, v)
    ensures b == 0 ==> Through([IArith(Div)], callee, s + [IntV(a), IntV(b)], fr) == Faulted(DivByZero)
    ensures b == 0 ==> Through([IArith(Rem)], callee, s + [IntV(a), IntV(b)], fr) == Faulted(DivByZero)
    ensures -2147483648 <= a <= 2147483647 && -2147483648 <= b <= 2147483647 && b != 0
            && !(a == -2147483648 && b == -1) ==>
              exists q, r :: Divides(a, b, q, r)
                && Leaves(Through([IArith(Div)], callee, s + [IntV(a), IntV(b)], fr), s, fr, q)
                && Leaves(Through([IArith(Rem)], callee, s + [IntV(a), IntV(b)], fr), s, fr, r)
  {
    hide Through, Leaves, Low32, Divides;
    ArithmeticStep(callee, Add, s, a, b, fr);
    ArithmeticStep(callee, Sub, s, a, b, fr);
    ArithmeticStep(callee, Mul, s, a, b, fr);
    ArithmeticStep(callee, Div, s, a, b, fr);
    ArithmeticStep(callee, Rem, s, a, b, fr);
    WrapIsLow32(a + b);
    WrapIsLow32(a - b);
    WrapIsLow32(a * b);
    if -2147483648 <= a <= 2147483647 && -2147483648 <= b <= 2147483647 && b != 0 {
      Quotients(a, b);
    }
  }

  /** `ineg` stands for a subtraction from zero. */
  lemma NegationSubtracts(callee: Callee, s: seq<Value>, a: int, fr: Frame)
    ensures exists v :: Low32(v, 0 - a) && Leaves(Through([INeg], callee, s + [IntV(a)], fr), s, fr, v)
  {
    hide Low32;
    Onto(s, IntV(a));
    OneStep([INeg], callee, s + [IntV(a)], fr);
    WrapIsLow32(0 - a);
    assert Leaves(Through([INeg], callee, s + [IntV(a)], fr), s, fr, Int32.Wrap(0 - a));
  }

  lemma FourSteps(code: seq<Instr>, callee: Callee, s: seq<Value>, fr: Frame)
    requires |code| == 4
    ensures Through(code, callee, s, fr)
         == Step(code, callee, Step(code, callee, Step(code, callee, Step(code, callee, Running(0, s, fr)))))
  {
    hide Step;
    var c := Step(code, callee, Step(code, callee, Running(0, s, fr)));
    RunAdd(code, callee, Running(0, s, fr), 2, 2);
    assert Run(code, callee, Running(0, s, fr), 2)
        == Run(code, callee, Step(code, callee, Running(0, s, fr)), 1) == Run(code, callee, c, 0);
    assert Run(code, callee, c, 2) == Run(code, callee, Step(code, callee, c), 1);
  }

  /** `iinc k d` stands for `iload k`, a push of `d`, `iadd`, `istore k`. */
  lemma IncrementAdds(callee: Callee, s: seq<Value>, k: nat, d: int, fr: Frame)
    requires -2147483648 <= d <= 2147483647
    ensures SameEnd(Through([IInc(k, d)], callee, s, fr),
                    Through([ILoad(k), Push(d), IArith(Add), IStore(k)], callee, s, fr))
  {
    var code := [ILoad(k), Push(d), IArith(Add), IStore(k)];
    OneStep([IInc(k, d)], callee, s, fr);
    FourSteps(code, callee, s, fr);
    var loaded := Step(code, callee, Running(0, s, fr));
    if k in fr.locals && fr.locals[k].IntV? {
      var a := fr.locals[k].n;
      assert loaded == Running(1, s + [IntV(a)], fr);
      Onto2(s, IntV(a), IntV(d));
      assert Step(code, callee, loaded) == Running(2, s + [IntV(a), IntV(d)], fr);
      var v := IntV(Int32.Wrap(a + d));
      assert Step(code, callee, Running(2, s + [IntV(a), IntV(d)], fr)) == Running(3, s + [v], fr);
      Onto(s, v);
    } else {
      assert loaded.Faulted?;
    }
  }

  /** The relations of the branches, written out. */
  predicate Holds(op: RelOp, a: int, b: int) {
    || (op == LT && a < b) || (op == GT && a > b) || (op == LE && a <= b)
    || (op == GE && a >= b) || (op == EQ && a == b) || (op == NE && a != b)
  }

  lemma RelationTable(op: RelOp, a: int, b: int)
    ensures Compare(op, a, b) == Holds(op, a, b)
  {
  }

  /** A comparing branch goes to its label if and only if the relation holds of
      the operand below the top and the top. */
  lemma BranchTaken(code: seq<Instr>, callee: Callee, op: RelOp, l: string, pc: nat, i: nat,
                    s: seq<Value>, a: int, b: int, fr: Frame)
    requires UniqueLabels(code) && pc < |code| && i < |code| && code[pc] == IfICmp(op, l) && code[i] == Label(l)
    ensures Step(code, callee, Running(pc, s + [IntV(a), IntV(b)], fr))
         == Running(if Holds(op, a, b) then i else pc + 1, s, fr)
  {
    hide UniqueLabels, Target, Holds, Compare;
    TargetIs(code, l, i);
    Onto2(s, IntV(a), IntV(b));
    RelationTable(op, a, b);
  }

  /** Against zero, of the top. `goto` goes there always. */
  lemma ZeroBranchTaken(code: seq<Instr>, callee: Callee, op: RelOp, l: string, pc: nat, i: nat,
                        s: seq<Value>, a: int, fr: Frame)
    requires UniqueLabels(code) && pc < |code| && i < |code| && code[i] == Label(l)
    ensures code[pc] == IfZ(op, l) ==>
              Step(code, callee, Running(pc, s + [IntV(a)], fr)) == Running(if Holds(op, a, 0) then i else pc + 1, s, fr)
    ensures code[pc] == Goto(l) ==> Step(code, callee, Running(pc, s, fr)) == Running(i, s, fr)
  {
    hide UniqueLabels, Target, Holds, Compare;
    TargetIs(code, l, i);
    Onto(s, IntV(a));
    RelationTable(op, a, 0);
  }

  /** The copying instructions: what is on top is doubled, alone, with what is
      below it, or underneath the two below it. */
  lemma Copies(callee: Callee, s: seq<Value>, x: Value, y: Value, z: Value, fr: Frame)
    ensures Through([Dup], callee, s + [x], fr) == Running(1, s + [x, x], fr)
    ensures Through([Dup2], callee, s + [x, y], fr) == Running(1, s + [x, y, x, y], fr)
    ensures Through([DupX2], callee, s + [x, y, z], fr) == Running(1, s + [z, x, y, z], fr)
    ensures Through([Instr.Pop], callee, s + [x], fr) == Running(1, s, fr)
  {
    Onto(s, x);
    Onto2(s, x, y);
    Onto3(s, x, y, z);
    OneStep([Dup], callee, s + [x], fr);
    OneStep([Dup2], callee, s + [x, y], fr);
    OneStep([DupX2], callee, s + [x, y, z], fr);
    OneStep([Instr.Pop], callee, s + [x], fr);
    assert s + [x] + [x] == s + [x, x] && s + [x, y] + [x, y] == s + [x, y, x, y];
  }

  /** Arrays: an element is read and written where it exists, and only it changes. */
  lemma Elements(callee: Callee, s: seq<Value>, r: nat, i: int, v: int, fr: Frame)
    ensures Through([IALoad], callee, s + [RefV(r), IntV(i)], fr)
         == if Exists(fr.world, r, i) then Running(1, s + [IntV(fr.world.heap[r][i])], fr) else Faulted(BadIndex)
    ensures var c := Through([IAStore], callee, s + [RefV(r), IntV(i), IntV(v)], fr);
            if Exists(fr.world, r, i)
            then c.Running? && c.stack == s && c.frame.locals == fr.locals && Stored(fr.world, c.frame.world, r, i, v)
            else c == Faulted(BadIndex)
  {
    Onto2(s, RefV(r), IntV(i));
    Onto3(s, RefV(r), IntV(i), IntV(v));
    OneStep([IALoad], callee, s + [RefV(r), IntV(i)], fr);
    OneStep([IAStore], callee, s + [RefV(r), IntV(i), IntV(v)], fr);
    if Exists(fr.world, r, i) {
      ElementStored(fr.world, r, i, Some(v));
    }
  }

  /** A call takes its arguments off the stack, the last one from the top, and
      leaves its result, if it has one. */
  lemma CallTakesArguments(callee: Callee, f: string, isVoid: bool, s: seq<Value>, args: seq<int>, fr: Frame)
    ensures var vs := seq(|args|, i requires 0 <= i < |args| => IntV(args[i]));
            var w := fr.world;
            Through([InvokeStatic(f, Signature(|args|, isVoid))], callee, s + vs, fr)
            == match callee(f, args, World(w.globals, w.heap, w.trace + [Event(f, args)]))
               case None => Faulted(CalleeFailed)
               case Some(done) => Running(1, if isVoid then s else s + [IntV(done.0)], Frame(fr.locals, done.1))
  {
    var vs := seq(|args|, i requires 0 <= i < |args| => IntV(args[i]));
    OneStep([InvokeStatic(f, Signature(|args|, isVoid))], callee, s + vs, fr);
    assert (s + vs)[|s + vs| - |args|..] == vs && Drop(s + vs, |args|) == s;
    assert AllInts(vs) && Ints(vs) == args;
  }
}
