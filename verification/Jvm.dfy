/** A step machine for the instructions the generator emits, with the meanings
    of section 6.5 of the Java Virtual Machine Specification. A label is an
    instruction that does nothing. The last element of `stack` is its top. */
module Jvm {
  import opened Ast
  import opened World
  import Int32

  datatype Instr =
    | Push(n: int)                            // iconst, bipush, sipush, ldc
    | ILoad(k: nat) | IStore(k: nat)
    | ALoad(k: nat) | AStore(k: nat)
    | GetStatic(x: string, kind: VarKind)
    | PutStatic(x: string, kind: VarKind)
    | IALoad | IAStore | NewArray
    | IInc(k: nat, d: int)
    | IArith(op: ArithOp) | INeg              // iadd, isub, imul, idiv, irem, ineg
    | Dup | Dup2 | DupX2 | Pop
    | InvokeStatic(f: string, sig: Signature)
    | Goto(target: string)
    | IfICmp(c: RelOp, target: string)        // if_icmp<c>
    | IfZ(c: RelOp, target: string)           // if<c>, against zero
    | Label(name: string)
    | IReturn | Return

  datatype Frame = Frame(locals: map<nat, Value>, world: World)

  datatype Config =
    | Running(pc: nat, stack: seq<Value>, frame: Frame)
    | Returned(val: Option<int>, world: World)
    | Faulted(why: Reason)

  /** The position of the first definition of a label at or after `from`. */
  function Find(code: seq<Instr>, l: string, from: nat): nat
    requires from <= |code|
    decreases |code| - from
  {
    if from == |code| || code[from] == Label(l) then from else Find(code, l, from + 1)
  }

  function Target(code: seq<Instr>, l: string): nat {
    Find(code, l, 0)
  }

  function Jump(code: seq<Instr>, l: string, stack: seq<Value>, frame: Frame): Config {
    if Target(code, l) < |code| then Running(Target(code, l), stack, frame) else Faulted(Malformed)
  }

  function Top(stack: seq<Value>, depth: nat): Value
    requires depth < |stack|
  {
    stack[|stack| - 1 - depth]
  }

  function Drop(stack: seq<Value>, n: nat): seq<Value>
    requires n <= |stack|
  {
    stack[..|stack| - n]
  }

  /** Operands an instruction takes off the stack (`dup` forms count what they look at). */
  function Pops(i: Instr): nat {
    match i
    case IStore(_) => 1
    case AStore(_) => 1
    case PutStatic(_, _) => 1
    case IALoad => 2
    case IAStore => 3
    case NewArray => 1
    case IArith(_) => 2
    case INeg => 1
    case Dup => 1
    case Dup2 => 2
    case DupX2 => 3
    case Pop => 1
    case InvokeStatic(_, sig) => sig.arity
    case IfICmp(_, _) => 2
    case IfZ(_, _) => 1
    case IReturn => 1
    case _ => 0
  }

  /** Operands it puts back. */
  function Pushes(i: Instr): nat {
    match i
    case Push(_) => 1
    case ILoad(_) => 1
    case ALoad(_) => 1
    case GetStatic(_, _) => 1
    case IALoad => 1
    case NewArray => 1
    case IArith(_) => 1
    case INeg => 1
    case Dup => 2
    case Dup2 => 4
    case DupX2 => 4
    case InvokeStatic(_, sig) => if sig.isVoid then 0 else 1
    case _ => 0
  }

  predicate KindMatches(v: Value, kind: VarKind) {
    v.IntV? <==> kind == Scalar
  }

  function Load(m: map<nat, Value>, k: nat, kind: VarKind, pc: nat, stack: seq<Value>, frame: Frame): Config {
    if k !in m then Faulted(Unset)
    else if KindMatches(m[k], kind) then Running(pc, stack + [m[k]], frame)
    else Faulted(BadType)
  }

  predicate AllInts(vs: seq<Value>) {
    forall i :: 0 <= i < |vs| ==> vs[i].IntV?
  }

  function Ints(vs: seq<Value>): (ns: seq<int>)
    requires AllInts(vs)
    ensures |ns| == |vs|
  {
    seq(|vs|, i requires 0 <= i < |vs| => vs[i].n)
  }

  function Invoke(callee: Callee, f: string, sig: Signature, pc: nat, stack: seq<Value>, frame: Frame): Config
    requires sig.arity <= |stack|
  {
    var args := stack[|stack| - sig.arity..];
    if !AllInts(args) then Faulted(BadType) else
    match callee(f, Ints(args), Record(frame.world, f, Ints(args)))
    case None => Faulted(CalleeFailed)
    case Some((v, w)) =>
      var rest := Drop(stack, sig.arity);
      Running(pc, if sig.isVoid then rest else rest + [IntV(v)], frame.(world := w))
  }

  /** One step of a running configuration whose instruction finds its operands. */
  function Execute(code: seq<Instr>, callee: Callee, c: Config): Config
    requires c.Running? && c.pc < |code| && Pops(code[c.pc]) <= |c.stack|
  {
    var Running(pc, s, fr) := c;
    var rest := Drop(s, Pops(code[pc]));
    match code[pc]
    case Push(n) => if Int32.Fits(n) then Running(pc + 1, s + [IntV(n)], fr) else Faulted(BadType)
    case ILoad(k) => Load(fr.locals, k, Scalar, pc + 1, s, fr)
    case ALoad(k) => Load(fr.locals, k, Array, pc + 1, s, fr)
    case IStore(k) =>
      if Top(s, 0).IntV? then Running(pc + 1, rest, fr.(locals := fr.locals[k := Top(s, 0)])) else Faulted(BadType)
    case AStore(k) =>
      if Top(s, 0).RefV? then Running(pc + 1, rest, fr.(locals := fr.locals[k := Top(s, 0)])) else Faulted(BadType)
    case GetStatic(x, kind) =>
      if x !in fr.world.globals then Faulted(Unset)
      else if KindMatches(fr.world.globals[x], kind) then Running(pc + 1, s + [fr.world.globals[x]], fr)
      else Faulted(BadType)
    case PutStatic(x, kind) =>
      if KindMatches(Top(s, 0), kind)
      then Running(pc + 1, rest, fr.(world := fr.world.(globals := fr.world.globals[x := Top(s, 0)])))
      else Faulted(BadType)
    case IALoad =>
      (match (Top(s, 1), Top(s, 0))
       case (RefV(r), IntV(i)) =>
         if InBounds(fr.world, r, i) then Running(pc + 1, rest + [IntV(fr.world.heap[r][i])], fr)
         else Faulted(BadIndex)
       case _ => Faulted(BadType))
    case IAStore =>
      (match (Top(s, 2), Top(s, 1), Top(s, 0))
       case (RefV(r), IntV(i), IntV(v)) =>
         if InBounds(fr.world, r, i) then Running(pc + 1, rest, fr.(world := WriteElem(fr.world, r, i, v)))
         else Faulted(BadIndex)
       case _ => Faulted(BadType))
    case NewArray =>
      (match Top(s, 0)
       case IntV(n) =>
         if n < 0 then Faulted(BadIndex)
         else Running(pc + 1, rest + [RefV(|fr.world.heap|)], fr.(world := Allocate(fr.world, n)))
       case RefV(_) => Faulted(BadType))
    case IInc(k, d) =>
      if k !in fr.locals then Faulted(Unset)
      else if fr.locals[k].RefV? then Faulted(BadType)
      else Running(pc + 1, s, fr.(locals := fr.locals[k := IntV(Int32.Wrap(fr.locals[k].n + d))]))
    case IArith(op) =>
      (match (Top(s, 1), Top(s, 0))
       case (IntV(a), IntV(b)) =>
         (match Compute(op, a, b)
          case None => Faulted(DivByZero)
          case Some(v) => Running(pc + 1, rest + [IntV(v)], fr))
       case _ => Faulted(BadType))
    case INeg =>
      (match Top(s, 0)
       case IntV(a) => Running(pc + 1, rest + [IntV(Int32.Wrap(-a))], fr)
       case RefV(_) => Faulted(BadType))
    case Dup => Running(pc + 1, s + [Top(s, 0)], fr)
    case Dup2 => Running(pc + 1, s + [Top(s, 1), Top(s, 0)], fr)
    case DupX2 => Running(pc + 1, rest + [Top(s, 0), Top(s, 2), Top(s, 1), Top(s, 0)], fr)
    case Pop => Running(pc + 1, rest, fr)
    case InvokeStatic(f, sig) => Invoke(callee, f, sig, pc + 1, s, fr)
    case Goto(l) => Jump(code, l, s, fr)
    case IfICmp(op, l) =>
      (match (Top(s, 1), Top(s, 0))
       case (IntV(a), IntV(b)) =>
         if Compare(op, a, b) then Jump(code, l, rest, fr) else Running(pc + 1, rest, fr)
       case _ => Faulted(BadType))
    case IfZ(op, l) =>
      (match Top(s, 0)
       case IntV(a) => if Compare(op, a, 0) then Jump(code, l, rest, fr) else Running(pc + 1, rest, fr)
       case RefV(_) => Faulted(BadType))
    case Label(_) => Running(pc + 1, s, fr)
    case IReturn =>
      (match Top(s, 0)
       case IntV(v) => Returned(Some(v), fr.world)
       case RefV(_) => Faulted(BadType))
    case Return => Returned(None, fr.world)
  }

  /** One step; a finished configuration stays as it is. */
  function Step(code: seq<Instr>, callee: Callee, c: Config): Config {
    if !c.Running? then c
    else if c.pc >= |code| || |c.stack| < Pops(code[c.pc]) then Faulted(Malformed)
    else Execute(code, callee, c)
  }

  function Run(code: seq<Instr>, callee: Callee, c: Config, n: nat): Config
    decreases n
  {
    if n == 0 then c else Run(code, callee, Step(code, callee, c), n - 1)
  }

  lemma {:induction false} RunAdd(code: seq<Instr>, callee: Callee, c: Config, m: nat, n: nat)
    ensures Run(code, callee, c, m + n) == Run(code, callee, Run(code, callee, c, m), n)
    decreases m
  {
    if m > 0 {
      RunAdd(code, callee, Step(code, callee, c), m - 1, n);
    }
  }

  lemma {:induction false} HaltedStays(code: seq<Instr>, callee: Callee, c: Config, n: nat)
    requires !c.Running?
    ensures Run(code, callee, c, n) == c
  {
    if n > 0 {
      HaltedStays(code, callee, c, n - 1);
    }
  }

  /** No label is defined twice. */
  ghost predicate UniqueLabels(code: seq<Instr>) {
    forall i, j :: 0 <= i < j < |code| && code[i].Label? && code[j].Label? ==> code[i].name != code[j].name
  }

  lemma {:induction false} FindHits(code: seq<Instr>, l: string, from: nat, i: nat)
    requires UniqueLabels(code) && from <= i < |code| && code[i] == Label(l)
    ensures Find(code, l, from) == i
    decreases i - from
  {
    if from < i {
      FindHits(code, l, from + 1, i);
    }
  }

  lemma TargetIs(code: seq<Instr>, l: string, i: nat)
    requires UniqueLabels(code) && i < |code| && code[i] == Label(l)
    ensures Target(code, l) == i
  {
    FindHits(code, l, 0, i);
  }
}
