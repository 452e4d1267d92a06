/** What a running function shares with its surroundings: global variables,
    the array heap and the calls made so far. Source programs and generated
    code act on the same worlds. */
module World {
  import opened Ast
  import Int32

  datatype Value = IntV(n: int) | RefV(r: nat)

  datatype Event = Event(f: string, args: seq<int>)

  datatype World = World(globals: map<string, Value>, heap: seq<seq<int>>, trace: seq<Event>)

  /** Why an evaluation stops early. `Malformed` is the code's own fault
      (an empty operand stack, a jump to no label); no source program has it. */
  datatype Reason = DivByZero | BadIndex | Unset | BadType | CalleeFailed | Malformed

  /** What calling a function does: its result and the world it leaves, or
      None when it does not return normally. */
  type Callee = (string, seq<int>, World) -> Option<(int, World)>

  datatype VarKind = Scalar | Array

  datatype Signature = Signature(arity: nat, isVoid: bool)

  /** The name tables of the code generator: stack slots of locals, kinds of
      locals and globals, and the functions known so far. */
  datatype Env = Env(
    slots: map<string, nat>,
    localKinds: map<string, VarKind>,
    globalKinds: map<string, VarKind>,
    funcs: map<string, Signature>)
  {
    /** Every local has a kind and a slot of its own. */
    ghost predicate Valid() {
      && slots.Keys == localKinds.Keys
      && forall x, y :: x in slots && y in slots && slots[x] == slots[y] ==> x == y
    }

    predicate IsLocal(x: string) {
      x in slots
    }

    predicate Known(x: string, kind: VarKind) {
      if x in slots then x in localKinds && localKinds[x] == kind
      else x in globalKinds && globalKinds[x] == kind
    }
  }

  /** 32-bit arithmetic; None is division by zero. */
  function Compute(op: ArithOp, a: int, b: int): Option<int> {
    match op
    case Add => Some(Int32.Wrap(a + b))
    case Sub => Some(Int32.Wrap(a - b))
    case Mul => Some(Int32.Wrap(a * b))
    case Div => if b == 0 then None else Some(Int32.Wrap(Int32.TruncDiv(a, b)))
    case Rem => if b == 0 then None else Some(Int32.Wrap(Int32.TruncRem(a, b)))
  }

  predicate Compare(op: RelOp, a: int, b: int) {
    match op
    case LT => a < b
    case EQ => a == b
    case NE => a != b
    case GT => a > b
    case LE => a <= b
    case GE => a >= b
  }

  predicate InBounds(w: World, r: nat, i: int) {
    r < |w.heap| && 0 <= i < |w.heap[r]|
  }

  function WriteElem(w: World, r: nat, i: int, v: int): World
    requires InBounds(w, r, i)
  {
    w.(heap := w.heap[r := w.heap[r][i := v]])
  }

  /** A new array of zeros; its reference is the old size of the heap. */
  function Allocate(w: World, size: nat): World {
    w.(heap := w.heap + [seq(size, i => 0)])
  }

  function Record(w: World, f: string, args: seq<int>): World {
    w.(trace := w.trace + [Event(f, args)])
  }
}
