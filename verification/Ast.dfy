/** The syntax trees the code generator visits: the node shapes of
    hzcc/ast/Stmt.h and hzcc/ast/expr/Expr.h, restricted to int scalars,
    int arrays and calls. */
module Ast {

  datatype Option<+T> = None | Some(value: T)

  /** A node's location: (row, column). */
  datatype Pos = Pos(row: nat, col: nat)

  datatype ArithOp = Add | Sub | Mul | Div | Rem

  datatype RelOp = LT | EQ | NE | GT | LE | GE

  datatype LogicOp = And | Or

  datatype AssignOp = Set | AddSet | SubSet | MulSet | DivSet

  datatype IncDecOp = PreInc | PreDec | PostInc | PostDec

  datatype Expr =
    | Lit(n: int)
    | Var(x: string)
    | Arith(aop: ArithOp, l: Expr, r: Expr)
    | Neg(e: Expr)
    | Call(f: string, args: seq<Expr>)
    | Index(base: Expr, sub: Expr)
    | Assign(sop: AssignOp, lhs: Expr, rhs: Expr)
    | IncDec(iop: IncDecOp, target: Expr)
    | Rel(rop: RelOp, l: Expr, r: Expr)
    | Logic(lop: LogicOp, l: Expr, r: Expr)

  /** One `else if`: the position is its condition's. */
  datatype ElseIf = ElseIf(pos: Pos, cond: Expr, body: Stmt)

  datatype Stmt =
    | Empty
    | ExprStmt(e: Expr)
    | Decl(x: string, init: Option<Expr>)
    | ArrayDecl(x: string, size: nat)
    | Compound(body: seq<Stmt>)
    | If(pos: Pos, cond: Expr, thn: Stmt, elifs: seq<ElseIf>, els: Option<Stmt>)
    | While(pos: Pos, cond: Expr, wbody: Stmt)
    | Do(pos: Pos, dbody: Stmt, dcond: Option<Expr>)
    | For(pos: Pos, init0: Stmt, fcond: Option<Expr>, step: Stmt, fbody: Stmt)
    | Break
    | Continue
    | Return(val: Option<Expr>)

  /** The arithmetic operator inside a compound assignment. */
  function OpOf(op: AssignOp): ArithOp
    requires op != Set
  {
    match op
    case AddSet => Add
    case SubSet => Sub
    case MulSet => Mul
    case DivSet => Div
  }
}
