/** The abstract syntax the evaluator consumes, as produced by the parser. */
module Syntax {
  import opened Wrappers
  import opened Values

  /** Binary operator kinds, named after the source's BIN_OP_* constants. Note the
      non-standard compound updates: `++` is Inc (add-assign), `--` is Dec (sub-assign),
      `**` is XInc (mul-assign) and `//` is XDec (div-assign). */
  datatype BinOp =
    | Equals | NotEquals | Greater | GreaterEqu | Less | LessEqu
    | Assign | Inc | Dec | XInc | XDec
    | Add | Sub | Mul | Div | Pow
  {
    /** The operators whose left side must name a variable that they write back to. */
    predicate IsUpdate() {
      Assign? || Inc? || Dec? || XInc? || XDec?
    }

    predicate IsOrdering() {
      Greater? || GreaterEqu? || Less? || LessEqu?
    }

    predicate IsArithmetic() {
      Add? || Sub? || Mul? || Div? || Pow?
    }
  }

  datatype Expr =
    | Call(fn: string, args: seq<Expr>)
    | Id(name: string)
    | Lit(val: Value)
    | Bin(op: BinOp, left: Expr, right: Expr)

  datatype Stmt =
    | ExprStmt(expr: Expr)
    | Let(name: string, initializer: Expr)
    | If(arm: IfArm)
    | While(cond: Expr, body: seq<Stmt>)
    | For(init: seq<Stmt>, cond: Expr, step: seq<Stmt>, body: seq<Stmt>)

  /** One link of an `if` / `else if` / `else` chain: `next` is the chained `else if`,
      and `orElse` runs only when there is no `next`. */
  datatype IfArm = IfArm(cond: Expr, body: seq<Stmt>, next: Option<IfArm>, orElse: seq<Stmt>)

  function ExprSize(e: Expr): nat
    decreases e
  {
    match e
    case Call(_, args) => 1 + ArgsSize(args)
    case Bin(_, l, r) => 1 + ExprSize(l) + ExprSize(r)
    case _ => 1
  }

  function ArgsSize(args: seq<Expr>): nat
    decreases args
  {
    if args == [] then 0 else 1 + ExprSize(args[0]) + ArgsSize(args[1..])
  }

  function StmtSize(s: Stmt): nat
    decreases s
  {
    match s
    case If(arm) => 1 + ArmSize(arm)
    case While(_, body) => 2 + BlockSize(body)
    case For(init, _, step, body) => 2 + BlockSize(init) + BlockSize(step) + BlockSize(body)
    case _ => 1
  }

  function BlockSize(b: seq<Stmt>): nat
    decreases b
  {
    if b == [] then 0 else 1 + StmtSize(b[0]) + BlockSize(b[1..])
  }

  function ArmSize(a: IfArm): nat
    decreases a
  {
    1 + BlockSize(a.body) + BlockSize(a.orElse) + (match a.next case Some(n) => ArmSize(n) case None => 0)
  }
}
