/** The expression evaluator: reduces an expression to a value, threading the environment
    through every read and assignment. Evaluation stops at the first error. */
module Evaluator {
  import opened Wrappers
  import opened Values
  import opened Syntax
  import opened Environment
  import opened Operators
  import opened Builtins

  /** A value together with the environment left behind by computing it. */
  datatype Reduced = Reduced(val: Value, env: Env)

  /** Argument values in order, and the environment after evaluating all of them. */
  datatype ReducedArgs = ReducedArgs(vals: seq<Value>, env: Env)

  /** Two operands evaluated left then right, and the environment after both. */
  datatype Operands = Operands(left: Value, right: Value, env: Env)

  /** Evaluation never declares, frees, renames or retags a variable. */
  function Eval(e: Expr, env: Env, pow: PowFn): (r: Result<Reduced, Error>)
    ensures r.Ok? ==> SameShape(env, r.value.env)
    decreases ExprSize(e), 3
  {
    match e
    case Lit(v) => Ok(Reduced(v, env))
    case Id(name) =>
      var v :- ReadVar(env, name);
      Ok(Reduced(v, env))
    case Call(fn, args) => EvalCall(fn, args, env, pow)
    case Bin(op, l, r) =>
      if op.IsUpdate() then EvalUpdate(op, l, r, env, pow) else EvalOperator(op, l, r, env, pow)
  }

  /** Arguments are evaluated one by one, left to right, each in the environment the
      previous one left behind. */
  function EvalArgs(args: seq<Expr>, env: Env, pow: PowFn): (r: Result<ReducedArgs, Error>)
    ensures r.Ok? ==> SameShape(env, r.value.env) && |r.value.vals| == |args|
    decreases ArgsSize(args), 3
  {
    if args == [] then Ok(ReducedArgs([], env))
    else
      var first :- Eval(args[0], env, pow);
      var rest :- EvalArgs(args[1..], first.env, pow);
      Ok(ReducedArgs([first.val] + rest.vals, rest.env))
  }

  /** A call resolves its name before touching any argument. `len` checks its argument
      count before evaluating its one argument; the other builtins evaluate all their
      arguments first. Console output is not modelled, `panic` stops the run, and the two
      input builtins stop where they would block on standard input. */
  function EvalCall(fn: string, args: seq<Expr>, env: Env, pow: PowFn): (r: Result<Reduced, Error>)
    ensures r.Ok? ==> SameShape(env, r.value.env)
    ensures Resolve(fn).None? ==> r == Err(UnknownFunction(fn))
    ensures fn == "len" && |args| != 1 ==> r == Err(WrongArgCount(|args|, 1))
    ensures r.Ok? ==> fn == "len" || fn == "print" || fn == "println"
    decreases 1 + ArgsSize(args), 2
  {
    match Resolve(fn)
    case None => Err(UnknownFunction(fn))
    case Some(b) =>
      if b.Len? then
        if |args| != 1 then Err(WrongArgCount(|args|, 1))
        else
          var x :- Eval(args[0], env, pow);
          if x.val.Str? then Ok(Reduced(Num(|x.val.s| as real), x.env))
          else Err(WrongType(TagOf(x.val)))
      else
        var xs :- EvalArgs(args, env, pow);
        match b
        case Print => Ok(Reduced(Nil, xs.env))
        case Println => Ok(Reduced(Nil, xs.env))
        case Panic => Err(Error.Panic)
        case ReadNum => Err(InputRequired)
        case ReadStr => Err(InputRequired)
  }

  function EvalOperands(l: Expr, r: Expr, env: Env, pow: PowFn): (res: Result<Operands, Error>)
    ensures res.Ok? ==> SameShape(env, res.value.env)
    decreases ExprSize(l) + ExprSize(r) + 1, 1
  {
    var a :- Eval(l, env, pow);
    var b :- Eval(r, a.env, pow);
    Ok(Operands(a.val, b.val, b.env))
  }

  /** Comparison and arithmetic: both operands are evaluated before any type check. */
  function EvalOperator(op: BinOp, l: Expr, r: Expr, env: Env, pow: PowFn): (res: Result<Reduced, Error>)
    requires !op.IsUpdate()
    ensures res.Ok? ==> SameShape(env, res.value.env)
    ensures res.Ok? && op.IsArithmetic() ==> res.value.val.Num?
    ensures res.Ok? && !op.IsArithmetic() ==> res.value.val.Bool?
    decreases ExprSize(l) + ExprSize(r) + 1, 2
  {
    var o :- EvalOperands(l, r, env, pow);
    var v :- Apply(op, o.left, o.right, pow);
    Ok(Reduced(v, o.env))
  }

  /** `=` and the compound updates: the target must be an identifier (checked before
      anything is evaluated); the right side is evaluated before the variable is looked
      up; the result is the right-hand value, not the variable's new value. */
  function EvalUpdate(op: BinOp, target: Expr, rhs: Expr, env: Env, pow: PowFn): (r: Result<Reduced, Error>)
    requires op.IsUpdate()
    ensures r.Ok? ==> SameShape(env, r.value.env)
    ensures !target.Id? ==> r == Err(NotAVariable)
    ensures r.Ok? ==> target.Id? && Declared(env, target.name)
    decreases ExprSize(target) + ExprSize(rhs) + 1, 2
  {
    if !target.Id? then Err(NotAVariable)
    else
      var x :- Eval(rhs, env, pow);
      match Find(x.env, target.name)
      case None => Err(Undefined(target.name))
      case Some(i) =>
        var stored :- UpdateValue(op, x.env[i].value.val, x.val);
        StoreKeepsShape(x.env, i, stored);
        FindAgreesOnShape(env, x.env, target.name);
        Ok(Reduced(x.val, Store(x.env, i, stored)))
  }
}
