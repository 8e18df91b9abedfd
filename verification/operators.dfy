/** The type-checking semantics of every binary operator, on operands that have already
    been evaluated (left first, then right). */
module Operators {
  import opened Wrappers
  import opened Values
  import opened Syntax

  /** The host's floating-point `pow`, left uninterpreted. */
  type PowFn = (real, real) -> real

  /** `==`: the right operand must carry the left one's tag, and Nil is never comparable;
      a tag error always names the left operand's tag. */
  function EqualsValues(a: Value, b: Value): (r: Result<bool, Error>)
    ensures r.Ok? <==> TagOf(a) == TagOf(b) && !a.Nil?
    ensures r.Err? ==> r.error == WrongType(TagOf(a))
    ensures r.Ok? ==> (r.value <==> a == b)
  {
    if TagOf(b) != TagOf(a) then Err(WrongType(TagOf(a)))
    else
      match a
      case Num(x) => Ok(x == b.n)
      case Bool(x) => Ok(x == b.b)
      case Str(x) => Ok(x == b.s)
      case Nil => Err(WrongType(TagOf(a)))
  }

  /** `!=` negates the outcome of `==` and fails exactly where `==` fails. */
  function NotEqualsValues(a: Value, b: Value): (r: Result<bool, Error>)
    ensures r.Ok? <==> TagOf(a) == TagOf(b) && !a.Nil?
    ensures r.Err? ==> r.error == WrongType(TagOf(a))
    ensures r.Ok? ==> (r.value <==> a != b)
  {
    var eq :- EqualsValues(a, b);
    Ok(!eq)
  }

  /** `>`, `>=`, `<`, `<=`: equal tags first, then a Num left side; both errors name the
      left operand's tag. */
  function Order(op: BinOp, a: Value, b: Value): (r: Result<bool, Error>)
    requires op.IsOrdering()
    ensures r.Ok? <==> a.Num? && b.Num?
    ensures r.Err? ==> r.error == WrongType(TagOf(a))
  {
    if TagOf(b) != TagOf(a) then Err(WrongType(TagOf(a)))
    else if !a.Num? then Err(WrongType(TagOf(a)))
    else
      Ok(match op
         case Greater => a.n > b.n
         case GreaterEqu => a.n >= b.n
         case Less => a.n < b.n
         case LessEqu => a.n <= b.n)
  }

  /** `+ - * / ^`: the left operand is checked before the right one, and `/` by zero fails. */
  function Arith(op: BinOp, a: Value, b: Value, pow: PowFn): (r: Result<real, Error>)
    requires op.IsArithmetic()
    ensures r.Ok? <==> a.Num? && b.Num? && !(op.Div? && b.n == 0.0)
    ensures !a.Num? ==> r == Err(WrongType(TagOf(a)))
    ensures a.Num? && !b.Num? ==> r == Err(WrongType(TagOf(b)))
    ensures a.Num? && b.Num? && r.Err? ==> r.error == DivisionByZero
  {
    if !a.Num? then Err(WrongType(TagOf(a)))
    else if !b.Num? then Err(WrongType(TagOf(b)))
    else if op.Div? && b.n == 0.0 then Err(DivisionByZero)
    else
      Ok(match op
         case Add => a.n + b.n
         case Sub => a.n - b.n
         case Mul => a.n * b.n
         case Div => a.n / b.n
         case Pow => pow(a.n, b.n))
  }

  /** Every non-updating operator on its two operand values: comparisons give a Bool,
      arithmetic gives a Num. */
  function Apply(op: BinOp, a: Value, b: Value, pow: PowFn): (r: Result<Value, Error>)
    requires !op.IsUpdate()
    ensures r.Ok? && op.IsArithmetic() ==> r.value.Num?
    ensures r.Ok? && !op.IsArithmetic() ==> r.value.Bool?
    ensures r.Err? && !op.IsArithmetic() ==> r.error == WrongType(TagOf(a))
    ensures (op.Equals? || op.NotEquals?) ==> (r.Ok? <==> TagOf(a) == TagOf(b) && !a.Nil?)
    ensures op.Equals? && r.Ok? ==> r.value == Bool(a == b)
    ensures op.NotEquals? && r.Ok? ==> r.value == Bool(a != b)
    ensures op.IsOrdering() ==> (r.Ok? <==> a.Num? && b.Num?)
    ensures op.IsOrdering() && r.Ok? ==> r.value == Bool(Order(op, a, b).value)
    ensures op.IsArithmetic() ==> (r.Ok? <==> Arith(op, a, b, pow).Ok?)
    ensures op.IsArithmetic() && r.Ok? ==> r.value == Num(Arith(op, a, b, pow).value)
    ensures op.IsArithmetic() && r.Err? ==> r.error == Arith(op, a, b, pow).error
  {
    if op.Equals? then
      var x :- EqualsValues(a, b); Ok(Bool(x))
    else if op.NotEquals? then
      var x :- NotEqualsValues(a, b); Ok(Bool(x))
    else if op.IsOrdering() then
      var x :- Order(op, a, b); Ok(Bool(x))
    else
      var x :- Arith(op, a, b, pow); Ok(Num(x))
  }

  /** The value an updating operator stores into a variable holding `cur`, given the
      right-hand value `rhs`. The tags must agree; the compound updates also need a Num,
      and `//` a non-zero divisor. The stored value always keeps the variable's tag. */
  function UpdateValue(op: BinOp, cur: Value, rhs: Value): (r: Result<Value, Error>)
    requires op.IsUpdate()
    ensures r.Ok? <==> TagOf(rhs) == TagOf(cur) && (op.Assign? || (rhs.Num? && !(op.XDec? && rhs.n == 0.0)))
    ensures r.Ok? ==> TagOf(r.value) == TagOf(cur)
    ensures r.Ok? && op.Assign? ==> r.value == rhs
    ensures r.Err? && !(op.XDec? && rhs.Num? && TagOf(rhs) == TagOf(cur)) ==> r.error == WrongType(TagOf(rhs))
    ensures r.Err? && op.XDec? && rhs.Num? && TagOf(rhs) == TagOf(cur) ==> r.error == DivisionByZero
  {
    if TagOf(rhs) != TagOf(cur) then Err(WrongType(TagOf(rhs)))
    else if op.Assign? then Ok(rhs)
    else if !rhs.Num? then Err(WrongType(TagOf(rhs)))
    else if op.XDec? && rhs.n == 0.0 then Err(DivisionByZero)
    else
      Ok(Num(match op
             case Inc => cur.n + rhs.n
             case Dec => cur.n - rhs.n
             case XInc => cur.n * rhs.n
             case XDec => cur.n / rhs.n))
  }

  /** The arithmetic operator a compound update applies: `++` adds, `--` subtracts,
      `**` multiplies and `//` divides. */
  function ArithOf(op: BinOp): (r: BinOp)
    requires op.IsUpdate() && !op.Assign?
    ensures r.IsArithmetic() && !r.Pow?
  {
    match op
    case Inc => Add
    case Dec => Sub
    case XInc => Mul
    case XDec => Div
  }
}
