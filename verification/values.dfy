/** Runtime values of the scripting language and the fatal error kinds of its evaluator. */
module Values {

  /** The type tag of a value; no value ever converts implicitly to another tag. */
  datatype Tag = NilType | BoolType | NumType | StrType

  /** A tagged runtime value. Numbers are exact reals rather than IEEE doubles. */
  datatype Value =
    | Nil
    | Bool(b: bool)
    | Num(n: real)
    | Str(s: string)

  function TagOf(v: Value): Tag {
    match v
    case Nil => NilType
    case Bool(_) => BoolType
    case Num(_) => NumType
    case Str(_) => StrType
  }

  /** Every way a run can stop early. All but the last two end the process in the source;
      `InputRequired` and `OutOfFuel` mark where the model itself stops. */
  datatype Error =
    | Undefined(name: string)                 // variable not declared
    | Redeclared(name: string)                // `let` of a name already declared
    | CapacityExceeded                        // every variable slot is taken
    | WrongType(found: Tag)                   // operand, assignment or condition of the wrong tag
    | NotAVariable                            // left side of an assignment is not an identifier
    | UnknownFunction(name: string)           // call of a name missing from the builtin table
    | WrongArgCount(got: nat, expected: nat)  // builtin called with the wrong number of arguments
    | DivisionByZero
    | Panic                                   // the `panic` builtin
    | InputRequired                           // `readnum`/`readstr` would block on standard input
    | OutOfFuel                               // a loop ran out of its iteration budget
}
