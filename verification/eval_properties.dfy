/** What evaluating an expression promises: how identifiers read, which slot an
    assignment writes, and the left-to-right order of evaluation and checking. */
module EvalProperties {
  import opened Wrappers
  import opened Values
  import opened Syntax
  import opened Environment
  import opened Operators
  import opened Builtins
  import opened Evaluator

  /** Reading an identifier yields the value of the first slot holding that name, fails
      with undefined-variable exactly when no occupied slot holds it, and never changes
      the table. */
  lemma ReadIdentifier(name: string, env: Env, pow: PowFn)
    ensures Eval(Id(name), env, pow).Ok? <==> Declared(env, name)
    ensures !Declared(env, name) ==> Eval(Id(name), env, pow) == Err(Undefined(name))
    ensures Declared(env, name) ==>
      Eval(Id(name), env, pow) == Ok(Reduced(env[Find(env, name).value].value.val, env))
  {
  }

  /** An expression with no assignment anywhere inside it. */
  predicate ReadOnly(e: Expr)
    decreases e
  {
    match e
    case Call(_, args) => forall i :: 0 <= i < |args| ==> ReadOnly(args[i])
    case Bin(op, l, r) => !op.IsUpdate() && ReadOnly(l) && ReadOnly(r)
    case _ => true
  }

  /** Evaluating an expression without assignments leaves the table exactly as it was. */
  lemma {:induction false} ReadOnlyKeepsEnv(e: Expr, env: Env, pow: PowFn)
    requires ReadOnly(e)
    ensures Eval(e, env, pow).Ok? ==> Eval(e, env, pow).value.env == env
    decreases ExprSize(e), 1
  {
    match e
    case Lit(_) =>
    case Id(_) =>
    case Call(fn, args) =>
      ReadOnlyArgsKeepEnv(args, env, pow);
      if |args| == 1 {
        ReadOnlyKeepsEnv(args[0], env, pow);
      }
    case Bin(op, l, r) =>
      assert Eval(e, env, pow) == EvalOperator(op, l, r, env, pow);
      ReadOnlyKeepsEnv(l, env, pow);
      if Eval(l, env, pow).Ok? {
        ReadOnlyKeepsEnv(r, env, pow);
        var o := EvalOperands(l, r, env, pow);
        assert o.Ok? ==> o.value.env == env;
      }
  }

  lemma {:induction false} ReadOnlyArgsKeepEnv(args: seq<Expr>, env: Env, pow: PowFn)
    requires forall i :: 0 <= i < |args| ==> ReadOnly(args[i])
    ensures EvalArgs(args, env, pow).Ok? ==> EvalArgs(args, env, pow).value.env == env
    decreases ArgsSize(args), 0
  {
    if args != [] {
      ReadOnlyKeepsEnv(args[0], env, pow);
      if Eval(args[0], env, pow).Ok? {
        ReadOnlyArgsKeepEnv(args[1..], env, pow);
      }
    }
  }

  /** One argument evaluates to its own value, in the table it leaves. */
  lemma SingleArgument(e: Expr, env: Env, pow: PowFn)
    ensures EvalArgs([e], env, pow) == (var x :- Eval(e, env, pow); Ok(ReducedArgs([x.val], x.env)))
  {
    assert [e][0] == e && [e][1..] == [];
    match Eval(e, env, pow)
    case Err(_) =>
    case Ok(x) =>
      assert EvalArgs([], x.env, pow) == Ok(ReducedArgs([], x.env));
      assert [x.val] + [] == [x.val];
  }

  /** Arguments run left to right: evaluating `a + b` is evaluating `a`, then `b` in the
      table `a` left, and the values come out in argument order. */
  lemma {:induction false} ArgumentsInOrder(a: seq<Expr>, b: seq<Expr>, env: Env, pow: PowFn)
    ensures EvalArgs(a + b, env, pow) ==
      (var x :- EvalArgs(a, env, pow);
       var y :- EvalArgs(b, x.env, pow);
       Ok(ReducedArgs(x.vals + y.vals, y.env)))
    decreases |a|
  {
    if a == [] {
      assert a + b == b;
      assert EvalArgs(a, env, pow) == Ok(ReducedArgs([], env));
      match EvalArgs(b, env, pow)
      case Err(_) =>
      case Ok(y) => assert [] + y.vals == y.vals;
    } else {
      assert (a + b)[0] == a[0];
      assert (a + b)[1..] == a[1..] + b;
      match Eval(a[0], env, pow)
      case Err(_) =>
      case Ok(first) =>
        ArgumentsInOrder(a[1..], b, first.env, pow);
        match EvalArgs(a[1..], first.env, pow)
        case Err(_) =>
        case Ok(x) =>
          match EvalArgs(b, x.env, pow)
          case Err(_) =>
          case Ok(y) => assert [first.val] + (x.vals + y.vals) == ([first.val] + x.vals) + y.vals;
    }
  }

  /** A successful `=` or compound update returns the right-hand value, writes only the
      slot holding the target name, and keeps that slot's name and tag. `=` stores the
      right-hand value itself; the compound updates store what the matching arithmetic
      operator computes from the variable's current value. */
  lemma UpdateWritesOnlyTarget(op: BinOp, name: string, rhs: Expr, env: Env, pow: PowFn)
    requires op.IsUpdate() && Eval(Bin(op, Id(name), rhs), env, pow).Ok?
    ensures Declared(env, name) && Eval(rhs, env, pow).Ok?
    ensures
      var x := Eval(rhs, env, pow).value;
      var r := Eval(Bin(op, Id(name), rhs), env, pow).value;
      var i := Find(env, name).value;
      var cur := x.env[i].value.val;
      && r.val == x.val
      && |r.env| == |env|
      && r.env[i].Some? && r.env[i].value.name == name
      && TagOf(r.env[i].value.val) == TagOf(env[i].value.val)
      && (forall j :: 0 <= j < |env| && j != i ==> r.env[j] == x.env[j])
      && (op.Assign? ==> r.env[i].value.val == x.val)
      && (!op.Assign? ==>
            Arith(ArithOf(op), cur, x.val, pow).Ok? && r.env[i].value.val == Num(Arith(ArithOf(op), cur, x.val, pow).value))
  {
    var x := Eval(rhs, env, pow).value;
    FindAgreesOnShape(env, x.env, name);
    var i := Find(env, name).value;
    assert Shape(x.env[i]) == Shape(env[i]);
  }

  /** An update on an identifier succeeds exactly when the right side does, the variable
      is declared and the operator accepts the variable's current value together with the
      right-hand value; so the errors `UpdateErrors` lists are the only ones. The right
      side cannot declare or drop a variable on the way. */
  lemma UpdateSucceeds(op: BinOp, name: string, rhs: Expr, env: Env, pow: PowFn)
    requires op.IsUpdate()
    ensures Eval(rhs, env, pow).Ok? ==> (Declared(Eval(rhs, env, pow).value.env, name) <==> Declared(env, name))
    ensures Eval(Bin(op, Id(name), rhs), env, pow).Ok? <==>
      && Eval(rhs, env, pow).Ok?
      && var x := Eval(rhs, env, pow).value;
         && ReadVar(x.env, name).Ok?
         && UpdateValue(op, ReadVar(x.env, name).value, x.val).Ok?
  {
    if Eval(rhs, env, pow).Ok? {
      var x := Eval(rhs, env, pow).value;
      FindAgreesOnShape(env, x.env, name);
    }
  }

  /** The error paths of `=` and the compound updates, in the order they are checked: a
      target that is not an identifier, then the right side, then an undefined variable,
      then a tag differing from the variable's, then a non-Num compound update, then a
      zero divisor for `//`. */
  lemma UpdateErrors(op: BinOp, target: Expr, rhs: Expr, env: Env, pow: PowFn)
    requires op.IsUpdate()
    ensures !target.Id? ==> Eval(Bin(op, target, rhs), env, pow) == Err(NotAVariable)
    ensures target.Id? && Eval(rhs, env, pow).Err? ==>
      Eval(Bin(op, target, rhs), env, pow) == Err(Eval(rhs, env, pow).error)
    ensures target.Id? && Eval(rhs, env, pow).Ok? && !Declared(env, target.name) ==>
      Eval(Bin(op, target, rhs), env, pow) == Err(Undefined(target.name))
    ensures target.Id? && Eval(rhs, env, pow).Ok? && Declared(env, target.name) ==>
      var x := Eval(rhs, env, pow).value;
      var cur := x.env[Find(env, target.name).value].value.val;
      && (TagOf(x.val) != TagOf(cur) ==> Eval(Bin(op, target, rhs), env, pow) == Err(WrongType(TagOf(x.val))))
      && (!op.Assign? && !x.val.Num? ==> Eval(Bin(op, target, rhs), env, pow) == Err(WrongType(TagOf(x.val))))
      && (op.XDec? && cur.Num? && x.val == Num(0.0) ==> Eval(Bin(op, target, rhs), env, pow) == Err(DivisionByZero))
  {
    if target.Id? && Eval(rhs, env, pow).Ok? {
      var x := Eval(rhs, env, pow).value;
      FindAgreesOnShape(env, x.env, target.name);
      if Declared(env, target.name) {
        var i := Find(env, target.name).value;
        assert Shape(x.env[i]) == Shape(env[i]);
      }
    }
  }

  /** `!=` fails exactly when `==` fails, with the same error, and otherwise yields the
      negated Bool in the same environment. */
  lemma NotEqualsNegatesEquals(l: Expr, r: Expr, env: Env, pow: PowFn)
    ensures Eval(Bin(NotEquals, l, r), env, pow).Err? <==> Eval(Bin(Equals, l, r), env, pow).Err?
    ensures Eval(Bin(Equals, l, r), env, pow).Err? ==>
      Eval(Bin(NotEquals, l, r), env, pow).error == Eval(Bin(Equals, l, r), env, pow).error
    ensures Eval(Bin(Equals, l, r), env, pow).Ok? ==>
      && Eval(Bin(NotEquals, l, r), env, pow).value.env == Eval(Bin(Equals, l, r), env, pow).value.env
      && Eval(Bin(NotEquals, l, r), env, pow).value.val == Bool(!Eval(Bin(Equals, l, r), env, pow).value.val.b)
  {
  }

  /** A failing left operand decides the outcome of a non-updating operator: the right
      operand cannot change it. */
  lemma LeftOperandFirst(op: BinOp, l: Expr, r1: Expr, r2: Expr, env: Env, pow: PowFn)
    requires !op.IsUpdate() && Eval(l, env, pow).Err?
    ensures Eval(Bin(op, l, r1), env, pow) == Err(Eval(l, env, pow).error)
    ensures Eval(Bin(op, l, r1), env, pow) == Eval(Bin(op, l, r2), env, pow)
  {
    assert EvalOperands(l, r1, env, pow) == Err(Eval(l, env, pow).error);
    assert EvalOperands(l, r2, env, pow) == Err(Eval(l, env, pow).error);
  }

  /** Both operands are evaluated, the right one in the table the left one left behind,
      before any type is checked; so a failing right operand wins over a left operand of
      the wrong type. Once both succeed, the operator acts on their values alone. */
  lemma OperandsBeforeChecks(op: BinOp, l: Expr, r: Expr, env: Env, pow: PowFn)
    requires !op.IsUpdate() && Eval(l, env, pow).Ok?
    ensures
      var a := Eval(l, env, pow).value;
      var b := Eval(r, a.env, pow);
      && (b.Err? ==> Eval(Bin(op, l, r), env, pow) == Err(b.error))
      && (b.Ok? && Apply(op, a.val, b.value.val, pow).Err? ==>
            Eval(Bin(op, l, r), env, pow) == Err(Apply(op, a.val, b.value.val, pow).error))
      && (b.Ok? && Apply(op, a.val, b.value.val, pow).Ok? ==>
            Eval(Bin(op, l, r), env, pow) == Ok(Reduced(Apply(op, a.val, b.value.val, pow).value, b.value.env)))
  {
    var a := Eval(l, env, pow).value;
    var b := Eval(r, a.env, pow);
    assert Eval(Bin(op, l, r), env, pow) == EvalOperator(op, l, r, env, pow);
    if b.Ok? {
      assert EvalOperands(l, r, env, pow) == Ok(Operands(a.val, b.value.val, b.value.env));
    } else {
      assert EvalOperands(l, r, env, pow) == Err(b.error);
    }
  }

  /** `len` of one argument: its error if it fails, its character count if it is a Str,
      and a tag error otherwise. Any other number of arguments is an arity error raised
      before any argument is evaluated. */
  lemma LenOfArgument(arg: Expr, args: seq<Expr>, env: Env, pow: PowFn)
    ensures Eval(arg, env, pow).Err? ==> Eval(Call("len", [arg]), env, pow) == Err(Eval(arg, env, pow).error)
    ensures Eval(arg, env, pow).Ok? && Eval(arg, env, pow).value.val.Str? ==>
      var x := Eval(arg, env, pow).value;
      Eval(Call("len", [arg]), env, pow) == Ok(Reduced(Num(|x.val.s| as real), x.env))
    ensures Eval(arg, env, pow).Ok? && !Eval(arg, env, pow).value.val.Str? ==>
      Eval(Call("len", [arg]), env, pow) == Err(WrongType(TagOf(Eval(arg, env, pow).value.val)))
    ensures |args| != 1 ==> Eval(Call("len", args), env, pow) == Err(WrongArgCount(|args|, 1))
  {
    ResolveNameOf(Len);
  }

  /** A call of any name that is not a builtin's fails before its arguments are touched. */
  lemma UnknownFunctionFails(fn: string, args: seq<Expr>, env: Env, pow: PowFn)
    requires forall b: Builtin :: NameOf(b) != fn
    ensures Eval(Call(fn, args), env, pow) == Err(UnknownFunction(fn))
  {
  }
}
