/** Small goofscript programs worked through the model, each run from a table of one or
    two slots. */
module Scenarios {
  import opened Wrappers
  import opened Values
  import opened Syntax
  import opened Environment
  import opened Operators
  import opened Evaluator
  import opened Executor

  /** `let x = 5;` in an empty table takes the first slot. */
  lemma LetInEmptyTable(pow: PowFn)
    ensures ExecStmt(Let("x", Lit(Num(5.0))), EmptyEnv(2), 0, pow) == Ok([Some(Var("x", Num(5.0))), None])
  {
    var env0 := EmptyEnv(2);
    assert env0 == [None, None];
    assert !Declared(env0, "x");
    assert Reserve(env0, "x") == Ok(0);
    var placeholder := Reserved(env0, 0, "x");
    assert placeholder == [Some(Var("x", Nil)), None];
    assert Eval(Lit(Num(5.0)), placeholder, pow) == Ok(Reduced(Num(5.0), placeholder));
    assert Store(placeholder, 0, Num(5.0)) == [Some(Var("x", Num(5.0))), None];
    assert ExecLet("x", Lit(Num(5.0)), env0, pow) == Ok([Some(Var("x", Num(5.0))), None]);
  }

  /** `let x = 5; x ++ 3;` leaves x holding 8. */
  lemma IncrementAfterLet(pow: PowFn)
    ensures ExecBlock([Let("x", Lit(Num(5.0))), ExprStmt(Bin(Inc, Id("x"), Lit(Num(3.0))))], EmptyEnv(2), 0, pow)
      == Ok([Some(Var("x", Num(8.0))), None])
  {
    var env1 := [Some(Var("x", Num(5.0))), None];
    LetInEmptyTable(pow);
    assert Find(env1, "x") == Some(0);
    assert Eval(Lit(Num(3.0)), env1, pow) == Ok(Reduced(Num(3.0), env1));
    assert UpdateValue(Inc, Num(5.0), Num(3.0)) == Ok(Num(8.0));
    assert Store(env1, 0, Num(8.0)) == [Some(Var("x", Num(8.0))), None];
    assert Eval(Bin(Inc, Id("x"), Lit(Num(3.0))), env1, pow) == Ok(Reduced(Num(3.0), [Some(Var("x", Num(8.0))), None]));
  }

  /** `let x = 1; let x = 2;` stops at the second `let`. */
  lemma RedeclarationFails(pow: PowFn)
    ensures ExecBlock([Let("x", Lit(Num(1.0))), Let("x", Lit(Num(2.0)))], EmptyEnv(2), 0, pow)
      == Err(Redeclared("x"))
  {
    var env1 := [Some(Var("x", Num(1.0))), None];
    assert ExecStmt(Let("x", Lit(Num(1.0))), EmptyEnv(2), 0, pow) == Ok(env1) by {
      var placeholder := Reserved(EmptyEnv(2), 0, "x");
      assert EmptyEnv(2) == [None, None];
      assert Reserve(EmptyEnv(2), "x") == Ok(0);
      assert placeholder == [Some(Var("x", Nil)), None];
      assert Store(placeholder, 0, Num(1.0)) == env1;
    }
    assert Holds(env1, 0, "x");
  }

  /** With a one-slot table, `let a = 1; let b = 2;` runs out of slots. */
  lemma SecondLetExceedsCapacity(pow: PowFn)
    ensures ExecBlock([Let("a", Lit(Num(1.0))), Let("b", Lit(Num(2.0)))], EmptyEnv(1), 0, pow)
      == Err(CapacityExceeded)
  {
    var env1 := [Some(Var("a", Num(1.0)))];
    assert ExecStmt(Let("a", Lit(Num(1.0))), EmptyEnv(1), 0, pow) == Ok(env1) by {
      var placeholder := Reserved(EmptyEnv(1), 0, "a");
      assert EmptyEnv(1) == [None];
      assert Reserve(EmptyEnv(1), "a") == Ok(0);
      assert placeholder == [Some(Var("a", Nil))];
      assert Store(placeholder, 0, Num(1.0)) == env1;
    }
    assert !Declared(env1, "b") && Full(env1);
  }

  /** `len("hello")` is 5 and leaves the table alone. */
  lemma LengthOfString(pow: PowFn)
    ensures Eval(Call("len", [Lit(Str("hello"))]), EmptyEnv(2), pow) == Ok(Reduced(Num(5.0), EmptyEnv(2)))
  {
    Builtins.ResolveNameOf(Builtins.Len);
  }

  /** `print(y)` with no `y` declared fails on the lookup. */
  lemma UndeclaredArgument(pow: PowFn)
    ensures ExecStmt(ExprStmt(Call("print", [Id("y")])), EmptyEnv(2), 0, pow) == Err(Undefined("y"))
  {
    Builtins.ResolveNameOf(Builtins.Print);
    assert EmptyEnv(2) == [None, None];
    assert !Declared(EmptyEnv(2), "y");
  }

  /** `1 == "a"` compares values of two types and fails on the left one's. */
  lemma MixedEquality(pow: PowFn)
    ensures Eval(Bin(Equals, Lit(Num(1.0)), Lit(Str("a"))), EmptyEnv(2), pow) == Err(WrongType(NumType))
  {
  }

  /** `if 1 > 2 { let a = 1; } else { let b = 2; }` runs only the `else` body. */
  lemma ElseBranch(pow: PowFn)
    ensures ExecStmt(If(IfArm(Bin(Greater, Lit(Num(1.0)), Lit(Num(2.0))), [Let("a", Lit(Num(1.0)))], None,
                             [Let("b", Lit(Num(2.0)))])), EmptyEnv(2), 0, pow)
      == Ok([Some(Var("b", Num(2.0))), None])
  {
    var env0 := EmptyEnv(2);
    assert env0 == [None, None];
    assert Condition(Bin(Greater, Lit(Num(1.0)), Lit(Num(2.0))), env0, pow) == Ok(Tested(false, env0));
    assert Reserve(env0, "b") == Ok(0);
    var placeholder := Reserved(env0, 0, "b");
    assert placeholder == [Some(Var("b", Nil)), None];
    assert Store(placeholder, 0, Num(2.0)) == [Some(Var("b", Num(2.0))), None];
    assert ExecStmt(Let("b", Lit(Num(2.0))), env0, 0, pow) == Ok([Some(Var("b", Num(2.0))), None]);
  }

  /** The counter `i` as the only variable, holding `k`. */
  function Counter(k: real): Env {
    [Some(Var("i", Num(k)))]
  }

  /** The loop test `i < 2`. */
  lemma BelowTwo(k: real, pow: PowFn)
    ensures Condition(Bin(Less, Id("i"), Lit(Num(2.0))), Counter(k), pow) == Ok(Tested(k < 2.0, Counter(k)))
  {
    assert Find(Counter(k), "i") == Some(0);
  }

  /** One pass of the loop body `i ++ 1;`, whatever the fuel. */
  lemma IncrementOne(k: real, fuel: nat, pow: PowFn)
    ensures ExecBlock([ExprStmt(Bin(Inc, Id("i"), Lit(Num(1.0))))], Counter(k), fuel, pow) == Ok(Counter(k + 1.0))
  {
    var t := Counter(k);
    assert Find(t, "i") == Some(0);
    assert Eval(Lit(Num(1.0)), t, pow) == Ok(Reduced(Num(1.0), t));
    assert UpdateValue(Inc, Num(k), Num(1.0)) == Ok(Num(k + 1.0));
    assert Store(t, 0, Num(k + 1.0)) == Counter(k + 1.0);
    assert Eval(Bin(Inc, Id("i"), Lit(Num(1.0))), t, pow) == Ok(Reduced(Num(1.0), Counter(k + 1.0)));
  }

  /** While `i` is below 2, one unit of fuel buys one pass of `i ++ 1;` in
      `while i < 2 { i ++ 1; }`. */
  lemma CountStep(k: real, fuel: nat, pow: PowFn)
    requires k < 2.0
    ensures Loop(Bin(Less, Id("i"), Lit(Num(2.0))), [ExprStmt(Bin(Inc, Id("i"), Lit(Num(1.0))))], [],
                 Counter(k), fuel + 1, pow)
         == Loop(Bin(Less, Id("i"), Lit(Num(2.0))), [ExprStmt(Bin(Inc, Id("i"), Lit(Num(1.0))))], [],
                 Counter(k + 1.0), fuel, pow)
  {
    var cond := Bin(Less, Id("i"), Lit(Num(2.0)));
    var body := [ExprStmt(Bin(Inc, Id("i"), Lit(Num(1.0))))];
    BelowTwo(k, pow);
    IncrementOne(k, fuel, pow);
    assert ExecBlock([], Counter(k + 1.0), fuel, pow) == Ok(Counter(k + 1.0));
    assert Iteration(cond, body, [], Counter(k), fuel, pow) == Loop(cond, body, [], Counter(k + 1.0), fuel, pow);
  }

  /** From any value of `i` that is 2 minus a count of steps, `while i < 2 { i ++ 1; }`
      with exactly that much fuel ends with i = 2. */
  lemma {:induction false} CountUp(k: real, n: nat, pow: PowFn)
    requires k + n as real == 2.0
    ensures Loop(Bin(Less, Id("i"), Lit(Num(2.0))), [ExprStmt(Bin(Inc, Id("i"), Lit(Num(1.0))))], [],
                 Counter(k), n, pow) == Ok(Counter(2.0))
    decreases n
  {
    if n == 0 {
      BelowTwo(k, pow);
    } else {
      CountStep(k, n - 1, pow);
      CountUp(k + 1.0, n - 1, pow);
    }
  }

  /** `while i < 2 { i ++ 1; }` from i = 0 runs two iterations, so two units of fuel are
      enough. */
  lemma CountToTwo(pow: PowFn)
    ensures Loop(Bin(Less, Id("i"), Lit(Num(2.0))), [ExprStmt(Bin(Inc, Id("i"), Lit(Num(1.0))))], [],
                 Counter(0.0), 2, pow) == Ok(Counter(2.0))
  {
    CountUp(0.0, 2, pow);
  }

  /** The same loop with one unit of fuel stops at the second iteration. */
  lemma CountNeedsTwo(pow: PowFn)
    ensures Loop(Bin(Less, Id("i"), Lit(Num(2.0))), [ExprStmt(Bin(Inc, Id("i"), Lit(Num(1.0))))], [],
                 Counter(0.0), 1, pow) == Err(OutOfFuel)
  {
    CountStep(0.0, 0, pow);
    BelowTwo(1.0, pow);
  }
}
