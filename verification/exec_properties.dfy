/** What running statements promises: sequencing, error finality, the `if` chain, the
    loop forms, `let`, and the independence of results from the fuel budget. */
module ExecProperties {
  import opened Wrappers
  import opened Values
  import opened Syntax
  import opened Environment
  import opened Operators
  import opened Evaluator
  import opened EvalProperties
  import opened Executor

  /** Running two blocks back to back is running their concatenation. */
  lemma {:induction false} BlockAppend(a: seq<Stmt>, b: seq<Stmt>, env: Env, fuel: nat, pow: PowFn)
    ensures ExecBlock(a + b, env, fuel, pow) ==
      (var mid :- ExecBlock(a, env, fuel, pow); ExecBlock(b, mid, fuel, pow))
    decreases |a|
  {
    if a == [] {
      assert a + b == b;
    } else {
      assert (a + b)[0] == a[0];
      assert (a + b)[1..] == a[1..] + b;
      match ExecStmt(a[0], env, fuel, pow)
      case Err(_) =>
      case Ok(env1) => BlockAppend(a[1..], b, env1, fuel, pow);
    }
  }

  /** An error ends the run: no statement after it executes. */
  lemma ErrorIsFinal(a: seq<Stmt>, rest: seq<Stmt>, env: Env, fuel: nat, pow: PowFn)
    requires ExecBlock(a, env, fuel, pow).Err?
    ensures ExecBlock(a + rest, env, fuel, pow) == ExecBlock(a, env, fuel, pow)
  {
    BlockAppend(a, rest, env, fuel, pow);
  }

  /** Running a body and then a step is the same loop as running the two as one body. */
  lemma {:induction false} LoopStepJoinsBody(cond: Expr, body: seq<Stmt>, step: seq<Stmt>, env: Env, fuel: nat, pow: PowFn)
    ensures Loop(cond, body, step, env, fuel, pow) == Loop(cond, body + step, [], env, fuel, pow)
    decreases fuel
  {
    match Condition(cond, env, pow)
    case Err(_) =>
    case Ok(c) =>
      if c.holds && fuel > 0 {
        BlockAppend(body, step, c.env, fuel - 1, pow);
        match ExecBlock(body + step, c.env, fuel - 1, pow)
        case Err(_) =>
        case Ok(env2) =>
          assert ExecBlock([], env2, fuel - 1, pow) == Ok(env2);
          LoopStepJoinsBody(cond, body, step, env2, fuel - 1, pow);
      }
  }

  /** A `for` loop runs its init once and then behaves as a `while` loop whose body is the
      `for` body followed by its step. */
  lemma ForIsInitThenWhile(init: seq<Stmt>, cond: Expr, step: seq<Stmt>, body: seq<Stmt>, env: Env, fuel: nat, pow: PowFn)
    ensures ExecStmt(For(init, cond, step, body), env, fuel, pow) ==
      (var env1 :- ExecBlock(init, env, fuel, pow); ExecStmt(While(cond, body + step), env1, fuel, pow))
  {
    match ExecBlock(init, env, fuel, pow)
    case Err(_) =>
    case Ok(env1) => LoopStepJoinsBody(cond, body, step, env1, fuel, pow);
  }

  /** An `if` chain checks its condition is a Bool and then runs exactly one of: the body,
      the chained `else if`, or the `else` body. */
  lemma IfRunsOneBranch(arm: IfArm, env: Env, fuel: nat, pow: PowFn)
    ensures Eval(arm.cond, env, pow).Err? ==>
      ExecStmt(If(arm), env, fuel, pow) == Err(Eval(arm.cond, env, pow).error)
    ensures Eval(arm.cond, env, pow).Ok? ==>
      var c := Eval(arm.cond, env, pow).value;
      && (!c.val.Bool? ==> ExecStmt(If(arm), env, fuel, pow) == Err(WrongType(TagOf(c.val))))
      && (c.val == Bool(true) ==> ExecStmt(If(arm), env, fuel, pow) == ExecBlock(arm.body, c.env, fuel, pow))
      && (c.val == Bool(false) && arm.next.Some? ==>
            ExecStmt(If(arm), env, fuel, pow) == ExecStmt(If(arm.next.value), c.env, fuel, pow))
      && (c.val == Bool(false) && arm.next.None? ==>
            ExecStmt(If(arm), env, fuel, pow) == ExecBlock(arm.orElse, c.env, fuel, pow))
  {
  }

  /** A `while` loop re-evaluates and re-checks its condition before every iteration: a
      non-Bool fails, false stops, and true runs the body once before checking again. */
  lemma WhileChecksEveryIteration(cond: Expr, body: seq<Stmt>, env: Env, fuel: nat, pow: PowFn)
    ensures Eval(cond, env, pow).Err? ==>
      ExecStmt(While(cond, body), env, fuel, pow) == Err(Eval(cond, env, pow).error)
    ensures Eval(cond, env, pow).Ok? ==>
      var c := Eval(cond, env, pow).value;
      && (!c.val.Bool? ==> ExecStmt(While(cond, body), env, fuel, pow) == Err(WrongType(TagOf(c.val))))
      && (c.val == Bool(false) ==> ExecStmt(While(cond, body), env, fuel, pow) == Ok(c.env))
      && (c.val == Bool(true) && fuel > 0 ==>
            ExecStmt(While(cond, body), env, fuel, pow) ==
              (var env1 :- ExecBlock(body, c.env, fuel - 1, pow); ExecStmt(While(cond, body), env1, fuel - 1, pow)))
  {
    if Eval(cond, env, pow).Ok? {
      var c := Eval(cond, env, pow).value;
      if c.val == Bool(true) && fuel > 0 {
        assert Condition(cond, env, pow) == Ok(Tested(true, c.env));
        assert ExecStmt(While(cond, body), env, fuel, pow) == Iteration(cond, body, [], c.env, fuel - 1, pow);
        match ExecBlock(body, c.env, fuel - 1, pow)
        case Err(_) =>
        case Ok(env1) =>
          assert ExecBlock([], env1, fuel - 1, pow) == Ok(env1);
          assert ExecStmt(While(cond, body), env1, fuel - 1, pow) == Loop(cond, body, [], env1, fuel - 1, pow);
      }
    }
  }

  /** A successful `let` fills the first free slot with the name and the initializer's
      value, and every other slot is as the initializer left it; when the initializer
      assigns nothing, no other slot changes at all. */
  lemma {:induction false} LetFillsFirstFree(name: string, init: Expr, env: Env, fuel: nat, pow: PowFn)
    requires ExecStmt(Let(name, init), env, fuel, pow).Ok?
    ensures !Declared(env, name) && FirstFree(env).Some?
    ensures
      var i := FirstFree(env).value;
      var x := Eval(init, Reserved(env, i, name), pow);
      var r := ExecStmt(Let(name, init), env, fuel, pow).value;
      && x.Ok?
      && r[i] == Some(Var(name, x.value.val))
      && (forall j :: 0 <= j < |env| && j != i ==> r[j] == x.value.env[j])
      && (ReadOnly(init) ==> r == env[i := Some(Var(name, x.value.val))])
  {
    var i := FirstFree(env).value;
    if ReadOnly(init) {
      ReadOnlyKeepsEnv(init, Reserved(env, i, name), pow);
    }
  }

  /** Fuel only bounds loops: an outcome reached with some fuel is reached unchanged with
      any larger amount. */
  lemma {:induction false} BlockFuelMonotone(b: seq<Stmt>, env: Env, f: nat, g: nat, pow: PowFn)
    requires f <= g && ExecBlock(b, env, f, pow) != Err(OutOfFuel)
    ensures ExecBlock(b, env, g, pow) == ExecBlock(b, env, f, pow)
    decreases f, BlockSize(b)
  {
    if b != [] {
      StmtFuelMonotone(b[0], env, f, g, pow);
      match ExecStmt(b[0], env, f, pow)
      case Err(_) =>
      case Ok(env1) => BlockFuelMonotone(b[1..], env1, f, g, pow);
    }
  }

  lemma {:induction false} StmtFuelMonotone(s: Stmt, env: Env, f: nat, g: nat, pow: PowFn)
    requires f <= g && ExecStmt(s, env, f, pow) != Err(OutOfFuel)
    ensures ExecStmt(s, env, g, pow) == ExecStmt(s, env, f, pow)
    decreases f, StmtSize(s)
  {
    match s
    case ExprStmt(_) =>
    case Let(_, _) =>
    case If(arm) => IfFuelMonotone(arm, env, f, g, pow);
    case While(cond, body) => LoopFuelMonotone(cond, body, [], env, f, g, pow);
    case For(init, cond, step, body) =>
      BlockFuelMonotone(init, env, f, g, pow);
      match ExecBlock(init, env, f, pow)
      case Err(_) =>
      case Ok(env1) => LoopFuelMonotone(cond, body, step, env1, f, g, pow);
  }

  lemma {:induction false} IfFuelMonotone(arm: IfArm, env: Env, f: nat, g: nat, pow: PowFn)
    requires f <= g && ExecIf(arm, env, f, pow) != Err(OutOfFuel)
    ensures ExecIf(arm, env, g, pow) == ExecIf(arm, env, f, pow)
    decreases f, ArmSize(arm)
  {
    match Condition(arm.cond, env, pow)
    case Err(_) =>
    case Ok(c) =>
      if c.holds {
        BlockFuelMonotone(arm.body, c.env, f, g, pow);
      } else if arm.next.Some? {
        IfFuelMonotone(arm.next.value, c.env, f, g, pow);
      } else {
        BlockFuelMonotone(arm.orElse, c.env, f, g, pow);
      }
  }

  lemma {:induction false} LoopFuelMonotone(cond: Expr, body: seq<Stmt>, step: seq<Stmt>, env: Env, f: nat, g: nat, pow: PowFn)
    requires f <= g && Loop(cond, body, step, env, f, pow) != Err(OutOfFuel)
    ensures Loop(cond, body, step, env, g, pow) == Loop(cond, body, step, env, f, pow)
    decreases f, BlockSize(body) + BlockSize(step) + 1
  {
    match Condition(cond, env, pow)
    case Err(_) =>
    case Ok(c) =>
      if c.holds {
        assert f > 0;
        IterationFuelMonotone(cond, body, step, c.env, f - 1, g - 1, pow);
      }
  }

  lemma {:induction false} IterationFuelMonotone(cond: Expr, body: seq<Stmt>, step: seq<Stmt>, env: Env, f: nat, g: nat, pow: PowFn)
    requires f <= g && Iteration(cond, body, step, env, f, pow) != Err(OutOfFuel)
    ensures Iteration(cond, body, step, env, g, pow) == Iteration(cond, body, step, env, f, pow)
    decreases f, BlockSize(body) + BlockSize(step) + 2
  {
    BlockFuelMonotone(body, env, f, g, pow);
    match ExecBlock(body, env, f, pow)
    case Err(_) =>
    case Ok(env1) =>
      BlockFuelMonotone(step, env1, f, g, pow);
      match ExecBlock(step, env1, f, pow)
      case Err(_) =>
      case Ok(env2) => LoopFuelMonotone(cond, body, step, env2, f, g, pow);
  }
}
