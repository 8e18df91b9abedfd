/** The statement executor. Loops carry a fuel budget, one unit per iteration, so that
    every run is a total function; running out is the model's own `OutOfFuel` outcome. */
module Executor {
  import opened Wrappers
  import opened Values
  import opened Syntax
  import opened Environment
  import opened Operators
  import opened Evaluator

  /** Statements run in order; the first error ends the block. */
  function ExecBlock(b: seq<Stmt>, env: Env, fuel: nat, pow: PowFn): Result<Env, Error>
    decreases fuel, BlockSize(b)
  {
    if b == [] then Ok(env)
    else
      var env1 :- ExecStmt(b[0], env, fuel, pow);
      ExecBlock(b[1..], env1, fuel, pow)
  }

  function ExecStmt(s: Stmt, env: Env, fuel: nat, pow: PowFn): Result<Env, Error>
    decreases fuel, StmtSize(s)
  {
    match s
    case ExprStmt(e) =>
      var x :- Eval(e, env, pow);
      Ok(x.env)
    case Let(name, init) => ExecLet(name, init, env, pow)
    case If(arm) => ExecIf(arm, env, fuel, pow)
    case While(cond, body) => Loop(cond, body, [], env, fuel, pow)
    case For(init, cond, step, body) =>
      var env1 :- ExecBlock(init, env, fuel, pow);
      Loop(cond, body, step, env1, fuel, pow)
  }

  /** `let`: the slot scan comes first (a redeclaration, then a full table, are errors);
      the name then occupies the first free slot while the initializer is evaluated, and
      the initializer's value finally fills that slot. */
  function ExecLet(name: string, init: Expr, env: Env, pow: PowFn): (r: Result<Env, Error>)
    ensures Declared(env, name) ==> r == Err(Redeclared(name))
    ensures !Declared(env, name) && Full(env) ==> r == Err(CapacityExceeded)
    ensures r.Ok? ==> Grows(env, r.value) && Declared(r.value, name)
    ensures r.Ok? && UniqueNames(env) ==> UniqueNames(r.value)
    ensures !Declared(env, name) && !Full(env) ==>
      var x := Eval(init, Reserved(env, FirstFree(env).value, name), pow);
      && (x.Err? ==> r == Err(x.error))
      && (x.Ok? ==> r.Ok?)
  {
    var i :- Reserve(env, name);
    assert i == FirstFree(env).value;
    var x :- Eval(init, Reserved(env, i, name), pow);
    assert Shape(x.env[i]) == Shape(Reserved(env, i, name)[i]);
    var env' := Store(x.env, i, x.val);
    assert Holds(env', i, name);
    assert Grows(env, env') by {
      forall j | 0 <= j < |env| && env[j].Some?
        ensures Shape(env'[j]) == Shape(env[j])
      {
        assert Shape(x.env[j]) == Shape(Reserved(env, i, name)[j]);
      }
    }
    ReservedKeepsUnique(env, i, name);
    SameShapeKeepsUnique(Reserved(env, i, name), x.env);
    StoreKeepsUnique(x.env, i, x.val);
    Ok(env')
  }

  /** A tested condition and the table its evaluation left behind. */
  datatype Tested = Tested(holds: bool, env: Env)

  /** Every `if`, `while` and `for` condition must evaluate to a Bool. */
  function Condition(cond: Expr, env: Env, pow: PowFn): Result<Tested, Error>
  {
    var c :- Eval(cond, env, pow);
    if c.val.Bool? then Ok(Tested(c.val.b, c.env)) else Err(WrongType(TagOf(c.val)))
  }

  /** One link of an `if` chain: when the condition is false the chained `else if` runs
      if there is one, and the `else` body otherwise. */
  function ExecIf(arm: IfArm, env: Env, fuel: nat, pow: PowFn): Result<Env, Error>
    decreases fuel, ArmSize(arm)
  {
    var c :- Condition(arm.cond, env, pow);
    if c.holds then ExecBlock(arm.body, c.env, fuel, pow)
    else if arm.next.Some? then ExecIf(arm.next.value, c.env, fuel, pow)
    else ExecBlock(arm.orElse, c.env, fuel, pow)
  }

  /** The loop shared by `while` (with an empty step) and `for`: the condition is
      evaluated and checked before every iteration; while it holds, the body and then the
      step run. */
  function Loop(cond: Expr, body: seq<Stmt>, step: seq<Stmt>, env: Env, fuel: nat, pow: PowFn): Result<Env, Error>
    decreases fuel, BlockSize(body) + BlockSize(step) + 1
  {
    var c :- Condition(cond, env, pow);
    if !c.holds then Ok(c.env)
    else if fuel == 0 then Err(OutOfFuel)
    else Iteration(cond, body, step, c.env, fuel - 1, pow)
  }

  /** One pass of a loop whose condition held: the body, then the step, then the loop
      again from the table they left. */
  function Iteration(cond: Expr, body: seq<Stmt>, step: seq<Stmt>, env: Env, fuel: nat, pow: PowFn): Result<Env, Error>
    decreases fuel, BlockSize(body) + BlockSize(step) + 2
  {
    var env1 :- ExecBlock(body, env, fuel, pow);
    var env2 :- ExecBlock(step, env1, fuel, pow);
    Loop(cond, body, step, env2, fuel, pow)
  }

  /** A whole program, run from an empty table of `VarsCapacity` slots. */
  function Run(program: seq<Stmt>, fuel: nat, pow: PowFn): (r: Result<Env, Error>)
    ensures r.Ok? ==> |r.value| == VarsCapacity && UniqueNames(r.value)
  {
    BlockKeepsTable(program, EmptyEnv(VarsCapacity), fuel, pow);
    ExecBlock(program, EmptyEnv(VarsCapacity), fuel, pow)
  }

  /** What running statements promises about the table: an error, or a table in which
      no variable was freed, renamed or retagged, and whose names are still pairwise
      distinct if they were before. */
  predicate KeepsTable(env: Env, r: Result<Env, Error>) {
    r.Ok? ==> Grows(env, r.value) && (UniqueNames(env) ==> UniqueNames(r.value))
  }

  lemma ConditionKeepsTable(cond: Expr, env: Env, pow: PowFn)
    ensures Condition(cond, env, pow).Ok? ==>
      KeepsTable(env, Ok(Condition(cond, env, pow).value.env))
  {
    match Eval(cond, env, pow)
    case Err(_) =>
    case Ok(c) =>
      SameShapeGrows(env, c.env);
      SameShapeKeepsUnique(env, c.env);
  }

  lemma {:induction false} BlockKeepsTable(b: seq<Stmt>, env: Env, fuel: nat, pow: PowFn)
    ensures KeepsTable(env, ExecBlock(b, env, fuel, pow))
    decreases fuel, BlockSize(b)
  {
    if b != [] {
      StmtKeepsTable(b[0], env, fuel, pow);
      match ExecStmt(b[0], env, fuel, pow)
      case Err(_) =>
      case Ok(env1) =>
        BlockKeepsTable(b[1..], env1, fuel, pow);
        match ExecBlock(b[1..], env1, fuel, pow)
        case Err(_) =>
        case Ok(env2) => GrowsTransitive(env, env1, env2);
    }
  }

  lemma {:induction false} StmtKeepsTable(s: Stmt, env: Env, fuel: nat, pow: PowFn)
    ensures KeepsTable(env, ExecStmt(s, env, fuel, pow))
    decreases fuel, StmtSize(s)
  {
    match s
    case ExprStmt(e) =>
      if Eval(e, env, pow).Ok? {
        var x := Eval(e, env, pow).value;
        SameShapeGrows(env, x.env);
        SameShapeKeepsUnique(env, x.env);
      }
    case Let(name, init) =>
    case If(arm) => IfKeepsTable(arm, env, fuel, pow);
    case While(cond, body) => LoopKeepsTable(cond, body, [], env, fuel, pow);
    case For(init, cond, step, body) =>
      BlockKeepsTable(init, env, fuel, pow);
      match ExecBlock(init, env, fuel, pow)
      case Err(_) =>
      case Ok(env1) =>
        LoopKeepsTable(cond, body, step, env1, fuel, pow);
        match Loop(cond, body, step, env1, fuel, pow)
        case Err(_) =>
        case Ok(env2) => GrowsTransitive(env, env1, env2);
  }

  lemma {:induction false} IfKeepsTable(arm: IfArm, env: Env, fuel: nat, pow: PowFn)
    ensures KeepsTable(env, ExecIf(arm, env, fuel, pow))
    decreases fuel, ArmSize(arm)
  {
    ConditionKeepsTable(arm.cond, env, pow);
    match Condition(arm.cond, env, pow)
    case Err(_) =>
    case Ok(c) =>
      var r := if c.holds then ExecBlock(arm.body, c.env, fuel, pow)
               else if arm.next.Some? then ExecIf(arm.next.value, c.env, fuel, pow)
               else ExecBlock(arm.orElse, c.env, fuel, pow);
      if c.holds {
        BlockKeepsTable(arm.body, c.env, fuel, pow);
      } else if arm.next.Some? {
        IfKeepsTable(arm.next.value, c.env, fuel, pow);
      } else {
        BlockKeepsTable(arm.orElse, c.env, fuel, pow);
      }
      if r.Ok? {
        GrowsTransitive(env, c.env, r.value);
      }
  }

  lemma {:induction false} LoopKeepsTable(cond: Expr, body: seq<Stmt>, step: seq<Stmt>, env: Env, fuel: nat, pow: PowFn)
    ensures KeepsTable(env, Loop(cond, body, step, env, fuel, pow))
    decreases fuel, BlockSize(body) + BlockSize(step) + 1
  {
    ConditionKeepsTable(cond, env, pow);
    match Condition(cond, env, pow)
    case Err(_) =>
    case Ok(c) =>
      if c.holds && fuel > 0 {
        IterationKeepsTable(cond, body, step, c.env, fuel - 1, pow);
        match Iteration(cond, body, step, c.env, fuel - 1, pow)
        case Err(_) =>
        case Ok(r) => GrowsTransitive(env, c.env, r);
      }
  }

  lemma {:induction false} IterationKeepsTable(cond: Expr, body: seq<Stmt>, step: seq<Stmt>, env: Env, fuel: nat, pow: PowFn)
    ensures KeepsTable(env, Iteration(cond, body, step, env, fuel, pow))
    decreases fuel, BlockSize(body) + BlockSize(step) + 2
  {
    BlockKeepsTable(body, env, fuel, pow);
    match ExecBlock(body, env, fuel, pow)
    case Err(_) =>
    case Ok(env1) =>
      BlockKeepsTable(step, env1, fuel, pow);
      match ExecBlock(step, env1, fuel, pow)
      case Err(_) =>
      case Ok(env2) =>
        LoopKeepsTable(cond, body, step, env2, fuel, pow);
        match Loop(cond, body, step, env2, fuel, pow)
        case Err(_) =>
        case Ok(env3) =>
          GrowsTransitive(env, env1, env2);
          GrowsTransitive(env, env2, env3);
  }
}
