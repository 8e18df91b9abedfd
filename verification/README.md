# goofscript evaluator in Dafny

This project models the tree-walking evaluator of goofscript, a small dynamically typed
scripting language (`src/eval.c`), and proves its properties. It covers three parts:

- **The variable table.** This is a fixed number of slots, each empty or holding a name and
  a tagged value.
  - `let` declares a name once, in the first free slot.
  - Lookup is a linear scan for the exact name.
  - Assignment never changes a variable's tag.
- **The expression evaluator.** This covers literals, identifiers, calls of the builtin
  table, and all sixteen binary operators:
  - `==`, `!=`, `>`, `>=`, `<` and `<=`;
  - `=`, and the compound updates `++`, `--`, `**` and `//` (add-, subtract-, multiply- and
    divide-assign);
  - `+`, `-`, `*`, `/` and `^`.

  Each operator has its own order of evaluation and of type checks.
- **The statement executor.** This runs expression statements, `let`, `if` / `else if` /
  `else` chains, `while`, `for`, and statement lists.

The source stops the process at every error. Here every operation returns
`Result<_, Error>` instead, and evaluation stops at the first `Err`. Values are `Nil`,
`Bool`, `Num` and `Str`. Numbers are exact reals, and `^` is the host's `pow`, passed in as a
parameter and left uninterpreted.

Loops take a fuel budget so that every run is a total function:
- one unit is spent per iteration whose condition holds;
- running out gives the model's own `OutOfFuel` error;
- the fuel lemmas show the budget never changes any other outcome.

The files, in dependency order:
- `wrappers.dfy`: `Option` and `Result`.
- `values.dfy`: values, tags and error kinds.
- `syntax.dfy`: the syntax tree and its size measures.
- `environment.dfy`: the slot table.
- `operators.dfy`: the operators on evaluated operands.
- `builtins.dfy`: the builtin registry.
- `evaluator.dfy`: expressions.
- `executor.dfy`: statements.
- `operator_properties.dfy`, `eval_properties.dfy` and `exec_properties.dfy`: the laws.
- `scenarios.dfy`: small programs worked through the model.

### Choices the code fixes

- **`let` installs the name before the initializer runs.** `eval_stmt_let`
  (`src/eval.c:519-536`) works in this order:
  1. It scans the slots, failing on a redeclaration or a full table.
  2. It writes the name into the first free slot (`src/eval.c:534`).
  3. Only then does it evaluate the initializer and store the result (`src/eval.c:535`).

  The model does the same. While the initializer runs, the slot holds the name with a
  zero-filled placeholder value, modelled as `Nil` (`Environment.Reserved`). So in the
  model, `let x = x;` declares `x` as `Nil` rather than failing as undefined. This assumes
  that the zero tag is the nil tag; `value.h` is not part of this model.
- **The first free slot is used.** The scan keeps the lowest free index
  (`src/eval.c:522-527`), and the model does the same.
- **A redeclaration is reported before a full table.** The scan raises the redeclaration
  inside its loop, and the full-table error after it.
- **`init` and `step` of a `for` are statement lists.** The code runs both through `eval`,
  which walks a whole list.
- **The table holds 128 slots.** `VARS_CAPACITY` is defined in `eval.h`, which is not part of
  this model; 128 is assumed. `Run` starts from an empty table of that size, but every other
  operation works for any size.
- **A string is a sequence of bytes.** One Dafny `char` stands for one byte (one C `char`)
  of a string. So `len` is `strlen`'s byte count: a string holding "é" in UTF-8 is two
  characters long here.

## Model

| member | source | states |
|---|---|---|
| Environment.EmptyEnv | src/eval.c:3-5 | a fresh table has the requested number of slots and every slot is free |
| Environment.FindFrom | src/eval.c:164-174 | the scan from a given slot returns the first occupied slot holding the name, or reports that none from there on holds it |
| Environment.Find | src/eval.c:164-174 | lookup returns an occupied slot with exactly that name and no earlier one holds it; it returns nothing exactly when the name is not declared |
| Environment.FirstFree | src/eval.c:522-527 | the slot `let` would fill is free and every slot before it is taken; there is none exactly when the table is full |
| Environment.Reserve | src/eval.c:519-533 | `let`'s scan fails with redeclared exactly when the name is declared, and with capacity-exceeded exactly when it is not declared and the table is full; otherwise it yields the first free slot |
| Environment.ReadVar | src/eval.c:176-182 | reading fails with undefined(name) exactly when no occupied slot holds the name; otherwise it yields the value of a slot holding it, the only such slot when names are unique |
| Environment.Store | src/eval.c:298-299 | assignment rewrites one slot's value, keeps its name, and leaves every other slot as it was |
| Environment.Reserved | src/eval.c:534 | during the initializer, the chosen slot already holds the new name and nothing else has changed |
| Environment.StoreKeepsShape | src/eval.c:283-301 | storing a value of the slot's own tag keeps every slot's name and tag, and every lookup result |
| Environment.FindAgreesOnShape | src/eval.c:164-174 | two tables with the same names and tags in the same slots answer every lookup alike |
| Environment.SameShapeKeepsUnique | src/eval.c:519-536 | changing values without changing names keeps the names pairwise distinct |
| Environment.StoreKeepsUnique | src/eval.c:298-299 | an assignment keeps the names pairwise distinct |
| Environment.ReservedKeepsUnique | src/eval.c:519-534 | installing a name that was not yet declared keeps the names pairwise distinct |
| Operators.EqualsValues | src/eval.c:189-211 | `==` succeeds exactly when the tags agree and the left side is not Nil; its error names the left tag; its result is true exactly when the two values are equal |
| Operators.NotEqualsValues | src/eval.c:213-217 | `!=` has the same success condition and errors as `==`, and its result is true exactly when the values differ |
| Operators.Order | src/eval.c:219-281 | an ordering succeeds exactly when both sides are Num; every error names the left tag |
| OperatorProperties.OrderBySubtraction | src/eval.c:219-281 | on two Nums, `>`, `>=`, `<` and `<=` hold exactly when `a - b` is positive, non-negative, negative and non-positive respectively |
| Operators.Arith | src/eval.c:398-479 | arithmetic succeeds exactly on two Nums, except `/` by zero; a non-Num left side is reported before a non-Num right side, and a zero divisor gives division-by-zero |
| Operators.Apply | src/eval.c:481-504 | `==` and `!=` succeed exactly when the tags agree and the left side is not Nil, yielding whether the values are equal or differ; an ordering succeeds exactly on two Nums and yields `Order`'s Bool; arithmetic yields `Arith`'s number as a Num, with `Arith`'s errors; comparison errors name the left tag |
| Operators.UpdateValue | src/eval.c:283-396 | an update succeeds exactly when the tags agree and, for a compound update, the value is a Num that is not a zero divisor for `//`; the stored value keeps the variable's tag; `=` stores the right-hand value; errors name the right-hand tag, except division-by-zero |
| Operators.ArithOf | src/eval.c:303-396 | each compound update uses an arithmetic operator other than `^` |
| OperatorProperties.NotEqualsIsNegation | src/eval.c:213-217 | `!=` fails exactly when `==` fails, with the same error, and otherwise yields the negation |
| OperatorProperties.NilNeverEqual | src/eval.c:199-208 | a Nil left side makes both `==` and `!=` fail with the Nil tag, whatever the right side |
| OperatorProperties.OrderingsAgree | src/eval.c:219-281 | on numbers `<` is `>` with its operands swapped, `>=` is `>` or `==`, `<=` is not `>`, and exactly one of `<`, `==`, `>` holds |
| OperatorProperties.AdditionLaws | src/eval.c:398-428 | `+` is commutative with unit 0, and `-` takes an added value away again |
| OperatorProperties.MultiplicationLaws | src/eval.c:398-444 | `*` is commutative with unit 1 and distributes over `+`, which tells it apart from `/` |
| OperatorProperties.DivideThenMultiply | src/eval.c:430-463 | multiplying a quotient by its non-zero divisor gives back the dividend; dividing by zero is an error |
| OperatorProperties.UpdateIsArithmetic | src/eval.c:303-396 | a compound update on a Num variable stores exactly what the matching arithmetic operator computes, with the same errors |
| OperatorProperties.UpdatesCancel | src/eval.c:303-396 | `--` undoes `++` with the same right-hand value, and `//` undoes `**` with a non-zero one |
| OperatorProperties.UpdateNeedsSameTag | src/eval.c:292-293 | a right-hand value whose tag differs from the variable's is rejected by every updating operator, with its own tag |
| Builtins.ResolveFrom | src/eval.c:154-158 | the search from a given entry returns a builtin whose entry has exactly that name, or reports that no later entry has it |
| Builtins.Resolve | src/eval.c:154-162 | a call name resolves to a builtin with exactly that name, and to nothing exactly when no builtin has it |
| Builtins.TableListsEveryBuiltin | src/eval.c:145-152 | each table entry is filed under its builtin's name, and every builtin has an entry |
| Builtins.ResolveNameOf | src/eval.c:145-162 | every builtin is found under its own name |
| Builtins.NameOfInjective | src/eval.c:145-152 | no two builtins share a name |
| Builtins.StripNewline | src/eval.c:136-140 | the line loses one character exactly when it ends in a newline, and the result is a prefix of the line |
| Builtins.StripNewlineInverse | src/eval.c:136-140 | stripping undoes appending one newline, and leaves a line without a trailing newline unchanged |
| Evaluator.Eval | src/eval.c:506-517 | a successful evaluation may change values but never which slots are taken, by which name, or with which tag |
| Evaluator.EvalArgs | src/eval.c:27-32 | evaluating the arguments yields one value per argument and keeps names and tags |
| EvalProperties.SingleArgument | src/eval.c:27-32 | a single argument yields its own value, in the table its evaluation left |
| EvalProperties.ArgumentsInOrder | src/eval.c:27-32 | arguments run left to right: evaluating `a + b` evaluates `a`, then `b` in the table `a` left, and lists the values in argument order |
| Evaluator.EvalCall | src/eval.c:154-162 | an unknown name fails before any argument runs; `len` with other than one argument fails with the argument count before evaluating; only `len`, `print` and `println` can succeed |
| Evaluator.EvalOperands | src/eval.c:189-193 | evaluating both operands keeps names and tags |
| Evaluator.EvalOperator | src/eval.c:481-504 | a successful comparison yields a Bool and successful arithmetic a Num, without changing names or tags |
| Evaluator.EvalUpdate | src/eval.c:283-396 | a non-identifier target fails before anything is evaluated; success needs the target to be declared, and keeps names and tags |
| EvalProperties.ReadIdentifier | src/eval.c:164-182 | reading an identifier succeeds exactly when it is declared, yields the first matching slot's value, leaves the table unchanged, and otherwise fails with undefined(name) |
| EvalProperties.ReadOnlyKeepsEnv | src/eval.c:176-217 | an expression that assigns nothing leaves the table exactly as it was |
| EvalProperties.ReadOnlyArgsKeepEnv | src/eval.c:27-32 | arguments that assign nothing leave the table exactly as it was |
| EvalProperties.UpdateWritesOnlyTarget | src/eval.c:283-396 | a successful update returns the right-hand value, writes only the target's slot, keeps its name and tag, stores the right-hand value for `=`, and stores the arithmetic result for a compound update |
| EvalProperties.UpdateSucceeds | src/eval.c:283-396 | an update of an identifier succeeds exactly when the right side succeeds, the variable is declared, and the operator accepts the variable's current value with the right-hand value; the right side never changes which names are declared |
| EvalProperties.UpdateErrors | src/eval.c:283-396 | update errors come in the source's order: non-identifier target, then the right side's own error, then undefined, then a tag mismatch or a non-Num compound update naming the right-hand tag, then division by zero for `//` |
| EvalProperties.NotEqualsNegatesEquals | src/eval.c:213-217 | on expressions, `!=` fails exactly when `==` does, with the same error, and otherwise yields the negated Bool in the same table |
| EvalProperties.LeftOperandFirst | src/eval.c:189-193 | a failing left operand decides the outcome of a comparison or arithmetic operator, whatever the right operand is |
| EvalProperties.OperandsBeforeChecks | src/eval.c:398-412 | both operands are evaluated before any type check, so a failing right operand wins over a mistyped left one; the operator then acts on the two values alone |
| EvalProperties.LenOfArgument | src/eval.c:63-77 | `len` of one argument passes on the argument's error, returns the length of a Str (its byte count, as `strlen` gives), and rejects any other tag; any other number of arguments fails with the argument count |
| EvalProperties.UnknownFunctionFails | src/eval.c:154-162 | a name that is no builtin's fails with unknown-function, whatever the arguments |
| Executor.ExecLet | src/eval.c:519-536 | `let` of a declared name fails with redeclared, and on a full table with capacity-exceeded, both before the initializer runs; for a new name on a table with a free slot it fails exactly when the initializer, run with the name installed in the first free slot, fails, and with that error; on success the name is declared, every slot taken before keeps its name and tag, and names stay pairwise distinct |
| Executor.Run | src/eval.c:585-597 | a successful program run ends with a 128-slot table whose names are pairwise distinct |
| Executor.ConditionKeepsTable | src/eval.c:538-543 | testing a condition keeps every slot's name and tag |
| Executor.BlockKeepsTable | src/eval.c:585-597 | a statement list never frees, renames or retags a slot, and keeps names pairwise distinct |
| Executor.StmtKeepsTable | src/eval.c:585-597 | no statement frees, renames or retags a slot, and every statement keeps names pairwise distinct |
| Executor.IfKeepsTable | src/eval.c:538-551 | an `if` chain never frees, renames or retags a slot |
| Executor.LoopKeepsTable | src/eval.c:553-566 | a loop never frees, renames or retags a slot |
| Executor.IterationKeepsTable | src/eval.c:568-583 | one body-and-step pass of a loop never frees, renames or retags a slot |
| ExecProperties.BlockAppend | src/eval.c:585-597 | running two statement lists back to back is running their concatenation |
| ExecProperties.ErrorIsFinal | src/eval.c:585-597 | after an error, no later statement runs |
| ExecProperties.LoopStepJoinsBody | src/eval.c:568-583 | a loop with a step behaves as the loop whose body is the body followed by the step |
| ExecProperties.ForIsInitThenWhile | src/eval.c:568-583 | `for` runs its init once, then behaves as `while` over the body followed by the step |
| ExecProperties.IfRunsOneBranch | src/eval.c:538-551 | an `if` chain passes on its condition's error, rejects a non-Bool condition, and otherwise runs exactly one of the body, the chained `else if`, or the `else` body |
| ExecProperties.WhileChecksEveryIteration | src/eval.c:553-566 | `while` re-checks its condition before every iteration: an error or a non-Bool fails, false stops, and true runs the body once and loops again |
| ExecProperties.LetFillsFirstFree | src/eval.c:519-536 | a successful `let` puts the name and the initializer's value in the first free slot; every other slot is as the initializer left it, and if the initializer assigns nothing, no other slot changes |
| ExecProperties.BlockFuelMonotone | src/eval.c:585-597 | a statement list's outcome, other than running out of fuel, stays the same with more fuel |
| ExecProperties.StmtFuelMonotone | src/eval.c:585-597 | a statement's outcome, other than running out of fuel, stays the same with more fuel |
| ExecProperties.IfFuelMonotone | src/eval.c:538-551 | an `if` chain's outcome, other than running out of fuel, stays the same with more fuel |
| ExecProperties.LoopFuelMonotone | src/eval.c:553-566 | a loop's outcome, other than running out of fuel, stays the same with more fuel |
| ExecProperties.IterationFuelMonotone | src/eval.c:568-583 | a loop pass's outcome, other than running out of fuel, stays the same with more fuel |
| Scenarios.LetInEmptyTable | src/eval.c:519-536 | `let x = 5;` in an empty table fills the first slot |
| Scenarios.IncrementAfterLet | src/eval.c:303-324 | `let x = 5; x ++ 3;` leaves x holding 8 |
| Scenarios.RedeclarationFails | src/eval.c:519-528 | a second `let x` fails with redeclared |
| Scenarios.SecondLetExceedsCapacity | src/eval.c:530-531 | a `let` on a full table fails with capacity-exceeded |
| Scenarios.LengthOfString | src/eval.c:63-77 | `len("hello")` is 5 |
| Scenarios.UndeclaredArgument | src/eval.c:176-182 | `print(y)` with no `y` declared fails with undefined |
| Scenarios.MixedEquality | src/eval.c:189-197 | `1 == "a"` fails with the Num tag |
| Scenarios.ElseBranch | src/eval.c:538-551 | a false `if` condition runs only the `else` body |
| Scenarios.BelowTwo | src/eval.c:251-265 | `i < 2` tests the counter's value and changes nothing |
| Scenarios.IncrementOne | src/eval.c:303-324 | `i ++ 1;` adds one to the counter |
| Scenarios.CountStep | src/eval.c:553-566 | while `i` is below 2, one unit of fuel runs one test and one `i ++ 1;` of `while i < 2 { i ++ 1; }` |
| Scenarios.CountUp | src/eval.c:553-566 | the counting loop started n steps below 2 with n units of fuel ends with i = 2 |
| Scenarios.CountToTwo | src/eval.c:553-566 | `while i < 2 { i ++ 1; }` from 0 ends with i = 2 |
| Scenarios.CountNeedsTwo | src/eval.c:553-566 | the same loop, given fuel for only one iteration, runs out of fuel |

## Left out

- Console output of `print` and `println` (src/eval.c:24-42) is not modelled. Both evaluate
  their arguments in order and yield Nil.
- `readnum` and `readstr` (src/eval.c:79-143) block on standard input. The model evaluates
  their prompt arguments and stops with `InputRequired`. Their parsing by `sscanf`, and the
  1024-byte line limit of `fgets`, are left out. `Builtins.StripNewline` models only the
  newline strip.
- `panic` (src/eval.c:44-61) prints a located diagnostic and exits. The model evaluates the
  arguments and returns `Err(Panic)`.
- The text of values and diagnostics is left out: `fprint_value`, `double_to_str`, colours,
  source locations and exit codes. Only the kind of error is kept.
- Numbers are exact reals, not IEEE doubles, so rounding, infinities and NaN are absent.
  For example, NaN `==` NaN is false in the source, but a real always equals itself. `^` is
  an uninterpreted parameter.
- Strings are byte sequences, one `char` per byte, compared by equality and measured by
  their length. A `char` above 255 has no counterpart in the source. The source's `strcmp`
  and `strlen` stop at a NUL byte; that is not modelled.
- Heap copying of strings (`strcpy_to_heap`) and the absence of freeing are not modelled.
- `src/lexer.h`, the parser, `value.h` and `eval.h` are not part of this model.
- Fuel is a model-only bound. A program whose loops do not terminate in the source ends
  here with `OutOfFuel` for every budget. The fuel lemmas show that this outcome is the
  only one a larger budget can change.
- Evaluator.Eval: the contract states only that the slot shapes are kept. What each kind of
  expression evaluates to is stated by the lemmas in `EvalProperties`.
- Evaluator.EvalCall: the contract covers resolution, the arity check of `len` and which
  builtins can succeed. The results of `len` are stated by `EvalProperties.LenOfArgument`.
- Evaluator.EvalUpdate: the contract states the target check and that success needs a
  declared target. When an update succeeds is stated by `EvalProperties.UpdateSucceeds`;
  the written slot, the result and the errors by `EvalProperties.UpdateWritesOnlyTarget`
  and `EvalProperties.UpdateErrors`.
- Evaluator.EvalOperator: the contract states only the result's tag and the kept shape.
  `EvalProperties.OperandsBeforeChecks` states that the outcome is `Operators.Apply` on the
  two operand values, and `Apply`'s contract states what each operator yields.
- Evaluator.EvalArgs: the contract states only the count of values and the kept shape. The
  left-to-right order and the value of each argument are stated by
  `EvalProperties.ArgumentsInOrder` and `EvalProperties.SingleArgument`.
- Evaluator.EvalOperands: the contract states only the kept shape. The left-then-right order
  is stated by `EvalProperties.OperandsBeforeChecks` and `EvalProperties.LeftOperandFirst`.
- Operators.Order: the contract states when an ordering succeeds and its errors. Which Bool
  each ordering yields is stated by `OperatorProperties.OrderBySubtraction`.
- Operators.Arith: the contract states when arithmetic succeeds and its errors, not the
  number it computes. `OperatorProperties.AdditionLaws`, `OperatorProperties.MultiplicationLaws`
  and `OperatorProperties.DivideThenMultiply` state how `+`, `-`, `*` and `/` relate, and
  `OperatorProperties.OrderBySubtraction` fixes `-`; `^` is the uninterpreted host `pow`.
- Operators.ArithOf: the contract states only that the operator is arithmetic and not `^`.
  `OperatorProperties.UpdateIsArithmetic` states what it is for.
