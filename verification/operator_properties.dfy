/** Laws relating the operators to each other, stated on evaluated operands. */
module OperatorProperties {
  import opened Wrappers
  import opened Values
  import opened Syntax
  import opened Operators

  /** `!=` is exactly the negation of `==`, with identical errors. */
  lemma NotEqualsIsNegation(a: Value, b: Value)
    ensures NotEqualsValues(a, b).Err? <==> EqualsValues(a, b).Err?
    ensures NotEqualsValues(a, b).Err? ==> NotEqualsValues(a, b).error == EqualsValues(a, b).error
    ensures NotEqualsValues(a, b).Ok? ==> NotEqualsValues(a, b).value == !EqualsValues(a, b).value
  {
  }

  /** Nil is never comparable, even with itself. */
  lemma NilNeverEqual(b: Value)
    ensures EqualsValues(Nil, b) == Err(WrongType(NilType))
    ensures NotEqualsValues(Nil, b) == Err(WrongType(NilType))
  {
  }

  /** On numbers the four orderings agree with each other and with `==`: `<` is `>` with
      its operands swapped, `>=` is `>` or `==`, and exactly one of `<`, `==`, `>` holds. */
  lemma OrderingsAgree(a: Value, b: Value)
    requires a.Num? && b.Num?
    ensures Order(Less, a, b) == Order(Greater, b, a)
    ensures Order(LessEqu, a, b) == Order(GreaterEqu, b, a)
    ensures Order(GreaterEqu, a, b).value == (Order(Greater, a, b).value || EqualsValues(a, b).value)
    ensures Order(LessEqu, a, b).value == !Order(Greater, a, b).value
    ensures (Order(Less, a, b).value && !EqualsValues(a, b).value && !Order(Greater, a, b).value)
         || (!Order(Less, a, b).value && EqualsValues(a, b).value && !Order(Greater, a, b).value)
         || (!Order(Less, a, b).value && !EqualsValues(a, b).value && Order(Greater, a, b).value)
  {
  }

  /** On numbers each ordering is decided by the sign of the difference `a - b`. */
  lemma OrderBySubtraction(a: Value, b: Value, pow: PowFn)
    requires a.Num? && b.Num?
    ensures Order(Greater, a, b) == Ok(Arith(Sub, a, b, pow).value > 0.0)
    ensures Order(GreaterEqu, a, b) == Ok(Arith(Sub, a, b, pow).value >= 0.0)
    ensures Order(Less, a, b) == Ok(Arith(Sub, a, b, pow).value < 0.0)
    ensures Order(LessEqu, a, b) == Ok(Arith(Sub, a, b, pow).value <= 0.0)
  {
  }

  /** `+` is commutative with unit 0, and `-` takes the added value away again. */
  lemma AdditionLaws(x: real, y: real, pow: PowFn)
    ensures Arith(Add, Num(x), Num(y), pow) == Arith(Add, Num(y), Num(x), pow)
    ensures Arith(Add, Num(x), Num(0.0), pow) == Ok(x)
    ensures Arith(Sub, Num(Arith(Add, Num(x), Num(y), pow).value), Num(y), pow) == Ok(x)
  {
  }

  /** `*` is commutative with unit 1 and distributes over `+`. Division has neither of the
      first two laws, so these, with `DivideThenMultiply`, tell `*` and `/` apart. */
  lemma MultiplicationLaws(x: real, y: real, z: real, pow: PowFn)
    ensures Arith(Mul, Num(x), Num(y), pow) == Arith(Mul, Num(y), Num(x), pow)
    ensures Arith(Mul, Num(x), Num(1.0), pow) == Ok(x)
    ensures Arith(Mul, Num(x), Num(Arith(Add, Num(y), Num(z), pow).value), pow)
         == Arith(Add, Num(Arith(Mul, Num(x), Num(y), pow).value), Num(Arith(Mul, Num(x), Num(z), pow).value), pow)
  {
    assert Arith(Mul, Num(x), Num(y + z), pow).value == x * (y + z);
    assert Arith(Mul, Num(x), Num(y), pow).value == x * y;
    assert Arith(Mul, Num(x), Num(z), pow).value == x * z;
    assert x * (y + z) == x * y + x * z;
  }

  /** Dividing by a non-zero number and multiplying back recovers the dividend; dividing
      by zero is an error. */
  lemma DivideThenMultiply(x: real, y: real, pow: PowFn)
    ensures y != 0.0 ==> Arith(Mul, Num(Arith(Div, Num(x), Num(y), pow).value), Num(y), pow) == Ok(x)
    ensures Arith(Div, Num(x), Num(0.0), pow) == Err(DivisionByZero)
  {
  }

  /** A compound update on a Num variable stores exactly what the matching arithmetic
      operator computes, with the same errors; on any other variable it is a tag error
      naming the right-hand value. */
  lemma UpdateIsArithmetic(op: BinOp, cur: Value, rhs: Value, pow: PowFn)
    requires op.IsUpdate() && !op.Assign?
    ensures cur.Num? ==> UpdateValue(op, cur, rhs) == (var x :- Arith(ArithOf(op), cur, rhs, pow); Ok(Num(x)))
    ensures !cur.Num? ==> UpdateValue(op, cur, rhs) == Err(WrongType(TagOf(rhs)))
  {
  }

  /** `--` undoes `++` with the same right-hand value, and `//` undoes `**` for a
      non-zero one. */
  lemma UpdatesCancel(cur: Value, rhs: Value)
    requires UpdateValue(Inc, cur, rhs).Ok?
    ensures UpdateValue(Dec, UpdateValue(Inc, cur, rhs).value, rhs) == Ok(cur)
    ensures rhs.n != 0.0 ==> UpdateValue(XDec, UpdateValue(XInc, cur, rhs).value, rhs) == Ok(cur)
  {
    assert cur.Num? && rhs.Num?;
    if rhs.n != 0.0 {
      var product := UpdateValue(XInc, cur, rhs).value;
      assert product == Num(cur.n * rhs.n);
      assert (cur.n * rhs.n) / rhs.n == cur.n;
      assert UpdateValue(XDec, product, rhs) == Ok(Num(cur.n));
    }
  }

  /** A variable's tag decides which values any updating operator accepts. */
  lemma UpdateNeedsSameTag(op: BinOp, cur: Value, rhs: Value)
    requires op.IsUpdate() && TagOf(rhs) != TagOf(cur)
    ensures UpdateValue(op, cur, rhs) == Err(WrongType(TagOf(rhs)))
  {
  }
}
