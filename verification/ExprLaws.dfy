/** Laws of the operators that hold of no other meaning of them: logic, comparisons, extremes and absolute values. */
module ExprLaws {
  import opened ExprTree
  import opened ExprReal

  function Logic(m: Math, code: OpCode, a: Value, b: Value): Value {
    Binary(m, Op(code, U(0)), a, b)
  }

  function Negation(m: Math, a: Value): Value {
    Unary(m, Not, a)
  }

  function Compared(m: Math, kind: nat, a: Value, b: Value): Value {
    Binary(m, Op(Cmp, U(kind)), a, b)
  }

  predicate IsTrue(a: Value) {
    a == Defined(1.0)
  }

  predicate IsFalse(a: Value) {
    a == Defined(0.0)
  }

  /** A logical operator gives one or zero, by the truth of its operands: all of them, some of them, or just one of
      them positive. */
  lemma LogicByTruth(m: Math, x: real, y: real)
    ensures var a, b := Defined(x), Defined(y);
            && (if x > 0.0 && y > 0.0 then IsTrue(Logic(m, And, a, b)) else IsFalse(Logic(m, And, a, b)))
            && (if x > 0.0 || y > 0.0 then IsTrue(Logic(m, Or, a, b)) else IsFalse(Logic(m, Or, a, b)))
            && (if (x > 0.0) != (y > 0.0) then IsTrue(Logic(m, Xor, a, b)) else IsFalse(Logic(m, Xor, a, b)))
            && (if x > 0.0 then IsFalse(Negation(m, a)) else IsTrue(Negation(m, a)))
  {
  }

  /** De Morgan's laws, double negation up to truth, and exclusive or through the others. */
  lemma DeMorgan(m: Math, a: Value, b: Value)
    ensures Negation(m, Logic(m, And, a, b)) == Logic(m, Or, Negation(m, a), Negation(m, b))
    ensures Negation(m, Logic(m, Or, a, b)) == Logic(m, And, Negation(m, a), Negation(m, b))
    ensures Negation(m, Negation(m, a)) == Logic(m, And, a, a)
    ensures Logic(m, Xor, a, b) == Logic(m, And, Logic(m, Or, a, b), Negation(m, Logic(m, And, a, b)))
  {
  }

  /** Of two numbers exactly one is less, equal or greater; the other comparisons are the negations of these; and turning
      a comparison around exchanges less and greater. */
  lemma ComparedOneWay(m: Math, x: real, y: real)
    ensures var a, b := Defined(x), Defined(y);
            && (IsTrue(Compared(m, LT, a, b)) <==> x < y)
            && (if x == y then IsTrue(Compared(m, EQ, a, b)) else IsFalse(Compared(m, EQ, a, b)))
            && Compared(m, NLE, a, b) == Compared(m, LT, b, a) && Compared(m, NLT, a, b) == Compared(m, LE, b, a)
            && Compared(m, NEQ, a, b) == Negation(m, Compared(m, EQ, a, b))
            && Compared(m, NLT, a, b) == Negation(m, Compared(m, LT, a, b))
            && Compared(m, NLE, a, b) == Negation(m, Compared(m, LE, a, b))
            && Compared(m, LE, a, b) == Logic(m, Or, Compared(m, LT, a, b), Compared(m, EQ, a, b))
  {
  }

  /** The greater of two numbers is one of them and not less than either, and with the smaller makes up both. */
  lemma Extremes(m: Math, x: real, y: real)
    ensures var hi, lo := Logic(m, Max, Defined(x), Defined(y)), Logic(m, Min, Defined(x), Defined(y));
            && hi.Defined? && lo.Defined? && (hi.value == x || hi.value == y) && hi.value >= x && hi.value >= y
            && hi.value + lo.value == x + y
  {
  }

  /** An absolute value is not negative, is the greater of a number and its negation, and takes no sign. */
  lemma AbsoluteValue(m: Math, a: Value)
    ensures Unary(m, Abs, a) == Logic(m, Max, a, Unary(m, Neg, a)) == Unary(m, Abs, Unary(m, Neg, a))
    ensures Unary(m, Neg, a) == Logic(m, Sub, Defined(0.0), a) && Unary(m, Neg, Unary(m, Neg, a)) == a
  {
  }

  /** A ternary takes the branch its condition chooses, whatever the other one is worth. */
  lemma TernaryChooses(m: Math, x: real, b: Value, c: Value)
    ensures Triple(m, Op(Ternary, U(0)), Defined(x), b, c) == if x > 0.0 then b else c
  {
  }
}
