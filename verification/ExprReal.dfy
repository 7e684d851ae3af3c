/** What an expression means over the exact reals. A value is missing where the arithmetic is undefined: dividing by
    zero, zero to a negative power, a fractional power of a negative number, the logarithm of a number not positive. */
module ExprReal {
  import opened ExprTree

  datatype Value = Undefined | Defined(value: real)

  // The samples a load reads, and the functions taken from the C library.
  datatype Math = Math(load: Op -> real, exp: real -> real, log: real -> Value, sin: real -> real, cos: real -> real,
                       power: (real, real) -> Value)

  // The kinds of a fused multiply-add.
  const FMADD := 0
  const FMSUB := 1
  const FNMADD := 2
  const FNMSUB := 3

  // The kinds of a comparison.
  const EQ := 0
  const LT := 1
  const LE := 2
  const NEQ := 4
  const NLT := 5
  const NLE := 6

  predicate IsComparison(kind: int) {
    kind == EQ || kind == LT || kind == LE || kind == NEQ || kind == NLT || kind == NLE
  }

  // A number counts as true when it is positive.
  predicate Truth(x: real) {
    x > 0.0
  }

  function FromBool(b: bool): real {
    if b then 1.0 else 0.0
  }

  predicate Compare(kind: int, x: real, y: real) {
    if kind == EQ then x == y
    else if kind == LT then x < y
    else if kind == LE then x <= y
    else if kind == NEQ then x != y
    else if kind == NLT then x >= y
    else x > y
  }

  function Fused(kind: int, a: real, b: real, c: real): real {
    if kind == FMADD then b * c + a
    else if kind == FMSUB then b * c - a
    else if kind == FNMADD then -(b * c) + a
    else -(b * c) - a
  }

  function Leaf(m: Math, op: Op): Value {
    if op.code.Constant? then (if op.imm.F? then Defined(op.imm.f) else Undefined) else Defined(m.load(op))
  }

  function Unary(m: Math, code: OpCode, a: Value): Value {
    if a.Undefined? then Undefined else
    match code
    case Sqrt => m.power(a.value, 0.5)
    case Abs => Defined(if a.value < 0.0 then -a.value else a.value)
    case Neg => Defined(-a.value)
    case Not => Defined(FromBool(!Truth(a.value)))
    case Exp => Defined(m.exp(a.value))
    case Log => m.log(a.value)
    case Sin => Defined(m.sin(a.value))
    case Cos => Defined(m.cos(a.value))
    case _ => Undefined
  }

  function Binary(m: Math, op: Op, a: Value, b: Value): Value {
    if a.Undefined? || b.Undefined? then Undefined else
    var x, y := a.value, b.value;
    match op.code
    case Add => Defined(x + y)
    case Sub => Defined(x - y)
    case Mul => Defined(x * y)
    case Div => if y == 0.0 then Undefined else Defined(x / y)
    case Max => Defined(if x < y then y else x)
    case Min => Defined(if y < x then y else x)
    case Cmp => if op.imm.U? then Defined(FromBool(Compare(op.imm.u, x, y))) else Undefined
    case And => Defined(FromBool(Truth(x) && Truth(y)))
    case Or => Defined(FromBool(Truth(x) || Truth(y)))
    case Xor => Defined(FromBool(Truth(x) != Truth(y)))
    case Pow => m.power(x, y)
    case _ => Undefined
  }

  // The branch a ternary does not take may be undefined.
  function Triple(m: Math, op: Op, a: Value, b: Value, c: Value): Value {
    if a.Undefined? then Undefined
    else if op.code.Ternary? then (if Truth(a.value) then b else c)
    else if b.Undefined? || c.Undefined? || !op.imm.U? then Undefined
    else Defined(Fused(op.imm.u, a.value, b.value, c.value))
  }

  // A number is the immediate of a constant, and only fused operations and comparisons have a kind.
  predicate NumericOp(op: Op) {
    && IsValueOp(op.code)
    && if op.code.Constant? then op.imm.F?
       else if IsLoad(op.code) then op.imm.U?
       else if op.code.Fma? then op.imm.U? && op.imm.u < 4
       else if op.code.Cmp? then op.imm.U? && IsComparison(op.imm.u)
       else op.imm == U(0)
  }

  predicate IsLoad(code: OpCode) {
    code.MemLoadU8? || code.MemLoadU16? || code.MemLoadF16? || code.MemLoadF32?
  }

  // A well-formed tree over the reals.
  predicate Numeric(t: Tree) {
    && t.Node?
    && NumericOp(t.op)
    && match Operands(t.op.code)
       case 0 => t.left.Nil? && t.right.Nil?
       case 1 => Numeric(t.left) && t.right.Nil?
       case 2 => Numeric(t.left) && Numeric(t.right)
       case _ => Numeric(t.left) && IsMux(t.right) && Numeric(t.right.left) && Numeric(t.right.right)
  }

  // The MUX over the last two operands of three.
  predicate NumericPair(t: Tree) {
    IsMux(t) && Numeric(t.left) && Numeric(t.right)
  }

  function Val(m: Math, t: Tree): Value
    requires Numeric(t)
  {
    match Operands(t.op.code)
    case 0 => Leaf(m, t.op)
    case 1 => Unary(m, t.op.code, Val(m, t.left))
    case 2 => Binary(m, t.op, Val(m, t.left), Val(m, t.right))
    case _ => Triple(m, t.op, Val(m, t.left), Val(m, t.right.left), Val(m, t.right.right))
  }

  // The same meaning in the form the compiler's theorems are stated for.
  function Meaning(m: Math): (Op, seq<Value>) -> Value {
    (op: Op, args: seq<Value>) =>
      match |args|
      case 0 => Leaf(m, op)
      case 1 => Unary(m, op.code, args[0])
      case 2 => Binary(m, op, args[0], args[1])
      case 3 => Triple(m, op, args[0], args[1], args[2])
      case _ => Undefined
  }

  lemma {:induction false} NumericIsWellFormed(t: Tree)
    requires Numeric(t)
    ensures WellFormed(t)
  {
    if Operands(t.op.code) >= 1 { NumericIsWellFormed(t.left); }
    if Operands(t.op.code) == 2 { NumericIsWellFormed(t.right); }
    if Operands(t.op.code) == 3 {
      NumericIsWellFormed(t.right.left);
      NumericIsWellFormed(t.right.right);
    }
  }

  /** The exact value of a tree is its evaluation under the exact meaning of the operators. */
  lemma {:induction false} ValIsEval(m: Math, t: Tree)
    requires Numeric(t)
    ensures WellFormed(t) && Eval(Meaning(m), t) == Val(m, t)
  {
    NumericIsWellFormed(t);
    if Operands(t.op.code) >= 1 { ValIsEval(m, t.left); }
    if Operands(t.op.code) == 2 { ValIsEval(m, t.right); }
    if Operands(t.op.code) == 3 {
      ValIsEval(m, t.right.left);
      ValIsEval(m, t.right.right);
    }
  }

  // The value depends only on the structure.
  lemma {:induction false} ValStrip(m: Math, s: Tree, t: Tree)
    requires Numeric(t) && Strip(s) == Strip(t)
    ensures Numeric(s) && Val(m, s) == Val(m, t)
  {
    if Operands(t.op.code) >= 1 { ValStrip(m, s.left, t.left); }
    if Operands(t.op.code) == 2 { ValStrip(m, s.right, t.right); }
    if Operands(t.op.code) == 3 {
      ValStrip(m, s.right.left, t.right.left);
      ValStrip(m, s.right.right, t.right.right);
    }
  }

  // What an optimization owes: a defined value stays.
  predicate Keeps(a: Value, b: Value) {
    a.Defined? ==> b == a
  }

  predicate KeepsVal(m: Math, a: Tree, b: Tree)
    requires Numeric(a)
  {
    Numeric(b) && Keeps(Val(m, a), Val(m, b))
  }

  // The same for whatever a walk meets: an operand, the MUX over two, or nothing.
  predicate NumericPart(t: Tree) {
    t.Nil? || Numeric(t) || NumericPair(t)
  }

  predicate KeepsPart(m: Math, a: Tree, b: Tree)
    requires NumericPart(a)
  {
    if a.Nil? then b.Nil?
    else if IsMux(a) then NumericPair(b) && KeepsVal(m, a.left, b.left) && KeepsVal(m, a.right, b.right)
    else KeepsVal(m, a, b)
  }

  /** Putting better operands under an operator keeps its value. */
  lemma KeepsUnder(m: Math, t: Tree, l: Tree, r: Tree)
    requires Numeric(t) && KeepsPart(m, t.left, l) && KeepsPart(m, t.right, r)
    ensures KeepsVal(m, t, t.(left := l, right := r))
  {
    var s := t.(left := l, right := r);
    assert Operands(s.op.code) == Operands(t.op.code);
  }
}
