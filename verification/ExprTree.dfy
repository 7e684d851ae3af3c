/** The expression trees of the Expr filter and the meaning of a tree, for any meaning of its operators. */
module ExprTree {

  datatype OpCode =
    | MemLoadU8 | MemLoadU16 | MemLoadF16 | MemLoadF32
    | Constant
    | MemStoreU8 | MemStoreU16 | MemStoreF16 | MemStoreF32
    | Add | Sub | Mul | Div | Fma | Sqrt | Abs | Neg | Max | Min | Cmp
    | And | Or | Xor | Not
    | Exp | Log | Pow | Sin | Cos
    | Ternary
    | Mux
    | Dup | Swap

  // The immediate of an operator: a code, an index or a number. Every pass but the arithmetic rewrites
  // only compares immediates, so there an `F` stands for any bit pattern.
  datatype Imm = U(u: nat) | F(f: real)

  datatype Op = Op(code: OpCode, imm: Imm)

  // `vn` is the value number, -1 before numbering. A missing child is `Nil`.
  datatype Tree = Nil | Node(op: Op, vn: int, left: Tree, right: Tree)

  datatype Error = UndefinedClip | InsufficientValues | EmptyExpression | UnconsumedValues

  datatype Result<+T> = Ok(value: T) | Err(error: Error)

  // How many operands an operator takes off the stack.
  function Operands(code: OpCode): (n: nat)
    ensures n <= 3
  {
    match code
    case Add | Sub | Mul | Div | Max | Min | Cmp | And | Or | Xor | Pow => 2
    case Sqrt | Abs | Neg | Not | Exp | Log | Sin | Cos => 1
    case Fma | Ternary => 3
    case _ => 0
  }

  predicate IsStore(code: OpCode) {
    code.MemStoreU8? || code.MemStoreU16? || code.MemStoreF16? || code.MemStoreF32?
  }

  // Operators that a finished tree evaluates (a MUX only groups two branches).
  predicate IsValueOp(code: OpCode) {
    !IsStore(code) && !code.Mux? && !code.Dup? && !code.Swap?
  }

  // The shape every pass keeps: as many children as operands, and the last two of three under a MUX.
  predicate WellFormed(t: Tree) {
    && t.Node?
    && IsValueOp(t.op.code)
    && match Operands(t.op.code)
       case 0 => t.left.Nil? && t.right.Nil?
       case 1 => WellFormed(t.left) && t.right.Nil?
       case 2 => WellFormed(t.left) && WellFormed(t.right)
       case _ => WellFormed(t.left) && IsMux(t.right) && WellFormed(t.right.left) && WellFormed(t.right.right)
  }

  predicate IsMux(t: Tree) {
    t.Node? && t.op.code.Mux?
  }

  // A well-formed tree, or the MUX that holds two of them, or nothing: what a postorder walk can meet.
  predicate Walkable(t: Tree) {
    t.Nil? || WellFormed(t) || (IsMux(t) && WellFormed(t.left) && WellFormed(t.right))
  }

  function Eval<V>(sem: (Op, seq<V>) -> V, t: Tree): V
    requires WellFormed(t)
  {
    sem(t.op, match Operands(t.op.code)
              case 0 => []
              case 1 => [Eval(sem, t.left)]
              case 2 => [Eval(sem, t.left), Eval(sem, t.right)]
              case _ => [Eval(sem, t.left), Eval(sem, t.right.left), Eval(sem, t.right.right)])
  }

  // The tree without its value numbers: two trees are structurally identical when these are equal.
  function Strip(t: Tree): Tree {
    if t.Nil? then Nil else Node(t.op, -1, Strip(t.left), Strip(t.right))
  }

  lemma {:induction false} StripKeepsShape(t: Tree)
    ensures WellFormed(t) <==> WellFormed(Strip(t))
    ensures Walkable(t) <==> Walkable(Strip(t))
  {
    if t.Node? {
      StripKeepsShape(t.left);
      StripKeepsShape(t.right);
      if t.right.Node? {
        StripKeepsShape(t.right.left);
        StripKeepsShape(t.right.right);
      }
    }
  }

  lemma {:induction false} StripTwice(t: Tree)
    ensures Strip(Strip(t)) == Strip(t)
  {
    if t.Node? {
      StripTwice(t.left);
      StripTwice(t.right);
    }
  }

  /** The value of a tree does not depend on its value numbers. */
  lemma {:induction false} EvalStrip<V>(sem: (Op, seq<V>) -> V, t: Tree)
    requires WellFormed(t)
    ensures WellFormed(Strip(t)) && Eval(sem, Strip(t)) == Eval(sem, t)
  {
    StripKeepsShape(t);
    if Operands(t.op.code) >= 1 { EvalStrip(sem, t.left); }
    if Operands(t.op.code) == 2 { EvalStrip(sem, t.right); }
    if Operands(t.op.code) == 3 {
      EvalStrip(sem, t.right.left);
      EvalStrip(sem, t.right.right);
    }
  }
}
