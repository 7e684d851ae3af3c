/** Passes that rewrite one node at a time, children first, and the cleanup pass. */
module ExprRewrite {
  import opened ExprTree
  import opened ExprReal
  import opened ExprPower

  // Where a node is: the turns from the root, true for right.
  type Path = seq<bool>

  // The walk with a visitor that may rewrite the node it gets.
  function Postorder(visit: (Tree, Path) -> Tree, t: Tree, path: Path): Tree {
    if t.Nil? then Nil
    else visit(t.(left := Postorder(visit, t.left, path + [false]), right := Postorder(visit, t.right, path + [true])), path)
  }

  // A visitor that keeps every value and leaves a MUX alone.
  ghost predicate KeepsValues(m: Math, visit: (Tree, Path) -> Tree) {
    && (forall t, path {:trigger visit(t, path)} :: Numeric(t) ==> KeepsVal(m, t, visit(t, path)))
    && (forall t, path {:trigger visit(t, path)} :: IsMux(t) ==> visit(t, path) == t)
  }

  lemma {:induction false} PostorderKeeps(m: Math, visit: (Tree, Path) -> Tree, t: Tree, path: Path)
    requires KeepsValues(m, visit) && NumericPart(t)
    ensures KeepsPart(m, t, Postorder(visit, t, path))
  {
    if t.Node? {
      PostorderKeeps(m, visit, t.left, path + [false]);
      PostorderKeeps(m, visit, t.right, path + [true]);
      if Numeric(t) {
        KeepsUnder(m, t, Postorder(visit, t.left, path + [false]), Postorder(visit, t.right, path + [true]));
      }
    }
  }

  // Whether the walk rewrote a node.
  predicate Rewrites(visit: (Tree, Path) -> Tree, t: Tree, path: Path) {
    t.Node? &&
    var l, r := Postorder(visit, t.left, path + [false]), Postorder(visit, t.right, path + [true]);
    var n := t.(left := l, right := r);
    Rewrites(visit, t.left, path + [false]) || Rewrites(visit, t.right, path + [true]) || visit(n, path) != n
  }

  // The visitor has nothing to do at any node of the tree.
  predicate Stays(visit: (Tree, Path) -> Tree, t: Tree, path: Path) {
    t.Nil? || (
      && Stays(visit, t.left, path + [false])
      && Stays(visit, t.right, path + [true])
      && visit(t, path) == t)
  }

  /** A walk that rewrites nothing leaves the tree as it is, and has nothing to do at any of its nodes. */
  lemma {:induction false} RewritesIff(visit: (Tree, Path) -> Tree, t: Tree, path: Path)
    ensures Rewrites(visit, t, path) <==> !Stays(visit, t, path)
    ensures Stays(visit, t, path) ==> Postorder(visit, t, path) == t
  {
    if t.Node? {
      RewritesIff(visit, t.left, path + [false]);
      RewritesIff(visit, t.right, path + [true]);
      if !Rewrites(visit, t.left, path + [false]) && !Rewrites(visit, t.right, path + [true]) {
        assert t.(left := Postorder(visit, t.left, path + [false]), right := Postorder(visit, t.right, path + [true])) == t;
      }
    }
  }

  predicate IsConstant(t: Tree) {
    t.Node? && t.op.code.Constant?
  }

  predicate IsNumber(t: Tree, x: real) {
    IsConstant(t) && t.op.imm == F(x)
  }

  predicate Is(t: Tree, code: OpCode) {
    t.Node? && t.op.code == code
  }

  // The node becomes the replacement but keeps its own number.
  function Replace(t: Tree, replacement: Tree): (r: Tree)
    requires t.Node? && replacement.Node?
    ensures r.Node?
  {
    replacement.(vn := t.vn)
  }

  function Make(code: OpCode, left: Tree, right: Tree): Tree {
    Node(Op(code, U(0)), -1, left, right)
  }

  function Const(x: real): Tree {
    Node(Op(Constant, F(x)), -1, Nil, Nil)
  }

  lemma ReplaceKeeps(m: Math, t: Tree, replacement: Tree)
    requires Numeric(replacement) && t.Node?
    ensures Numeric(Replace(t, replacement)) && Val(m, Replace(t, replacement)) == Val(m, replacement)
  {
  }

  // Values of the parts of a rule

  function ValOf(m: Math, code: OpCode, a: Value, b: Value): Value {
    Binary(m, Op(code, U(0)), a, b)
  }

  predicate IsArithmetic(code: OpCode) {
    code.Add? || code.Sub? || code.Mul? || code.Div? || code.Pow?
  }

  lemma BinaryVal(m: Math, t: Tree)
    requires Numeric(t) && IsArithmetic(t.op.code)
    ensures Numeric(t.left) && Numeric(t.right)
    ensures Val(m, t) == ValOf(m, t.op.code, Val(m, t.left), Val(m, t.right))
  {
  }

  lemma UnaryVal(m: Math, t: Tree)
    requires Numeric(t) && Operands(t.op.code) == 1
    ensures Numeric(t.left) && Val(m, t) == Unary(m, t.op.code, Val(m, t.left))
  {
  }

  lemma MakeVal(m: Math, code: OpCode, l: Tree, r: Tree)
    requires IsArithmetic(code) && Numeric(l) && Numeric(r)
    ensures Numeric(Make(code, l, r)) && Val(m, Make(code, l, r)) == ValOf(m, code, Val(m, l), Val(m, r))
  {
    var op := Op(code, U(0));
    ArithmeticOp(op);
    NodeVal(m, op, l, r);
  }

  lemma ArithmeticOp(op: Op)
    requires IsArithmetic(op.code) && op.imm == U(0)
    ensures NumericOp(op) && Operands(op.code) == 2
  {
  }

  lemma NodeVal(m: Math, op: Op, l: Tree, r: Tree)
    requires NumericOp(op) && Operands(op.code) == 2 && Numeric(l) && Numeric(r)
    ensures Numeric(Node(op, -1, l, r)) && Val(m, Node(op, -1, l, r)) == Binary(m, op, Val(m, l), Val(m, r))
  {
  }

  lemma NumberVal(m: Math, t: Tree, x: real)
    requires Numeric(t) && IsNumber(t, x)
    ensures Val(m, t) == Defined(x)
  {
  }

  // Cleanup

  // x + 0 and x - 0
  function DropZero(t: Tree): Tree {
    if (Is(t, Add) || Is(t, Sub)) && IsNumber(t.right, 0.0) && t.left.Node? then Replace(t, t.left) else t
  }

  // x * 1 and x / 1
  function DropOne(t: Tree): Tree {
    if (Is(t, Mul) || Is(t, Div)) && IsNumber(t.right, 1.0) && t.left.Node? then Replace(t, t.left) else t
  }

  // x ** 1
  function DropPower(t: Tree): Tree {
    if Is(t, Pow) && IsNumber(t.right, 1.0) && t.left.Node? then Replace(t, t.left) else t
  }

  function CleanupNode(t: Tree): Tree {
    DropPower(DropOne(DropZero(t)))
  }

  function CleanupVisitor(): (Tree, Path) -> Tree {
    (n, path) => CleanupNode(n)
  }

  function Cleanup(t: Tree): Tree {
    Postorder(CleanupVisitor(), t, [])
  }

  lemma PowerOne(m: Math, x: real)
    requires Lawful(m)
    ensures m.power(x, 1.0) == Defined(x)
  {
    PowerAt(m, x, 1.0);
    assert Power(x, 1) == x * Power(x, 0);
  }

  lemma CleanupNodeKeeps(m: Math, t: Tree)
    requires Lawful(m) && Numeric(t)
    ensures KeepsVal(m, t, CleanupNode(t))
  {
    DropZeroKeeps(m, t);
    DropOneKeeps(m, DropZero(t));
    DropPowerKeeps(m, DropOne(DropZero(t)));
  }

  lemma DropZeroKeeps(m: Math, t: Tree)
    requires Numeric(t)
    ensures KeepsVal(m, t, DropZero(t))
  {
  }

  lemma DropOneKeeps(m: Math, t: Tree)
    requires Numeric(t)
    ensures KeepsVal(m, t, DropOne(t))
  {
    if DropOne(t) != t {
      BinaryVal(m, t);
      NumberVal(m, t.right, 1.0);
      ReplaceKeeps(m, t, t.left);
      OneValue(m, Val(m, t.left));
    }
  }

  lemma OneValue(m: Math, a: Value)
    ensures ValOf(m, Mul, a, Defined(1.0)) == a && ValOf(m, Div, a, Defined(1.0)) == a
  {
  }

  lemma DropPowerKeeps(m: Math, t: Tree)
    requires Lawful(m) && Numeric(t)
    ensures KeepsVal(m, t, DropPower(t))
  {
    if DropPower(t) != t && Val(m, t.left).Defined? { PowerOne(m, Val(m, t.left).value); }
  }

  /** The cleanup pass keeps the value of the tree. */
  lemma CleanupKeeps(m: Math, t: Tree)
    requires Lawful(m) && Numeric(t)
    ensures KeepsVal(m, t, Cleanup(t))
  {
    forall n, path | Numeric(n) ensures KeepsVal(m, n, CleanupVisitor()(n, path)) {
      CleanupNodeKeeps(m, n);
    }
    PostorderKeeps(m, CleanupVisitor(), t, []);
  }

  // A node that adds or subtracts zero, multiplies or divides by one, or raises to one.
  predicate HasNeutral(t: Tree) {
    || ((Is(t, Add) || Is(t, Sub)) && IsNumber(t.right, 0.0))
    || ((Is(t, Mul) || Is(t, Div) || Is(t, Pow)) && IsNumber(t.right, 1.0))
  }

  predicate NoNeutral(t: Tree) {
    t.Nil? || (!HasNeutral(t) && NoNeutral(t.left) && NoNeutral(t.right))
  }

  lemma CleanupNodeIsClean(t: Tree)
    requires t.Node? && NoNeutral(t.left) && NoNeutral(t.right) && (HasNeutral(t) ==> t.left.Node?)
    ensures CleanupNode(t).Node? && NoNeutral(CleanupNode(t))
  {
  }

  lemma NeutralHasLeft(t: Tree, n: Tree)
    requires NumericPart(t) && t.Node? && n.Node? && n.op == t.op && HasNeutral(n)
    ensures t.left.Node?
  {
    assert Operands(t.op.code) == 2;
    assert Numeric(t.left);
  }

  lemma {:induction false} CleanupWalkIsClean(t: Tree, path: Path)
    requires NumericPart(t)
    ensures var r := Postorder(CleanupVisitor(), t, path); NoNeutral(r) && (t.Node? ==> r.Node?)
  {
    if t.Node? {
      CleanupWalkIsClean(t.left, path + [false]);
      CleanupWalkIsClean(t.right, path + [true]);
      var n := t.(left := Postorder(CleanupVisitor(), t.left, path + [false]),
                  right := Postorder(CleanupVisitor(), t.right, path + [true]));
      if HasNeutral(n) { NeutralHasLeft(t, n); }
      CleanupNodeIsClean(n);
      assert Postorder(CleanupVisitor(), t, path) == CleanupNode(n);
    }
  }

  /** One cleanup pass is enough: no neutral operand is left anywhere in the tree. */
  lemma CleanupIsClean(t: Tree)
    requires Numeric(t)
    ensures NoNeutral(Cleanup(t))
  {
    CleanupWalkIsClean(t, []);
  }
}
