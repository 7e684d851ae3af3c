/** The local pass: constant folding and rules that look at one node and what is directly below it. */
module ExprLocal {
  import opened ExprTree
  import opened ExprReal
  import opened ExprPower
  import opened ExprRewrite
  import opened ExprComparison

  predicate IsConstantExpr(t: Tree) {
    t.Nil? || (!IsLoad(t.op.code) && (IsConstant(t) || (IsConstantExpr(t.left) && IsConstantExpr(t.right))))
  }

  // An undefined constant folds to no number; any stands for it.
  function Fold(m: Math, t: Tree): Tree {
    if Numeric(t) && !IsConstant(t) && IsConstantExpr(t) then
      var v := Val(m, t);
      Replace(t, Const(if v.Defined? then v.value else 0.0))
    else t
  }

  function ConstantRight(t: Tree): Tree {
    if (Is(t, Add) || Is(t, Mul)) && IsConstant(t.left) && t.right.Node? && !IsConstant(t.right) then
      t.(left := t.right, right := t.left)
    else t
  }

  // x * 0 and 0 / x
  function ZeroProduct(t: Tree): Tree {
    if (Is(t, Mul) && IsNumber(t.right, 0.0)) || (Is(t, Div) && IsNumber(t.left, 0.0)) then Replace(t, Const(0.0)) else t
  }

  function RootAsPower(t: Tree): Tree {
    if Is(t, Sqrt) then t.(op := Op(Pow, U(0)), right := Const(0.5)) else t
  }

  // log(exp(x)) and exp(log(x))
  function LogExp(t: Tree): Tree {
    if ((Is(t, Log) && Is(t.left, Exp)) || (Is(t, Exp) && Is(t.left, Log))) && t.left.left.Node? then
      Replace(t, t.left.left)
    else t
  }

  // x ** 0
  function PowerZero(t: Tree): Tree {
    if Is(t, Pow) && IsNumber(t.right, 0.0) then Replace(t, Const(1.0)) else t
  }

  // (a ** b) ** c
  function PowerPower(t: Tree): Tree {
    if NestedPowers(t) then
      t.(left := Replace(t.left, t.left.left), right := Make(Mul, t.left.right, t.right))
    else t
  }

  predicate NestedPowers(t: Tree) {
    Is(t, Pow) && Is(t.left, Pow) && t.left.left.Node?
  }

  // A constant condition.
  function ChooseBranch(t: Tree): Tree {
    if HasBranches(t) && IsConstant(t.left) && t.left.op.imm.F? then
      Replace(t, if t.left.op.imm.f > 0.0 then t.right.left else t.right.right)
    else t
  }

  // The ternary with its branches swapped and another condition.
  function SwapBranches(t: Tree, condition: Tree): Tree
    requires HasBranches(t)
  {
    Node(t.op, t.vn, condition, t.right.(left := t.right.right, right := t.right.left))
  }

  function SetKind(t: Tree, kind: nat): Tree
    requires t.Node?
  {
    t.(op := Op(t.op.code, U(kind)))
  }

  // a <= b ? x : y and a >= b ? x : y
  function StrictCondition(t: Tree): Tree {
    if HasBranches(t) && IsComparisonOf(t.left) && (t.left.op.imm.u == LE || t.left.op.imm.u == NLT) then
      SwapBranches(t, SetKind(t.left, if t.left.op.imm.u == LE then NLE else LT))
    else t
  }

  // !a ? b : c
  function NotCondition(t: Tree): Tree {
    if HasBranches(t) && Is(t.left, Not) && t.left.left.Node? then
      SwapBranches(t, Replace(t.left, t.left.left))
    else t
  }

  function Negated(kind: nat): nat {
    if kind == EQ then NEQ
    else if kind == LT then NLT
    else if kind == LE then NLE
    else if kind == NEQ then EQ
    else if kind == NLT then LT
    else if kind == NLE then LE
    else kind
  }

  // !(a < b)
  function NotComparison(t: Tree): Tree {
    if Is(t, Not) && IsComparisonOf(t.left) then Replace(t, SetKind(t.left, Negated(t.left.op.imm.u))) else t
  }

  function Arithmetic(m: Math, t: Tree): Tree {
    PowerZero(LogExp(RootAsPower(ZeroProduct(ConstantRight(Fold(m, t))))))
  }

  function Conditions(t: Tree): Tree {
    NotComparison(NotCondition(StrictCondition(ChooseBranch(t))))
  }

  function LocalNode(m: Math, t: Tree): Tree {
    if IsMux(t) then t else Conditions(PowerPower(Arithmetic(m, t)))
  }

  function LocalVisitor(m: Math): (Tree, Path) -> Tree {
    (n, path) => LocalNode(m, n)
  }

  function Local(m: Math, t: Tree): Tree {
    Postorder(LocalVisitor(m), t, [])
  }

  // Arithmetic

  lemma FoldKeeps(m: Math, t: Tree)
    requires Numeric(t)
    ensures KeepsVal(m, t, Fold(m, t))
  {
  }

  lemma ConstantRightKeeps(m: Math, t: Tree)
    requires Numeric(t)
    ensures KeepsVal(m, t, ConstantRight(t))
  {
    if ConstantRight(t) != t {
      BinaryVal(m, t);
      BinaryVal(m, ConstantRight(t));
      Commute(m, t.op.code, Val(m, t.left), Val(m, t.right));
    }
  }

  lemma Commute(m: Math, code: OpCode, a: Value, b: Value)
    requires code.Add? || code.Mul?
    ensures ValOf(m, code, a, b) == ValOf(m, code, b, a)
  {
  }

  lemma ZeroProductKeeps(m: Math, t: Tree)
    requires Numeric(t)
    ensures KeepsVal(m, t, ZeroProduct(t))
  {
    if ZeroProduct(t) != t {
      BinaryVal(m, t);
      ZeroValue(m, Val(m, if Is(t, Mul) then t.left else t.right));
    }
  }

  lemma ZeroValue(m: Math, a: Value)
    ensures Keeps(ValOf(m, Mul, a, Defined(0.0)), Defined(0.0))
    ensures Keeps(ValOf(m, Div, Defined(0.0), a), Defined(0.0))
  {
  }

  lemma RootAsPowerKeeps(m: Math, t: Tree)
    requires Numeric(t)
    ensures KeepsVal(m, t, RootAsPower(t))
  {
    var r := RootAsPower(t);
    if r != t {
      assert r == Node(Op(Pow, U(0)), t.vn, t.left, Const(0.5));
      NumberVal(m, r.right, 0.5);
      BinaryVal(m, r);
      UnaryVal(m, t);
      RootValue(m, Val(m, t.left));
    }
  }

  lemma RootValue(m: Math, a: Value)
    ensures Unary(m, Sqrt, a) == ValOf(m, Pow, a, Defined(0.5))
  {
  }

  lemma LogExpKeeps(m: Math, t: Tree)
    requires LogLaw(m) && Numeric(t)
    ensures KeepsVal(m, t, LogExp(t))
  {
    if LogExp(t) != t {
      UnaryVal(m, t);
      UnaryVal(m, t.left);
      LogExpValue(m, Val(m, t.left.left));
      assert Keeps(Val(m, t), Val(m, t.left.left));
      ReplaceKeeps(m, t, t.left.left);
    }
  }

  lemma LogExpValue(m: Math, a: Value)
    requires LogLaw(m)
    ensures Keeps(Unary(m, Log, Unary(m, Exp, a)), a) && Keeps(Unary(m, Exp, Unary(m, Log, a)), a)
  {
  }

  lemma PowerZeroKeeps(m: Math, t: Tree)
    requires Lawful(m) && Numeric(t)
    ensures KeepsVal(m, t, PowerZero(t))
  {
    if PowerZero(t) != t {
      BinaryVal(m, t);
      NumberVal(m, t.right, 0.0);
      if Val(m, t.left).Defined? { PowerAt(m, Val(m, t.left).value, 0.0); }
    }
  }

  lemma ArithmeticKeeps(m: Math, t: Tree)
    requires Lawful(m) && Numeric(t)
    ensures KeepsVal(m, t, Arithmetic(m, t))
  {
    var t1 := Fold(m, t);
    FoldKeeps(m, t);
    var t2 := ConstantRight(t1);
    ConstantRightKeeps(m, t1);
    var t3 := ZeroProduct(t2);
    ZeroProductKeeps(m, t2);
    var t4 := RootAsPower(t3);
    RootAsPowerKeeps(m, t3);
    var t5 := LogExp(t4);
    LogExpKeeps(m, t4);
    PowerZeroKeeps(m, t5);
  }

  // A power of a power

  // Where the rule applies, no sign is lost.
  predicate PowersFine(m: Math, t: Tree) {
    if Numeric(t) && NestedPowers(t) then
      BinaryVal(m, t);
      BinaryVal(m, t.left);
      KeepsSign(Val(m, t.left.left), Val(m, t.left.right), Val(m, t.right))
    else true
  }

  predicate KeepsSign(a: Value, b: Value, c: Value) {
    a.Defined? && b.Defined? && c.Defined? ==> !LosesSign(a.value, b.value, MultipliedExponent(b.value, c.value))
  }

  function MultipliedExponent(y: real, z: real): real {
    y * z
  }

  /** The rule for nested powers keeps the value of its node exactly when no sign is lost. */
  lemma PowerPowerKeepsIff(m: Math, t: Tree)
    requires Lawful(m) && Numeric(t)
    ensures KeepsVal(m, t, PowerPower(t)) <==> PowersFine(m, t)
  {
    if NestedPowers(t) {
      PowerPowerShape(m, t);
      var a, b, c := Val(m, t.left.left), Val(m, t.left.right), Val(m, t.right);
      assert PowersFine(m, t) <==> KeepsSign(a, b, c);
      PowerPowerValue(m, Val(m, t.left.left), Val(m, t.left.right), Val(m, t.right));
    }
  }

  lemma PowerPowerShape(m: Math, t: Tree)
    requires Numeric(t) && NestedPowers(t)
    ensures Numeric(t.left) && Numeric(t.right) && Numeric(t.left.left) && Numeric(t.left.right)
    ensures var a, b, c := Val(m, t.left.left), Val(m, t.left.right), Val(m, t.right);
            && Val(m, t) == ValOf(m, Pow, ValOf(m, Pow, a, b), c)
            && Numeric(PowerPower(t)) && Val(m, PowerPower(t)) == ValOf(m, Pow, a, ValOf(m, Mul, b, c))
  {
    BinaryVal(m, t);
    BinaryVal(m, t.left);
    ReplaceKeeps(m, t.left, t.left.left);
    BinaryVal(m, Make(Mul, t.left.right, t.right));
    BinaryVal(m, PowerPower(t));
  }

  lemma PowerPowerValue(m: Math, a: Value, b: Value, c: Value)
    requires Lawful(m)
    ensures Keeps(ValOf(m, Pow, ValOf(m, Pow, a, b), c), ValOf(m, Pow, a, ValOf(m, Mul, b, c))) <==>
            KeepsSign(a, b, c)
  {
    if a.Defined? && b.Defined? && c.Defined? {
      var e := MultipliedExponent(b.value, c.value);
      PowerPowerIff(m, a.value, b.value, c.value, e);
      assert ValOf(m, Mul, b, c) == Defined(e);
      assert ValOf(m, Pow, a, Defined(e)) == m.power(a.value, e);
      assert ValOf(m, Pow, ValOf(m, Pow, a, b), c) == PowerTwice(m, a.value, b.value, c.value);
    }
  }

  // The square root of the square of a clip.
  function RootOfSquare(load: Op): Tree {
    Make(Sqrt, Square(load), Nil)
  }

  function Square(load: Op): Tree {
    Make(Pow, Node(load, -1, Nil, Nil), Const(2.0))
  }

  lemma RootOfSquareBecomes(m: Math, load: Op)
    requires IsLoad(load.code)
    ensures Arithmetic(m, RootOfSquare(load)) == Make(Pow, Square(load), Const(0.5))
    ensures LocalNode(m, RootOfSquare(load)) == PowerPower(Make(Pow, Square(load), Const(0.5)))
  {
    var t := RootOfSquare(load);
    assert !IsConstantExpr(t.left.left);
    assert !IsConstantExpr(t.left) && !IsConstantExpr(t);
    assert Fold(m, t) == t;
  }

  lemma SquareVal(m: Math, load: Op)
    requires IsLoad(load.code) && load.imm.U?
    ensures var a, p := Defined(m.load(load)), Make(Pow, Square(load), Const(0.5));
            && Numeric(RootOfSquare(load)) && Numeric(p) && NestedPowers(p)
            && Val(m, RootOfSquare(load)) == ValOf(m, Pow, ValOf(m, Pow, a, Defined(2.0)), Defined(0.5))
            && Numeric(PowerPower(p)) && Val(m, PowerPower(p)) == ValOf(m, Pow, a, ValOf(m, Mul, Defined(2.0), Defined(0.5)))
  {
    var x := Node(load, -1, Nil, Nil);
    var square, p := Square(load), Make(Pow, Square(load), Const(0.5));
    assert Numeric(x) && Val(m, x) == Defined(m.load(load));
    BinaryVal(m, square);
    UnaryVal(m, RootOfSquare(load));
    RootValue(m, Val(m, square));
    PowerPowerShape(m, p);
  }

  /** The square root of a square loses the sign: of -1 it is 1, and the rewritten tree gives something else. */
  lemma RootOfSquareFails(m: Math, load: Op)
    requires Lawful(m) && IsLoad(load.code) && load.imm.U? && m.load(load) == -1.0
    ensures Numeric(RootOfSquare(load)) && Val(m, RootOfSquare(load)) == Defined(1.0)
    ensures !KeepsVal(m, RootOfSquare(load), LocalNode(m, RootOfSquare(load)))
  {
    RootOfSquareBecomes(m, load);
    SquareVal(m, load);
    SquareOfMinusOne(m);
    PowerPowerValue(m, Defined(-1.0), Defined(2.0), Defined(0.5));
  }

  lemma SquareOfMinusOne(m: Math)
    requires Lawful(m)
    ensures ValOf(m, Pow, ValOf(m, Pow, Defined(-1.0), Defined(2.0)), Defined(0.5)) == Defined(1.0)
    ensures !KeepsSign(Defined(-1.0), Defined(2.0), Defined(0.5))
  {
    PowerOfNegative(m, -1.0, 2.0);
    PowerOfOne(m, 2.0);
    PowerOfOne(m, 0.5);
  }

  // Conditions

  lemma ChooseBranchKeeps(m: Math, t: Tree)
    requires Numeric(t)
    ensures KeepsVal(m, t, ChooseBranch(t))
  {
    if ChooseBranch(t) != t {
      TernaryVal(m, t);
      ReplaceKeeps(m, t, t.right.left);
      ReplaceKeeps(m, t, t.right.right);
    }
  }

  lemma StrictConditionKeeps(m: Math, t: Tree)
    requires Numeric(t)
    ensures KeepsVal(m, t, StrictCondition(t))
  {
    if StrictCondition(t) != t {
      var kind := t.left.op.imm.u;
      var c := SetKind(t.left, if kind == LE then NLE else LT);
      TernaryVal(m, t);
      TwoVal(m, t.left);
      TwoVal(m, c);
      TernaryVal(m, SwapBranches(t, c));
      StrictValue(m, Val(m, t.left.left), Val(m, t.left.right));
      OtherBranch(m, Val(m, t.left), Val(m, c), Val(m, t.right.left), Val(m, t.right.right));
    }
  }

  // Conditions of opposite signs.
  predicate OppositeSign(a: Value, b: Value) {
    a.Defined? ==> b.Defined? && (Truth(a.value) <==> !Truth(b.value))
  }

  lemma StrictValue(m: Math, a: Value, b: Value)
    ensures OppositeSign(Binary(m, Op(Cmp, U(LE)), a, b), Binary(m, Op(Cmp, U(NLE)), a, b))
    ensures OppositeSign(Binary(m, Op(Cmp, U(NLT)), a, b), Binary(m, Op(Cmp, U(LT)), a, b))
  {
  }

  lemma OtherBranch(m: Math, c: Value, d: Value, x: Value, y: Value)
    requires OppositeSign(c, d)
    ensures Keeps(Triple(m, Op(Ternary, U(0)), c, x, y), Triple(m, Op(Ternary, U(0)), d, y, x))
  {
  }

  lemma NotValue(m: Math, a: Value)
    ensures OppositeSign(Unary(m, Not, a), a)
  {
  }

  lemma NotConditionKeeps(m: Math, t: Tree)
    requires Numeric(t)
    ensures KeepsVal(m, t, NotCondition(t))
  {
    if NotCondition(t) != t {
      var c := Replace(t.left, t.left.left);
      TernaryVal(m, t);
      UnaryVal(m, t.left);
      ReplaceKeeps(m, t.left, t.left.left);
      TernaryVal(m, SwapBranches(t, c));
      NotValue(m, Val(m, t.left.left));
      OtherBranch(m, Val(m, t.left), Val(m, c), Val(m, t.right.left), Val(m, t.right.right));
    }
  }

  lemma NotComparisonKeeps(m: Math, t: Tree)
    requires Numeric(t)
    ensures KeepsVal(m, t, NotComparison(t))
  {
    if NotComparison(t) != t {
      var c := SetKind(t.left, Negated(t.left.op.imm.u));
      TwoVal(m, t.left);
      TwoVal(m, c);
      UnaryVal(m, t);
      ReplaceKeeps(m, t, c);
      NegatedValue(m, t.left.op.imm.u, Val(m, t.left.left), Val(m, t.left.right));
    }
  }

  lemma NegatedValue(m: Math, kind: nat, a: Value, b: Value)
    requires IsComparison(kind)
    ensures IsComparison(Negated(kind))
    ensures Unary(m, Not, Binary(m, Op(Cmp, U(kind)), a, b)) == Binary(m, Op(Cmp, U(Negated(kind))), a, b)
  {
  }

  lemma ConditionsKeep(m: Math, t: Tree)
    requires Numeric(t)
    ensures KeepsVal(m, t, Conditions(t))
  {
    var t1 := ChooseBranch(t);
    ChooseBranchKeeps(m, t);
    var t2 := StrictCondition(t1);
    StrictConditionKeeps(m, t1);
    var t3 := NotCondition(t2);
    NotConditionKeeps(m, t2);
    NotComparisonKeeps(m, t3);
  }

  /** All the rules of a node together keep its value, if the rule for nested powers loses no sign. */
  lemma LocalNodeKeeps(m: Math, t: Tree)
    requires Lawful(m) && Numeric(t) && PowersFine(m, Arithmetic(m, t))
    ensures KeepsVal(m, t, LocalNode(m, t))
  {
    var t1 := Arithmetic(m, t);
    ArithmeticKeeps(m, t);
    var t2 := PowerPower(t1);
    PowerPowerKeepsIff(m, t1);
    ConditionsKeep(m, t2);
  }

  // At no node of the walk a sign is lost.
  ghost predicate WalkFine(m: Math, t: Tree, path: Path) {
    t.Nil? || (
      && WalkFine(m, t.left, path + [false])
      && WalkFine(m, t.right, path + [true])
      && PowersFine(m, Arithmetic(m, Rewritten(m, t, path))))
  }

  // The node as the walk meets it, its children already rewritten.
  function Rewritten(m: Math, t: Tree, path: Path): Tree
    requires t.Node?
  {
    t.(left := Postorder(LocalVisitor(m), t.left, path + [false]), right := Postorder(LocalVisitor(m), t.right, path + [true]))
  }

  lemma {:induction false} LocalWalkKeeps(m: Math, t: Tree, path: Path)
    requires Lawful(m) && NumericPart(t) && WalkFine(m, t, path)
    ensures KeepsPart(m, t, Postorder(LocalVisitor(m), t, path))
  {
    if t.Node? {
      LocalWalkKeeps(m, t.left, path + [false]);
      LocalWalkKeeps(m, t.right, path + [true]);
      var n := Rewritten(m, t, path);
      assert Postorder(LocalVisitor(m), t, path) == LocalNode(m, n);
      if Numeric(t) {
        KeepsUnder(m, t, n.left, n.right);
        LocalNodeKeeps(m, n);
      }
    }
  }

  /** The local pass keeps the value of the tree, if it multiplies no exponents that lose a sign. */
  lemma LocalKeeps(m: Math, t: Tree)
    requires Lawful(m) && Numeric(t) && WalkFine(m, t, [])
    ensures KeepsVal(m, t, Local(m, t))
  {
    LocalWalkKeeps(m, t, []);
  }
}
