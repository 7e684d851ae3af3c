/** The comparison pass. Turning a comparison into a difference changes its value but not its sign, and it is done
    only where the sign is all that is used. */
module ExprComparison {
  import opened ExprTree
  import opened ExprValueNumber
  import opened ExprReal
  import opened ExprRewrite

  datatype Visit = Visit(node: Tree, changed: bool)

  // Operators that use only the sign of what is directly below them (a ternary that of its condition).
  predicate IsLogic(code: OpCode) {
    code.And? || code.Or? || code.Xor? || code.Ternary?
  }

  // The two branches of a ternary.
  predicate HasBranches(t: Tree) {
    Is(t, Ternary) && t.left.Node? && t.right.Node? && t.right.left.Node? && t.right.right.Node?
  }

  predicate IsComparisonOf(t: Tree) {
    Is(t, Cmp) && t.op.imm.U? && t.left.Node? && t.right.Node?
  }

  // The comparison is of the two branches, in either order.
  predicate SameTerms(t: Tree)
    requires HasBranches(t) && IsComparisonOf(t.left)
  {
    var a, b := t.left.left.vn, t.left.right.vn;
    var x, y := t.right.left.vn, t.right.right.vn;
    (a == x && b == y) || (a == y && b == x)
  }

  predicate IsMinimum(t: Tree)
    requires HasBranches(t) && IsComparisonOf(t.left)
  {
    var first := t.left.left.vn == t.right.left.vn;
    if t.left.op.imm.u == LT || t.left.op.imm.u == LE then first else !first
  }

  // The rules in the order a node meets them; the first that applies ends the visit.
  function ComparisonNode(t: Tree, underLogic: bool): Visit {
    if IsComparisonOf(t) && t.left.vn == t.right.vn then
      var kind := t.op.imm.u;
      Visit(Replace(t, Const(if kind == EQ || kind == LE || kind == NLT then 1.0 else 0.0)), true)
    else if HasBranches(t) && t.right.left.vn == t.right.right.vn then
      Visit(Replace(t, t.right.left), true)
    else if HasBranches(t) && IsComparisonOf(t.left) && SameTerms(t) && t.left.op.imm.u != EQ && t.left.op.imm.u != NEQ then
      Visit(Node(Op(if IsMinimum(t) then Min else Max, U(0)), t.vn, t.left.left, t.left.right), true)
    else if IsComparisonOf(t) && underLogic && t.op.imm.u == LT then
      Visit(Node(Op(Sub, U(0)), t.vn, t.right, t.left), true)
    else if IsComparisonOf(t) && underLogic && t.op.imm.u == NLE then
      Visit(Node(Op(Sub, U(0)), t.vn, t.left, t.right), true)
    else Visit(t, false)
  }

  // The preorder walk goes below a node only if the node stayed as it was.
  function ComparisonWalk(t: Tree, underLogic: bool): Tree {
    if t.Nil? then Nil
    else
      var visit := ComparisonNode(t, underLogic);
      if visit.changed then visit.node
      else t.(left := ComparisonWalk(t.left, IsLogic(t.op.code)), right := ComparisonWalk(t.right, IsLogic(t.op.code)))
  }

  function Comparisons(t: Tree): Tree {
    ComparisonWalk(ExprValueNumber.Number(t, []).0, false)
  }

  predicate SameSign(a: Value, b: Value) {
    a.Defined? ==> b.Defined? && (Truth(a.value) <==> Truth(b.value))
  }

  // What is kept of a part: under a logical operator the sign of its value, elsewhere the value.
  ghost predicate KeepsUse(m: Math, a: Tree, b: Tree, underLogic: bool)
    requires NumericPart(a)
  {
    if underLogic && Numeric(a) then Numeric(b) && SameSign(Val(m, a), Val(m, b)) else KeepsPart(m, a, b)
  }

  /** Logical operators see only signs. */
  lemma KeepsUseUnder(m: Math, t: Tree, l: Tree, r: Tree)
    requires Numeric(t) && KeepsUse(m, t.left, l, IsLogic(t.op.code)) && KeepsUse(m, t.right, r, IsLogic(t.op.code))
    ensures KeepsVal(m, t, t.(left := l, right := r))
  {
    if !IsLogic(t.op.code) {
      KeepsUnder(m, t, l, r);
    } else if t.op.code.Ternary? {
      TernaryUnder(m, t, l, r);
    } else {
      LogicUnder(m, t, l, r);
    }
  }

  lemma TernaryUnder(m: Math, t: Tree, l: Tree, r: Tree)
    requires Numeric(t) && t.op.code.Ternary? && Numeric(l) && SameSign(Val(m, t.left), Val(m, l))
    requires KeepsPart(m, t.right, r)
    ensures KeepsVal(m, t, t.(left := l, right := r))
  {
    TernaryVal(m, t);
    TernaryVal(m, t.(left := l, right := r));
  }

  lemma LogicUnder(m: Math, t: Tree, l: Tree, r: Tree)
    requires Numeric(t) && (t.op.code.And? || t.op.code.Or? || t.op.code.Xor?) && Numeric(l) && Numeric(r)
    requires SameSign(Val(m, t.left), Val(m, l)) && SameSign(Val(m, t.right), Val(m, r))
    ensures KeepsVal(m, t, t.(left := l, right := r))
  {
    TwoVal(m, t);
    TwoVal(m, t.(left := l, right := r));
    LogicValue(m, t.op, Val(m, t.left), Val(m, t.right), Val(m, l), Val(m, r));
  }

  lemma LogicValue(m: Math, op: Op, a: Value, b: Value, c: Value, d: Value)
    requires (op.code.And? || op.code.Or? || op.code.Xor?) && SameSign(a, c) && SameSign(b, d)
    ensures Keeps(Binary(m, op, a, b), Binary(m, op, c, d))
  {
  }

  // The value of a node from those of its operands.
  lemma TwoVal(m: Math, t: Tree)
    requires t.Node? && NumericOp(t.op) && Operands(t.op.code) == 2 && Numeric(t.left) && Numeric(t.right)
    ensures Numeric(t) && Val(m, t) == Binary(m, t.op, Val(m, t.left), Val(m, t.right))
  {
  }

  lemma TernaryVal(m: Math, t: Tree)
    requires t.Node? && NumericOp(t.op) && t.op.code.Ternary? && Numeric(t.left) && NumericPair(t.right)
    ensures Numeric(t)
    ensures Val(m, t) == Triple(m, Op(Ternary, U(0)), Val(m, t.left), Val(m, t.right.left), Val(m, t.right.right))
  {
  }

  /** Equal numbers mean equal values. */
  lemma SameNumberSameValue(m: Math, numbered: seq<Tree>, a: Tree, b: Tree)
    requires Canonical(numbered) && Faithful(a, numbered) && Faithful(b, numbered) && Numeric(a) && Numeric(b)
    requires a.vn == b.vn
    ensures Val(m, a) == Val(m, b)
  {
    ValStrip(m, a, b);
  }

  lemma FoldKeeps(m: Math, numbered: seq<Tree>, t: Tree)
    requires Canonical(numbered) && Faithful(t, numbered) && Numeric(t) && IsComparisonOf(t) && t.left.vn == t.right.vn
    ensures KeepsVal(m, t, ComparisonNode(t, false).node)
  {
    SameNumberSameValue(m, numbered, t.left, t.right);
  }

  lemma BranchesKeep(m: Math, numbered: seq<Tree>, t: Tree)
    requires Canonical(numbered) && Faithful(t, numbered) && Numeric(t) && HasBranches(t)
    requires t.right.left.vn == t.right.right.vn
    ensures KeepsVal(m, t, Replace(t, t.right.left))
  {
    SameNumberSameValue(m, numbered, t.right.left, t.right.right);
    ReplaceKeeps(m, t, t.right.left);
  }

  lemma MinMaxKeeps(m: Math, numbered: seq<Tree>, t: Tree)
    requires Canonical(numbered) && Faithful(t, numbered) && Numeric(t) && HasBranches(t) && IsComparisonOf(t.left)
    requires SameTerms(t) && t.left.op.imm.u != EQ && t.left.op.imm.u != NEQ
    requires t.right.left.vn != t.right.right.vn
    ensures KeepsVal(m, t, Node(Op(if IsMinimum(t) then Min else Max, U(0)), t.vn, t.left.left, t.left.right))
  {
    var a, b := t.left.left, t.left.right;
    var x, y := t.right.left, t.right.right;
    TernaryVal(m, t);
    TwoVal(m, t.left);
    TwoVal(m, Node(Op(if IsMinimum(t) then Min else Max, U(0)), t.vn, a, b));
    if a.vn == x.vn {
      SameNumberSameValue(m, numbered, a, x);
      SameNumberSameValue(m, numbered, b, y);
    } else {
      SameNumberSameValue(m, numbered, a, y);
      SameNumberSameValue(m, numbered, b, x);
    }
    MinMaxValue(m, t.left.op.imm.u, Val(m, a), Val(m, b));
  }

  lemma MinMaxValue(m: Math, kind: nat, a: Value, b: Value)
    requires IsComparison(kind) && kind != EQ && kind != NEQ
    ensures var less := kind == LT || kind == LE;
            var compared := Binary(m, Op(Cmp, U(kind)), a, b);
            && Keeps(Triple(m, Op(Ternary, U(0)), compared, a, b), Binary(m, Op(if less then Min else Max, U(0)), a, b))
            && Keeps(Triple(m, Op(Ternary, U(0)), compared, b, a), Binary(m, Op(if less then Max else Min, U(0)), a, b))
  {
  }

  lemma DifferenceKeepsSign(m: Math, t: Tree, underLogic: bool)
    requires Numeric(t) && IsComparisonOf(t) && t.left.vn != t.right.vn
    ensures KeepsUse(m, t, ComparisonNode(t, underLogic).node, underLogic)
  {
    if underLogic && (t.op.imm.u == LT || t.op.imm.u == NLE) {
      TwoVal(m, t);
      TwoVal(m, ComparisonNode(t, underLogic).node);
      DifferenceSign(m, Val(m, t.left), Val(m, t.right));
    }
  }

  lemma DifferenceSign(m: Math, a: Value, b: Value)
    ensures SameSign(Binary(m, Op(Cmp, U(LT)), a, b), Binary(m, Op(Sub, U(0)), b, a))
    ensures SameSign(Binary(m, Op(Cmp, U(NLE)), a, b), Binary(m, Op(Sub, U(0)), a, b))
  {
  }

  /** A node that was visited keeps its value, or its sign where only that is used. */
  lemma ComparisonNodeKeeps(m: Math, numbered: seq<Tree>, t: Tree, underLogic: bool)
    requires Canonical(numbered) && Faithful(t, numbered) && Numeric(t)
    ensures KeepsUse(m, t, ComparisonNode(t, underLogic).node, underLogic)
  {
    if IsComparisonOf(t) {
      if t.left.vn == t.right.vn { FoldKeeps(m, numbered, t); } else { DifferenceKeepsSign(m, t, underLogic); }
    } else if HasBranches(t) && t.right.left.vn == t.right.right.vn {
      BranchesKeep(m, numbered, t);
    } else if HasBranches(t) && IsComparisonOf(t.left) && SameTerms(t) && t.left.op.imm.u != EQ && t.left.op.imm.u != NEQ {
      MinMaxKeeps(m, numbered, t);
    }
  }

  lemma {:induction false} ComparisonWalkKeeps(m: Math, numbered: seq<Tree>, t: Tree, underLogic: bool)
    requires Canonical(numbered) && Faithful(t, numbered) && NumericPart(t)
    ensures KeepsUse(m, t, ComparisonWalk(t, underLogic), underLogic)
  {
    if t.Node? {
      if Numeric(t) { ComparisonNodeKeeps(m, numbered, t, underLogic); }
      if !ComparisonNode(t, underLogic).changed {
        ComparisonWalkKeeps(m, numbered, t.left, IsLogic(t.op.code));
        ComparisonWalkKeeps(m, numbered, t.right, IsLogic(t.op.code));
        if Numeric(t) {
          KeepsUseUnder(m, t, ComparisonWalk(t.left, IsLogic(t.op.code)), ComparisonWalk(t.right, IsLogic(t.op.code)));
        }
      }
    }
  }

  /** The comparison pass keeps the value of the root. */
  lemma ComparisonsKeep(m: Math, t: Tree)
    requires Numeric(t)
    ensures KeepsVal(m, t, Comparisons(t))
  {
    NumericIsWellFormed(t);
    NumberIsFaithful(t, []);
    var (r, n) := ExprValueNumber.Number(t, []);
    ValStrip(m, r, t);
    ComparisonWalkKeeps(m, n, r, false);
  }

  /** It does not keep the value of every subtree: below a logical operator 1 < 3 becomes 3 - 1. */
  lemma SubtreeValueChanges(m: Math)
    ensures var t := Node(Op(Cmp, U(LT)), -1, Const(1.0), Const(3.0));
            var s := ComparisonWalk(t.(left := t.left.(vn := 0), right := t.right.(vn := 1)), true);
            Numeric(t) && Numeric(s) && Val(m, t) == Defined(1.0) && Val(m, s) == Defined(2.0)
  {
  }
}
