/** What the local pass leaves behind. */
module ExprNormalLocal {
  import opened ExprTree
  import opened ExprValueNumber
  import opened ExprReal
  import opened ExprPower
  import opened ExprRewrite
  import opened ExprComparison
  import opened ExprLocal
  import opened ExprNormal

  // A sample is read somewhere in the tree.
  predicate ReadsClips(t: Tree) {
    t.Node? && (IsLoad(t.op.code) || ReadsClips(t.left) || ReadsClips(t.right))
  }

  lemma {:induction false} ConstantExprIff(t: Tree)
    requires NumericPart(t)
    ensures IsConstantExpr(t) <==> !ReadsClips(t)
  {
    if t.Node? {
      ConstantExprIff(t.left);
      ConstantExprIff(t.right);
    }
  }

  // What the pass looks for, in the order it does.

  predicate IsFoldable(t: Tree) {
    t.Node? && !IsMux(t) && !IsConstant(t) && !ReadsClips(t)
  }

  predicate HasConstantLeft(t: Tree) {
    (Is(t, Add) || Is(t, Mul)) && IsConstant(t.left) && !IsConstant(t.right)
  }

  predicate IsZeroTimes(t: Tree) {
    (Is(t, Mul) && IsNumber(t.right, 0.0)) || (Is(t, Div) && IsNumber(t.left, 0.0))
  }

  predicate IsLogExp(t: Tree) {
    (Is(t, Log) && Is(t.left, Exp)) || (Is(t, Exp) && Is(t.left, Log))
  }

  predicate IsPowerOfPower(t: Tree) {
    Is(t, Pow) && (IsNumber(t.right, 0.0) || Is(t.left, Pow))
  }

  predicate IsPlainCondition(t: Tree) {
    Is(t, Ternary) && (
      || IsConstant(t.left)
      || (Is(t.left, Cmp) && (t.left.op.imm == U(LE) || t.left.op.imm == U(NLT)))
      || Is(t.left, Not))
  }

  predicate IsNotComparison(t: Tree) {
    Is(t, Not) && Is(t.left, Cmp)
  }

  predicate IsLocal(t: Tree) {
    || IsFoldable(t) || HasConstantLeft(t) || IsZeroTimes(t) || Is(t, Sqrt) || IsLogExp(t) || IsPowerOfPower(t)
    || IsPlainCondition(t) || IsNotComparison(t)
  }

  predicate NoneLocal(t: Tree) {
    t.Nil? || (!IsLocal(t) && NoneLocal(t.left) && NoneLocal(t.right))
  }

  // A node with none of these stays.
  lemma StaysWithout(m: Math, t: Tree)
    requires Numeric(t) && !IsLocal(t)
    ensures LocalNode(m, t) == t
  {
    ConstantExprIff(t);
    ArithmeticStays(m, t);
    assert PowerPower(t) == t;
    ConditionsStay(t);
  }

  lemma ArithmeticStays(m: Math, t: Tree)
    requires !IsLocal(t) && Fold(m, t) == t
    ensures Arithmetic(m, t) == t
  {
    assert ConstantRight(t) == t && ZeroProduct(t) == t && RootAsPower(t) == t;
    assert LogExp(t) == t && PowerZero(t) == t;
  }

  lemma ConditionsStay(t: Tree)
    requires !IsLocal(t)
    ensures Conditions(t) == t
  {
    assert ChooseBranch(t) == t && StrictCondition(t) == t && NotCondition(t) == t && NotComparison(t) == t;
  }

  // A constant is the end of all rules.
  lemma ConstantStays(m: Math, t: Tree)
    requires IsConstant(t)
    ensures Conditions(PowerPower(PowerZero(LogExp(RootAsPower(ZeroProduct(ConstantRight(t))))))) == t
    ensures Conditions(PowerPower(PowerZero(LogExp(RootAsPower(t))))) == t
  {
  }

  lemma FoldRewrites(m: Math, t: Tree)
    requires Numeric(t) && IsFoldable(t)
    ensures IsConstant(LocalNode(m, t)) && LocalNode(m, t) != t
  {
    ConstantExprIff(t);
    ConstantStays(m, Fold(m, t));
  }

  // The rules from powers of zero on make no tree larger.
  lemma PowerZeroShrinks(t: Tree)
    ensures Size(PowerZero(t)) <= Size(t)
  {
  }

  lemma PowerPowerSize(t: Tree)
    ensures Size(PowerPower(t)) <= Size(t)
  {
    if NestedPowers(t) {
      assert Size(t) == 1 + Size(t.left) + Size(t.right);
      assert Size(Replace(t.left, t.left.left)) == Size(t.left.left);
    }
  }

  lemma SwapBranchesSize(t: Tree, condition: Tree)
    requires HasBranches(t) && Size(condition) <= Size(t.left)
    ensures Size(SwapBranches(t, condition)) <= Size(t)
    ensures Size(condition) < Size(t.left) ==> Size(SwapBranches(t, condition)) < Size(t)
  {
    var mux := t.right.(left := t.right.right, right := t.right.left);
    assert Size(mux) == Size(t.right);
  }

  lemma ReplaceSize(t: Tree, r: Tree)
    requires t.Node? && r.Node?
    ensures Size(Replace(t, r)) == Size(r)
  {
  }

  lemma ChooseShrinks(t: Tree)
    ensures ChooseBranch(t) == t || Size(ChooseBranch(t)) < Size(t)
  {
    if ChooseBranch(t) != t {
      ReplaceSize(t, t.right.left);
      ReplaceSize(t, t.right.right);
    }
  }

  lemma StrictSize(t: Tree)
    ensures Size(StrictCondition(t)) <= Size(t)
  {
    if StrictCondition(t) != t {
      SwapBranchesSize(t, SetKind(t.left, if t.left.op.imm.u == LE then NLE else LT));
    }
  }

  lemma NotConditionShrinks(t: Tree)
    ensures NotCondition(t) == t || Size(NotCondition(t)) < Size(t)
  {
    if HasBranches(t) && Is(t.left, Not) && t.left.left.Node? {
      ReplaceSize(t.left, t.left.left);
      SwapBranchesSize(t, Replace(t.left, t.left.left));
    }
  }

  lemma NotComparisonShrinks(t: Tree)
    ensures NotComparison(t) == t || Size(NotComparison(t)) < Size(t)
  {
    if Is(t, Not) && IsComparisonOf(t.left) {
      ReplaceSize(t, SetKind(t.left, Negated(t.left.op.imm.u)));
    }
  }

  lemma ConditionsSize(t: Tree)
    ensures Size(Conditions(t)) <= Size(t)
    ensures Size(Conditions(t)) <= Size(ChooseBranch(t))
    ensures ChooseBranch(t) == t ==> Size(Conditions(t)) <= Size(StrictCondition(t))
  {
    ChooseShrinks(t);
    var t1 := ChooseBranch(t);
    StrictSize(t1);
    var t2 := StrictCondition(t1);
    NotConditionShrinks(t2);
    NotComparisonShrinks(NotCondition(t2));
  }

  // The other rules that come first

  lemma SwapRewrites(m: Math, t: Tree)
    requires Numeric(t) && !IsFoldable(t) && HasConstantLeft(t)
    ensures LocalNode(m, t) != t
  {
    ConstantExprIff(t);
    assert Numeric(t.left) && Numeric(t.right);
    var t2 := ConstantRight(t);
    assert Fold(m, t) == t && t2 == t.(left := t.right, right := t.left);
    if ZeroProduct(t2) != t2 {
      ConstantStays(m, ZeroProduct(t2));
    } else {
      assert LocalNode(m, t) == t2;
      assert t2.left != t.left;
    }
  }

  lemma ZeroRewrites(m: Math, t: Tree)
    requires Numeric(t) && !IsFoldable(t) && !HasConstantLeft(t) && IsZeroTimes(t)
    ensures LocalNode(m, t) != t
  {
    ConstantExprIff(t);
    assert ConstantRight(Fold(m, t)) == t;
    ConstantStays(m, ZeroProduct(t));
  }

  lemma RootRewrites(m: Math, t: Tree)
    requires Numeric(t) && !IsFoldable(t) && Is(t, Sqrt)
    ensures LocalNode(m, t) != t
  {
    ConstantExprIff(t);
    var t4 := RootAsPower(t);
    assert ZeroProduct(ConstantRight(Fold(m, t))) == t;
    assert Is(t4, Pow) && PowerZero(LogExp(t4)) == t4;
    assert Is(PowerPower(t4), Pow);
    assert LocalNode(m, t) == PowerPower(t4);
  }

  lemma LogExpRewrites(m: Math, t: Tree)
    requires Numeric(t) && !IsFoldable(t) && IsLogExp(t)
    ensures LocalNode(m, t) != t
  {
    ConstantExprIff(t);
    assert Numeric(t.left) && Numeric(t.left.left);
    var t5 := LogExp(t);
    assert RootAsPower(ZeroProduct(ConstantRight(Fold(m, t)))) == t;
    ReplaceSize(t, t.left.left);
    assert Size(t5) < Size(t);
    PowerZeroShrinks(t5);
    PowerPowerSize(PowerZero(t5));
    ConditionsSize(PowerPower(PowerZero(t5)));
  }

  lemma PowerRewrites(m: Math, t: Tree)
    requires Numeric(t) && !IsFoldable(t) && IsPowerOfPower(t)
    ensures LocalNode(m, t) != t
  {
    ConstantExprIff(t);
    PowersOnly(m, t);
    if IsNumber(t.right, 0.0) {
      assert IsConstant(PowerZero(t)) && Conditions(PowerPower(PowerZero(t))) == PowerZero(t);
    } else {
      NestedRewrites(t);
    }
  }

  lemma PowersOnly(m: Math, t: Tree)
    requires Is(t, Pow) && Fold(m, t) == t
    ensures LocalNode(m, t) == Conditions(PowerPower(PowerZero(t)))
  {
    assert LogExp(RootAsPower(ZeroProduct(ConstantRight(t)))) == t;
  }

  lemma NestedRewrites(t: Tree)
    requires Numeric(t) && Is(t, Pow) && Is(t.left, Pow) && PowerZero(t) == t
    ensures Conditions(PowerPower(t)) != t
  {
    assert Numeric(t.left) && Numeric(t.left.left);
    var t7 := PowerPower(t);
    ReplaceSize(t.left, t.left.left);
    assert Size(t7.left) < Size(t.left);
    assert Is(t7, Pow) && Conditions(t7) == t7;
  }

  lemma ConditionRewrites(m: Math, t: Tree)
    requires Numeric(t) && !IsFoldable(t) && IsPlainCondition(t)
    ensures LocalNode(m, t) != t
  {
    ConstantExprIff(t);
    TernaryParts(t);
    OnlyConditions(m, t);
    if IsConstant(t.left) {
      ConstantHasNumber(t.left);
      ChooseRewrites(t);
    } else if Is(t.left, Not) {
      assert StrictCondition(ChooseBranch(t)) == t;
      NotRewrites(t);
    } else {
      StrictRewrites(t);
    }
  }

  lemma TernaryParts(t: Tree)
    requires Numeric(t) && Is(t, Ternary)
    ensures HasBranches(t) && Numeric(t.left)
    ensures Is(t.left, Cmp) ==> IsComparisonOf(t.left)
    ensures Is(t.left, Not) ==> t.left.left.Node?
  {
    assert NumericPair(t.right);
    OperandNodes(t.left);
  }

  lemma OperandNodes(t: Tree)
    requires Numeric(t)
    ensures Operands(t.op.code) >= 1 ==> t.left.Node?
    ensures Operands(t.op.code) == 2 ==> t.right.Node?
  {
  }

  lemma OnlyConditions(m: Math, t: Tree)
    requires Numeric(t) && Is(t, Ternary) && Fold(m, t) == t
    ensures LocalNode(m, t) == Conditions(t)
  {
    assert Arithmetic(m, t) == t && PowerPower(t) == t;
  }

  lemma ChooseRewrites(t: Tree)
    requires HasBranches(t) && IsConstant(t.left) && t.left.op.imm.F?
    ensures Conditions(t) != t
  {
    ChooseShrinks(t);
    ConditionsSize(t);
    ReplaceSize(t, t.right.left);
    ReplaceSize(t, t.right.right);
  }

  lemma StrictRewrites(t: Tree)
    requires HasBranches(t) && IsComparisonOf(t.left) && (t.left.op.imm.u == LE || t.left.op.imm.u == NLT)
    ensures Conditions(t) != t
  {
    var t2 := StrictCondition(t);
    assert ChooseBranch(t) == t && Is(t2, Ternary) && IsComparisonOf(t2.left) && t2.left.op != t.left.op;
    assert NotComparison(NotCondition(t2)) == t2;
  }

  lemma NotRewrites(t: Tree)
    requires HasBranches(t) && Is(t.left, Not) && t.left.left.Node?
    ensures Size(NotComparison(NotCondition(t))) < Size(t)
  {
    ReplaceSize(t.left, t.left.left);
    SwapBranchesSize(t, Replace(t.left, t.left.left));
    NotComparisonShrinks(NotCondition(t));
  }

  lemma NotComparisonRewrites(m: Math, t: Tree)
    requires Numeric(t) && !IsFoldable(t) && IsNotComparison(t)
    ensures LocalNode(m, t) != t
  {
    ConstantExprIff(t);
    ComparisonParts(t);
    assert Arithmetic(m, t) == t && PowerPower(t) == t;
    assert LocalNode(m, t) == NotComparison(t);
    NotComparisonShrinks(t);
    assert Is(NotComparison(t), Cmp);
  }

  lemma ComparisonParts(t: Tree)
    requires Numeric(t) && Is(t.left, Cmp) && Operands(t.op.code) == 1
    ensures IsComparisonOf(t.left)
  {
    OperandNodes(t.left);
  }

  lemma LocalNodeIff(m: Math, t: Tree)
    requires Numeric(t)
    ensures LocalNode(m, t) == t <==> !IsLocal(t)
  {
    if !IsLocal(t) {
      StaysWithout(m, t);
    } else if IsFoldable(t) {
      FoldRewrites(m, t);
    } else if HasConstantLeft(t) {
      SwapRewrites(m, t);
    } else if IsZeroTimes(t) {
      ZeroRewrites(m, t);
    } else if Is(t, Sqrt) {
      RootRewrites(m, t);
    } else if IsLogExp(t) {
      LogExpRewrites(m, t);
    } else if IsPowerOfPower(t) {
      PowerRewrites(m, t);
    } else if IsPlainCondition(t) {
      ConditionRewrites(m, t);
    } else {
      NotComparisonRewrites(m, t);
    }
  }

  lemma {:induction false} LocalStaysIff(m: Math, t: Tree, path: Path)
    requires NumericPart(t)
    ensures Stays(LocalVisitor(m), t, path) <==> NoneLocal(t)
  {
    if t.Node? {
      LocalStaysIff(m, t.left, path + [false]);
      LocalStaysIff(m, t.right, path + [true]);
      assert LocalVisitor(m)(t, path) == LocalNode(m, t);
      VisitIff(m, t);
    }
  }

  lemma VisitIff(m: Math, t: Tree)
    requires NumericPart(t) && t.Node?
    ensures LocalNode(m, t) == t <==> !IsLocal(t)
  {
    if Numeric(t) { LocalNodeIff(m, t); }
  }

  lemma {:induction false} NoneLocalStrip(a: Tree, b: Tree)
    requires Strip(a) == Strip(b)
    ensures NoneLocal(a) <==> NoneLocal(b)
  {
    if a.Node? {
      NoneLocalStrip(a.left, b.left);
      NoneLocalStrip(a.right, b.right);
      ReadsClipsStrip(a, b);
      SameBelow(a, b);
      assert IsLocal(a) <==> IsLocal(b);
    }
  }

  lemma {:induction false} ReadsClipsStrip(a: Tree, b: Tree)
    requires Strip(a) == Strip(b)
    ensures ReadsClips(a) <==> ReadsClips(b)
  {
    if a.Node? {
      ReadsClipsStrip(a.left, b.left);
      ReadsClipsStrip(a.right, b.right);
    }
  }

  /** The local pass rewrites a tree exactly when something it looks for is in it. */
  lemma LocalRewritesIff(m: Math, t: Tree)
    requires Numeric(t)
    ensures Rewrites(LocalVisitor(m), t, []) <==> !NoneLocal(t)
  {
    RewritesIff(LocalVisitor(m), t, []);
    LocalStaysIff(m, t, []);
  }
}
