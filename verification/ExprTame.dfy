/** Trees in which every exponent is whole and nothing stands under a root: what the rules of the node-by-node passes
    make of them. */
module ExprTame {
  import opened ExprTree
  import opened ExprValueNumber
  import opened ExprReal
  import opened ExprPower
  import opened ExprRewrite
  import opened ExprLocal
  import opened ExprComparison
  import opened ExprStrength
  import opened ExprFusion

  // No root, and every exponent a whole constant: a condition on the tree alone.
  predicate WholeExponents(t: Tree) {
    t.Nil? || (
      && WholeExponents(t.left) && WholeExponents(t.right)
      && !Is(t, Sqrt)
      && (Is(t, Pow) ==> IsConstant(t.right) && t.right.op.imm.F? && Whole(t.right.op.imm.f)))
  }

  predicate WholeVal(m: Math, t: Tree) {
    Numeric(t) && Val(m, t).Defined? && Whole(Val(m, t).value)
  }

  // The same of the values: multiplying exponents gives one that is no constant yet.
  predicate Tame(m: Math, t: Tree) {
    t.Nil? || (
      && Tame(m, t.left) && Tame(m, t.right)
      && !Is(t, Sqrt)
      && (Is(t, Pow) ==> WholeVal(m, t.right)))
  }

  lemma {:induction false} WholeExponentsTame(m: Math, t: Tree)
    requires NumericPart(t) && WholeExponents(t)
    ensures Tame(m, t)
  {
    if t.Node? {
      WholeExponentsTame(m, t.left);
      WholeExponentsTame(m, t.right);
      if Is(t, Pow) { NumberVal(m, t.right, t.right.op.imm.f); }
    }
  }

  lemma {:induction false} TameShape(m: Math, a: Tree, b: Tree)
    requires Strip(a) == Strip(b) && Tame(m, b)
    ensures Tame(m, a)
  {
    if a.Node? {
      TameShape(m, a.left, b.left);
      TameShape(m, a.right, b.right);
      if Is(b, Pow) { ValStrip(m, a.right, b.right); }
    }
  }

  lemma TameStrip(m: Math, t: Tree)
    requires Tame(m, t)
    ensures Tame(m, Strip(t))
  {
    StripTwice(t);
    TameShape(m, Strip(t), t);
  }

  lemma WholeKept(m: Math, a: Tree, b: Tree)
    requires WholeVal(m, a) && KeepsPart(m, a, b)
    ensures WholeVal(m, b)
  {
  }

  // A tame node, from its parts.
  lemma TameParts(m: Math, t: Tree)
    requires Tame(m, t) && t.Node?
    ensures Tame(m, t.left) && Tame(m, t.right) && !Is(t, Sqrt) && (Is(t, Pow) ==> WholeVal(m, t.right))
  {
  }

  lemma TameNode(m: Math, t: Tree)
    requires t.Node? && Tame(m, t.left) && Tame(m, t.right) && !Is(t, Sqrt) && (Is(t, Pow) ==> WholeVal(m, t.right))
    ensures Tame(m, t)
  {
  }

  // The parts of a node and of its operands.
  lemma TameBelow(m: Math, t: Tree)
    requires Tame(m, t) && t.Node?
    ensures Tame(m, t.left) && Tame(m, t.right)
    ensures t.left.Node? ==> Tame(m, t.left.left) && Tame(m, t.left.right)
    ensures t.right.Node? ==> Tame(m, t.right.left) && Tame(m, t.right.right)
  {
    TameParts(m, t);
    if t.left.Node? { TameParts(m, t.left); }
    if t.right.Node? { TameParts(m, t.right); }
  }

  // Neither a power nor a root, over tame operands.
  predicate Plain(m: Math, t: Tree) {
    t.Node? && !Is(t, Sqrt) && !Is(t, Pow) && Tame(m, t.left) && Tame(m, t.right)
  }

  lemma TameAbove(m: Math, t: Tree)
    requires t.Node? && !Is(t, Sqrt) && !Is(t, Pow)
    requires (Tame(m, t.left) || Plain(m, t.left)) && (Tame(m, t.right) || Plain(m, t.right))
    ensures Tame(m, t)
  {
    if Plain(m, t.left) { TameNode(m, t.left); }
    if Plain(m, t.right) { TameNode(m, t.right); }
    TameNode(m, t);
  }

  lemma TameReplace(m: Math, t: Tree, r: Tree)
    requires t.Node? && r.Node? && Tame(m, r)
    ensures Tame(m, Replace(t, r))
  {
    TameParts(m, r);
    TameNode(m, Replace(t, r));
  }

  lemma TameConst(m: Math, x: real)
    ensures Tame(m, Const(x))
  {
    TameNode(m, Const(x));
  }

  // Better operands under a tame node.
  lemma TameUnder(m: Math, t: Tree, l: Tree, r: Tree)
    requires NumericPart(t) && Tame(m, t) && t.Node? && Tame(m, l) && Tame(m, r)
    requires Is(t, Pow) ==> KeepsPart(m, t.right, r)
    ensures Tame(m, t.(left := l, right := r))
  {
    if Is(t, Pow) { WholeKept(m, t.right, r); }
  }

  // A visitor that keeps value and tameness of a tame node.
  ghost predicate KeepsTame(m: Math, visit: (Tree, Path) -> Tree) {
    && (forall t, path {:trigger visit(t, path)} ::
          Numeric(t) && Tame(m, t) ==> KeepsVal(m, t, visit(t, path)) && Tame(m, visit(t, path)))
    && (forall t, path {:trigger visit(t, path)} :: IsMux(t) ==> visit(t, path) == t)
  }

  lemma {:induction false} PostorderTame(m: Math, visit: (Tree, Path) -> Tree, t: Tree, path: Path)
    requires KeepsTame(m, visit) && NumericPart(t) && Tame(m, t)
    ensures KeepsPart(m, t, Postorder(visit, t, path)) && Tame(m, Postorder(visit, t, path))
  {
    if t.Node? {
      var l, r := Postorder(visit, t.left, path + [false]), Postorder(visit, t.right, path + [true]);
      PostorderTame(m, visit, t.left, path + [false]);
      PostorderTame(m, visit, t.right, path + [true]);
      TameUnder(m, t, l, r);
      var n := t.(left := l, right := r);
      if Numeric(t) {
        KeepsUnder(m, t, l, r);
        assert Numeric(n) && Tame(m, n);
        assert KeepsVal(m, n, visit(n, path)) && Tame(m, visit(n, path));
      } else {
        assert visit(n, path) == n;
      }
    }
  }

  // The local pass

  lemma WholeTimes(m: Math, b: Value, c: Value)
    requires b.Defined? && Whole(b.value) && c.Defined? && Whole(c.value)
    ensures var e := ValOf(m, Mul, b, c); e.Defined? && Whole(e.value)
  {
    WholeProduct(b.value, c.value, ValOf(m, Mul, b, c).value);
  }

  lemma TameFold(m: Math, t: Tree)
    requires Tame(m, t)
    ensures Tame(m, Fold(m, t))
  {
    if Fold(m, t) != t {
      var x := if Val(m, t).Defined? then Val(m, t).value else 0.0;
      TameConst(m, x);
      TameReplace(m, t, Const(x));
    }
  }

  lemma TameConstantRight(m: Math, t: Tree)
    requires Tame(m, t)
    ensures Tame(m, ConstantRight(t))
  {
    if ConstantRight(t) != t {
      TameBelow(m, t);
      TameAbove(m, ConstantRight(t));
    }
  }

  lemma TameZeroProduct(m: Math, t: Tree)
    requires Tame(m, t)
    ensures Tame(m, ZeroProduct(t))
  {
    if ZeroProduct(t) != t {
      TameConst(m, 0.0);
      TameReplace(m, t, Const(0.0));
    }
  }

  lemma TameLogExp(m: Math, t: Tree)
    requires Tame(m, t)
    ensures Tame(m, LogExp(t))
  {
    if LogExp(t) != t {
      TameBelow(m, t);
      TameReplace(m, t, t.left.left);
    }
  }

  lemma TamePowerZero(m: Math, t: Tree)
    requires Tame(m, t)
    ensures Tame(m, PowerZero(t))
  {
    if PowerZero(t) != t {
      TameConst(m, 1.0);
      TameReplace(m, t, Const(1.0));
    }
  }

  lemma TameArithmetic(m: Math, t: Tree)
    requires Tame(m, t)
    ensures Tame(m, Arithmetic(m, t))
  {
    var t1 := Fold(m, t);
    TameFold(m, t);
    var t2 := ConstantRight(t1);
    TameConstantRight(m, t1);
    var t3 := ZeroProduct(t2);
    TameZeroProduct(m, t2);
    TameHasNoRoot(m, t3);
    TameLogExp(m, t3);
    TamePowerZero(m, LogExp(t3));
  }

  lemma TameHasNoRoot(m: Math, t: Tree)
    requires Tame(m, t)
    ensures RootAsPower(t) == t
  {
    if t.Node? { TameParts(m, t); }
  }

  /** Under whole exponents no sign is lost. */
  lemma TamePowersFine(m: Math, t: Tree)
    requires Numeric(t) && Tame(m, t)
    ensures PowersFine(m, t)
  {
    if NestedPowers(t) {
      BinaryVal(m, t);
      BinaryVal(m, t.left);
      TameParts(m, t);
      TameParts(m, t.left);
      WholeKeepsSign(Val(m, t.left.left), Val(m, t.left.right), Val(m, t.right));
    }
  }

  lemma WholeKeepsSign(a: Value, b: Value, c: Value)
    requires b.Defined? && Whole(b.value) && c.Defined? && Whole(c.value)
    ensures KeepsSign(a, b, c)
  {
    var y, z := b.value, c.value;
    WholeLosesNoSign(if a.Defined? then a.value else 0.0, y, z, MultipliedExponent(y, z));
  }

  lemma WholeLosesNoSign(x: real, y: real, z: real, e: real)
    requires Whole(y) && Whole(z) && e == y * z
    ensures !LosesSign(x, y, e)
  {
    if Even(y) { EvenProduct(y, z, e); }
  }

  lemma EvenProduct(b: real, c: real, e: real)
    requires Even(b) && Whole(c) && e == b * c
    ensures Even(e)
  {
    WholeProduct(b, c, e);
    EvenTimes(b.Floor, c.Floor);
  }

  lemma TamePowerPower(m: Math, t: Tree)
    requires Lawful(m) && Numeric(t) && Tame(m, t)
    ensures KeepsVal(m, t, PowerPower(t)) && Tame(m, PowerPower(t))
  {
    TamePowersFine(m, t);
    PowerPowerKeepsIff(m, t);
    if NestedPowers(t) {
      TameBelow(m, t);
      TameParts(m, t);
      TameParts(m, t.left);
      TameProduct(m, t.left.right, t.right);
      TameReplace(m, t.left, t.left.left);
      TameNode(m, PowerPower(t));
    }
  }

  lemma TameProduct(m: Math, b: Tree, c: Tree)
    requires Tame(m, b) && Tame(m, c) && WholeVal(m, b) && WholeVal(m, c)
    ensures Tame(m, Make(Mul, b, c)) && WholeVal(m, Make(Mul, b, c))
  {
    TameNode(m, Make(Mul, b, c));
    MakeVal(m, Mul, b, c);
    WholeTimes(m, Val(m, b), Val(m, c));
  }

  lemma TameChooseBranch(m: Math, t: Tree)
    requires Tame(m, t)
    ensures Tame(m, ChooseBranch(t))
  {
    if ChooseBranch(t) != t {
      TameBelow(m, t);
      TameReplace(m, t, if t.left.op.imm.f > 0.0 then t.right.left else t.right.right);
    }
  }

  lemma TameSwapBranches(m: Math, t: Tree, condition: Tree)
    requires Tame(m, t) && Numeric(t) && HasBranches(t) && Tame(m, condition)
    ensures Tame(m, SwapBranches(t, condition))
  {
    TameBelow(m, t);
    TameParts(m, t.right);
    TameNode(m, t.right.(left := t.right.right, right := t.right.left));
    TameNode(m, SwapBranches(t, condition));
  }

  lemma TameSetKind(m: Math, t: Tree, kind: nat)
    requires Tame(m, t) && t.Node?
    ensures Tame(m, SetKind(t, kind))
  {
    TameParts(m, t);
    TameNode(m, SetKind(t, kind));
  }

  lemma TameConditions(m: Math, t: Tree)
    requires Numeric(t) && Tame(m, t)
    ensures Tame(m, Conditions(t))
  {
    var t1 := ChooseBranch(t);
    ChooseBranchKeeps(m, t);
    TameChooseBranch(m, t);
    var t2 := StrictCondition(t1);
    StrictConditionKeeps(m, t1);
    TameStrictCondition(m, t1);
    var t3 := NotCondition(t2);
    NotConditionKeeps(m, t2);
    TameNotCondition(m, t2);
    TameNotComparison(m, t3);
  }

  lemma TameStrictCondition(m: Math, t: Tree)
    requires Numeric(t) && Tame(m, t)
    ensures Tame(m, StrictCondition(t))
  {
    if StrictCondition(t) != t {
      var kind := if t.left.op.imm.u == LE then NLE else LT;
      TameParts(m, t);
      TameSetKind(m, t.left, kind);
      TameSwapBranches(m, t, SetKind(t.left, kind));
    }
  }

  lemma TameNotCondition(m: Math, t: Tree)
    requires Numeric(t) && Tame(m, t)
    ensures Tame(m, NotCondition(t))
  {
    if NotCondition(t) != t {
      TameBelow(m, t);
      TameReplace(m, t.left, t.left.left);
      TameSwapBranches(m, t, Replace(t.left, t.left.left));
    }
  }

  lemma TameNotComparison(m: Math, t: Tree)
    requires Tame(m, t)
    ensures Tame(m, NotComparison(t))
  {
    if NotComparison(t) != t {
      var kind := Negated(t.left.op.imm.u);
      TameParts(m, t);
      TameSetKind(m, t.left, kind);
      TameReplace(m, t, SetKind(t.left, kind));
    }
  }

  lemma TameLocalNode(m: Math, t: Tree)
    requires Lawful(m) && Numeric(t) && Tame(m, t)
    ensures KeepsVal(m, t, LocalNode(m, t)) && Tame(m, LocalNode(m, t))
  {
    var t1 := Arithmetic(m, t);
    ArithmeticKeeps(m, t);
    TameArithmetic(m, t);
    var t2 := PowerPower(t1);
    TamePowerPower(m, t1);
    ConditionsKeep(m, t2);
    TameConditions(m, t2);
  }

  /** The local pass keeps the value of a tree with whole exponents and without roots, and keeps it that way. */
  lemma TameLocal(m: Math, t: Tree)
    requires Lawful(m) && Numeric(t) && Tame(m, t)
    ensures KeepsVal(m, t, Local(m, t)) && Tame(m, Local(m, t))
  {
    TameLocalVisitor(m);
    PostorderTame(m, LocalVisitor(m), t, []);
  }

  lemma TameLocalVisitor(m: Math)
    requires Lawful(m)
    ensures KeepsTame(m, LocalVisitor(m))
  {
    forall n, path: Path | Numeric(n) && Tame(m, n)
      ensures KeepsVal(m, n, LocalVisitor(m)(n, path)) && Tame(m, LocalVisitor(m)(n, path))
    {
      TameLocalNode(m, n);
    }
    forall n, path: Path | IsMux(n) ensures LocalVisitor(m)(n, path) == n {
      assert LocalVisitor(m)(n, path) == LocalNode(m, n);
    }
  }

  /** A tree with whole exponents and without roots is one in which the local pass loses no sign anywhere. */
  lemma {:induction false} TameWalkFine(m: Math, t: Tree, path: Path)
    requires Lawful(m) && NumericPart(t) && Tame(m, t)
    ensures WalkFine(m, t, path)
  {
    if t.Node? {
      TameWalkFine(m, t.left, path + [false]);
      TameWalkFine(m, t.right, path + [true]);
      var n := Rewritten(m, t, path);
      TameLocalVisitor(m);
      PostorderTame(m, LocalVisitor(m), t.left, path + [false]);
      PostorderTame(m, LocalVisitor(m), t.right, path + [true]);
      TameUnder(m, t, n.left, n.right);
      if Numeric(t) {
        KeepsUnder(m, t, n.left, n.right);
        ArithmeticKeeps(m, n);
        TameArithmetic(m, n);
        TamePowersFine(m, Arithmetic(m, n));
      } else {
        MuxIsNoPower(m, n);
      }
    }
  }

  lemma MuxIsNoPower(m: Math, t: Tree)
    requires IsMux(t)
    ensures PowersFine(m, Arithmetic(m, t))
  {
    assert !Numeric(t);
  }

  // Cleanup

  lemma TameCleanup(m: Math, t: Tree)
    requires Lawful(m) && Numeric(t) && Tame(m, t)
    ensures KeepsVal(m, t, Cleanup(t)) && Tame(m, Cleanup(t))
  {
    TameCleanupVisitor(m);
    PostorderTame(m, CleanupVisitor(), t, []);
  }

  lemma TameCleanupVisitor(m: Math)
    requires Lawful(m)
    ensures KeepsTame(m, CleanupVisitor())
  {
    forall n, path: Path | Numeric(n) && Tame(m, n)
      ensures KeepsVal(m, n, CleanupVisitor()(n, path)) && Tame(m, CleanupVisitor()(n, path))
    {
      assert CleanupVisitor()(n, path) == CleanupNode(n);
      CleanupNodeKeeps(m, n);
      TameCleanupNode(m, n);
    }
  }

  lemma TameDropZero(m: Math, t: Tree)
    requires Tame(m, t)
    ensures Tame(m, DropZero(t))
  {
    if DropZero(t) != t {
      TameBelow(m, t);
      TameReplace(m, t, t.left);
    }
  }

  lemma TameDropOne(m: Math, t: Tree)
    requires Tame(m, t)
    ensures Tame(m, DropOne(t))
  {
    if DropOne(t) != t {
      TameBelow(m, t);
      TameReplace(m, t, t.left);
    }
  }

  lemma TameDropPower(m: Math, t: Tree)
    requires Tame(m, t)
    ensures Tame(m, DropPower(t))
  {
    if DropPower(t) != t {
      TameBelow(m, t);
      TameReplace(m, t, t.left);
    }
  }

  lemma TameCleanupNode(m: Math, t: Tree)
    requires Tame(m, t)
    ensures Tame(m, CleanupNode(t))
  {
    TameDropZero(m, t);
    TameDropOne(m, DropZero(t));
    TameDropPower(m, DropOne(DropZero(t)));
  }

  // Strength reduction

  lemma TameZeroMinus(m: Math, t: Tree)
    requires Tame(m, t)
    ensures Tame(m, ZeroMinus(t))
  {
    if ZeroMinus(t) != t {
      TameBelow(m, t);
      TameAbove(m, ZeroMinus(t));
    }
  }

  lemma TameTimesMinusOne(m: Math, t: Tree)
    requires Tame(m, t)
    ensures Tame(m, TimesMinusOne(t))
  {
    if TimesMinusOne(t) != t {
      TameBelow(m, t);
      TameAbove(m, TimesMinusOne(t));
    }
  }

  lemma TamePlusNegative(m: Math, t: Tree)
    requires Tame(m, t)
    ensures Tame(m, PlusNegative(t))
  {
    if PlusNegative(t) != t {
      TameBelow(m, t);
      TameReplace(m, t.right, t.right.left);
      TameAbove(m, PlusNegative(t));
    }
  }

  lemma TameNegativePlus(m: Math, t: Tree)
    requires Tame(m, t)
    ensures Tame(m, NegativePlus(t))
  {
    if NegativePlus(t) != t {
      TameBelow(m, t);
      TameReplace(m, t.left, t.left.left);
      TameAbove(m, NegativePlus(t));
    }
  }

  lemma TameMinusDifference(m: Math, t: Tree)
    requires Tame(m, t)
    ensures Tame(m, MinusDifference(t))
  {
    if MinusDifference(t) != t {
      TameBelow(m, t);
      TameAbove(m, MinusDifference(t));
    }
  }

  lemma TameSums(m: Math, t: Tree)
    requires Tame(m, t)
    ensures Tame(m, Sums(t))
  {
    TameZeroMinus(m, t);
    var t1 := ZeroMinus(t);
    TameTimesMinusOne(m, t1);
    var t2 := TimesMinusOne(t1);
    TamePlusNegative(m, t2);
    var t3 := PlusNegative(t2);
    TameNegativePlus(m, t3);
    var t4 := NegativePlus(t3);
    TameMinusDifference(m, t4);
  }

  lemma TameTwice(m: Math, t: Tree, underAdd: bool)
    requires Tame(m, t)
    ensures Tame(m, Twice(t, underAdd))
  {
    if Twice(t, underAdd) != t {
      TameBelow(m, t);
      TameStrip(m, t.left);
      TameReplace(m, t.right, Strip(t.left));
      TameAbove(m, Twice(t, underAdd));
    }
  }

  lemma TameOverConstant(m: Math, t: Tree)
    requires Tame(m, t)
    ensures Tame(m, OverConstant(t))
  {
    if OverConstant(t) != t {
      TameBelow(m, t);
      TameAbove(m, OverConstant(t));
    }
  }

  lemma TameReciprocalTimes(m: Math, t: Tree)
    requires Tame(m, t)
    ensures Tame(m, ReciprocalTimes(t))
  {
    if ReciprocalTimes(t) != t {
      TameBelow(m, t);
      TameReplace(m, t.left, t.left.right);
      TameAbove(m, ReciprocalTimes(t));
    }
  }

  lemma TameTimesReciprocal(m: Math, t: Tree)
    requires Tame(m, t)
    ensures Tame(m, TimesReciprocal(t))
  {
    if TimesReciprocal(t) != t {
      TameBelow(m, t);
      TameReplace(m, t.right, t.right.right);
      TameAbove(m, TimesReciprocal(t));
    }
  }

  lemma TameProducts(m: Math, t: Tree)
    requires Tame(m, t)
    ensures Tame(m, Products(t))
  {
    TameOverConstant(m, t);
    var t1 := OverConstant(t);
    TameReciprocalTimes(m, t1);
    var t2 := ReciprocalTimes(t1);
    TameTimesReciprocal(m, t2);
  }

  lemma TameQuotientTimes(m: Math, t: Tree)
    requires Tame(m, t)
    ensures Tame(m, QuotientTimes(t))
  {
    if QuotientTimes(t) != t {
      TameBelow(m, t);
      TameAbove(m, QuotientTimes(t));
    }
  }

  lemma TameTimesQuotient(m: Math, t: Tree)
    requires Tame(m, t)
    ensures Tame(m, TimesQuotient(t))
  {
    if TimesQuotient(t) != t {
      TameBelow(m, t);
      TameAbove(m, TimesQuotient(t));
    }
  }

  lemma TameOverQuotient(m: Math, t: Tree)
    requires Tame(m, t)
    ensures Tame(m, OverQuotient(t))
  {
    if OverQuotient(t) != t {
      TameBelow(m, t);
      TameAbove(m, OverQuotient(t));
    }
  }

  lemma TameQuotientOver(m: Math, t: Tree)
    requires Tame(m, t)
    ensures Tame(m, QuotientOver(t))
  {
    if QuotientOver(t) != t {
      TameBelow(m, t);
      TameAbove(m, QuotientOver(t));
    }
  }

  lemma TameQuotients(m: Math, t: Tree)
    requires Tame(m, t)
    ensures Tame(m, Quotients(t))
  {
    TameQuotientTimes(m, t);
    var t1 := QuotientTimes(t);
    TameTimesQuotient(m, t1);
    var t2 := TimesQuotient(t1);
    TameOverQuotient(m, t2);
    var t3 := OverQuotient(t2);
    TameQuotientOver(m, t3);
  }

  lemma TamePowers(m: Math, t: Tree)
    requires Lawful(m) && Numeric(t) && Tame(m, t)
    ensures Tame(m, Powers(t))
  {
    if Is(t, Pow) && IsConstant(t.right) && t.right.op.imm.F? { NumberVal(m, t.right, t.right.op.imm.f); }
    assert HalfPower(t) == t;
    NegativePowerKeeps(m, t);
    TameNegativePower(m, t);
    TamePositivePower(m, NegativePower(t));
  }

  lemma TameNegativePower(m: Math, t: Tree)
    requires Tame(m, t)
    ensures Tame(m, NegativePower(t))
  {
    if NegativePower(t) != t {
      var y := -t.right.op.imm.f;
      TameParts(m, t);
      WholeSum(t.right.op.imm.f, t.right.op.imm.f);
      TameCopy(m, t, y);
      TameConst(m, 1.0);
      TameNode(m, NegativePower(t));
    }
  }

  lemma TameCopy(m: Math, t: Tree, y: real)
    requires Tame(m, t) && Is(t, Pow) && Whole(y)
    ensures Tame(m, Copy(t, y))
  {
    TameParts(m, t);
    TameStrip(m, t.left);
    TameConst(m, y);
    NumberVal(m, Const(y), y);
    TameNode(m, Copy(t, y));
  }

  lemma TamePositivePower(m: Math, t: Tree)
    requires Tame(m, t)
    ensures Tame(m, PositivePower(t))
  {
    if PositivePower(t) != t {
      var n := t.right.op.imm.f.Floor;
      TameParts(m, t);
      TameIntegerPower(m, t.left, n);
      TameReplace(m, t, IntegerPower(t.left, n));
    }
  }

  lemma {:induction false} TameIntegerPower(m: Math, x: Tree, n: nat)
    requires x.Node? && n > 0 && Tame(m, x)
    ensures Tame(m, IntegerPower(x, n))
  {
    if n == 1 {
      TameStrip(m, x);
    } else {
      TameIntegerPower(m, x, (n + 1) / 2);
      TameIntegerPower(m, x, n - (n + 1) / 2);
      TameNode(m, IntegerPower(x, n));
    }
  }

  lemma TameStrengthNode(m: Math, t: Tree, underAdd: bool)
    requires Lawful(m) && Numeric(t) && Tame(m, t)
    ensures Tame(m, StrengthNode(t, underAdd))
  {
    var t1 := Sums(t);
    SumsKeeps(m, t);
    TameSums(m, t);
    var t2 := Twice(t1, underAdd);
    TwiceKeeps(m, t1, underAdd);
    TameTwice(m, t1, underAdd);
    var t3 := Products(t2);
    ProductsKeeps(m, t2);
    TameProducts(m, t2);
    var t4 := Quotients(t3);
    QuotientsKeeps(m, t3);
    TameQuotients(m, t3);
    TamePowers(m, t4);
  }

  lemma TameStrength(m: Math, t: Tree, underAdd: Path -> bool)
    requires Lawful(m) && Numeric(t) && Tame(m, t)
    ensures KeepsVal(m, t, Strength(t, underAdd)) && Tame(m, Strength(t, underAdd))
  {
    StrengthVisitorKeeps(m, underAdd);
    forall n, path: Path | Numeric(n) && Tame(m, n) ensures Tame(m, StrengthVisitor(underAdd)(n, path)) {
      TameStrengthNode(m, n, underAdd(path));
    }
    PostorderTame(m, StrengthVisitor(underAdd), t, []);
  }

  // Fusion

  lemma TameAddProduct(m: Math, t: Tree, refs: int -> nat)
    requires Tame(m, t)
    ensures Tame(m, AddProduct(t, refs))
  {
    if AddProduct(t, refs) != t {
      TameBelow(m, t);
      TameAbove(m, AddProduct(t, refs));
    }
  }

  lemma TameProductAdd(m: Math, t: Tree, refs: int -> nat)
    requires Tame(m, t)
    ensures Tame(m, ProductAdd(t, refs))
  {
    if ProductAdd(t, refs) != t {
      TameBelow(m, t);
      TameAbove(m, ProductAdd(t, refs));
    }
  }

  lemma TameMinusProduct(m: Math, t: Tree, refs: int -> nat)
    requires Tame(m, t)
    ensures Tame(m, MinusProduct(t, refs))
  {
    if MinusProduct(t, refs) != t {
      TameBelow(m, t);
      TameAbove(m, MinusProduct(t, refs));
    }
  }

  lemma TameProductMinus(m: Math, t: Tree, refs: int -> nat)
    requires Tame(m, t)
    ensures Tame(m, ProductMinus(t, refs))
  {
    if ProductMinus(t, refs) != t {
      TameBelow(m, t);
      TameAbove(m, ProductMinus(t, refs));
    }
  }

  lemma TameDistribute(m: Math, t: Tree, refs: int -> nat)
    requires Tame(m, t)
    ensures Tame(m, Distribute(t, refs))
  {
    if Distribute(t, refs) != t {
      TameBelow(m, t);
      TameAbove(m, Distribute(t, refs));
    }
  }

  lemma TameMinusFused(m: Math, t: Tree, refs: int -> nat)
    requires Tame(m, t)
    ensures Tame(m, MinusFused(t, refs))
  {
    if MinusFused(t, refs) != t {
      TameBelow(m, t);
      TameAbove(m, MinusFused(t, refs));
    }
  }

  lemma TameFusionNode(m: Math, t: Tree, refs: int -> nat)
    requires Tame(m, t)
    ensures Tame(m, FusionNode(t, refs))
  {
    if !IsMux(t) {
      TameAddProduct(m, t, refs);
      var t1 := AddProduct(t, refs);
      TameProductAdd(m, t1, refs);
      var t2 := ProductAdd(t1, refs);
      TameMinusProduct(m, t2, refs);
      var t3 := MinusProduct(t2, refs);
      TameProductMinus(m, t3, refs);
      var t4 := ProductMinus(t3, refs);
      TameDistribute(m, t4, refs);
      TameMinusFused(m, Distribute(t4, refs), refs);
    }
  }

  lemma TameFusion(m: Math, t: Tree)
    requires Lawful(m) && Numeric(t) && Tame(m, t)
    ensures KeepsVal(m, t, Fusion(t)) && Tame(m, Fusion(t))
  {
    var numbered := ExprValueNumber.Number(t, []).0;
    NumericIsWellFormed(t);
    NumberIsFaithful(t, []);
    NumberKeepsVal(m, t);
    TameShape(m, numbered, t);
    var refs := vn => RefCount(numbered, vn);
    FusionVisitorKeeps(m, refs);
    forall n, path: Path | Numeric(n) && Tame(m, n) ensures Tame(m, FusionVisitor(refs)(n, path)) {
      TameFusionNode(m, n, refs);
    }
    PostorderTame(m, FusionVisitor(refs), numbered, []);
    assert Fusion(t) == Postorder(FusionVisitor(refs), numbered, []);
  }

  // Comparisons

  lemma TameComparisonNode(m: Math, t: Tree, underLogic: bool)
    requires Tame(m, t)
    ensures Tame(m, ComparisonNode(t, underLogic).node)
  {
    var visit := ComparisonNode(t, underLogic);
    if visit.changed {
      TameBelow(m, t);
      if IsConstant(visit.node) {
        TameNode(m, visit.node);
      } else if HasBranches(t) && t.right.left.vn == t.right.right.vn {
        TameReplace(m, t, t.right.left);
      } else {
        TameNode(m, visit.node);
      }
    }
  }

  lemma {:induction false} TameComparisonWalk(m: Math, numbered: seq<Tree>, t: Tree, underLogic: bool)
    requires Canonical(numbered) && Faithful(t, numbered) && NumericPart(t) && Tame(m, t)
    ensures Tame(m, ComparisonWalk(t, underLogic))
  {
    if t.Node? {
      TameComparisonNode(m, t, underLogic);
      if !ComparisonNode(t, underLogic).changed {
        TameComparisonWalk(m, numbered, t.left, IsLogic(t.op.code));
        TameComparisonWalk(m, numbered, t.right, IsLogic(t.op.code));
        ComparisonWalkKeeps(m, numbered, t.right, IsLogic(t.op.code));
        TameUnder(m, t, ComparisonWalk(t.left, IsLogic(t.op.code)), ComparisonWalk(t.right, IsLogic(t.op.code)));
      }
    }
  }

  lemma TameComparisons(m: Math, t: Tree)
    requires Numeric(t) && Tame(m, t)
    ensures KeepsVal(m, t, Comparisons(t)) && Tame(m, Comparisons(t))
  {
    ComparisonsKeep(m, t);
    NumericIsWellFormed(t);
    NumberIsFaithful(t, []);
    var (r, n) := ExprValueNumber.Number(t, []);
    ValStrip(m, r, t);
    TameShape(m, r, t);
    TameComparisonWalk(m, n, r, false);
  }
}
