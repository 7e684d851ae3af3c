/** What strength reduction leaves behind, and the one rule it does not report. */
module ExprNormalStrength {
  import opened ExprTree
  import opened ExprValueNumber
  import opened ExprReal
  import opened ExprPower
  import opened ExprRewrite
  import opened ExprStrength
  import opened ExprNormal

  // What the pass looks for: signs that can be saved, a product with two, quotients that can be avoided, and powers that
  // can be multiplied out.

  predicate HasSign(t: Tree) {
    || (Is(t, Sub) && IsNumber(t.left, 0.0))
    || ((Is(t, Mul) || Is(t, Div)) && IsNumber(t.right, -1.0))
    || ((Is(t, Add) || Is(t, Sub)) && Is(t.right, Neg))
    || (Is(t, Add) && Is(t.left, Neg))
    || (Is(t, Neg) && Is(t.left, Sub))
  }

  predicate IsDoubled(t: Tree, underAdd: bool) {
    Is(t, Mul) && IsNumber(t.right, 2.0) && !underAdd
  }

  predicate HasQuotient(t: Tree) {
    || (Is(t, Div) && IsConstant(t.right))
    || ((Is(t, Mul) || Is(t, Div)) && (Is(t.left, Div) || Is(t.right, Div)))
  }

  // A whole exponent or half of an odd one, but not zero.
  predicate HasPower(t: Tree) {
    Is(t, Pow) && IsConstant(t.right) && t.right.op.imm.F? && t.right.op.imm.f != 0.0 && Whole(2.0 * t.right.op.imm.f)
  }

  predicate IsStrong(t: Tree, underAdd: bool) {
    HasSign(t) || IsDoubled(t, underAdd) || HasQuotient(t) || HasPower(t)
  }

  predicate NoneStrong(t: Tree, underAdd: Path -> bool, path: Path) {
    t.Nil? || (
      && !IsStrong(t, underAdd(path))
      && NoneStrong(t.left, underAdd, path + [false]) && NoneStrong(t.right, underAdd, path + [true]))
  }

  // Signs: each of these rules makes the node smaller.

  lemma SwapChildrenSize(t: Tree)
    requires t.Node?
    ensures Size(SwapChildren(t)) == Size(t)
  {
  }

  lemma ReplacedSize(t: Tree, r: Tree)
    requires t.Node? && r.Node?
    ensures Size(Replace(t, r)) == Size(r)
  {
  }

  lemma BecomeSize(t: Tree, code: OpCode, l: Tree, r: Tree)
    requires t.Node?
    ensures Size(Become(t, code, l, r)) == 1 + Size(l) + Size(r)
  {
  }

  lemma ZeroMinusShrinks(t: Tree)
    ensures ZeroMinus(t) == t || (Size(ZeroMinus(t)) < Size(t) && Is(ZeroMinus(t), Neg))
  {
    if ZeroMinus(t) != t { BecomeSize(t, Neg, t.right, Nil); }
  }

  lemma TimesMinusOneShrinks(t: Tree)
    ensures TimesMinusOne(t) == t || (Size(TimesMinusOne(t)) < Size(t) && Is(TimesMinusOne(t), Neg))
  {
    if TimesMinusOne(t) != t { BecomeSize(t, Neg, t.left, Nil); }
  }

  predicate IsSumCode(t: Tree) {
    Is(t, Neg) || Is(t, Add) || Is(t, Sub)
  }

  lemma PlusNegativeShrinks(t: Tree)
    ensures PlusNegative(t) == t || (Size(PlusNegative(t)) < Size(t) && IsSumCode(PlusNegative(t)))
  {
    if PlusNegative(t) != t {
      ReplacedSize(t.right, t.right.left);
      BecomeSize(t, if Is(t, Add) then Sub else Add, t.left, Replace(t.right, t.right.left));
    }
  }

  lemma NegativePlusShrinks(t: Tree)
    ensures NegativePlus(t) == t || (Size(NegativePlus(t)) < Size(t) && Is(NegativePlus(t), Sub))
  {
    if Is(t, Add) && Is(t.left, Neg) && t.left.left.Node? {
      var s := Become(t, Sub, Replace(t.left, t.left.left), t.right);
      ReplacedSize(t.left, t.left.left);
      BecomeSize(t, Sub, Replace(t.left, t.left.left), t.right);
      SwapChildrenSize(s);
    }
  }

  lemma MinusDifferenceShrinks(t: Tree)
    ensures MinusDifference(t) == t || (Size(MinusDifference(t)) < Size(t) && Is(MinusDifference(t), Sub))
  {
    if Is(t, Neg) && Is(t.left, Sub) {
      ReplacedSize(t, t.left);
      SwapChildrenSize(Replace(t, t.left));
    }
  }

  lemma SumsShrinks(t: Tree)
    ensures Sums(t) == t || (Size(Sums(t)) < Size(t) && IsSumCode(Sums(t)))
    ensures ZeroMinus(t) != t ==> Sums(t) != t
    ensures TimesMinusOne(t) != t ==> Sums(t) != t
    ensures PlusNegative(t) != t ==> Sums(t) != t
    ensures NegativePlus(t) != t ==> Sums(t) != t
    ensures MinusDifference(t) != t ==> Sums(t) != t
  {
    var t1 := ZeroMinus(t);
    ZeroMinusShrinks(t);
    var t2 := TimesMinusOne(t1);
    TimesMinusOneShrinks(t1);
    var t3 := PlusNegative(t2);
    PlusNegativeShrinks(t2);
    var t4 := NegativePlus(t3);
    NegativePlusShrinks(t3);
    MinusDifferenceShrinks(t4);
    assert Size(Sums(t)) <= Size(t4) <= Size(t3) <= Size(t2) <= Size(t1) <= Size(t);
  }

  lemma SignIff(t: Tree)
    requires Numeric(t)
    ensures Sums(t) != t <==> HasSign(t)
  {
    SumsShrinks(t);
    SignParts(t);
    if HasSign(t) {
      SignFires(t);
    } else {
      assert Sums(t) == t;
    }
  }

  lemma SignParts(t: Tree)
    requires Numeric(t)
    ensures Is(t.right, Neg) && Operands(t.op.code) == 2 ==> t.right.left.Node?
    ensures Is(t.left, Neg) && Operands(t.op.code) >= 1 ==> t.left.left.Node?
  {
    if Is(t.right, Neg) && Operands(t.op.code) == 2 { NegationHasOperand(t.right); }
    if Is(t.left, Neg) && Operands(t.op.code) >= 1 { NegationHasOperand(t.left); }
  }

  lemma NegationHasOperand(t: Tree)
    requires Numeric(t) && Is(t, Neg)
    ensures t.left.Node?
  {
  }

  lemma SignFires(t: Tree)
    requires HasSign(t)
    requires Is(t.right, Neg) && (Is(t, Add) || Is(t, Sub)) ==> t.right.left.Node?
    requires Is(t.left, Neg) && Is(t, Add) ==> t.left.left.Node?
    ensures ZeroMinus(t) != t || TimesMinusOne(t) != t || PlusNegative(t) != t || NegativePlus(t) != t || MinusDifference(t) != t
  {
    if Is(t, Sub) && IsNumber(t.left, 0.0) {
      assert Is(ZeroMinus(t), Neg);
    } else if (Is(t, Mul) || Is(t, Div)) && IsNumber(t.right, -1.0) {
      assert Is(TimesMinusOne(t), Neg);
    } else if (Is(t, Add) || Is(t, Sub)) && Is(t.right, Neg) {
      assert PlusNegative(t).op != t.op;
    } else if Is(t, Add) {
      assert Is(NegativePlus(t), Sub);
    } else {
      assert Is(MinusDifference(t), Sub);
    }
  }

  // A sum, a difference or a negation is the end of the other rules.
  lemma SumStays(t: Tree, underAdd: bool)
    requires IsSumCode(t)
    ensures Powers(Quotients(Products(Twice(t, underAdd)))) == t
  {
    assert Twice(t, underAdd) == t && Products(t) == t && Quotients(t) == t && Powers(t) == t;
  }

  // Products, quotients and powers

  lemma QuotientsOnly(t: Tree, underAdd: bool)
    requires (Is(t, Mul) || Is(t, Div)) && Sums(t) == t && Twice(t, underAdd) == t
    ensures Is(Quotients(Products(t)), Mul) || Is(Quotients(Products(t)), Div)
    ensures StrengthNode(t, underAdd) == Quotients(Products(t))
  {
    var p := Products(t);
    assert Is(p, Mul) || Is(p, Div);
    var q := Quotients(p);
    assert Is(q, Mul) || Is(q, Div);
    assert Powers(q) == q;
  }

  // A product with a quotient becomes a quotient.
  lemma ProductBecomes(t: Tree)
    requires Is(t, Mul) && (Is(t.left, Div) || Is(t.right, Div)) && NodesBelow(t)
    ensures Is(Quotients(Products(t)), Div)
  {
    var p := Products(t);
    assert OverConstant(t) == t;
    if Is(p, Mul) {
      assert p == t;
      assert Is(TimesQuotient(QuotientTimes(t)), Div);
    }
    DivisionStays(TimesQuotient(QuotientTimes(p)));
  }

  lemma DivisionStays(t: Tree)
    requires Is(t, Div)
    ensures Is(QuotientOver(OverQuotient(t)), Div)
  {
  }

  // The operands of a product or quotient, and theirs where they are quotients.
  predicate NodesBelow(t: Tree) {
    && t.Node? && t.left.Node? && t.right.Node?
    && (Is(t.left, Div) ==> t.left.left.Node? && t.left.right.Node?)
    && (Is(t.right, Div) ==> t.right.left.Node? && t.right.right.Node?)
  }

  lemma NumericNodesBelow(t: Tree)
    requires Numeric(t) && (Is(t, Mul) || Is(t, Div))
    ensures NodesBelow(t) && Numeric(t.left) && Numeric(t.right)
  {
    assert Numeric(t.left) && Numeric(t.right);
  }

  // A quotient by a constant becomes a product, or one with another numerator.
  lemma OverConstantBecomes(t: Tree)
    requires Is(t, Div) && IsConstant(t.right) && t.right.op.imm.F? && NodesBelow(t)
    ensures Quotients(Products(t)) != t
  {
    var p := OverConstant(t);
    assert Is(p, Mul) && p.left == t.left && IsConstant(p.right);
    var r := ReciprocalTimes(p);
    assert TimesReciprocal(r) == r;
    if r != p {
      assert IsConstant(r.left) && Is(r, Div) && Products(t) == r;
      ConstantOver(r);
    } else if Is(t.left, Div) {
      var q := QuotientTimes(p);
      assert Is(q, Div) && Is(q.left, Mul) && TimesQuotient(q) == q;
      ProductOver(q);
    } else {
      assert Quotients(p) == p;
    }
  }

  // A quotient of a constant stays one of a constant or a product, and of a product one of a product.
  lemma ConstantOver(t: Tree)
    requires Is(t, Div) && IsConstant(t.left)
    ensures Is(Quotients(t), Div) && !Is(Quotients(t).left, Div)
  {
    assert TimesQuotient(QuotientTimes(t)) == t;
    var o := OverQuotient(t);
    assert Is(o, Div) && !Is(o.left, Div);
  }

  lemma ProductOver(t: Tree)
    requires Is(t, Div) && Is(t.left, Mul)
    ensures Is(QuotientOver(OverQuotient(t)), Div) && !Is(QuotientOver(OverQuotient(t)).left, Div)
  {
    var o := OverQuotient(t);
    assert Is(o, Div) && Is(o.left, Mul);
  }

  // A quotient of or by a quotient gets another numerator.
  lemma QuotientBecomes(t: Tree)
    requires Is(t, Div) && !IsConstant(t.right) && (Is(t.left, Div) || Is(t.right, Div)) && NodesBelow(t)
    ensures Quotients(Products(t)) != t
  {
    assert Products(t) == t && TimesQuotient(QuotientTimes(t)) == t;
    var o := OverQuotient(t);
    if Is(t.right, Div) {
      assert o.left == Node(Op(Mul, U(0)), t.right.vn, t.left, t.right.right);
      assert QuotientOver(o) == o;
      assert Size(o.left) > Size(t.left);
    } else {
      assert o == t;
      assert QuotientOver(t).left == t.left.left;
      assert Size(t.left.left) < Size(t.left);
    }
  }

  lemma QuotientIff(t: Tree, underAdd: bool)
    requires Numeric(t) && (Is(t, Mul) || Is(t, Div)) && !HasSign(t) && !IsDoubled(t, underAdd)
    ensures StrengthNode(t, underAdd) != t <==> HasQuotient(t)
  {
    SignIff(t);
    NumericNodesBelow(t);
    QuotientsOnly(t, underAdd);
    if Is(t, Mul) && HasQuotient(t) {
      ProductBecomes(t);
    } else if Is(t, Div) && IsConstant(t.right) {
      ConstantHasNumber(t.right);
      OverConstantBecomes(t);
    } else if HasQuotient(t) {
      QuotientBecomes(t);
    } else {
      assert Products(t) == t && Quotients(t) == t;
    }
  }

  lemma PowersOnly(t: Tree, underAdd: bool)
    requires Is(t, Pow)
    ensures StrengthNode(t, underAdd) == Powers(t)
  {
    assert Sums(t) == t && Twice(t, underAdd) == t && Products(t) == t && Quotients(t) == t;
  }

  lemma {:induction false} IntegerPowerIsOther(x: Tree, n: nat)
    requires x.Node? && n > 0
    ensures n > 1 ==> Is(IntegerPower(x, n), Mul)
    ensures n == 1 ==> Size(IntegerPower(x, n)) == Size(x)
  {
    SizeStrip(x);
  }

  lemma PowerIff(t: Tree, underAdd: bool)
    requires Numeric(t) && Is(t, Pow)
    ensures StrengthNode(t, underAdd) != t <==> HasPower(t)
  {
    PowersOnly(t, underAdd);
    PowerParts(t);
    PowersIff(t);
  }

  lemma PowersIff(t: Tree)
    requires Is(t, Pow) && t.left.Node? && Numeric(t.right)
    ensures Powers(t) != t <==> HasPower(t)
  {
    if HasPower(t) {
      PowerFires(t, t.right.op.imm.f);
    } else if IsConstant(t.right) {
      ConstantHasNumber(t.right);
      PowerStays(t, t.right.op.imm.f);
    } else {
      assert Powers(t) == t;
    }
  }

  lemma PowerStays(t: Tree, y: real)
    requires Is(t, Pow) && IsNumber(t.right, y) && (y == 0.0 || !Whole(2.0 * y))
    ensures Powers(t) == t
  {
    WholeTwice(y);
    assert HalfPower(t) == t && NegativePower(t) == t && PositivePower(t) == t;
  }

  lemma WholeTwice(y: real)
    ensures Whole(y) ==> Whole(2.0 * y)
  {
    if Whole(y) { assert 2.0 * y == y + y; WholeSum(y, y); }
  }

  lemma PowerFires(t: Tree, y: real)
    requires HasPower(t) && t.left.Node? && y == t.right.op.imm.f
    ensures Powers(t) != t
  {
    if !Whole(y) {
      assert Is(HalfPower(t), Sqrt) && Powers(t) == HalfPower(t);
    } else if y < 0.0 {
      assert HalfPower(t) == t && Is(NegativePower(t), Div) && Powers(t) == NegativePower(t);
    } else {
      assert HalfPower(t) == t && NegativePower(t) == t;
      IntegerPowerIsOther(t.left, y.Floor);
      ReplacedSize(t, IntegerPower(t.left, y.Floor));
      assert Powers(t) == Replace(t, IntegerPower(t.left, y.Floor));
    }
  }

  lemma OthersStay(t: Tree, underAdd: bool)
    requires Numeric(t) && !HasSign(t) && !Is(t, Mul) && !Is(t, Div) && !Is(t, Pow)
    ensures StrengthNode(t, underAdd) == t
  {
    SignIff(t);
    assert Twice(t, underAdd) == t && Products(t) == t && Quotients(t) == t && Powers(t) == t;
  }

  lemma StrengthNodeIff(t: Tree, underAdd: bool)
    requires Numeric(t)
    ensures StrengthNode(t, underAdd) != t <==> IsStrong(t, underAdd)
  {
    SignIff(t);
    if HasSign(t) {
      SumsShrinks(t);
      SumStays(Sums(t), underAdd);
    } else if IsDoubled(t, underAdd) {
      NumericNodesBelow(t);
      SumStays(Twice(t, underAdd), underAdd);
      assert Twice(Sums(t), underAdd) == Twice(t, underAdd) && Is(Twice(t, underAdd), Add);
      SumIsLeft(Twice(t, underAdd));
    } else if Is(t, Mul) || Is(t, Div) {
      QuotientIff(t, underAdd);
    } else if Is(t, Pow) {
      PowerIff(t, underAdd);
    } else {
      OthersStay(t, underAdd);
    }
  }

  lemma SumIsLeft(t: Tree)
    requires Is(t, Add)
    ensures Powers(Quotients(Products(t))) == t
  {
    assert Products(t) == t && Quotients(t) == t && Powers(t) == t;
  }

  lemma {:induction false} StrengthStaysIff(t: Tree, underAdd: Path -> bool, path: Path)
    requires NumericPart(t)
    ensures Stays(StrengthVisitor(underAdd), t, path) <==> NoneStrong(t, underAdd, path)
  {
    if t.Node? {
      StrengthStaysIff(t.left, underAdd, path + [false]);
      StrengthStaysIff(t.right, underAdd, path + [true]);
      assert StrengthVisitor(underAdd)(t, path) == StrengthNode(t, underAdd(path));
      VisitIff(t, underAdd(path));
    }
  }

  lemma VisitIff(t: Tree, underAdd: bool)
    requires NumericPart(t) && t.Node?
    ensures StrengthNode(t, underAdd) == t <==> !IsStrong(t, underAdd)
  {
    if Numeric(t) { StrengthNodeIff(t, underAdd); }
  }

  /** Strength reduction rewrites a tree exactly when something it looks for is in it. */
  lemma StrengthRewritesIff(t: Tree, underAdd: Path -> bool)
    requires Numeric(t)
    ensures Rewrites(StrengthVisitor(underAdd), t, []) <==> !NoneStrong(t, underAdd, [])
  {
    RewritesIff(StrengthVisitor(underAdd), t, []);
    StrengthStaysIff(t, underAdd, []);
  }

  lemma {:induction false} NoneStrongStrip(a: Tree, b: Tree, underAdd: Path -> bool, path: Path)
    requires Strip(a) == Strip(b)
    ensures NoneStrong(a, underAdd, path) <==> NoneStrong(b, underAdd, path)
  {
    if a.Node? {
      NoneStrongStrip(a.left, b.left, underAdd, path + [false]);
      NoneStrongStrip(a.right, b.right, underAdd, path + [true]);
      StrongStrip(a, b, underAdd(path));
    }
  }

  lemma StrongStrip(a: Tree, b: Tree, underAdd: bool)
    requires Strip(a) == Strip(b) && a.Node?
    ensures IsStrong(a, underAdd) <==> IsStrong(b, underAdd)
  {
    SameBelow(a, b);
    assert HasSign(a) <==> HasSign(b);
    assert HasQuotient(a) <==> HasQuotient(b);
    assert HasPower(a) <==> HasPower(b);
  }

  // Reporting

  // Whether the rules of a node report a change: all do but that for -a + b.
  predicate NodeReports(t: Tree, underAdd: bool) {
    !IsMux(t) &&
    var t2 := TimesMinusOne(ZeroMinus(t));
    var t3 := PlusNegative(t2);
    var t4 := NegativePlus(t3);
    var t5 := MinusDifference(t4);
    t2 != t || t3 != t2 || t5 != t4 || Powers(Quotients(Products(Twice(t5, underAdd)))) != t5
  }

  predicate Reports(t: Tree, underAdd: Path -> bool, path: Path) {
    t.Node? &&
    var visit := StrengthVisitor(underAdd);
    var n := t.(left := Postorder(visit, t.left, path + [false]), right := Postorder(visit, t.right, path + [true]));
    Reports(t.left, underAdd, path + [false]) || Reports(t.right, underAdd, path + [true]) || NodeReports(n, underAdd(path))
  }

  // -a + b, where b is no negation.
  predicate IsSilent(t: Tree) {
    Is(t, Add) && Is(t.left, Neg) && !Is(t.right, Neg)
  }

  /** A node reports what it rewrites unless that is -a + b alone. */
  lemma NodeReportsIff(t: Tree, underAdd: bool)
    requires Numeric(t)
    ensures NodeReports(t, underAdd) <==> IsStrong(t, underAdd) && !IsSilent(t)
  {
    SignParts(t);
    if IsSilent(t) {
      assert PlusNegative(TimesMinusOne(ZeroMinus(t))) == t && Is(NegativePlus(t), Sub);
      SumStays(NegativePlus(t), underAdd);
    } else if HasSign(t) {
      SignReports(t);
    } else {
      SignIff(t);
      NoSign(t);
      StrengthNodeIff(t, underAdd);
    }
  }

  lemma NoSign(t: Tree)
    requires !HasSign(t)
    ensures ZeroMinus(t) == t && TimesMinusOne(t) == t && PlusNegative(t) == t && NegativePlus(t) == t && MinusDifference(t) == t
  {
  }

  lemma SignReports(t: Tree)
    requires HasSign(t) && !IsSilent(t) && t.Node?
    requires Is(t.right, Neg) && (Is(t, Add) || Is(t, Sub)) ==> t.right.left.Node?
    ensures NodeReports(t, false) && NodeReports(t, true)
  {
    if Is(t, Sub) && IsNumber(t.left, 0.0) {
      ZeroMinusShrinks(t);
      TimesMinusOneShrinks(ZeroMinus(t));
      assert Is(ZeroMinus(t), Neg);
    } else if (Is(t, Mul) || Is(t, Div)) && IsNumber(t.right, -1.0) {
      assert Is(TimesMinusOne(t), Neg);
    } else if Is(t, Add) || Is(t, Sub) {
      assert PlusNegative(t).op != t.op;
    } else {
      assert Is(MinusDifference(t), Sub);
    }
  }

  predicate NoSilent(t: Tree) {
    t.Nil? || (!IsSilent(t) && NoSilent(t.left) && NoSilent(t.right))
  }

  lemma VisitReportsIff(t: Tree, underAdd: bool)
    requires NumericPart(t) && t.Node?
    ensures NodeReports(t, underAdd) <==> IsStrong(t, underAdd) && !IsSilent(t)
  {
    if Numeric(t) { NodeReportsIff(t, underAdd); }
  }

  /** The pass reports no change of a tree in which it finds something only if all it finds first is -a + b. */
  lemma {:induction false} ReportsIff(t: Tree, underAdd: Path -> bool, path: Path)
    requires NumericPart(t)
    ensures NoneStrong(t, underAdd, path) <==> !Reports(t, underAdd, path) && NoSilent(t)
  {
    if t.Node? {
      var visit := StrengthVisitor(underAdd);
      ReportsIff(t.left, underAdd, path + [false]);
      ReportsIff(t.right, underAdd, path + [true]);
      VisitReportsIff(t, underAdd(path));
      if NoneStrong(t.left, underAdd, path + [false]) && NoneStrong(t.right, underAdd, path + [true]) {
        QuietChildren(t, underAdd, path);
      }
    }
  }

  // Below a node nothing is rewritten, and so it is visited as it is.
  lemma QuietChildren(t: Tree, underAdd: Path -> bool, path: Path)
    requires NumericPart(t) && t.Node?
    requires NoneStrong(t.left, underAdd, path + [false]) && NoneStrong(t.right, underAdd, path + [true])
    ensures var visit := StrengthVisitor(underAdd);
            t.(left := Postorder(visit, t.left, path + [false]), right := Postorder(visit, t.right, path + [true])) == t
  {
    StrengthStaysIff(t.left, underAdd, path + [false]);
    StrengthStaysIff(t.right, underAdd, path + [true]);
    RewritesIff(StrengthVisitor(underAdd), t.left, path + [false]);
    RewritesIff(StrengthVisitor(underAdd), t.right, path + [true]);
  }

  // -(-x) + y
  function SilentSum(x: Tree, y: Tree): Tree {
    Make(Add, Make(Neg, Make(Neg, x, Nil), Nil), y)
  }

  /** Of -(-x) + y the pass makes y - (-x) and reports nothing, if it finds nothing else in x and y; and the result is
      one more it would rewrite. */
  lemma UnreportedChange(x: Tree, y: Tree, underAdd: Path -> bool)
    requires Numeric(x) && Numeric(y) && !Is(x, Sub) && !Is(y, Neg)
    requires NoneStrong(x, underAdd, [] + [false] + [false] + [false]) && NoneStrong(y, underAdd, [] + [true])
    ensures Numeric(SilentSum(x, y)) && !Reports(SilentSum(x, y), underAdd, [])
    ensures Strength(SilentSum(x, y), underAdd) == Make(Sub, y, Make(Neg, x, Nil))
    ensures IsStrong(Strength(SilentSum(x, y), underAdd), underAdd([]))
  {
    var negated := Make(Neg, Make(Neg, x, Nil), Nil);
    NegationIsNumeric(x);
    NegationIsNumeric(Make(Neg, x, Nil));
    NegationIsWeak(x, underAdd, [] + [false] + [false]);
    NegationIsWeak(Make(Neg, x, Nil), underAdd, [] + [false]);
    SilentSumQuiet(negated, y, underAdd);
    SilentSumBecomes(x, y, underAdd([]));
    DifferenceIsStrong(y, Make(Neg, x, Nil), underAdd([]));
  }

  lemma DifferenceIsStrong(l: Tree, r: Tree, underAdd: bool)
    requires Is(r, Neg)
    ensures IsStrong(Make(Sub, l, r), underAdd)
  {
  }

  lemma SumIsNumeric(l: Tree, r: Tree)
    requires Numeric(l) && Numeric(r)
    ensures Numeric(Make(Add, l, r))
  {
  }

  // So it is for two clips.
  lemma UnreportedForClips(load: Op, other: Op, underAdd: Path -> bool)
    requires IsLoad(load.code) && load.imm.U? && IsLoad(other.code) && other.imm.U?
    ensures var t := SilentSum(Node(load, -1, Nil, Nil), Node(other, -1, Nil, Nil));
            !Reports(t, underAdd, []) && Strength(t, underAdd) != t && IsStrong(Strength(t, underAdd), underAdd([]))
  {
    var x, y := Node(load, -1, Nil, Nil), Node(other, -1, Nil, Nil);
    ClipIsWeak(load, underAdd, [] + [false] + [false] + [false]);
    ClipIsWeak(other, underAdd, [] + [true]);
    UnreportedChange(x, y, underAdd);
  }

  lemma SilentSumQuiet(l: Tree, r: Tree, underAdd: Path -> bool)
    requires Numeric(l) && Numeric(r) && Is(l, Neg) && !Is(r, Neg)
    requires NoneStrong(l, underAdd, [] + [false]) && NoneStrong(r, underAdd, [] + [true])
    ensures Numeric(Make(Add, l, r)) && !Reports(Make(Add, l, r), underAdd, [])
    ensures Strength(Make(Add, l, r), underAdd) == StrengthNode(Make(Add, l, r), underAdd([]))
  {
    var t := Make(Add, l, r);
    SumIsNumeric(l, r);
    QuietChildren(t, underAdd, []);
    ReportsIff(l, underAdd, [] + [false]);
    ReportsIff(r, underAdd, [] + [true]);
    NodeReportsIff(t, underAdd([]));
  }

  lemma ClipIsWeak(load: Op, underAdd: Path -> bool, path: Path)
    requires IsLoad(load.code)
    ensures NoneStrong(Node(load, -1, Nil, Nil), underAdd, path)
  {
    assert !HasSign(Node(load, -1, Nil, Nil));
    assert NoneStrong(Nil, underAdd, path + [false]) && NoneStrong(Nil, underAdd, path + [true]);
  }

  lemma NegationIsWeak(x: Tree, underAdd: Path -> bool, path: Path)
    requires NoneStrong(x, underAdd, path + [false]) && !Is(x, Sub)
    ensures NoneStrong(Make(Neg, x, Nil), underAdd, path)
  {
    var t := Make(Neg, x, Nil);
    assert !HasSign(t) && !HasQuotient(t) && !HasPower(t);
    assert NoneStrong(t.right, underAdd, path + [true]);
  }

  lemma NegationIsNumeric(x: Tree)
    requires Numeric(x)
    ensures Numeric(Make(Neg, x, Nil))
  {
  }

  lemma SilentSumBecomes(x: Tree, y: Tree, underAdd: bool)
    requires x.Node? && y.Node? && !Is(y, Neg)
    ensures StrengthNode(SilentSum(x, y), underAdd) == Make(Sub, y, Make(Neg, x, Nil))
  {
    assert Sums(SilentSum(x, y)) == Make(Sub, y, Make(Neg, x, Nil));
    SumStays(Sums(SilentSum(x, y)), underAdd);
  }
}
