/** Two trees whose value the algebraic pass changes: a sum that drops its scalar, and a product under a root. */
module ExprAlgebraFails {
  import opened Options
  import opened ExprTree
  import opened ExprValueNumber
  import opened ExprReal
  import opened ExprPower
  import opened ExprRewrite
  import opened ExprProduct
  import opened ExprExpansion
  import opened ExprTermTree
  import opened ExprExponents
  import opened ExprSum
  import opened ExprSumNode
  import opened ExprProductNode
  import opened ExprSite
  import opened ExprAlgebra

  function Clip(load: Op): Tree {
    Node(load, -1, Nil, Nil)
  }

  lemma ClipVal(m: Math, load: Op)
    requires IsLoad(load.code) && load.imm.U?
    ensures Numeric(Clip(load)) && Val(m, Clip(load)) == Defined(m.load(load))
  {
  }

  // Single terms, expanded

  // Neither a constant nor anything to expand.
  predicate IsPlain(t: Tree) {
    t.Node? && !Expandable(t) && !IsConstant(t)
  }

  lemma NothingToExpand(m: Math, numbered: seq<Tree>, t: Tree)
    requires Known(m, numbered, t) && !Expandable(t)
    ensures Expansion(numbered, map[t.vn := 1.0]) == map[t.vn := 1.0]
  {
    KnownShape(m, numbered, t);
    assert Unsplit(numbered, map[t.vn := 1.0]);
    UnsplitExpansion(numbered, map[t.vn := 1.0]);
  }

  lemma PlainTerm(m: Math, numbered: seq<Tree>, t: Tree, sign: real)
    requires Known(m, numbered, t) && IsPlain(t)
    ensures ExpandedTerm(m, numbered, LeafTerm(t, sign)) == LeafTerm(t, sign)
  {
    NothingToExpand(m, numbered, t);
    KnownShape(m, numbered, t);
    NoConstants(m, numbered, map[t.vn := 1.0], |numbered|);
  }

  lemma ConstantTerm(m: Math, numbered: seq<Tree>, t: Tree, c: real)
    requires Lawful(m) && Known(m, numbered, t) && IsNumber(t, c)
    ensures ExpandedTerm(m, numbered, LeafTerm(t, 1.0)) == Term(map[], c)
  {
    NothingToExpand(m, numbered, t);
    ConstantGoes(m, numbered, t, c);
  }

  lemma ConstantGoes(m: Math, numbered: seq<Tree>, t: Tree, c: real)
    requires Lawful(m) && Known(m, numbered, t) && IsNumber(t, c)
    ensures WithoutConstants(numbered, map[t.vn := 1.0], |numbered|) == map[]
    ensures Scaled(m, numbered, map[t.vn := 1.0], 1.0, |numbered|) == c
  {
    var exps, coeff := map[t.vn := 1.0], Scaled(m, numbered, map[t.vn := 1.0], 1.0, |numbered|);
    KnownShape(m, numbered, t);
    assert WithoutConstants(numbered, exps, |numbered|) == map[];
    ConstantVal(m, numbered, t, c);
    ScalarTerm(m, numbered, Term(map[], coeff));
    assert TermVal(m, numbered, Term(map[], coeff)) == Total(m, numbered, map[], coeff);
  }

  lemma ConstantVal(m: Math, numbered: seq<Tree>, t: Tree, c: real)
    requires Lawful(m) && Known(m, numbered, t) && IsNumber(t, c)
    ensures var exps := map[t.vn := 1.0];
            Total(m, numbered, WithoutConstants(numbered, exps, |numbered|), Scaled(m, numbered, exps, 1.0, |numbered|)) ==
            Defined(c)
  {
    var exps := map[t.vn := 1.0];
    TwinKnown(m, numbered, t);
    assert KnownMap(m, numbered, exps);
    CoefficientKeeps(m, numbered, exps, 1.0, |numbered|);
    SingleProduct(m, numbered, t);
    NumberVal(m, t, c);
    OneFactor(Defined(c));
  }

  // A sum that drops its scalar

  // x - x + 3
  function CancelledSum(load: Op): Tree {
    Make(Add, Make(Sub, Clip(load), Clip(load)), Const(3.0))
  }

  lemma CancelledSumVal(m: Math, load: Op)
    requires IsLoad(load.code) && load.imm.U?
    ensures Numeric(CancelledSum(load)) && Val(m, CancelledSum(load)) == Defined(3.0)
  {
    ClipVal(m, load);
    MakeVal(m, Sub, Clip(load), Clip(load));
    NumberVal(m, Const(3.0), 3.0);
    MakeVal(m, Add, Make(Sub, Clip(load), Clip(load)), Const(3.0));
  }

  // Three terms, two of them opposite.
  lemma OppositeTerms(x: Exponents, c: real)
    requires x != map[]
    ensures var terms := [Term(x, 1.0), Term(x, -1.0), Term(map[], c)];
            NothingElse(terms, map[]) && CoeffOf(terms, map[]) == c
  {
    var terms := [Term(x, 1.0), Term(x, -1.0), Term(map[], c)];
    forall exps: Exponents
      ensures CoeffOf(terms, exps) == CoeffIn(terms[0], exps) + CoeffIn(terms[1], exps) + CoeffIn(terms[2], exps)
    {
      assert terms[..2][..1] == [terms[0]];
      CoeffOne(terms[0], exps);
    }
  }

  // The terms of a numbered x - x + c.
  lemma CancelledTerms(m: Math, numbered: seq<Tree>, t: Tree, c: real)
    requires Lawful(m) && Known(m, numbered, t) && IsCancelled(t) && IsNumber(t.right, c)
    ensures SumTerms(m, numbered, t) ==
            [LeafTerm(t.left.left, 1.0), LeafTerm(t.left.left, -1.0), Term(map[], c)]
  {
    var x := t.left.left;
    CancelledLeaves(m, numbered, t);
    PlainTerm(m, numbered, x, 1.0);
    PlainTerm(m, numbered, x, -1.0);
    ConstantTerm(m, numbered, t.right, c);
    ExpandedThree(m, numbered, LeafTerm(x, 1.0), LeafTerm(x, -1.0), LeafTerm(t.right, 1.0));
  }

  predicate IsCancelled(t: Tree) {
    && Is(t, Add) && Is(t.left, Sub) && IsConstant(t.right)
    && IsClip(t.left.left) && IsClip(t.left.right) && Strip(t.left.left) == Strip(t.left.right)
  }

  predicate IsClip(t: Tree) {
    t.Node? && IsLoad(t.op.code)
  }

  lemma CancelledLeaves(m: Math, numbered: seq<Tree>, t: Tree)
    requires Known(m, numbered, t) && IsCancelled(t)
    ensures Known(m, numbered, t.left.left) && Known(m, numbered, t.right)
    ensures LeafTerms(t, 1.0) == [LeafTerm(t.left.left, 1.0), LeafTerm(t.left.left, -1.0), LeafTerm(t.right, 1.0)]
  {
    KnownChildren(m, numbered, t);
    KnownChildren(m, numbered, t.left);
    SameNumber(numbered, t.left.left, t.left.right);
    assert LeafTerms(t.left, 1.0) == [LeafTerm(t.left.left, 1.0), LeafTerm(t.left.right, -1.0)];
    assert LeafTerms(t.right, 1.0) == [LeafTerm(t.right, 1.0)];
  }

  lemma ExpandedThree(m: Math, numbered: seq<Tree>, a: Term, b: Term, c: Term)
    ensures ExpandedTerms(m, numbered, [a, b, c]) ==
            [ExpandedTerm(m, numbered, a), ExpandedTerm(m, numbered, b), ExpandedTerm(m, numbered, c)]
  {
  }

  // A sum that drops its scalar becomes zero.
  lemma DroppedVal(m: Math, numbered: seq<Tree>, t: Tree, orders: Orders)
    requires Known(m, numbered, t) && Sorts(orders) && DropsScalar(m, numbered, t)
    ensures Numeric(SumRewrite(m, numbered, t, orders)) && Val(m, SumRewrite(m, numbered, t, orders)) == Defined(0.0)
  {
    DropsScalarIff(m, numbered, t);
    SumRewriteVal(m, numbered, t, orders);
  }

  // So this one does.
  lemma CancelledDrops(m: Math, numbered: seq<Tree>, t: Tree, orders: Orders, c: real)
    requires Lawful(m) && Known(m, numbered, t) && IsCancelled(t) && IsNumber(t.right, c) && c != 0.0 && Sorts(orders)
    ensures DropsScalar(m, numbered, t) && SumChanges(m, numbered, t, orders)
    ensures Numeric(SumRewrite(m, numbered, t, orders)) && Val(m, SumRewrite(m, numbered, t, orders)) == Defined(0.0)
  {
    CancelledTerms(m, numbered, t, c);
    var x := t.left.left.vn;
    assert x in map[x := 1.0];
    OppositeTerms(map[x := 1.0], c);
    assert DropsScalar(m, numbered, t);
    DropsScalarChanges(m, numbered, t, orders);
    DroppedVal(m, numbered, t, orders);
  }

  // A pass that rewrites the root.
  lemma RootSite(m: Math, t: Tree, orders: Orders)
    requires Numeric(t)
    requires var (root, numbered) := ExprValueNumber.Number(t, []);
             (IsSum(root) || IsFraction(root)) && Changes(m, numbered, root, orders)
    ensures var (root, numbered) := ExprValueNumber.Number(t, []);
            && PassSite(m, t, orders) == Some([]) && Algebraic(m, t, orders) == Rewrite(m, numbered, root, orders)
            && (Drops(m, t, orders) <==> IsSum(root) && DropsScalar(m, numbered, root))
  {
  }

  lemma NumberedCancelled(load: Op, t: Tree)
    requires IsLoad(load.code) && Strip(t) == Strip(CancelledSum(load))
    ensures IsCancelled(t) && IsNumber(t.right, 3.0)
  {
    var s := CancelledSum(load);
    assert Strip(t.left) == Strip(s.left) && Strip(t.right) == Strip(s.right);
    assert Strip(t.left.left) == Strip(s.left.left) && Strip(t.left.right) == Strip(s.left.right);
  }

  /** The pass rewrites x - x + 3, which is worth 3 for every x, and makes 0 of it. */
  lemma ScalarIsDropped(m: Math, load: Op, orders: Orders)
    requires Lawful(m) && IsLoad(load.code) && load.imm.U? && Sorts(orders)
    ensures Numeric(CancelledSum(load)) && Val(m, CancelledSum(load)) == Defined(3.0)
    ensures PassSite(m, CancelledSum(load), orders) == Some([]) && Drops(m, CancelledSum(load), orders)
    ensures Numeric(Algebraic(m, CancelledSum(load), orders))
    ensures Val(m, Algebraic(m, CancelledSum(load), orders)) == Defined(0.0)
  {
    var t := CancelledSum(load);
    CancelledSumVal(m, load);
    NumberedIsKnown(m, t);
    var (root, numbered) := ExprValueNumber.Number(t, []);
    NumberedCancelled(load, root);
    CancelledDrops(m, numbered, root, orders, 3.0);
    RootSite(m, t, orders);
  }

  // A product under a root

  // (x * x) ** 0.5 / y
  function RootQuotient(x: Op, y: Op): Tree {
    Make(Div, Make(Pow, Make(Mul, Clip(x), Clip(x)), Const(0.5)), Clip(y))
  }

  lemma RootQuotientVal(m: Math, x: Op, y: Op)
    requires Lawful(m) && IsLoad(x.code) && x.imm.U? && IsLoad(y.code) && y.imm.U?
    requires m.load(x) == -1.0 && m.load(y) == 1.0
    ensures Numeric(RootQuotient(x, y)) && Val(m, RootQuotient(x, y)) == Defined(1.0)
  {
    var square := Make(Mul, Clip(x), Clip(x));
    ClipVal(m, x);
    ClipVal(m, y);
    MakeVal(m, Mul, Clip(x), Clip(x));
    assert Val(m, square) == Defined(1.0);
    NumberVal(m, Const(0.5), 0.5);
    MakeVal(m, Pow, square, Const(0.5));
    PowerOfOne(m, 0.5);
    MakeVal(m, Div, Make(Pow, square, Const(0.5)), Clip(y));
  }

  // The numbered tree, with different clips.
  predicate IsRootQuotient(t: Tree) {
    && Is(t, Div) && IsPowerOfConstant(t.left) && t.left.right.op.imm.f == 0.5 && IsProduct(t.left.left)
    && IsClip(t.left.left.left) && IsClip(t.left.left.right) && IsClip(t.right)
    && Strip(t.left.left.left) == Strip(t.left.left.right) && Strip(t.left.left.left) != Strip(t.right)
  }

  // Its factors, and what is in them.
  lemma RootQuotientParts(m: Math, numbered: seq<Tree>, t: Tree)
    requires Known(m, numbered, t) && IsRootQuotient(t)
    ensures Known(m, numbered, t.left) && Known(m, numbered, t.left.left)
    ensures Known(m, numbered, t.left.left.left) && Known(m, numbered, t.right)
    ensures t.left.left.left.vn == t.left.left.right.vn
  {
    KnownChildren(m, numbered, t);
    KnownOperands(m, numbered, t.left);
    KnownOperands(m, numbered, t.left.left);
    SameNumber(numbered, t.left.left.left, t.left.left.right);
  }

  lemma NumbersDiffer(m: Math, numbered: seq<Tree>, a: Tree, b: Tree)
    requires Known(m, numbered, a) && Known(m, numbered, b) && Strip(a) != Strip(b)
    ensures a.vn != b.vn
  {
  }

  lemma RootQuotientNumbers(m: Math, numbered: seq<Tree>, t: Tree)
    requires Known(m, numbered, t) && IsRootQuotient(t)
    ensures t.right.vn != t.left.vn && t.right.vn != t.left.left.vn && t.right.vn != t.left.left.left.vn
  {
    RootQuotientParts(m, numbered, t);
    assert Strip(t.right).op != Strip(t.left).op && Strip(t.right).op != Strip(t.left.left).op;
    NumbersDiffer(m, numbered, t.right, t.left);
    NumbersDiffer(m, numbered, t.right, t.left.left);
    NumbersDiffer(m, numbered, t.right, t.left.left.left);
  }

  // Expanding it by hand: the root is gone.
  lemma RootQuotientTerm(m: Math, numbered: seq<Tree>, t: Tree)
    requires Known(m, numbered, t) && IsRootQuotient(t)
    ensures ProductTerm(m, numbered, t) == Term(map[t.left.left.left.vn := 1.0, t.right.vn := -1.0], 1.0)
  {
    RootQuotientParts(m, numbered, t);
    RootQuotientNumbers(m, numbered, t);
    RootQuotientLeaves(t);
    ExpandPower(m, numbered, t.left, t.right.vn);
    ExpandSquare(m, numbered, t.left.left, t.right.vn);
    ClipsStay(m, numbered, t.left.left.left, t.right);
  }

  lemma RootQuotientLeaves(t: Tree)
    requires IsRootQuotient(t) && t.left.vn != t.right.vn
    ensures ProductLeaves(t) == Term(map[t.left.vn := 1.0, t.right.vn := -1.0], 1.0)
  {
    assert LeafFactors(t.left, 1.0, map[]) == map[t.left.vn := 1.0];
    assert LeafFactors(t, 1.0, map[]) == Added(map[t.left.vn := 1.0], t.right.vn, -1.0);
    assert Added(map[t.left.vn := 1.0], t.right.vn, -1.0) == map[t.left.vn := 1.0, t.right.vn := -1.0];
  }

  lemma ClipIsUnsplit(m: Math, numbered: seq<Tree>, t: Tree)
    requires Known(m, numbered, t) && IsClip(t)
    ensures 0 <= t.vn < |numbered| && !Splits(numbered, t.vn) && !IsConstant(numbered[t.vn])
  {
    KnownShape(m, numbered, t);
  }

  lemma ClipsStay(m: Math, numbered: seq<Tree>, x: Tree, y: Tree)
    requires Known(m, numbered, x) && Known(m, numbered, y) && IsClip(x) && IsClip(y)
    ensures var exps := map[x.vn := 1.0, y.vn := -1.0];
            && Expansion(numbered, exps) == exps && WithoutConstants(numbered, exps, |numbered|) == exps
            && Scaled(m, numbered, exps, 1.0, |numbered|) == 1.0
  {
    var exps := map[x.vn := 1.0, y.vn := -1.0];
    ClipIsUnsplit(m, numbered, x);
    ClipIsUnsplit(m, numbered, y);
    assert Unsplit(numbered, exps);
    UnsplitExpansion(numbered, exps);
    NoConstants(m, numbered, exps, |numbered|);
  }

  // An entry of a node may be expanded by hand.
  lemma ExpandByHand(m: Math, numbered: seq<Tree>, exps: Exponents, t: Tree)
    requires Known(m, numbered, t) && Expandable(t) && t.vn in exps
    ensures Expansion(numbered, exps) == Expansion(numbered, Expanded(exps, t))
  {
    TwinExpanded(m, numbered, exps, t);
    KnownSplits(m, numbered, t.vn);
    SplitKeepsExpansion(numbered, exps, t.vn);
  }

  lemma ExpandPower(m: Math, numbered: seq<Tree>, t: Tree, y: int)
    requires Known(m, numbered, t) && IsPowerOfConstant(t) && t.right.op.imm.f == 0.5 && y != t.vn && y != t.left.vn
    ensures Expansion(numbered, map[t.vn := 1.0, y := -1.0]) == Expansion(numbered, map[t.left.vn := 0.5, y := -1.0])
  {
    var exps := map[t.vn := 1.0, y := -1.0];
    KnownOperands(m, numbered, t);
    ExpandByHand(m, numbered, exps, t);
    assert Expanded(exps, t).Keys == {t.left.vn, y};
    assert Expanded(exps, t) == map[t.left.vn := 0.5, y := -1.0];
  }

  lemma ExpandSquare(m: Math, numbered: seq<Tree>, t: Tree, y: int)
    requires Known(m, numbered, t) && IsProduct(t) && t.left.vn == t.right.vn && y != t.vn && y != t.left.vn
    ensures Expansion(numbered, map[t.vn := 0.5, y := -1.0]) == Expansion(numbered, map[t.left.vn := 1.0, y := -1.0])
  {
    var exps := map[t.vn := 0.5, y := -1.0];
    KnownOperands(m, numbered, t);
    ExpandByHand(m, numbered, exps, t);
    assert Expanded(exps, t).Keys == {t.left.vn, y};
    assert Expanded(exps, t) == map[t.left.vn := 1.0, y := -1.0];
  }

  // The value of the term: x / y.
  lemma ExpandedQuotientVal(m: Math, numbered: seq<Tree>, x: Tree, y: Tree)
    requires Lawful(m) && Known(m, numbered, x) && Known(m, numbered, y) && x.vn != y.vn
    requires Numeric(x) && Numeric(y) && Val(m, x) == Defined(-1.0) && Val(m, y) == Defined(1.0)
    ensures TermVal(m, numbered, Term(map[x.vn := 1.0, y.vn := -1.0], 1.0)) == Defined(-1.0)
  {
    KnownVal(m, numbered, x);
    KnownVal(m, numbered, y);
    TwoEntries(m, ValuesOf(m, numbered), x.vn, 1.0, y.vn, -1.0);
    PowerOne(m, -1.0);
    PowerOfOne(m, -1.0);
  }

  /** The pass rewrites (x * x) ** 0.5 / y, and for x = -1 and y = 1 makes -1 of a tree worth 1. */
  lemma FractionalExpansionFails(m: Math, x: Op, y: Op, orders: Orders)
    requires Lawful(m) && IsLoad(x.code) && x.imm.U? && IsLoad(y.code) && y.imm.U? && Sorts(orders)
    requires m.load(x) == -1.0 && m.load(y) == 1.0
    ensures Numeric(RootQuotient(x, y)) && Val(m, RootQuotient(x, y)) == Defined(1.0)
    ensures PassSite(m, RootQuotient(x, y), orders) == Some([])
    ensures Numeric(Algebraic(m, RootQuotient(x, y), orders))
    ensures Val(m, Algebraic(m, RootQuotient(x, y), orders)) == Defined(-1.0)
  {
    var t := RootQuotient(x, y);
    RootQuotientVal(m, x, y);
    NumberedIsKnown(m, t);
    var (root, numbered) := ExprValueNumber.Number(t, []);
    NumberedRootQuotient(x, y, root);
    RootQuotientVals(m, x, y, numbered, root);
    RootQuotientBecomes(m, numbered, root, orders);
    QuotientChanges(m, numbered, root, orders);
    RootSite(m, t, orders);
  }

  lemma RootQuotientVals(m: Math, x: Op, y: Op, numbered: seq<Tree>, t: Tree)
    requires IsLoad(x.code) && x.imm.U? && IsLoad(y.code) && y.imm.U? && IsRootQuotient(t)
    requires Strip(t.left.left.left) == Strip(Clip(x)) && Strip(t.right) == Strip(Clip(y))
    ensures Numeric(t.left.left.left) && Val(m, t.left.left.left) == Defined(m.load(x))
    ensures Numeric(t.right) && Val(m, t.right) == Defined(m.load(y))
  {
    ClipVal(m, x);
    ClipVal(m, y);
    ValStrip(m, t.left.left.left, Clip(x));
    ValStrip(m, t.right, Clip(y));
  }

  lemma RootQuotientBecomes(m: Math, numbered: seq<Tree>, t: Tree, orders: Orders)
    requires Lawful(m) && Known(m, numbered, t) && IsRootQuotient(t) && Sorts(orders)
    requires Numeric(t.left.left.left) && Val(m, t.left.left.left) == Defined(-1.0)
    requires Numeric(t.right) && Val(m, t.right) == Defined(1.0)
    ensures Numeric(ProductRewrite(m, numbered, t, orders))
    ensures Val(m, ProductRewrite(m, numbered, t, orders)) == Defined(-1.0)
  {
    RootQuotientTerm(m, numbered, t);
    RootQuotientParts(m, numbered, t);
    RootQuotientNumbers(m, numbered, t);
    ExpandedQuotientVal(m, numbered, t.left.left.left, t.right);
    ProductRewriteVal(m, numbered, t, orders);
  }

  // A quotient is always rewritten.
  lemma QuotientChanges(m: Math, numbered: seq<Tree>, t: Tree, orders: Orders)
    requires Is(t, Div)
    ensures Changes(m, numbered, t, orders) && Rewrite(m, numbered, t, orders) == ProductRewrite(m, numbered, t, orders)
  {
    assert Divisions(t) > 0;
  }

  lemma NumberedRootQuotient(x: Op, y: Op, t: Tree)
    requires x != y && IsLoad(x.code) && IsLoad(y.code) && Strip(t) == Strip(RootQuotient(x, y))
    ensures IsRootQuotient(t)
    ensures Strip(t.left.left.left) == Strip(Clip(x)) && Strip(t.right) == Strip(Clip(y))
  {
    var s := RootQuotient(x, y);
    assert Strip(t.left) == Strip(s.left) && Strip(t.right) == Strip(s.right);
    assert Strip(t.left.left) == Strip(s.left.left) && Strip(t.left.right) == Strip(s.left.right);
    assert Strip(t.left.left.left) == Strip(s.left.left.left) && Strip(t.left.left.right) == Strip(s.left.left.right);
    assert Strip(Clip(x)).op != Strip(Clip(y)).op;
  }
}
