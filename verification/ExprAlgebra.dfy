/** The algebraic pass: the first sum or product in the tree that can be made shorter or put in order is rewritten. */
module ExprAlgebra {
  import opened Options
  import opened ExprTree
  import opened ExprValueNumber
  import opened ExprReal
  import opened ExprPower
  import opened ExprRewrite
  import opened ExprProduct
  import opened ExprExpansion
  import opened ExprTermTree
  import opened ExprExponents
  import opened ExprSum
  import opened ExprAdditive
  import opened ExprSumNode
  import opened ExprProductNode
  import opened ExprSite

  // The sums and products that change, and what becomes of one.

  predicate Changes(m: Math, numbered: seq<Tree>, t: Tree, orders: Orders) {
    if IsSum(t) then SumChanges(m, numbered, t, orders) else IsFraction(t) && ProductChanges(m, numbered, t, orders)
  }

  function Rewrite(m: Math, numbered: seq<Tree>, t: Tree, orders: Orders): Tree {
    if t.Nil? then Nil
    else if IsSum(t) then SumRewrite(m, numbered, t, orders) else ProductRewrite(m, numbered, t, orders)
  }

  function Changing(m: Math, numbered: seq<Tree>, orders: Orders): Tree -> bool {
    n => Changes(m, numbered, n, orders)
  }

  function Rewriting(m: Math, numbered: seq<Tree>, orders: Orders): Tree -> Tree {
    n => Rewrite(m, numbered, n, orders)
  }

  // The place in the numbered tree that the pass rewrites.
  function PassSite(m: Math, t: Tree, orders: Orders): Option<Path> {
    var (root, numbered) := ExprValueNumber.Number(t, []);
    Site(Changing(m, numbered, orders), root, false, false)
  }

  /** The pass: the tree is numbered, and at most one sum or product of it rewritten. */
  function Algebraic(m: Math, t: Tree, orders: Orders): Tree {
    var (root, numbered) := ExprValueNumber.Number(t, []);
    RewriteAt(Rewriting(m, numbered, orders), root, PassSite(m, t, orders))
  }

  /** What it rewrites is a sum without products, worth a number that is not zero. */
  ghost predicate Drops(m: Math, t: Tree, orders: Orders) {
    var (root, numbered) := ExprValueNumber.Number(t, []);
    var site := PassSite(m, t, orders);
    site.Some? && IsSum(At(root, site.value)) && DropsScalar(m, numbered, At(root, site.value))
  }

  /** When rewriting keeps the value: a sum has whole exponents and does not drop its scalar, and of a product the signs of
      the operands allow it. */
  ghost predicate RewriteFine(m: Math, numbered: seq<Tree>, t: Tree) {
    if IsSum(t) then AllWhole(t) && !DropsScalar(m, numbered, t) else ProductFine(m, numbered, t)
  }

  ghost predicate SiteFine(m: Math, t: Tree, orders: Orders) {
    var (root, numbered) := ExprValueNumber.Number(t, []);
    var site := PassSite(m, t, orders);
    site.Some? ==> RewriteFine(m, numbered, At(root, site.value))
  }

  // What the pass keeps

  // What the walk may meet: a numbered operand of known value, the MUX over two, or nothing.
  ghost predicate KnownPart(m: Math, numbered: seq<Tree>, t: Tree) {
    && Canonical(numbered) && NumericPart(t)
    && Faithful(t, numbered) && Valued(m, ValuesOf(m, numbered), t)
  }

  lemma KnownPartChildren(m: Math, numbered: seq<Tree>, t: Tree)
    requires KnownPart(m, numbered, t) && t.Node?
    ensures KnownPart(m, numbered, t.left) && KnownPart(m, numbered, t.right)
    ensures !IsMux(t) ==> Known(m, numbered, t) && Numeric(t)
  {
  }

  /** What is rewritten keeps its value exactly when it is a sum that does not drop its scalar, or a product whose signs
      allow it. */
  lemma RewriteKeepsIff(m: Math, numbered: seq<Tree>, t: Tree, orders: Orders)
    requires Lawful(m) && Known(m, numbered, t) && (IsSum(t) ==> AllWhole(t)) && Sorts(orders)
    ensures Numeric(t)
    ensures KeepsVal(m, t, Rewrite(m, numbered, t, orders)) <==>
            if IsSum(t) then Val(m, t).Undefined? || !DropsScalar(m, numbered, t) else ProductFine(m, numbered, t)
  {
    if IsSum(t) { SumRewriteKeepsIff(m, numbered, t, orders); } else { ProductRewriteKeepsIff(m, numbered, t, orders); }
  }

  lemma {:induction false} KnownAt(m: Math, numbered: seq<Tree>, t: Tree, path: Path)
    requires KnownPart(m, numbered, t)
    ensures KnownPart(m, numbered, At(t, path)) && (AllWhole(t) ==> AllWhole(At(t, path)))
  {
    if path != [] && t.Node? {
      KnownPartChildren(m, numbered, t);
      KnownAt(m, numbered, if path[0] then t.right else t.left, path[1..]);
    }
  }

  lemma RewriteAtKeeps(m: Math, numbered: seq<Tree>, t: Tree, site: Path, orders: Orders)
    requires Lawful(m) && KnownPart(m, numbered, t) && Sorts(orders)
    requires ChangesAt(Changing(m, numbered, orders), t, false, false, site) && RewriteFine(m, numbered, At(t, site))
    ensures KeepsPart(m, t, RewriteAt(Rewriting(m, numbered, orders), t, Some(site)))
  {
    var s := At(t, site);
    SiteIsTop(Changing(m, numbered, orders), t, false, false, site);
    KnownAt(m, numbered, t, site);
    RewriteKeepsIff(m, numbered, s, orders);
    ReplaceAtKeeps(m, t, site, Rewrite(m, numbered, s, orders));
  }

  // Numbering gives a tree the walk may meet.
  lemma NumberedIsKnown(m: Math, t: Tree)
    requires Numeric(t)
    ensures var (root, numbered) := ExprValueNumber.Number(t, []);
            && Strip(root) == Strip(t) && KnownPart(m, numbered, root) && Known(m, numbered, root)
            && Numeric(root) && Val(m, root) == Val(m, t) && (AllWhole(root) <==> AllWhole(t))
  {
    NumericIsWellFormed(t);
    NumberIsFaithful(t, []);
    var (root, numbered) := ExprValueNumber.Number(t, []);
    ValStrip(m, root, t);
    FaithfulIsValued(m, numbered, root);
    WholeShape(root, t);
  }

  lemma {:induction false} WholeShape(a: Tree, b: Tree)
    requires Strip(a) == Strip(b)
    ensures AllWhole(a) <==> AllWhole(b)
  {
    SameShape(a, b);
    if a.Node? {
      WholeShape(a.left, b.left);
      WholeShape(a.right, b.right);
    }
  }

  /** The pass keeps the value of the tree if what it rewrites keeps its value. */
  lemma AlgebraicKeeps(m: Math, t: Tree, orders: Orders)
    requires Lawful(m) && Numeric(t) && Sorts(orders) && SiteFine(m, t, orders)
    ensures KeepsVal(m, t, Algebraic(m, t, orders))
  {
    NumberedIsKnown(m, t);
    var (root, numbered) := ExprValueNumber.Number(t, []);
    var site := PassSite(m, t, orders);
    SiteIsThere(Changing(m, numbered, orders), root, false, false, []);
    if site.Some? { RewriteAtKeeps(m, numbered, root, site.value, orders); }
  }

  /** That is so if no product, quotient or power stands under a fractional power and no scalar is dropped. */
  lemma AllWholeSiteFine(m: Math, t: Tree, orders: Orders)
    requires Lawful(m) && Numeric(t) && Sorts(orders) && AllWhole(t) && !Drops(m, t, orders)
    ensures SiteFine(m, t, orders)
  {
    NumberedIsKnown(m, t);
    var (root, numbered) := ExprValueNumber.Number(t, []);
    var site := PassSite(m, t, orders);
    SiteIsThere(Changing(m, numbered, orders), root, false, false, []);
    if site.Some? { WholeAtFine(m, numbered, root, site.value, orders); }
  }

  lemma WholeAtFine(m: Math, numbered: seq<Tree>, t: Tree, site: Path, orders: Orders)
    requires Lawful(m) && KnownPart(m, numbered, t) && AllWhole(t) && Sorts(orders)
    requires ChangesAt(Changing(m, numbered, orders), t, false, false, site)
    requires !(IsSum(At(t, site)) && DropsScalar(m, numbered, At(t, site)))
    ensures RewriteFine(m, numbered, At(t, site))
  {
    SiteIsTop(Changing(m, numbered, orders), t, false, false, site);
    KnownAt(m, numbered, t, site);
    WholeRewriteFine(m, numbered, At(t, site), orders);
  }

  lemma WholeRewriteFine(m: Math, numbered: seq<Tree>, t: Tree, orders: Orders)
    requires Lawful(m) && Known(m, numbered, t) && AllWhole(t) && Sorts(orders) && (IsSum(t) ==> !DropsScalar(m, numbered, t))
    ensures RewriteFine(m, numbered, t)
  {
    if !IsSum(t) {
      ProductRewriteKeeps(m, numbered, t, orders);
      ProductRewriteKeepsIff(m, numbered, t, orders);
    }
  }

  // The pass as the source makes it

  lemma KnownBoth(m: Math, numbered: seq<Tree>, t: Tree)
    requires Known(m, numbered, t) && (IsSum(t) || IsFraction(t))
    ensures Known(m, numbered, t.left) && Known(m, numbered, t.right)
  {
    KnownChildren(m, numbered, t);
  }

  // The terms of a sum, each with its sign.
  method CollectSum(m: Math, t: Tree, sign: real, expr: AdditiveSequence, index: ValueIndex, ghost numbered: seq<Tree>)
    returns (grown: ValueIndex, count: nat)
    requires Known(m, numbered, t) && expr.Valid() && Indexed(m, numbered, index) && Covered(index, expr.Terms())
    modifies expr`terms
    ensures expr.Valid() && Indexed(m, numbered, grown) && Covered(grown, expr.Terms()) && index.Keys <= grown.Keys
    ensures forall x <- expr.terms :: x in old(expr.terms) || fresh(x)
    ensures expr.Terms() == old(expr.Terms()) + LeafTerms(t, sign) && count == |LeafTerms(t, sign)|
    decreases t
  {
    if IsSum(t) {
      KnownBoth(m, numbered, t);
      var left, right;
      grown, left := CollectSum(m, t.left, sign, expr, index, numbered);
      grown, right := CollectSum(m, t.right, RightSign(t, sign), expr, grown, numbered);
      count := left + right;
    } else {
      grown := CollectLeaf(m, t, sign, expr, index, numbered);
      count := 1;
    }
  }

  method CollectLeaf(m: Math, t: Tree, sign: real, expr: AdditiveSequence, index: ValueIndex, ghost numbered: seq<Tree>)
    returns (grown: ValueIndex)
    requires Known(m, numbered, t) && expr.Valid() && Indexed(m, numbered, index) && Covered(index, expr.Terms())
    modifies expr`terms
    ensures expr.Valid() && Indexed(m, numbered, grown) && Covered(grown, expr.Terms()) && index.Keys <= grown.Keys
    ensures forall x <- expr.terms :: x in old(expr.terms) || fresh(x)
    ensures expr.Terms() == old(expr.Terms()) + [LeafTerm(t, sign)]
  {
    expr.AddTerm(t.vn, sign);
    grown := index[t.vn := t];
  }

  /** A sum: its terms are expanded, collected and sorted, and it is written back if that made it shorter or changed the
      order. */
  method AnalyzeAdditive(m: Math, t: Tree, orders: Orders, ghost numbered: seq<Tree>) returns (r: Tree, changed: bool)
    requires Known(m, numbered, t) && Sorts(orders)
    ensures changed <==> SumChanges(m, numbered, t, orders)
    ensures r == if changed then SumRewrite(m, numbered, t, orders) else t
  {
    var expr, index, count := ExpandSum(m, t, numbered);
    var canonical := expr.Canonicalize(orders.terms);
    changed := |expr.terms| + 1 < count || !canonical;
    r := t;
    if changed {
      r := WriteSum(m, t, orders, expr, index, numbered);
    }
  }

  method WriteSum(m: Math, t: Tree, orders: Orders, expr: AdditiveSequence, index: ValueIndex, ghost numbered: seq<Tree>)
    returns (r: Tree)
    requires Known(m, numbered, t) && Sorts(orders) && expr.Valid() && Indexed(m, numbered, index)
    requires var terms := SumRest(m, numbered, t);
             Covered(index, terms) && expr.Terms() == Picked(terms, orders.terms(terms))
    requires expr.scalarTerm == SumScalar(m, numbered, t)
    ensures r == SumRewrite(m, numbered, t, orders)
  {
    PickedCovered(index, SumRest(m, numbered, t), orders.terms(SumRest(m, numbered, t)));
    var tree := expr.Emit(m, orders.entries, index, numbered);
    SumRewriteVal(m, numbered, t, orders);
    r := Replace(t, tree);
  }

  method ExpandSum(m: Math, t: Tree, ghost numbered: seq<Tree>)
    returns (expr: AdditiveSequence, index: ValueIndex, count: nat)
    requires Known(m, numbered, t)
    ensures fresh(expr) && expr.Valid() && Indexed(m, numbered, index) && Covered(index, expr.Terms())
    ensures expr.Terms() == SumRest(m, numbered, t) && expr.scalarTerm == SumScalar(m, numbered, t)
    ensures count == |LeafTerms(t, 1.0)|
  {
    expr := new AdditiveSequence();
    index, count := CollectSum(m, t, 1.0, expr, map[], numbered);
    assert expr.Terms() == LeafTerms(t, 1.0);
    assert forall x <- expr.terms :: fresh(x);
    assert forall k | 0 <= k < |expr.terms| :: expr.terms[k] in expr.terms;
    index := expr.Expand(m, index, numbered);
  }

  lemma PickedCovered(index: ValueIndex, terms: seq<Term>, p: seq<nat>)
    requires Covered(index, terms) && IsPermutation(p, |terms|)
    ensures Covered(index, Picked(terms, p))
  {
  }

  // The factors of a product, each with its exponent.
  method CollectProduct(m: Math, t: Tree, e: real, expr: ExponentMap, index: ValueIndex, ghost numbered: seq<Tree>)
    returns (grown: ValueIndex, count: nat, divisions: nat)
    requires Known(m, numbered, t) && Indexed(m, numbered, index) && expr.exps.Keys <= index.Keys
    modifies expr`exps
    ensures Indexed(m, numbered, grown) && expr.exps.Keys <= grown.Keys
    ensures expr.exps == LeafFactors(t, e, old(expr.exps)) && count == LeafCount(t) && divisions == Divisions(t)
    decreases t
  {
    if IsFraction(t) {
      KnownBoth(m, numbered, t);
      var lc, ld, rc, rd;
      grown, lc, ld := CollectProduct(m, t.left, e, expr, index, numbered);
      grown, rc, rd := CollectProduct(m, t.right, RightExponent(t, e), expr, grown, numbered);
      count, divisions := lc + rc, ld + rd + (if Is(t, Div) then 1 else 0);
    } else {
      grown := CollectFactor(m, t, e, expr, index, numbered);
      count, divisions := 1, 0;
    }
  }

  method CollectFactor(m: Math, t: Tree, e: real, expr: ExponentMap, index: ValueIndex, ghost numbered: seq<Tree>)
    returns (grown: ValueIndex)
    requires Known(m, numbered, t) && Indexed(m, numbered, index) && expr.exps.Keys <= index.Keys
    modifies expr`exps
    ensures Indexed(m, numbered, grown) && expr.exps.Keys <= grown.Keys
    ensures expr.exps == Added(old(expr.exps), t.vn, e)
  {
    ghost var before := expr.exps;
    expr.AddTerm(t.vn, e);
    AddedByEntry(before, expr.exps, t.vn, e);
    grown := index[t.vn := t];
  }

  /** A product: its factors are expanded and collected, and it is written back if that made it shorter, its order was
      not canonical, or it had divisions. */
  method AnalyzeMultiplicative(m: Math, t: Tree, orders: Orders, ghost numbered: seq<Tree>) returns (r: Tree, changed: bool)
    requires Known(m, numbered, t) && Sorts(orders)
    ensures changed <==> ProductChanges(m, numbered, t, orders)
    ensures r == if changed then ProductRewrite(m, numbered, t, orders) else t
  {
    var expr, index, count, divisions := ExpandProduct(m, t, numbered);
    changed := |expr.exps| + 1 < count || !orders.canonical(t) || divisions > 0;
    r := t;
    if changed {
      var order := orders.entries(expr.exps);
      assert IsOrder(order, expr.exps);
      var tree := expr.Emit(order, m, index, numbered);
      r := Replace(t, tree);
    }
  }

  method ExpandProduct(m: Math, t: Tree, ghost numbered: seq<Tree>)
    returns (expr: ExponentMap, index: ValueIndex, count: nat, divisions: nat)
    requires Known(m, numbered, t)
    ensures Indexed(m, numbered, index) && expr.exps.Keys <= index.Keys
    ensures expr.AsTerm() == ProductTerm(m, numbered, t) && count == LeafCount(t) && divisions == Divisions(t)
  {
    expr := new ExponentMap();
    index, count, divisions := CollectProduct(m, t, 1.0, expr, map[], numbered);
    assert expr.AsTerm() == ProductLeaves(t);
    index := expr.Expand(m, index, numbered);
  }

  // What the walk does at one node.
  method AnalyzeNode(m: Math, t: Tree, underSum: bool, underProduct: bool, orders: Orders, ghost numbered: seq<Tree>)
    returns (r: Tree, changed: bool)
    requires KnownPart(m, numbered, t) && t.Node? && Sorts(orders)
    ensures changed <==> IsTop(t, underSum, underProduct) && Changing(m, numbered, orders)(t)
    ensures r == if changed then Rewriting(m, numbered, orders)(t) else t
  {
    r, changed := t, false;
    KnownPartChildren(m, numbered, t);
    if IsSum(t) && !underSum {
      r, changed := AnalyzeAdditive(m, t, orders, numbered);
    } else if IsFraction(t) && !underProduct {
      r, changed := AnalyzeMultiplicative(m, t, orders, numbered);
    }
  }

  // The walk looks at the top of each sum and each product and stops at the first that is rewritten.
  method AlgebraicWalk(m: Math, t: Tree, underSum: bool, underProduct: bool, orders: Orders, ghost numbered: seq<Tree>)
    returns (r: Tree, changed: bool)
    requires KnownPart(m, numbered, t) && Sorts(orders)
    ensures var site := Site(Changing(m, numbered, orders), t, underSum, underProduct);
            (changed <==> site.Some?) && r == RewriteAt(Rewriting(m, numbered, orders), t, site)
    decreases t
  {
    r, changed := t, false;
    if t.Nil? {
      return;
    }
    KnownPartChildren(m, numbered, t);
    r, changed := AnalyzeNode(m, t, underSum, underProduct, orders, numbered);
    if !changed {
      WalkStep(Changing(m, numbered, orders), Rewriting(m, numbered, orders), t, underSum, underProduct);
      var l, rr := t.left, t.right;
      l, changed := AlgebraicWalk(m, t.left, IsSum(t), IsFraction(t), orders, numbered);
      if !changed {
        rr, changed := AlgebraicWalk(m, t.right, IsSum(t), IsFraction(t), orders, numbered);
      }
      r := Node(t.op, t.vn, l, rr);
    }
  }

  /** The algebraic pass makes the tree specified, and says whether it rewrote anything. */
  method AlgebraicOptimizations(m: Math, t: Tree, orders: Orders) returns (r: Tree, changed: bool)
    requires Numeric(t) && Sorts(orders)
    ensures r == Algebraic(m, t, orders)
    ensures changed <==> PassSite(m, t, orders).Some?
  {
    NumberedIsKnown(m, t);
    var numbering := new Numbering();
    var root := numbering.Visit(t);
    r, changed := AlgebraicWalk(m, root, false, false, orders, numbering.numbered);
  }
}
