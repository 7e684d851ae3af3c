/** Trees with whole exponents and without roots in the algebraic pass: it meets no fractional power and makes none. */
module ExprTameAlgebra {
  import opened Options
  import opened ExprTree
  import opened ExprValueNumber
  import opened ExprReal
  import opened ExprPower
  import opened ExprRewrite
  import opened ExprProduct
  import opened ExprExpansion
  import opened ExprTermTree
  import opened ExprSum
  import opened ExprAdditive
  import opened ExprSumNode
  import opened ExprProductNode
  import opened ExprSite
  import opened ExprAlgebra
  import opened ExprTame

  lemma {:induction false} TameWholePowers(m: Math, t: Tree)
    requires Tame(m, t)
    ensures WholePowers(t)
  {
    if Expandable(t) {
      TameParts(m, t);
      TameWholePowers(m, t.left);
      if IsPowerOfConstant(t) { NumberVal(m, t.right, t.right.op.imm.f); } else { TameWholePowers(m, t.right); }
    }
  }

  lemma {:induction false} TameAllWhole(m: Math, t: Tree)
    requires Tame(m, t)
    ensures AllWhole(t)
  {
    TameWholePowers(m, t);
    if t.Node? {
      TameParts(m, t);
      TameAllWhole(m, t.left);
      TameAllWhole(m, t.right);
    }
  }

  // Maps of whole exponents over tame numbers

  ghost predicate TameMap(m: Math, numbered: seq<Tree>, exps: Exponents) {
    forall k <- exps :: TameEntry(m, numbered, k, exps[k])
  }

  ghost predicate TameEntry(m: Math, numbered: seq<Tree>, k: int, e: real) {
    KnownNumber(m, numbered, k) && Tame(m, numbered[k]) && Whole(e)
  }

  lemma TameAdded(m: Math, numbered: seq<Tree>, exps: Exponents, k: int, e: real)
    requires TameMap(m, numbered, exps) && TameEntry(m, numbered, k, e)
    ensures TameMap(m, numbered, Added(exps, k, e))
  {
    if k in exps {
      assert TameEntry(m, numbered, k, exps[k]);
      WholeSum(exps[k], e);
    }
  }

  // The operands of a tame number.
  lemma TameSplits(m: Math, numbered: seq<Tree>, k: int, e: real)
    requires TameEntry(m, numbered, k, e) && Expandable(numbered[k])
    ensures var t := numbered[k];
            && TameEntry(m, numbered, t.left.vn, e) && TameEntry(m, numbered, t.right.vn, RightExponent(t, e))
            && (IsPowerOfConstant(t) ==> TameEntry(m, numbered, t.left.vn, PowerExponent(t, e)))
  {
    var t := numbered[k];
    KnownSplits(m, numbered, k);
    KnownOperands(m, numbered, t);
    TameParts(m, t);
    TameTwin(m, numbered, t.left);
    TameTwin(m, numbered, t.right);
    WholeSum(e, e);
    if IsPowerOfConstant(t) {
      NumberVal(m, t.right, t.right.op.imm.f);
      WholeExponent(t, e);
    }
  }

  lemma TameTwin(m: Math, numbered: seq<Tree>, t: Tree)
    requires Known(m, numbered, t) && Tame(m, t)
    ensures KnownNumber(m, numbered, t.vn) && Tame(m, numbered[t.vn])
  {
    TwinKnown(m, numbered, t);
    TameShape(m, numbered[t.vn], t);
  }

  lemma TameExpanded(m: Math, numbered: seq<Tree>, exps: Exponents, k: int)
    requires TameMap(m, numbered, exps) && k in exps && KnownNumber(m, numbered, k) && Expandable(numbered[k])
    ensures TameMap(m, numbered, Expanded(exps, numbered[k]))
  {
    var t, e := numbered[k], exps[k];
    assert TameEntry(m, numbered, k, e);
    TameSplits(m, numbered, k, e);
    if IsPowerOfConstant(t) {
      TameAdded(m, numbered, exps, t.left.vn, PowerExponent(t, e));
    } else {
      TameAdded(m, numbered, exps, t.left.vn, e);
      TameAdded(m, numbered, Added(exps, t.left.vn, e), t.right.vn, RightExponent(t, e));
    }
  }

  /** Expanding keeps the exponents whole and the numbers tame. */
  lemma {:induction false} TameExpansion(m: Math, numbered: seq<Tree>, exps: Exponents)
    requires KnownMap(m, numbered, exps) && TameMap(m, numbered, exps)
    ensures TameMap(m, numbered, Expansion(numbered, exps))
    decreases Weight(exps, |numbered|)
  {
    if Unsplit(numbered, exps) {
      UnsplitExpansion(numbered, exps);
    } else {
      var k :| k in exps && !(0 <= k < |numbered| && !Splits(numbered, k));
      assert KnownNumber(m, numbered, k);
      var more := Expanded(exps, numbered[k]);
      ExpandedKnown(m, numbered, exps, k);
      TameExpanded(m, numbered, exps, k);
      ExpandedLighter(exps, numbered[k], |numbered|);
      SplitKeepsExpansion(numbered, exps, k);
      TameExpansion(m, numbered, more);
    }
  }

  lemma TameExpandedTerm(m: Math, numbered: seq<Tree>, t: Term)
    requires KnownMap(m, numbered, t.exps) && TameMap(m, numbered, t.exps)
    ensures TameMap(m, numbered, ExpandedTerm(m, numbered, t).exps)
  {
    TameExpansion(m, numbered, t.exps);
  }

  // Trees written back

  lemma TameFactor(m: Math, numbered: seq<Tree>, k: int, e: real)
    requires TameEntry(m, numbered, k, e)
    ensures Tame(m, FactorTree(numbered, k, e))
  {
    TameStrip(m, numbered[k]);
    TameConst(m, e);
    NumberVal(m, Const(e), e);
    TameNode(m, FactorTree(numbered, k, e));
  }

  lemma {:induction false} TameFactors(m: Math, numbered: seq<Tree>, exps: Exponents, order: seq<int>)
    requires TameMap(m, numbered, exps) && forall k <- order :: k in exps
    ensures Tame(m, FactorsTree(numbered, exps, order))
  {
    if |order| > 0 {
      var k, front := order[|order| - 1], order[..|order| - 1];
      assert k in order && k in exps && TameEntry(m, numbered, k, exps[k]);
      assert forall j <- front :: j in order;
      TameFactors(m, numbered, exps, front);
      TameFactor(m, numbered, k, exps[k]);
      if |front| > 0 { TameNode(m, FactorsTree(numbered, exps, order)); }
    }
  }

  lemma TameTermTree(m: Math, numbered: seq<Tree>, t: Term, order: seq<int>)
    requires TameMap(m, numbered, t.exps) && IsOrder(order, t.exps)
    ensures TermTree(numbered, t, order).Node? && Tame(m, TermTree(numbered, t, order))
  {
    assert forall k <- order :: k in t.exps;
    TameFactors(m, numbered, t.exps, order);
    TameConst(m, t.coeff);
    TameNode(m, TermTree(numbered, t, order));
  }

  ghost predicate TameTerms(m: Math, numbered: seq<Tree>, terms: seq<Term>) {
    forall i | 0 <= i < |terms| :: TameMap(m, numbered, terms[i].exps)
  }

  lemma {:induction false} TameTermsTree(m: Math, numbered: seq<Tree>, terms: seq<Term>, sort: Exponents -> seq<int>)
    requires TameTerms(m, numbered, terms) && SortsEntries(sort)
    ensures Tame(m, TermsTree(numbered, terms, sort))
  {
    if |terms| > 0 {
      var t, front := terms[|terms| - 1], terms[..|terms| - 1];
      TameTermsTree(m, numbered, front, sort);
      TameTermTree(m, numbered, t, sort(t.exps));
      if TermsTree(numbered, front, sort).Node? { TameNode(m, TermsTree(numbered, terms, sort)); }
    }
  }

  lemma TameSumTree(m: Math, numbered: seq<Tree>, terms: seq<Term>, scalar: real, sort: Exponents -> seq<int>)
    requires TameTerms(m, numbered, terms) && SortsEntries(sort)
    ensures Tame(m, SumTree(numbered, terms, scalar, sort))
  {
    TameTermsTree(m, numbered, terms, sort);
    TameConst(m, 0.0);
    TameConst(m, if scalar < 0.0 then -scalar else scalar);
    if TermsTree(numbered, terms, sort).Node? { TameNode(m, SumTree(numbered, terms, scalar, sort)); }
  }

  // A sum

  lemma {:induction false} TameLeafTerms(m: Math, numbered: seq<Tree>, t: Tree, sign: real)
    requires Known(m, numbered, t) && Tame(m, t)
    ensures TameTerms(m, numbered, LeafTerms(t, sign))
  {
    if IsSum(t) {
      KnownBoth(m, numbered, t);
      TameParts(m, t);
      TameLeafTerms(m, numbered, t.left, sign);
      TameLeafTerms(m, numbered, t.right, RightSign(t, sign));
    } else {
      TameTwin(m, numbered, t);
      assert TameEntry(m, numbered, t.vn, 1.0);
    }
  }

  lemma TameSumRest(m: Math, numbered: seq<Tree>, t: Tree)
    requires Known(m, numbered, t) && Tame(m, t)
    ensures TameTerms(m, numbered, SumRest(m, numbered, t))
  {
    var leaves, terms := LeafTerms(t, 1.0), SumTerms(m, numbered, t);
    TameLeafTerms(m, numbered, t, 1.0);
    LeafTermsKnown(m, numbered, t, 1.0);
    forall i | 0 <= i < |terms| ensures TameMap(m, numbered, terms[i].exps) {
      TameExpandedTerm(m, numbered, leaves[i]);
    }
    TameCollected(m, numbered, terms);
  }

  lemma TameCollected(m: Math, numbered: seq<Tree>, terms: seq<Term>)
    requires TameTerms(m, numbered, terms)
    ensures TameTerms(m, numbered, Collect(Others(terms, map[])))
  {
    var r := Collect(Others(terms, map[]));
    forall i | 0 <= i < |r| ensures TameMap(m, numbered, r[i].exps) {
      assert Occurs(r, r[i].exps);
      CollectOccurs(Others(terms, map[]), r[i].exps);
      OthersOccur(terms, map[], r[i].exps);
    }
  }

  lemma TamePicked(m: Math, numbered: seq<Tree>, terms: seq<Term>, p: seq<nat>)
    requires TameTerms(m, numbered, terms) && IsPermutation(p, |terms|)
    ensures TameTerms(m, numbered, Picked(terms, p))
  {
  }

  lemma TameSumRewrite(m: Math, numbered: seq<Tree>, t: Tree, orders: Orders)
    requires Known(m, numbered, t) && Tame(m, t) && Sorts(orders)
    ensures Tame(m, SumRewrite(m, numbered, t, orders))
  {
    var terms, scalar := SumRest(m, numbered, t), SumScalar(m, numbered, t);
    var sorted := Sorted(terms, orders);
    SortedIs(terms, orders);
    TameSumRest(m, numbered, t);
    TamePicked(m, numbered, terms, orders.terms(terms));
    TameSumTree(m, numbered, sorted, scalar, orders.entries);
    var sum := SumTree(numbered, sorted, scalar, orders.entries);
    if sum.Node? { TameReplace(m, t, sum); }
  }

  // A product

  lemma {:induction false} TameLeafFactors(m: Math, numbered: seq<Tree>, t: Tree, e: real, exps: Exponents)
    requires Known(m, numbered, t) && Tame(m, t) && Whole(e) && TameMap(m, numbered, exps)
    ensures TameMap(m, numbered, LeafFactors(t, e, exps))
  {
    if IsFraction(t) {
      KnownBoth(m, numbered, t);
      TameParts(m, t);
      WholeSum(e, e);
      TameLeafFactors(m, numbered, t.left, e, exps);
      TameLeafFactors(m, numbered, t.right, RightExponent(t, e), LeafFactors(t.left, e, exps));
    } else {
      TameTwin(m, numbered, t);
      TameAdded(m, numbered, exps, t.vn, e);
    }
  }

  lemma TameProductRewrite(m: Math, numbered: seq<Tree>, t: Tree, orders: Orders)
    requires Known(m, numbered, t) && Tame(m, t) && Sorts(orders)
    ensures Tame(m, ProductRewrite(m, numbered, t, orders))
  {
    var term := ProductTerm(m, numbered, t);
    TameLeafFactors(m, numbered, t, 1.0, map[]);
    ProductLeavesKnown(m, numbered, t);
    TameExpandedTerm(m, numbered, ProductLeaves(t));
    TameTermTree(m, numbered, term, orders.entries(term.exps));
    TameReplace(m, t, TermTree(numbered, term, orders.entries(term.exps)));
  }

  // The pass

  lemma {:induction false} TameReplaceAt(m: Math, t: Tree, path: Path, r: Tree)
    requires NumericPart(t) && Tame(m, t) && Numeric(At(t, path)) && KeepsVal(m, At(t, path), r) && Tame(m, r)
    ensures Tame(m, ReplaceAt(t, path, r))
  {
    if path != [] && t.Node? {
      var child := if path[0] then t.right else t.left;
      TameParts(m, t);
      TameReplaceAt(m, child, path[1..], r);
      ReplaceAtKeeps(m, child, path[1..], r);
      if path[0] && Is(t, Pow) { WholeKept(m, t.right, ReplaceAt(t.right, path[1..], r)); }
      TameNode(m, ReplaceAt(t, path, r));
    }
  }

  lemma {:induction false} TameAt(m: Math, t: Tree, path: Path)
    requires Tame(m, t)
    ensures Tame(m, At(t, path))
  {
    if path != [] && t.Node? {
      TameParts(m, t);
      TameAt(m, if path[0] then t.right else t.left, path[1..]);
    }
  }

  /** The pass keeps the value of a tree with whole exponents and without roots unless it drops a scalar, and keeps it
      that way. */
  lemma TameAlgebraic(m: Math, t: Tree, orders: Orders)
    requires Lawful(m) && Numeric(t) && Tame(m, t) && Sorts(orders) && !Drops(m, t, orders)
    ensures KeepsVal(m, t, Algebraic(m, t, orders)) && Tame(m, Algebraic(m, t, orders))
  {
    TameAllWhole(m, t);
    AllWholeSiteFine(m, t, orders);
    AlgebraicKeeps(m, t, orders);
    NumberedIsKnown(m, t);
    var (root, numbered) := ExprValueNumber.Number(t, []);
    TameShape(m, root, t);
    var site := PassSite(m, t, orders);
    if site.Some? {
      SiteIsThere(Changing(m, numbered, orders), root, false, false, []);
      TameRewriteAt(m, numbered, root, site.value, orders);
    }
  }

  lemma TameRewriteAt(m: Math, numbered: seq<Tree>, t: Tree, site: Path, orders: Orders)
    requires Lawful(m) && KnownPart(m, numbered, t) && Tame(m, t) && Sorts(orders)
    requires ChangesAt(Changing(m, numbered, orders), t, false, false, site)
    requires RewriteFine(m, numbered, At(t, site))
    ensures Tame(m, RewriteAt(Rewriting(m, numbered, orders), t, Some(site)))
  {
    var s := At(t, site);
    SiteIsTop(Changing(m, numbered, orders), t, false, false, site);
    KnownAt(m, numbered, t, site);
    TameAt(m, t, site);
    RewriteKeepsIff(m, numbered, s, orders);
    if IsSum(s) { TameSumRewrite(m, numbered, s, orders); } else { TameProductRewrite(m, numbered, s, orders); }
    TameReplaceAt(m, t, site, Rewrite(m, numbered, s, orders));
  }
}
