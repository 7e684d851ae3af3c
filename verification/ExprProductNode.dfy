/** A product of the tree: its factors, what it is rewritten to, and that this keeps its value over whole exponents. */
module ExprProductNode {
  import opened ExprTree
  import opened ExprValueNumber
  import opened ExprReal
  import opened ExprPower
  import opened ExprRewrite
  import opened ExprProduct
  import opened ExprExpansion
  import opened ExprMagnitude
  import opened ExprTermTree
  import opened ExprSum
  import opened ExprSumNode

  predicate IsFraction(t: Tree) {
    Is(t, Mul) || Is(t, Div)
  }

  // Its factors

  // The exponents after those of the operands that are no products are added, from left to right.
  function LeafFactors(t: Tree, e: real, exps: Exponents): Exponents {
    if t.Nil? then exps
    else if IsFraction(t) then LeafFactors(t.right, RightExponent(t, e), LeafFactors(t.left, e, exps))
    else Added(exps, t.vn, e)
  }

  function LeafCount(t: Tree): nat {
    if t.Nil? then 0 else if IsFraction(t) then LeafCount(t.left) + LeafCount(t.right) else 1
  }

  function Divisions(t: Tree): nat {
    if !IsFraction(t) then 0 else Divisions(t.left) + Divisions(t.right) + (if Is(t, Div) then 1 else 0)
  }

  // What putting the factors among others multiplies the product by.
  ghost predicate Multiplied(m: Math, numbered: seq<Tree>, a: Exponents, b: Exponents, factor: Value) {
    Keeps(Times(factor, Product(m, ValuesOf(m, numbered), a, |numbered|)),
          Product(m, ValuesOf(m, numbered), b, |numbered|))
  }

  lemma MultipliedTwice(m: Math, numbered: seq<Tree>, a: Exponents, b: Exponents, c: Exponents, t: Tree, e: real)
    requires Lawful(m) && Known(m, numbered, t) && IsFraction(t) && Numeric(t.left) && Numeric(t.right) && Whole(e)
    requires Multiplied(m, numbered, a, b, PowerVal(m, Val(m, t.left), e))
    requires Multiplied(m, numbered, b, c, PowerVal(m, Val(m, t.right), RightExponent(t, e)))
    ensures Numeric(t) && Multiplied(m, numbered, a, c, PowerVal(m, Val(m, t), e))
  {
    KnownChildren(m, numbered, t);
    FactorEntry(m, t.op.code, Val(m, t.left), Val(m, t.right), e);
    var vals := ValuesOf(m, numbered);
    TimesInTurn(PowerVal(m, Val(m, t), e), PowerVal(m, Val(m, t.left), e), PowerVal(m, Val(m, t.right), RightExponent(t, e)),
                Product(m, vals, a, |numbered|), Product(m, vals, b, |numbered|), Product(m, vals, c, |numbered|));
  }

  lemma TimesInTurn(whole: Value, l: Value, r: Value, a: Value, b: Value, c: Value)
    requires Keeps(whole, Times(l, r)) && Keeps(Times(l, a), b) && Keeps(Times(r, b), c)
    ensures Keeps(Times(whole, a), c)
  {
    TimesKeeps(whole, Times(l, r), a);
    TimesCommutes(l, r);
    TimesAssociates(r, l, a);
    TimesKeeps(Times(l, a), b, r);
    TimesCommutes(r, Times(l, a));
    TimesCommutes(r, b);
  }

  /** The factors of a product multiply up to its value. */
  lemma {:induction false} LeafFactorsProduct(m: Math, numbered: seq<Tree>, t: Tree, e: real, exps: Exponents)
    requires Lawful(m) && Known(m, numbered, t) && Whole(e)
    ensures Numeric(t) && Multiplied(m, numbered, exps, LeafFactors(t, e, exps), PowerVal(m, Val(m, t), e))
  {
    KnownVal(m, numbered, t);
    if IsFraction(t) {
      KnownChildren(m, numbered, t);
      WholeSum(e, e);
      var once := LeafFactors(t.left, e, exps);
      LeafFactorsProduct(m, numbered, t.left, e, exps);
      LeafFactorsProduct(m, numbered, t.right, RightExponent(t, e), once);
      MultipliedTwice(m, numbered, exps, once, LeafFactors(t, e, exps), t, e);
    } else {
      AddedKeeps(m, ValuesOf(m, numbered), exps, |numbered|, t.vn, e);
    }
  }

  lemma {:induction false} LeafFactorsKnown(m: Math, numbered: seq<Tree>, t: Tree, e: real, exps: Exponents)
    requires Known(m, numbered, t) && KnownMap(m, numbered, exps)
    ensures KnownMap(m, numbered, LeafFactors(t, e, exps))
  {
    if IsFraction(t) {
      KnownChildren(m, numbered, t);
      LeafFactorsKnown(m, numbered, t.left, e, exps);
      LeafFactorsKnown(m, numbered, t.right, RightExponent(t, e), LeafFactors(t.left, e, exps));
    } else {
      TwinKnown(m, numbered, t);
    }
  }

  lemma {:induction false} LeafFactorsWhole(m: Math, numbered: seq<Tree>, t: Tree, e: real, exps: Exponents)
    requires Known(m, numbered, t) && WholePowers(t) && Whole(e) && WholeMap(numbered, exps)
    ensures WholeMap(numbered, LeafFactors(t, e, exps))
  {
    if IsFraction(t) {
      KnownChildren(m, numbered, t);
      WholeSum(e, e);
      LeafFactorsWhole(m, numbered, t.left, e, exps);
      LeafFactorsWhole(m, numbered, t.right, RightExponent(t, e), LeafFactors(t.left, e, exps));
    } else {
      KnownShape(m, numbered, t);
      AddedWhole(numbered, exps, t.vn, e);
    }
  }

  // What it is rewritten to

  function ProductLeaves(t: Tree): Term {
    Term(LeafFactors(t, 1.0, map[]), 1.0)
  }

  function ProductTerm(m: Math, numbered: seq<Tree>, t: Tree): Term {
    ExpandedTerm(m, numbered, ProductLeaves(t))
  }

  // A product is rewritten if it got shorter, was not in order, or has divisions.
  predicate ProductChanges(m: Math, numbered: seq<Tree>, t: Tree, orders: Orders) {
    |ProductTerm(m, numbered, t).exps| + 1 < LeafCount(t) || !orders.canonical(t) || Divisions(t) > 0
  }

  function ProductRewrite(m: Math, numbered: seq<Tree>, t: Tree, orders: Orders): Tree
    requires t.Node?
  {
    var term := ProductTerm(m, numbered, t);
    Replace(t, TermTree(numbered, term, orders.entries(term.exps)))
  }

  lemma ProductLeavesKnown(m: Math, numbered: seq<Tree>, t: Tree)
    requires Known(m, numbered, t)
    ensures KnownMap(m, numbered, ProductLeaves(t).exps)
    ensures WholePowers(t) ==> WholeMap(numbered, ProductLeaves(t).exps)
  {
    LeafFactorsKnown(m, numbered, t, 1.0, map[]);
    if WholePowers(t) { LeafFactorsWhole(m, numbered, t, 1.0, map[]); }
  }

  // The value of the factors.
  lemma ProductLeavesVal(m: Math, numbered: seq<Tree>, t: Tree)
    requires Lawful(m) && Known(m, numbered, t)
    ensures Numeric(t) && Keeps(Val(m, t), TermVal(m, numbered, ProductLeaves(t)))
  {
    KnownVal(m, numbered, t);
    LeafFactorsProduct(m, numbered, t, 1.0, map[]);
    BaseOne(m, Val(m, t));
    EmptyProduct(m, ValuesOf(m, numbered), map[], |numbered|);
    OneFactor(Val(m, t));
    OneFactor(Product(m, ValuesOf(m, numbered), ProductLeaves(t).exps, |numbered|));
  }

  lemma OneFactor(a: Value)
    ensures Times(a, Defined(1.0)) == a
  {
  }

  // The value of the tree written back.
  lemma ProductRewriteVal(m: Math, numbered: seq<Tree>, t: Tree, orders: Orders)
    requires Known(m, numbered, t) && Sorts(orders)
    ensures Numeric(ProductRewrite(m, numbered, t, orders))
    ensures Val(m, ProductRewrite(m, numbered, t, orders)) == TermVal(m, numbered, ProductTerm(m, numbered, t))
  {
    var term := ProductTerm(m, numbered, t);
    ProductLeavesKnown(m, numbered, t);
    ExpandedTermIsBasic(m, numbered, ProductLeaves(t));
    assert KnownMap(m, numbered, term.exps);
    TermTreeVal(m, numbered, term, orders.entries(term.exps));
    ReplaceKeeps(m, t, TermTree(numbered, term, orders.entries(term.exps)));
  }

  /** The signs of the operands, multiplied out, allow it: see ExprMagnitude.SignsFine. */
  ghost predicate ProductFine(m: Math, numbered: seq<Tree>, t: Tree) {
    Numeric(t) && Val(m, t).Defined? ==>
      SignsFine(numbered, ValuesOf(m, numbered), Expansion(numbered, ProductLeaves(t).exps), Val(m, t).value)
  }

  /** A product with any exponents that is written back keeps its value exactly then. */
  lemma ProductRewriteKeepsIff(m: Math, numbered: seq<Tree>, t: Tree, orders: Orders)
    requires Lawful(m) && Known(m, numbered, t) && Sorts(orders)
    ensures Numeric(t) && (KeepsVal(m, t, ProductRewrite(m, numbered, t, orders)) <==> ProductFine(m, numbered, t))
  {
    var exps := ProductLeaves(t).exps;
    ProductLeavesKnown(m, numbered, t);
    ProductLeavesVal(m, numbered, t);
    ProductRewriteVal(m, numbered, t, orders);
    if Val(m, t).Defined? {
      OneFactor(Product(m, ValuesOf(m, numbered), exps, |numbered|));
      ExpandedTermKeepsIff(m, numbered, exps, Val(m, t).value);
    }
  }

  /** Over whole exponents it always does. */
  lemma ProductRewriteKeeps(m: Math, numbered: seq<Tree>, t: Tree, orders: Orders)
    requires Lawful(m) && Known(m, numbered, t) && WholePowers(t) && Sorts(orders)
    ensures Numeric(t) && KeepsVal(m, t, ProductRewrite(m, numbered, t, orders))
  {
    ProductLeavesKnown(m, numbered, t);
    ProductLeavesVal(m, numbered, t);
    ExpandedTermKeeps(m, numbered, ProductLeaves(t));
    ProductRewriteVal(m, numbered, t, orders);
  }
}
