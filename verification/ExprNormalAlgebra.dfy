/** What the algebraic pass leaves behind. */
module ExprNormalAlgebra {
  import opened Options
  import opened ExprTree
  import opened ExprValueNumber
  import opened ExprReal
  import opened ExprPower
  import opened ExprRewrite
  import opened ExprProduct
  import opened ExprExpansion
  import opened ExprSum
  import opened ExprAdditive
  import opened ExprSumNode
  import opened ExprProductNode
  import opened ExprSite
  import opened ExprAlgebra

  // The products of a list of terms whose coefficients do not cancel.
  function KeptProducts(terms: seq<Term>): set<Exponents> {
    set i | 0 <= i < |terms| && terms[i].exps != map[] && CoeffOf(terms, terms[i].exps) != 0.0 :: terms[i].exps
  }

  function ProductsOf(terms: seq<Term>): set<Exponents> {
    set i | 0 <= i < |terms| :: terms[i].exps
  }

  lemma {:induction false} DistinctCount(terms: seq<Term>)
    requires forall i, j | 0 <= i < j < |terms| :: terms[i].exps != terms[j].exps
    ensures |ProductsOf(terms)| == |terms|
  {
    if |terms| > 0 {
      var n := |terms| - 1;
      DistinctCount(terms[..n]);
      assert ProductsOf(terms) == ProductsOf(terms[..n]) + {terms[n].exps} by {
        forall e: Exponents | e in ProductsOf(terms[..n]) ensures e in ProductsOf(terms) {
          var i :| 0 <= i < n && terms[..n][i].exps == e;
          assert terms[i].exps == e;
        }
        forall e: Exponents | e in ProductsOf(terms) && e != terms[n].exps ensures e in ProductsOf(terms[..n]) {
          var i :| 0 <= i < |terms| && terms[i].exps == e;
          assert terms[..n][i].exps == e;
        }
      }
      assert terms[n].exps !in ProductsOf(terms[..n]);
    }
  }

  // In a collected list every product has a coefficient, and no other has.
  lemma {:induction false} CollectedCoeff(terms: seq<Term>, exps: Exponents)
    requires Collected(terms)
    ensures CoeffOf(terms, exps) != 0.0 <==> Occurs(terms, exps)
  {
    if !Occurs(terms, exps) {
      NoneOccur(terms, exps);
    } else {
      var i :| 0 <= i < |terms| && terms[i].exps == exps;
      CoeffAround(terms, i);
      assert !Occurs(terms[..i], exps) && !Occurs(terms[i + 1..], exps);
      NoneOccur(terms[..i], exps);
      NoneOccur(terms[i + 1..], exps);
    }
  }

  lemma CoeffAround(terms: seq<Term>, i: nat)
    requires i < |terms|
    ensures var exps := terms[i].exps;
            CoeffOf(terms, exps) == CoeffOf(terms[..i], exps) + terms[i].coeff + CoeffOf(terms[i + 1..], exps)
  {
    var exps := terms[i].exps;
    assert terms == terms[..i] + [terms[i]] + terms[i + 1..];
    CoeffSplit(terms[..i] + [terms[i]], terms[i + 1..], exps);
    CoeffSplit(terms[..i], [terms[i]], exps);
    CoeffOne(terms[i], exps);
  }

  /** Collecting leaves one term for each product whose coefficients do not cancel. */
  lemma CollectCount(terms: seq<Term>)
    ensures |Collect(Others(terms, map[]))| == |KeptProducts(terms)|
  {
    var others := Others(terms, map[]);
    var r := Collect(others);
    CollectIsCollected(others);
    DistinctCount(r);
    forall e: Exponents ensures e in ProductsOf(r) <==> e in KeptProducts(terms) {
      CollectedCoeff(r, e);
      CollectCoeff(others, e);
      OthersCoeff(terms, map[], e);
      assert e in ProductsOf(r) <==> Occurs(r, e);
      if CoeffOf(terms, e) != 0.0 && !Occurs(terms, e) { NoneOccur(terms, e); }
    }
    assert ProductsOf(r) == KeptProducts(terms);
  }

  // A sum with no more terms than products and a number, in the order of the comparator.
  predicate SumIsDone(m: Math, numbered: seq<Tree>, t: Tree, orders: Orders) {
    && |LeafTerms(t, 1.0)| <= |KeptProducts(SumTerms(m, numbered, t))| + 1
    && InOrder(orders.terms(SumRest(m, numbered, t)))
  }

  // A product without divisions, with no more factors than bases and a number, in order.
  predicate ProductIsDone(m: Math, numbered: seq<Tree>, t: Tree, orders: Orders) {
    && NoDivision(t)
    && LeafCount(t) <= |ProductTerm(m, numbered, t).exps| + 1
    && orders.canonical(t)
  }

  predicate NoDivision(t: Tree) {
    !Is(t, Div) && (Is(t, Mul) ==> NoDivision(t.left) && NoDivision(t.right))
  }

  lemma {:induction false} DivisionsIff(t: Tree)
    ensures Divisions(t) == 0 <==> NoDivision(t)
  {
    if IsFraction(t) {
      DivisionsIff(t.left);
      DivisionsIff(t.right);
    }
  }

  predicate IsDone(m: Math, numbered: seq<Tree>, t: Tree, orders: Orders) {
    if IsSum(t) then SumIsDone(m, numbered, t, orders) else IsFraction(t) ==> ProductIsDone(m, numbered, t, orders)
  }

  /** A sum or product changes exactly when it is not done. */
  lemma ChangesIff(m: Math, numbered: seq<Tree>, t: Tree, orders: Orders)
    ensures Changes(m, numbered, t, orders) <==> !IsDone(m, numbered, t, orders)
  {
    CollectCount(SumTerms(m, numbered, t));
    DivisionsIff(t);
  }

  predicate AllDone(m: Math, numbered: seq<Tree>, t: Tree, underSum: bool, underProduct: bool, orders: Orders) {
    t.Nil? || (
      && (IsTop(t, underSum, underProduct) ==> IsDone(m, numbered, t, orders))
      && AllDone(m, numbered, t.left, IsSum(t), IsFraction(t), orders)
      && AllDone(m, numbered, t.right, IsSum(t), IsFraction(t), orders))
  }

  lemma {:induction false} NoSiteIff(m: Math, numbered: seq<Tree>, t: Tree, underSum: bool, underProduct: bool, orders: Orders)
    ensures Site(Changing(m, numbered, orders), t, underSum, underProduct).None? <==>
            AllDone(m, numbered, t, underSum, underProduct, orders)
  {
    if t.Node? {
      ChangesIff(m, numbered, t, orders);
      NoSiteIff(m, numbered, t.left, IsSum(t), IsFraction(t), orders);
      NoSiteIff(m, numbered, t.right, IsSum(t), IsFraction(t), orders);
      assert Changing(m, numbered, orders)(t) <==> Changes(m, numbered, t, orders);
    }
  }

  // Every sum and product of the tree is done.
  predicate AllAlgebraDone(m: Math, t: Tree, orders: Orders) {
    var (root, numbered) := ExprValueNumber.Number(t, []);
    AllDone(m, numbered, root, false, false, orders)
  }

  /** The pass finds nothing to rewrite exactly when every sum and product of the tree is done. */
  lemma AlgebraicIff(m: Math, t: Tree, orders: Orders)
    ensures PassSite(m, t, orders).None? <==> AllAlgebraDone(m, t, orders)
  {
    var (root, numbered) := ExprValueNumber.Number(t, []);
    NoSiteIff(m, numbered, root, false, false, orders);
  }

  // Numbering forgets earlier numbers.
  lemma {:induction false} NumberStrip(a: Tree, b: Tree, numbered: seq<Tree>)
    requires Strip(a) == Strip(b) && forall n <- numbered :: n.Node?
    ensures ExprValueNumber.Number(a, numbered) == ExprValueNumber.Number(b, numbered)
  {
    if a.Node? {
      NumberStrip(a.left, b.left, numbered);
      var (l, n1) := ExprValueNumber.Number(a.left, numbered);
      NumberStrip(a.right, b.right, n1);
    }
  }

  lemma AllDoneStrip(m: Math, a: Tree, b: Tree, orders: Orders)
    requires Strip(a) == Strip(b)
    ensures AllAlgebraDone(m, a, orders) <==> AllAlgebraDone(m, b, orders)
  {
    NumberStrip(a, b, []);
  }
}
