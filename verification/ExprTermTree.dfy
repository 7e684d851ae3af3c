/** The tree a term is written back as, and its value. */
module ExprTermTree {
  import opened ExprTree
  import opened ExprValueNumber
  import opened ExprReal
  import opened ExprPower
  import opened ExprRewrite
  import opened ExprProduct
  import opened ExprExpansion

  // The power of one entry.
  function FactorTree(numbered: seq<Tree>, k: int, e: real): Tree {
    Make(Pow, if 0 <= k < |numbered| then Strip(numbered[k]) else Nil, Const(e))
  }

  // The product of the entries in an order, or nothing when there are none.
  function FactorsTree(numbered: seq<Tree>, exps: Exponents, order: seq<int>): Tree {
    if |order| == 0 then Nil
    else
      var k := order[|order| - 1];
      var rest := FactorsTree(numbered, exps, order[..|order| - 1]);
      var factor := FactorTree(numbered, k, if k in exps then exps[k] else 0.0);
      if rest.Nil? then factor else Make(Mul, rest, factor)
  }

  /** A term: its factors in an order, and then its coefficient. */
  function TermTree(numbered: seq<Tree>, t: Term, order: seq<int>): Tree {
    var factors := FactorsTree(numbered, t.exps, order);
    if factors.Nil? then Const(t.coeff) else Make(Mul, factors, Const(t.coeff))
  }

  // The factors of a tree of multiplications, from left to right.
  function Factors(t: Tree): seq<Tree> {
    if t.Nil? then [] else if Is(t, Mul) then Factors(t.left) + [t.right] else [t]
  }

  /** The factors are written in the order they are sorted in, each with its exponent. */
  lemma {:induction false} FactorsInOrder(numbered: seq<Tree>, exps: Exponents, order: seq<int>)
    requires forall k <- order :: k in exps
    ensures |Factors(FactorsTree(numbered, exps, order))| == |order|
    ensures forall i | 0 <= i < |order| ::
              Factors(FactorsTree(numbered, exps, order))[i] == FactorTree(numbered, order[i], exps[order[i]])
  {
    if |order| > 0 {
      var front := order[..|order| - 1];
      assert forall k <- front :: k in order;
      FactorsInOrder(numbered, exps, front);
      assert order[|order| - 1] in order;
      assert FactorsTree(numbered, exps, front).Nil? <==> |front| == 0;
    }
  }

  // A list of the entries, each once.
  ghost predicate IsOrder(order: seq<int>, exps: Exponents) {
    && (forall k :: k in order <==> k in exps)
    && (forall i, j | 0 <= i < j < |order| :: order[i] != order[j])
  }

  // The product in the order of a list.
  function ProductOver(m: Math, vals: Values, exps: Exponents, order: seq<int>): Value {
    if order == [] then Defined(1.0)
    else
      var k := order[|order| - 1];
      var rest := ProductOver(m, vals, exps, order[..|order| - 1]);
      if k in exps && 0 <= k < |vals| then Times(rest, Base(m, vals, k, exps[k])) else rest
  }

  lemma {:induction false} OverAgrees(m: Math, vals: Values, a: Exponents, b: Exponents, order: seq<int>)
    requires forall k <- order :: (k in a <==> k in b) && (k in a && k in b ==> a[k] == b[k])
    ensures ProductOver(m, vals, a, order) == ProductOver(m, vals, b, order)
  {
    if order != [] {
      assert order[|order| - 1] in order;
      OverAgrees(m, vals, a, b, order[..|order| - 1]);
    }
  }

  lemma {:induction false} OrderedProduct(m: Math, vals: Values, exps: Exponents, order: seq<int>)
    requires IsOrder(order, exps) && forall k <- exps :: 0 <= k < |vals|
    ensures ProductOver(m, vals, exps, order) == Product(m, vals, exps, |vals|)
    decreases |order|
  {
    if order == [] {
      EmptyProduct(m, vals, exps, |vals|);
    } else {
      var k, rest := order[|order| - 1], order[..|order| - 1];
      assert k in order;
      assert forall j <- rest :: j in order && j != k;
      assert forall j <- order :: j == k || j in rest;
      OrderedProduct(m, vals, exps - {k}, rest);
      OverAgrees(m, vals, exps, exps - {k}, rest);
      ProductWithout(m, vals, exps, |vals|, k);
      TimesCommutes(Base(m, vals, k, exps[k]), Product(m, vals, exps - {k}, |vals|));
    }
  }

  lemma ProductTree(m: Math, l: Tree, r: Tree)
    requires Numeric(l) && Numeric(r)
    ensures Numeric(Make(Mul, l, r)) && Val(m, Make(Mul, l, r)) == Times(Val(m, l), Val(m, r))
  {
    MakeVal(m, Mul, l, r);
  }

  lemma FactorVal(m: Math, numbered: seq<Tree>, k: int, e: real)
    requires KnownNumber(m, numbered, k)
    ensures Numeric(FactorTree(numbered, k, e)) && Val(m, FactorTree(numbered, k, e)) == Base(m, ValuesOf(m, numbered), k, e)
  {
    var t := numbered[k];
    KnownVal(m, numbered, t);
    StripTwice(t);
    ValStrip(m, Strip(t), t);
    NumberVal(m, Const(e), e);
    MakeVal(m, Pow, Strip(t), Const(e));
    assert Base(m, ValuesOf(m, numbered), k, e) == ValOf(m, Pow, Val(m, t), Defined(e));
  }

  lemma {:induction false} FactorsVal(m: Math, numbered: seq<Tree>, exps: Exponents, order: seq<int>)
    requires KnownMap(m, numbered, exps) && forall k <- order :: k in exps
    ensures var r := FactorsTree(numbered, exps, order);
            if |order| == 0 then r == Nil
            else Numeric(r) && Val(m, r) == ProductOver(m, ValuesOf(m, numbered), exps, order)
  {
    if |order| > 0 {
      var k, front := order[|order| - 1], order[..|order| - 1];
      assert k in order && k in exps && KnownNumber(m, numbered, k);
      assert forall j <- front :: j in order;
      FactorsVal(m, numbered, exps, front);
      FactorVal(m, numbered, k, exps[k]);
      if |front| == 0 {
        TimesOne(Val(m, FactorTree(numbered, k, exps[k])));
      } else {
        ProductTree(m, FactorsTree(numbered, exps, front), FactorTree(numbered, k, exps[k]));
      }
    }
  }

  /** The tree of a term has its value, in whatever order its factors are written. */
  lemma TermTreeVal(m: Math, numbered: seq<Tree>, t: Term, order: seq<int>)
    requires KnownMap(m, numbered, t.exps) && IsOrder(order, t.exps)
    ensures Numeric(TermTree(numbered, t, order)) && Val(m, TermTree(numbered, t, order)) == TermVal(m, numbered, t)
  {
    assert forall k <- order :: k in t.exps;
    FactorsVal(m, numbered, t.exps, order);
    forall k | k in t.exps ensures 0 <= k < |numbered| {
      assert KnownNumber(m, numbered, k);
    }
    OrderedProduct(m, ValuesOf(m, numbered), t.exps, order);
    NumberVal(m, Const(t.coeff), t.coeff);
    if |order| == 0 {
      TimesOne(Defined(t.coeff));
    } else {
      ProductTree(m, FactorsTree(numbered, t.exps, order), Const(t.coeff));
    }
  }
}
