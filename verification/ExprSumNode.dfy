/** A sum of the tree: its signed terms, what it is rewritten to, and exactly when that keeps its value. */
module ExprSumNode {
  import opened ExprTree
  import opened ExprValueNumber
  import opened ExprReal
  import opened ExprPower
  import opened ExprRewrite
  import opened ExprProduct
  import opened ExprExpansion
  import opened ExprTermTree
  import opened ExprSum
  import opened ExprAdditive

  predicate IsSum(t: Tree) {
    Is(t, Add) || Is(t, Sub)
  }

  // The comparators, left open: entries of a product, terms of a sum, and whether a product already was in order.
  datatype Orders = Orders(entries: Exponents -> seq<int>, terms: seq<Term> -> seq<nat>, canonical: Tree -> bool)

  ghost predicate Sorts(orders: Orders) {
    SortsEntries(orders.entries) && forall ts :: IsPermutation(orders.terms(ts), |ts|)
  }

  // No subtree has a product, quotient or power under a fractional power.
  predicate AllWhole(t: Tree) {
    t.Nil? || (WholePowers(t) && AllWhole(t.left) && AllWhole(t.right))
  }

  // The operands of a sum, product or quotient of known value.
  lemma KnownChildren(m: Math, numbered: seq<Tree>, t: Tree)
    requires Known(m, numbered, t) && (IsSum(t) || Is(t, Mul) || Is(t, Div))
    ensures Known(m, numbered, t.left) && Known(m, numbered, t.right) && Numeric(t) && Numeric(t.left) && Numeric(t.right)
    ensures Val(m, t) == ValOf(m, t.op.code, Val(m, t.left), Val(m, t.right))
  {
    BinaryVal(m, t);
  }

  // Its terms

  function RightSign(t: Tree, sign: real): real {
    if Is(t, Sub) then -sign else sign
  }

  // One term for each operand that is not itself a sum, from left to right.
  function LeafTerms(t: Tree, sign: real): (r: seq<Term>)
    ensures t.Node? ==> |r| > 0
    ensures IsSum(t) && t.left.Node? && t.right.Node? ==> |r| > 1
  {
    if t.Nil? then []
    else if IsSum(t) && t.left.Node? then LeafTerms(t.left, sign) + LeafTerms(t.right, RightSign(t, sign))
    else [LeafTerm(t, sign)]
  }

  function LeafTerm(t: Tree, sign: real): Term
    requires t.Node?
  {
    Term(map[t.vn := 1.0], sign)
  }

  function SignedVal(sign: real, a: Value): Value {
    Times(Defined(sign), a)
  }

  lemma SignedSum(m: Math, t: Tree, sign: real, a: Value, b: Value)
    requires IsSum(t)
    ensures SignedVal(sign, ValOf(m, t.op.code, a, b)) == Plus(SignedVal(sign, a), SignedVal(RightSign(t, sign), b))
  {
    if a.Defined? && b.Defined? { SignedReal(sign, a.value, b.value); }
  }

  lemma SignedReal(sign: real, a: real, b: real)
    ensures sign * (a + b) == sign * a + sign * b && sign * (a - b) == sign * a + -sign * b
  {
  }

  // The worth of a term of one node.
  lemma LeafTermVal(m: Math, numbered: seq<Tree>, t: Tree, sign: real)
    requires Lawful(m) && Known(m, numbered, t)
    ensures Numeric(t) && TermVal(m, numbered, LeafTerm(t, sign)) == SignedVal(sign, Val(m, t))
  {
    SingleProduct(m, numbered, t);
    TimesCommutes(Val(m, t), Defined(sign));
  }

  lemma SingleProduct(m: Math, numbered: seq<Tree>, t: Tree)
    requires Lawful(m) && Known(m, numbered, t)
    ensures Numeric(t) && Product(m, ValuesOf(m, numbered), map[t.vn := 1.0], |numbered|) == Val(m, t)
  {
    var vals := ValuesOf(m, numbered);
    KnownVal(m, numbered, t);
    SingleEntry(m, vals, t.vn, 1.0);
    BaseOne(m, Val(m, t));
  }

  lemma BaseOne(m: Math, a: Value)
    requires Lawful(m)
    ensures PowerVal(m, a, 1.0) == a
  {
    if a.Defined? { PowerOne(m, a.value); }
  }

  /** The terms of a sum add up to its value. */
  lemma {:induction false} LeafTermsSum(m: Math, numbered: seq<Tree>, t: Tree, sign: real)
    requires Lawful(m) && Known(m, numbered, t)
    ensures Numeric(t) && Sum(m, numbered, LeafTerms(t, sign)) == SignedVal(sign, Val(m, t))
  {
    if IsSum(t) {
      KnownChildren(m, numbered, t);
      LeafTermsSum(m, numbered, t.left, sign);
      LeafTermsSum(m, numbered, t.right, RightSign(t, sign));
      SumAppend(m, numbered, LeafTerms(t.left, sign), LeafTerms(t.right, RightSign(t, sign)));
      SignedSum(m, t, sign, Val(m, t.left), Val(m, t.right));
    } else {
      LeafTermVal(m, numbered, t, sign);
      SumOne(m, numbered, LeafTerm(t, sign));
    }
  }

  lemma SumOne(m: Math, numbered: seq<Tree>, t: Term)
    ensures Sum(m, numbered, [t]) == TermVal(m, numbered, t)
  {
    assert [t][..0] == [];
    PlusZero(TermVal(m, numbered, t));
  }

  lemma {:induction false} SumAppend(m: Math, numbered: seq<Tree>, a: seq<Term>, b: seq<Term>)
    ensures Sum(m, numbered, a + b) == Plus(Sum(m, numbered, a), Sum(m, numbered, b))
  {
    if b == [] {
      assert a + b == a;
    } else {
      var n := |b| - 1;
      SumAppend(m, numbered, a, b[..n]);
      assert (a + b)[..|a| + n] == a + b[..n];
      assert (a + b)[|a| + n] == b[n];
    }
  }

  lemma {:induction false} LeafTermsKnown(m: Math, numbered: seq<Tree>, t: Tree, sign: real)
    requires Known(m, numbered, t)
    ensures KnownTerms(m, numbered, LeafTerms(t, sign))
    ensures AllWhole(t) ==> WholeTerms(numbered, LeafTerms(t, sign))
  {
    if IsSum(t) {
      KnownChildren(m, numbered, t);
      LeafTermsKnown(m, numbered, t.left, sign);
      LeafTermsKnown(m, numbered, t.right, RightSign(t, sign));
    } else {
      TwinKnown(m, numbered, t);
      KnownShape(m, numbered, t);
      assert AllWhole(t) ==> WholeEntry(numbered, t.vn, 1.0);
    }
  }

  // What it is rewritten to

  // The terms, expanded.
  function SumTerms(m: Math, numbered: seq<Tree>, t: Tree): seq<Term> {
    ExpandedTerms(m, numbered, LeafTerms(t, 1.0))
  }

  // What is left of them: the terms with factors, collected, and the sum of the others.
  function SumRest(m: Math, numbered: seq<Tree>, t: Tree): seq<Term> {
    Collect(Others(SumTerms(m, numbered, t), map[]))
  }

  function SumScalar(m: Math, numbered: seq<Tree>, t: Tree): real {
    CoeffOf(SumTerms(m, numbered, t), map[])
  }

  // A sum is rewritten if it got shorter or was not in order.
  predicate SumChanges(m: Math, numbered: seq<Tree>, t: Tree, orders: Orders) {
    var terms := SumRest(m, numbered, t);
    |terms| + 1 < |LeafTerms(t, 1.0)| || !InOrder(orders.terms(terms))
  }

  function Sorted(terms: seq<Term>, orders: Orders): seq<Term> {
    var p := orders.terms(terms);
    if forall i | 0 <= i < |p| :: p[i] < |terms| then Picked(terms, p) else terms
  }

  lemma SortedIs(terms: seq<Term>, orders: Orders)
    requires Sorts(orders)
    ensures IsPermutation(orders.terms(terms), |terms|) && Sorted(terms, orders) == Picked(terms, orders.terms(terms))
  {
  }

  function SumRewrite(m: Math, numbered: seq<Tree>, t: Tree, orders: Orders): Tree
    requires t.Node?
  {
    var terms := SumRest(m, numbered, t);
    var sum := SumTree(numbered, Sorted(terms, orders), SumScalar(m, numbered, t), orders.entries);
    if sum.Node? then Replace(t, sum) else t
  }

  /** What is left is written back in the order of the comparator, and behind it the scalar with its sign. */
  lemma SumRewriteInOrder(m: Math, numbered: seq<Tree>, t: Tree, orders: Orders)
    requires t.Node? && Sorts(orders) && |SumRest(m, numbered, t)| > 0
    ensures var terms, scalar, r := SumRest(m, numbered, t), SumScalar(m, numbered, t), SumRewrite(m, numbered, t, orders);
            var p := orders.terms(terms);
            && r.Node? && r.vn == t.vn && r.op.code == (if scalar < 0.0 then Sub else Add)
            && r.right == Const(if scalar < 0.0 then -scalar else scalar)
            && |Addends(r.left)| == |terms| == |p|
            && forall i | 0 <= i < |p| ::
                 p[i] < |terms| && Addends(r.left)[i] == TermTree(numbered, terms[p[i]], orders.entries(terms[p[i]].exps))
  {
    var terms, scalar := SumRest(m, numbered, t), SumScalar(m, numbered, t);
    var sorted := Sorted(terms, orders);
    SortedIs(terms, orders);
    AddendsInOrder(numbered, sorted, orders.entries);
    SumTreeParts(numbered, sorted, scalar, orders.entries);
    PickedInOrder(numbered, terms, orders.terms(terms), orders.entries, TermsTree(numbered, sorted, orders.entries));
  }

  lemma PickedInOrder(numbered: seq<Tree>, terms: seq<Term>, p: seq<nat>, sort: Exponents -> seq<int>, tree: Tree)
    requires IsPermutation(p, |terms|) && |Addends(tree)| == |p|
    requires forall i | 0 <= i < |p| :: Addends(tree)[i] == TermTree(numbered, Picked(terms, p)[i], sort(Picked(terms, p)[i].exps))
    ensures forall i | 0 <= i < |p| :: p[i] < |terms| && Addends(tree)[i] == TermTree(numbered, terms[p[i]], sort(terms[p[i]].exps))
  {
    assert forall i | 0 <= i < |p| :: Picked(terms, p)[i] == terms[p[i]];
  }

  /** Every product of the sum has coefficient zero, and the numbers do not add up to zero. */
  ghost predicate DropsScalar(m: Math, numbered: seq<Tree>, t: Tree) {
    var terms := SumTerms(m, numbered, t);
    NothingElse(terms, map[]) && CoeffOf(terms, map[]) != 0.0
  }

  lemma DropsScalarIff(m: Math, numbered: seq<Tree>, t: Tree)
    ensures DropsScalar(m, numbered, t) <==> |SumRest(m, numbered, t)| == 0 && SumScalar(m, numbered, t) != 0.0
  {
    NothingElseCollected(SumTerms(m, numbered, t), map[]);
  }

  // The rest and the scalar have the value of the sum.
  lemma SumRestVal(m: Math, numbered: seq<Tree>, t: Tree)
    requires Lawful(m) && Known(m, numbered, t) && AllWhole(t)
    ensures Numeric(t) && KnownTerms(m, numbered, SumRest(m, numbered, t))
    ensures Keeps(Val(m, t), Plus(Sum(m, numbered, SumRest(m, numbered, t)), Defined(SumScalar(m, numbered, t))))
  {
    var leaves, terms := LeafTerms(t, 1.0), SumTerms(m, numbered, t);
    var others := Others(terms, map[]);
    LeafTermsSum(m, numbered, t, 1.0);
    TimesOne(Val(m, t));
    LeafTermsKnown(m, numbered, t, 1.0);
    SumExpanded(m, numbered, leaves);
    SumScalars(m, numbered, terms);
    SumCollect(m, numbered, others);
    SumRestKnown(m, numbered, t);
  }

  lemma SumRestKnown(m: Math, numbered: seq<Tree>, t: Tree)
    requires Known(m, numbered, t)
    ensures KnownTerms(m, numbered, SumRest(m, numbered, t))
  {
    LeafTermsKnown(m, numbered, t, 1.0);
    ExpandedTermsKnown(m, numbered, LeafTerms(t, 1.0));
    OthersKnown(m, numbered, SumTerms(m, numbered, t), map[]);
    CollectKnown(m, numbered, Others(SumTerms(m, numbered, t), map[]));
  }

  // The value of the tree written back.
  lemma SumRewriteVal(m: Math, numbered: seq<Tree>, t: Tree, orders: Orders)
    requires Known(m, numbered, t) && Sorts(orders)
    ensures var terms, scalar, r := SumRest(m, numbered, t), SumScalar(m, numbered, t), SumRewrite(m, numbered, t, orders);
            && Numeric(r)
            && Val(m, r) == if |terms| == 0 then Defined(0.0) else Plus(Sum(m, numbered, terms), Defined(scalar))
  {
    var terms, scalar := SumRest(m, numbered, t), SumScalar(m, numbered, t);
    var sorted := Sorted(terms, orders);
    SortedIs(terms, orders);
    SumRestKnown(m, numbered, t);
    PickedIsPermuted(terms, orders.terms(terms));
    SumPermuted(m, numbered, sorted, terms);
    PickedKnown(m, numbered, terms, orders.terms(terms));
    SumTreeVal(m, numbered, sorted, scalar, orders.entries);
    ReplaceKeeps(m, t, SumTree(numbered, sorted, scalar, orders.entries));
  }

  lemma PickedKnown(m: Math, numbered: seq<Tree>, terms: seq<Term>, p: seq<nat>)
    requires KnownTerms(m, numbered, terms) && IsPermutation(p, |terms|)
    ensures KnownTerms(m, numbered, Picked(terms, p))
  {
  }

  /** A sum over whole exponents keeps its value exactly when its value is not one that its numbers alone make up: when
      some product is left with a coefficient, or the numbers add up to zero. */
  lemma SumRewriteKeepsIff(m: Math, numbered: seq<Tree>, t: Tree, orders: Orders)
    requires Lawful(m) && Known(m, numbered, t) && AllWhole(t) && Sorts(orders)
    ensures Numeric(t)
    ensures KeepsVal(m, t, SumRewrite(m, numbered, t, orders)) <==> Val(m, t).Undefined? || !DropsScalar(m, numbered, t)
  {
    SumRestVal(m, numbered, t);
    SumRewriteVal(m, numbered, t, orders);
    DropsScalarIff(m, numbered, t);
    assert Sum(m, numbered, []) == Defined(0.0);
  }

  // Such a sum is always rewritten.
  lemma DropsScalarChanges(m: Math, numbered: seq<Tree>, t: Tree, orders: Orders)
    requires Known(m, numbered, t) && IsSum(t) && DropsScalar(m, numbered, t)
    ensures SumChanges(m, numbered, t, orders)
  {
    KnownChildren(m, numbered, t);
    DropsScalarIff(m, numbered, t);
  }
}
