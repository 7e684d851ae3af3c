/** Sums of terms: what a sequence of terms is worth, what collecting like terms leaves of it, and the tree it is written
    back as. */
module ExprSum {
  import opened ExprTree
  import opened ExprValueNumber
  import opened ExprReal
  import opened ExprPower
  import opened ExprRewrite
  import opened ExprProduct
  import opened ExprExpansion
  import opened ExprTermTree

  function Plus(a: Value, b: Value): Value {
    if a.Defined? && b.Defined? then Defined(a.value + b.value) else Undefined
  }

  ghost function Sum(m: Math, numbered: seq<Tree>, terms: seq<Term>): Value {
    if terms == [] then Defined(0.0)
    else Plus(Sum(m, numbered, terms[..|terms| - 1]), TermVal(m, numbered, terms[|terms| - 1]))
  }

  function Without<T>(s: seq<T>, i: nat): seq<T>
    requires i < |s|
  {
    s[..i] + s[i + 1..]
  }

  lemma PlusSwaps(a: Value, b: Value, c: Value)
    ensures Plus(Plus(a, b), c) == Plus(Plus(a, c), b) && Plus(a, b) == Plus(b, a)
  {
  }

  /** A term may be taken out of a sum. */
  lemma {:induction false} SumWithout(m: Math, numbered: seq<Tree>, terms: seq<Term>, i: nat)
    requires i < |terms|
    ensures Sum(m, numbered, terms) == Plus(Sum(m, numbered, Without(terms, i)), TermVal(m, numbered, terms[i]))
  {
    var n := |terms| - 1;
    if i == n {
      assert Without(terms, i) == terms[..n];
    } else {
      var rest := Without(terms, i);
      SumWithout(m, numbered, terms[..n], i);
      assert rest[..|rest| - 1] == Without(terms[..n], i);
      assert rest[|rest| - 1] == terms[n];
      PlusSwaps(Sum(m, numbered, Without(terms[..n], i)), TermVal(m, numbered, terms[i]), TermVal(m, numbered, terms[n]));
    }
  }

  lemma PlusKeeps(a: Value, b: Value, c: Value, d: Value)
    requires Keeps(a, b) && Keeps(c, d)
    ensures Keeps(Plus(a, c), Plus(b, d))
  {
  }

  // A term worth nothing, and one without factors.
  lemma ZeroTerm(m: Math, numbered: seq<Tree>, t: Term)
    requires t.coeff == 0.0
    ensures Keeps(TermVal(m, numbered, t), Defined(0.0))
  {
  }

  lemma ScalarTerm(m: Math, numbered: seq<Tree>, t: Term)
    requires t.exps == map[]
    ensures TermVal(m, numbered, t) == Defined(t.coeff)
  {
    EmptyProduct(m, ValuesOf(m, numbered), t.exps, |numbered|);
    TimesOne(Defined(t.coeff));
  }

  lemma MultisetWithout<T>(s: seq<T>, i: nat)
    requires i < |s|
    ensures multiset(Without(s, i)) == multiset(s) - multiset{s[i]}
  {
    assert s == s[..i] + [s[i]] + s[i + 1..];
  }

  lemma IndexOf<T>(s: seq<T>, x: T) returns (i: nat)
    requires x in multiset(s)
    ensures i < |s| && s[i] == x
  {
    i :| i < |s| && s[i] == x;
  }

  /** Sorting the terms does not change the sum. */
  lemma {:induction false} SumPermuted(m: Math, numbered: seq<Tree>, a: seq<Term>, b: seq<Term>)
    requires multiset(a) == multiset(b)
    ensures Sum(m, numbered, a) == Sum(m, numbered, b)
    decreases |a|
  {
    assert |a| == |multiset(a)| == |multiset(b)| == |b|;
    if |a| > 0 {
      var n := |a| - 1;
      var j := IndexOf(b, a[n]);
      SumWithout(m, numbered, b, j);
      MultisetWithout(a, n);
      MultisetWithout(b, j);
      assert Without(a, n) == a[..n];
      SumPermuted(m, numbered, a[..n], Without(b, j));
    }
  }

  // Coefficients

  // The coefficients of one product, added up.
  function CoeffOf(terms: seq<Term>, exps: Exponents): real {
    if terms == [] then 0.0
    else CoeffOf(terms[..|terms| - 1], exps) + CoeffIn(terms[|terms| - 1], exps)
  }

  function CoeffIn(t: Term, exps: Exponents): real {
    if t.exps == exps then t.coeff else 0.0
  }

  lemma {:induction false} CoeffSplit(a: seq<Term>, b: seq<Term>, exps: Exponents)
    ensures CoeffOf(a + b, exps) == CoeffOf(a, exps) + CoeffOf(b, exps)
  {
    if b == [] {
      assert a + b == a;
    } else {
      var front := b[..|b| - 1];
      CoeffSplit(a, front, exps);
      assert (a + b)[..|a + b| - 1] == a + front;
    }
  }

  lemma CoeffOne(t: Term, exps: Exponents)
    ensures CoeffOf([t], exps) == CoeffIn(t, exps)
  {
    assert [t][..0] == [];
  }

  lemma CoeffFirst(terms: seq<Term>, exps: Exponents)
    requires |terms| > 0
    ensures CoeffOf(terms, exps) == CoeffIn(terms[0], exps) + CoeffOf(terms[1..], exps)
  {
    CoeffSplit([terms[0]], terms[1..], exps);
    CoeffOne(terms[0], exps);
    assert terms == [terms[0]] + terms[1..];
  }

  // The terms that are not of one product.
  function Others(terms: seq<Term>, exps: Exponents): (r: seq<Term>)
    ensures |r| <= |terms|
  {
    if |terms| == 0 then []
    else if terms[0].exps == exps then Others(terms[1..], exps)
    else [terms[0]] + Others(terms[1..], exps)
  }

  predicate Occurs(terms: seq<Term>, exps: Exponents) {
    exists i | 0 <= i < |terms| :: terms[i].exps == exps
  }

  lemma OccursLater(terms: seq<Term>, exps: Exponents)
    requires |terms| > 0
    ensures Occurs(terms, exps) <==> terms[0].exps == exps || Occurs(terms[1..], exps)
  {
    if Occurs(terms[1..], exps) {
      var i :| 0 <= i < |terms| - 1 && terms[1..][i].exps == exps;
      assert terms[i + 1].exps == exps;
    }
    if Occurs(terms, exps) && terms[0].exps != exps {
      var i :| 0 <= i < |terms| && terms[i].exps == exps;
      assert terms[1..][i - 1].exps == exps;
    }
  }

  lemma {:induction false} NoneOccur(terms: seq<Term>, exps: Exponents)
    requires !Occurs(terms, exps)
    ensures CoeffOf(terms, exps) == 0.0 && Others(terms, exps) == terms
  {
    if |terms| > 0 {
      OccursLater(terms, exps);
      NoneOccur(terms[1..], exps);
      CoeffFirst(terms, exps);
      assert terms[0].exps != exps;
      assert terms == [terms[0]] + terms[1..];
    }
  }

  lemma {:induction false} OthersCoeff(terms: seq<Term>, a: Exponents, b: Exponents)
    ensures CoeffOf(Others(terms, a), b) == if a == b then 0.0 else CoeffOf(terms, b)
  {
    if |terms| > 0 {
      OthersCoeff(terms[1..], a, b);
      CoeffFirst(terms, b);
      if terms[0].exps != a {
        CoeffSplit([terms[0]], Others(terms[1..], a), b);
        CoeffOne(terms[0], b);
      }
    }
  }

  lemma {:induction false} OthersOccur(terms: seq<Term>, a: Exponents, b: Exponents)
    ensures Occurs(Others(terms, a), b) <==> a != b && Occurs(terms, b)
  {
    if |terms| > 0 {
      OthersOccur(terms[1..], a, b);
      OccursLater(terms, b);
      if terms[0].exps != a {
        var r := Others(terms, a);
        OccursLater(r, b);
        assert r[1..] == Others(terms[1..], a);
      }
    }
  }

  lemma {:induction false} OthersCommute(terms: seq<Term>, a: Exponents, b: Exponents)
    ensures Others(Others(terms, a), b) == Others(Others(terms, b), a)
  {
    if |terms| > 0 {
      var t, rest := terms[0], terms[1..];
      OthersCommute(rest, a, b);
      assert t.exps != a ==> ([t] + Others(rest, a))[1..] == Others(rest, a);
      assert t.exps != b ==> ([t] + Others(rest, b))[1..] == Others(rest, b);
    }
  }

  // Collecting

  /** Like terms collected: one term for each product, in the order they first come up, with all its coefficient, and
      none for a product whose coefficients cancel. */
  function Collect(terms: seq<Term>): seq<Term>
    decreases |terms|
  {
    if |terms| == 0 then []
    else
      var exps := terms[0].exps;
      var coeff := CoeffOf(terms, exps);
      (if coeff != 0.0 then [Term(exps, coeff)] else []) + Collect(Others(terms, exps))
  }

  lemma {:induction false} CollectOccurs(terms: seq<Term>, exps: Exponents)
    ensures Occurs(Collect(terms), exps) ==> Occurs(terms, exps)
    decreases |terms|
  {
    if |terms| > 0 {
      var e := terms[0].exps;
      var rest := Collect(Others(terms, e));
      CollectOccurs(Others(terms, e), exps);
      OthersOccur(terms, e, exps);
      assert terms[0].exps == e;
      if CoeffOf(terms, e) != 0.0 {
        OccursLater(Collect(terms), exps);
        assert Collect(terms)[1..] == rest;
      } else {
        assert Collect(terms) == rest;
      }
    }
  }

  /** Collecting conserves the coefficient of every product. */
  lemma {:induction false} CollectCoeff(terms: seq<Term>, exps: Exponents)
    ensures CoeffOf(Collect(terms), exps) == CoeffOf(terms, exps)
    decreases |terms|
  {
    if |terms| > 0 {
      var e := terms[0].exps;
      var coeff, rest := CoeffOf(terms, e), Collect(Others(terms, e));
      CollectCoeff(Others(terms, e), exps);
      OthersCoeff(terms, e, exps);
      if coeff != 0.0 {
        CoeffSplit([Term(e, coeff)], rest, exps);
        CoeffOne(Term(e, coeff), exps);
      } else {
        assert Collect(terms) == rest;
      }
    }
  }

  /** No two terms are alike, and none is worth nothing. */
  ghost predicate Collected(terms: seq<Term>) {
    && (forall i | 0 <= i < |terms| :: terms[i].coeff != 0.0)
    && (forall i, j | 0 <= i < j < |terms| :: terms[i].exps != terms[j].exps)
  }

  lemma {:induction false} CollectIsCollected(terms: seq<Term>)
    ensures Collected(Collect(terms))
    decreases |terms|
  {
    if |terms| > 0 {
      var e := terms[0].exps;
      var rest := Collect(Others(terms, e));
      CollectIsCollected(Others(terms, e));
      CollectOccurs(Others(terms, e), e);
      OthersOccur(terms, e, e);
      assert forall i | 0 <= i < |rest| :: rest[i].exps != e;
    }
  }

  /** Nothing is left after collecting exactly when the coefficients of every product cancel. */
  lemma NothingCollected(terms: seq<Term>)
    ensures |Collect(terms)| == 0 <==> forall exps :: CoeffOf(terms, exps) == 0.0
  {
    var r := Collect(terms);
    forall exps ensures CoeffOf(r, exps) == CoeffOf(terms, exps) {
      CollectCoeff(terms, exps);
    }
    if |r| > 0 {
      CollectIsCollected(terms);
      CoeffFirst(r, r[0].exps);
      assert !Occurs(r[1..], r[0].exps);
      NoneOccur(r[1..], r[0].exps);
      assert CoeffOf(terms, r[0].exps) != 0.0;
    }
  }

  // Every product but one has coefficient zero.
  ghost predicate NothingElse(terms: seq<Term>, e: Exponents) {
    forall exps: Exponents :: exps != e ==> CoeffOf(terms, exps) == 0.0
  }

  lemma NothingElseCollected(terms: seq<Term>, e: Exponents)
    ensures |Collect(Others(terms, e))| == 0 <==> NothingElse(terms, e)
  {
    var others := Others(terms, e);
    NothingCollected(others);
    if |Collect(others)| == 0 {
      forall exps: Exponents | exps != e ensures CoeffOf(terms, exps) == 0.0 {
        OthersCoeff(terms, e, exps);
      }
    } else {
      var exps: Exponents :| CoeffOf(others, exps) != 0.0;
      OthersCoeff(terms, e, exps);
      assert exps != e && CoeffOf(terms, exps) != 0.0;
    }
  }

  // A product whose coefficients cancel may be left out at once.
  lemma {:induction false} CollectSkips(terms: seq<Term>, exps: Exponents)
    requires CoeffOf(terms, exps) == 0.0
    ensures Collect(terms) == Collect(Others(terms, exps))
    decreases |terms|
  {
    if |terms| > 0 && terms[0].exps != exps {
      var e := terms[0].exps;
      var skipped := Others(terms, exps);
      OthersCoeff(terms, e, exps);
      CollectSkips(Others(terms, e), exps);
      OthersCoeff(terms, exps, e);
      OthersCommute(terms, e, exps);
      assert skipped[0] == terms[0];
    }
  }

  // What collecting keeps

  lemma SumFirst(m: Math, numbered: seq<Tree>, terms: seq<Term>)
    requires |terms| > 0
    ensures Sum(m, numbered, terms) == Plus(Sum(m, numbered, terms[1..]), TermVal(m, numbered, terms[0]))
  {
    SumWithout(m, numbered, terms, 0);
    assert Without(terms, 0) == terms[1..];
  }

  lemma MergeCoefficients(p: Value, rest: Value, c: real, d: real)
    ensures Plus(Plus(rest, Times(p, Defined(c))), Times(p, Defined(d))) == Plus(rest, Times(p, Defined(d + c)))
  {
    if p.Defined? { Distributes(p.value, c, d); }
  }

  lemma Distributes(p: real, c: real, d: real)
    ensures p * (d + c) == p * c + p * d
  {
  }

  // The like terms of a product taken together.
  lemma {:induction false} SumOthers(m: Math, numbered: seq<Tree>, terms: seq<Term>, exps: Exponents)
    requires Occurs(terms, exps)
    ensures Sum(m, numbered, terms) ==
            Plus(Sum(m, numbered, Others(terms, exps)), TermVal(m, numbered, Term(exps, CoeffOf(terms, exps))))
  {
    var t, rest := terms[0], terms[1..];
    OccursLater(terms, exps);
    CoeffFirst(terms, exps);
    SumFirst(m, numbered, terms);
    if t.exps == exps {
      if Occurs(rest, exps) {
        SumOthers(m, numbered, rest, exps);
        MergeCoefficients(Product(m, ValuesOf(m, numbered), exps, |numbered|), Sum(m, numbered, Others(rest, exps)),
                          CoeffOf(rest, exps), t.coeff);
      } else {
        NoneOccur(rest, exps);
      }
    } else {
      SumOthers(m, numbered, rest, exps);
      var others := Others(terms, exps);
      SumFirst(m, numbered, others);
      assert others[0] == t && others[1..] == Others(rest, exps);
      PlusSwaps(Sum(m, numbered, Others(rest, exps)), TermVal(m, numbered, t),
                TermVal(m, numbered, Term(exps, CoeffOf(terms, exps))));
    }
  }

  /** Collecting keeps the sum. */
  lemma {:induction false} SumCollect(m: Math, numbered: seq<Tree>, terms: seq<Term>)
    ensures Keeps(Sum(m, numbered, terms), Sum(m, numbered, Collect(terms)))
    decreases |terms|
  {
    if |terms| > 0 {
      var exps := terms[0].exps;
      var t, others := Term(exps, CoeffOf(terms, exps)), Others(terms, exps);
      assert Occurs(terms, exps);
      SumOthers(m, numbered, terms, exps);
      SumCollect(m, numbered, others);
      if t.coeff != 0.0 {
        SumFirst(m, numbered, Collect(terms));
        assert Collect(terms)[1..] == Collect(others);
        PlusKeeps(Sum(m, numbered, others), Sum(m, numbered, Collect(others)), TermVal(m, numbered, t), TermVal(m, numbered, t));
      } else {
        assert Collect(terms) == Collect(others);
        ZeroTerm(m, numbered, t);
        PlusKeeps(Sum(m, numbered, others), Sum(m, numbered, Collect(others)), TermVal(m, numbered, t), Defined(0.0));
      }
    }
  }

  /** The terms without factors are a number. */
  lemma SumScalars(m: Math, numbered: seq<Tree>, terms: seq<Term>)
    ensures Sum(m, numbered, terms) == Plus(Sum(m, numbered, Others(terms, map[])), Defined(CoeffOf(terms, map[])))
  {
    if Occurs(terms, map[]) {
      SumOthers(m, numbered, terms, map[]);
      ScalarTerm(m, numbered, Term(map[], CoeffOf(terms, map[])));
    } else {
      NoneOccur(terms, map[]);
    }
  }

  // Expanding every term

  function ExpandedTerms(m: Math, numbered: seq<Tree>, terms: seq<Term>): (r: seq<Term>)
    ensures |r| == |terms|
  {
    seq(|terms|, i requires 0 <= i < |terms| => ExpandedTerm(m, numbered, terms[i]))
  }

  ghost predicate KnownTerms(m: Math, numbered: seq<Tree>, terms: seq<Term>) {
    forall i | 0 <= i < |terms| :: KnownMap(m, numbered, terms[i].exps)
  }

  ghost predicate WholeTerms(numbered: seq<Tree>, terms: seq<Term>) {
    forall i | 0 <= i < |terms| :: WholeMap(numbered, terms[i].exps)
  }

  lemma {:induction false} SumExpanded(m: Math, numbered: seq<Tree>, terms: seq<Term>)
    requires Lawful(m) && KnownTerms(m, numbered, terms) && WholeTerms(numbered, terms)
    ensures Keeps(Sum(m, numbered, terms), Sum(m, numbered, ExpandedTerms(m, numbered, terms)))
  {
    if |terms| > 0 {
      var n := |terms| - 1;
      var front, more := terms[..n], ExpandedTerms(m, numbered, terms);
      assert more[..n] == ExpandedTerms(m, numbered, front);
      SumExpanded(m, numbered, front);
      ExpandedTermKeeps(m, numbered, terms[n]);
      PlusKeeps(Sum(m, numbered, front), Sum(m, numbered, more[..n]), TermVal(m, numbered, terms[n]), TermVal(m, numbered, more[n]));
    }
  }

  lemma ExpandedTermsKnown(m: Math, numbered: seq<Tree>, terms: seq<Term>)
    requires KnownTerms(m, numbered, terms) && Canonical(numbered)
    ensures KnownTerms(m, numbered, ExpandedTerms(m, numbered, terms))
  {
    forall i | 0 <= i < |terms| ensures KnownMap(m, numbered, ExpandedTerms(m, numbered, terms)[i].exps) {
      ExpandedTermIsBasic(m, numbered, terms[i]);
    }
  }

  lemma CollectKnown(m: Math, numbered: seq<Tree>, terms: seq<Term>)
    requires KnownTerms(m, numbered, terms)
    ensures KnownTerms(m, numbered, Collect(terms))
  {
    var r := Collect(terms);
    forall i | 0 <= i < |r| ensures KnownMap(m, numbered, r[i].exps) {
      assert Occurs(r, r[i].exps);
      CollectOccurs(terms, r[i].exps);
    }
  }

  lemma OthersKnown(m: Math, numbered: seq<Tree>, terms: seq<Term>, exps: Exponents)
    requires KnownTerms(m, numbered, terms)
    ensures KnownTerms(m, numbered, Others(terms, exps))
  {
    var r := Others(terms, exps);
    forall i | 0 <= i < |r| ensures KnownMap(m, numbered, r[i].exps) {
      assert Occurs(r, r[i].exps);
      OthersOccur(terms, exps, r[i].exps);
    }
  }

  // Writing a sum back

  // A comparator that lists every map's entries.
  ghost predicate SortsEntries(sort: Exponents -> seq<int>) {
    forall exps :: IsOrder(sort(exps), exps)
  }

  function TermsTree(numbered: seq<Tree>, terms: seq<Term>, sort: Exponents -> seq<int>): Tree {
    if |terms| == 0 then Nil
    else
      var t := terms[|terms| - 1];
      var rest := TermsTree(numbered, terms[..|terms| - 1], sort);
      var node := TermTree(numbered, t, sort(t.exps));
      if rest.Nil? then node else Make(Add, rest, node)
  }

  // The addends of a tree of additions, from left to right.
  function Addends(t: Tree): seq<Tree> {
    if t.Nil? then [] else if Is(t, Add) then Addends(t.left) + [t.right] else [t]
  }

  /** The terms are written in the order they have. */
  lemma {:induction false} AddendsInOrder(numbered: seq<Tree>, terms: seq<Term>, sort: Exponents -> seq<int>)
    ensures |Addends(TermsTree(numbered, terms, sort))| == |terms|
    ensures forall i | 0 <= i < |terms| ::
              Addends(TermsTree(numbered, terms, sort))[i] == TermTree(numbered, terms[i], sort(terms[i].exps))
  {
    if |terms| > 0 {
      var front := terms[..|terms| - 1];
      AddendsInOrder(numbered, front, sort);
      var node := TermTree(numbered, terms[|terms| - 1], sort(terms[|terms| - 1].exps));
      assert Is(node, Mul) || IsConstant(node);
    }
  }

  /** The sum of the terms, and then the scalar; without terms it is zero, whatever the scalar. */
  function SumTree(numbered: seq<Tree>, terms: seq<Term>, scalar: real, sort: Exponents -> seq<int>): Tree {
    var sum := TermsTree(numbered, terms, sort);
    if sum.Nil? then Const(0.0)
    else Make(if scalar < 0.0 then Sub else Add, sum, Const(if scalar < 0.0 then -scalar else scalar))
  }

  lemma SumTreeParts(numbered: seq<Tree>, terms: seq<Term>, scalar: real, sort: Exponents -> seq<int>)
    requires |terms| > 0
    ensures var r := SumTree(numbered, terms, scalar, sort);
            && r.Node? && r.op.code == (if scalar < 0.0 then Sub else Add) && r.left == TermsTree(numbered, terms, sort)
            && r.right == Const(if scalar < 0.0 then -scalar else scalar)
  {
    assert TermsTree(numbered, terms, sort).Node?;
  }

  lemma {:induction false} TermsTreeVal(m: Math, numbered: seq<Tree>, terms: seq<Term>, sort: Exponents -> seq<int>)
    requires KnownTerms(m, numbered, terms) && SortsEntries(sort)
    ensures var r := TermsTree(numbered, terms, sort);
            if |terms| == 0 then r == Nil else Numeric(r) && Val(m, r) == Sum(m, numbered, terms)
  {
    if |terms| > 0 {
      var t, front := terms[|terms| - 1], terms[..|terms| - 1];
      TermsTreeVal(m, numbered, front, sort);
      TermTreeVal(m, numbered, t, sort(t.exps));
      var node := TermTree(numbered, t, sort(t.exps));
      if |front| == 0 {
        PlusZero(Val(m, node));
      } else {
        MakeVal(m, Add, TermsTree(numbered, front, sort), node);
        AddIsPlus(m, Sum(m, numbered, front), Val(m, node));
      }
    }
  }

  lemma PlusZero(a: Value)
    ensures Plus(Defined(0.0), a) == a
  {
  }

  lemma AddIsPlus(m: Math, a: Value, b: Value)
    ensures ValOf(m, Add, a, b) == Plus(a, b)
  {
  }

  lemma ScalarIsPlus(m: Math, a: Value, scalar: real)
    ensures ValOf(m, if scalar < 0.0 then Sub else Add, a, Defined(if scalar < 0.0 then -scalar else scalar)) ==
            Plus(a, Defined(scalar))
  {
  }

  /** The tree written back has the value of the terms and the scalar if there is a term, and is zero otherwise. */
  lemma SumTreeVal(m: Math, numbered: seq<Tree>, terms: seq<Term>, scalar: real, sort: Exponents -> seq<int>)
    requires KnownTerms(m, numbered, terms) && SortsEntries(sort)
    ensures var r := SumTree(numbered, terms, scalar, sort);
            && Numeric(r)
            && Val(m, r) == if |terms| > 0 then Plus(Sum(m, numbered, terms), Defined(scalar)) else Defined(0.0)
  {
    TermsTreeVal(m, numbered, terms, sort);
    var size := if scalar < 0.0 then -scalar else scalar;
    NumberVal(m, Const(size), size);
    NumberVal(m, Const(0.0), 0.0);
    if |terms| > 0 {
      MakeVal(m, if scalar < 0.0 then Sub else Add, TermsTree(numbered, terms, sort), Const(size));
      ScalarIsPlus(m, Sum(m, numbered, terms), scalar);
    }
  }
}
