/** The additive sequence of the source: a list of terms and a scalar, collected in place and turned back into a tree. */
module ExprAdditive {
  import opened ExprTree
  import opened ExprValueNumber
  import opened ExprReal
  import opened ExprRewrite
  import opened ExprProduct
  import opened ExprExpansion
  import opened ExprTermTree
  import opened ExprExponents
  import opened ExprSum

  function View(terms: seq<ExponentMap>): (r: seq<Term>)
    reads terms
    ensures |r| == |terms|
  {
    seq(|terms|, i requires 0 <= i < |terms| reads terms => terms[i].AsTerm())
  }

  class AdditiveSequence {
    var terms: seq<ExponentMap>
    var scalarTerm: real

    ghost predicate Valid()
      reads this`terms
    {
      forall i, j | 0 <= i < j < |terms| :: terms[i] != terms[j]
    }

    function Terms(): (r: seq<Term>)
      reads this`terms, terms
      ensures |r| == |terms|
    {
      View(terms)
    }

    constructor ()
      ensures terms == [] && scalarTerm == 0.0 && Valid()
    {
      terms, scalarTerm := [], 0.0;
    }

    method AddTerm(vn: int, sign: real)
      requires Valid()
      modifies this`terms
      ensures Valid() && |terms| == |old(terms)| + 1 && terms[..|old(terms)|] == old(terms) && fresh(terms[|old(terms)|])
      ensures Terms() == old(Terms()) + [Term(map[vn := 1.0], sign)]
    {
      var term := new ExponentMap();
      term.AddTerm(vn, 1.0);
      AddedByEntry(map[], term.exps, vn, 1.0);
      assert Added(map[], vn, 1.0) == map[vn := 1.0];
      term.coeff := term.coeff * sign;
      assert term.AsTerm() == Term(map[vn := 1.0], sign);
      terms := terms + [term];
    }

    /** Every term expanded to the end. */
    method ExpandTerms(m: Math, index: ValueIndex, ghost numbered: seq<Tree>) returns (grown: ValueIndex)
      requires Valid() && Indexed(m, numbered, index) && Covered(index, Terms())
      modifies terms
      ensures Indexed(m, numbered, grown) && Covered(grown, Terms())
      ensures Terms() == ExpandedTerms(m, numbered, old(Terms()))
    {
      ghost var before := Terms();
      grown := index;
      for i := 0 to |terms|
        invariant Indexed(m, numbered, grown) && Covered(grown, Terms())
        invariant forall j | i <= j < |terms| :: Terms()[j] == before[j]
        invariant forall j | 0 <= j < i :: Terms()[j] == ExpandedTerm(m, numbered, before[j])
      {
        ghost var now := Terms();
        assert now[i].exps.Keys <= grown.Keys;
        grown := terms[i].Expand(m, grown, numbered);
        assert Terms() == now[i := terms[i].AsTerm()];
      }
    }

    // The erase of the source.
    method Erase(i: nat)
      requires Valid() && i < |terms|
      modifies this`terms
      ensures Valid() && Terms() == Without(old(Terms()), i) && terms == Without(old(terms), i)
    {
      terms := terms[..i] + terms[i + 1..];
    }

    /** The terms without factors go, and their coefficients into the scalar. */
    method TakeScalars()
      requires Valid()
      modifies this
      ensures Valid() && Terms() == Others(old(Terms()), map[]) && Survive(terms, old(terms))
      ensures scalarTerm == old(scalarTerm) + CoeffOf(old(Terms()), map[])
    {
      ghost var before := Terms();
      var i := 0;
      TakenStart(before, scalarTerm);
      while i < |terms|
        invariant 0 <= i <= |terms| && Valid() && Survive(terms, old(terms))
        invariant Taken(before, old(scalarTerm), Terms(), scalarTerm, i)
        decreases |terms| - i
      {
        TakenNext(before, old(scalarTerm), Terms(), scalarTerm, i);
        i := TakeScalar(i);
      }
      TakenAll(before, old(scalarTerm), Terms(), scalarTerm);
    }

    // The i-th term goes if it has no factors, and its coefficient into the scalar.
    method TakeScalar(i: nat) returns (next: nat)
      requires Valid() && i < |terms|
      modifies this
      ensures Valid() && Survive(terms, old(terms))
      ensures if old(Terms())[i].exps == map[]
              then next == i && Terms() == Without(old(Terms()), i) && scalarTerm == old(scalarTerm) + old(Terms())[i].coeff
              else next == i + 1 && Terms() == old(Terms()) && scalarTerm == old(scalarTerm)
    {
      next := i + 1;
      if terms[i].exps == map[] {
        scalarTerm := scalarTerm + terms[i].coeff;
        Erase(i);
        next := i;
      }
    }

    // Of two like terms the first takes both coefficients.
    method MergeSame(i: nat, j: nat)
      requires Valid() && i < j < |terms|
      modifies terms
      ensures Terms() == MergedIfSame(old(Terms()), i, j)
    {
      if terms[i].exps == terms[j].exps {
        terms[i].coeff := terms[i].coeff + terms[j].coeff;
        terms[j].coeff := terms[j].coeff * 0.0;
      }
    }

    // The terms after the i-th that are like it move their coefficients to it.
    method MergeLater(i: nat)
      requires Valid() && i < |terms|
      modifies terms
      ensures Absorbed(old(Terms()), Terms(), i, |terms|)
    {
      ghost var before := Terms();
      AbsorbedStart(before, i);
      for j := i + 1 to |terms|
        invariant Absorbed(before, Terms(), i, j)
      {
        ghost var now := Terms();
        MergeSame(i, j);
        AbsorbedNext(before, now, i, j);
      }
    }

    // The i-th term takes in the like ones after it, and goes if it is worth nothing.
    method CollectTerm(i: nat) returns (next: nat)
      requires Valid() && i < |terms|
      modifies this`terms, terms
      ensures Valid() && next <= |terms| && |terms| - next < |old(terms)| - i
      ensures Terms()[..next] + Collect(Terms()[next..]) == old(Terms())[..i] + Collect(old(Terms())[i..])
      ensures Survive(terms, old(terms))
    {
      ghost var before := Terms();
      MergeLater(i);
      ghost var now := Terms();
      AbsorbedCollect(before, now, i);
      if terms[i].coeff == 0.0 {
        Erase(i);
        next := i;
        assert Terms()[..i] == now[..i] && Terms()[i..] == now[i + 1..];
      } else {
        next := i + 1;
      }
    }

    /** Like terms become one, and those worth nothing go. */
    method CollectTerms()
      requires Valid()
      modifies this`terms, terms
      ensures Valid() && Terms() == Collect(old(Terms())) && Collected(Terms())
      ensures Survive(terms, old(terms))
    {
      ghost var before := Terms();
      var i := 0;
      assert before[..0] + Collect(before[0..]) == Collect(before) by { assert before[0..] == before; }
      while i < |terms|
        invariant 0 <= i <= |terms| && Valid()
        invariant Terms()[..i] + Collect(Terms()[i..]) == Collect(before)
        invariant Survive(terms, old(terms))
        decreases |terms| - i
      {
        assert forall k | 0 <= k < |terms| :: terms[k] in terms && terms[k] in old(terms);
        i := CollectTerm(i);
      }
      assert Terms()[..i] == Terms() && Collect(Terms()[i..]) == [];
      CollectIsCollected(before);
    }

    /** Expanding, taking out the scalars and collecting. */
    method Expand(m: Math, index: ValueIndex, ghost numbered: seq<Tree>) returns (grown: ValueIndex)
      requires Valid() && Indexed(m, numbered, index) && Covered(index, Terms())
      modifies this, terms
      ensures Valid() && Indexed(m, numbered, grown) && Survive(terms, old(terms)) && Covered(grown, Terms())
      ensures var expanded := ExpandedTerms(m, numbered, old(Terms()));
              && Terms() == Collect(Others(expanded, map[]))
              && scalarTerm == old(scalarTerm) + CoeffOf(expanded, map[])
    {
      grown := ExpandTerms(m, index, numbered);
      ghost var expanded := Terms();
      TakeScalars();
      assert forall k | 0 <= k < |terms| :: terms[k] in terms && terms[k] in old(terms);
      CollectTerms();
      CollectedCovered(grown, expanded);
    }

    /** The terms in the order a comparator gives, and whether they already had it. */
    method Canonicalize(order: seq<Term> -> seq<nat>) returns (canonical: bool)
      requires Valid() && IsPermutation(order(Terms()), |terms|)
      modifies this`terms
      ensures Valid() && Survive(terms, old(terms))
      ensures Terms() == Picked(old(Terms()), order(old(Terms())))
      ensures canonical <==> InOrder(order(old(Terms())))
    {
      var p := order(Terms());
      canonical := InOrder(p);
      PickedDistinct(terms, p);
      PickedView(terms, p);
      terms := Picked(terms, p);
    }

    /** The tree the sequence is written back as. */
    method Emit(m: Math, sort: Exponents -> seq<int>, index: ValueIndex, ghost numbered: seq<Tree>) returns (head: Tree)
      requires Valid() && Indexed(m, numbered, index) && SortsEntries(sort) && Covered(index, Terms())
      ensures head == SumTree(numbered, Terms(), scalarTerm, sort)
    {
      head := Nil;
      for i := 0 to |terms|
        invariant head == TermsTree(numbered, Terms()[..i], sort)
      {
        assert Terms()[i].exps == terms[i].exps;
        assert forall k <- sort(terms[i].exps) :: k in terms[i].exps;
        var node := terms[i].Emit(sort(terms[i].exps), m, index, numbered);
        assert Terms()[..i + 1][..i] == Terms()[..i];
        head := if head.Node? then Make(Add, head, node) else node;
      }
      assert Terms()[..|terms|] == Terms();
      if head.Node? {
        var size := if scalarTerm < 0.0 then -scalarTerm else scalarTerm;
        head := Make(if scalarTerm < 0.0 then Sub else Add, head, Const(size));
      } else {
        head := Const(0.0);
      }
    }
  }

  predicate Survive(a: seq<ExponentMap>, b: seq<ExponentMap>) {
    forall t <- a :: t in b
  }

  // The index has a node for every number of the terms.
  ghost predicate Covered(index: ValueIndex, terms: seq<Term>) {
    forall i | 0 <= i < |terms| :: terms[i].exps.Keys <= index.Keys
  }

  lemma CollectedCovered(index: ValueIndex, terms: seq<Term>)
    requires Covered(index, terms)
    ensures Covered(index, Collect(Others(terms, map[])))
  {
    var r := Collect(Others(terms, map[]));
    forall i | 0 <= i < |r| ensures r[i].exps.Keys <= index.Keys {
      assert Occurs(r, r[i].exps);
      CollectOccurs(Others(terms, map[]), r[i].exps);
      OthersOccur(terms, map[], r[i].exps);
    }
  }

  // Taking out the scalars: those before the i-th term are out.

  ghost predicate Taken(before: seq<Term>, s: real, now: seq<Term>, scalar: real, i: nat) {
    && i <= |now| && now[..i] + Others(now[i..], map[]) == Others(before, map[])
    && scalar + CoeffOf(now[i..], map[]) == s + CoeffOf(before, map[])
  }

  lemma TakenStart(before: seq<Term>, s: real)
    ensures Taken(before, s, before, s, 0)
  {
    assert before[0..] == before;
  }

  lemma TakenNext(before: seq<Term>, s: real, now: seq<Term>, scalar: real, i: nat)
    requires Taken(before, s, now, scalar, i) && i < |now|
    ensures if now[i].exps == map[] then Taken(before, s, Without(now, i), scalar + now[i].coeff, i)
            else Taken(before, s, now, scalar, i + 1)
  {
    CoeffFirst(now[i..], map[]);
    assert now[i..][1..] == now[i + 1..];
    if now[i].exps == map[] {
      var r := Without(now, i);
      assert r[..i] == now[..i] && r[i..] == now[i + 1..];
    } else {
      assert now[..i + 1] == now[..i] + [now[i]];
    }
  }

  lemma TakenAll(before: seq<Term>, s: real, now: seq<Term>, scalar: real)
    requires Taken(before, s, now, scalar, |now|)
    ensures now == Others(before, map[]) && scalar == s + CoeffOf(before, map[])
  {
    assert now[|now|..] == [];
  }

  // Of two like terms the first takes both coefficients, and the second gets zero.
  function MergedIfSame(terms: seq<Term>, i: nat, j: nat): seq<Term>
    requires i < j < |terms|
  {
    if terms[i].exps != terms[j].exps then terms
    else terms[i := Term(terms[i].exps, terms[i].coeff + terms[j].coeff)][j := Term(terms[j].exps, 0.0)]
  }

  // The i-th term has the coefficients of the like ones before the n-th, and those are worth nothing.
  ghost predicate Absorbed(before: seq<Term>, now: seq<Term>, i: nat, n: nat) {
    && i < n <= |before| == |now|
    && now[i] == Term(before[i].exps, CoeffOf(before[i..n], before[i].exps))
    && forall j {:trigger now[j]} {:trigger before[j]} | 0 <= j < |now| && j != i ::
         now[j] == if i < j < n && before[j].exps == before[i].exps then Term(before[j].exps, 0.0) else before[j]
  }

  lemma AbsorbedStart(before: seq<Term>, i: nat)
    requires i < |before|
    ensures Absorbed(before, before, i, i + 1)
  {
    assert before[i..i + 1] == [before[i]];
    CoeffOne(before[i], before[i].exps);
  }

  lemma AbsorbedNext(before: seq<Term>, now: seq<Term>, i: nat, j: nat)
    requires Absorbed(before, now, i, j) && j < |now|
    ensures Absorbed(before, MergedIfSame(now, i, j), i, j + 1)
  {
    var part := before[i..j + 1];
    assert part[..|part| - 1] == before[i..j] && part[|part| - 1] == before[j];
    assert now[j] == before[j];
  }

  // What collecting makes of the rest once the i-th term has absorbed all.
  lemma AbsorbedCollect(before: seq<Term>, now: seq<Term>, i: nat)
    requires Absorbed(before, now, i, |before|)
    ensures now[..i] == before[..i]
    ensures Collect(before[i..]) == (if now[i].coeff != 0.0 then [now[i]] else []) + Collect(now[i + 1..])
    ensures now[..i] + Collect(before[i..]) ==
            if now[i].coeff != 0.0 then now[..i + 1] + Collect(now[i + 1..]) else now[..i] + Collect(now[i + 1..])
  {
    AbsorbedRest(before[i..], now[i], now[i + 1..]) by {
      assert before[i..|before|] == before[i..];
      assert before[i..][1..] == before[i + 1..];
    }
    assert now[..i + 1] == now[..i] + [now[i]];
  }

  lemma AbsorbedRest(before: seq<Term>, first: Term, later: seq<Term>)
    requires |before| == |later| + 1 && first == Term(before[0].exps, CoeffOf(before, before[0].exps))
    requires Zeroed(before[1..], later, first.exps)
    ensures Collect(before) == (if first.coeff != 0.0 then [first] else []) + Collect(later)
  {
    NoneLeft(before[1..], later, first.exps);
    CollectSkips(later, first.exps);
    assert Others(before, first.exps) == Others(before[1..], first.exps);
  }

  // The terms of one product have lost their coefficients.
  ghost predicate Zeroed(before: seq<Term>, now: seq<Term>, exps: Exponents) {
    && |before| == |now|
    && forall j {:trigger now[j]} {:trigger before[j]} | 0 <= j < |now| ::
         now[j] == if before[j].exps == exps then Term(exps, 0.0) else before[j]
  }

  lemma {:induction false} NoneLeft(before: seq<Term>, now: seq<Term>, exps: Exponents)
    requires Zeroed(before, now, exps)
    ensures CoeffOf(now, exps) == 0.0 && Others(now, exps) == Others(before, exps)
  {
    if |now| > 0 {
      NoneLeft(before[1..], now[1..], exps);
      CoeffFirst(now, exps);
      assert now[0] == if before[0].exps == exps then Term(exps, 0.0) else before[0];
    }
  }

  // Sorting

  // Every index below `n`, once.
  ghost predicate IsPermutation(p: seq<nat>, n: nat) {
    |p| == n && (forall i | 0 <= i < n :: p[i] < n) && (forall i, j | 0 <= i < j < n :: p[i] != p[j])
  }

  predicate InOrder(p: seq<nat>) {
    forall i | 0 <= i < |p| :: p[i] == i
  }

  function Picked<T>(s: seq<T>, p: seq<nat>): (r: seq<T>)
    requires forall i | 0 <= i < |p| :: p[i] < |s|
    ensures |r| == |p|
  {
    seq(|p|, i requires 0 <= i < |p| => s[p[i]])
  }

  // A permutation without its last index, the others renumbered.
  function Shortened(p: seq<nat>): (q: seq<nat>)
    requires |p| > 0
    ensures |q| == |p| - 1
  {
    var n := |p| - 1;
    seq(n, i requires 0 <= i < n => if p[i] > p[n] then p[i] - 1 else p[i])
  }

  lemma ShortenedPermutes(p: seq<nat>, n: nat)
    requires n > 0 && IsPermutation(p, n)
    ensures IsPermutation(Shortened(p), n - 1)
  {
  }

  lemma ShortenedPicks<T>(s: seq<T>, p: seq<nat>)
    requires |s| > 0 && IsPermutation(p, |s|) && IsPermutation(Shortened(p), |s| - 1)
    ensures Picked(Without(s, p[|s| - 1]), Shortened(p)) == Without(Picked(s, p), |s| - 1)
  {
    var n := |s| - 1;
    var a, b := Picked(Without(s, p[n]), Shortened(p)), Without(Picked(s, p), n);
    forall i | 0 <= i < n ensures a[i] == b[i] {
      assert p[i] != p[n];
    }
  }

  lemma PutBack<T>(a: multiset<T>, b: multiset<T>, x: T)
    requires x in a && x in b && a - multiset{x} == b - multiset{x}
    ensures a == b
  {
    assert a == (a - multiset{x}) + multiset{x};
    assert b == (b - multiset{x}) + multiset{x};
  }

  /** Picking by a permutation keeps the multiset. */
  lemma {:induction false} PickedIsPermuted<T>(s: seq<T>, p: seq<nat>)
    requires IsPermutation(p, |s|)
    ensures multiset(Picked(s, p)) == multiset(s)
    decreases |s|
  {
    if |s| > 0 {
      var n := |s| - 1;
      var x, picked, rest := s[p[n]], Picked(s, p), Without(s, p[n]);
      ShortenedPermutes(p, |s|);
      ShortenedPicks(s, p);
      PickedIsPermuted(rest, Shortened(p));
      LastPicked(s, picked, rest, p[n], n);
    } else {
      assert Picked(s, p) == s;
    }
  }

  lemma LastPicked<T>(s: seq<T>, picked: seq<T>, rest: seq<T>, k: nat, n: nat)
    requires k < |s| && n < |picked| && rest == Without(s, k) && picked[n] == s[k]
    requires multiset(Without(picked, n)) == multiset(rest)
    ensures multiset(picked) == multiset(s)
  {
    MultisetWithout(s, k);
    MultisetWithout(picked, n);
    PutBack(multiset(picked), multiset(s), s[k]);
  }

  lemma PickedDistinct<T>(s: seq<T>, p: seq<nat>)
    requires IsPermutation(p, |s|) && forall i, j | 0 <= i < j < |s| :: s[i] != s[j]
    ensures forall i, j | 0 <= i < j < |s| :: Picked(s, p)[i] != Picked(s, p)[j]
  {
  }

  lemma PickedView(terms: seq<ExponentMap>, p: seq<nat>)
    requires IsPermutation(p, |terms|)
    ensures View(Picked(terms, p)) == Picked(View(terms), p)
  {
  }
}
