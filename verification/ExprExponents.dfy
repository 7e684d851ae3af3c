/** The exponent map of a product: expanding it in place, folding its constants, and turning it back into a tree. */
module ExprExponents {
  import opened ExprTree
  import opened ExprValueNumber
  import opened ExprReal
  import opened ExprPower
  import opened ExprRewrite
  import opened ExprProduct
  import opened ExprExpansion
  import opened ExprTermTree

  // A node for each value number that can come up.
  type ValueIndex = map<int, Tree>

  ghost predicate Indexed(m: Math, numbered: seq<Tree>, index: ValueIndex) {
    Canonical(numbered) && forall k <- index :: Known(m, numbered, index[k]) && index[k].vn == k
  }

  // A node of the index and the numbered node of its number say the same to the expansion.
  lemma IndexTwin(m: Math, numbered: seq<Tree>, t: Tree)
    requires Known(m, numbered, t)
    ensures KnownNumber(m, numbered, t.vn) && Strip(t) == Strip(numbered[t.vn])
    ensures IsConstant(t) <==> IsConstant(numbered[t.vn])
    ensures Expandable(t) <==> Expandable(numbered[t.vn])
    ensures Expandable(t) ==>
              var n := numbered[t.vn];
              && t.op == n.op && t.left.vn == n.left.vn && t.right.vn == n.right.vn && t.right.op == n.right.op
              && n.left.Node? && n.right.Node?
  {
    TwinKnown(m, numbered, t);
    KnownShape(m, numbered, t);
    if Expandable(t) {
      var n := numbered[t.vn];
      KnownOperands(m, numbered, t);
      KnownOperands(m, numbered, n);
      SameNumber(numbered, t.left, n.left);
      SameNumber(numbered, t.right, n.right);
      assert Strip(t).op == Strip(n).op && Strip(t.right).op == Strip(n.right).op;
    }
  }

  lemma SameNumber(numbered: seq<Tree>, a: Tree, b: Tree)
    requires Canonical(numbered) && Faithful(a, numbered) && Faithful(b, numbered) && Strip(a) == Strip(b)
    requires a.Node? && !IsMux(a)
    ensures b.Node? && a.vn == b.vn
  {
    assert Strip(numbered[a.vn]) == Strip(numbered[b.vn]);
  }

  lemma TwinExpanded(m: Math, numbered: seq<Tree>, exps: Exponents, t: Tree)
    requires Known(m, numbered, t) && Expandable(t) && t.vn in exps
    ensures KnownNumber(m, numbered, t.vn) && Expandable(numbered[t.vn])
    ensures Expanded(exps, t) == Expanded(exps, numbered[t.vn])
  {
    IndexTwin(m, numbered, t);
    var n, e := numbered[t.vn], exps[t.vn];
    if IsPowerOfConstant(t) { assert PowerExponent(t, e) == PowerExponent(n, e); }
  }

  class ExponentMap {
    var exps: Exponents
    var coeff: real

    function AsTerm(): Term
      reads this
    {
      Term(exps, coeff)
    }

    constructor ()
      ensures exps == map[] && coeff == 1.0
    {
      exps, coeff := map[], 1.0;
    }

    /** The exponent of one number grows, from zero if it had none, and every other entry stays. */
    method AddTerm(vn: int, e: real)
      modifies this`exps
      ensures vn in exps && exps[vn] == (if vn in old(exps) then old(exps)[vn] else 0.0) + e
      ensures exps - {vn} == old(exps) - {vn}
    {
      exps := exps[vn := ExponentWith(exps, vn, e)];
    }

    // Replaces the entry of a node by entries of its operands.
    method ExpandEntry(t: Tree, index: ValueIndex) returns (grown: ValueIndex)
      requires Expandable(t) && t.vn in exps && t.left.vn < t.vn && t.right.vn < t.vn
      modifies this`exps
      ensures exps == Expanded(old(exps), t)
      ensures grown == if IsPowerOfConstant(t) then index[t.left.vn := t.left]
                       else index[t.left.vn := t.left][t.right.vn := t.right]
    {
      ghost var before := exps;
      var e := exps[t.vn];
      grown := index[t.left.vn := t.left];
      if IsPowerOfConstant(t) {
        AddTerm(t.left.vn, PowerExponent(t, e));
        AddedByEntry(before, exps, t.left.vn, PowerExponent(t, e));
      } else {
        grown := grown[t.right.vn := t.right];
        AddTerm(t.left.vn, e);
        AddedByEntry(before, exps, t.left.vn, e);
        ghost var once := exps;
        AddTerm(t.right.vn, RightExponent(t, e));
        AddedByEntry(once, exps, t.right.vn, RightExponent(t, e));
      }
      exps := exps - {t.vn};
    }

    // What a walk does at one entry.
    method VisitEntry(m: Math, k: int, index: ValueIndex, ghost numbered: seq<Tree>) returns (changed: bool, grown: ValueIndex)
      requires Indexed(m, numbered, index) && exps.Keys <= index.Keys && k in exps
      modifies this`exps
      ensures Indexed(m, numbered, grown) && exps.Keys + index.Keys <= grown.Keys
      ensures 0 <= k < |numbered| && (changed <==> Expandable(numbered[k]))
      ensures Expansion(numbered, exps) == Expansion(numbered, old(exps))
      ensures if changed then Weight(exps, |numbered|) < Weight(old(exps), |numbered|) else exps == old(exps)
    {
      var t := index[k];
      changed, grown := Expandable(t), index;
      VisitedByNode(m, numbered, exps, t);
      if changed {
        grown := ExpandEntry(t, grown);
      }
    }

    /** One walk over the entries by growing number; what it inserts lies behind it. It keeps what the map expands to,
        and either makes the map lighter or finds nothing to expand. */
    method ExpandOnePass(m: Math, index: ValueIndex, ghost numbered: seq<Tree>) returns (changed: bool, grown: ValueIndex)
      requires Indexed(m, numbered, index) && exps.Keys <= index.Keys
      modifies this`exps
      ensures Indexed(m, numbered, grown) && exps.Keys + index.Keys <= grown.Keys
      ensures Expansion(numbered, exps) == Expansion(numbered, old(exps))
      ensures if changed then Weight(exps, |numbered|) < Weight(old(exps), |numbered|)
              else exps == old(exps) && AllBelow(numbered, exps, |numbered|)
    {
      ghost var before := exps;
      var last := -1;
      changed, grown := false, index;
      while exists k <- exps :: k > last
        invariant Indexed(m, numbered, grown) && exps.Keys + index.Keys <= grown.Keys
        invariant Expansion(numbered, exps) == Expansion(numbered, before)
        invariant if changed then Weight(exps, |numbered|) < Weight(before, |numbered|)
                  else exps == before && AllBelow(numbered, exps, last)
        invariant last < |numbered|
        decreases |numbered| - last
      {
        var k := NextKey(exps, last);
        NextIsBelow(numbered, exps, last, k);
        var expanded;
        expanded, grown := VisitEntry(m, k, grown, numbered);
        last := k;
        changed := changed || expanded;
      }
      IndexedRange(m, numbered, grown, exps);
    }

    // A constant leaves the map and goes into the coefficient.
    method CombineEntry(m: Math, k: int, index: ValueIndex, ghost numbered: seq<Tree>, ghost before: Exponents, ghost c: real,
                        ghost i: int)
      requires Indexed(m, numbered, index) && exps.Keys <= index.Keys && k in exps && i <= k
      requires Combined(m, numbered, before, c, exps, coeff, i) && forall j <- exps :: j >= i ==> k <= j
      modifies this
      ensures Combined(m, numbered, before, c, exps, coeff, k + 1) && exps.Keys <= old(exps).Keys && k < |numbered|
    {
      var t := index[k];
      CombinedByNode(m, numbered, before, c, exps, coeff, i, t);
      if IsConstant(t) {
        coeff := coeff * ConstantPower(m, t, exps[k]);
        exps := exps - {k};
      }
    }

    /** The constants leave the map, whatever they are raised to, and go into the coefficient. */
    method CombineConstants(m: Math, index: ValueIndex, ghost numbered: seq<Tree>)
      requires Indexed(m, numbered, index) && exps.Keys <= index.Keys
      modifies this
      ensures exps == WithoutConstants(numbered, old(exps), |numbered|)
      ensures coeff == Scaled(m, numbered, old(exps), old(coeff), |numbered|)
    {
      ghost var before, c := exps, coeff;
      IndexedRange(m, numbered, index, exps);
      var last := -1;
      CombinedNone(m, numbered, before, c);
      while exists k <- exps :: k > last
        invariant -1 <= last < |numbered| && exps.Keys <= index.Keys
        invariant Combined(m, numbered, before, c, exps, coeff, last + 1)
        decreases |numbered| - last
      {
        var k := NextKey(exps, last);
        CombineEntry(m, k, index, numbered, before, c, last + 1);
        last := k;
      }
      CombinedRest(m, numbered, before, c, exps, coeff, last + 1, |numbered|);
    }

    /** Expanding to the end gives the expanded term. */
    method Expand(m: Math, index: ValueIndex, ghost numbered: seq<Tree>) returns (grown: ValueIndex)
      requires Indexed(m, numbered, index) && exps.Keys <= index.Keys
      modifies this
      ensures Indexed(m, numbered, grown) && exps.Keys + index.Keys <= grown.Keys
      ensures AsTerm() == ExpandedTerm(m, numbered, old(AsTerm()))
    {
      ghost var before := exps;
      var changed := true;
      grown := index;
      while changed
        invariant Indexed(m, numbered, grown) && exps.Keys + index.Keys <= grown.Keys && coeff == old(coeff)
        invariant Expansion(numbered, exps) == Expansion(numbered, before)
        invariant !changed ==> AllBelow(numbered, exps, |numbered|)
        decreases Weight(exps, |numbered|), changed
      {
        changed, grown := ExpandOnePass(m, grown, numbered);
      }
      IndexedRange(m, numbered, grown, exps);
      AllBelowUnsplit(numbered, exps);
      UnsplitExpansion(numbered, exps);
      CombineConstants(m, grown, numbered);
    }

    /** The tree the term is written back as. */
    method Emit(order: seq<int>, m: Math, index: ValueIndex, ghost numbered: seq<Tree>) returns (node: Tree)
      requires Indexed(m, numbered, index) && exps.Keys <= index.Keys && forall k <- order :: k in exps
      ensures node == TermTree(numbered, AsTerm(), order)
    {
      node := Nil;
      for i := 0 to |order|
        invariant node == FactorsTree(numbered, exps, order[..i])
      {
        var k := order[i];
        var factor := Make(Pow, Strip(index[k]), Const(exps[k]));
        IndexTwin(m, numbered, index[k]);
        assert order[..i + 1][..i] == order[..i];
        assert factor == FactorTree(numbered, k, exps[k]);
        node := if node.Node? then Make(Mul, node, factor) else factor;
      }
      assert order[..|order|] == order;
      node := if node.Node? then Make(Mul, node, Const(coeff)) else Const(coeff);
    }
  }

  lemma AddedByEntry(before: Exponents, after: Exponents, vn: int, e: real)
    requires vn in after && after[vn] == (if vn in before then before[vn] else 0.0) + e
    requires after - {vn} == before - {vn}
    ensures after == Added(before, vn, e)
  {
    forall k ensures k in after <==> k in Added(before, vn, e) {
      assert k != vn ==> (k in after <==> k in after - {vn}) && (k in before <==> k in before - {vn});
    }
    forall k | k in after ensures after[k] == Added(before, vn, e)[k] {
      if k != vn { assert (after - {vn})[k] == (before - {vn})[k]; }
    }
  }

  // The constants below `n` have gone into the coefficient.
  ghost predicate Combined(m: Math, numbered: seq<Tree>, before: Exponents, c: real, exps: Exponents, coeff: real, n: int) {
    && 0 <= n <= |numbered|
    && exps == WithoutConstants(numbered, before, n) && coeff == Scaled(m, numbered, before, c, n)
  }

  lemma SamePower(m: Math, t: Tree, n: Tree, e: real)
    requires IsConstant(t) && IsConstant(n) && Strip(t) == Strip(n)
    ensures ConstantPower(m, t, e) == ConstantPower(m, n, e)
  {
    assert Strip(t).op == Strip(n).op;
  }

  lemma CombinedNone(m: Math, numbered: seq<Tree>, before: Exponents, c: real)
    ensures Combined(m, numbered, before, c, before, c, 0)
  {
    assert WithoutConstants(numbered, before, 0) == before;
  }

  // Numbers that are not entries change nothing.
  lemma {:induction false} CombinedRest(m: Math, numbered: seq<Tree>, before: Exponents, c: real, exps: Exponents, coeff: real,
                                        i: int, n: int)
    requires Combined(m, numbered, before, c, exps, coeff, i) && i <= n <= |numbered|
    requires forall k <- exps :: !(i <= k < n)
    ensures Combined(m, numbered, before, c, exps, coeff, n)
  {
    if i < n {
      CombinedRest(m, numbered, before, c, exps, coeff, i, n - 1);
      OneConstantMore(m, numbered, before, n);
      ScaledMore(m, numbered, before, c, n);
      assert n - 1 in before ==> n - 1 in exps;
    }
  }

  lemma CombinedNext(m: Math, numbered: seq<Tree>, before: Exponents, c: real, exps: Exponents, coeff: real, i: int, k: int)
    requires Combined(m, numbered, before, c, exps, coeff, i) && i <= k < |numbered| && k in exps
    requires forall j <- exps :: j >= i ==> k <= j
    ensures if IsConstant(numbered[k])
            then Combined(m, numbered, before, c, exps - {k}, coeff * ConstantPower(m, numbered[k], exps[k]), k + 1)
            else Combined(m, numbered, before, c, exps, coeff, k + 1)
  {
    CombinedRest(m, numbered, before, c, exps, coeff, i, k);
    OneConstantMore(m, numbered, before, k + 1);
    ScaledMore(m, numbered, before, c, k + 1);
  }

  // The same for a node of that number.
  lemma CombinedByNode(m: Math, numbered: seq<Tree>, before: Exponents, c: real, exps: Exponents, coeff: real, i: int, t: Tree)
    requires Combined(m, numbered, before, c, exps, coeff, i) && Known(m, numbered, t) && i <= t.vn && t.vn in exps
    requires forall j <- exps :: j >= i ==> t.vn <= j
    ensures t.vn < |numbered|
    ensures if IsConstant(t) then Combined(m, numbered, before, c, exps - {t.vn}, coeff * ConstantPower(m, t, exps[t.vn]), t.vn + 1)
            else Combined(m, numbered, before, c, exps, coeff, t.vn + 1)
  {
    ConstantTwin(m, numbered, t, exps[t.vn]);
    CombinedNext(m, numbered, before, c, exps, coeff, i, t.vn);
  }

  lemma ConstantTwin(m: Math, numbered: seq<Tree>, t: Tree, e: real)
    requires Known(m, numbered, t)
    ensures 0 <= t.vn < |numbered| && (IsConstant(t) <==> IsConstant(numbered[t.vn]))
    ensures IsConstant(t) ==> ConstantPower(m, t, e) == ConstantPower(m, numbered[t.vn], e)
  {
    IndexTwin(m, numbered, t);
    if IsConstant(t) { SamePower(m, t, numbered[t.vn], e); }
  }

  // What expanding the entry of a node does.
  lemma VisitedByNode(m: Math, numbered: seq<Tree>, exps: Exponents, t: Tree)
    requires Known(m, numbered, t) && t.vn in exps
    ensures 0 <= t.vn < |numbered| && (Expandable(t) <==> Expandable(numbered[t.vn]))
    ensures Expandable(t) ==>
              && Known(m, numbered, t.left) && Known(m, numbered, t.right) && t.left.vn < t.vn && t.right.vn < t.vn
              && Expansion(numbered, Expanded(exps, t)) == Expansion(numbered, exps)
              && Weight(Expanded(exps, t), |numbered|) < Weight(exps, |numbered|)
  {
    IndexTwin(m, numbered, t);
    if Expandable(t) {
      KnownOperands(m, numbered, t);
      KnownSplits(m, numbered, t.vn);
      TwinExpanded(m, numbered, exps, t);
      SplitKeepsExpansion(numbered, exps, t.vn);
      ExpandedLighter(exps, t, |numbered|);
    }
  }

  // No entry up to a number can be expanded.
  ghost predicate AllBelow(numbered: seq<Tree>, exps: Exponents, last: int) {
    forall k <- exps :: k <= last ==> 0 <= k < |numbered| && !Expandable(numbered[k])
  }

  lemma AllBelowUnsplit(numbered: seq<Tree>, exps: Exponents)
    requires AllBelow(numbered, exps, |numbered|) && forall k <- exps :: 0 <= k < |numbered|
    ensures Unsplit(numbered, exps)
  {
  }

  lemma NextIsBelow(numbered: seq<Tree>, exps: Exponents, last: int, k: int)
    requires forall j <- exps :: j > last ==> k <= j
    ensures AllBelow(numbered, exps, last) && 0 <= k < |numbered| && !Expandable(numbered[k]) ==> AllBelow(numbered, exps, k)
  {
  }

  lemma IndexedRange(m: Math, numbered: seq<Tree>, index: ValueIndex, exps: Exponents)
    requires Indexed(m, numbered, index) && exps.Keys <= index.Keys
    ensures forall k <- exps :: 0 <= k < |numbered|
  {
    forall k | k in exps ensures 0 <= k < |numbered| {
      KnownShape(m, numbered, index[k]);
    }
  }

  // The smallest number past `last`.
  method NextKey(exps: Exponents, last: int) returns (k: int)
    requires exists k <- exps :: k > last
    ensures k in exps && k > last && forall j <- exps :: j > last ==> k <= j
  {
    HasNext(exps, last);
    k :| k in exps && k > last && forall j <- exps :: j > last ==> k <= j;
  }

  lemma HasNext(exps: Exponents, last: int)
    requires exists k <- exps :: k > last
    ensures exists k <- exps :: k > last && forall j <- exps :: j > last ==> k <= j
  {
    var k :| k in exps && k > last;
    NextBelow(exps, last, k);
  }

  lemma {:induction false} NextBelow(exps: Exponents, last: int, k: int)
    requires k in exps && k > last
    ensures exists k <- exps :: k > last && forall j <- exps :: j > last ==> k <= j
    decreases k - last
  {
    if j :| j in exps && last < j < k {
      NextBelow(exps, last, j);
    }
  }
}
