/** What an exponent map expands to: every number as powers of the numbers that are no product, quotient or power by a
    constant, and the constants among those as one coefficient. */
module ExprExpansion {
  import opened ExprTree
  import opened ExprValueNumber
  import opened ExprReal
  import opened ExprPower
  import opened ExprRewrite
  import opened ExprProduct

  ghost function ValuesOf(m: Math, numbered: seq<Tree>): (r: Values)
    ensures |r| == |numbered|
  {
    seq(|numbered|, k requires 0 <= k < |numbered| => if Numeric(numbered[k]) then Val(m, numbered[k]) else Undefined)
  }

  // A numbered tree, its values those of its numbers.
  ghost predicate Known(m: Math, numbered: seq<Tree>, t: Tree) {
    && Canonical(numbered)
    && t.Node? && !IsMux(t) && Faithful(t, numbered) && Valued(m, ValuesOf(m, numbered), t)
  }

  // No entry that can be expanded has a fractional exponent, now or later.
  ghost predicate WholeMap(numbered: seq<Tree>, exps: Exponents) {
    forall k <- exps :: WholeEntry(numbered, k, exps[k])
  }

  ghost predicate WholeEntry(numbered: seq<Tree>, k: int, e: real) {
    0 <= k < |numbered| && (Whole(e) || !Expandable(numbered[k])) && WholePowers(numbered[k])
  }

  // Structure decides what can be expanded.
  lemma {:induction false} SameShape(a: Tree, b: Tree)
    requires Strip(a) == Strip(b)
    ensures Expandable(a) <==> Expandable(b)
    ensures WholePowers(a) <==> WholePowers(b)
  {
    if a.Node? {
      SameShape(a.left, b.left);
      SameShape(a.right, b.right);
    }
  }

  lemma KnownShape(m: Math, numbered: seq<Tree>, t: Tree)
    requires Known(m, numbered, t)
    ensures 0 <= t.vn < |numbered| && (IsConstant(t) <==> IsConstant(numbered[t.vn]))
    ensures Expandable(t) <==> Expandable(numbered[t.vn])
    ensures WholePowers(t) <==> WholePowers(numbered[t.vn])
  {
    SameShape(t, numbered[t.vn]);
  }

  lemma KnownOperands(m: Math, numbered: seq<Tree>, t: Tree)
    requires Known(m, numbered, t) && Expandable(t)
    ensures 0 <= t.left.vn < t.vn < |numbered| && 0 <= t.right.vn < t.vn
    ensures Known(m, numbered, t.left) && Known(m, numbered, t.right)
  {
    Operands2(m, ValuesOf(m, numbered), t);
  }

  // Expanding keeps the exponents whole
  lemma ExpandedWhole(m: Math, numbered: seq<Tree>, exps: Exponents, t: Tree)
    requires Known(m, numbered, t) && Expandable(t) && t.vn in exps && WholeMap(numbered, exps)
    ensures Whole(exps[t.vn]) && WholeMap(numbered, Expanded(exps, t))
  {
    KnownShape(m, numbered, t);
    KnownOperands(m, numbered, t);
    KnownShape(m, numbered, t.left);
    KnownShape(m, numbered, t.right);
    var e := exps[t.vn];
    assert WholeEntry(numbered, t.vn, e);
    if IsPowerOfConstant(t) {
      var c := t.right.op.imm.f;
      if Whole(c) { WholeExponent(t, e); }
      AddedWhole(numbered, exps, t.left.vn, PowerExponent(t, e));
    } else {
      WholeSum(e, e);
      AddedWhole(numbered, exps, t.left.vn, e);
      AddedWhole(numbered, Added(exps, t.left.vn, e), t.right.vn, RightExponent(t, e));
    }
  }

  lemma WholeExponent(t: Tree, e: real)
    requires IsPowerOfConstant(t) && Whole(e) && Whole(t.right.op.imm.f)
    ensures Whole(PowerExponent(t, e))
  {
    WholeProduct(e, t.right.op.imm.f, PowerExponent(t, e));
  }

  lemma AddedWhole(numbered: seq<Tree>, exps: Exponents, k: int, e: real)
    requires WholeMap(numbered, exps) && WholeEntry(numbered, k, e)
    ensures WholeMap(numbered, Added(exps, k, e))
  {
    if k in exps {
      assert WholeEntry(numbered, k, exps[k]);
      if Whole(e) && Whole(exps[k]) { WholeSum(exps[k], e); }
    }
  }

  // Each expansion replaces a number by smaller ones
  function Power3(n: nat): (r: nat)
    ensures r > 0
  {
    if n == 0 then 1 else 3 * Power3(n - 1)
  }

  function Weight(exps: Exponents, n: nat): nat {
    if n == 0 then 0 else (if n - 1 in exps then Power3(n - 1) else 0) + Weight(exps, n - 1)
  }

  lemma {:induction false} WeightWithout(exps: Exponents, n: nat, k: int)
    requires 0 <= k < n && k in exps
    ensures Weight(exps, n) == Power3(k) + Weight(exps - {k}, n)
  {
    if k == n - 1 { WeightAgrees(exps, exps - {k}, k); } else { WeightWithout(exps, n - 1, k); }
  }

  lemma {:induction false} WeightAgrees(a: Exponents, b: Exponents, n: nat)
    requires forall k | 0 <= k < n :: k in a <==> k in b
    ensures Weight(a, n) == Weight(b, n)
  {
    if n > 0 { WeightAgrees(a, b, n - 1); }
  }

  lemma WeightAdded(exps: Exponents, n: nat, k: int, e: real)
    requires 0 <= k < n
    ensures Weight(Added(exps, k, e), n) <= Weight(exps, n) + Power3(k)
  {
    WeightWithout(Added(exps, k, e), n, k);
    WeightAgrees(Added(exps, k, e) - {k}, exps - {k}, n);
    if k in exps { WeightWithout(exps, n, k); } else { WeightAgrees(exps - {k}, exps, n); }
  }

  lemma {:induction false} Power3Grows(k: nat, n: nat)
    requires k < n
    ensures 3 * Power3(k) <= Power3(n)
  {
    if k < n - 1 { Power3Grows(k, n - 1); }
  }

  /** Expanding an entry makes the map lighter, so expanding ends. */
  lemma ExpandedLighter(exps: Exponents, t: Tree, n: nat)
    requires Expandable(t) && t.vn in exps && 0 <= t.left.vn < t.vn < n && 0 <= t.right.vn < t.vn
    ensures Weight(Expanded(exps, t), n) < Weight(exps, n)
  {
    var e := exps[t.vn];
    Power3Grows(t.left.vn, t.vn);
    Power3Grows(t.right.vn, t.vn);
    if IsPowerOfConstant(t) {
      var more := Added(exps, t.left.vn, PowerExponent(t, e));
      WeightAdded(exps, n, t.left.vn, PowerExponent(t, e));
      WeightWithout(more, n, t.vn);
    } else {
      var f := RightExponent(t, e);
      var once := Added(exps, t.left.vn, e);
      WeightAdded(exps, n, t.left.vn, e);
      WeightAdded(once, n, t.right.vn, f);
      WeightWithout(Added(once, t.right.vn, f), n, t.vn);
    }
  }

  // The value of a term.
  ghost function Total(m: Math, numbered: seq<Tree>, exps: Exponents, coeff: real): Value {
    Times(Product(m, ValuesOf(m, numbered), exps, |numbered|), Defined(coeff))
  }

  // Expanding by number

  // A number that stands for a product, a quotient or a power by a constant of smaller numbers.
  predicate Splits(numbered: seq<Tree>, k: int) {
    && 0 <= k < |numbered| && Expandable(numbered[k])
    && 0 <= numbered[k].left.vn < k && 0 <= numbered[k].right.vn < k
  }

  // The numbers that a number is made of.
  function BaseKeys(numbered: seq<Tree>, k: int): set<int>
    decreases if k < 0 then 0 else k
  {
    if !Splits(numbered, k) then {k}
    else if IsPowerOfConstant(numbered[k]) then BaseKeys(numbered, numbered[k].left.vn)
    else BaseKeys(numbered, numbered[k].left.vn) + BaseKeys(numbered, numbered[k].right.vn)
  }

  // The exponent that one of them has.
  function BaseExponent(numbered: seq<Tree>, k: int, b: int): real
    decreases if k < 0 then 0 else k
  {
    if !Splits(numbered, k) then (if b == k then 1.0 else 0.0)
    else
      var l := BaseExponent(numbered, numbered[k].left.vn, b);
      if IsPowerOfConstant(numbered[k]) then l * numbered[k].right.op.imm.f
      else
        var r := BaseExponent(numbered, numbered[k].right.vn, b);
        if IsProduct(numbered[k]) then l + r else l - r
  }

  function AllKeys(numbered: seq<Tree>, exps: Exponents): set<int> {
    set k, b | k in exps && b in BaseKeys(numbered, k) :: b
  }

  // What an entry adds to the exponent of `b`.
  function Share(numbered: seq<Tree>, k: int, e: real, b: int): real {
    e * BaseExponent(numbered, k, b)
  }

  // What the entries of the first `n` numbers add to the exponent of `b`.
  function AllExponents(numbered: seq<Tree>, exps: Exponents, b: int, n: nat): real {
    if n == 0 then 0.0
    else AllExponents(numbered, exps, b, n - 1) + (if n - 1 in exps then Share(numbered, n - 1, exps[n - 1], b) else 0.0)
  }

  /** The map in which every number is expanded. */
  function Expansion(numbered: seq<Tree>, exps: Exponents): Exponents {
    map b | b in AllKeys(numbered, exps) :: AllExponents(numbered, exps, b, |numbered|)
  }

  // Changing one entry

  lemma {:induction false} ExponentsAgree(numbered: seq<Tree>, x: Exponents, y: Exponents, b: int, n: nat)
    requires forall k | 0 <= k < n :: (k in x <==> k in y) && (k in x && k in y ==> x[k] == y[k])
    ensures AllExponents(numbered, x, b, n) == AllExponents(numbered, y, b, n)
  {
    if n > 0 { ExponentsAgree(numbered, x, y, b, n - 1); }
  }

  lemma {:induction false} ExponentsWithout(numbered: seq<Tree>, exps: Exponents, b: int, n: nat, k: int)
    requires 0 <= k < n && k in exps
    ensures AllExponents(numbered, exps, b, n) ==
            AllExponents(numbered, exps - {k}, b, n) + Share(numbered, k, exps[k], b)
  {
    if k == n - 1 {
      ExponentsAgree(numbered, exps, exps - {k}, b, n - 1);
    } else {
      ExponentsWithout(numbered, exps, b, n - 1, k);
    }
  }

  lemma ExponentsAdded(numbered: seq<Tree>, exps: Exponents, b: int, n: nat, k: int, e: real)
    requires 0 <= k < n
    ensures AllExponents(numbered, Added(exps, k, e), b, n) == AllExponents(numbered, exps, b, n) + Share(numbered, k, e, b)
  {
    var more := Added(exps, k, e);
    ExponentsWithout(numbered, more, b, n, k);
    assert more - {k} == exps - {k};
    if k in exps {
      ExponentsWithout(numbered, exps, b, n, k);
      ShareAdds(numbered, k, exps[k], e, more[k], b);
    } else {
      assert exps - {k} == exps;
    }
  }

  lemma ShareAdds(numbered: seq<Tree>, k: int, x: real, y: real, z: real, b: int)
    requires z == x + y
    ensures Share(numbered, k, z, b) == Share(numbered, k, x, b) + Share(numbered, k, y, b)
  {
    Distribute(x, y, BaseExponent(numbered, k, b));
  }

  lemma Distribute(x: real, y: real, z: real)
    ensures (x + y) * z == x * z + y * z
  {
  }

  // Expanding an entry by hand does not change what the map expands to.

  lemma SplitShare(numbered: seq<Tree>, k: int, e: real, b: int)
    requires Splits(numbered, k)
    ensures var t := numbered[k];
            Share(numbered, k, e, b) ==
            if IsPowerOfConstant(t) then Share(numbered, t.left.vn, PowerExponent(t, e), b)
            else Share(numbered, t.left.vn, e, b) + Share(numbered, t.right.vn, RightExponent(t, e), b)
  {
    var t := numbered[k];
    var x, y := BaseExponent(numbered, t.left.vn, b), BaseExponent(numbered, t.right.vn, b);
    if IsPowerOfConstant(t) {
      Rearrange(e, t.right.op.imm.f, x, PowerExponent(t, e));
    } else if IsProduct(t) {
      Distribute(x, y, e);
    } else {
      DistributeDifference(e, x, y);
    }
  }

  lemma Rearrange(e: real, c: real, x: real, f: real)
    requires f == e * c
    ensures f * x == e * (x * c)
  {
  }

  lemma DistributeDifference(e: real, x: real, y: real)
    ensures e * (x - y) == e * x + -e * y
  {
  }

  lemma SplitExponent(numbered: seq<Tree>, exps: Exponents, k: int, b: int)
    requires Splits(numbered, k) && numbered[k].vn == k && k in exps
    ensures AllExponents(numbered, Expanded(exps, numbered[k]), b, |numbered|) == AllExponents(numbered, exps, b, |numbered|)
  {
    var t, e, n := numbered[k], exps[k], |numbered|;
    var rest := exps - {k};
    ExponentsWithout(numbered, exps, b, n, k);
    SplitShare(numbered, k, e, b);
    if IsPowerOfConstant(t) {
      AddedWithout(exps, t.left.vn, PowerExponent(t, e), k);
      ExponentsAdded(numbered, rest, b, n, t.left.vn, PowerExponent(t, e));
    } else {
      FactorsWithout(exps, t);
      ExponentsAdded(numbered, rest, b, n, t.left.vn, e);
      ExponentsAdded(numbered, Added(rest, t.left.vn, e), b, n, t.right.vn, RightExponent(t, e));
    }
  }

  lemma SplitKeys(numbered: seq<Tree>, exps: Exponents, k: int)
    requires Splits(numbered, k) && numbered[k].vn == k && k in exps
    ensures AllKeys(numbered, Expanded(exps, numbered[k])) == AllKeys(numbered, exps)
  {
    var t := numbered[k];
    var more := Expanded(exps, t);
    var parts := if IsPowerOfConstant(t) then {t.left.vn} else {t.left.vn, t.right.vn};
    assert more.Keys == exps.Keys - {k} + parts;
    assert forall b :: b in BaseKeys(numbered, k) <==> exists p <- parts :: b in BaseKeys(numbered, p);
    forall b | b in AllKeys(numbered, exps) ensures b in AllKeys(numbered, more) {
      var j :| j in exps && b in BaseKeys(numbered, j);
      if j == k {
        var p :| p in parts && b in BaseKeys(numbered, p);
        assert p in more;
      } else {
        assert j in more;
      }
    }
    forall b | b in AllKeys(numbered, more) ensures b in AllKeys(numbered, exps) {
      var j :| j in more && b in BaseKeys(numbered, j);
      if j in exps && j != k {
        assert j in exps;
      } else {
        assert j in parts && b in BaseKeys(numbered, k);
      }
    }
  }

  lemma SplitKeepsExpansion(numbered: seq<Tree>, exps: Exponents, k: int)
    requires Splits(numbered, k) && numbered[k].vn == k && k in exps
    ensures Expansion(numbered, Expanded(exps, numbered[k])) == Expansion(numbered, exps)
  {
    var x, y := Expansion(numbered, Expanded(exps, numbered[k])), Expansion(numbered, exps);
    SplitKeys(numbered, exps, k);
    forall b | b in y ensures x[b] == y[b] {
      SplitExponent(numbered, exps, k, b);
    }
  }

  // A map with nothing left to expand is its own expansion.

  ghost predicate Unsplit(numbered: seq<Tree>, exps: Exponents) {
    forall k <- exps :: 0 <= k < |numbered| && !Splits(numbered, k)
  }

  lemma {:induction false} UnsplitExponents(numbered: seq<Tree>, exps: Exponents, b: int, n: nat)
    requires Unsplit(numbered, exps)
    ensures AllExponents(numbered, exps, b, n) == if b in exps && b < n then exps[b] else 0.0
  {
    if n > 0 {
      UnsplitExponents(numbered, exps, b, n - 1);
      assert n - 1 in exps ==> !Splits(numbered, n - 1);
    }
  }

  lemma UnsplitExpansion(numbered: seq<Tree>, exps: Exponents)
    requires Unsplit(numbered, exps)
    ensures Expansion(numbered, exps) == exps
  {
    forall b ensures b in AllKeys(numbered, exps) <==> b in exps {
      if b in exps { assert b in BaseKeys(numbered, b); }
    }
    forall b | b in exps ensures Expansion(numbered, exps)[b] == exps[b] {
      UnsplitExponents(numbered, exps, b, |numbered|);
    }
  }

  // Expanding keeps the product

  // A numbered tree has the values of its numbers, and operands have smaller numbers.
  lemma {:induction false} FaithfulIsValued(m: Math, numbered: seq<Tree>, t: Tree)
    requires Canonical(numbered) && Faithful(t, numbered) && NumericPart(t)
    ensures Valued(m, ValuesOf(m, numbered), t)
  {
    if t.Node? {
      FaithfulIsValued(m, numbered, t.left);
      FaithfulIsValued(m, numbered, t.right);
      if !IsMux(t) {
        ValStrip(m, numbered[t.vn], t);
        assert CanonicalAt(numbered, t.vn);
        OperandIsBelow(numbered, t.left, numbered[t.vn].left, t.vn);
        OperandIsBelow(numbered, t.right, numbered[t.vn].right, t.vn);
      }
    }
  }

  lemma OperandIsBelow(numbered: seq<Tree>, s: Tree, original: Tree, n: nat)
    requires Canonical(numbered) && n <= |numbered| && Faithful(s, numbered) && Faithful(original, numbered[..n])
    requires Strip(s) == Strip(original)
    ensures Below(s, n)
  {
    if s.Node? && !IsMux(s) {
      var k := original.vn;
      assert Strip(numbered[k]) == Strip(numbered[s.vn]);
    }
  }

  lemma KnownVal(m: Math, numbered: seq<Tree>, t: Tree)
    requires Known(m, numbered, t)
    ensures 0 <= t.vn < |numbered| && Numeric(t) && ValuesOf(m, numbered)[t.vn] == Val(m, t)
  {
  }

  lemma TwinKnown(m: Math, numbered: seq<Tree>, t: Tree)
    requires Known(m, numbered, t)
    ensures 0 <= t.vn < |numbered| && numbered[t.vn].vn == t.vn && Known(m, numbered, numbered[t.vn])
  {
    assert CanonicalAt(numbered, t.vn);
    CanonicalFaithful(numbered, t.vn);
    ValStrip(m, numbered[t.vn], t);
    FaithfulIsValued(m, numbered, numbered[t.vn]);
  }

  // Every number of the map is that of a tree of known value.
  ghost predicate KnownMap(m: Math, numbered: seq<Tree>, exps: Exponents) {
    Canonical(numbered) && forall k <- exps :: KnownNumber(m, numbered, k)
  }

  ghost predicate KnownNumber(m: Math, numbered: seq<Tree>, k: int) {
    0 <= k < |numbered| && Known(m, numbered, numbered[k]) && numbered[k].vn == k
  }

  lemma KnownSplits(m: Math, numbered: seq<Tree>, k: int)
    requires KnownNumber(m, numbered, k) && Expandable(numbered[k])
    ensures Splits(numbered, k)
    ensures KnownNumber(m, numbered, numbered[k].left.vn) && KnownNumber(m, numbered, numbered[k].right.vn)
  {
    KnownOperands(m, numbered, numbered[k]);
    TwinKnown(m, numbered, numbered[k].left);
    TwinKnown(m, numbered, numbered[k].right);
  }

  lemma ExpandedKnown(m: Math, numbered: seq<Tree>, exps: Exponents, k: int)
    requires KnownMap(m, numbered, exps) && k in exps && Expandable(numbered[k])
    ensures KnownMap(m, numbered, Expanded(exps, numbered[k]))
  {
    KnownSplits(m, numbered, k);
  }

  /** Over whole exponents the expansion of a map has the product of the map. */
  lemma {:induction false} ExpansionKeeps(m: Math, numbered: seq<Tree>, exps: Exponents)
    requires Lawful(m) && KnownMap(m, numbered, exps) && WholeMap(numbered, exps)
    ensures KnownMap(m, numbered, Expansion(numbered, exps))
    ensures Keeps(Product(m, ValuesOf(m, numbered), exps, |numbered|),
                  Product(m, ValuesOf(m, numbered), Expansion(numbered, exps), |numbered|))
    decreases Weight(exps, |numbered|)
  {
    if Unsplit(numbered, exps) {
      UnsplitExpansion(numbered, exps);
    } else {
      var k :| k in exps && !(0 <= k < |numbered| && !Splits(numbered, k));
      assert KnownNumber(m, numbered, k);
      var more := Expanded(exps, numbered[k]);
      ExpandedKnown(m, numbered, exps, k);
      ExpandedWhole(m, numbered, exps, numbered[k]);
      ExpandedKeeps(m, ValuesOf(m, numbered), exps, numbered[k]);
      ExpandedLighter(exps, numbered[k], |numbered|);
      SplitKeepsExpansion(numbered, exps, k);
      ExpansionKeeps(m, numbered, more);
    }
  }

  // Constants

  function ConstantPower(m: Math, t: Tree, e: real): real
    requires IsConstant(t)
  {
    if t.op.imm.F? && m.power(t.op.imm.f, e).Defined? then m.power(t.op.imm.f, e).value else 0.0
  }

  lemma ConstantEntry(m: Math, numbered: seq<Tree>, exps: Exponents, coeff: real, t: Tree)
    requires Known(m, numbered, t) && IsConstant(t) && t.vn in exps
    ensures Keeps(Total(m, numbered, exps, coeff),
                  Total(m, numbered, exps - {t.vn}, coeff * ConstantPower(m, t, exps[t.vn])))
  {
    var vals, e := ValuesOf(m, numbered), exps[t.vn];
    ProductWithout(m, vals, exps, |numbered|, t.vn);
    NumberVal(m, t, t.op.imm.f);
    IntoCoefficient(m.power(t.op.imm.f, e), Product(m, vals, exps - {t.vn}, |numbered|), coeff, ConstantPower(m, t, e));
  }

  lemma IntoCoefficient(p: Value, rest: Value, coeff: real, factor: real)
    requires p.Defined? ==> factor == p.value
    ensures Keeps(Times(Times(p, rest), Defined(coeff)), Times(rest, Defined(coeff * factor)))
  {
    if p.Defined? && rest.Defined? {
      Swap3(rest.value, coeff, factor);
      assert factor * rest.value * coeff == rest.value * (coeff * factor);
    }
  }

  // The constants of the first `n` numbers, as one coefficient, and the map without them.
  function Coefficient(m: Math, numbered: seq<Tree>, exps: Exponents, n: nat): real
    requires n <= |numbered|
  {
    if n == 0 then 1.0
    else if n - 1 in exps && IsConstant(numbered[n - 1]) then
      Coefficient(m, numbered, exps, n - 1) * ConstantPower(m, numbered[n - 1], exps[n - 1])
    else Coefficient(m, numbered, exps, n - 1)
  }

  function WithoutConstants(numbered: seq<Tree>, exps: Exponents, n: nat): Exponents
    requires n <= |numbered|
  {
    map k | k in exps && !(0 <= k < n && IsConstant(numbered[k])) :: exps[k]
  }

  // A coefficient times the constants of the first `n` numbers.
  function Scaled(m: Math, numbered: seq<Tree>, exps: Exponents, coeff: real, n: nat): real
    requires n <= |numbered|
  {
    coeff * Coefficient(m, numbered, exps, n)
  }

  lemma ScaledMore(m: Math, numbered: seq<Tree>, exps: Exponents, coeff: real, n: nat)
    requires 0 < n <= |numbered|
    ensures Scaled(m, numbered, exps, coeff, n) ==
            if n - 1 in exps && IsConstant(numbered[n - 1])
            then Scaled(m, numbered, exps, coeff, n - 1) * ConstantPower(m, numbered[n - 1], exps[n - 1])
            else Scaled(m, numbered, exps, coeff, n - 1)
  {
    if n - 1 in exps && IsConstant(numbered[n - 1]) {
      Associate(coeff, Coefficient(m, numbered, exps, n - 1), ConstantPower(m, numbered[n - 1], exps[n - 1]));
    }
  }

  lemma ConstantKeeps(m: Math, numbered: seq<Tree>, exps: Exponents, coeff: real, k: int, c: real)
    requires KnownMap(m, numbered, exps) && k in exps && 0 <= k < |numbered| && IsConstant(numbered[k])
    requires c == coeff * ConstantPower(m, numbered[k], exps[k])
    ensures Keeps(Total(m, numbered, exps, coeff), Total(m, numbered, exps - {k}, c))
  {
    assert KnownNumber(m, numbered, k);
    ConstantEntry(m, numbered, exps, coeff, numbered[k]);
  }

  lemma {:induction false} CoefficientKeeps(m: Math, numbered: seq<Tree>, exps: Exponents, coeff: real, n: nat)
    requires KnownMap(m, numbered, exps) && n <= |numbered|
    ensures Keeps(Total(m, numbered, exps, coeff),
                  Total(m, numbered, WithoutConstants(numbered, exps, n), Scaled(m, numbered, exps, coeff, n)))
  {
    if n == 0 {
      assert WithoutConstants(numbered, exps, n) == exps && Scaled(m, numbered, exps, coeff, n) == coeff;
    } else {
      CoefficientKeeps(m, numbered, exps, coeff, n - 1);
      OneCoefficientMore(m, numbered, exps, coeff, n);
      KeepsChain(Total(m, numbered, exps, coeff),
                 Total(m, numbered, WithoutConstants(numbered, exps, n - 1), Scaled(m, numbered, exps, coeff, n - 1)),
                 Total(m, numbered, WithoutConstants(numbered, exps, n), Scaled(m, numbered, exps, coeff, n)));
    }
  }

  lemma OneCoefficientMore(m: Math, numbered: seq<Tree>, exps: Exponents, coeff: real, n: nat)
    requires KnownMap(m, numbered, exps) && 0 < n <= |numbered|
    ensures Keeps(Total(m, numbered, WithoutConstants(numbered, exps, n - 1), Scaled(m, numbered, exps, coeff, n - 1)),
                  Total(m, numbered, WithoutConstants(numbered, exps, n), Scaled(m, numbered, exps, coeff, n)))
  {
    var before, d := WithoutConstants(numbered, exps, n - 1), Scaled(m, numbered, exps, coeff, n - 1);
    OneConstantMore(m, numbered, exps, n);
    ScaledMore(m, numbered, exps, coeff, n);
    if n - 1 in exps && IsConstant(numbered[n - 1]) {
      ConstantKeeps(m, numbered, before, d, n - 1, Scaled(m, numbered, exps, coeff, n));
    }
  }

  lemma OneConstantMore(m: Math, numbered: seq<Tree>, exps: Exponents, n: nat)
    requires 0 < n <= |numbered|
    ensures var before := WithoutConstants(numbered, exps, n - 1);
            WithoutConstants(numbered, exps, n) ==
            if n - 1 in exps && IsConstant(numbered[n - 1]) then before - {n - 1} else before
  {
  }

  // Without constants nothing changes.
  lemma {:induction false} NoConstants(m: Math, numbered: seq<Tree>, exps: Exponents, n: nat)
    requires n <= |numbered| && forall k <- exps :: !(0 <= k < n && IsConstant(numbered[k]))
    ensures Coefficient(m, numbered, exps, n) == 1.0 && WithoutConstants(numbered, exps, n) == exps
  {
    if n > 0 { NoConstants(m, numbered, exps, n - 1); }
  }

  // Terms

  datatype Term = Term(exps: Exponents, coeff: real)

  /** A term expanded to the end. */
  function ExpandedTerm(m: Math, numbered: seq<Tree>, t: Term): Term {
    var exps := Expansion(numbered, t.exps);
    Term(WithoutConstants(numbered, exps, |numbered|), Scaled(m, numbered, exps, t.coeff, |numbered|))
  }

  ghost function TermVal(m: Math, numbered: seq<Tree>, t: Term): Value {
    Total(m, numbered, t.exps, t.coeff)
  }

  /** Over whole exponents an expanded term has the value of the term. */
  lemma ExpandedTermKeeps(m: Math, numbered: seq<Tree>, t: Term)
    requires Lawful(m) && KnownMap(m, numbered, t.exps) && WholeMap(numbered, t.exps)
    ensures Keeps(TermVal(m, numbered, t), TermVal(m, numbered, ExpandedTerm(m, numbered, t)))
  {
    var vals, exps := ValuesOf(m, numbered), Expansion(numbered, t.exps);
    ExpansionKeeps(m, numbered, t.exps);
    TimesKeeps(Product(m, vals, t.exps, |numbered|), Product(m, vals, exps, |numbered|), Defined(t.coeff));
    CoefficientKeeps(m, numbered, exps, t.coeff, |numbered|);
    KeepsChain(TermVal(m, numbered, t), Total(m, numbered, exps, t.coeff), TermVal(m, numbered, ExpandedTerm(m, numbered, t)));
  }

  /** Nothing in an expanded term is a product, a quotient, a power by a constant, or a constant. */
  lemma ExpandedTermIsBasic(m: Math, numbered: seq<Tree>, t: Term)
    requires KnownMap(m, numbered, t.exps)
    ensures forall k <- ExpandedTerm(m, numbered, t).exps ::
              KnownNumber(m, numbered, k) && !Expandable(numbered[k]) && !IsConstant(numbered[k])
  {
    forall k | k in ExpandedTerm(m, numbered, t).exps
      ensures KnownNumber(m, numbered, k) && !Expandable(numbered[k]) && !IsConstant(numbered[k])
    {
      var j :| j in t.exps && k in BaseKeys(numbered, j);
      BaseKeysAreBasic(m, numbered, j, k);
    }
  }

  lemma {:induction false} BaseKeysAreBasic(m: Math, numbered: seq<Tree>, j: int, k: int)
    requires KnownNumber(m, numbered, j) && k in BaseKeys(numbered, j)
    ensures KnownNumber(m, numbered, k) && !Expandable(numbered[k])
    decreases if j < 0 then 0 else j
  {
    if Expandable(numbered[j]) {
      KnownSplits(m, numbered, j);
      if k in BaseKeys(numbered, numbered[j].left.vn) {
        BaseKeysAreBasic(m, numbered, numbered[j].left.vn, k);
      } else {
        BaseKeysAreBasic(m, numbered, numbered[j].right.vn, k);
      }
    }
  }
}
