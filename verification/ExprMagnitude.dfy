/** Products without their signs. Expanding keeps the absolute value of a product for any exponents, so that all it can
    lose is a sign, or the root of a negative number. */
module ExprMagnitude {
  import opened ExprTree
  import opened ExprValueNumber
  import opened ExprReal
  import opened ExprPower
  import opened ExprRewrite
  import opened ExprProduct
  import opened ExprExpansion

  function Magnitude(x: real): (r: real)
    ensures r >= 0.0
  {
    if x < 0.0 then -x else x
  }

  function AbsVal(a: Value): Value {
    if a.Defined? then Defined(Magnitude(a.value)) else Undefined
  }

  function AbsValues(vals: Values): (r: Values)
    ensures |r| == |vals|
  {
    seq(|vals|, k requires 0 <= k < |vals| => AbsVal(vals[k]))
  }

  lemma MagnitudeTimes(x: real, y: real)
    ensures Magnitude(x * y) == Magnitude(x) * Magnitude(y)
  {
    SignedProduct(x, y);
    SignedProduct(-x, y);
    SignedProduct(x, -y);
    SignedProduct(-x, -y);
  }

  lemma SignedProduct(x: real, y: real)
    ensures x >= 0.0 && y >= 0.0 ==> x * y >= 0.0
    ensures -x * y == -(x * y) && x * -y == -(x * y) && -x * -y == x * y
  {
  }

  lemma MagnitudeOver(x: real, y: real)
    requires y != 0.0
    ensures Magnitude(y) > 0.0 && Magnitude(x / y) == Magnitude(x) / Magnitude(y)
  {
    QuotientIs(x, y, x / y);
    MagnitudeTimes(x / y, y);
    QuotientIs(Magnitude(x), Magnitude(y), Magnitude(x / y));
  }

  lemma AbsTimes(a: Value, b: Value)
    ensures AbsVal(Times(a, b)) == Times(AbsVal(a), AbsVal(b))
  {
    if a.Defined? && b.Defined? { MagnitudeTimes(a.value, b.value); }
  }

  // A power has the absolute value of the power of the absolute value.
  lemma PowerAbs(m: Math, x: real, e: real)
    requires Lawful(m)
    ensures Keeps(AbsVal(m.power(x, e)), m.power(Magnitude(x), e))
  {
    PowerAt(m, x, e);
    PowerAt(m, -x, e);
    if x < 0.0 && Whole(e) { PowerOfNegative(m, x, e); }
  }

  lemma ProductAbs(m: Math, vals: Values, exps: Exponents, n: nat)
    requires Lawful(m) && n <= |vals|
    ensures Keeps(AbsVal(Product(m, vals, exps, n)), Product(m, AbsValues(vals), exps, n))
  {
    if n > 0 && n - 1 in exps {
      var a := vals[n - 1];
      AbsTimes(Base(m, vals, n - 1, exps[n - 1]), Product(m, vals, exps, n - 1));
      if a.Defined? { PowerAbs(m, a.value, exps[n - 1]); }
    }
  }

  // Expanding an entry

  lemma AbsPowerEntry(m: Math, a: Value, c: real, e: real, f: real)
    requires Lawful(m) && f == e * c
    ensures Keeps(PowerVal(m, AbsVal(ValOf(m, Pow, a, Defined(c))), e), PowerVal(m, AbsVal(a), f))
  {
    if a.Defined? {
      PowerAbs(m, a.value, c);
      PowerOfPower(m, Magnitude(a.value), c, e);
      SameExponent(m, Magnitude(a.value), c * e, f);
    }
  }

  lemma AbsFactorEntry(m: Math, code: OpCode, a: Value, b: Value, e: real)
    requires Lawful(m) && (code.Mul? || code.Div?)
    ensures Keeps(PowerVal(m, AbsVal(ValOf(m, code, a, b)), e),
                  Times(PowerVal(m, AbsVal(a), e), PowerVal(m, AbsVal(b), if code.Mul? then e else -e)))
  {
    if a.Defined? && b.Defined? {
      if code.Mul? {
        AbsProductEntry(m, a.value, b.value, e, ValOf(m, Mul, a, b).value);
      } else if b.value != 0.0 {
        AbsQuotientEntry(m, a.value, b.value, e, ValOf(m, Div, a, b).value);
      }
    }
  }

  lemma AbsProductEntry(m: Math, x: real, y: real, e: real, p: real)
    requires Lawful(m) && p == x * y
    ensures Keeps(m.power(Magnitude(p), e), Times(m.power(Magnitude(x), e), m.power(Magnitude(y), e)))
  {
    MagnitudeTimes(x, y);
    PowerOfTimes(m, Magnitude(x), Magnitude(y), e);
    SameBase(m, Magnitude(p), Magnitude(x) * Magnitude(y), e);
  }

  lemma AbsQuotientEntry(m: Math, x: real, y: real, e: real, q: real)
    requires Lawful(m) && y != 0.0 && q == x / y
    ensures Keeps(m.power(Magnitude(q), e), Times(m.power(Magnitude(x), e), m.power(Magnitude(y), -e)))
  {
    MagnitudeOver(x, y);
    PowerOfQuotient(m, Magnitude(x), Magnitude(y), e);
    SameBase(m, Magnitude(q), Magnitude(x) / Magnitude(y), e);
  }

  lemma AbsExpanded(m: Math, vals: Values, exps: Exponents, t: Tree)
    requires Lawful(m) && Valued(m, vals, t) && Expandable(t) && t.vn in exps
    ensures Keeps(Product(m, AbsValues(vals), exps, |vals|), Product(m, AbsValues(vals), Expanded(exps, t), |vals|))
  {
    Operands2(m, vals, t);
    if IsPowerOfConstant(t) { AbsPowerExpanded(m, vals, exps, t); } else { AbsFactorsExpanded(m, vals, exps, t); }
  }

  lemma AbsPowerExpanded(m: Math, vals: Values, exps: Exponents, t: Tree)
    requires Lawful(m) && IsPowerOfConstant(t) && t.vn in exps && 0 <= t.left.vn < t.vn < |vals|
    requires vals[t.vn] == ValOf(m, Pow, vals[t.left.vn], Defined(t.right.op.imm.f))
    ensures Keeps(Product(m, AbsValues(vals), exps, |vals|), Product(m, AbsValues(vals), Expanded(exps, t), |vals|))
  {
    var e := exps[t.vn];
    AbsPowerEntry(m, vals[t.left.vn], t.right.op.imm.f, e, PowerExponent(t, e));
    PowerExpanded(m, AbsValues(vals), exps, t);
  }

  lemma AbsFactorsExpanded(m: Math, vals: Values, exps: Exponents, t: Tree)
    requires Lawful(m) && (IsProduct(t) || IsQuotient(t)) && t.vn in exps
    requires 0 <= t.left.vn < t.vn < |vals| && 0 <= t.right.vn < t.vn
    requires vals[t.vn] == ValOf(m, t.op.code, vals[t.left.vn], vals[t.right.vn])
    ensures Keeps(Product(m, AbsValues(vals), exps, |vals|), Product(m, AbsValues(vals), Expanded(exps, t), |vals|))
  {
    AbsFactorEntry(m, t.op.code, vals[t.left.vn], vals[t.right.vn], exps[t.vn]);
    FactorsExpanded(m, AbsValues(vals), exps, t);
  }

  /** For any exponents the expansion of a map has the absolute value of its product. */
  lemma {:induction false} AbsExpansion(m: Math, numbered: seq<Tree>, exps: Exponents)
    requires Lawful(m) && KnownMap(m, numbered, exps)
    ensures KnownMap(m, numbered, Expansion(numbered, exps))
    ensures var vals := AbsValues(ValuesOf(m, numbered));
            Keeps(Product(m, vals, exps, |numbered|), Product(m, vals, Expansion(numbered, exps), |numbered|))
    decreases Weight(exps, |numbered|)
  {
    if Unsplit(numbered, exps) {
      UnsplitExpansion(numbered, exps);
    } else {
      var k :| k in exps && !(0 <= k < |numbered| && !Splits(numbered, k));
      assert KnownNumber(m, numbered, k);
      ExpandedKnown(m, numbered, exps, k);
      AbsExpanded(m, ValuesOf(m, numbered), exps, numbered[k]);
      ExpandedLighter(exps, numbered[k], |numbered|);
      SplitKeepsExpansion(numbered, exps, k);
      AbsExpansion(m, numbered, Expanded(exps, numbered[k]));
    }
  }

  // Signs

  // A negative number to a power that is not even.
  predicate IsOdd(a: Value, e: real) {
    a.Defined? && a.value < 0.0 && !Even(e)
  }

  // An odd number of them among the entries of the first `n` numbers.
  predicate OddlyNegative(vals: Values, exps: Exponents, n: nat)
    requires n <= |vals|
  {
    n > 0 && OddlyNegative(vals, exps, n - 1) != (n - 1 in exps && IsOdd(vals[n - 1], exps[n - 1]))
  }

  // No negative number has a fractional exponent.
  predicate NoRoots(vals: Values, exps: Exponents) {
    forall k <- exps :: 0 <= k < |vals| && vals[k].Defined? && vals[k].value < 0.0 ==> Whole(exps[k])
  }

  function Signed(negative: bool, a: Value): Value {
    if negative && a.Defined? then Defined(-a.value) else a
  }

  lemma BaseSigned(m: Math, a: Value, e: real)
    requires Lawful(m) && (a.Defined? && a.value < 0.0 ==> Whole(e))
    ensures PowerVal(m, a, e) == Signed(IsOdd(a, e), PowerVal(m, AbsVal(a), e))
  {
    if a.Defined? && a.value < 0.0 { PowerOfNegative(m, a.value, e); }
  }

  lemma SignedTimes(p: bool, q: bool, a: Value, b: Value)
    ensures Times(Signed(p, a), Signed(q, b)) == Signed(p != q, Times(a, b))
  {
    if a.Defined? && b.Defined? { SignedProduct(a.value, b.value); }
  }

  /** Without roots of negative numbers, a product is its absolute value with the sign that the odd powers of negative
      numbers give it. */
  lemma {:induction false} ProductSigned(m: Math, vals: Values, exps: Exponents, n: nat)
    requires Lawful(m) && NoRoots(vals, exps) && n <= |vals|
    ensures Product(m, vals, exps, n) == Signed(OddlyNegative(vals, exps, n), Product(m, AbsValues(vals), exps, n))
  {
    if n > 0 {
      ProductSigned(m, vals, exps, n - 1);
      if n - 1 in exps {
        var a, e := vals[n - 1], exps[n - 1];
        BaseSigned(m, a, e);
        SignedTimes(IsOdd(a, e), OddlyNegative(vals, exps, n - 1), PowerVal(m, AbsVal(a), e),
                    Product(m, AbsValues(vals), exps, n - 1));
      }
    }
  }

  // With one it is undefined.
  lemma RootIsUndefined(m: Math, vals: Values, exps: Exponents)
    requires Lawful(m) && !NoRoots(vals, exps)
    ensures Product(m, vals, exps, |vals|) == Undefined
  {
    var k :| k in exps && 0 <= k < |vals| && vals[k].Defined? && vals[k].value < 0.0 && !Whole(exps[k]);
    ProductWithout(m, vals, exps, |vals|, k);
    PowerAt(m, vals[k].value, exps[k]);
  }

  // Constants

  // Leaving entries out of a product leaves it defined.
  lemma {:induction false} PartDefined(m: Math, numbered: seq<Tree>, vals: Values, exps: Exponents, n: nat)
    requires n <= |vals| == |numbered| && Product(m, vals, exps, n).Defined?
    ensures Product(m, vals, WithoutConstants(numbered, exps, |numbered|), n).Defined?
  {
    if n > 0 { PartDefined(m, numbered, vals, exps, n - 1); }
  }

  // A constant without a power counts as zero.
  lemma {:induction false} NoCoefficient(m: Math, numbered: seq<Tree>, exps: Exponents, n: nat, k: int, c: real)
    requires Lawful(m) && 0 <= k < n <= |numbered| && k in exps && IsNumber(numbered[k], c) && c < 0.0 && !Whole(exps[k])
    ensures Coefficient(m, numbered, exps, n) == 0.0
  {
    if k == n - 1 { PowerAt(m, c, exps[k]); } else { NoCoefficient(m, numbered, exps, n - 1, k, c); }
  }

  // Whole products

  /** When an expanded product has its value: no operand that is left is negative under a fractional exponent; and the
      value is zero, or no constant is either, and an odd number of negative operands have odd exponents exactly when the
      value is negative. */
  predicate SignsFine(numbered: seq<Tree>, vals: Values, exps: Exponents, value: real)
    requires |vals| == |numbered|
  {
    && NoRoots(vals, WithoutConstants(numbered, exps, |numbered|))
    && (value == 0.0 || (NoRoots(vals, exps) && (OddlyNegative(vals, exps, |vals|) <==> value < 0.0)))
  }

  lemma SignedIs(odd: bool, v: real)
    ensures Signed(odd, Defined(Magnitude(v))) == Defined(v) <==> v == 0.0 || (odd <==> v < 0.0)
  {
  }

  /** A product of powers, with any exponents, is kept by expanding it to the end exactly then. */
  lemma ExpandedTermKeepsIff(m: Math, numbered: seq<Tree>, exps: Exponents, v: real)
    requires Lawful(m) && KnownMap(m, numbered, exps)
    requires Product(m, ValuesOf(m, numbered), exps, |numbered|) == Defined(v)
    ensures TermVal(m, numbered, ExpandedTerm(m, numbered, Term(exps, 1.0))) == Defined(v) <==>
            SignsFine(numbered, ValuesOf(m, numbered), Expansion(numbered, exps), v)
  {
    var vals, more := ValuesOf(m, numbered), Expansion(numbered, exps);
    var rest := WithoutConstants(numbered, more, |numbered|);
    ProductAbs(m, vals, exps, |numbered|);
    AbsExpansion(m, numbered, exps);
    if !NoRoots(vals, rest) {
      RootIsUndefined(m, vals, rest);
    } else if NoRoots(vals, more) {
      NoRootsTerm(m, numbered, more, v);
    } else {
      RootOfConstantTerm(m, numbered, more, v);
    }
  }

  lemma NoRootsTerm(m: Math, numbered: seq<Tree>, exps: Exponents, v: real)
    requires Lawful(m) && KnownMap(m, numbered, exps) && NoRoots(ValuesOf(m, numbered), exps)
    requires Product(m, AbsValues(ValuesOf(m, numbered)), exps, |numbered|) == Defined(Magnitude(v))
    ensures Total(m, numbered, WithoutConstants(numbered, exps, |numbered|), Scaled(m, numbered, exps, 1.0, |numbered|))
            == Defined(v) <==>
            v == 0.0 || (OddlyNegative(ValuesOf(m, numbered), exps, |numbered|) <==> v < 0.0)
  {
    var vals := ValuesOf(m, numbered);
    ProductSigned(m, vals, exps, |numbered|);
    TimesCommutes(Product(m, vals, exps, |numbered|), Defined(1.0));
    TimesOne(Product(m, vals, exps, |numbered|));
    CoefficientKeeps(m, numbered, exps, 1.0, |numbered|);
    SignedIs(OddlyNegative(vals, exps, |numbered|), v);
  }

  lemma RootOfConstantTerm(m: Math, numbered: seq<Tree>, exps: Exponents, v: real)
    requires Lawful(m) && KnownMap(m, numbered, exps) && !NoRoots(ValuesOf(m, numbered), exps)
    requires NoRoots(ValuesOf(m, numbered), WithoutConstants(numbered, exps, |numbered|))
    requires Product(m, AbsValues(ValuesOf(m, numbered)), exps, |numbered|) == Defined(Magnitude(v))
    ensures Total(m, numbered, WithoutConstants(numbered, exps, |numbered|), Scaled(m, numbered, exps, 1.0, |numbered|)) ==
            Defined(0.0)
  {
    var vals, rest := ValuesOf(m, numbered), WithoutConstants(numbered, exps, |numbered|);
    var k :| k in exps && 0 <= k < |vals| && vals[k].Defined? && vals[k].value < 0.0 && !Whole(exps[k]);
    assert k !in rest && IsConstant(numbered[k]) && KnownNumber(m, numbered, k);
    KnownVal(m, numbered, numbered[k]);
    NumberVal(m, numbered[k], numbered[k].op.imm.f);
    NoCoefficient(m, numbered, exps, |numbered|, k, numbered[k].op.imm.f);
    ProductSigned(m, vals, rest, |numbered|);
    PartDefined(m, numbered, AbsValues(vals), exps, |numbered|);
    ZeroTotal(Product(m, vals, rest, |numbered|));
  }

  lemma ZeroTotal(p: Value)
    requires p.Defined?
    ensures Times(p, Defined(0.0)) == Defined(0.0)
  {
  }
}
