/** Products of powers of numbered values: what an exponent map means, and what each step of expanding one keeps. */
module ExprProduct {
  import opened ExprTree
  import opened ExprReal
  import opened ExprPower
  import opened ExprRewrite

  // Exponents by value number.
  type Exponents = map<int, real>

  // The values by value number.
  type Values = seq<Value>

  function Base(m: Math, vals: Values, k: int, e: real): Value
    requires 0 <= k < |vals|
  {
    PowerVal(m, vals[k], e)
  }

  function PowerVal(m: Math, a: Value, e: real): Value {
    if a.Defined? then m.power(a.value, e) else Undefined
  }

  // The product of the powers of the first `n` numbers.
  function Product(m: Math, vals: Values, exps: Exponents, n: nat): Value
    requires n <= |vals|
  {
    if n == 0 then Defined(1.0)
    else if n - 1 in exps then Times(Base(m, vals, n - 1, exps[n - 1]), Product(m, vals, exps, n - 1))
    else Product(m, vals, exps, n - 1)
  }

  // An exponent after adding to it; a missing one is zero.
  function ExponentWith(exps: Exponents, k: int, e: real): real {
    if k in exps then exps[k] + e else e
  }

  function Added(exps: Exponents, k: int, e: real): Exponents {
    exps[k := ExponentWith(exps, k, e)]
  }

  // Products of values

  lemma TimesCommutes(a: Value, b: Value)
    ensures Times(a, b) == Times(b, a)
  {
  }

  lemma TimesAssociates(a: Value, b: Value, c: Value)
    ensures Times(a, Times(b, c)) == Times(Times(a, b), c)
  {
    if a.Defined? && b.Defined? && c.Defined? { Associate(a.value, b.value, c.value); }
  }

  lemma TimesSwaps(a: Value, b: Value, c: Value)
    ensures Times(a, Times(b, c)) == Times(b, Times(a, c))
  {
    TimesAssociates(a, b, c);
    TimesCommutes(a, b);
    TimesAssociates(b, a, c);
  }

  lemma TimesKeeps(a: Value, b: Value, c: Value)
    requires Keeps(a, b)
    ensures Keeps(Times(a, c), Times(b, c))
  {
  }

  lemma KeepsChain(a: Value, b: Value, c: Value)
    requires Keeps(a, b) && Keeps(b, c)
    ensures Keeps(a, c)
  {
  }

  lemma {:induction false} EmptyProduct(m: Math, vals: Values, exps: Exponents, n: nat)
    requires n <= |vals| && forall k :: k !in exps
    ensures Product(m, vals, exps, n) == Defined(1.0)
  {
    if n > 0 { EmptyProduct(m, vals, exps, n - 1); }
  }

  lemma TimesOne(a: Value)
    ensures Times(Defined(1.0), a) == a
  {
  }

  // A single entry.
  lemma SingleEntry(m: Math, vals: Values, k: int, e: real)
    requires 0 <= k < |vals|
    ensures Product(m, vals, map[k := e], |vals|) == Base(m, vals, k, e)
  {
    ProductWithout(m, vals, map[k := e], |vals|, k);
    assert map[k := e] - {k} == map[];
    EmptyProduct(m, vals, map[], |vals|);
    TimesOne(Base(m, vals, k, e));
    TimesCommutes(Base(m, vals, k, e), Defined(1.0));
  }

  // Changing one exponent

  lemma {:induction false} ProductAgrees(m: Math, vals: Values, a: Exponents, b: Exponents, n: nat)
    requires n <= |vals| && forall k | 0 <= k < n :: (k in a <==> k in b) && (k in a && k in b ==> a[k] == b[k])
    ensures Product(m, vals, a, n) == Product(m, vals, b, n)
  {
    if n > 0 { ProductAgrees(m, vals, a, b, n - 1); }
  }

  lemma {:induction false} ProductWithout(m: Math, vals: Values, exps: Exponents, n: nat, k: int)
    requires 0 <= k < n <= |vals| && k in exps
    ensures Product(m, vals, exps, n) == Times(Base(m, vals, k, exps[k]), Product(m, vals, exps - {k}, n))
  {
    if k == n - 1 {
      ProductAgrees(m, vals, exps, exps - {k}, n - 1);
    } else {
      ProductWithout(m, vals, exps, n - 1, k);
      if n - 1 in exps {
        TimesSwaps(Base(m, vals, n - 1, exps[n - 1]), Base(m, vals, k, exps[k]), Product(m, vals, exps - {k}, n - 1));
      }
    }
  }

  /** Adding to an exponent multiplies the product by a power. */
  lemma AddedKeeps(m: Math, vals: Values, exps: Exponents, n: nat, k: int, e: real)
    requires Lawful(m) && 0 <= k < n <= |vals|
    ensures Keeps(Times(Base(m, vals, k, e), Product(m, vals, exps, n)), Product(m, vals, Added(exps, k, e), n))
  {
    var more := Added(exps, k, e);
    ProductWithout(m, vals, more, n, k);
    assert more - {k} == exps - {k};
    if k in exps {
      var rest := Product(m, vals, exps - {k}, n);
      ProductWithout(m, vals, exps, n, k);
      TimesAssociates(Base(m, vals, k, e), Base(m, vals, k, exps[k]), rest);
      BasesMultiply(m, vals, k, e, exps[k]);
      TimesKeeps(Times(Base(m, vals, k, e), Base(m, vals, k, exps[k])), Base(m, vals, k, more[k]), rest);
    } else {
      assert exps - {k} == exps;
    }
  }

  lemma BasesMultiply(m: Math, vals: Values, k: int, e: real, e0: real)
    requires Lawful(m) && 0 <= k < |vals|
    ensures Keeps(Times(Base(m, vals, k, e), Base(m, vals, k, e0)), Base(m, vals, k, e0 + e))
  {
    if vals[k].Defined? { PowersMultiply(m, vals[k].value, e, e0); }
  }

  // Expanding one entry

  predicate IsPowerOfConstant(t: Tree) {
    Is(t, Pow) && t.left.Node? && IsConstant(t.right) && t.right.op.imm.F?
  }

  predicate IsProduct(t: Tree) {
    Is(t, Mul) && t.left.Node? && t.right.Node?
  }

  predicate IsQuotient(t: Tree) {
    Is(t, Div) && t.left.Node? && t.right.Node?
  }

  predicate Expandable(t: Tree) {
    IsPowerOfConstant(t) || IsProduct(t) || IsQuotient(t)
  }

  // The map with the entry of `t` replaced by entries of its operands.
  function Expanded(exps: Exponents, t: Tree): Exponents
    requires Expandable(t) && t.vn in exps
  {
    var e := exps[t.vn];
    if IsPowerOfConstant(t) then Added(exps, t.left.vn, PowerExponent(t, e)) - {t.vn}
    else Added(Added(exps, t.left.vn, e), t.right.vn, RightExponent(t, e)) - {t.vn}
  }

  function PowerExponent(t: Tree, e: real): real
    requires IsPowerOfConstant(t)
  {
    e * t.right.op.imm.f
  }

  function RightExponent(t: Tree, e: real): real {
    if Is(t, Mul) then e else -e
  }

  // `t` and all below it have a number above those of their operands, and the value of their number.
  ghost predicate Valued(m: Math, vals: Values, t: Tree) {
    t.Nil? || (
      && Valued(m, vals, t.left)
      && Valued(m, vals, t.right)
      && (IsMux(t) || (0 <= t.vn < |vals| && Numeric(t) && Val(m, t) == vals[t.vn] && Below(t.left, t.vn) && Below(t.right, t.vn))))
  }

  predicate Below(t: Tree, n: int) {
    t.Nil? || IsMux(t) || 0 <= t.vn < n
  }

  // No product, quotient or power stands under a fractional power.
  predicate WholePowers(t: Tree) {
    if IsPowerOfConstant(t) then (Whole(t.right.op.imm.f) || !Expandable(t.left)) && WholePowers(t.left)
    else if IsProduct(t) || IsQuotient(t) then WholePowers(t.left) && WholePowers(t.right)
    else true
  }

  lemma AddedWithout(exps: Exponents, k: int, e: real, l: int)
    requires k != l
    ensures Added(exps, k, e) - {l} == Added(exps - {l}, k, e)
  {
    assert (Added(exps, k, e) - {l})[k] == Added(exps - {l}, k, e)[k];
  }

  // What the numbers of an expandable node and its operands say.
  lemma Operands2(m: Math, vals: Values, t: Tree)
    requires Valued(m, vals, t) && Expandable(t)
    ensures 0 <= t.left.vn < t.vn < |vals| && 0 <= t.right.vn < t.vn
    ensures Valued(m, vals, t.left) && Valued(m, vals, t.right) && !IsMux(t.left) && !IsMux(t.right)
    ensures vals[t.vn] == ValOf(m, t.op.code, vals[t.left.vn], vals[t.right.vn])
    ensures IsPowerOfConstant(t) ==> vals[t.right.vn] == Defined(t.right.op.imm.f)
  {
    BinaryVal(m, t);
    if IsPowerOfConstant(t) { NumberVal(m, t.right, t.right.op.imm.f); }
  }

  /** Expanding an entry with a whole exponent keeps the product. */
  lemma ExpandedKeeps(m: Math, vals: Values, exps: Exponents, t: Tree)
    requires Lawful(m) && Valued(m, vals, t) && Expandable(t) && t.vn in exps && Whole(exps[t.vn])
    ensures Keeps(Product(m, vals, exps, |vals|), Product(m, vals, Expanded(exps, t), |vals|))
  {
    var e := exps[t.vn];
    Operands2(m, vals, t);
    if IsPowerOfConstant(t) {
      PowerEntry(m, vals[t.left.vn], t.right.op.imm.f, e, PowerExponent(t, e));
      PowerExpanded(m, vals, exps, t);
    } else {
      FactorBase(m, vals, t, e);
      FactorsExpanded(m, vals, exps, t);
    }
  }

  // The same for any exponent, where it holds of the entry alone.
  lemma PowerExpanded(m: Math, vals: Values, exps: Exponents, t: Tree)
    requires Lawful(m) && IsPowerOfConstant(t) && t.vn in exps && 0 <= t.left.vn < t.vn < |vals|
    requires Keeps(Base(m, vals, t.vn, exps[t.vn]), Base(m, vals, t.left.vn, PowerExponent(t, exps[t.vn])))
    ensures Keeps(Product(m, vals, exps, |vals|), Product(m, vals, Expanded(exps, t), |vals|))
  {
    var e, n := exps[t.vn], |vals|;
    var f, rest := PowerExponent(t, e), exps - {t.vn};
    ProductWithout(m, vals, exps, n, t.vn);
    AddedWithout(exps, t.left.vn, f, t.vn);
    TimesKeeps(Base(m, vals, t.vn, e), Base(m, vals, t.left.vn, f), Product(m, vals, rest, n));
    AddedKeeps(m, vals, rest, n, t.left.vn, f);
  }

  lemma FactorsExpanded(m: Math, vals: Values, exps: Exponents, t: Tree)
    requires Lawful(m) && (IsProduct(t) || IsQuotient(t)) && t.vn in exps
    requires 0 <= t.left.vn < t.vn < |vals| && 0 <= t.right.vn < t.vn
    requires var e := exps[t.vn];
             Keeps(Base(m, vals, t.vn, e), Times(Base(m, vals, t.left.vn, e), Base(m, vals, t.right.vn, RightExponent(t, e))))
    ensures Keeps(Product(m, vals, exps, |vals|), Product(m, vals, Expanded(exps, t), |vals|))
  {
    var e, f := exps[t.vn], RightExponent(t, exps[t.vn]);
    AddTwo(m, vals, exps - {t.vn}, t.left.vn, e, t.right.vn, f, Base(m, vals, t.vn, e));
    ProductWithout(m, vals, exps, |vals|, t.vn);
    FactorsWithout(exps, t);
  }

  lemma FactorBase(m: Math, vals: Values, t: Tree, e: real)
    requires Lawful(m) && (IsProduct(t) || IsQuotient(t)) && Whole(e)
    requires 0 <= t.left.vn < t.vn < |vals| && 0 <= t.right.vn < t.vn
    requires vals[t.vn] == ValOf(m, t.op.code, vals[t.left.vn], vals[t.right.vn])
    ensures Keeps(Base(m, vals, t.vn, e),
                  Times(Base(m, vals, t.left.vn, e), Base(m, vals, t.right.vn, RightExponent(t, e))))
  {
    FactorEntry(m, t.op.code, vals[t.left.vn], vals[t.right.vn], e);
  }

  lemma FactorsWithout(exps: Exponents, t: Tree)
    requires (IsProduct(t) || IsQuotient(t)) && t.vn in exps && t.left.vn < t.vn && t.right.vn < t.vn
    ensures var e := exps[t.vn];
            Expanded(exps, t) ==
            Added(Added(exps - {t.vn}, t.left.vn, e), t.right.vn, RightExponent(t, e))
  {
    var e := exps[t.vn];
    AddedWithout(exps, t.left.vn, e, t.vn);
    AddedWithout(Added(exps, t.left.vn, e), t.right.vn, RightExponent(t, e), t.vn);
  }

  lemma PowerEntry(m: Math, a: Value, c: real, e: real, f: real)
    requires Lawful(m) && Whole(e) && f == e * c
    ensures Keeps(PowerVal(m, ValOf(m, Pow, a, Defined(c)), e), PowerVal(m, a, f))
  {
    if a.Defined? {
      PowerOfPower(m, a.value, c, e);
      SameExponent(m, a.value, c * e, f);
    }
  }

  lemma SameExponent(m: Math, x: real, a: real, b: real)
    requires a == b
    ensures m.power(x, a) == m.power(x, b)
  {
  }

  lemma FactorEntry(m: Math, code: OpCode, a: Value, b: Value, e: real)
    requires Lawful(m) && (code.Mul? || code.Div?) && Whole(e)
    ensures Keeps(PowerVal(m, ValOf(m, code, a, b), e),
                  Times(PowerVal(m, a, e), PowerVal(m, b, if code.Mul? then e else -e)))
  {
    if a.Defined? && b.Defined? {
      if code.Mul? {
        ProductEntry(m, a.value, b.value, e, ValOf(m, Mul, a, b).value);
      } else if b.value != 0.0 {
        QuotientEntry(m, a.value, b.value, e, ValOf(m, Div, a, b).value);
      }
    }
  }

  lemma ProductEntry(m: Math, x: real, y: real, e: real, p: real)
    requires Lawful(m) && Whole(e) && p == x * y
    ensures Keeps(m.power(p, e), Times(m.power(x, e), m.power(y, e)))
  {
    PowerOfTimes(m, x, y, e);
    SameBase(m, p, x * y, e);
  }

  lemma QuotientEntry(m: Math, x: real, y: real, e: real, q: real)
    requires Lawful(m) && Whole(e) && y != 0.0 && q == x / y
    ensures Keeps(m.power(q, e), Times(m.power(x, e), m.power(y, -e)))
  {
    PowerOfQuotient(m, x, y, e);
    SameBase(m, q, x / y, e);
  }

  lemma AddTwo(m: Math, vals: Values, rest: Exponents, k: int, e: real, l: int, f: real, whole: Value)
    requires Lawful(m) && 0 <= k < |vals| && 0 <= l < |vals|
    requires Keeps(whole, Times(Base(m, vals, k, e), Base(m, vals, l, f)))
    ensures Keeps(Times(whole, Product(m, vals, rest, |vals|)),
                  Product(m, vals, Added(Added(rest, k, e), l, f), |vals|))
  {
    var p, q, r := Base(m, vals, k, e), Base(m, vals, l, f), Product(m, vals, rest, |vals|);
    var once := Product(m, vals, Added(rest, k, e), |vals|);
    TimesKeeps(whole, Times(p, q), r);
    TimesCommutes(p, q);
    TimesAssociates(q, p, r);
    AddedKeeps(m, vals, rest, |vals|, k, e);
    TimesKeeps(Times(p, r), once, q);
    TimesCommutes(q, Times(p, r));
    TimesCommutes(once, q);
    AddedKeeps(m, vals, Added(rest, k, e), |vals|, l, f);
  }

  // Expanding one entry alone

  // Two entries.
  lemma TwoEntries(m: Math, vals: Values, k: int, e: real, l: int, f: real)
    requires 0 <= k < |vals| && 0 <= l < |vals| && k != l
    ensures Product(m, vals, map[k := e, l := f], |vals|) == Times(Base(m, vals, k, e), Base(m, vals, l, f))
  {
    ProductWithout(m, vals, map[k := e, l := f], |vals|, k);
    assert map[k := e, l := f] - {k} == map[l := f];
    SingleEntry(m, vals, l, f);
  }

  // What a power of a product, of a quotient or of a power becomes with the exponents of its operands.
  function SplitPower(m: Math, t: Tree, same: bool, a: Value, b: Value, e: real): Value
    requires Expandable(t)
  {
    if IsPowerOfConstant(t) then PowerVal(m, a, PowerExponent(t, e))
    else if same then PowerVal(m, a, e + RightExponent(t, e))
    else Times(PowerVal(m, a, e), PowerVal(m, b, RightExponent(t, e)))
  }

  lemma EntrySplits(m: Math, vals: Values, t: Tree, e: real)
    requires Expandable(t) && 0 <= t.left.vn < t.vn < |vals| && 0 <= t.right.vn < t.vn
    ensures Product(m, vals, Expanded(map[t.vn := e], t), |vals|) ==
            SplitPower(m, t, t.left.vn == t.right.vn, vals[t.left.vn], vals[t.right.vn], e)
  {
    var k, l := t.left.vn, t.right.vn;
    if IsPowerOfConstant(t) {
      PowerOperand(t, e);
      SingleEntry(m, vals, k, PowerExponent(t, e));
    } else if k == l {
      SameOperands(t, e);
      SingleEntry(m, vals, k, e + RightExponent(t, e));
    } else {
      OtherOperands(t, e);
      TwoEntries(m, vals, k, e, l, RightExponent(t, e));
    }
  }

  lemma PowerOperand(t: Tree, e: real)
    requires IsPowerOfConstant(t) && t.left.vn != t.vn
    ensures Expanded(map[t.vn := e], t) == map[t.left.vn := PowerExponent(t, e)]
  {
  }

  lemma SameOperands(t: Tree, e: real)
    requires (IsProduct(t) || IsQuotient(t)) && t.left.vn == t.right.vn && t.left.vn != t.vn
    ensures Expanded(map[t.vn := e], t) == map[t.left.vn := e + RightExponent(t, e)]
  {
    var r := Expanded(map[t.vn := e], t);
    assert r.Keys == {t.left.vn};
  }

  lemma OtherOperands(t: Tree, e: real)
    requires (IsProduct(t) || IsQuotient(t)) && t.left.vn != t.right.vn && t.left.vn != t.vn && t.right.vn != t.vn
    ensures Expanded(map[t.vn := e], t) == map[t.left.vn := e, t.right.vn := RightExponent(t, e)]
  {
    var r := Expanded(map[t.vn := e], t);
    assert r.Keys == {t.left.vn, t.right.vn};
  }

  /** When the entry of a number may be expanded: there is no value to keep; the inner power loses no sign; the exponent
      is whole or no operand is negative; or a number is divided by itself. */
  predicate EntryFine(m: Math, t: Tree, same: bool, a: Value, b: Value, e: real)
    requires Expandable(t)
  {
    a.Defined? && b.Defined? && PowerVal(m, ValOf(m, t.op.code, a, b), e).Defined? ==>
      if IsPowerOfConstant(t) then !LosesSign(a.value, b.value, PowerExponent(t, e))
      else Whole(e) || (a.value >= 0.0 && b.value >= 0.0) || (same && IsQuotient(t))
  }

  /** Expanding an entry keeps its power exactly then. */
  lemma ExpandedKeepsIff(m: Math, vals: Values, t: Tree, e: real)
    requires Lawful(m) && Valued(m, vals, t) && Expandable(t)
    ensures 0 <= t.left.vn < t.vn < |vals| && 0 <= t.right.vn < t.vn
    ensures Keeps(Product(m, vals, map[t.vn := e], |vals|), Product(m, vals, Expanded(map[t.vn := e], t), |vals|)) <==>
            EntryFine(m, t, t.left.vn == t.right.vn, vals[t.left.vn], vals[t.right.vn], e)
  {
    Operands2(m, vals, t);
    EntrySplits(m, vals, t, e);
    SingleEntry(m, vals, t.vn, e);
    SplitKeepsIff(m, t, t.left.vn == t.right.vn, vals[t.left.vn], vals[t.right.vn], e);
  }

  lemma SplitKeepsIff(m: Math, t: Tree, same: bool, a: Value, b: Value, e: real)
    requires Lawful(m) && Expandable(t) && (same ==> a == b)
    requires IsPowerOfConstant(t) ==> b == Defined(t.right.op.imm.f)
    ensures Keeps(PowerVal(m, ValOf(m, t.op.code, a, b), e), SplitPower(m, t, same, a, b, e)) <==> EntryFine(m, t, same, a, b, e)
  {
    if a.Defined? && b.Defined? && ValOf(m, t.op.code, a, b).Defined? {
      if IsPowerOfConstant(t) {
        PowerSplits(m, a.value, b.value, e, PowerExponent(t, e));
      } else if IsProduct(t) {
        ProductSplits(m, same, a.value, b.value, e, ValOf(m, Mul, a, b).value);
      } else {
        QuotientSplits(m, same, a.value, b.value, e, ValOf(m, Div, a, b).value);
      }
    }
  }

  lemma PowerSplits(m: Math, x: real, c: real, e: real, f: real)
    requires Lawful(m) && f == e * c
    ensures Keeps(PowerTwice(m, x, c, e), m.power(x, f)) <==> (PowerTwice(m, x, c, e).Defined? ==> !LosesSign(x, c, f))
  {
    PowerPowerIff(m, x, c, e, f);
  }

  lemma ProductSplits(m: Math, same: bool, x: real, y: real, e: real, p: real)
    requires Lawful(m) && p == x * y && (same ==> x == y)
    ensures Keeps(m.power(p, e), if same then m.power(x, e + e) else Times(m.power(x, e), m.power(y, e))) <==>
            (m.power(p, e).Defined? ==> Whole(e) || (x >= 0.0 && y >= 0.0))
  {
    if same { SquareSplits(m, x, e, p); } else { PowerOfTimesIff(m, x, y, e); }
  }

  lemma SquareSplits(m: Math, x: real, e: real, p: real)
    requires Lawful(m) && p == x * x
    ensures Keeps(m.power(p, e), m.power(x, e + e)) <==> (m.power(p, e).Defined? ==> Whole(e) || x >= 0.0)
  {
    PowerAt(m, x, 2.0);
    assert Power(x, 2) == x * Power(x, 1) && Power(x, 1) == x * Power(x, 0);
    assert m.power(x, 2.0) == Defined(p);
    PowerPowerIff(m, x, 2.0, e, e + e);
    HalfWhole(e);
    if x < 0.0 {
      SignUp(-x, -x);
      PowerAt(m, p, e);
    }
  }

  lemma HalfWhole(e: real)
    ensures Even(e + e) <==> Whole(e)
  {
    if Even(e + e) {
      var i := (e + e).Floor / 2;
      assert e == i as real;
    }
    if Whole(e) { WholeSum(e, e); }
  }

  lemma QuotientSplits(m: Math, same: bool, x: real, y: real, e: real, q: real)
    requires Lawful(m) && y != 0.0 && q == x / y && (same ==> x == y)
    ensures Keeps(m.power(q, e), if same then m.power(x, e + -e) else Times(m.power(x, e), m.power(y, -e))) <==>
            (m.power(q, e).Defined? ==> Whole(e) || (x >= 0.0 && y >= 0.0) || same)
  {
    if same {
      QuotientIs(x, y, 1.0);
      PowerOfOne(m, e);
      PowerAt(m, x, 0.0);
    } else {
      PowerOfQuotientIff(m, x, y, e);
    }
  }
}
