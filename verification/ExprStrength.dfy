/** The strength reduction pass: its rules in the order a node meets them. */
module ExprStrength {
  import opened ExprTree
  import opened ExprReal
  import opened ExprPower
  import opened ExprRewrite

  function SetCode(t: Tree, code: OpCode): (r: Tree)
    requires t.Node?
    ensures r.Node?
  {
    t.(op := Op(code, U(0)))
  }

  // The node with another operator and other children.
  function Become(t: Tree, code: OpCode, left: Tree, right: Tree): (r: Tree)
    requires t.Node?
    ensures r.Node?
  {
    Node(Op(code, U(0)), t.vn, left, right)
  }

  function SwapChildren(t: Tree): (r: Tree)
    requires t.Node?
    ensures r.Node?
  {
    t.(left := t.right, right := t.left)
  }

  // 0 - x
  function ZeroMinus(t: Tree): Tree {
    if Is(t, Sub) && IsNumber(t.left, 0.0) then Become(t, Neg, t.right, Nil) else t
  }

  // x * -1 and x / -1
  function TimesMinusOne(t: Tree): Tree {
    if (Is(t, Mul) || Is(t, Div)) && IsNumber(t.right, -1.0) then Become(t, Neg, t.left, Nil) else t
  }

  // a + -b and a - -b
  function PlusNegative(t: Tree): Tree {
    if (Is(t, Add) || Is(t, Sub)) && Is(t.right, Neg) && t.right.left.Node? then
      Become(t, if Is(t, Add) then Sub else Add, t.left, Replace(t.right, t.right.left))
    else t
  }

  // -a + b
  function NegativePlus(t: Tree): Tree {
    if Is(t, Add) && Is(t.left, Neg) && t.left.left.Node? then
      SwapChildren(Become(t, Sub, Replace(t.left, t.left.left), t.right))
    else t
  }

  // -(a - b)
  function MinusDifference(t: Tree): Tree {
    if Is(t, Neg) && Is(t.left, Sub) then SwapChildren(Replace(t, t.left)) else t
  }

  // x * 2, unless the node seems to be under an addition
  function Twice(t: Tree, underAdd: bool): Tree {
    if Is(t, Mul) && IsNumber(t.right, 2.0) && !underAdd && t.left.Node? then
      Become(t, Add, t.left, Replace(t.right, Strip(t.left)))
    else t
  }

  // A reciprocal of zero is infinite, and then the quotient it comes from is undefined.
  function Reciprocal(x: real): real {
    if x == 0.0 then 0.0 else 1.0 / x
  }

  // x / y for a constant y
  function OverConstant(t: Tree): Tree {
    if Is(t, Div) && IsConstant(t.right) && t.right.op.imm.F? then
      Become(t, Mul, t.left, t.right.(op := Op(Constant, F(Reciprocal(t.right.op.imm.f)))))
    else t
  }

  // (1 / x) * y
  function ReciprocalTimes(t: Tree): Tree {
    if Is(t, Mul) && Is(t.left, Div) && IsNumber(t.left.left, 1.0) && t.left.right.Node? then
      SwapChildren(Become(t, Div, Replace(t.left, t.left.right), t.right))
    else t
  }

  // x * (1 / y)
  function TimesReciprocal(t: Tree): Tree {
    if Is(t, Mul) && Is(t.right, Div) && IsNumber(t.right.left, 1.0) && t.right.right.Node? then
      Become(t, Div, t.left, Replace(t.right, t.right.right))
    else t
  }

  // The swaps of the contents of two nodes below one.
  function SwapLeftRightWithRight(t: Tree): Tree
    requires t.Node? && t.left.Node?
  {
    t.(left := t.left.(right := t.right), right := t.left.right)
  }

  function SwapLeftLeftWithRight(t: Tree): Tree
    requires t.Node? && t.left.Node?
  {
    t.(left := t.left.(left := t.right), right := t.left.left)
  }

  function SwapLeftWithRightLeft(t: Tree): Tree
    requires t.Node? && t.right.Node?
  {
    t.(left := t.right.left, right := t.right.(left := t.left))
  }

  // (a / b) * c
  function QuotientTimes(t: Tree): Tree {
    if Is(t, Mul) && Is(t.left, Div) then
      SwapLeftRightWithRight(Become(t, Div, SetCode(t.left, Mul), t.right))
    else t
  }

  // a * (b / c)
  function TimesQuotient(t: Tree): Tree {
    if Is(t, Mul) && Is(t.right, Div) then
      var s := SwapChildren(Become(t, Div, t.left, SetCode(t.right, Mul)));
      SwapLeftLeftWithRight(s.(left := SwapChildren(s.left)))
    else t
  }

  // a / (b / c)
  function OverQuotient(t: Tree): Tree {
    if Is(t, Div) && Is(t.right, Div) then
      SwapLeftLeftWithRight(SwapChildren(t.(right := SetCode(t.right, Mul))))
    else t
  }

  // (a / b) / c
  function QuotientOver(t: Tree): Tree {
    if Is(t, Div) && Is(t.left, Div) then
      var s := SwapLeftWithRightLeft(SwapChildren(t.(left := SetCode(t.left, Mul))));
      s.(right := SwapChildren(s.right))
    else t
  }

  // A clone of a power with another exponent.
  function Copy(t: Tree, y: real): Tree
    requires t.Node?
  {
    Node(t.op, -1, Strip(t.left), Const(y))
  }

  // x ** (n / 2)
  function HalfPower(t: Tree): Tree {
    if Is(t, Pow) && IsConstant(t.right) && t.right.op.imm.F? && !Whole(t.right.op.imm.f) && Whole(2.0 * t.right.op.imm.f) then
      Become(t, Sqrt, Copy(t, 2.0 * t.right.op.imm.f), Nil)
    else t
  }

  // x ** -N
  predicate HasNegativePower(t: Tree) {
    Is(t, Pow) && IsConstant(t.right) && t.right.op.imm.F? && Whole(t.right.op.imm.f) && t.right.op.imm.f < 0.0
  }

  function NegativePower(t: Tree): Tree {
    if HasNegativePower(t) then
      Become(t, Div, Const(1.0), Copy(t, -t.right.op.imm.f))
    else t
  }

  // A product of `n` copies.
  function IntegerPower(x: Tree, n: nat): (r: Tree)
    requires n > 0 && x.Node?
    ensures r.Node?
  {
    if n == 1 then Strip(x)
    else Make(Mul, IntegerPower(x, (n + 1) / 2), IntegerPower(x, n - (n + 1) / 2))
  }

  // x ** N
  function PositivePower(t: Tree): Tree {
    if Is(t, Pow) && IsConstant(t.right) && t.right.op.imm.F? && Whole(t.right.op.imm.f) && t.right.op.imm.f > 0.0 &&
       t.left.Node? then
      Replace(t, IntegerPower(t.left, t.right.op.imm.f.Floor))
    else t
  }

  function Sums(t: Tree): Tree {
    MinusDifference(NegativePlus(PlusNegative(TimesMinusOne(ZeroMinus(t)))))
  }

  function Products(t: Tree): Tree {
    TimesReciprocal(ReciprocalTimes(OverConstant(t)))
  }

  function Quotients(t: Tree): Tree {
    QuotientOver(OverQuotient(TimesQuotient(QuotientTimes(t))))
  }

  function Powers(t: Tree): Tree {
    PositivePower(NegativePower(HalfPower(t)))
  }

  function StrengthNode(t: Tree, underAdd: bool): Tree {
    if IsMux(t) then t else Powers(Quotients(Products(Twice(Sums(t), underAdd))))
  }

  // What a node's parent pointer shows may be stale, so `underAdd` is left open.
  function StrengthVisitor(underAdd: Path -> bool): (Tree, Path) -> Tree {
    (n, path) => StrengthNode(n, underAdd(path))
  }

  function Strength(t: Tree, underAdd: Path -> bool): Tree {
    Postorder(StrengthVisitor(underAdd), t, [])
  }

  lemma BecomeVal(m: Math, t: Tree, code: OpCode, l: Tree, r: Tree)
    requires t.Node? && IsArithmetic(code) && Numeric(l) && Numeric(r)
    ensures Numeric(Become(t, code, l, r))
    ensures Val(m, Become(t, code, l, r)) == ValOf(m, code, Val(m, l), Val(m, r))
  {
    MakeVal(m, code, l, r);
    ReplaceKeeps(m, t, Make(code, l, r));
  }

  // Sums

  lemma ZeroMinusKeeps(m: Math, t: Tree)
    requires Numeric(t)
    ensures KeepsVal(m, t, ZeroMinus(t))
  {
  }

  lemma TimesMinusOneKeeps(m: Math, t: Tree)
    requires Numeric(t)
    ensures KeepsVal(m, t, TimesMinusOne(t))
  {
    if TimesMinusOne(t) != t {
      BinaryVal(m, t);
      NumberVal(m, t.right, -1.0);
      NegativeVal(m, t, t.left);
      MinusOneValue(m, t.op.code, Val(m, t.left));
    }
  }

  lemma NegativeVal(m: Math, t: Tree, x: Tree)
    requires t.Node? && Numeric(x)
    ensures Numeric(Become(t, Neg, x, Nil)) && Val(m, Become(t, Neg, x, Nil)) == Unary(m, Neg, Val(m, x))
  {
  }

  lemma MinusOneValue(m: Math, code: OpCode, a: Value)
    requires code.Mul? || code.Div?
    ensures ValOf(m, code, a, Defined(-1.0)) == Unary(m, Neg, a)
  {
  }

  lemma PlusNegativeKeeps(m: Math, t: Tree)
    requires Numeric(t)
    ensures KeepsVal(m, t, PlusNegative(t))
  {
    if PlusNegative(t) != t {
      BinaryVal(m, t);
      UnaryVal(m, t.right);
      ReplaceKeeps(m, t.right, t.right.left);
      BecomeVal(m, t, if Is(t, Add) then Sub else Add, t.left, Replace(t.right, t.right.left));
      PlusNegativeValue(m, Val(m, t.left), Val(m, t.right.left));
    }
  }

  lemma PlusNegativeValue(m: Math, a: Value, b: Value)
    ensures ValOf(m, Add, a, Unary(m, Neg, b)) == ValOf(m, Sub, a, b)
    ensures ValOf(m, Sub, a, Unary(m, Neg, b)) == ValOf(m, Add, a, b)
    ensures ValOf(m, Add, Unary(m, Neg, a), b) == ValOf(m, Sub, b, a)
  {
  }

  lemma NegativePlusKeeps(m: Math, t: Tree)
    requires Numeric(t)
    ensures KeepsVal(m, t, NegativePlus(t))
  {
    if NegativePlus(t) != t {
      BinaryVal(m, t);
      UnaryVal(m, t.left);
      ReplaceKeeps(m, t.left, t.left.left);
      BecomeVal(m, t, Sub, t.right, Replace(t.left, t.left.left));
      PlusNegativeValue(m, Val(m, t.left.left), Val(m, t.right));
    }
  }

  lemma MinusDifferenceKeeps(m: Math, t: Tree)
    requires Numeric(t)
    ensures KeepsVal(m, t, MinusDifference(t))
  {
  }

  lemma SumsKeeps(m: Math, t: Tree)
    requires Numeric(t)
    ensures KeepsVal(m, t, Sums(t))
  {
    var t1 := ZeroMinus(t);
    ZeroMinusKeeps(m, t);
    var t2 := TimesMinusOne(t1);
    TimesMinusOneKeeps(m, t1);
    var t3 := PlusNegative(t2);
    PlusNegativeKeeps(m, t2);
    var t4 := NegativePlus(t3);
    NegativePlusKeeps(m, t3);
    MinusDifferenceKeeps(m, t4);
  }

  // Products

  lemma TwiceKeeps(m: Math, t: Tree, underAdd: bool)
    requires Numeric(t)
    ensures KeepsVal(m, t, Twice(t, underAdd))
  {
    if Twice(t, underAdd) != t {
      BinaryVal(m, t);
      NumberVal(m, t.right, 2.0);
      StripTwice(t.left);
      ValStrip(m, Strip(t.left), t.left);
      ReplaceKeeps(m, t.right, Strip(t.left));
      BecomeVal(m, t, Add, t.left, Replace(t.right, Strip(t.left)));
    }
  }

  lemma OverConstantKeeps(m: Math, t: Tree)
    requires Numeric(t)
    ensures KeepsVal(m, t, OverConstant(t))
  {
    if OverConstant(t) != t { OverConstantValue(m, Val(m, t.left), t.right.op.imm.f); }
  }

  lemma OverConstantValue(m: Math, a: Value, y: real)
    ensures Keeps(ValOf(m, Div, a, Defined(y)), ValOf(m, Mul, a, Defined(Reciprocal(y))))
  {
    if a.Defined? && y != 0.0 {
      QuotientIsProduct(a.value, y);
      assert ValOf(m, Div, a, Defined(y)) == Defined(a.value / y);
      assert ValOf(m, Mul, a, Defined(1.0 / y)) == Defined(a.value * (1.0 / y));
    }
  }

  lemma QuotientIsProduct(x: real, y: real)
    requires y != 0.0
    ensures x / y == x * (1.0 / y) && x / y == (1.0 / y) * x
  {
    QuotientIs(x, y, x * (1.0 / y));
  }

  lemma ReciprocalTimesKeeps(m: Math, t: Tree)
    requires Numeric(t)
    ensures KeepsVal(m, t, ReciprocalTimes(t))
  {
    if ReciprocalTimes(t) != t {
      BinaryVal(m, t);
      BinaryVal(m, t.left);
      NumberVal(m, t.left.left, 1.0);
      ReplaceKeeps(m, t.left, t.left.right);
      assert ReciprocalTimes(t) == Become(t, Div, t.right, Replace(t.left, t.left.right));
      BecomeVal(m, t, Div, t.right, Replace(t.left, t.left.right));
      ReciprocalValue(m, Val(m, t.right), Val(m, t.left.right));
    }
  }

  lemma ReciprocalValue(m: Math, a: Value, b: Value)
    ensures Keeps(ValOf(m, Mul, ValOf(m, Div, Defined(1.0), b), a), ValOf(m, Div, a, b))
    ensures Keeps(ValOf(m, Mul, a, ValOf(m, Div, Defined(1.0), b)), ValOf(m, Div, a, b))
  {
    if a.Defined? && b.Defined? && b.value != 0.0 {
      QuotientIsProduct(a.value, b.value);
      assert ValOf(m, Div, Defined(1.0), b) == Defined(1.0 / b.value);
      assert ValOf(m, Div, a, b) == Defined(a.value / b.value);
      assert ValOf(m, Mul, a, Defined(1.0 / b.value)) == Defined(a.value * (1.0 / b.value));
      assert ValOf(m, Mul, Defined(1.0 / b.value), a) == Defined((1.0 / b.value) * a.value);
    }
  }

  lemma TimesReciprocalKeeps(m: Math, t: Tree)
    requires Numeric(t)
    ensures KeepsVal(m, t, TimesReciprocal(t))
  {
    if TimesReciprocal(t) != t {
      BinaryVal(m, t);
      BinaryVal(m, t.right);
      NumberVal(m, t.right.left, 1.0);
      ReplaceKeeps(m, t.right, t.right.right);
      BecomeVal(m, t, Div, t.left, Replace(t.right, t.right.right));
      ReciprocalValue(m, Val(m, t.left), Val(m, t.right.right));
    }
  }

  lemma ProductsKeeps(m: Math, t: Tree)
    requires Numeric(t)
    ensures KeepsVal(m, t, Products(t))
  {
    var t1 := OverConstant(t);
    OverConstantKeeps(m, t);
    var t2 := ReciprocalTimes(t1);
    ReciprocalTimesKeeps(m, t1);
    TimesReciprocalKeeps(m, t2);
  }

  // Quotients

  lemma QuotientTimesIs(x: real, y: real, z: real)
    requires y != 0.0
    ensures (x / y) * z == (x * z) / y && z * (x / y) == (z * x) / y
  {
    QuotientIs(x, y, x / y);
    Rotate(x / y, z, y);
    QuotientIs(x * z, y, (x / y) * z);
  }

  lemma Rotate(q: real, z: real, y: real)
    ensures (q * z) * y == (q * y) * z
  {
  }

  lemma QuotientOverIs(x: real, y: real, z: real)
    requires y != 0.0 && z != 0.0
    ensures y * z != 0.0 && (x / y) / z == x / (y * z)
  {
    NotZero(y, z);
    QuotientIs(x, y * z, x / (y * z));
    Associate(x / (y * z), z, y);
    QuotientIs(x, y, (x / (y * z)) * z);
    QuotientIs(x / y, z, x / (y * z));
  }

  lemma OverQuotientIs(x: real, y: real, z: real)
    requires y != 0.0 && z != 0.0
    ensures y / z != 0.0 && x / (y / z) == (x * z) / y
  {
    var q := y / z;
    QuotientIs(y, z, q);
    var r := x / q;
    QuotientIs(x, q, r);
    Associate(r, q, z);
    QuotientIs(x * z, y, r);
  }

  lemma QuotientTimesKeeps(m: Math, t: Tree)
    requires Numeric(t)
    ensures KeepsVal(m, t, QuotientTimes(t))
  {
    if QuotientTimes(t) != t {
      QuotientTimesValue(m, Val(m, t.left.left), Val(m, t.left.right), Val(m, t.right));
    }
  }

  lemma QuotientTimesValue(m: Math, a: Value, b: Value, c: Value)
    ensures Keeps(ValOf(m, Mul, ValOf(m, Div, a, b), c), ValOf(m, Div, ValOf(m, Mul, a, c), b))
  {
    if a.Defined? && b.Defined? && c.Defined? && b.value != 0.0 {
      var x, y, z := a.value, b.value, c.value;
      QuotientTimesIs(x, y, z);
      assert ValOf(m, Div, a, b) == Defined(x / y);
      assert ValOf(m, Mul, a, c) == Defined(x * z);
      assert ValOf(m, Mul, Defined(x / y), c) == Defined((x / y) * z);
      assert ValOf(m, Div, Defined(x * z), b) == Defined((x * z) / y);
    }
  }

  lemma TimesQuotientKeeps(m: Math, t: Tree)
    requires Numeric(t)
    ensures KeepsVal(m, t, TimesQuotient(t))
  {
    if TimesQuotient(t) != t {
      TimesQuotientValue(m, Val(m, t.left), Val(m, t.right.left), Val(m, t.right.right));
    }
  }

  lemma TimesQuotientValue(m: Math, a: Value, b: Value, c: Value)
    ensures Keeps(ValOf(m, Mul, a, ValOf(m, Div, b, c)), ValOf(m, Div, ValOf(m, Mul, a, b), c))
  {
    if a.Defined? && b.Defined? && c.Defined? && c.value != 0.0 {
      var x, y, z := a.value, b.value, c.value;
      QuotientTimesIs(y, z, x);
      assert ValOf(m, Div, b, c) == Defined(y / z);
      assert ValOf(m, Mul, a, b) == Defined(x * y);
      assert ValOf(m, Mul, a, Defined(y / z)) == Defined(x * (y / z));
      assert ValOf(m, Div, Defined(x * y), c) == Defined((x * y) / z);
    }
  }

  lemma OverQuotientKeeps(m: Math, t: Tree)
    requires Numeric(t)
    ensures KeepsVal(m, t, OverQuotient(t))
  {
    if OverQuotient(t) != t {
      OverQuotientValue(m, Val(m, t.left), Val(m, t.right.left), Val(m, t.right.right));
    }
  }

  lemma OverQuotientValue(m: Math, a: Value, b: Value, c: Value)
    ensures Keeps(ValOf(m, Div, a, ValOf(m, Div, b, c)), ValOf(m, Div, ValOf(m, Mul, a, c), b))
  {
    if a.Defined? && b.Defined? && c.Defined? && c.value != 0.0 {
      var x, y, z := a.value, b.value, c.value;
      assert ValOf(m, Div, b, c) == Defined(y / z);
      ZeroQuotient(y, z);
      if y != 0.0 {
        OverQuotientIs(x, y, z);
        assert ValOf(m, Mul, a, c) == Defined(x * z);
        assert ValOf(m, Div, a, Defined(y / z)) == Defined(x / (y / z));
        assert ValOf(m, Div, Defined(x * z), b) == Defined((x * z) / y);
      }
    }
  }

  lemma ZeroQuotient(y: real, z: real)
    requires z != 0.0
    ensures y / z == 0.0 <==> y == 0.0
  {
    QuotientIs(y, z, 0.0);
  }

  lemma QuotientOverKeeps(m: Math, t: Tree)
    requires Numeric(t)
    ensures KeepsVal(m, t, QuotientOver(t))
  {
    if QuotientOver(t) != t {
      BinaryVal(m, t);
      BinaryVal(m, t.left);
      QuotientOverShape(t);
      OverProductVal(m, t, t.left.left, t.left.vn, t.left.right, t.right);
      QuotientOverValue(m, Val(m, t.left.left), Val(m, t.left.right), Val(m, t.right));
    }
  }

  lemma QuotientOverShape(t: Tree)
    requires QuotientOver(t) != t
    ensures QuotientOver(t) == Node(t.op, t.vn, t.left.left, Node(Op(Mul, U(0)), t.left.vn, t.left.right, t.right))
  {
  }

  // The value of a / (b * c).
  lemma OverProductVal(m: Math, t: Tree, a: Tree, vn: int, b: Tree, c: Tree)
    requires Is(t, Div) && NumericOp(t.op) && Numeric(a) && Numeric(b) && Numeric(c)
    ensures var s := Node(t.op, t.vn, a, Node(Op(Mul, U(0)), vn, b, c));
            Numeric(s) && Val(m, s) == ValOf(m, Div, Val(m, a), ValOf(m, Mul, Val(m, b), Val(m, c)))
  {
    var product := Node(Op(Mul, U(0)), vn, b, c);
    BinaryVal(m, product);
    BinaryVal(m, Node(t.op, t.vn, a, product));
  }

  lemma QuotientOverValue(m: Math, a: Value, b: Value, c: Value)
    ensures Keeps(ValOf(m, Div, ValOf(m, Div, a, b), c), ValOf(m, Div, a, ValOf(m, Mul, b, c)))
  {
    if a.Defined? && b.Defined? && c.Defined? && b.value != 0.0 && c.value != 0.0 {
      var x, y, z := a.value, b.value, c.value;
      QuotientOverIs(x, y, z);
      assert ValOf(m, Div, a, b) == Defined(x / y);
      assert ValOf(m, Mul, b, c) == Defined(y * z);
      assert ValOf(m, Div, Defined(x / y), c) == Defined((x / y) / z);
      assert ValOf(m, Div, a, Defined(y * z)) == Defined(x / (y * z));
    }
  }

  lemma QuotientsKeeps(m: Math, t: Tree)
    requires Numeric(t)
    ensures KeepsVal(m, t, Quotients(t))
  {
    var t1 := QuotientTimes(t);
    QuotientTimesKeeps(m, t);
    var t2 := TimesQuotient(t1);
    TimesQuotientKeeps(m, t1);
    var t3 := OverQuotient(t2);
    OverQuotientKeeps(m, t2);
    QuotientOverKeeps(m, t3);
  }

  // Powers

  lemma CopyVal(m: Math, t: Tree, y: real)
    requires Numeric(t) && Is(t, Pow)
    ensures Numeric(Copy(t, y)) && Val(m, Copy(t, y)) == ValOf(m, Pow, Val(m, t.left), Defined(y))
  {
    StripTwice(t.left);
    ValStrip(m, Strip(t.left), t.left);
    BinaryVal(m, Copy(t, y));
  }

  lemma HalfPowerShape(m: Math, t: Tree)
    requires Numeric(t) && HalfPower(t) != t
    ensures var a, h := Val(m, t.left), t.right.op.imm.f;
            && Val(m, t) == ValOf(m, Pow, a, Defined(h))
            && Numeric(HalfPower(t))
            && Val(m, HalfPower(t)) == Unary(m, Sqrt, ValOf(m, Pow, a, Defined(2.0 * h)))
  {
    BinaryVal(m, t);
    NumberVal(m, t.right, t.right.op.imm.f);
    RootOfCopy(m, t, 2.0 * t.right.op.imm.f);
  }

  lemma RootOfCopy(m: Math, t: Tree, y: real)
    requires Numeric(t) && Is(t, Pow)
    ensures Numeric(Become(t, Sqrt, Copy(t, y), Nil))
    ensures Val(m, Become(t, Sqrt, Copy(t, y), Nil)) == Unary(m, Sqrt, ValOf(m, Pow, Val(m, t.left), Defined(y)))
  {
    CopyVal(m, t, y);
    UnaryVal(m, Become(t, Sqrt, Copy(t, y), Nil));
  }

  lemma HalfPowerKeeps(m: Math, t: Tree)
    requires Lawful(m) && Numeric(t)
    ensures KeepsVal(m, t, HalfPower(t))
  {
    if HalfPower(t) != t {
      HalfPowerShape(m, t);
      HalfPowerValue(m, Val(m, t.left), t.right.op.imm.f);
    }
  }

  lemma HalfPowerValue(m: Math, a: Value, h: real)
    requires Lawful(m) && !Whole(h)
    ensures Keeps(ValOf(m, Pow, a, Defined(h)), Unary(m, Sqrt, ValOf(m, Pow, a, Defined(2.0 * h))))
  {
    if a.Defined? { RootOfPower(m, a.value, h); }
  }

  // A root of a whole power where the half power is defined: the base is not negative.
  lemma RootOfPower(m: Math, x: real, h: real)
    requires Lawful(m) && !Whole(h)
    ensures Keeps(m.power(x, h), PowerTwice(m, x, 2.0 * h, 0.5))
  {
    PowerAt(m, x, h);
    if x >= 0.0 {
      PowerOfPower(m, x, 2.0 * h, 0.5);
      assert (2.0 * h) * 0.5 == h;
      PowerAt(m, x, 2.0 * h);
      PowerAt(m, 0.0, 0.5);
    }
  }

  lemma NegativePowerShape(m: Math, t: Tree)
    requires Numeric(t) && HasNegativePower(t)
    ensures var a, y := Val(m, t.left), t.right.op.imm.f;
            && Val(m, t) == ValOf(m, Pow, a, Defined(y))
            && Numeric(NegativePower(t))
            && Val(m, NegativePower(t)) == ValOf(m, Div, Defined(1.0), ValOf(m, Pow, a, Defined(-y)))
  {
    BinaryVal(m, t);
    NumberVal(m, t.right, t.right.op.imm.f);
    OverCopy(m, t, -t.right.op.imm.f);
  }

  lemma OverCopy(m: Math, t: Tree, y: real)
    requires Numeric(t) && Is(t, Pow)
    ensures Numeric(Become(t, Div, Const(1.0), Copy(t, y)))
    ensures Val(m, Become(t, Div, Const(1.0), Copy(t, y))) ==
            ValOf(m, Div, Defined(1.0), ValOf(m, Pow, Val(m, t.left), Defined(y)))
  {
    CopyVal(m, t, y);
    NumberVal(m, Const(1.0), 1.0);
    BecomeVal(m, t, Div, Const(1.0), Copy(t, y));
  }

  lemma NegativePowerByValue(m: Math, t: Tree)
    requires Numeric(t) && HasNegativePower(t) && Numeric(t.left)
    requires InvertsPower(m, Val(m, t.left), t.right.op.imm.f)
    ensures KeepsVal(m, t, NegativePower(t))
  {
    NegativePowerShape(m, t);
  }

  lemma NegativePowerKeeps(m: Math, t: Tree)
    requires Lawful(m) && Numeric(t)
    ensures KeepsVal(m, t, NegativePower(t))
  {
    if HasNegativePower(t) {
      PowerParts(t);
      NegativePowerValue(m, Val(m, t.left), t.right.op.imm.f);
      NegativePowerByValue(m, t);
    } else {
      assert NegativePower(t) == t;
    }
  }

  lemma PowerParts(t: Tree)
    requires Numeric(t) && Is(t, Pow)
    ensures Numeric(t.left) && Numeric(t.right)
  {
  }

  // A power is one over the opposite power.
  predicate InvertsPower(m: Math, a: Value, y: real) {
    Keeps(ValOf(m, Pow, a, Defined(y)), ValOf(m, Div, Defined(1.0), ValOf(m, Pow, a, Defined(-y))))
  }

  lemma NegativePowerValue(m: Math, a: Value, y: real)
    requires Lawful(m) && Whole(y) && y < 0.0
    ensures InvertsPower(m, a, y)
  {
    if a.Defined? { OverPower(m, a.value, y); }
  }

  lemma OverPower(m: Math, x: real, y: real)
    requires Lawful(m) && Whole(y) && y < 0.0
    ensures Keeps(m.power(x, y), ValOf(m, Div, Defined(1.0), m.power(x, -y)))
  {
    PowerAt(m, x, y);
    if x != 0.0 {
      PowerAt(m, x, -y);
      WholeSum(y, y);
      RaiseNotZero(x, -y.Floor);
    }
  }

  /** The product of n copies is the n-th power. */
  lemma {:induction false} IntegerPowerIsPower(m: Math, x: Tree, n: nat)
    requires Numeric(x) && n > 0
    ensures Numeric(IntegerPower(x, n))
    ensures Val(m, IntegerPower(x, n)) == PowerValue(Val(m, x), n)
  {
    if n == 1 {
      StripTwice(x);
      ValStrip(m, Strip(x), x);
      PowerValueOne(Val(m, x));
    } else {
      var h := (n + 1) / 2;
      IntegerPowerIsPower(m, x, h);
      IntegerPowerIsPower(m, x, n - h);
      PowerValueSum(m, Val(m, x), h, n - h);
      MakeVal(m, Mul, IntegerPower(x, h), IntegerPower(x, n - h));
    }
  }

  function Depth(t: Tree): nat {
    if t.Nil? then 0 else 1 + (if Depth(t.left) < Depth(t.right) then Depth(t.right) else Depth(t.left))
  }

  function PowerOfTwo(k: nat): nat {
    if k == 0 then 1 else 2 * PowerOfTwo(k - 1)
  }

  lemma {:induction false} DepthStrip(t: Tree)
    ensures Depth(Strip(t)) == Depth(t)
  {
    if t.Node? {
      DepthStrip(t.left);
      DepthStrip(t.right);
    }
  }

  /** The product is balanced: up to 2^k copies are at most k multiplications deep. */
  lemma {:induction false} IntegerPowerIsShallow(x: Tree, n: nat, k: nat)
    requires x.Node? && 0 < n <= PowerOfTwo(k)
    ensures Depth(IntegerPower(x, n)) <= Depth(x) + k
  {
    if n == 1 {
      DepthStrip(x);
    } else {
      IntegerPowerIsShallow(x, (n + 1) / 2, k - 1);
      IntegerPowerIsShallow(x, n - (n + 1) / 2, k - 1);
    }
  }

  function PowerValue(a: Value, n: nat): Value {
    if a.Defined? then Defined(Power(a.value, n)) else Undefined
  }

  lemma PowerValueOne(a: Value)
    ensures PowerValue(a, 1) == a
  {
    if a.Defined? { assert Power(a.value, 1) == a.value * Power(a.value, 0); }
  }

  lemma PowerValueSum(m: Math, a: Value, i: nat, j: nat)
    ensures ValOf(m, Mul, PowerValue(a, i), PowerValue(a, j)) == PowerValue(a, i + j)
  {
    if a.Defined? { PowerOfSum(a.value, i, j); }
  }

  lemma PositivePowerKeeps(m: Math, t: Tree)
    requires Lawful(m) && Numeric(t)
    ensures KeepsVal(m, t, PositivePower(t))
  {
    if PositivePower(t) != t {
      var n := t.right.op.imm.f.Floor;
      IntegerPowerIsPower(m, t.left, n);
      ReplaceKeeps(m, t, IntegerPower(t.left, n));
      if Val(m, t.left).Defined? { PowerAt(m, Val(m, t.left).value, t.right.op.imm.f); }
    }
  }

  lemma PowersKeeps(m: Math, t: Tree)
    requires Lawful(m) && Numeric(t)
    ensures KeepsVal(m, t, Powers(t))
  {
    var t1 := HalfPower(t);
    HalfPowerKeeps(m, t);
    var t2 := NegativePower(t1);
    NegativePowerKeeps(m, t1);
    PositivePowerKeeps(m, t2);
  }

  /** All the rules of a node together keep its value, whatever its parent pointer shows. */
  lemma StrengthNodeKeeps(m: Math, t: Tree, underAdd: bool)
    requires Lawful(m) && Numeric(t)
    ensures KeepsVal(m, t, StrengthNode(t, underAdd))
  {
    var t1 := Sums(t);
    SumsKeeps(m, t);
    var t2 := Twice(t1, underAdd);
    TwiceKeeps(m, t1, underAdd);
    var t3 := Products(t2);
    ProductsKeeps(m, t2);
    var t4 := Quotients(t3);
    QuotientsKeeps(m, t3);
    PowersKeeps(m, t4);
  }

  /** Strength reduction keeps the value of the tree. */
  lemma StrengthKeeps(m: Math, t: Tree, underAdd: Path -> bool)
    requires Lawful(m) && Numeric(t)
    ensures KeepsVal(m, t, Strength(t, underAdd))
  {
    StrengthVisitorKeeps(m, underAdd);
    PostorderKeeps(m, StrengthVisitor(underAdd), t, []);
  }

  lemma StrengthVisitorKeeps(m: Math, underAdd: Path -> bool)
    requires Lawful(m)
    ensures KeepsValues(m, StrengthVisitor(underAdd))
  {
    forall n, path | Numeric(n) ensures KeepsVal(m, n, StrengthVisitor(underAdd)(n, path)) {
      StrengthNodeKeeps(m, n, underAdd(path));
    }
    forall n, path | IsMux(n) ensures StrengthVisitor(underAdd)(n, path) == n {
      assert StrengthVisitor(underAdd)(n, path) == StrengthNode(n, underAdd(path));
    }
  }
}
