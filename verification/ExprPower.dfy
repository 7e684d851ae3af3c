/** Powers: whole powers as repeated products, and the laws of the power function the rewrites rest on. */
module ExprPower {
  import opened ExprTree
  import opened ExprReal

  predicate Whole(x: real) {
    x.Floor as real == x
  }

  function Power(x: real, n: nat): real {
    if n == 0 then 1.0 else x * Power(x, n - 1)
  }

  // A whole power of a number other than zero.
  function Raise(x: real, n: int): real
    requires x != 0.0
  {
    if n >= 0 then Power(x, n) else PowerNotZero(x, -n); 1.0 / Power(x, -n)
  }

  function WholePower(x: real, n: int): Value {
    if x != 0.0 then Defined(Raise(x, n)) else if n >= 0 then Defined(Power(x, n)) else Undefined
  }

  // The power function: whole powers are repeated products, negative numbers have no others, those of zero are zero
  // or undefined, and those of positive numbers are positive and multiply as powers do.
  ghost predicate Lawful(m: Math) {
    SimpleLaw(m) && PositiveLaw(m) && SumLaw(m) && PowerLaw(m) && ProductLaw(m) && LogLaw(m)
  }

  // The power by cases, where it is one.
  function SimplePower(x: real, y: real): Value {
    if Whole(y) then WholePower(x, y.Floor) else if x == 0.0 && y > 0.0 then Defined(0.0) else Undefined
  }

  ghost predicate SimpleLaw(m: Math) {
    forall x, y {:trigger SimplePower(x, y)} :: Whole(y) || x <= 0.0 ==> m.power(x, y) == SimplePower(x, y)
  }

  ghost predicate PositiveLaw(m: Math) {
    forall x, y :: x > 0.0 ==> m.power(x, y).Defined? && m.power(x, y).value > 0.0
  }

  function Times(a: Value, b: Value): Value {
    if a.Defined? && b.Defined? then Defined(a.value * b.value) else Undefined
  }

  function PowerTwice(m: Math, x: real, a: real, b: real): Value {
    if m.power(x, a).Defined? then m.power(m.power(x, a).value, b) else Undefined
  }

  ghost predicate SumLaw(m: Math) {
    forall x, a, b {:trigger Times(m.power(x, a), m.power(x, b))} ::
      x > 0.0 ==> m.power(x, a + b) == Times(m.power(x, a), m.power(x, b))
  }

  ghost predicate PowerLaw(m: Math) {
    forall x, a, b {:trigger PowerTwice(m, x, a, b)} :: x > 0.0 ==> m.power(x, a * b) == PowerTwice(m, x, a, b)
  }

  ghost predicate ProductLaw(m: Math) {
    forall x, y, a {:trigger Times(m.power(x, a), m.power(y, a))} ::
      x > 0.0 && y > 0.0 ==> m.power(x * y, a) == Times(m.power(x, a), m.power(y, a))
  }

  ghost predicate LogLaw(m: Math) {
    && (forall x :: m.log(m.exp(x)) == Defined(x))
    && (forall x :: m.log(x).Defined? ==> m.exp(m.log(x).value) == x)
  }

  // Natural powers

  lemma {:induction false} PowerNotZero(x: real, n: nat)
    requires x != 0.0
    ensures Power(x, n) != 0.0
  {
    if n > 0 {
      PowerNotZero(x, n - 1);
      NotZero(x, Power(x, n - 1));
    }
  }

  lemma NotZero(x: real, y: real)
    requires x != 0.0 && y != 0.0
    ensures x * y != 0.0
  {
  }

  lemma {:induction false} PowerOfSum(x: real, a: nat, b: nat)
    ensures Power(x, a + b) == Power(x, a) * Power(x, b)
  {
    if a > 0 {
      PowerOfSum(x, a - 1, b);
      Associate(x, Power(x, a - 1), Power(x, b));
    }
  }

  lemma Associate(x: real, y: real, z: real)
    ensures x * (y * z) == (x * y) * z
  {
  }

  lemma {:induction false} PowerOfZero(n: nat)
    ensures Power(0.0, n) == if n == 0 then 1.0 else 0.0
  {
  }

  // Whole powers of a number other than zero

  lemma RaiseStep(x: real, n: int)
    requires x != 0.0
    ensures Raise(x, n + 1) == x * Raise(x, n)
  {
    if n < 0 {
      PowerNotZero(x, -n - 1);
      CancelStep(x, Power(x, -n - 1));
    }
  }

  lemma CancelStep(x: real, p: real)
    requires x != 0.0 && p != 0.0
    ensures x * p != 0.0 && 1.0 / p == x * (1.0 / (x * p))
  {
    NotZero(x, p);
    var q := 1.0 / (x * p);
    assert (x * q) * p == 1.0 by { assert (x * q) * p == q * (x * p); }
  }

  lemma RaiseNotZero(x: real, n: int)
    requires x != 0.0
    ensures Raise(x, n) != 0.0
  {
    PowerNotZero(x, if n >= 0 then n else -n);
    if n < 0 { OneOver(Power(x, -n)); }
  }

  lemma OneOver(p: real)
    requires p != 0.0
    ensures 1.0 / p != 0.0 && p * (1.0 / p) == 1.0
  {
  }

  lemma {:induction false} RaiseUp(x: real, a: int, n: nat)
    requires x != 0.0
    ensures Raise(x, a + n) == Raise(x, a) * Power(x, n)
  {
    if n > 0 {
      RaiseUp(x, a, n - 1);
      RaiseStep(x, a + n - 1);
      Swap3(x, Raise(x, a), Power(x, n - 1));
    }
  }

  lemma Swap3(x: real, y: real, z: real)
    ensures x * (y * z) == y * (x * z)
  {
  }

  // The quotient of two powers, stated over their values to keep their definitions out of the arithmetic.
  lemma RaiseDown(x: real, c: int, n: nat, s: real, r: real, p: real)
    requires x != 0.0 && s == Raise(x, c) && r == Raise(x, c + n) && p == Power(x, n)
    ensures p != 0.0 && r == s * p
  {
    RaiseUp(x, c, n);
    PowerNotZero(x, n);
  }

  lemma RaiseSum(x: real, a: int, b: int)
    requires x != 0.0
    ensures Raise(x, a + b) == Raise(x, a) * Raise(x, b)
  {
    if b >= 0 {
      RaiseUp(x, a, b);
    } else {
      RaiseDrop(x, a, -b);
    }
  }

  lemma RaiseDrop(x: real, a: int, n: int)
    requires x != 0.0 && n > 0
    ensures Raise(x, a - n) == Raise(x, a) * Raise(x, -n)
  {
    var s, r, p := Raise(x, a - n), Raise(x, a), Power(x, n);
    RaiseDown(x, a - n, n, s, r, p);
    MoveAcross(s, r, p);
  }

  lemma MoveAcross(s: real, r: real, p: real)
    requires p != 0.0 && r == s * p
    ensures s == r * (1.0 / p)
  {
    OneOver(p);
    Associate(s, p, 1.0 / p);
  }

  lemma {:induction false} PowerOfRaise(x: real, a: int, n: nat, k: int)
    requires x != 0.0 && k == a * n
    ensures Power(Raise(x, a), n) == Raise(x, k)
  {
    if n > 0 {
      assert k - a == a * (n - 1);
      PowerOfRaise(x, a, n - 1, k - a);
      RaiseSum(x, a, k - a);
    }
  }

  lemma RaisePower(x: real, a: int, b: int)
    requires x != 0.0
    ensures Raise(x, a) != 0.0 && Raise(Raise(x, a), b) == Raise(x, a * b)
  {
    RaiseNotZero(x, a);
    if b >= 0 {
      PowerOfRaise(x, a, b, a * b);
    } else {
      var k := a * -b;
      assert -k == a * b;
      PowerOfRaise(x, a, -b, k);
      RaiseOpposite(x, k);
    }
  }

  lemma RaiseOpposite(x: real, k: int)
    requires x != 0.0
    ensures Raise(x, k) != 0.0 && Raise(x, -k) == 1.0 / Raise(x, k)
  {
    RaiseNotZero(x, k);
    RaiseSum(x, -k, k);
    MoveAcross(Raise(x, -k), 1.0, Raise(x, k));
  }

  lemma {:induction false} PowerOfProduct(x: real, y: real, n: nat)
    ensures Power(x * y, n) == Power(x, n) * Power(y, n)
  {
    if n > 0 {
      PowerOfProduct(x, y, n - 1);
      Swap4(x, y, Power(x, n - 1), Power(y, n - 1));
    }
  }

  lemma Swap4(x: real, y: real, u: real, v: real)
    ensures (x * y) * (u * v) == (x * u) * (y * v)
  {
    assert (x * y) * (u * v) == x * (y * (u * v));
    assert y * (u * v) == u * (y * v);
    assert x * (u * (y * v)) == (x * u) * (y * v);
  }

  lemma RaiseProduct(x: real, y: real, n: int)
    requires x != 0.0 && y != 0.0
    ensures x * y != 0.0 && Raise(x * y, n) == Raise(x, n) * Raise(y, n)
  {
    NotZero(x, y);
    if n >= 0 {
      PowerOfProduct(x, y, n);
    } else {
      PowerOfProduct(x, y, -n);
      PowerNotZero(x, -n);
      PowerNotZero(y, -n);
      OverProduct(Power(x, -n), Power(y, -n));
    }
  }

  lemma OverProduct(p: real, q: real)
    requires p != 0.0 && q != 0.0
    ensures p * q != 0.0 && 1.0 / (p * q) == (1.0 / p) * (1.0 / q)
  {
    NotZero(p, q);
    OneOver(p);
    OneOver(q);
    Swap4(p, q, 1.0 / p, 1.0 / q);
    var s := (1.0 / p) * (1.0 / q);
    assert s * (p * q) == 1.0;
    MoveAcross(s, 1.0, p * q);
  }

  lemma RaiseInverse(x: real, n: int)
    requires x != 0.0
    ensures 1.0 / x != 0.0 && Raise(1.0 / x, n) == Raise(x, -n)
  {
    OneOver(x);
    assert Power(x, 1) == x * Power(x, 0);
    assert Raise(x, -1) == 1.0 / x;
    RaisePower(x, -1, n);
  }

  // Signs of whole powers

  lemma {:induction false} PowerSign(x: real, n: nat)
    requires x > 0.0
    ensures Power(x, n) > 0.0
    ensures Power(-x, n) == if n % 2 == 0 then Power(x, n) else -Power(x, n)
  {
    if n > 0 {
      PowerSign(x, n - 1);
      SignUp(x, Power(x, n - 1));
    }
  }

  lemma SignUp(x: real, y: real)
    requires x > 0.0 && y > 0.0
    ensures x * y > 0.0 && -x * y == -(x * y) && -x * -y == x * y
  {
  }

  lemma RaiseSign(x: real, n: int)
    requires x > 0.0
    ensures Raise(x, n) > 0.0
    ensures Raise(-x, n) == if n % 2 == 0 then Raise(x, n) else -Raise(x, n)
  {
    if n >= 0 {
      PowerSign(x, n);
    } else {
      PowerSign(x, -n);
      OverSign(Power(x, -n));
    }
  }

  lemma OverSign(p: real)
    requires p > 0.0
    ensures 1.0 / p > 0.0 && 1.0 / -p == -(1.0 / p)
  {
  }

  // The power function

  lemma PowerAt(m: Math, x: real, y: real)
    requires SimpleLaw(m) && PositiveLaw(m)
    ensures Whole(y) ==> m.power(x, y) == WholePower(x, y.Floor)
    ensures x == 0.0 ==> m.power(x, y) == ZeroPower(y)
    ensures x < 0.0 && !Whole(y) ==> m.power(x, y) == Undefined
    ensures x > 0.0 ==> m.power(x, y).Defined? && m.power(x, y).value > 0.0
  {
    assert Whole(y) || x <= 0.0 ==> m.power(x, y) == SimplePower(x, y);
    if x == 0.0 && Whole(y) && y >= 0.0 { PowerOfZero(y.Floor); }
  }

  lemma ZeroPowerAt(m: Math, y: real)
    requires SimpleLaw(m) && PositiveLaw(m)
    ensures m.power(0.0, y) == ZeroPower(y)
  {
    PowerAt(m, 0.0, y);
  }

  lemma PowerOfNegative(m: Math, x: real, y: real)
    requires Lawful(m) && x < 0.0 && Whole(y)
    ensures m.power(-x, y).Defined?
    ensures m.power(x, y) == Defined(if y.Floor % 2 == 0 then m.power(-x, y).value else -m.power(-x, y).value)
  {
    PowerAt(m, x, y);
    PowerAt(m, -x, y);
    RaiseSign(-x, y.Floor);
  }

  lemma WholeSum(a: real, b: real)
    requires Whole(a) && Whole(b)
    ensures Whole(a + b) && (a + b).Floor == a.Floor + b.Floor
    ensures Whole(-a) && (-a).Floor == -a.Floor
  {
  }

  lemma WholeProduct(a: real, b: real, p: real)
    requires Whole(a) && Whole(b) && p == a * b
    ensures Whole(p) && p.Floor == a.Floor * b.Floor
  {
    CastProduct(a.Floor, b.Floor);
    assert p == (a.Floor * b.Floor) as real;
  }

  lemma {:induction false} CastProduct(i: int, j: int)
    ensures (i as real) * (j as real) == (i * j) as real
    decreases if j >= 0 then j else -j
  {
    if j > 0 {
      CastProduct(i, j - 1);
      assert (i as real) * (j as real) == (i as real) * ((j - 1) as real) + (i as real);
      assert i * j == i * (j - 1) + i;
    } else if j < 0 {
      CastProduct(i, j + 1);
      assert (i as real) * (j as real) == (i as real) * ((j + 1) as real) - (i as real);
      assert i * j == i * (j + 1) - i;
    }
  }

  /** Powers of one base multiply by adding exponents, wherever both are defined. */
  lemma PowersMultiply(m: Math, x: real, a: real, b: real)
    requires SimpleLaw(m) && PositiveLaw(m) && SumLaw(m)
    ensures Keeps(Times(m.power(x, a), m.power(x, b)), m.power(x, a + b))
  {
    if x > 0.0 {
      PositivePowersMultiply(m, x, a, b);
    } else if x == 0.0 {
      ZeroPowerAt(m, a);
      ZeroPowerAt(m, b);
      ZeroPowerAt(m, a + b);
      ZeroPowersMultiply(a, b, m.power(x, a), m.power(x, b), m.power(x, a + b));
    } else {
      NegativePowersMultiply(m, x, a, b);
    }
  }

  lemma PositivePowersMultiply(m: Math, x: real, a: real, b: real)
    requires SumLaw(m) && x > 0.0
    ensures m.power(x, a + b) == Times(m.power(x, a), m.power(x, b))
  {
  }

  // Zero to a power.
  function ZeroPower(y: real): Value {
    if y == 0.0 then Defined(1.0) else if y > 0.0 then Defined(0.0) else Undefined
  }

  lemma ZeroPowersMultiply(a: real, b: real, u: Value, v: Value, w: Value)
    requires u == ZeroPower(a) && v == ZeroPower(b) && w == ZeroPower(a + b)
    ensures Keeps(Times(u, v), w)
  {
  }

  lemma NegativePowersMultiply(m: Math, x: real, a: real, b: real)
    requires SimpleLaw(m) && PositiveLaw(m) && x < 0.0
    ensures Keeps(Times(m.power(x, a), m.power(x, b)), m.power(x, a + b))
  {
    PowerAt(m, x, a);
    PowerAt(m, x, b);
    PowerAt(m, x, a + b);
    if Whole(a) && Whole(b) {
      WholeSum(a, b);
      WholePowersMultiply(x, a.Floor, b.Floor);
    }
  }

  lemma ZeroTimes(a: Value, b: Value)
    ensures a == Defined(0.0) && b.Defined? ==> Times(a, b) == Defined(0.0)
    ensures a == Defined(1.0) ==> Times(a, b) == b
  {
  }

  lemma WholePowersMultiply(x: real, a: int, b: int)
    requires x != 0.0
    ensures WholePower(x, a + b) == Times(WholePower(x, a), WholePower(x, b))
  {
    RaiseSum(x, a, b);
  }

  /** A power of a power, if the outer exponent is whole or the base is not negative. */
  lemma PowerOfPower(m: Math, x: real, a: real, b: real)
    requires Lawful(m) && (Whole(b) || x >= 0.0)
    ensures Keeps(PowerTwice(m, x, a, b), m.power(x, a * b))
  {
    PowerAt(m, x, a);
    PowerAt(m, x, a * b);
    if x < 0.0 && Whole(a) {
      PowerAt(m, m.power(x, a).value, b);
      WholeProduct(a, b, a * b);
      RaisePower(x, a.Floor, b.Floor);
    } else if x == 0.0 {
      PowerOfPowerZero(m, a, b);
    }
  }

  lemma PowerOfPowerZero(m: Math, a: real, b: real)
    requires Lawful(m)
    ensures Keeps(PowerTwice(m, 0.0, a, b), m.power(0.0, a * b))
  {
    PowerAt(m, 0.0, a);
    PowerAt(m, 0.0, b);
    PowerAt(m, 0.0, a * b);
    if a == 0.0 || b == 0.0 {
      assert a * b == 0.0;
      if a == 0.0 { PowerOfOne(m, b); }
    } else if a > 0.0 && b > 0.0 {
      assert a * b > 0.0;
    }
  }

  lemma PowerOfOne(m: Math, b: real)
    requires Lawful(m)
    ensures m.power(1.0, b) == Defined(1.0)
  {
    PowerAt(m, 1.0, 0.0);
    assert 0.0 * b == 0.0;
    assert m.power(1.0, 0.0 * b) == PowerTwice(m, 1.0, 0.0, b);
  }

  lemma WholePowerOfTimes(x: real, y: real, a: int)
    requires x != 0.0 && y != 0.0
    ensures WholePower(x * y, a) == Times(WholePower(x, a), WholePower(y, a))
  {
    RaiseProduct(x, y, a);
  }

  /** A power of a product, if the exponent is whole or both factors are not negative. */
  lemma PowerOfTimes(m: Math, x: real, y: real, a: real)
    requires SimpleLaw(m) && PositiveLaw(m) && ProductLaw(m) && (Whole(a) || (x >= 0.0 && y >= 0.0))
    ensures Keeps(m.power(x * y, a), Times(m.power(x, a), m.power(y, a)))
  {
    PowerAt(m, x, a);
    PowerAt(m, y, a);
    if x == 0.0 || y == 0.0 {
      assert x * y == 0.0;
      PowerAt(m, 0.0, a);
      ZeroTimes(m.power(x, a), m.power(y, a));
      ZeroTimes(m.power(y, a), m.power(x, a));
    } else if Whole(a) {
      PowerAt(m, x * y, a);
      WholePowerOfTimes(x, y, a.Floor);
    } else {
      assert m.power(x * y, a) == Times(m.power(x, a), m.power(y, a));
    }
  }

  /** A power of a quotient, if the exponent is whole or neither part is negative. */
  lemma PowerOfQuotient(m: Math, x: real, y: real, a: real)
    requires Lawful(m) && y != 0.0 && (Whole(a) || (x >= 0.0 && y > 0.0))
    ensures Keeps(m.power(x / y, a), Times(m.power(x, a), m.power(y, -a)))
  {
    var r := 1.0 / y;
    OverIsTimes(x, y, r);
    PowerOfTimes(m, x, r, a);
    SameBase(m, x / y, x * r, a);
    PowerOfInverse(m, y, a);
    SameBase(m, r, 1.0 / y, a);
  }

  lemma SameBase(m: Math, x: real, y: real, a: real)
    requires x == y
    ensures m.power(x, a) == m.power(y, a)
  {
  }

  lemma OverIsTimes(x: real, y: real, r: real)
    requires y != 0.0 && r == 1.0 / y
    ensures x / y == x * r && (y > 0.0 ==> r > 0.0)
  {
    OneOver(y);
    Associate(x, r, y);
    assert r * y == 1.0;
    QuotientIs(x, y, x * r);
  }

  lemma QuotientIs(x: real, y: real, q: real)
    requires y != 0.0
    ensures q == x / y <==> q * y == x
  {
  }

  lemma PowerOfInverse(m: Math, y: real, a: real)
    requires Lawful(m) && y != 0.0 && (Whole(a) || y > 0.0)
    ensures m.power(1.0 / y, a) == m.power(y, -a)
  {
    if Whole(a) {
      OneOver(y);
      WholeSum(a, a);
      RaiseInverse(y, a.Floor);
      PowerAt(m, 1.0 / y, a);
      PowerAt(m, y, -a);
    } else {
      PowerAt(m, y, -1.0);
      assert Raise(y, -1) == 1.0 / y by { assert Power(y, 1) == y * Power(y, 0); }
      assert -1.0 * a == -a;
      assert m.power(y, -1.0 * a) == PowerTwice(m, y, -1.0, a);
    }
  }

  /** A power of a product may be taken factor by factor exactly when the exponent is whole, no factor is negative, or
      the power is undefined. */
  lemma PowerOfTimesIff(m: Math, x: real, y: real, a: real)
    requires Lawful(m)
    ensures Keeps(m.power(x * y, a), Times(m.power(x, a), m.power(y, a))) <==>
            Whole(a) || (x >= 0.0 && y >= 0.0) || m.power(x * y, a).Undefined?
  {
    if Whole(a) || (x >= 0.0 && y >= 0.0) {
      PowerOfTimes(m, x, y, a);
    } else {
      PowerAt(m, if x < 0.0 then x else y, a);
    }
  }

  /** A power of a quotient may be taken part by part exactly when the exponent is whole, neither part is negative, or the
      power is undefined. */
  lemma PowerOfQuotientIff(m: Math, x: real, y: real, a: real)
    requires Lawful(m) && y != 0.0
    ensures Keeps(m.power(x / y, a), Times(m.power(x, a), m.power(y, -a))) <==>
            Whole(a) || (x >= 0.0 && y > 0.0) || m.power(x / y, a).Undefined?
  {
    if Whole(a) || (x >= 0.0 && y > 0.0) {
      PowerOfQuotient(m, x, y, a);
    } else {
      PowerAt(m, x, a);
      PowerAt(m, y, -a);
      if Whole(-a) { WholeSum(-a, -a); }
    }
  }

  // The sign of a power of a power

  predicate Even(x: real) {
    Whole(x) && x.Floor % 2 == 0
  }

  // The inner power loses the sign of the base and the product `e` of the exponents does not.
  predicate LosesSign(x: real, y: real, e: real) {
    x < 0.0 && Even(y) && !Even(e)
  }

  /** Multiplying the exponents keeps a power of a power exactly when no sign is lost. */
  lemma PowerPowerIff(m: Math, x: real, y: real, z: real, e: real)
    requires Lawful(m) && e == y * z
    ensures Keeps(PowerTwice(m, x, y, z), m.power(x, e)) <==> !LosesSign(x, y, e)
  {
    if x >= 0.0 || Whole(z) {
      PowerOfPower(m, x, y, z);
      if LosesSign(x, y, e) {
        WholeProduct(y, z, e);
        EvenTimes(y.Floor, z.Floor);
      }
    } else if !Even(y) {
      PowerAt(m, x, y);
      if Whole(y) {
        PowerOfNegative(m, x, y);
        PowerAt(m, -x, y);
        PowerAt(m, m.power(x, y).value, z);
      }
    } else {
      EvenInside(m, x, y, z, e);
    }
  }

  lemma EvenTimes(i: int, j: int)
    requires i % 2 == 0
    ensures i * j % 2 == 0
  {
    var k := i / 2;
    assert i * j == 2 * (k * j);
  }

  lemma EvenInside(m: Math, x: real, y: real, z: real, e: real)
    requires Lawful(m) && x < 0.0 && Even(y) && e == y * z
    ensures Keeps(PowerTwice(m, x, y, z), m.power(x, e)) <==> Even(e)
  {
    PowerOfNegative(m, x, y);
    assert m.power(-x, e) == PowerTwice(m, -x, y, z);
    PowerAt(m, -x, e);
    if Whole(e) { PowerOfNegative(m, x, e); } else { PowerAt(m, x, e); }
  }
}
