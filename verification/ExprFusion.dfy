/** The fusion pass: products that meet a sum become fused multiply-adds. */
module ExprFusion {
  import opened ExprTree
  import opened ExprValueNumber
  import opened ExprReal
  import opened ExprPower
  import opened ExprRewrite
  import opened ExprStrength

  // How many nodes carry a number.
  function RefCount(t: Tree, vn: int): nat {
    if t.Nil? then 0
    else (if !t.op.code.Mux? && t.vn == vn then 1 else 0) + RefCount(t.left, vn) + RefCount(t.right, vn)
  }

  // A part may be folded into a node unless only the part is shared.
  predicate CanElide(refs: int -> nat, t: Tree, part: Tree)
    requires t.Node? && part.Node?
  {
    refs(t.vn) > 1 || refs(part.vn) <= 1
  }

  function AsMux(t: Tree): (r: Tree)
    requires t.Node?
    ensures r.Node?
  {
    t.(op := Op(Mux, U(0)))
  }

  function FuseRight(t: Tree, kind: nat): Tree
    requires t.Node? && t.right.Node?
  {
    Node(Op(Fma, U(kind)), t.vn, t.left, AsMux(t.right))
  }

  // a + (b * c)
  function AddProduct(t: Tree, refs: int -> nat): Tree {
    if Is(t, Add) && Is(t.right, Mul) && CanElide(refs, t, t.right) then FuseRight(t, FMADD) else t
  }

  // (b * c) + a
  function ProductAdd(t: Tree, refs: int -> nat): Tree {
    if Is(t, Add) && Is(t.left, Mul) && CanElide(refs, t, t.left) && t.right.Node? then
      FuseRight(SwapChildren(t), FMADD)
    else t
  }

  // a - (b * c)
  function MinusProduct(t: Tree, refs: int -> nat): Tree {
    if Is(t, Sub) && Is(t.right, Mul) && CanElide(refs, t, t.right) then FuseRight(t, FNMADD) else t
  }

  // (b * c) - a
  function ProductMinus(t: Tree, refs: int -> nat): Tree {
    if Is(t, Sub) && Is(t.left, Mul) && CanElide(refs, t, t.left) && t.right.Node? then
      FuseRight(SwapChildren(t), FMSUB)
    else t
  }

  function Scaled(t: Tree, factor: real): Tree
    requires t.Node? && t.op.imm.F?
  {
    t.(op := Op(Constant, F(t.op.imm.f * factor)))
  }

  // (a + b) * c for constants b and c
  function Distribute(t: Tree, refs: int -> nat): Tree {
    if Is(t, Mul) && (Is(t.left, Add) || Is(t.left, Sub)) && IsConstant(t.right) && IsConstant(t.left.right) &&
       CanElide(refs, t, t.left) && t.right.op.imm.F? && t.left.right.op.imm.F? then
      var s := SwapLeftRightWithRight(t.(op := t.left.op, left := t.left.(op := t.op)));
      s.(right := Scaled(s.right, s.left.right.op.imm.f))
    else t
  }

  function Opposite(kind: nat): nat {
    if kind == FMADD then FNMSUB
    else if kind == FMSUB then FNMADD
    else if kind == FNMADD then FMSUB
    else if kind == FNMSUB then FMADD
    else kind
  }

  // -fma
  function MinusFused(t: Tree, refs: int -> nat): Tree {
    if Is(t, Neg) && Is(t.left, Fma) && CanElide(refs, t, t.left) && t.left.op.imm.U? then
      t.left.(vn := t.vn, op := Op(Fma, U(Opposite(t.left.op.imm.u))))
    else t
  }

  function FusionNode(t: Tree, refs: int -> nat): Tree {
    if IsMux(t) then t
    else
      var sums := AddProduct(t, refs);
      var sums := ProductAdd(sums, refs);
      var differences := MinusProduct(sums, refs);
      var differences := ProductMinus(differences, refs);
      MinusFused(Distribute(differences, refs), refs)
  }

  function FusionVisitor(refs: int -> nat): (Tree, Path) -> Tree {
    (n, path) => FusionNode(n, refs)
  }

  // The tree is numbered and its numbers counted before the walk.
  function Fusion(t: Tree): Tree {
    var numbered := ExprValueNumber.Number(t, []).0;
    Postorder(FusionVisitor(vn => RefCount(numbered, vn)), numbered, [])
  }

  // The value of a fused node.
  lemma FuseRightVal(m: Math, t: Tree, kind: nat)
    requires Numeric(t) && IsArithmetic(t.op.code) && Is(t.right, Mul) && kind < 4
    ensures Numeric(FuseRight(t, kind)) && Numeric(t.right.left) && Numeric(t.right.right)
    ensures Val(m, FuseRight(t, kind)) ==
            FusedVal(m, kind, Val(m, t.left), Val(m, t.right.left), Val(m, t.right.right))
    ensures Val(m, t.right) == ValOf(m, Mul, Val(m, t.right.left), Val(m, t.right.right))
  {
    BinaryVal(m, t.right);
  }

  function FusedVal(m: Math, kind: nat, a: Value, b: Value, c: Value): Value {
    Triple(m, Op(Fma, U(kind)), a, b, c)
  }

  /** The four signs: each fused form is the sum or difference it replaces. */
  lemma FusedForms(m: Math, a: Value, b: Value, c: Value)
    ensures ValOf(m, Add, a, ValOf(m, Mul, b, c)) == FusedVal(m, FMADD, a, b, c)
    ensures ValOf(m, Add, ValOf(m, Mul, b, c), a) == FusedVal(m, FMADD, a, b, c)
    ensures ValOf(m, Sub, a, ValOf(m, Mul, b, c)) == FusedVal(m, FNMADD, a, b, c)
    ensures ValOf(m, Sub, ValOf(m, Mul, b, c), a) == FusedVal(m, FMSUB, a, b, c)
  {
  }

  lemma AddProductKeeps(m: Math, t: Tree, refs: int -> nat)
    requires Numeric(t)
    ensures KeepsVal(m, t, AddProduct(t, refs))
  {
    if AddProduct(t, refs) != t {
      BinaryVal(m, t);
      FuseRightVal(m, t, FMADD);
      FusedForms(m, Val(m, t.left), Val(m, t.right.left), Val(m, t.right.right));
    }
  }

  lemma ProductAddKeeps(m: Math, t: Tree, refs: int -> nat)
    requires Numeric(t)
    ensures KeepsVal(m, t, ProductAdd(t, refs))
  {
    if ProductAdd(t, refs) != t {
      BinaryVal(m, t);
      FuseRightVal(m, SwapChildren(t), FMADD);
      FusedForms(m, Val(m, t.right), Val(m, t.left.left), Val(m, t.left.right));
    }
  }

  lemma MinusProductKeeps(m: Math, t: Tree, refs: int -> nat)
    requires Numeric(t)
    ensures KeepsVal(m, t, MinusProduct(t, refs))
  {
    if MinusProduct(t, refs) != t {
      BinaryVal(m, t);
      FuseRightVal(m, t, FNMADD);
      FusedForms(m, Val(m, t.left), Val(m, t.right.left), Val(m, t.right.right));
    }
  }

  lemma ProductMinusKeeps(m: Math, t: Tree, refs: int -> nat)
    requires Numeric(t)
    ensures KeepsVal(m, t, ProductMinus(t, refs))
  {
    if ProductMinus(t, refs) != t {
      BinaryVal(m, t);
      FuseRightVal(m, SwapChildren(t), FMSUB);
      FusedForms(m, Val(m, t.right), Val(m, t.left.left), Val(m, t.left.right));
    }
  }

  // A constant times a sum, and distributed over it.
  function TimesConstant(m: Math, code: OpCode, a: Value, b: real, c: real): Value {
    ValOf(m, Mul, ValOf(m, code, a, Defined(b)), Defined(c))
  }

  function Distributed(m: Math, code: OpCode, a: Value, b: real, c: real): Value {
    ValOf(m, code, ValOf(m, Mul, a, Defined(c)), Defined(b * c))
  }

  lemma DistributeKeeps(m: Math, t: Tree, refs: int -> nat)
    requires Numeric(t)
    ensures KeepsVal(m, t, Distribute(t, refs))
  {
    if Distribute(t, refs) != t {
      var b, c := t.left.right.op.imm.f, t.right.op.imm.f;
      DistributeShape(t, refs);
      FactorsVal(m, t, b, c);
      DistributedVal(m, t, t.left.op, t.left.left, t.left.vn, t.left.right, t.right, b, c);
      DistributeValue(m, t.left.op.code, Val(m, t.left.left), b, c);
    }
  }

  lemma DistributeShape(t: Tree, refs: int -> nat)
    requires Distribute(t, refs) != t
    ensures Distribute(t, refs) ==
            Node(t.left.op, t.vn, Node(t.op, t.left.vn, t.left.left, t.right), Scaled(t.left.right, t.right.op.imm.f))
  {
  }

  lemma FactorsVal(m: Math, t: Tree, b: real, c: real)
    requires Numeric(t) && Is(t, Mul) && (Is(t.left, Add) || Is(t.left, Sub)) && IsNumber(t.left.right, b) && IsNumber(t.right, c)
    ensures Numeric(t.left.left) && Numeric(t.left.right) && Numeric(t.right)
    ensures Val(m, t) == TimesConstant(m, t.left.op.code, Val(m, t.left.left), b, c)
  {
    BinaryVal(m, t);
    BinaryVal(m, t.left);
    NumberVal(m, t.right, c);
    NumberVal(m, t.left.right, b);
  }

  // The value of (a * c) + (b * c) for constants b and c.
  lemma DistributedVal(m: Math, t: Tree, op: Op, a: Tree, vn: int, y: Tree, z: Tree, b: real, c: real)
    requires Is(t, Mul) && NumericOp(t.op) && NumericOp(op) && (op.code.Add? || op.code.Sub?) && Numeric(a)
    requires Numeric(y) && IsNumber(y, b) && Numeric(z) && IsNumber(z, c)
    ensures var s := Node(op, t.vn, Node(t.op, vn, a, z), Scaled(y, c));
            Numeric(s) && Val(m, s) == Distributed(m, op.code, Val(m, a), b, c)
  {
    var product := Node(t.op, vn, a, z);
    NumberVal(m, z, c);
    ScaledVal(m, y, b, c);
    BinaryVal(m, product);
    BinaryVal(m, Node(op, t.vn, product, Scaled(y, c)));
  }

  lemma ScaledVal(m: Math, t: Tree, b: real, c: real)
    requires Numeric(t) && IsNumber(t, b)
    ensures Numeric(Scaled(t, c)) && Val(m, Scaled(t, c)) == Defined(b * c)
  {
    NumberVal(m, Scaled(t, c), b * c);
  }

  lemma DistributeValue(m: Math, code: OpCode, a: Value, b: real, c: real)
    requires code.Add? || code.Sub?
    ensures TimesConstant(m, code, a, b, c) == Distributed(m, code, a, b, c)
  {
    if a.Defined? { DistributeReal(a.value, b, c); }
  }

  lemma DistributeReal(a: real, b: real, c: real)
    ensures (a + b) * c == a * c + b * c && (a - b) * c == a * c - b * c
  {
  }

  lemma MinusFusedKeeps(m: Math, t: Tree, refs: int -> nat)
    requires Numeric(t)
    ensures KeepsVal(m, t, MinusFused(t, refs))
  {
    if MinusFused(t, refs) != t {
      var f := t.left;
      OppositeValue(m, f.op.imm.u, Val(m, f.left), Val(m, f.right.left), Val(m, f.right.right));
    }
  }

  lemma OppositeValue(m: Math, kind: nat, a: Value, b: Value, c: Value)
    requires kind < 4
    ensures Opposite(kind) < 4
    ensures Unary(m, Neg, FusedVal(m, kind, a, b, c)) == FusedVal(m, Opposite(kind), a, b, c)
  {
  }

  lemma FusionNodeKeeps(m: Math, t: Tree, refs: int -> nat)
    requires Numeric(t)
    ensures KeepsVal(m, t, FusionNode(t, refs))
  {
    var t1 := AddProduct(t, refs);
    AddProductKeeps(m, t, refs);
    var t2 := ProductAdd(t1, refs);
    ProductAddKeeps(m, t1, refs);
    var t3 := MinusProduct(t2, refs);
    MinusProductKeeps(m, t2, refs);
    var t4 := ProductMinus(t3, refs);
    ProductMinusKeeps(m, t3, refs);
    var t5 := Distribute(t4, refs);
    DistributeKeeps(m, t4, refs);
    MinusFusedKeeps(m, t5, refs);
  }

  lemma FusionVisitorKeeps(m: Math, refs: int -> nat)
    ensures KeepsValues(m, FusionVisitor(refs))
  {
    forall n: Tree, path: Path | Numeric(n) ensures KeepsVal(m, n, FusionVisitor(refs)(n, path)) {
      FusionNodeKeeps(m, n, refs);
    }
    forall n: Tree, path: Path | IsMux(n) ensures FusionVisitor(refs)(n, path) == n {
      assert FusionVisitor(refs)(n, path) == FusionNode(n, refs);
    }
  }

  lemma NumberKeepsVal(m: Math, t: Tree)
    requires Numeric(t)
    ensures var r := ExprValueNumber.Number(t, []).0;
            Numeric(r) && Val(m, r) == Val(m, t)
  {
    NumericIsWellFormed(t);
    NumberIsFaithful(t, []);
    ValStrip(m, ExprValueNumber.Number(t, []).0, t);
  }

  /** Fusion keeps the value of the tree. */
  lemma FusionKeeps(m: Math, t: Tree)
    requires Numeric(t)
    ensures KeepsVal(m, t, Fusion(t))
  {
    var numbered := ExprValueNumber.Number(t, []).0;
    NumberKeepsVal(m, t);
    var visit := FusionVisitor(vn => RefCount(numbered, vn));
    FusionVisitorKeeps(m, vn => RefCount(numbered, vn));
    PostorderKeeps(m, visit, numbered, []);
  }
}
