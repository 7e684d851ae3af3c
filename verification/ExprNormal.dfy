/** What cleanup, the comparison pass and fusion leave behind: each rewrites a tree exactly when something it looks for is
    in it. The trees are described by their structure alone. */
module ExprNormal {
  import opened ExprTree
  import opened ExprValueNumber
  import opened ExprReal
  import opened ExprPower
  import opened ExprRewrite
  import opened ExprComparison
  import opened ExprStrength
  import opened ExprFusion

  // Cleanup

  lemma DropShrinks(t: Tree)
    ensures var r := CleanupNode(t);
            && Size(r) <= Size(t)
            && (r == t || Size(r) < Size(t))
            && (Numeric(t) ==> (HasNeutral(t) <==> Size(r) < Size(t)))
  {
    var t1 := DropZero(t);
    assert t1 == t || Size(t1) < Size(t);
    var t2 := DropOne(t1);
    assert t2 == t1 || Size(t2) < Size(t1);
    var t3 := DropPower(t2);
    assert t3 == t2 || Size(t3) < Size(t2);
    if Numeric(t) && HasNeutral(t) { NeutralHasLeft(t, t); }
  }

  lemma {:induction false} CleanupStaysIff(t: Tree, path: Path)
    requires NumericPart(t)
    ensures Stays(CleanupVisitor(), t, path) <==> NoNeutral(t)
  {
    if t.Node? {
      CleanupStaysIff(t.left, path + [false]);
      CleanupStaysIff(t.right, path + [true]);
      DropShrinks(t);
      assert CleanupVisitor()(t, path) == CleanupNode(t);
    }
  }

  /** The cleanup pass rewrites a tree exactly when a neutral operand is in it. */
  lemma CleanupRewritesIff(t: Tree)
    requires Numeric(t)
    ensures Rewrites(CleanupVisitor(), t, []) <==> !NoNeutral(t)
  {
    RewritesIff(CleanupVisitor(), t, []);
    CleanupStaysIff(t, []);
  }

  // Comparisons

  // A comparison of two identical operands; a ternary of two identical branches; a ternary that chooses between the two
  // operands of its comparison, which is not one for equality; or a strict comparison of which only the sign is used.
  predicate IsDecided(t: Tree) {
    IsComparisonOf(t) && Strip(t.left) == Strip(t.right)
  }

  predicate HasSameBranches(t: Tree) {
    HasBranches(t) && Strip(t.right.left) == Strip(t.right.right)
  }

  predicate IsExtreme(t: Tree) {
    HasBranches(t) && IsComparisonOf(t.left) && t.left.op.imm.u != EQ && t.left.op.imm.u != NEQ &&
    var a, b, x, y := Strip(t.left.left), Strip(t.left.right), Strip(t.right.left), Strip(t.right.right);
    (a == x && b == y) || (a == y && b == x)
  }

  predicate IsSign(t: Tree, underLogic: bool) {
    IsComparisonOf(t) && underLogic && (t.op.imm.u == LT || t.op.imm.u == NLE)
  }

  predicate NoComparisons(t: Tree, underLogic: bool) {
    t.Nil? || (
      && !IsDecided(t) && !HasSameBranches(t) && !IsExtreme(t) && !IsSign(t, underLogic)
      && NoComparisons(t.left, IsLogic(t.op.code)) && NoComparisons(t.right, IsLogic(t.op.code)))
  }

  lemma NumberIffSame(numbered: seq<Tree>, a: Tree, b: Tree)
    requires Canonical(numbered) && Faithful(a, numbered) && Faithful(b, numbered)
    requires a.Node? && b.Node? && !IsMux(a) && !IsMux(b)
    ensures a.vn == b.vn <==> Strip(a) == Strip(b)
  {
  }

  lemma ComparisonNodeIff(numbered: seq<Tree>, t: Tree, underLogic: bool)
    requires Canonical(numbered) && Faithful(t, numbered) && Numeric(t)
    ensures ComparisonNode(t, underLogic).changed <==>
            IsDecided(t) || HasSameBranches(t) || IsExtreme(t) || IsSign(t, underLogic)
    ensures ComparisonNode(t, underLogic).changed <==> ComparisonNode(t, underLogic).node != t
  {
    if IsComparisonOf(t) {
      NumberIffSame(numbered, t.left, t.right);
    } else if HasBranches(t) {
      NumberIffSame(numbered, t.right.left, t.right.right);
      BranchIsOther(t);
      if IsComparisonOf(t.left) { ExtremeIff(numbered, t); }
    }
  }

  lemma BranchIsOther(t: Tree)
    requires HasBranches(t)
    ensures Replace(t, t.right.left) != t
  {
    assert Size(t.right.left) < Size(t);
    assert Size(Replace(t, t.right.left)) == Size(t.right.left);
  }

  lemma NumericIsNoMux(t: Tree)
    requires Numeric(t)
    ensures !IsMux(t)
  {
  }

  lemma ExtremeParts(t: Tree)
    requires Numeric(t) && HasBranches(t) && IsComparisonOf(t.left)
    ensures !IsMux(t.left.left) && !IsMux(t.left.right) && !IsMux(t.right.left) && !IsMux(t.right.right)
  {
    assert Numeric(t.left) && Numeric(t.right.left) && Numeric(t.right.right);
    assert Numeric(t.left.left) && Numeric(t.left.right);
    NumericIsNoMux(t.left.left);
    NumericIsNoMux(t.left.right);
    NumericIsNoMux(t.right.left);
    NumericIsNoMux(t.right.right);
  }

  lemma ExtremeIff(numbered: seq<Tree>, t: Tree)
    requires Canonical(numbered) && Faithful(t, numbered) && Numeric(t) && HasBranches(t) && IsComparisonOf(t.left)
    ensures IsExtreme(t) <==> SameTerms(t) && t.left.op.imm.u != EQ && t.left.op.imm.u != NEQ
  {
    var a, b, x, y := t.left.left, t.left.right, t.right.left, t.right.right;
    ExtremeParts(t);
    NumberIffSame(numbered, a, x);
    NumberIffSame(numbered, b, y);
    NumberIffSame(numbered, a, y);
    NumberIffSame(numbered, b, x);
  }

  lemma {:induction false} ComparisonWalkIff(numbered: seq<Tree>, t: Tree, underLogic: bool)
    requires Canonical(numbered) && Faithful(t, numbered) && NumericPart(t)
    ensures ComparisonWalk(t, underLogic) == t <==> NoComparisons(t, underLogic)
  {
    if t.Node? {
      if Numeric(t) { ComparisonNodeIff(numbered, t, underLogic); }
      if !ComparisonNode(t, underLogic).changed {
        ComparisonWalkIff(numbered, t.left, IsLogic(t.op.code));
        ComparisonWalkIff(numbered, t.right, IsLogic(t.op.code));
      }
    }
  }

  lemma {:induction false} NoComparisonsStrip(a: Tree, b: Tree, underLogic: bool)
    requires Strip(a) == Strip(b)
    ensures NoComparisons(a, underLogic) <==> NoComparisons(b, underLogic)
  {
    if a.Node? {
      NoComparisonsStrip(a.left, b.left, IsLogic(a.op.code));
      NoComparisonsStrip(a.right, b.right, IsLogic(a.op.code));
      SameBelow(a, b);
    }
  }

  // Equal structure, down to the second level.
  lemma SameBelow(a: Tree, b: Tree)
    requires Strip(a) == Strip(b) && a.Node?
    ensures b.Node? && a.op == b.op && Strip(a.left) == Strip(b.left) && Strip(a.right) == Strip(b.right)
    ensures a.left.Node? ==> b.left.Node? && a.left.op == b.left.op &&
                             Strip(a.left.left) == Strip(b.left.left) && Strip(a.left.right) == Strip(b.left.right)
    ensures a.right.Node? ==> b.right.Node? && a.right.op == b.right.op &&
                              Strip(a.right.left) == Strip(b.right.left) && Strip(a.right.right) == Strip(b.right.right)
  {
  }

  /** The comparison pass rewrites a tree exactly when one of these is in it. */
  lemma ComparisonsIff(t: Tree)
    requires Numeric(t)
    ensures Comparisons(t) == ExprValueNumber.Number(t, []).0 <==> NoComparisons(t, false)
  {
    NumericIsWellFormed(t);
    NumberIsFaithful(t, []);
    var (root, numbered) := ExprValueNumber.Number(t, []);
    NumericStrip(root, t);
    ComparisonWalkIff(numbered, root, false);
    NoComparisonsStrip(root, t, false);
  }

  lemma {:induction false} NumericStrip(a: Tree, b: Tree)
    requires Strip(a) == Strip(b) && Numeric(b)
    ensures Numeric(a)
  {
    if Operands(b.op.code) >= 1 { NumericStrip(a.left, b.left); }
    if Operands(b.op.code) == 2 { NumericStrip(a.right, b.right); }
    if Operands(b.op.code) == 3 {
      NumericStrip(a.right.left, b.right.left);
      NumericStrip(a.right.right, b.right.right);
    }
  }

  // Fusion

  // How often a tree has a part of this structure.
  function Copies(t: Tree, part: Tree): nat {
    if t.Nil? then 0
    else (if !IsMux(t) && Strip(t) == Strip(part) then 1 else 0) + Copies(t.left, part) + Copies(t.right, part)
  }

  // A part may be made one with the node over it: the node is used more than once itself, or the part is not.
  predicate MayElide(root: Tree, t: Tree, part: Tree) {
    Copies(root, t) > 1 || Copies(root, part) <= 1
  }

  // A sum or difference over a product; a constant times a sum with a constant; a negation over a fused operation.
  predicate IsUnfused(root: Tree, t: Tree) {
    || ((Is(t, Add) || Is(t, Sub)) && Is(t.right, Mul) && MayElide(root, t, t.right))
    || ((Is(t, Add) || Is(t, Sub)) && Is(t.left, Mul) && MayElide(root, t, t.left))
    || (Is(t, Mul) && (Is(t.left, Add) || Is(t.left, Sub)) && IsConstant(t.right) && IsConstant(t.left.right)
        && MayElide(root, t, t.left))
    || (Is(t, Neg) && Is(t.left, Fma) && MayElide(root, t, t.left))
  }

  predicate NoneUnfused(root: Tree, t: Tree) {
    t.Nil? || (!IsUnfused(root, t) && NoneUnfused(root, t.left) && NoneUnfused(root, t.right))
  }

  /** The number of a part counts its copies. */
  lemma {:induction false} RefCountIsCopies(numbered: seq<Tree>, t: Tree, part: Tree)
    requires Canonical(numbered) && Faithful(t, numbered) && Faithful(part, numbered) && part.Node? && !IsMux(part)
    ensures RefCount(t, part.vn) == Copies(t, part)
  {
    if t.Node? {
      RefCountIsCopies(numbered, t.left, part);
      RefCountIsCopies(numbered, t.right, part);
      if !IsMux(t) { NumberIffSame(numbered, t, part); }
    }
  }

  lemma ElideIff(numbered: seq<Tree>, root: Tree, t: Tree, part: Tree)
    requires Canonical(numbered) && Faithful(root, numbered) && Faithful(t, numbered) && Faithful(part, numbered)
    requires t.Node? && !IsMux(t) && part.Node? && !IsMux(part)
    ensures CanElide(vn => RefCount(root, vn), t, part) <==> MayElide(root, t, part)
  {
    RefCountIsCopies(numbered, root, t);
    RefCountIsCopies(numbered, root, part);
  }

  // A node that is rewritten is of another operator afterwards.
  lemma FusedIsOther(t: Tree, refs: int -> nat)
    ensures FusionNode(t, refs) == t || (t.Node? && FusionNode(t, refs).Node? && FusionNode(t, refs).op.code != t.op.code)
  {
  }

  lemma FusionNodeIff(numbered: seq<Tree>, root: Tree, t: Tree)
    requires Canonical(numbered) && Faithful(root, numbered) && Faithful(t, numbered) && Numeric(t)
    ensures FusionNode(t, vn => RefCount(root, vn)) == t <==> !IsUnfused(root, t)
  {
    FusesIff(t, vn => RefCount(root, vn));
    if t.left.Node? && !IsMux(t.left) { ElideIff(numbered, root, t, t.left); }
    if t.right.Node? && !IsMux(t.right) { ElideIff(numbered, root, t, t.right); }
  }

  // The rules of a node, by its operator.
  lemma FusesIff(t: Tree, refs: int -> nat)
    requires Numeric(t)
    ensures FusionNode(t, refs) != t <==>
            || ((Is(t, Add) || Is(t, Sub)) && Is(t.right, Mul) && CanElide(refs, t, t.right))
            || ((Is(t, Add) || Is(t, Sub)) && Is(t.left, Mul) && CanElide(refs, t, t.left))
            || (Is(t, Mul) && (Is(t.left, Add) || Is(t.left, Sub)) && IsConstant(t.right) && IsConstant(t.left.right)
                && CanElide(refs, t, t.left))
            || (Is(t, Neg) && Is(t.left, Fma) && CanElide(refs, t, t.left))
  {
    if Is(t, Add) || Is(t, Sub) {
      SumFusesIff(t, refs);
    } else if Is(t, Mul) {
      ProductFusesIff(t, refs);
    } else {
      assert MinusProduct(ProductAdd(AddProduct(t, refs), refs), refs) == t;
    }
  }

  lemma SumFusesIff(t: Tree, refs: int -> nat)
    requires Numeric(t) && (Is(t, Add) || Is(t, Sub))
    ensures FusionNode(t, refs) != t <==>
            (Is(t.right, Mul) && CanElide(refs, t, t.right)) || (Is(t.left, Mul) && CanElide(refs, t, t.left))
  {
    assert Numeric(t.left) && Numeric(t.right);
    if Is(t.right, Mul) && CanElide(refs, t, t.right) {
      assert FusionNode(t, refs) == FuseRight(t, if Is(t, Add) then FMADD else FNMADD);
    } else if Is(t.left, Mul) && CanElide(refs, t, t.left) {
      assert FusionNode(t, refs) == FuseRight(SwapChildren(t), if Is(t, Add) then FMADD else FMSUB);
    } else {
      assert FusionNode(t, refs) == t;
    }
  }

  // The fused operation of a sum or difference and one of its operands.
  function FusedWith(t: Tree, kind: nat, other: Tree, product: Tree): Tree
    requires t.Node? && product.Node?
  {
    Node(Op(Fma, U(kind)), t.vn, other, Node(Op(Mux, U(0)), product.vn, product.left, product.right))
  }

  /** A sum or difference over a product that may be elided becomes the fused operation of its other operand and the
      operands of the product, the right one if both are products. */
  lemma SumFusesTo(t: Tree, refs: int -> nat)
    requires Numeric(t) && (Is(t, Add) || Is(t, Sub))
    ensures Is(t.right, Mul) && CanElide(refs, t, t.right) ==>
              FusionNode(t, refs) == FusedWith(t, if Is(t, Add) then FMADD else FNMADD, t.left, t.right)
    ensures Is(t.left, Mul) && CanElide(refs, t, t.left) && !(Is(t.right, Mul) && CanElide(refs, t, t.right)) ==>
              FusionNode(t, refs) == FusedWith(t, if Is(t, Add) then FMADD else FMSUB, t.right, t.left)
  {
    assert Numeric(t.left) && Numeric(t.right);
  }

  lemma ProductFusesIff(t: Tree, refs: int -> nat)
    requires Numeric(t) && Is(t, Mul)
    ensures FusionNode(t, refs) != t <==>
            (Is(t.left, Add) || Is(t.left, Sub)) && IsConstant(t.right) && IsConstant(t.left.right) && CanElide(refs, t, t.left)
  {
    FusedIsOther(t, refs);
    assert Numeric(t.left) && Numeric(t.right);
    if IsConstant(t.right) { ConstantHasNumber(t.right); }
    if Is(t.left, Add) || Is(t.left, Sub) {
      assert Numeric(t.left.right);
      if IsConstant(t.left.right) { ConstantHasNumber(t.left.right); }
    }
    assert FusionNode(t, refs) == MinusFused(Distribute(t, refs), refs);
    assert Distribute(t, refs) != t ==> Distribute(t, refs).op == t.left.op;
  }

  lemma ConstantHasNumber(t: Tree)
    requires Numeric(t) && IsConstant(t)
    ensures t.op.imm.F?
  {
  }

  lemma {:induction false} FusionStaysIff(numbered: seq<Tree>, root: Tree, t: Tree, path: Path)
    requires Canonical(numbered) && Faithful(root, numbered) && Faithful(t, numbered) && NumericPart(t)
    ensures Stays(FusionVisitor(vn => RefCount(root, vn)), t, path) <==> NoneUnfused(root, t)
  {
    if t.Node? {
      FusionStaysIff(numbered, root, t.left, path + [false]);
      FusionStaysIff(numbered, root, t.right, path + [true]);
      var refs := vn => RefCount(root, vn);
      assert FusionVisitor(refs)(t, path) == FusionNode(t, refs);
      if Numeric(t) { FusionNodeIff(numbered, root, t); } else { assert FusionNode(t, refs) == t && !IsUnfused(root, t); }
    }
  }

  lemma {:induction false} FusionUnchanged(refs: int -> nat, t: Tree, path: Path)
    ensures Postorder(FusionVisitor(refs), t, path) == t <==> Stays(FusionVisitor(refs), t, path)
  {
    if t.Node? {
      FusionUnchanged(refs, t.left, path + [false]);
      FusionUnchanged(refs, t.right, path + [true]);
      var n := t.(left := Postorder(FusionVisitor(refs), t.left, path + [false]),
                  right := Postorder(FusionVisitor(refs), t.right, path + [true]));
      FusedIsOther(n, refs);
      assert Postorder(FusionVisitor(refs), t, path) == FusionNode(n, refs);
    }
  }

  lemma {:induction false} CopiesStrip(a: Tree, b: Tree, p: Tree, q: Tree)
    requires Strip(a) == Strip(b) && Strip(p) == Strip(q)
    ensures Copies(a, p) == Copies(b, q)
  {
    if a.Node? {
      CopiesStrip(a.left, b.left, p, q);
      CopiesStrip(a.right, b.right, p, q);
    }
  }

  lemma {:induction false} NoneUnfusedStrip(root: Tree, other: Tree, a: Tree, b: Tree)
    requires Strip(root) == Strip(other) && Strip(a) == Strip(b)
    ensures NoneUnfused(root, a) <==> NoneUnfused(other, b)
  {
    if a.Node? {
      NoneUnfusedStrip(root, other, a.left, b.left);
      NoneUnfusedStrip(root, other, a.right, b.right);
      UnfusedStrip(root, other, a, b);
    }
  }

  lemma UnfusedStrip(root: Tree, other: Tree, a: Tree, b: Tree)
    requires Strip(root) == Strip(other) && Strip(a) == Strip(b) && a.Node?
    ensures IsUnfused(root, a) <==> IsUnfused(other, b)
  {
    SameBelow(a, b);
    CopiesStrip(root, other, a, b);
    CopiesStrip(root, other, a.left, b.left);
    CopiesStrip(root, other, a.right, b.right);
    assert MayElide(root, a, a.left) <==> MayElide(other, b, b.left);
    assert MayElide(root, a, a.right) <==> MayElide(other, b, b.right);
    if a.left.Node? { SameBelow(a.left, b.left); }
  }

  /** Fusion leaves a tree as it is exactly when nothing that could be fused or distributed is in it. */
  lemma FusionIff(t: Tree)
    requires Numeric(t)
    ensures Fusion(t) == ExprValueNumber.Number(t, []).0 <==> NoneUnfused(t, t)
  {
    NumericIsWellFormed(t);
    NumberIsFaithful(t, []);
    var (root, numbered) := ExprValueNumber.Number(t, []);
    NumericStrip(root, t);
    FusionUnchanged(vn => RefCount(root, vn), root, []);
    FusionStaysIff(numbered, root, root, []);
    NoneUnfusedStrip(root, t, root, t);
  }
}
