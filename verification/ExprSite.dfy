/** A preorder walk that stops at the first sum or product it rewrites. */
module ExprSite {
  import opened Options
  import opened ExprTree
  import opened ExprReal
  import opened ExprRewrite
  import opened ExprSumNode
  import opened ExprProductNode

  function At(t: Tree, path: Path): Tree {
    if path == [] || t.Nil? then t else At(if path[0] then t.right else t.left, path[1..])
  }

  function ReplaceAt(t: Tree, path: Path, r: Tree): Tree {
    if path == [] then r
    else if t.Nil? then t
    else if path[0] then Node(t.op, t.vn, t.left, ReplaceAt(t.right, path[1..], r))
    else Node(t.op, t.vn, ReplaceAt(t.left, path[1..], r), t.right)
  }

  // The top of a sum or of a product.
  predicate IsTop(t: Tree, underSum: bool, underProduct: bool) {
    (IsSum(t) && !underSum) || (IsFraction(t) && !underProduct)
  }

  // The top of a sum or of a product, in its place in the tree, that changes.
  predicate ChangesAt(changes: Tree -> bool, t: Tree, underSum: bool, underProduct: bool, path: Path) {
    if path == [] then IsTop(t, underSum, underProduct) && changes(t)
    else t.Node? && ChangesAt(changes, if path[0] then t.right else t.left, IsSum(t), IsFraction(t), path[1..])
  }

  // What the walk stops at.
  function Site(changes: Tree -> bool, t: Tree, underSum: bool, underProduct: bool): Option<Path> {
    if t.Nil? then None
    else if IsTop(t, underSum, underProduct) && changes(t) then Some([])
    else
      var left := Site(changes, t.left, IsSum(t), IsFraction(t));
      if left.Some? then Some([false] + left.value)
      else
        var right := Site(changes, t.right, IsSum(t), IsFraction(t));
        if right.Some? then Some([true] + right.value) else None
  }

  // The order of a preorder walk.
  predicate Before(p: Path, q: Path) {
    q != [] && (p == [] || (if p[0] == q[0] then Before(p[1..], q[1..]) else q[0]))
  }

  /** The walk stops at a node that changes, and goes through the whole tree only if there is none. */
  lemma {:induction false} SiteIsThere(changes: Tree -> bool, t: Tree, underSum: bool, underProduct: bool, path: Path)
    ensures var site := Site(changes, t, underSum, underProduct);
            if site.Some? then ChangesAt(changes, t, underSum, underProduct, site.value)
            else !ChangesAt(changes, t, underSum, underProduct, path)
  {
    if t.Node? && !(IsTop(t, underSum, underProduct) && changes(t)) {
      var rest := if path == [] then [] else path[1..];
      SiteIsThere(changes, t.left, IsSum(t), IsFraction(t), rest);
      SiteIsThere(changes, t.right, IsSum(t), IsFraction(t), rest);
    }
  }

  /** No node before it changes. */
  lemma {:induction false} SiteIsFirst(changes: Tree -> bool, t: Tree, underSum: bool, underProduct: bool, path: Path)
    requires Site(changes, t, underSum, underProduct).Some?
    requires Before(path, Site(changes, t, underSum, underProduct).value)
    ensures !ChangesAt(changes, t, underSum, underProduct, path)
  {
    if path != [] {
      if path[0] {
        SiteIsFirst(changes, t.right, IsSum(t), IsFraction(t), path[1..]);
      } else if Site(changes, t.left, IsSum(t), IsFraction(t)).Some? {
        SiteIsFirst(changes, t.left, IsSum(t), IsFraction(t), path[1..]);
      } else {
        SiteIsThere(changes, t.left, IsSum(t), IsFraction(t), path[1..]);
      }
    }
  }

  // What changes is the top of a sum or product.
  lemma {:induction false} SiteIsTop(changes: Tree -> bool, t: Tree, underSum: bool, underProduct: bool, path: Path)
    requires ChangesAt(changes, t, underSum, underProduct, path)
    ensures (IsSum(At(t, path)) || IsFraction(At(t, path))) && changes(At(t, path))
  {
    if path != [] { SiteIsTop(changes, if path[0] then t.right else t.left, IsSum(t), IsFraction(t), path[1..]); }
  }

  // The tree with what is at the site rewritten.
  function RewriteAt(rewrite: Tree -> Tree, t: Tree, site: Option<Path>): Tree {
    if site.Some? then ReplaceAt(t, site.value, rewrite(At(t, site.value))) else t
  }

  // The walk of a tree whose root stays is the walk of its children.
  lemma WalkStep(changes: Tree -> bool, rewrite: Tree -> Tree, t: Tree, underSum: bool, underProduct: bool)
    requires t.Node? && !(IsTop(t, underSum, underProduct) && changes(t))
    ensures var site := Site(changes, t, underSum, underProduct);
            var left := Site(changes, t.left, IsSum(t), IsFraction(t));
            var right := Site(changes, t.right, IsSum(t), IsFraction(t));
            && (site.Some? <==> left.Some? || right.Some?)
            && RewriteAt(rewrite, t, site) ==
               Node(t.op, t.vn, RewriteAt(rewrite, t.left, left),
                    if left.Some? then t.right else RewriteAt(rewrite, t.right, right))
  {
  }

  lemma SameKeeps(m: Math, t: Tree)
    requires NumericPart(t)
    ensures KeepsPart(m, t, t)
  {
  }

  /** Rewriting a part of a tree so that its value stays keeps the value of the tree. */
  lemma {:induction false} ReplaceAtKeeps(m: Math, t: Tree, path: Path, r: Tree)
    requires NumericPart(t) && Numeric(At(t, path)) && KeepsVal(m, At(t, path), r)
    ensures KeepsPart(m, t, ReplaceAt(t, path, r))
  {
    if path != [] && t.Node? {
      SameKeeps(m, t.left);
      SameKeeps(m, t.right);
      ReplaceAtKeeps(m, if path[0] then t.right else t.left, path[1..], r);
      if Numeric(t) {
        var s := ReplaceAt(t, path, r);
        KeepsUnder(m, t, s.left, s.right);
        assert s == t.(left := s.left, right := s.right);
      }
    }
  }
}
