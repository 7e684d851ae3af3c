/** Value numbering: identical subtrees, and only those, get the same number. */
module ExprValueNumber {
  import opened ExprTree

  // Numbers decide when both trees have one; otherwise operators and children are compared.
  predicate EqualSubTree(l: Tree, r: Tree)
    requires l.Node? && r.Node?
  {
    if l.vn >= 0 && r.vn >= 0 then l.vn == r.vn
    else if l.op != r.op then false
    else if l.left.Node? != r.left.Node? || l.right.Node? != r.right.Node? then false
    else if l.left.Node? && !EqualSubTree(l.left, r.left) then false
    else if l.right.Node? && !EqualSubTree(l.right, r.right) then false
    else true
  }

  // The index of the first numbered node equal to `t`, or the length when there is none.
  function FindEqual(t: Tree, numbered: seq<Tree>): (k: nat)
    requires t.Node? && forall n <- numbered :: n.Node?
    ensures k <= |numbered|
    ensures forall i | 0 <= i < k :: !EqualSubTree(t, numbered[i])
    ensures k < |numbered| ==> EqualSubTree(t, numbered[k])
  {
    if numbered == [] then 0
    else
      var front := numbered[..|numbered| - 1];
      var k := FindEqual(t, front);
      if k < |front| then k
      else if EqualSubTree(t, numbered[|front|]) then |front| else |numbered|
  }

  /** The postorder walk: the renumbered tree and the list of nodes that got a fresh number. */
  function Number(t: Tree, numbered: seq<Tree>): (r: (Tree, seq<Tree>))
    requires forall n <- numbered :: n.Node?
    ensures r.0.Nil? <==> t.Nil?
    ensures numbered <= r.1 && forall n <- r.1 :: n.Node?
  {
    if t.Nil? then (Nil, numbered)
    else
      var (l, n1) := Number(t.left, numbered);
      var (r, n2) := Number(t.right, n1);
      var node := Node(t.op, -1, l, r);
      if t.op.code.Mux? then (node, n2)
      else
        var k := FindEqual(node, n2);
        if k < |n2| then (node.(vn := n2[k].vn), n2)
        else
          var added := node.(vn := |n2|);
          (added, n2 + [added])
  }

  /** The walk as the source makes it, over a list of numbered nodes that grows in place. */
  class Numbering {
    var numbered: seq<Tree>

    constructor ()
      ensures numbered == []
    {
      numbered := [];
    }

    method Visit(t: Tree) returns (r: Tree)
      requires forall n <- numbered :: n.Node?
      modifies this
      ensures forall n <- numbered :: n.Node?
      ensures (r, numbered) == Number(t, old(numbered))
      decreases t
    {
      if t.Nil? {
        return Nil;
      }
      var l := Visit(t.left);
      var rr := Visit(t.right);
      r := Node(t.op, -1, l, rr);
      if t.op.code.Mux? {
        return;
      }
      ghost var found := numbered;
      for i := 0 to |numbered|
        invariant numbered == found
        invariant forall j | 0 <= j < i :: !EqualSubTree(r, numbered[j])
      {
        assert numbered[i] in numbered;
        if EqualSubTree(r, numbered[i]) {
          return r.(vn := numbered[i].vn);
        }
      }
      r := r.(vn := |numbered|);
      numbered := numbered + [r];
    }
  }

  // Every subtree of `t` but a MUX carries the number of the numbered node it is identical to.
  ghost predicate Faithful(t: Tree, numbered: seq<Tree>) {
    t.Nil? || (
      && Faithful(t.left, numbered)
      && Faithful(t.right, numbered)
      && if t.op.code.Mux? then t.vn == -1
         else 0 <= t.vn < |numbered| && Strip(t) == Strip(numbered[t.vn]))
  }

  // The numbered nodes are pairwise different, number i sits at i, and children come before their parent.
  ghost predicate Canonical(numbered: seq<Tree>) {
    && (forall n <- numbered :: n.Node?)
    && (forall i | 0 <= i < |numbered| :: CanonicalAt(numbered, i))
    && (forall i, j | 0 <= i < j < |numbered| :: Strip(numbered[i]) != Strip(numbered[j]))
  }

  ghost predicate CanonicalAt(numbered: seq<Tree>, i: nat)
    requires i < |numbered|
  {
    var n := numbered[i];
    && WellFormed(n)
    && n.vn == i
    && Faithful(n.left, numbered[..i])
    && Faithful(n.right, numbered[..i])
  }

  lemma {:induction false} FaithfulGrows(t: Tree, numbered: seq<Tree>, more: seq<Tree>)
    requires Faithful(t, numbered) && numbered <= more
    ensures Faithful(t, more)
  {
    if t.Node? {
      FaithfulGrows(t.left, numbered, more);
      FaithfulGrows(t.right, numbered, more);
    }
  }

  lemma CanonicalFaithful(numbered: seq<Tree>, i: nat)
    requires Canonical(numbered) && i < |numbered|
    ensures Faithful(numbered[i], numbered)
  {
    assert CanonicalAt(numbered, i);
    FaithfulGrows(numbered[i].left, numbered[..i], numbered);
    FaithfulGrows(numbered[i].right, numbered[..i], numbered);
  }

  /** On faithfully numbered trees the comparison with numbers is structural equality. */
  lemma {:induction false} EqualSubTreeIsStructural(l: Tree, r: Tree, numbered: seq<Tree>)
    requires l.Node? && r.Node? && Canonical(numbered)
    requires Faithful(l.left, numbered) && Faithful(l.right, numbered) && Faithful(r, numbered)
    requires Faithful(l, numbered) || l.vn == -1
    ensures EqualSubTree(l, r) <==> Strip(l) == Strip(r)
  {
    if l.vn >= 0 && r.vn >= 0 {
    } else if l.op == r.op {
      if l.left.Node? && r.left.Node? { EqualSubTreeIsStructural(l.left, r.left, numbered); }
      if l.right.Node? && r.right.Node? { EqualSubTreeIsStructural(l.right, r.right, numbered); }
    }
  }

  /** The walk keeps the structure, and keeps the list canonical and the tree faithful to it. */
  lemma {:induction false} NumberIsFaithful(t: Tree, numbered: seq<Tree>)
    requires Walkable(t) && Canonical(numbered)
    ensures var (r, n) := Number(t, numbered);
            Strip(r) == Strip(t) && Canonical(n) && Faithful(r, n)
  {
    if t.Node? {
      WalkableChildren(t);
      var (l, n1) := Number(t.left, numbered);
      NumberIsFaithful(t.left, numbered);
      var (r, n2) := Number(t.right, n1);
      NumberIsFaithful(t.right, n1);
      FaithfulGrows(l, n1, n2);
      if !t.op.code.Mux? {
        var node := Node(t.op, -1, l, r);
        StripKeepsShape(t);
        StripKeepsShape(node);
        forall i | 0 <= i < |n2|
          ensures EqualSubTree(node, n2[i]) <==> Strip(node) == Strip(n2[i])
        {
          CanonicalFaithful(n2, i);
          EqualSubTreeIsStructural(node, n2[i], n2);
        }
        var k := FindEqual(node, n2);
        if k < |n2| {
          assert CanonicalAt(n2, k);
        } else {
          var added := node.(vn := |n2|);
          StripKeepsShape(added);
          CanonicalPush(n2, added);
          FaithfulGrows(l, n2, n2 + [added]);
          FaithfulGrows(r, n2, n2 + [added]);
        }
      }
    }
  }

  lemma WalkableChildren(t: Tree)
    requires Walkable(t) && t.Node?
    ensures Walkable(t.left) && Walkable(t.right)
    ensures !t.op.code.Mux? ==> WellFormed(t)
  {
  }

  lemma CanonicalPush(numbered: seq<Tree>, added: Tree)
    requires Canonical(numbered) && WellFormed(added) && added.vn == |numbered|
    requires Faithful(added.left, numbered) && Faithful(added.right, numbered)
    requires forall i | 0 <= i < |numbered| :: Strip(numbered[i]) != Strip(added)
    ensures Canonical(numbered + [added])
  {
    var more := numbered + [added];
    forall i | 0 <= i < |more| ensures CanonicalAt(more, i) {
      assert i < |numbered| ==> CanonicalAt(numbered, i) && more[..i] == numbered[..i];
      assert i == |numbered| ==> more[..i] == numbered;
    }
  }

  // `s` is `t` or lies inside it.
  ghost predicate Inside(s: Tree, t: Tree) {
    s == t || (t.Node? && (Inside(s, t.left) || Inside(s, t.right)))
  }

  lemma {:induction false} FaithfulInside(s: Tree, t: Tree, numbered: seq<Tree>)
    requires Faithful(t, numbered) && Inside(s, t)
    ensures Faithful(s, numbered)
  {
    if s != t {
      if Inside(s, t.left) { FaithfulInside(s, t.left, numbered); } else { FaithfulInside(s, t.right, numbered); }
    }
  }

  /** After numbering a whole tree, two of its subtrees have the same number exactly when they are identical. */
  lemma SameNumberIffIdentical(t: Tree, a: Tree, b: Tree)
    requires WellFormed(t)
    requires Inside(a, Number(t, []).0) && Inside(b, Number(t, []).0)
    requires a.Node? && b.Node? && !a.op.code.Mux? && !b.op.code.Mux?
    ensures a.vn == b.vn <==> Strip(a) == Strip(b)
    ensures 0 <= a.vn < |Number(t, []).1|
  {
    NumberIsFaithful(t, []);
    var (r, n) := Number(t, []);
    FaithfulInside(a, r, n);
    FaithfulInside(b, r, n);
  }

  function Size(t: Tree): nat {
    if t.Nil? then 0 else 1 + Size(t.left) + Size(t.right)
  }

  lemma {:induction false} SizeStrip(t: Tree)
    ensures Size(Strip(t)) == Size(t)
  {
    if t.Node? {
      SizeStrip(t.left);
      SizeStrip(t.right);
    }
  }

  // A node that gets a fresh number is no larger than the tree walked.
  lemma {:induction false} FreshNotLarger(t: Tree, numbered: seq<Tree>, i: nat)
    requires Walkable(t) && Canonical(numbered)
    requires |numbered| <= i < |Number(t, numbered).1|
    ensures Size(Number(t, numbered).1[i]) <= Size(t)
  {
    WalkableChildren(t);
    var (l, n1) := Number(t.left, numbered);
    var (r, n2) := Number(t.right, n1);
    NumberIsFaithful(t.left, numbered);
    NumberIsFaithful(t.right, n1);
    if i < |n1| {
      FreshNotLarger(t.left, numbered, i);
    } else if i < |n2| {
      FreshNotLarger(t.right, n1, i);
    } else {
      SizeStrip(l); SizeStrip(t.left);
      SizeStrip(r); SizeStrip(t.right);
    }
  }

  /** The root gets the last number: it differs from every proper subtree. */
  lemma RootIsLast(t: Tree)
    requires WellFormed(t)
    ensures var (r, n) := Number(t, []);
            |n| > 0 && n[|n| - 1] == r && r.vn == |n| - 1
  {
    var (l, n1) := Number(t.left, []);
    var (r, n2) := Number(t.right, n1);
    NumberIsFaithful(t.left, []);
    NumberIsFaithful(t.right, n1);
    FaithfulGrows(l, n1, n2);
    var node := Node(t.op, -1, l, r);
    SizeStrip(l); SizeStrip(t.left);
    SizeStrip(r); SizeStrip(t.right);
    forall i | 0 <= i < |n2|
      ensures !EqualSubTree(node, n2[i])
    {
      if i < |n1| { FreshNotLarger(t.left, [], i); } else { FreshNotLarger(t.right, n1, i); }
      SizeStrip(n2[i]);
      SizeStrip(node);
      CanonicalFaithful(n2, i);
      EqualSubTreeIsStructural(node, n2[i], n2);
    }
    assert FindEqual(node, n2) == |n2|;
  }
}
