/** Whole runs of the optimizer, and what a compiled expression stores. */
module ExprOptimize {
  import opened Options
  import opened ExprTree
  import opened ExprValueNumber
  import opened ExprParse
  import opened ExprCode
  import opened ExprCompile
  import opened ExprReal
  import opened ExprPower
  import opened ExprRewrite
  import opened ExprLocal
  import opened ExprComparison
  import opened ExprStrength
  import opened ExprFusion
  import opened ExprSumNode
  import opened ExprProductNode
  import opened ExprSite
  import opened ExprAlgebra
  import opened ExprTame
  import opened ExprTameAlgebra
  import opened ExprNormal
  import opened ExprNormalLocal
  import opened ExprNormalStrength
  import opened ExprNormalAlgebra

  // The passes of the compiler. The comparators of the algebraic pass and what a node's parent pointer shows to a
  // strength reduction are left open.
  datatype Pass =
    | LocalPass | AlgebraicPass(orders: Orders) | ComparisonPass
    | CleanupPass | StrengthPass(underAdd: Path -> bool) | FusionPass

  ghost predicate SortsTerms(pass: Pass) {
    pass.AlgebraicPass? ==> Sorts(pass.orders)
  }

  function PassResult(m: Math, pass: Pass, t: Tree): Tree {
    match pass
    case LocalPass => Local(m, t)
    case AlgebraicPass(orders) => Algebraic(m, t, orders)
    case ComparisonPass => Comparisons(t)
    case CleanupPass => Cleanup(t)
    case StrengthPass(underAdd) => Strength(t, underAdd)
    case FusionPass => Fusion(t)
  }

  // The tree after a run of passes.
  function Optimized(m: Math, t: Tree, passes: seq<Pass>): Tree
    decreases |passes|
  {
    if passes == [] then t else Optimized(m, PassResult(m, passes[0], t), passes[1..])
  }

  // When a pass keeps the value: the local pass loses no sign in a power of a power, and what the algebraic pass rewrites
  // is a sum of whole exponents that drops no scalar, or a product whose signs allow it.
  ghost predicate PassFine(m: Math, pass: Pass, t: Tree) {
    match pass
    case LocalPass => WalkFine(m, t, [])
    case AlgebraicPass(orders) => SiteFine(m, t, orders)
    case _ => true
  }

  ghost predicate RunFine(m: Math, t: Tree, passes: seq<Pass>)
    decreases |passes|
  {
    passes == [] || (PassFine(m, passes[0], t) && RunFine(m, PassResult(m, passes[0], t), passes[1..]))
  }

  lemma PassKeeps(m: Math, pass: Pass, t: Tree)
    requires Lawful(m) && Numeric(t) && SortsTerms(pass) && PassFine(m, pass, t)
    ensures KeepsVal(m, t, PassResult(m, pass, t))
  {
    match pass
    case LocalPass => LocalKeeps(m, t);
    case AlgebraicPass(orders) => AlgebraicKeeps(m, t, orders);
    case ComparisonPass => ComparisonsKeep(m, t);
    case CleanupPass => CleanupKeeps(m, t);
    case StrengthPass(underAdd) => StrengthKeeps(m, t, underAdd);
    case FusionPass => FusionKeeps(m, t);
  }

  /** Any finite run of passes, in any order: if each is one that keeps the value of its tree, so does the run. */
  lemma {:induction false} RunKeeps(m: Math, t: Tree, passes: seq<Pass>)
    requires Lawful(m) && Numeric(t) && (forall pass <- passes :: SortsTerms(pass)) && RunFine(m, t, passes)
    ensures KeepsVal(m, t, Optimized(m, t, passes))
    decreases |passes|
  {
    if passes != [] {
      PassKeeps(m, passes[0], t);
      RunKeeps(m, PassResult(m, passes[0], t), passes[1..]);
    }
  }

  // Whole exponents

  // No algebraic pass of the run drops a scalar.
  ghost predicate NoDrops(m: Math, t: Tree, passes: seq<Pass>)
    decreases |passes|
  {
    passes == [] || (
      && (passes[0].AlgebraicPass? ==> !Drops(m, t, passes[0].orders))
      && NoDrops(m, PassResult(m, passes[0], t), passes[1..]))
  }

  lemma TamePass(m: Math, pass: Pass, t: Tree)
    requires Lawful(m) && Numeric(t) && Tame(m, t) && SortsTerms(pass)
    requires pass.AlgebraicPass? ==> !Drops(m, t, pass.orders)
    ensures PassFine(m, pass, t) && KeepsVal(m, t, PassResult(m, pass, t)) && Tame(m, PassResult(m, pass, t))
  {
    match pass
    case LocalPass => TameWalkFine(m, t, []); TameLocal(m, t);
    case AlgebraicPass(orders) =>
      TameAllWhole(m, t);
      AllWholeSiteFine(m, t, orders);
      TameAlgebraic(m, t, orders);
    case ComparisonPass => TameComparisons(m, t);
    case CleanupPass => TameCleanup(m, t);
    case StrengthPass(underAdd) => TameStrength(m, t, underAdd);
    case FusionPass => TameFusion(m, t);
  }

  /** On a tree without roots whose exponents are all whole, every pass meets its condition as long as no algebraic pass
      drops a scalar: each leaves a tree of the same kind to the next. */
  lemma {:induction false} TameRun(m: Math, t: Tree, passes: seq<Pass>)
    requires Lawful(m) && Numeric(t) && Tame(m, t) && (forall pass <- passes :: SortsTerms(pass)) && NoDrops(m, t, passes)
    ensures RunFine(m, t, passes) && KeepsVal(m, t, Optimized(m, t, passes)) && Tame(m, Optimized(m, t, passes))
    decreases |passes|
  {
    if passes != [] {
      TamePass(m, passes[0], t);
      TameRun(m, PassResult(m, passes[0], t), passes[1..]);
    }
  }

  // Passes make trees of numbers of trees of numbers, whether or not they keep values.

  predicate SameKind(a: Tree, b: Tree) {
    if a.Nil? then b.Nil? else if IsMux(a) then NumericPair(b) else Numeric(b)
  }

  lemma KindOfNumeric(a: Tree, b: Tree)
    requires Numeric(a)
    ensures SameKind(a, b) <==> Numeric(b)
  {
  }

  lemma KindOfSame(t: Tree)
    requires NumericPart(t)
    ensures SameKind(t, t)
  {
    if Numeric(t) { KindOfNumeric(t, t); }
  }

  lemma NumericUnder(t: Tree, l: Tree, r: Tree)
    requires NumericPart(t) && t.Node? && SameKind(t.left, l) && SameKind(t.right, r)
    ensures SameKind(t, Node(t.op, t.vn, l, r))
  {
    var s := Node(t.op, t.vn, l, r);
    if Numeric(t) {
      KindOfNumeric(t, s);
      if Operands(t.op.code) > 0 { KindOfNumeric(t.left, l); }
      if Operands(t.op.code) == 2 { KindOfNumeric(t.right, r); }
    } else {
      KindOfNumeric(t.left, l);
      KindOfNumeric(t.right, r);
    }
  }

  lemma NumericLocalNode(m: Math, t: Tree)
    requires Lawful(m) && Numeric(t)
    ensures Numeric(LocalNode(m, t))
  {
    var t1 := Arithmetic(m, t);
    ArithmeticKeeps(m, t);
    if NestedPowers(t1) { PowerPowerShape(m, t1); }
    ConditionsKeep(m, PowerPower(t1));
  }

  lemma {:induction false} NumericLocalWalk(m: Math, t: Tree, path: Path)
    requires Lawful(m) && NumericPart(t)
    ensures SameKind(t, Postorder(LocalVisitor(m), t, path))
  {
    if t.Node? {
      NumericLocalWalk(m, t.left, path + [false]);
      NumericLocalWalk(m, t.right, path + [true]);
      var n := Rewritten(m, t, path);
      NumericUnder(t, n.left, n.right);
      assert Postorder(LocalVisitor(m), t, path) == LocalNode(m, n);
      if Numeric(n) { NumericLocalNode(m, n); }
    }
  }

  lemma {:induction false} NumericReplaceAt(t: Tree, path: Path, r: Tree)
    requires NumericPart(t) && Numeric(At(t, path)) && Numeric(r)
    ensures SameKind(t, ReplaceAt(t, path, r))
  {
    if path != [] && t.Node? {
      var s := ReplaceAt(t, path, r);
      NumericReplaceAt(if path[0] then t.right else t.left, path[1..], r);
      KindOfSame(t.left);
      KindOfSame(t.right);
      NumericUnder(t, s.left, s.right);
    }
  }

  lemma NumericAlgebraic(m: Math, t: Tree, orders: Orders)
    requires Numeric(t) && Sorts(orders)
    ensures Numeric(Algebraic(m, t, orders))
  {
    NumberedIsKnown(m, t);
    var (root, numbered) := ExprValueNumber.Number(t, []);
    var site := PassSite(m, t, orders);
    SiteIsThere(Changing(m, numbered, orders), root, false, false, []);
    if site.Some? { NumericRewriteAt(m, numbered, root, site.value, orders); }
  }

  lemma NumericRewriteAt(m: Math, numbered: seq<Tree>, t: Tree, site: Path, orders: Orders)
    requires KnownPart(m, numbered, t) && Sorts(orders) && ChangesAt(Changing(m, numbered, orders), t, false, false, site)
    ensures SameKind(t, RewriteAt(Rewriting(m, numbered, orders), t, Some(site)))
  {
    var s := At(t, site);
    SiteIsTop(Changing(m, numbered, orders), t, false, false, site);
    KnownAt(m, numbered, t, site);
    if IsSum(s) { SumRewriteVal(m, numbered, s, orders); } else { ProductRewriteVal(m, numbered, s, orders); }
    NumericReplaceAt(t, site, Rewrite(m, numbered, s, orders));
  }

  lemma NumericPass(m: Math, pass: Pass, t: Tree)
    requires Lawful(m) && Numeric(t) && SortsTerms(pass)
    ensures Numeric(PassResult(m, pass, t))
  {
    match pass
    case LocalPass => NumericLocalWalk(m, t, []);
    case AlgebraicPass(orders) => NumericAlgebraic(m, t, orders);
    case ComparisonPass => ComparisonsKeep(m, t);
    case CleanupPass => CleanupKeeps(m, t);
    case StrengthPass(underAdd) => StrengthKeeps(m, t, underAdd);
    case FusionPass => FusionKeeps(m, t);
  }

  // What is left to do

  // Whether a pass reports a change.
  predicate PassReports(m: Math, pass: Pass, t: Tree) {
    match pass
    case LocalPass => Rewrites(LocalVisitor(m), t, [])
    case AlgebraicPass(orders) => PassSite(m, t, orders).Some?
    case ComparisonPass => Comparisons(t) != ExprValueNumber.Number(t, []).0
    case CleanupPass => Rewrites(CleanupVisitor(), t, [])
    case StrengthPass(underAdd) => Reports(t, underAdd, [])
    case FusionPass => Fusion(t) != ExprValueNumber.Number(t, []).0
  }

  // Nothing a pass looks for is in the tree.
  predicate PassNormal(m: Math, pass: Pass, t: Tree) {
    match pass
    case LocalPass => NoneLocal(t)
    case AlgebraicPass(orders) => AllAlgebraDone(m, t, orders)
    case ComparisonPass => NoComparisons(t, false)
    case CleanupPass => NoNeutral(t)
    case StrengthPass(underAdd) => NoneStrong(t, underAdd, [])
    case FusionPass => NoneUnfused(t, t)
  }

  /** A pass reports a change exactly when something it looks for is in the tree; but strength reduction does not report
      -a + b. */
  lemma PassReportsIff(m: Math, pass: Pass, t: Tree)
    requires Numeric(t)
    ensures PassNormal(m, pass, t) <==> !PassReports(m, pass, t) && (pass.StrengthPass? ==> NoSilent(t))
  {
    match pass
    case LocalPass => LocalRewritesIff(m, t);
    case AlgebraicPass(orders) => AlgebraicIff(m, t, orders);
    case ComparisonPass => ComparisonsIff(t);
    case CleanupPass => CleanupRewritesIff(t);
    case StrengthPass(underAdd) => ReportsIff(t, underAdd, []);
    case FusionPass => FusionIff(t);
  }

  /** A pass that finds nothing leaves the tree as it is, but for its numbers. */
  lemma NormalStays(m: Math, pass: Pass, t: Tree)
    requires Numeric(t) && PassNormal(m, pass, t)
    ensures Strip(PassResult(m, pass, t)) == Strip(t)
  {
    NumericIsWellFormed(t);
    NumberIsFaithful(t, []);
    match pass
    case LocalPass =>
      LocalRewritesIff(m, t);
      RewritesIff(LocalVisitor(m), t, []);
    case AlgebraicPass(orders) => AlgebraicIff(m, t, orders);
    case ComparisonPass => ComparisonsIff(t);
    case CleanupPass =>
      CleanupRewritesIff(t);
      RewritesIff(CleanupVisitor(), t, []);
    case StrengthPass(underAdd) =>
      StrengthRewritesIff(t, underAdd);
      RewritesIff(StrengthVisitor(underAdd), t, []);
    case FusionPass => FusionIff(t);
  }

  lemma {:induction false} NoNeutralStrip(a: Tree, b: Tree)
    requires Strip(a) == Strip(b)
    ensures NoNeutral(a) <==> NoNeutral(b)
  {
    if a.Node? {
      NoNeutralStrip(a.left, b.left);
      NoNeutralStrip(a.right, b.right);
      SameBelow(a, b);
    }
  }

  lemma NormalStrip(m: Math, pass: Pass, a: Tree, b: Tree)
    requires Strip(a) == Strip(b)
    ensures PassNormal(m, pass, a) <==> PassNormal(m, pass, b)
  {
    match pass
    case LocalPass => NoneLocalStrip(a, b);
    case AlgebraicPass(orders) => AllDoneStrip(m, a, b, orders);
    case ComparisonPass => NoComparisonsStrip(a, b, false);
    case CleanupPass => NoNeutralStrip(a, b);
    case StrengthPass(underAdd) => NoneStrongStrip(a, b, underAdd, []);
    case FusionPass => NoneUnfusedStrip(a, b, a, b);
  }

  // A round of passes that report nothing, such as the one the source's loops end with.
  predicate QuietRound(m: Math, t: Tree, passes: seq<Pass>)
    decreases |passes|
  {
    passes == [] || (
      && !PassReports(m, passes[0], t) && (passes[0].StrengthPass? ==> NoSilent(t))
      && QuietRound(m, PassResult(m, passes[0], t), passes[1..]))
  }

  /** After a round without a report nothing that any of its passes looks for is left in the tree. */
  lemma {:induction false} QuietRoundIsNormal(m: Math, t: Tree, passes: seq<Pass>)
    requires Numeric(t) && QuietRound(m, t, passes)
    ensures Strip(Optimized(m, t, passes)) == Strip(t)
    ensures forall pass <- passes :: PassNormal(m, pass, Optimized(m, t, passes))
    decreases |passes|
  {
    if passes != [] {
      var r := PassResult(m, passes[0], t);
      PassReportsIff(m, passes[0], t);
      NormalStays(m, passes[0], t);
      NumericStrip(r, t);
      QuietRoundIsNormal(m, r, passes[1..]);
      NormalStrip(m, passes[0], t, Optimized(m, t, passes));
      assert forall pass <- passes :: pass == passes[0] || pass in passes[1..];
    }
  }

  /** When the first of the compiler's loops ends, no rule of its three passes applies anywhere in the tree. */
  lemma FirstLoopEnds(m: Math, t: Tree, orders: Orders)
    requires Numeric(t) && QuietRound(m, t, [LocalPass, AlgebraicPass(orders), ComparisonPass])
    ensures var r := Optimized(m, t, [LocalPass, AlgebraicPass(orders), ComparisonPass]);
            NoneLocal(r) && AllAlgebraDone(m, r, orders) && NoComparisons(r, false)
  {
    var passes := [LocalPass, AlgebraicPass(orders), ComparisonPass];
    QuietRoundIsNormal(m, t, passes);
    assert passes[0] in passes && passes[1] in passes && passes[2] in passes;
    var r := Optimized(m, t, passes);
    assert PassNormal(m, LocalPass, r) && PassNormal(m, AlgebraicPass(orders), r) && PassNormal(m, ComparisonPass, r);
  }

  /** When the second ends, none of its three applies, if the last strength reduction left no -a + b unreported. */
  lemma SecondLoopEnds(m: Math, t: Tree, underAdd: Path -> bool)
    requires Numeric(t) && QuietRound(m, t, [CleanupPass, StrengthPass(underAdd), FusionPass])
    ensures var r := Optimized(m, t, [CleanupPass, StrengthPass(underAdd), FusionPass]);
            NoNeutral(r) && NoneStrong(r, underAdd, []) && NoneUnfused(r, r)
  {
    var passes := [CleanupPass, StrengthPass(underAdd), FusionPass];
    QuietRoundIsNormal(m, t, passes);
    assert passes[0] in passes && passes[1] in passes && passes[2] in passes;
    var r := Optimized(m, t, passes);
    assert PassNormal(m, CleanupPass, r) && PassNormal(m, StrengthPass(underAdd), r) && PassNormal(m, FusionPass, r);
  }

  // Running the passes

  method RunPass(m: Math, pass: Pass, t: Tree) returns (r: Tree, changed: bool)
    requires Lawful(m) && Numeric(t) && SortsTerms(pass)
    ensures r == PassResult(m, pass, t) && Numeric(r) && (changed <==> PassReports(m, pass, t))
  {
    if pass.AlgebraicPass? {
      r, changed := AlgebraicOptimizations(m, t, pass.orders);
    } else {
      r, changed := PassResult(m, pass, t), PassReports(m, pass, t);
    }
    NumericPass(m, pass, t);
  }

  /** A run makes the tree specified, and keeps the value if every pass met its condition. */
  method RunPasses(m: Math, t: Tree, passes: seq<Pass>) returns (r: Tree)
    requires Lawful(m) && Numeric(t) && forall pass <- passes :: SortsTerms(pass)
    ensures r == Optimized(m, t, passes) && Numeric(r)
    ensures RunFine(m, t, passes) ==> KeepsVal(m, t, r)
  {
    r := t;
    for n := 0 to |passes|
      invariant Numeric(r) && Optimized(m, r, passes[n..]) == Optimized(m, t, passes)
    {
      assert passes[n..][0] == passes[n] && passes[n..][1..] == passes[n + 1..];
      var changed;
      r, changed := RunPass(m, passes[n], r);
    }
    assert passes[|passes|..] == [];
    if RunFine(m, t, passes) { RunKeeps(m, t, passes); }
  }

  // From tokens to the stored value

  // A token whose immediate is that of its operator.
  predicate IsNumericToken(op: Op) {
    IsToken(op) && (op.code.Dup? || op.code.Swap? || NumericOp(op))
  }

  predicate NumericTokens(tokens: seq<Op>) {
    forall op <- tokens :: IsNumericToken(op)
  }

  // No root, and every power right behind its exponent, a whole constant.
  predicate WholeTokens(tokens: seq<Op>) {
    && (forall op <- tokens :: !op.code.Sqrt?)
    && (forall i | 0 <= i < |tokens| && tokens[i].code.Pow? :: i > 0 && IsWholeToken(tokens[i - 1]))
  }

  predicate IsWholeToken(op: Op) {
    op.code.Constant? && op.imm.F? && Whole(op.imm.f)
  }

  lemma {:induction false} ParsedNumeric(formats: seq<Format>, tokens: seq<Op>)
    requires NumericTokens(tokens)
    ensures var r := StackRun(MakeNode, formats, tokens); r.Ok? ==> forall t <- r.value :: Numeric(t)
  {
    if tokens != [] {
      var n := |tokens| - 1;
      ParsedNumeric(formats, tokens[..n]);
      var r := StackRun(MakeNode, formats, tokens[..n]);
      if r.Ok? { StepNumeric(formats, r.value, tokens[n]); }
    }
  }

  lemma StepNumeric(formats: seq<Format>, stack: seq<Tree>, op: Op)
    requires IsNumericToken(op) && forall t <- stack :: Numeric(t)
    ensures var r := StackStep(MakeNode, formats, stack, op); r.Ok? ==> forall t <- r.value :: Numeric(t)
  {
    var n, k := |stack|, Operands(op.code);
    var r := StackStep(MakeNode, formats, stack, op);
    if r.Ok? && !op.code.Dup? && !op.code.Swap? {
      NodeNumeric(TypedOp(op, formats), stack[n - k..]);
    }
  }

  lemma NodeNumeric(op: Op, args: seq<Tree>)
    requires NumericOp(op) && |args| == Operands(op.code) && forall t <- args :: Numeric(t)
    ensures Numeric(MakeNode(op, args))
  {
    assert |args| > 0 ==> args[0] in args;
    assert |args| > 1 ==> args[1] in args;
    assert |args| > 2 ==> args[2] in args;
  }

  lemma {:induction false} ParsedWhole(formats: seq<Format>, tokens: seq<Op>)
    requires NumericTokens(tokens) && WholeTokens(tokens)
    ensures var r := StackRun(MakeNode, formats, tokens);
            r.Ok? ==>
              && (forall t <- r.value :: WholeExponents(t))
              && (|tokens| > 0 && IsWholeToken(tokens[|tokens| - 1]) ==>
                    |r.value| > 0 && IsWholeConstant(r.value[|r.value| - 1]))
  {
    if tokens != [] {
      var n := |tokens| - 1;
      assert WholeTokens(tokens[..n]) by {
        assert forall i | 0 <= i < n :: tokens[..n][i] == tokens[i];
      }
      ParsedWhole(formats, tokens[..n]);
      var r := StackRun(MakeNode, formats, tokens[..n]);
      if r.Ok? { StepWhole(formats, r.value, tokens[n]); }
    }
  }

  predicate IsWholeConstant(t: Tree) {
    IsConstant(t) && t.op.imm.F? && Whole(t.op.imm.f)
  }

  lemma StepWhole(formats: seq<Format>, stack: seq<Tree>, op: Op)
    requires IsNumericToken(op) && !op.code.Sqrt? && forall t <- stack :: WholeExponents(t)
    requires op.code.Pow? ==> |stack| > 0 && IsWholeConstant(stack[|stack| - 1])
    ensures var r := StackStep(MakeNode, formats, stack, op);
            r.Ok? ==>
              && (forall t <- r.value :: WholeExponents(t))
              && (IsWholeToken(op) ==> |r.value| > 0 && IsWholeConstant(r.value[|r.value| - 1]))
  {
    var n, k := |stack|, Operands(op.code);
    var r := StackStep(MakeNode, formats, stack, op);
    if r.Ok? && !op.code.Dup? && !op.code.Swap? {
      var args := stack[n - k..];
      if op.code.Pow? { assert args[1] == stack[n - 1]; }
      NodeWhole(TypedOp(op, formats), args);
    }
  }

  lemma WholeNode(t: Tree)
    requires t.Node? && WholeExponents(t.left) && WholeExponents(t.right)
    requires !Is(t, Sqrt) && (Is(t, Pow) ==> IsWholeConstant(t.right))
    ensures WholeExponents(t)
  {
  }

  lemma NodeWhole(op: Op, args: seq<Tree>)
    requires |args| == Operands(op.code) && forall t <- args :: WholeExponents(t)
    requires !op.code.Sqrt? && (op.code.Pow? ==> IsWholeConstant(args[1]))
    ensures WholeExponents(MakeNode(op, args))
  {
    assert |args| > 0 ==> args[0] in args;
    assert |args| > 1 ==> args[1] in args;
    assert |args| > 2 ==> args[2] in args;
    if |args| == 3 { WholeNode(Node(Op(Mux, U(0)), -1, args[1], args[2])); }
    WholeNode(MakeNode(op, args));
  }

  /** If no token is a root and every power has a whole constant exponent, a run in which no algebraic pass drops a scalar
      meets all conditions. */
  lemma WholeTokensFine(m: Math, formats: seq<Format>, tokens: seq<Op>, passes: seq<Pass>)
    requires Lawful(m) && NumericTokens(tokens) && WholeTokens(tokens) && forall pass <- passes :: SortsTerms(pass)
    ensures var p := StackProgram(MakeNode, formats, tokens);
            p.Ok? && NoDrops(m, p.value, passes) ==> RunFine(m, p.value, passes)
  {
    ParsedNumeric(formats, tokens);
    ParsedWhole(formats, tokens);
    var p := StackProgram(MakeNode, formats, tokens);
    if p.Ok? && NoDrops(m, p.value, passes) {
      WholeExponentsTame(m, p.value);
      TameRun(m, p.value, passes);
    }
  }

  /** The whole compiler: the tokens are parsed, the passes run, and the tree compiled. It fails exactly where running the
      tokens on an operand stack fails, with the same error; otherwise the code stores the number on that stack, if there
      is one and every pass met its condition. */
  method CompileExpression(m: Math, formats: seq<Format>, tokens: seq<Op>, passes: seq<Pass>, format: Format,
                           bitsPerSample: nat) returns (r: Result<seq<Instr>>)
    requires Lawful(m) && NumericTokens(tokens) && forall pass <- passes :: SortsTerms(pass)
    ensures var v, p := StackProgram(Meaning(m), formats, tokens), StackProgram(MakeNode, formats, tokens);
            if v.Err? then p.Err? && r == Err(v.error)
            else
              && p.Ok? && r.Ok?
              && (v.value.Defined? && RunFine(m, p.value, passes) ==>
                    Exec(Meaning(m), r.value, map[]) == Some((StoreOp(format, bitsPerSample), v.value)))
    ensures var p := StackProgram(MakeNode, formats, tokens);
            WholeTokens(tokens) && p.Ok? && NoDrops(m, p.value, passes) ==> RunFine(m, p.value, passes)
  {
    if WholeTokens(tokens) { WholeTokensFine(m, formats, tokens, passes); }
    ParseKeepsMeaning(Meaning(m), formats, tokens);
    ParsedNumeric(formats, tokens);
    var p := ParseExpr(tokens, formats);
    match p
    case Err(e) => r := Err(e);
    case Ok(t) =>
      var s := RunPasses(m, t, passes);
      ValIsEval(m, t);
      ValIsEval(m, s);
      var code := Compile(s, format, bitsPerSample);
      CompileKeepsMeaning(Meaning(m), s, StoreOp(format, bitsPerSample), code[..]);
      r := Ok(code[..]);
  }
}
