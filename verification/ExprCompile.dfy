/** From a tree to renamed code, and from tokens to the stored value. */
module ExprCompile {
  import opened Options
  import opened ExprTree
  import opened ExprParse
  import opened ExprValueNumber
  import opened ExprCode
  import opened ExprRename

  // The store for an output format.
  function StoreOp(format: Format, bitsPerSample: nat): Op {
    if format.integer && format.bytesPerSample == 2 then Op(MemStoreU16, U(bitsPerSample))
    else if !format.integer && format.bytesPerSample == 2 then Op(MemStoreF16, U(0))
    else if !format.integer && format.bytesPerSample == 4 then Op(MemStoreF32, U(0))
    else Op(MemStoreU8, U(0))
  }

  /** A store writes samples of the output's format, and knows their bits where it has to clamp them to 16. */
  lemma StoreIsOfFormat(f: Format, bitsPerSample: nat)
    ensures var r := StoreOp(f, bitsPerSample);
            && IsStore(r.code)
            && (IsKnown(f) ==> SampleBytes(r.code) == f.bytesPerSample && IsIntegerSample(r.code) == f.integer)
            && (!IsKnown(f) ==> r.code.MemStoreU8?)
            && r.imm == U(if IsIntegerSample(r.code) && SampleBytes(r.code) == 2 then bitsPerSample else 0)
  {
  }

  /** The back end: number the nodes, emit each number once, store the last, rename in place. */
  method Compile(t: Tree, format: Format, bitsPerSample: nat) returns (code: array<Instr>)
    requires WellFormed(t)
    ensures fresh(code) && IsRenaming(EmitProgram(t, StoreOp(format, bitsPerSample)), code[..])
  {
    var numbering := new Numbering();
    var root := numbering.Visit(t);
    var emitter := new Emitter();
    emitter.Visit(root);
    EmittedCode(t);
    var store := Instr(StoreOp(format, bitsPerSample), -1, emitter.code[|emitter.code| - 1].dst, -1, -1);
    var all := emitter.code + [store];
    code := new Instr[|all|](i requires 0 <= i < |all| => all[i]);
    assert code[..] == EmitProgram(t, StoreOp(format, bitsPerSample));
    RenameRegisters(code);
  }

  // Every subtree of `t` but a MUX is already numbered.
  ghost predicate Known(t: Tree, numbered: seq<Tree>) {
    t.Nil? || (if t.op.code.Mux? then Known(t.left, numbered) && Known(t.right, numbered)
               else exists k | 0 <= k < |numbered| :: Strip(numbered[k]) == Strip(t))
  }

  lemma {:induction false} FaithfulIsKnown(t: Tree, s: Tree, numbered: seq<Tree>)
    requires Faithful(s, numbered) && Strip(s) == Strip(t)
    ensures Known(t, numbered)
  {
    if t.Node? {
      if t.op.code.Mux? {
        FaithfulIsKnown(t.left, s.left, numbered);
        FaithfulIsKnown(t.right, s.right, numbered);
      } else {
        assert Strip(numbered[s.vn]) == Strip(t);
      }
    }
  }

  lemma {:induction false} KnownAddsNothing(t: Tree, numbered: seq<Tree>)
    requires Walkable(t) && Canonical(numbered) && Known(t, numbered)
    ensures Number(t, numbered).1 == numbered
  {
    if t.Node? {
      WalkableChildren(t);
      if t.op.code.Mux? {
        KnownAddsNothing(t.left, numbered);
        KnownAddsNothing(t.right, numbered);
      } else {
        var k :| 0 <= k < |numbered| && Strip(numbered[k]) == Strip(t);
        CanonicalFaithful(numbered, k);
        FaithfulIsKnown(t.left, numbered[k].left, numbered);
        FaithfulIsKnown(t.right, numbered[k].right, numbered);
        KnownAddsNothing(t.left, numbered);
        KnownAddsNothing(t.right, numbered);
        var l, r := Number(t.left, numbered).0, Number(t.right, numbered).0;
        NumberIsFaithful(t.left, numbered);
        NumberIsFaithful(t.right, numbered);
        EqualSubTreeIsStructural(Node(t.op, -1, l, r), numbered[k], numbered);
      }
    }
  }

  // An instruction after k among the first n reads register k.
  ghost predicate ReadLater(numbered: seq<Tree>, k: nat) {
    exists j | k < j < |numbered| :: numbered[j].Node? && Reads(InstrOf(numbered[j]), k)
  }

  // The number is the walked tree's own, or that of a branch of the walked MUX.
  ghost predicate IsTop(r: Tree, k: nat) {
    r.Node? && if r.op.code.Mux? then (r.left.Node? && r.left.vn == k) || (r.right.Node? && r.right.vn == k)
               else r.vn == k
  }

  lemma {:induction false} NewNumbersAreRead(t: Tree, numbered: seq<Tree>, k: nat)
    requires Walkable(t) && Canonical(numbered)
    requires |numbered| <= k < |Number(t, numbered).1|
    ensures IsTop(Number(t, numbered).0, k) || ReadLater(Number(t, numbered).1, k)
  {
    WalkableChildren(t);
    var (l, n1) := Number(t.left, numbered);
    var (rr, n2) := Number(t.right, n1);
    var (r, n) := Number(t, numbered);
    NumberIsFaithful(t.left, numbered);
    NumberIsFaithful(t.right, n1);
    if k < |n1| {
      NewNumbersAreRead(t.left, numbered, k);
      ReadLaterGrows(n1, n, k);
    } else if k < |n2| {
      NewNumbersAreRead(t.right, n1, k);
      ReadLaterGrows(n2, n, k);
    }
    if !t.op.code.Mux? {
      if n == n2 {
        RepeatedIsKnown(t, numbered);
        KnownAddsNothing(t, numbered);
      } else if k < |n2| && (IsTop(l, k) || IsTop(rr, k)) {
        NumberIsFaithful(t, numbered);
        StripKeepsShape(t);
        StripKeepsShape(r);
        TopIsRead(r, l, rr, k);
        assert n[|n2|] == r;
      }
    }
  }

  lemma ReadLaterGrows(n: seq<Tree>, more: seq<Tree>, k: nat)
    requires n <= more
    ensures ReadLater(n, k) ==> ReadLater(more, k)
  {
    if ReadLater(n, k) {
      var j :| k < j < |n| && n[j].Node? && Reads(InstrOf(n[j]), k);
      assert more[j] == n[j];
    }
  }

  lemma TopIsRead(r: Tree, l: Tree, rr: Tree, k: nat)
    requires r.Node? && r.left == l && r.right == rr && WellFormed(r)
    requires IsTop(l, k) || IsTop(rr, k)
    ensures Reads(InstrOf(r), k)
  {
  }

  // A tree whose number is not fresh was known before its children were walked.
  lemma RepeatedIsKnown(t: Tree, numbered: seq<Tree>)
    requires WellFormed(t) && Canonical(numbered)
    requires Number(t, numbered).1 == Number(t.right, Number(t.left, numbered).1).1
    ensures Known(t, numbered)
  {
    WalkableChildren(t);
    var (l, n1) := Number(t.left, numbered);
    var (rr, n2) := Number(t.right, n1);
    NumberIsFaithful(t.left, numbered);
    NumberIsFaithful(t.right, n1);
    NumberIsFaithful(t, numbered);
    var k := Number(t, numbered).0.vn;
    assert Strip(n2[k]) == Strip(t);
    SizeStrip(t);
    SizeStrip(n2[k]);
    if |n1| <= k {
      FreshNotLarger(t.right, n1, k);
    } else if |numbered| <= k {
      FreshNotLarger(t.left, numbered, k);
    } else {
      assert numbered[k] == n2[k];
    }
  }

  /** Emitted code is dense: value i is written once, by instruction i, and read later. */
  lemma EmitIsDense(t: Tree, store: Op)
    requires WellFormed(t) && IsStore(store.code)
    ensures Dense(EmitProgram(t, store))
  {
    var (r, n) := Number(t, []);
    RootIsLast(t);
    NumberIsFaithful(t, []);
    EmittedCode(t);
    var code := EmitProgram(t, store);
    forall i | 0 <= i < |n| ensures code[i].dst == i && forall q | Reads(code[i], q) :: q < i {
      assert CanonicalAt(n, i);
      SourcesEarlier(n, i);
    }
    forall i | 0 <= i < |code| ensures AssignsOnce(code, i) {
      DenseDefined(code, i);
    }
    forall i | 0 <= i < |n| ensures ReadAfter(code, i) {
      EmittedIsRead(t, store, i);
    }
  }

  lemma EmittedIsRead(t: Tree, store: Op, i: nat)
    requires WellFormed(t) && i < |Number(t, []).1|
    ensures ReadAfter(EmitProgram(t, store), i)
  {
    var (r, n) := Number(t, []);
    var code := EmitProgram(t, store);
    RootIsLast(t);
    NumberIsFaithful(t, []);
    EmittedCode(t);
    NewNumbersAreRead(t, [], i);
    if IsTop(r, i) {
      assert Reads(code[|n|], i);
    } else {
      var j :| i < j < |n| && n[j].Node? && Reads(InstrOf(n[j]), i);
      assert i + 1 <= j && Reads(code[j], i);
    }
  }

  lemma SourcesEarlier(n: seq<Tree>, i: nat)
    requires i < |n| && Canonical(n) && CanonicalAt(n, i)
    ensures forall q | Reads(InstrOf(n[i]), q) :: q < i
  {
    if IsMux(n[i].right) {
      assert Faithful(n[i].right.left, n[..i]) && Faithful(n[i].right.right, n[..i]);
    }
  }

  // Code that compiling this well-formed tree gives.
  ghost predicate CompiledTo(t: Tree, store: Op, out: seq<Instr>) {
    WellFormed(t) && IsStore(store.code) && IsRenaming(EmitProgram(t, store), out)
  }

  /** Compiling a tree keeps its value, for any meaning of the operators. */
  lemma CompileKeepsMeaning<V>(sem: (Op, seq<V>) -> V, t: Tree, store: Op, out: seq<Instr>)
    requires CompiledTo(t, store, out)
    ensures Exec(sem, out, map[]) == Some((store, Eval(sem, t)))
  {
    EmitKeepsMeaning(sem, t, store);
    EmitIsDense(t, store);
    RenameKeepsMeaning(sem, EmitProgram(t, store), out);
  }

  /** The interpreter's register array is as long as the most values ever alive at once. */
  lemma RegistersAreThePeak(t: Tree, store: Op, out: seq<Instr>)
    requires CompiledTo(t, store, out)
    ensures RegisterCount(out) == Peak(EmitProgram(t, store), |out| - 1)
  {
    var code := EmitProgram(t, store);
    EmitIsDense(t, store);
    RenameUsesThePeak(code, out);
    EmittedCode(t);
    RegisterCountIsWritten(out, Peak(code, |out| - 1));
  }

  lemma RegisterCountIsWritten(out: seq<Instr>, peak: nat)
    requires |out| > 1 && out[|out| - 1].dst < 0 && Written(out) == Upto(peak)
    ensures RegisterCount(out) == peak
  {
    assert out[0].dst in Written(out);
    assert peak - 1 in Written(out);
    forall i | 0 <= i < |out| ensures out[i].dst < peak {
      assert i < |out| - 1 ==> out[i].dst in Written(out);
    }
    RegisterCountIs(out, peak);
  }

  lemma {:induction false} RegisterCountIs(out: seq<Instr>, n: nat)
    requires n > 0 && (forall i | 0 <= i < |out| :: out[i].dst < n)
    requires exists i | 0 <= i < |out| :: out[i].dst == n - 1
    ensures RegisterCount(out) == n
  {
    RegisterCountAtMost(out, n);
  }

  lemma {:induction false} RegisterCountAtMost(out: seq<Instr>, n: nat)
    requires n > 0 && (forall i | 0 <= i < |out| :: out[i].dst < n)
    ensures RegisterCount(out) <= n
  {
    if out != [] { RegisterCountAtMost(out[..|out| - 1], n); }
  }

  /** The whole way for a token list: what the interpreter stores is what the operand stack ends with. */
  lemma ExpressionKeepsMeaning<V>(sem: (Op, seq<V>) -> V, formats: seq<Format>, tokens: seq<Op>, store: Op, out: seq<Instr>)
    requires forall op <- tokens :: IsToken(op)
    requires var p := StackProgram(MakeNode, formats, tokens); p.Ok? ==> CompiledTo(p.value, store, out)
    ensures match StackProgram(sem, formats, tokens)
            case Err(e) => StackProgram(MakeNode, formats, tokens) == Err(e)
            case Ok(v) => StackProgram(MakeNode, formats, tokens).Ok? && Exec(sem, out, map[]) == Some((store, v))
  {
    ParseKeepsMeaning(sem, formats, tokens);
    var p := StackProgram(MakeNode, formats, tokens);
    if p.Ok? {
      CompileKeepsMeaning(sem, p.value, store, out);
    }
  }
}
