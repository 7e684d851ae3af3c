/** Three-address code: its meaning, its interpreter, and its emission from a numbered tree. */
module ExprCode {
  import opened Options
  import opened ExprTree
  import opened ExprValueNumber

  // A register of -1 is unused.
  datatype Instr = Instr(op: Op, dst: int, src1: int, src2: int, src3: int)

  predicate Reads(i: Instr, r: int) {
    r >= 0 && (i.src1 == r || i.src2 == r || i.src3 == r)
  }

  predicate IsStoreInstr(i: Instr) {
    IsStore(i.op.code)
  }

  // Every register the instruction reads holds a value.
  predicate Readable<V>(i: Instr, regs: map<int, V>) {
    (i.src1 >= 0 ==> i.src1 in regs) && (i.src2 >= 0 ==> i.src2 in regs) && (i.src3 >= 0 ==> i.src3 in regs)
  }

  function Args<V>(i: Instr, regs: map<int, V>): seq<V>
    requires Readable(i, regs)
  {
    (if i.src1 >= 0 then [regs[i.src1]] else []) + (if i.src2 >= 0 then [regs[i.src2]] else []) +
    (if i.src3 >= 0 then [regs[i.src3]] else [])
  }

  /** The reference meaning of code: the store operator reached and the value stored. There is none when an
      instruction reads a register that nothing wrote, or has no destination, or no store is reached. */
  function Exec<V>(sem: (Op, seq<V>) -> V, code: seq<Instr>, regs: map<int, V>): Option<(Op, V)> {
    if code == [] then None
    else
      var i := code[0];
      if IsStoreInstr(i) then
        if i.src1 >= 0 && i.src1 in regs then Some((i.op, regs[i.src1])) else None
      else if i.dst < 0 || !Readable(i, regs) then None
      else Exec(sem, code[1..], regs[i.dst := sem(i.op, Args(i, regs))])
  }

  // The registers an interpreter allocates: one more than the largest destination.
  function RegisterCount(code: seq<Instr>): (n: nat)
    ensures n >= 1
    ensures forall i | 0 <= i < |code| :: code[i].dst < n
  {
    if code == [] then 1
    else
      var n := RegisterCount(code[..|code| - 1]);
      if code[|code| - 1].dst < n then n else code[|code| - 1].dst + 1
  }

  /** The interpreter: a register array sized by the largest destination, and a loop over the instructions. */
  class ExprInterpreter<V(0)> {
    const bytecode: seq<Instr>
    const registers: array<V>

    constructor (bytecode: seq<Instr>)
      ensures this.bytecode == bytecode && fresh(registers)
      ensures registers.Length == RegisterCount(bytecode)
    {
      this.bytecode := bytecode;
      var maxreg := 0;
      for i := 0 to |bytecode|
        invariant maxreg >= 0 && maxreg + 1 == RegisterCount(bytecode[..i])
      {
        assert bytecode[..i + 1][..i] == bytecode[..i];
        if maxreg < bytecode[i].dst {
          maxreg := bytecode[i].dst;
        }
      }
      assert bytecode[..|bytecode|] == bytecode;
      registers := new V[maxreg + 1];
    }

    // Every access the loop makes is inside the register array.
    method Run(sem: (Op, seq<V>) -> V) returns (stored: (Op, V))
      requires Exec(sem, bytecode, map[]).Some?
      requires registers.Length == RegisterCount(bytecode)
      modifies registers
      ensures Some(stored) == Exec(sem, bytecode, map[])
    {
      ghost var regs: map<int, V> := map[];
      var i := 0;
      while i < |bytecode|
        invariant 0 <= i <= |bytecode|
        invariant Exec(sem, bytecode[i..], regs) == Exec(sem, bytecode, map[])
        invariant forall r :: r in regs ==> 0 <= r < registers.Length && registers[r] == regs[r]
      {
        var insn := bytecode[i];
        assert bytecode[i..][0] == insn && bytecode[i..][1..] == bytecode[i + 1..];
        if IsStoreInstr(insn) {
          return (insn.op, registers[insn.src1]);
        }
        var args := (if insn.src1 >= 0 then [registers[insn.src1]] else []) +
                    (if insn.src2 >= 0 then [registers[insn.src2]] else []) +
                    (if insn.src3 >= 0 then [registers[insn.src3]] else []);
        registers[insn.dst] := sem(insn.op, args);
        regs := regs[insn.dst := sem(insn.op, Args(insn, regs))];
        i := i + 1;
      }
      assert false;
    }
  }

  // The instruction of a numbered node: its number is its register.
  function InstrOf(t: Tree): Instr
    requires t.Node?
  {
    var mux := IsMux(t.right);
    Instr(t.op, t.vn,
          if t.left.Node? then t.left.vn else -1,
          if mux then (if t.right.left.Node? then t.right.left.vn else -1)
          else if t.right.Node? then t.right.vn else -1,
          if mux && t.right.right.Node? then t.right.right.vn else -1)
  }

  /** The postorder walk of emission: each number is emitted the first time it is met. */
  function EmitTree(t: Tree, code: seq<Instr>, found: set<int>): (seq<Instr>, set<int>) {
    if t.Nil? then (code, found)
    else
      var (c1, f1) := EmitTree(t.left, code, found);
      var (c2, f2) := EmitTree(t.right, c1, f1);
      if t.op.code.Mux? || t.vn in f2 then (c2, f2)
      else (c2 + [InstrOf(t)], f2 + {t.vn})
  }

  class Emitter {
    var code: seq<Instr>
    var found: set<int>

    constructor ()
      ensures code == [] && found == {}
    {
      code, found := [], {};
    }

    method Visit(t: Tree)
      modifies this
      ensures (code, found) == EmitTree(t, old(code), old(found))
      decreases t
    {
      if t.Node? {
        Visit(t.left);
        Visit(t.right);
        if t.op.code.Mux? {
          return;
        }
        if t.vn in found {
          return;
        }
        code := code + [InstrOf(t)];
        found := found + {t.vn};
      }
    }
  }

  function CodeOf(numbered: seq<Tree>): (code: seq<Instr>)
    requires forall n <- numbered :: n.Node?
    ensures |code| == |numbered|
    ensures forall i | 0 <= i < |code| :: code[i] == InstrOf(numbered[i])
  {
    if numbered == [] then []
    else CodeOf(numbered[..|numbered| - 1]) + [InstrOf(numbered[|numbered| - 1])]
  }

  ghost function Upto(n: nat): (s: set<int>)
    ensures forall i :: i in s <==> 0 <= i < n
    ensures |s| == n
  {
    if n == 0 then {} else Upto(n - 1) + {n - 1}
  }

  // Number i sits at i.
  ghost predicate Indexed(numbered: seq<Tree>) {
    forall i | 0 <= i < |numbered| :: numbered[i].Node? && numbered[i].vn == i
  }

  /** Emission meets the nodes in the order in which numbering gave out fresh numbers. */
  lemma {:induction false} EmitFollowsNumbering(t: Tree, numbered: seq<Tree>)
    requires Indexed(numbered)
    ensures var (r, n) := Number(t, numbered);
            && Indexed(n)
            && EmitTree(r, CodeOf(numbered), Upto(|numbered|)) == (CodeOf(n), Upto(|n|))
  {
    if t.Node? {
      var (l, n1) := Number(t.left, numbered);
      var (rr, n2) := Number(t.right, n1);
      EmitFollowsNumbering(t.left, numbered);
      EmitFollowsNumbering(t.right, n1);
      var (r, n) := Number(t, numbered);
      EmitNode(r, CodeOf(numbered), Upto(|numbered|), CodeOf(n1), Upto(|n1|), CodeOf(n2), Upto(|n2|));
      NumberNode(r, n, n2);
    }
  }

  // What numbering does at a node, and what emission then adds.
  lemma NumberNode(r: Tree, n: seq<Tree>, n2: seq<Tree>)
    requires r.Node? && Indexed(n2)
    requires n == n2 || (n == n2 + [r] && r.vn == |n2| && !r.op.code.Mux?)
    requires n == n2 && !r.op.code.Mux? ==> 0 <= r.vn < |n2|
    ensures Indexed(n)
    ensures (CodeOf(n), Upto(|n|)) ==
            if r.op.code.Mux? || r.vn in Upto(|n2|) then (CodeOf(n2), Upto(|n2|))
            else (CodeOf(n2) + [InstrOf(r)], Upto(|n2|) + {r.vn})
  {
    if n != n2 {
      assert n[..|n| - 1] == n2;
    }
  }

  // One step of the emission walk, once the children have been walked.
  lemma EmitNode(r: Tree, c0: seq<Instr>, f0: set<int>, c1: seq<Instr>, f1: set<int>, c2: seq<Instr>, f2: set<int>)
    requires r.Node? && EmitTree(r.left, c0, f0) == (c1, f1) && EmitTree(r.right, c1, f1) == (c2, f2)
    ensures EmitTree(r, c0, f0) ==
            if r.op.code.Mux? || r.vn in f2 then (c2, f2) else (c2 + [InstrOf(r)], f2 + {r.vn})
  {
  }

  // Register i holds the value of numbered node i, for the first n registers.
  ghost predicate Computed<V>(sem: (Op, seq<V>) -> V, numbered: seq<Tree>, n: nat, regs: map<int, V>)
    requires Canonical(numbered) && n <= |numbered|
  {
    forall i | 0 <= i < n :: CanonicalAt(numbered, i) && i in regs && regs[i] == Eval(sem, numbered[i])
  }

  // A faithful child has the value of the register its number names.
  lemma ChildValue<V>(sem: (Op, seq<V>) -> V, t: Tree, numbered: seq<Tree>, n: nat, regs: map<int, V>)
    requires Canonical(numbered) && n <= |numbered| && WellFormed(t) && Faithful(t, numbered[..n])
    requires Computed(sem, numbered, n, regs)
    ensures 0 <= t.vn < n && t.vn in regs && regs[t.vn] == Eval(sem, t)
  {
    var s := numbered[t.vn];
    assert numbered[..n][t.vn] == s && CanonicalAt(numbered, t.vn);
    EvalStrip(sem, t);
    EvalStrip(sem, s);
  }

  lemma InstrComputes<V>(sem: (Op, seq<V>) -> V, numbered: seq<Tree>, n: nat, regs: map<int, V>)
    requires Canonical(numbered) && n < |numbered| && Computed(sem, numbered, n, regs)
    ensures var i := InstrOf(numbered[n]);
            && i.dst == n && !IsStoreInstr(i)
            && Readable(i, regs) && (forall r | Reads(i, r) :: r < n)
            && CanonicalAt(numbered, n)
            && sem(i.op, Args(i, regs)) == Eval(sem, numbered[n])
  {
    var t := numbered[n];
    assert CanonicalAt(numbered, n);
    var k := Operands(t.op.code);
    if k >= 1 { ChildValue(sem, t.left, numbered, n, regs); }
    if k == 2 { ChildValue(sem, t.right, numbered, n, regs); }
    if k == 3 {
      ChildValue(sem, t.right.left, numbered, n, regs);
      ChildValue(sem, t.right.right, numbered, n, regs);
    }
    var i := InstrOf(t);
    assert Args(i, regs) == match k
                            case 0 => []
                            case 1 => [Eval(sem, t.left)]
                            case 2 => [Eval(sem, t.left), Eval(sem, t.right)]
                            case _ => [Eval(sem, t.left), Eval(sem, t.right.left), Eval(sem, t.right.right)];
  }

  lemma {:induction false} CodeComputes<V>(sem: (Op, seq<V>) -> V, numbered: seq<Tree>, store: Instr, n: nat, regs: map<int, V>)
    requires Canonical(numbered) && |numbered| > 0 && n <= |numbered|
    requires IsStoreInstr(store) && store.src1 == |numbered| - 1
    requires Computed(sem, numbered, n, regs)
    ensures CanonicalAt(numbered, |numbered| - 1)
    ensures Exec(sem, (CodeOf(numbered) + [store])[n..], regs) == Some((store.op, Eval(sem, numbered[|numbered| - 1])))
    decreases |numbered| - n
  {
    var code := CodeOf(numbered) + [store];
    if n < |numbered| {
      InstrComputes(sem, numbered, n, regs);
      assert code[n..][0] == InstrOf(numbered[n]) && code[n..][1..] == code[n + 1..];
      CodeComputes(sem, numbered, store, n + 1, regs[n := Eval(sem, numbered[n])]);
    } else {
      assert code[n..] == [store];
      assert CanonicalAt(numbered, |numbered| - 1);
    }
  }

  // Number the tree, emit it, and store the root's register.
  function EmitProgram(t: Tree, store: Op): seq<Instr>
    requires WellFormed(t)
  {
    RootIsLast(t);
    NumberIsFaithful(t, []);
    EmitFollowsNumbering(t, []);
    assert CodeOf([]) == [] && Upto(0) == {};
    var (code, _) := EmitTree(Number(t, []).0, [], {});
    code + [Instr(store, -1, code[|code| - 1].dst, -1, -1)]
  }

  lemma NumberKeepsValue<V>(sem: (Op, seq<V>) -> V, t: Tree)
    requires WellFormed(t)
    ensures WellFormed(Number(t, []).0) && Eval(sem, Number(t, []).0) == Eval(sem, t)
  {
    NumberIsFaithful(t, []);
    StripKeepsShape(t);
    StripKeepsShape(Number(t, []).0);
    EvalStrip(sem, t);
    EvalStrip(sem, Number(t, []).0);
  }

  lemma EmittedCode(t: Tree)
    requires WellFormed(t)
    ensures var (code, _) := EmitTree(Number(t, []).0, [], {});
            |code| > 0 && code == CodeOf(Number(t, []).1)
  {
    RootIsLast(t);
    EmitFollowsNumbering(t, []);
    assert CodeOf([]) == [] && Upto(0) == {};
  }

  lemma EmittedProgram(t: Tree, store: Op)
    requires WellFormed(t)
    ensures var n := Number(t, []).1;
            |n| > 0 && EmitProgram(t, store) == CodeOf(n) + [Instr(store, -1, |n| - 1, -1, -1)]
  {
    EmittedCode(t);
    RootIsLast(t);
  }

  lemma NumberedCodeRuns<V>(sem: (Op, seq<V>) -> V, n: seq<Tree>, store: Instr)
    requires Canonical(n) && |n| > 0 && IsStoreInstr(store) && store.src1 == |n| - 1
    ensures WellFormed(n[|n| - 1])
    ensures Exec(sem, CodeOf(n) + [store], map[]) == Some((store.op, Eval(sem, n[|n| - 1])))
  {
    CodeComputes(sem, n, store, 0, map[]);
    assert (CodeOf(n) + [store])[0..] == CodeOf(n) + [store];
  }

  /** Emitted code stores the value of the tree, whatever the operators mean. */
  lemma EmitKeepsMeaning<V>(sem: (Op, seq<V>) -> V, t: Tree, store: Op)
    requires WellFormed(t) && IsStore(store.code)
    ensures Exec(sem, EmitProgram(t, store), map[]) == Some((store, Eval(sem, t)))
  {
    var n := Number(t, []).1;
    assert Canonical(n) by { NumberIsFaithful(t, []); }
    assert n[|n| - 1] == Number(t, []).0 by { RootIsLast(t); }
    EmittedProgram(t, store);
    NumberedCodeRuns(sem, n, Instr(store, -1, |n| - 1, -1, -1));
    NumberKeepsValue(sem, t);
  }
}
