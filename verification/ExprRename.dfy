/** Register renaming: meaning is kept, and on emitted code no allocation uses fewer registers. */
module ExprRename {
  import opened Options
  import opened ExprTree
  import opened ExprCode

  // `table` maps a value to the register it was renamed to; a value without an entry keeps its own number.
  datatype State = State(table: map<int, int>, free: set<int>)

  const Initial := State(map[], {})

  function Phys(table: map<int, int>, r: int): int {
    if r in table then table[r] else r
  }

  // No instruction after i reads r.
  predicate Dead(code: seq<Instr>, i: nat, r: int) {
    forall j | i < j < |code| :: !Reads(code[j], r)
  }

  predicate IsMin(s: set<int>, x: int) {
    x in s && forall y <- s :: x <= y
  }

  function Min(s: set<int>): (m: int)
    requires s != {}
    ensures IsMin(s, m)
  {
    HasMin(s);
    var x :| IsMin(s, x);
    x
  }

  lemma Pick<T>(s: set<T>) returns (x: T)
    requires s != {}
    ensures x in s
  {
    x :| x in s;
  }

  lemma HasMin(s: set<int>)
    requires s != {}
    ensures exists x :: IsMin(s, x)
  {
    var w := Pick(s);
    HasMinBelow(s, w);
  }

  lemma {:induction false} HasMinBelow(s: set<int>, w: int)
    requires w in s
    ensures exists x :: IsMin(s, x)
    decreases set y | y in s && y < w
  {
    if !IsMin(s, w) {
      var y :| y in s && y < w;
      var a, b := set z | z in s && z < w, set z | z in s && z < y;
      assert b <= a && y in a && y !in b;
      HasMinBelow(s, y);
    }
  }

  // The free list after one source of instruction i: its register is free if nothing later reads the value.
  function Release(code: seq<Instr>, i: nat, st: State, r: int): State {
    if r >= 0 && Dead(code, i, r) then st.(free := st.free + {Phys(st.table, r)}) else st
  }

  function ReleaseSources(code: seq<Instr>, i: nat, st: State): State
    requires i < |code|
  {
    Release(code, i, Release(code, i, Release(code, i, st, code[i].src1), code[i].src2), code[i].src3)
  }

  function RenameSource(table: map<int, int>, r: int): int {
    if r < 0 then r else Phys(table, r)
  }

  // Sources are renamed and released; then the destination takes the smallest free register, if there is one,
  // and gives its own number to the free list.
  function RenameInstr(code: seq<Instr>, i: nat, st: State): (Instr, State)
    requires i < |code|
  {
    var c := code[i];
    var renamed := c.(src1 := RenameSource(st.table, c.src1), src2 := RenameSource(st.table, c.src2),
                      src3 := RenameSource(st.table, c.src3));
    var s := ReleaseSources(code, i, st);
    if c.dst >= 0 && s.free != {} then
      var m := Min(s.free);
      (renamed.(dst := m), State(s.table[c.dst := m], s.free - {m} + {c.dst}))
    else (renamed, s)
  }

  // The state before instruction i.
  function StateAt(code: seq<Instr>, i: nat): State
    requires i <= |code|
  {
    if i == 0 then Initial else RenameInstr(code, i - 1, StateAt(code, i - 1)).1
  }

  function RenameAt(code: seq<Instr>, i: nat): Instr
    requires i < |code|
  {
    RenameInstr(code, i, StateAt(code, i)).0
  }

  ghost predicate IsRenaming(code: seq<Instr>, out: seq<Instr>) {
    && |out| == |code|
    && forall i | 0 <= i < |code| :: out[i] == RenameAt(code, i)
  }

  // No later instruction reads the register.
  method NeverRead(code: array<Instr>, i: nat, r: int) returns (dead: bool)
    requires i < code.Length && r >= 0
    ensures dead <==> Dead(code[..], i, r)
  {
    for j := i + 1 to code.Length
      invariant forall k | i < k < j :: !Reads(code[k], r)
    {
      if code[j].src1 == r || code[j].src2 == r || code[j].src3 == r {
        assert Reads(code[..][j], r);
        return false;
      }
    }
    dead := true;
  }

  // One source: the register it is renamed to, which becomes free if the value dies here.
  method RenameOperand(code: array<Instr>, ghost was: seq<Instr>, i: nat, r: int, table: map<int, int>, freeList: set<int>)
    returns (renamed: int, grown: set<int>)
    requires i < code.Length == |was| && forall j | i <= j < code.Length :: code[j] == was[j]
    ensures renamed == RenameSource(table, r)
    ensures State(table, grown) == Release(was, i, State(table, freeList), r)
  {
    renamed, grown := r, freeList;
    if r >= 0 {
      if r in table {
        renamed := table[r];
      }
      var dead := NeverRead(code, i, r);
      assert forall j | i < j < code.Length :: code[..][j] == was[j];
      if dead {
        grown := freeList + {renamed};
      }
    }
  }

  // The three sources of an instruction, in their order.
  method RenameOperands(code: array<Instr>, ghost was: seq<Instr>, i: nat, table: map<int, int>, freeList: set<int>)
    returns (renamed: seq<int>, grown: set<int>)
    requires i < code.Length == |was| && forall j | i <= j < code.Length :: code[j] == was[j]
    ensures renamed == [RenameSource(table, was[i].src1), RenameSource(table, was[i].src2), RenameSource(table, was[i].src3)]
    ensures State(table, grown) == ReleaseSources(was, i, State(table, freeList))
  {
    var orig := [code[i].src1, code[i].src2, code[i].src3];
    ghost var start := State(table, freeList);
    renamed, grown := orig, freeList;
    for n := 0 to 3
      invariant |renamed| == 3
      invariant forall k | 0 <= k < 3 :: renamed[k] == if k < n then RenameSource(table, orig[k]) else orig[k]
      invariant State(table, grown) ==
                var s1 := if n > 0 then Release(was, i, start, orig[0]) else start;
                var s2 := if n > 1 then Release(was, i, s1, orig[1]) else s1;
                if n > 2 then Release(was, i, s2, orig[2]) else s2
    {
      var register;
      register, grown := RenameOperand(code, was, i, orig[n], table, grown);
      renamed := renamed[n := register];
    }
  }

  // One instruction: its sources, and then its destination.
  method RenameInstruction(code: array<Instr>, ghost was: seq<Instr>, i: nat, table: map<int, int>, freeList: set<int>)
    returns (insn: Instr, grown: map<int, int>, left: set<int>)
    requires i < code.Length == |was| && forall j | i <= j < code.Length :: code[j] == was[j]
    ensures (insn, State(grown, left)) == RenameInstr(was, i, State(table, freeList))
  {
    var renamed;
    renamed, left := RenameOperands(code, was, i, table, freeList);
    grown := table;
    var dst := code[i].dst;
    if dst >= 0 && left != {} {
      var m := Min(left);
      grown := table[dst := m];
      left := left - {m} + {dst};
      dst := m;
    }
    insn := Instr(code[i].op, dst, renamed[0], renamed[1], renamed[2]);
  }

  /** The renaming pass: one sweep that rewrites the instructions in place. */
  method RenameRegisters(code: array<Instr>)
    modifies code
    ensures IsRenaming(old(code[..]), code[..])
  {
    var table: map<int, int> := map[];
    var freeList: set<int> := {};
    ghost var was := code[..];
    for i := 0 to code.Length
      invariant State(table, freeList) == StateAt(was, i) && RenamedTo(was, code[..], i)
    {
      var insn;
      insn, table, freeList := RenameInstruction(code, was, i, table, freeList);
      RenamedNext(was, code[..], i);
      code[i] := insn;
    }
  }

  // The instructions before the i-th are renamed.
  ghost predicate RenamedTo(was: seq<Instr>, now: seq<Instr>, i: nat) {
    && |now| == |was|
    && forall j | 0 <= j < |was| :: now[j] == if j < i then RenameAt(was, j) else was[j]
  }

  lemma RenamedNext(was: seq<Instr>, now: seq<Instr>, i: nat)
    requires RenamedTo(was, now, i) && i < |was|
    ensures RenamedTo(was, now[i := RenameAt(was, i)], i + 1)
    ensures (RenameAt(was, i), StateAt(was, i + 1)) == RenameInstr(was, i, StateAt(was, i))
  {
  }

  // The values written before instruction i.
  ghost function Defined(code: seq<Instr>, i: nat): set<int>
    requires i <= |code|
  {
    if i == 0 then {} else Defined(code, i - 1) + if code[i - 1].dst >= 0 then {code[i - 1].dst} else {}
  }

  lemma {:induction false} DefinedNatural(code: seq<Instr>, i: nat)
    requires i <= |code|
    ensures forall r <- Defined(code, i) :: r >= 0
  {
    if i > 0 { DefinedNatural(code, i - 1); }
  }

  ghost predicate ReadFrom(code: seq<Instr>, i: nat, r: int) {
    exists j | i <= j < |code| :: Reads(code[j], r)
  }

  // The values alive before instruction i: written before it and read by it or later.
  ghost function Live(code: seq<Instr>, i: nat): set<int>
    requires i <= |code|
  {
    set r | r in Defined(code, i) && ReadFrom(code, i, r)
  }

  // Single assignment, and nothing is read before it is written.
  ghost predicate SingleAssignment(code: seq<Instr>) {
    forall i | 0 <= i < |code| :: AssignsOnce(code, i)
  }

  ghost predicate AssignsOnce(code: seq<Instr>, i: nat)
    requires i < |code|
  {
    && code[i].dst !in Defined(code, i)
    && forall r | Reads(code[i], r) :: r in Defined(code, i)
  }

  // Live values sit in distinct registers and none of these is free; every register in play was once a value's own.
  ghost predicate StateInv(code: seq<Instr>, i: nat, st: State)
    requires i <= |code|
  {
    && st.table.Keys <= Defined(code, i)
    && st.free <= Defined(code, i)
    && (forall r <- Defined(code, i) :: Phys(st.table, r) in Defined(code, i))
    && (forall r <- Live(code, i) :: Phys(st.table, r) !in st.free)
    && (forall r, s | r in Live(code, i) && s in Live(code, i) && r != s :: Phys(st.table, r) != Phys(st.table, s))
  }

  lemma LiveNext(code: seq<Instr>, i: nat)
    requires i < |code| && SingleAssignment(code)
    ensures forall r <- Live(code, i + 1) :: r != code[i].dst ==> r in Live(code, i)
    ensures forall r <- Live(code, i) :: (r in Live(code, i + 1) <==> !Dead(code, i, r)) && r != code[i].dst
    ensures forall r | Reads(code[i], r) :: r in Live(code, i)
  {
    assert AssignsOnce(code, i);
    forall r | r in Live(code, i + 1) && r != code[i].dst ensures r in Live(code, i) {
      var j :| i + 1 <= j < |code| && Reads(code[j], r);
      assert i <= j;
    }
    forall r | r in Live(code, i) ensures r in Live(code, i + 1) <==> !Dead(code, i, r) {
      if !Dead(code, i, r) {
        var j :| i < j < |code| && Reads(code[j], r);
        assert i + 1 <= j;
      }
      if r in Live(code, i + 1) {
        var j :| i + 1 <= j < |code| && Reads(code[j], r);
        assert i < j;
      }
    }
  }

  ghost function DyingRegister(code: seq<Instr>, i: nat, st: State, r: int): set<int> {
    if r >= 0 && Dead(code, i, r) then {Phys(st.table, r)} else {}
  }

  // After its sources are released, the free list has grown by the registers of the values that died here.
  lemma ReleasedSources(code: seq<Instr>, i: nat, st: State)
    requires i < |code| && SingleAssignment(code) && StateInv(code, i, st)
    ensures var s := ReleaseSources(code, i, st);
            && s.table == st.table && st.free <= s.free <= Defined(code, i)
            && (forall r <- Live(code, i) :: Phys(st.table, r) in s.free <==> Dead(code, i, r))
            && (forall x <- s.free :: x in st.free || exists r <- Live(code, i) :: Dead(code, i, r) && Phys(st.table, r) == x)
  {
    LiveNext(code, i);
    var c := code[i];
    assert c.src1 >= 0 ==> Reads(c, c.src1);
    assert c.src2 >= 0 ==> Reads(c, c.src2);
    assert c.src3 >= 0 ==> Reads(c, c.src3);
    var s := ReleaseSources(code, i, st);
    assert s == st.(free := st.free + DyingRegister(code, i, st, c.src1) + DyingRegister(code, i, st, c.src2) +
                            DyingRegister(code, i, st, c.src3));
    forall r | r in Live(code, i) && Dead(code, i, r) ensures Phys(st.table, r) in s.free {
      var j :| i <= j < |code| && Reads(code[j], r);
      assert j == i;
    }
  }

  lemma StepInv(code: seq<Instr>, i: nat, st: State)
    requires i < |code| && SingleAssignment(code) && StateInv(code, i, st)
    ensures StateInv(code, i + 1, RenameInstr(code, i, st).1)
  {
    assert AssignsOnce(code, i);
    LiveNext(code, i);
    ReleasedSources(code, i, st);
    var s := ReleaseSources(code, i, st);
    var t := RenameInstr(code, i, st).1;
    DefinedNatural(code, i + 1);
    assert t.table.Keys <= Defined(code, i + 1) && t.free <= Defined(code, i + 1);
    forall r | r in Defined(code, i + 1) ensures Phys(t.table, r) in Defined(code, i + 1) {
      var dst := code[i].dst;
      if r != dst {
        assert r in Defined(code, i);
        assert Phys(t.table, r) == Phys(st.table, r);
      } else if s.free != {} {
        assert Phys(t.table, r) in s.free;
      } else {
        assert dst !in st.table;
      }
    }
    forall r | r in Live(code, i + 1) ensures Phys(t.table, r) !in t.free {
      if r != code[i].dst {
        assert r in Live(code, i) && Phys(st.table, r) in Defined(code, i);
      }
    }
    forall r, q | r in Live(code, i + 1) && q in Live(code, i + 1) && r != q
      ensures Phys(t.table, r) != Phys(t.table, q)
    {
      if r != code[i].dst { assert Phys(st.table, r) in Defined(code, i); }
      if q != code[i].dst { assert Phys(st.table, q) in Defined(code, i); }
    }
  }

  /** At every point of the sweep live values sit in distinct registers and no live value's register is free. */
  lemma {:induction false} LiveValuesApart(code: seq<Instr>, i: nat)
    requires i <= |code| && SingleAssignment(code)
    ensures StateInv(code, i, StateAt(code, i))
  {
    if i > 0 {
      LiveValuesApart(code, i - 1);
      StepInv(code, i - 1, StateAt(code, i - 1));
    }
  }

  // Each live value is in the register it was renamed to.
  ghost predicate Agree<V>(code: seq<Instr>, i: nat, regs: map<int, V>, phys: map<int, V>)
    requires i <= |code|
  {
    var table := StateAt(code, i).table;
    forall r <- Live(code, i) :: r in regs && Phys(table, r) in phys && phys[Phys(table, r)] == regs[r]
  }

  lemma AgreeNext<V>(code: seq<Instr>, i: nat, regs: map<int, V>, phys: map<int, V>, v: V)
    requires i < |code| && SingleAssignment(code) && Agree(code, i, regs, phys)
    ensures Agree(code, i + 1, regs[code[i].dst := v], phys[RenameAt(code, i).dst := v])
  {
    var st, next := StateAt(code, i), StateAt(code, i + 1);
    LiveValuesApart(code, i);
    LiveValuesApart(code, i + 1);
    LiveNext(code, i);
    assert AssignsOnce(code, i);
    forall r | r in Live(code, i + 1)
      ensures var p := Phys(next.table, r);
              p in phys[RenameAt(code, i).dst := v]
              && phys[RenameAt(code, i).dst := v][p] == regs[code[i].dst := v][r]
    {
      if r != code[i].dst {
        assert Phys(next.table, r) == Phys(st.table, r);
        ReleasedSources(code, i, st);
        assert Phys(st.table, r) != RenameAt(code, i).dst;
      } else {
        assert Phys(next.table, r) == RenameAt(code, i).dst;
      }
    }
  }

  // An instruction reads the same values before and after renaming.
  lemma ArgsAgree<V>(code: seq<Instr>, i: nat, regs: map<int, V>, phys: map<int, V>)
    requires i < |code| && SingleAssignment(code) && Agree(code, i, regs, phys)
    ensures var c, d := code[i], RenameAt(code, i);
            && d.op == c.op && (d.dst >= 0 <==> c.dst >= 0)
            && Readable(c, regs) && Readable(d, phys) && Args(c, regs) == Args(d, phys)
            && (c.src1 >= 0 ==> d.src1 >= 0 && regs[c.src1] == phys[d.src1])
            && (c.src1 < 0 ==> d.src1 < 0)
  {
    var c := code[i];
    LiveNext(code, i);
    LiveValuesApart(code, i);
    DefinedNatural(code, i);
    ReleasedSources(code, i, StateAt(code, i));
    assert c.src1 >= 0 ==> Reads(c, c.src1);
    assert c.src2 >= 0 ==> Reads(c, c.src2);
    assert c.src3 >= 0 ==> Reads(c, c.src3);
  }

  lemma ExecStep<V>(sem: (Op, seq<V>) -> V, code: seq<Instr>, i: nat, regs: map<int, V>)
    requires i < |code| && Readable(code[i], regs)
    ensures Exec(sem, code[i..], regs) ==
            var c := code[i];
            if IsStoreInstr(c) then (if c.src1 >= 0 then Some((c.op, regs[c.src1])) else None)
            else if c.dst < 0 then None
            else Exec(sem, code[i + 1..], regs[c.dst := sem(c.op, Args(c, regs))])
  {
    assert code[i..][0] == code[i] && code[i..][1..] == code[i + 1..];
  }

  lemma {:induction false} ExecRenamed<V>(sem: (Op, seq<V>) -> V, code: seq<Instr>, out: seq<Instr>, i: nat,
                                          regs: map<int, V>, phys: map<int, V>)
    requires i <= |code| && SingleAssignment(code) && IsRenaming(code, out) && Agree(code, i, regs, phys)
    ensures Exec(sem, out[i..], phys) == Exec(sem, code[i..], regs)
    decreases |code| - i
  {
    if i < |code| {
      var c, d := code[i], out[i];
      ArgsAgree(code, i, regs, phys);
      ExecStep(sem, code, i, regs);
      ExecStep(sem, out, i, phys);
      if !IsStoreInstr(c) && c.dst >= 0 {
        var v := sem(c.op, Args(c, regs));
        AgreeNext(code, i, regs, phys, v);
        ExecRenamed(sem, code, out, i + 1, regs[c.dst := v], phys[d.dst := v]);
      }
    }
  }

  /** Renaming keeps the meaning of every single-assignment program: the same value is stored. */
  lemma RenameKeepsMeaning<V>(sem: (Op, seq<V>) -> V, code: seq<Instr>, out: seq<Instr>)
    requires SingleAssignment(code) && IsRenaming(code, out)
    ensures Exec(sem, out, map[]) == Exec(sem, code, map[])
  {
    ExecRenamed(sem, code, out, 0, map[], map[]);
    assert code[0..] == code && out[0..] == out;
  }

  // Emitted code: value i is written by instruction i and read later; the last instruction writes nothing.
  ghost predicate Dense(code: seq<Instr>) {
    && |code| > 0 && code[|code| - 1].dst < 0
    && SingleAssignment(code)
    && InOrder(code)
    && forall i | 0 <= i < |code| - 1 :: ReadAfter(code, i)
  }

  ghost predicate InOrder(code: seq<Instr>) {
    forall i | 0 <= i < |code| - 1 :: code[i].dst == i
  }

  ghost predicate ReadAfter(code: seq<Instr>, i: nat) {
    ReadFrom(code, i + 1, i)
  }

  lemma {:induction false} DenseDefined(code: seq<Instr>, i: nat)
    requires InOrder(code) && i < |code|
    ensures Defined(code, i) == Upto(i)
  {
    if i > 0 { DenseDefined(code, i - 1); }
  }

  // The registers of a set of values.
  ghost function Image(table: map<int, int>, values: set<int>): set<int> {
    set r <- values :: Phys(table, r)
  }

  lemma {:induction false} ImageSize(table: map<int, int>, values: set<int>)
    requires forall r, s | r in values && s in values && r != s :: Phys(table, r) != Phys(table, s)
    ensures |Image(table, values)| == |values|
  {
    if values != {} {
      var r := Pick(values);
      var rest := values - {r};
      ImageSize(table, rest);
      assert Image(table, values) == Image(table, rest) + {Phys(table, r)};
    }
  }

  lemma SubsetSize(a: set<int>, b: set<int>)
    requires a <= b
    ensures |a| <= |b|
  {
    assert b == a + (b - a);
  }

  // While values are numbered in order, each number below i is free or is a live value's register.
  ghost predicate NoneLost(code: seq<Instr>, i: nat)
    requires i <= |code|
  {
    var st := StateAt(code, i);
    forall x | 0 <= x < i :: x in st.free || x in Image(st.table, Live(code, i))
  }

  // How one step of the sweep moves registers between live values and the free list.
  lemma StepMoves(code: seq<Instr>, i: nat)
    requires Dense(code) && i < |code| - 1
    ensures var st, next, m := StateAt(code, i), StateAt(code, i + 1), RenameAt(code, i).dst;
            && 0 <= m <= i && i in Live(code, i + 1) && Phys(next.table, i) == m
            && (forall r | r in Live(code, i + 1) && r != i :: r in Live(code, i))
            && (forall r | r in Live(code, i) :: Phys(next.table, r) == Phys(st.table, r) && r != i)
            && (forall r | r in Live(code, i) && r !in Live(code, i + 1) ::
                  Phys(st.table, r) >= m && Phys(st.table, r) in next.free + {m})
            && (forall x <- st.free :: x >= m && x in next.free + {m})
            && (m < i ==> i in next.free)
  {
    StepMovesValues(code, i);
    StepMovesFree(code, i);
  }

  lemma StepMovesValues(code: seq<Instr>, i: nat)
    requires Dense(code) && i < |code| - 1
    ensures var st, next, m := StateAt(code, i), StateAt(code, i + 1), RenameAt(code, i).dst;
            && 0 <= m <= i && i in Live(code, i + 1) && Phys(next.table, i) == m
            && (forall r | r in Live(code, i + 1) && r != i :: r in Live(code, i))
            && (forall r | r in Live(code, i) :: Phys(next.table, r) == Phys(st.table, r) && r != i)
  {
    LiveValuesApart(code, i);
    ReleasedSources(code, i, StateAt(code, i));
    LiveNext(code, i);
    DenseDefined(code, i);
    DenseDefined(code, i + 1);
    assert ReadAfter(code, i);
  }

  lemma StepMovesFree(code: seq<Instr>, i: nat)
    requires Dense(code) && i < |code| - 1
    ensures var st, next, m := StateAt(code, i), StateAt(code, i + 1), RenameAt(code, i).dst;
            && (forall r | r in Live(code, i) && r !in Live(code, i + 1) ::
                  Phys(st.table, r) >= m && Phys(st.table, r) in next.free + {m})
            && (forall x <- st.free :: x >= m && x in next.free + {m})
            && (m < i ==> i in next.free)
  {
    LiveValuesApart(code, i);
    ReleasedSources(code, i, StateAt(code, i));
    LiveNext(code, i);
    DenseDefined(code, i);
  }

  lemma {:induction false} NothingIsLost(code: seq<Instr>, i: nat)
    requires Dense(code) && i < |code|
    ensures NoneLost(code, i)
  {
    if i > 0 {
      var k := i - 1;
      NothingIsLost(code, k);
      StepMoves(code, k);
      var st, next := StateAt(code, k), StateAt(code, i);
      forall x | 0 <= x < i && x !in next.free ensures x in Image(next.table, Live(code, i)) {
        if x == Phys(next.table, k) {
        } else {
          assert x < k && x !in st.free;
          var r :| r in Live(code, k) && Phys(st.table, r) == x;
          assert r in Live(code, i) && Phys(next.table, r) == x;
        }
      }
    }
  }

  // A destination is smaller than the number of values alive once it is written.
  lemma DestinationBelowLive(code: seq<Instr>, i: nat)
    requires Dense(code) && i < |code| - 1
    ensures 0 <= RenameAt(code, i).dst < |Live(code, i + 1)|
  {
    var st, next := StateAt(code, i), StateAt(code, i + 1);
    var m := RenameAt(code, i).dst;
    NothingIsLost(code, i);
    StepMoves(code, i);
    var others := Live(code, i + 1) - {i};
    forall x | x in Upto(m) ensures x in Image(next.table, others) {
      assert x !in st.free;
      var r :| r in Live(code, i) && Phys(st.table, r) == x;
      assert r in others && Phys(next.table, r) == x;
    }
    OthersApart(code, i);
    ImageSize(next.table, others);
    SubsetSize(Upto(m), Image(next.table, others));
  }

  lemma OthersApart(code: seq<Instr>, i: nat)
    requires Dense(code) && i < |code| - 1
    ensures var table, values := StateAt(code, i + 1).table, Live(code, i + 1) - {i};
            forall r, s | r in values && s in values && r != s :: Phys(table, r) != Phys(table, s)
  {
    LiveValuesApart(code, i + 1);
  }

  // The most values alive at once before the first n instructions.
  ghost function Peak(code: seq<Instr>, n: nat): nat
    requires n <= |code|
  {
    var here := |Live(code, n)|;
    if n == 0 then here
    else
      var before := Peak(code, n - 1);
      if before > here then before else here
  }

  lemma {:induction false} PeakBounds(code: seq<Instr>, n: nat, i: nat)
    requires i <= n <= |code|
    ensures |Live(code, i)| <= Peak(code, n)
  {
    if i < n { PeakBounds(code, n - 1, i); }
  }

  lemma {:induction false} PeakReached(code: seq<Instr>, n: nat) returns (at: nat)
    requires n <= |code|
    ensures at <= n && |Live(code, at)| == Peak(code, n)
  {
    if |Live(code, n)| == Peak(code, n) { at := n; } else { at := PeakReached(code, n - 1); }
  }

  // The registers written by a program that stores last.
  ghost function Written(out: seq<Instr>): set<int> {
    set i | 0 <= i < |out| - 1 :: out[i].dst
  }

  lemma {:induction false} TableKeys(code: seq<Instr>, i: nat)
    requires i <= |code|
    ensures StateAt(code, i).table.Keys <= Defined(code, i)
  {
    if i > 0 { TableKeys(code, i - 1); }
  }

  lemma PhysStep(code: seq<Instr>, k: nat)
    requires k < |code| && code[k].dst !in StateAt(code, k).table
    ensures forall r :: r != code[k].dst ==> Phys(StateAt(code, k + 1).table, r) == Phys(StateAt(code, k).table, r)
    ensures Phys(StateAt(code, k + 1).table, code[k].dst) == RenameAt(code, k).dst
  {
  }

  // The register of an old value is the destination its instruction was given.
  lemma {:induction false} PhysIsDestination(code: seq<Instr>, i: nat, r: nat)
    requires InOrder(code) && r < i < |code|
    ensures Phys(StateAt(code, i).table, r) == RenameAt(code, r).dst
  {
    DestinationIsNew(code, i - 1);
    PhysStep(code, i - 1);
    if r < i - 1 { PhysIsDestination(code, i - 1, r); }
  }

  lemma DestinationIsNew(code: seq<Instr>, k: nat)
    requires InOrder(code) && k + 1 < |code|
    ensures code[k].dst == k && code[k].dst !in StateAt(code, k).table
  {
    TableKeys(code, k);
    DenseDefined(code, k);
  }

  /** Renaming of emitted code writes exactly the registers 0 .. peak-1, where the peak is the largest number of
      values alive at once. */
  lemma RenameUsesThePeak(code: seq<Instr>, out: seq<Instr>)
    requires Dense(code) && IsRenaming(code, out)
    ensures Written(out) == Upto(Peak(code, |code| - 1))
  {
    var n := |code| - 1;
    var peak := Peak(code, n);
    forall x | x in Written(out) ensures x in Upto(peak) {
      var i :| 0 <= i < n && out[i].dst == x;
      DestinationBelowLive(code, i);
      PeakBounds(code, n, i + 1);
    }
    var at := PeakReached(code, n);
    var table := StateAt(code, at).table;
    LiveValuesApart(code, at);
    DenseDefined(code, at);
    ImageSize(table, Live(code, at));
    forall x | x in Image(table, Live(code, at)) ensures x in Written(out) {
      var r :| r in Live(code, at) && Phys(table, r) == x;
      PhysIsDestination(code, at, r);
      assert out[r].dst == x;
    }
    SameSize(Written(out), Upto(peak), Image(table, Live(code, at)));
  }

  lemma SameSize(a: set<int>, b: set<int>, c: set<int>)
    requires c <= a <= b && |c| == |b|
    ensures a == b
  {
    SubsetSize(c, a);
    assert b == c + (b - c);
    assert |b - c| == 0;
  }

  // An assignment of registers to values that keeps values alive at the same time apart.
  ghost predicate ValidAllocation(code: seq<Instr>, reg: map<int, int>) {
    forall i {:trigger Live(code, i)} | 0 <= i < |code| :: Apart(reg, Live(code, i))
  }

  ghost predicate Apart(reg: map<int, int>, values: set<int>) {
    && values <= reg.Keys
    && forall r, s | r in values && s in values && r != s :: reg[r] != reg[s]
  }

  lemma AllocationSize(reg: map<int, int>, values: set<int>)
    requires Apart(reg, values)
    ensures |values| <= |reg.Values|
  {
    forall r, s | r in values && s in values && r != s ensures Phys(reg, r) != Phys(reg, s) {
    }
    ImageSize(reg, values);
    forall x | x in Image(reg, values) ensures x in reg.Values {
      var r :| r in values && Phys(reg, r) == x;
    }
    SubsetSize(Image(reg, values), reg.Values);
  }

  lemma LiveFits(code: seq<Instr>, reg: map<int, int>, i: nat)
    requires i < |code| && ValidAllocation(code, reg)
    ensures |Live(code, i)| <= |reg.Values|
  {
    AllocationSize(reg, Live(code, i));
  }

  lemma PeakStep(code: seq<Instr>, n: nat, bound: nat)
    requires n < |code| && |Live(code, n)| <= bound && (n > 0 ==> Peak(code, n - 1) <= bound)
    ensures Peak(code, n) <= bound
  {
  }

  /** No allocation, however it chooses registers, uses fewer than the peak that renaming uses. */
  lemma {:induction false} NoAllocationBelowPeak(code: seq<Instr>, reg: map<int, int>, n: nat)
    requires n < |code| && ValidAllocation(code, reg)
    ensures Peak(code, n) <= |reg.Values|
  {
    LiveFits(code, reg, n);
    if n > 0 { NoAllocationBelowPeak(code, reg, n - 1); }
    PeakStep(code, n, |reg.Values|);
  }
}
