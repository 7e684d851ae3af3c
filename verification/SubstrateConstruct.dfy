/** Constructing frames keeps the invariant. */
module SubstrateConstruct {
  import opened Options
  import opened Substrate
  import opened SubstrateInv

  // Answering a request at once, or holding its callback

  lemma AttachInst(g: Filters, st: State, i: Id, callback: Option<Callback>, x: Id)
    requires Acyclic(g) && Linked(st.insts) && x < |st.insts| && InstAt(g, st, x) && i < |st.insts| && i in st.alive
    requires callback.Some? ==> callback.value.key == st.insts[i].key
    ensures Linked(Attach(st, i, callback).insts) && InstAt(g, Attach(st, i, callback), x)
  {
    var s := Attach(st, i, callback);
    SameGraphFacts(g, st.insts, s.insts);
    AttachKeepsTaken(st, i, callback, x);
    AttachKeepsHeld(st, i, callback, x);
    assert ProductAt(g, s, x);
  }

  lemma AttachKeepsHeld(st: State, i: Id, callback: Option<Callback>, x: Id)
    requires i < |st.insts| && i in st.alive && x < |st.insts|
    requires callback.Some? ==> callback.value.key == st.insts[i].key
    requires HeldAt(st, x) && NeckAt(st, x)
    ensures HeldAt(Attach(st, i, callback), x) && NeckAt(Attach(st, i, callback), x)
  {
  }

  lemma AttachKeepsTaken(st: State, i: Id, callback: Option<Callback>, x: Id)
    requires i < |st.insts| && x < |st.insts| && Linked(st.insts) && Linked(Attach(st, i, callback).insts)
    requires TakenAt(st, x) && ProgressAt(st, x) && InputsReady(Attach(st, i, callback).insts, x) == InputsReady(st.insts, x)
    ensures TakenAt(Attach(st, i, callback), x) && ProgressAt(Attach(st, i, callback), x)
  {
  }

  lemma AttachKeepsCore(g: Filters, st: State, i: Id, callback: Option<Callback>)
    requires Core(g, st) && i in st.alive
    requires callback.Some? ==> callback.value.key == st.insts[i].key
    ensures Core(g, Attach(st, i, callback))
  {
    assert InstAt(g, st, i);
    AttachShared(g, st, i, callback);
    forall x | 0 <= x < |st.insts| ensures InstAt(g, Attach(st, i, callback), x) {
      AttachInst(g, st, i, callback, x);
    }
  }

  lemma AttachShared(g: Filters, st: State, i: Id, callback: Option<Callback>)
    requires Shared(g, st) && i in st.alive && ProductAt(g, st, i)
    requires callback.Some? ==> callback.value.key == st.insts[i].key
    ensures Shared(g, Attach(st, i, callback))
  {
    var s := Attach(st, i, callback);
    SameGraphFacts(g, st.insts, s.insts);
  }

  // Linking a new instance

  lemma {:induction false} LinkInputsFacts(insts: seq<Inst>, inputs: seq<Id>, n: Id)
    requires forall j <- inputs :: j < |insts|
    ensures var r := LinkInputs(insts, inputs, n);
            && (forall x {:trigger r[x]} {:trigger insts[x]} | 0 <= x < |insts| :: r[x] == insts[x].(outputs := r[x].outputs))
            && (forall x, o {:trigger o in r[x].outputs} | 0 <= x < |insts| ::
                  o in r[x].outputs <==> o in insts[x].outputs || (o == n && x in inputs))
    decreases |inputs|
  {
    if |inputs| > 0 {
      var j := inputs[0];
      assert j in inputs;
      assert forall x | x in inputs[1..] :: x in inputs;
      assert inputs == [j] + inputs[1..];
      LinkInputsFacts(insts[j := insts[j].(outputs := insts[j].outputs + [n])], inputs[1..], n);
    }
  }

  // The inputs a new instance of this key may have: live instances, the first of them its dependencies.
  ghost predicate GoodInputs(g: Filters, st: State, key: Key, inputs: seq<Id>)
    requires InRange(st)
  {
    && (forall j <- inputs :: j in st.alive)
    && |g.deps(key)| <= |inputs|
    && forall d | 0 <= d < |g.deps(key)| :: inputs[d] in st.alive && st.insts[inputs[d]].key == g.deps(key)[d]
  }

  // The instance list with a new last instance linked in.
  ghost predicate Extended(a: seq<Inst>, b: seq<Inst>, last: Inst) {
    && |b| == |a| + 1 && b[|a|] == last && last.outputs == []
    && (forall x {:trigger b[x]} {:trigger a[x]} | 0 <= x < |a| :: b[x] == a[x].(outputs := b[x].outputs))
    && (forall x, o {:trigger o in b[x].outputs} | 0 <= x < |a| ::
          o in b[x].outputs <==> o in a[x].outputs || (o == |a| && x in last.inputs))
  }

  lemma AddInstExtends(g: Filters, st: State, key: Key, callback: Option<Callback>, inputs: seq<Id>)
    requires forall j <- inputs :: j < |st.insts|
    ensures Extended(st.insts, AddInst(g, st, key, callback, inputs).insts, NewInst(g, st, key, callback, inputs))
  {
    LinkInputsFacts(st.insts, inputs, |st.insts|);
  }

  lemma ExtendedGraph(g: Filters, a: seq<Inst>, b: seq<Inst>, last: Inst)
    requires Linked(a) && Mutual(a) && Extended(a, b, last) && forall j <- last.inputs :: j < |a|
    ensures Linked(b) && Mutual(b)
    ensures forall i {:trigger InputsReady(b, i)} | 0 <= i < |a| :: InputsReady(a, i) <==> InputsReady(b, i)
    ensures forall i {:trigger InputsAreDeps(g, b, i)} | 0 <= i < |a| :: InputsAreDeps(g, a, i) ==> InputsAreDeps(g, b, i)
  {
    forall i, j | 0 <= i < |b| && 0 <= j < |b| ensures j in b[i].inputs <==> i in b[j].outputs {
      if i < |a| && j < |a| {
        assert j in a[i].inputs <==> i in a[j].outputs;
      } else if i < |a| && j == |a| {
        assert j !in b[i].inputs;
      }
    }
  }

  // All that is asked of an instance but that something will send it.
  ghost predicate AtRest(g: Filters, st: State, i: Id)
    requires Acyclic(g) && i < |st.insts| && Linked(st.insts)
  {
    ProductAt(g, st, i) && TakenAt(st, i) && HeldAt(st, i) && NeckAt(st, i)
  }

  // Sending a ready frame on gives it what it lacks and changes nothing for the others.
  lemma PostWorkInst(g: Filters, st: State, i: Id, x: Id)
    requires Acyclic(g) && Linked(st.insts) && i < |st.insts| && x < |st.insts|
    requires i in st.alive && st.insts[i].product.None? && InputsReady(st.insts, i)
    requires if x == i then AtRest(g, st, x) else InstAt(g, st, x)
    ensures InstAt(g, PostWork(st, i), x)
  {
    var s := PostWork(st, i);
    assert x != i ==> (Handed(s, x) <==> Handed(st, x)) && (x in s.waiting <==> x in st.waiting);
  }

  lemma PostWorkShared(g: Filters, st: State, i: Id)
    requires Shared(g, st) && i < |st.insts|
    ensures Shared(g, PostWork(st, i))
  {
  }

  // What adding an instance does to the rest of the state.
  lemma AddShared(g: Filters, st: State, key: Key, callback: Option<Callback>, inputs: seq<Id>)
    requires Shared(g, st) && key !in st.table && forall j <- inputs :: j in st.alive
    ensures Shared(g, AddInst(g, st, key, callback, inputs))
  {
    var s := AddInst(g, st, key, callback, inputs);
    AddInstExtends(g, st, key, callback, inputs);
    ExtendedGraph(g, st.insts, s.insts, NewInst(g, st, key, callback, inputs));
    AddTable(st, s, key);
    forall x | x in s.busy ensures HasReleased(s, x) {
      assert HasReleased(st, x);
      var i :| 0 <= i < |st.insts| && st.insts[i].released && st.insts[i].key.sub == x;
      assert s.insts[i].released;
    }
  }

  lemma AddTable(st: State, s: State, key: Key)
    requires InRange(st) && TableInv(st) && InRange(s) && key !in st.table
    requires s.table == st.table[key := |st.insts|] && s.alive == st.alive + {|st.insts|}
    requires |s.insts| == |st.insts| + 1 && s.insts[|st.insts|].key == key
    requires forall i | 0 <= i < |st.insts| :: s.insts[i].key == st.insts[i].key
    ensures TableInv(s)
  {
  }

  lemma AddOld(g: Filters, st: State, key: Key, callback: Option<Callback>, inputs: seq<Id>, x: Id)
    requires Core(g, st) && (forall j <- inputs :: j in st.alive) && x < |st.insts|
    ensures var s := AddInst(g, st, key, callback, inputs); x < |s.insts| && Linked(s.insts) && InstAt(g, s, x)
  {
    var s := AddInst(g, st, key, callback, inputs);
    AddInstExtends(g, st, key, callback, inputs);
    ExtendedGraph(g, st.insts, s.insts, NewInst(g, st, key, callback, inputs));
    assert InstAt(g, st, x);
    assert s.insts[x] == st.insts[x].(outputs := s.insts[x].outputs);
  }

  lemma AddNew(g: Filters, st: State, key: Key, callback: Option<Callback>, inputs: seq<Id>)
    requires Shared(g, st) && GoodInputs(g, st, key, inputs)
    requires callback.Some? ==> callback.value.key == key
    ensures var s := AddInst(g, st, key, callback, inputs);
            |s.insts| == |st.insts| + 1 && Linked(s.insts) && AtRest(g, s, |st.insts|)
            && s.insts[|st.insts|].product.None?
            && (InputsReady(s.insts, |st.insts|) || InstAt(g, s, |st.insts|))
  {
    var s := AddInst(g, st, key, callback, inputs);
    var n := |st.insts|;
    AddInstExtends(g, st, key, callback, inputs);
    ExtendedGraph(g, st.insts, s.insts, NewInst(g, st, key, callback, inputs));
    assert !Handed(st, n) && n !in st.waiting && !DonePending(st, n) && Notify(n, true) !in st.tasks;
  }

  lemma CreateKeepsCore(g: Filters, st: State, key: Key, callback: Option<Callback>, deps: seq<Id>)
    requires Core(g, st) && key !in st.table && GoodInputs(g, st, key, deps)
    requires callback.Some? ==> callback.value.key == key
    ensures Core(g, Create(g, st, key, callback, deps))
  {
    var inputs := deps + FalseInput(g, st, key);
    GoodFalseInput(g, st, key, deps);
    CreateShared(g, st, key, callback, deps);
    var s := Create(g, st, key, callback, deps);
    forall x | 0 <= x < |s.insts| ensures InstAt(g, s, x) {
      CreateInst(g, st, key, callback, inputs, x);
    }
  }

  lemma GoodFalseInput(g: Filters, st: State, key: Key, deps: seq<Id>)
    requires Core(g, st) && GoodInputs(g, st, key, deps)
    ensures GoodInputs(g, st, key, deps + FalseInput(g, st, key))
  {
  }

  lemma CreateShared(g: Filters, st: State, key: Key, callback: Option<Callback>, deps: seq<Id>)
    requires Core(g, st) && key !in st.table && GoodInputs(g, st, key, deps)
    requires callback.Some? ==> callback.value.key == key
    ensures var added := AddInst(g, st, key, callback, deps + FalseInput(g, st, key));
            Linked(added.insts) && |added.insts| == |st.insts| + 1
    ensures Shared(g, Create(g, st, key, callback, deps))
    ensures |Create(g, st, key, callback, deps).insts| == |st.insts| + 1
  {
    var inputs := deps + FalseInput(g, st, key);
    GoodFalseInput(g, st, key, deps);
    AddShared(g, st, key, callback, inputs);
    AddNew(g, st, key, callback, inputs);
    var added := AddInst(g, st, key, callback, inputs);
    if InputsReady(added.insts, |st.insts|) { PostWorkShared(g, added, |st.insts|); }
  }

  lemma CreateInst(g: Filters, st: State, key: Key, callback: Option<Callback>, inputs: seq<Id>, x: Id)
    requires Core(g, st) && GoodInputs(g, st, key, inputs) && x <= |st.insts|
    requires callback.Some? ==> callback.value.key == key
    requires var added := AddInst(g, st, key, callback, inputs);
             Linked(added.insts) && |added.insts| == |st.insts| + 1
    ensures var added := AddInst(g, st, key, callback, inputs);
            InstAt(g, if InputsReady(added.insts, |st.insts|) then PostWork(added, |st.insts|) else added, x)
  {
    var added := AddInst(g, st, key, callback, inputs);
    AddNew(g, st, key, callback, inputs);
    if x < |st.insts| { AddOld(g, st, key, callback, inputs, x); }
    if InputsReady(added.insts, |st.insts|) { PostWorkInst(g, added, |st.insts|, x); }
  }

  // What constructing leaves alone: live instances stay alive under their key, and new keys have a small rank.
  ghost predicate Grows(g: Filters, a: State, b: State, rank: nat) {
    && |a.insts| <= |b.insts| && a.alive <= b.alive && a.tasks == b.tasks
    && (forall i {:trigger a.insts[i]} {:trigger b.insts[i]} | 0 <= i < |a.insts| ::
          b.insts[i] == a.insts[i].(callback := b.insts[i].callback, outputs := b.insts[i].outputs))
    && (forall k {:trigger k in b.table} | k in b.table :: k in a.table || g.rank(k) < rank)
  }

  lemma GrowsAgain(g: Filters, a: State, b: State, c: State, r1: nat, r2: nat, r: nat)
    requires Grows(g, a, b, r1) && Grows(g, b, c, r2) && r1 <= r && r2 <= r
    ensures Grows(g, a, c, r)
  {
  }

  lemma CreateGrows(g: Filters, st: State, key: Key, callback: Option<Callback>, deps: seq<Id>)
    requires InRange(st) && GoodInputs(g, st, key, deps)
    ensures var s := Create(g, st, key, callback, deps);
            && Grows(g, st, s, g.rank(key) + 1)
            && |st.insts| < |s.insts| && |st.insts| in s.alive && s.insts[|st.insts|].key == key
  {
    AddInstExtends(g, st, key, callback, deps + FalseInput(g, st, key));
  }

  lemma AttachGrows(g: Filters, st: State, i: Id, callback: Option<Callback>)
    requires InRange(st) && i in st.alive
    ensures Grows(g, st, Attach(st, i, callback), 0)
  {
  }

  // Live instances for these frames, in order.
  ghost predicate Represent(st: State, ids: seq<Id>, keys: seq<Key>) {
    && |ids| == |keys|
    && forall d | 0 <= d < |keys| :: ids[d] in st.alive && ids[d] < |st.insts| && st.insts[ids[d]].key == keys[d]
  }

  // The last step of constructing a missing frame, once its dependencies are there.
  lemma CreateMissing(g: Filters, st: State, s: State, key: Key, callback: Option<Callback>, deps: seq<Id>)
    requires Core(g, s) && Grows(g, st, s, g.rank(key)) && key !in st.table && Represent(s, deps, g.deps(key))
    requires callback.Some? ==> callback.value.key == key
    ensures (forall j <- deps :: j < |s.insts|) && TableInRange(s)
    ensures var r := Create(g, s, key, callback, deps);
            && Core(g, r) && Grows(g, st, r, g.rank(key) + 1)
            && |s.insts| in r.alive && |s.insts| < |r.insts| && r.insts[|s.insts|].key == key
  {
    assert GoodInputs(g, s, key, deps) by {
      forall j | j in deps ensures j in s.alive {
        var d :| 0 <= d < |deps| && deps[d] == j;
      }
    }
    CreateKeepsCore(g, s, key, callback, deps);
    CreateGrows(g, s, key, callback, deps);
    GrowsAgain(g, st, s, Create(g, s, key, callback, deps), g.rank(key), g.rank(key) + 1, g.rank(key) + 1);
  }

  // Constructing a frame that is there.
  lemma AttachFound(g: Filters, st: State, key: Key, callback: Option<Callback>)
    requires Core(g, st) && key in st.table && (callback.Some? ==> callback.value.key == key)
    ensures st.table[key] in st.alive && st.table[key] < |st.insts|
    ensures var s := Attach(st, st.table[key], callback);
            && Core(g, s) && Grows(g, st, s, g.rank(key) + 1)
            && st.table[key] in s.alive && st.table[key] < |s.insts| && s.insts[st.table[key]].key == key
  {
    var i := st.table[key];
    assert i in st.alive && st.insts[i].key == key;
    AttachKeepsCore(g, st, i, callback);
    AttachGrows(g, st, i, callback);
    GrowsMore(g, st, Attach(st, i, callback), 0, g.rank(key) + 1);
  }

  lemma GrowsMore(g: Filters, a: State, b: State, r1: nat, r: nat)
    requires Grows(g, a, b, r1) && r1 <= r
    ensures Grows(g, a, b, r)
  {
  }

  /** Constructing a frame keeps the invariant and leaves the frame in the table. */
  lemma {:induction false} ConstructKeepsCore(g: Filters, st: State, key: Key, callback: Option<Callback>)
    requires Core(g, st) && (callback.Some? ==> callback.value.key == key)
    ensures var (s, i) := ConstructFrame(g, st, key, callback);
            Core(g, s) && Grows(g, st, s, g.rank(key) + 1) && i in s.alive && s.insts[i].key == key
    decreases g.rank(key), 1, 0
  {
    if key in st.table {
      AttachFound(g, st, key, callback);
    } else {
      var (s, inputs) := ConstructDeps(g, st, key, g.deps(key));
      ConstructDepsKeepsCore(g, st, key, g.deps(key));
      CreateMissing(g, st, s, key, callback, inputs);
    }
  }

  lemma RepresentGrows(g: Filters, a: State, b: State, rank: nat, i: Id, rest: seq<Id>, keys: seq<Key>)
    requires |keys| > 0 && Represent(b, rest, keys[1..]) && Grows(g, a, b, rank)
    requires i in a.alive && i < |a.insts| && a.insts[i].key == keys[0]
    ensures Represent(b, [i] + rest, keys)
  {
  }

  lemma {:induction false} ConstructDepsKeepsCore(g: Filters, st: State, parent: Key, deps: seq<Key>)
    requires Core(g, st) && forall d <- deps :: g.rank(d) < g.rank(parent)
    ensures var (s, r) := ConstructDeps(g, st, parent, deps);
            Core(g, s) && Grows(g, st, s, g.rank(parent)) && Represent(s, r, deps)
    decreases g.rank(parent), 0, |deps|
  {
    if |deps| > 0 {
      assert deps[0] in deps;
      var (s1, i) := ConstructFrame(g, st, deps[0], None);
      ConstructKeepsCore(g, st, deps[0], None);
      var (s2, rest) := ConstructDeps(g, s1, parent, deps[1..]);
      ConstructDepsKeepsCore(g, s1, parent, deps[1..]);
      GrowsAgain(g, st, s1, s2, g.rank(deps[0]) + 1, g.rank(parent), g.rank(parent));
      RepresentGrows(g, s1, s2, g.rank(parent), i, rest, deps);
    }
  }
}
