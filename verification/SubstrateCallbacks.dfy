/** Where callbacks go: each one issued is queued, held, replaced or called, and in one place only. */
module SubstrateCallbacks {
  import opened Options
  import opened Substrate
  import opened SubstrateInv
  import opened SubstrateConstruct
  import opened SubstrateMaintain

  lemma HeldLast(insts: seq<Inst>, inst: Inst)
    requires |insts| > 0
    ensures HeldIds(insts[|insts| - 1 := inst]) == HeldIds(insts[..|insts| - 1]) + CallbackIds(inst.callback)
  {
    assert insts[|insts| - 1 := inst][..|insts| - 1] == insts[..|insts| - 1];
  }

  lemma HeldInside(insts: seq<Inst>, i: Id, inst: Inst)
    requires i < |insts| - 1
    ensures HeldIds(insts[i := inst]) ==
            HeldIds(insts[..|insts| - 1][i := inst]) + CallbackIds(insts[|insts| - 1].callback)
  {
    assert insts[i := inst][..|insts| - 1] == insts[..|insts| - 1][i := inst];
  }

  // Changing one of a list exchanges its callback; first for the last one.
  lemma LastUpdate(insts: seq<Inst>, inst: Inst)
    requires |insts| > 0
    ensures var n := |insts| - 1;
            HeldIds(insts[n := inst]) + CallbackIds(insts[n].callback) == HeldIds(insts) + CallbackIds(inst.callback)
  {
    var n := |insts| - 1;
    HeldLast(insts, inst);
    Commute(HeldIds(insts[..n]), CallbackIds(inst.callback), CallbackIds(insts[n].callback));
  }

  lemma Commute(a: multiset<nat>, b: multiset<nat>, c: multiset<nat>)
    ensures (a + b) + c == (a + c) + b
  {
  }

  lemma {:induction false} HeldUpdate(insts: seq<Inst>, i: Id, inst: Inst)
    requires i < |insts|
    ensures HeldIds(insts[i := inst]) + CallbackIds(insts[i].callback) == HeldIds(insts) + CallbackIds(inst.callback)
  {
    var n := |insts| - 1;
    if i == n {
      LastUpdate(insts, inst);
    } else {
      var front := insts[..n];
      HeldUpdate(front, i, inst);
      HeldInside(insts, i, inst);
      assert front[i] == insts[i];
      Exchange(HeldIds(front[i := inst]), CallbackIds(insts[i].callback), HeldIds(front), CallbackIds(inst.callback),
               CallbackIds(insts[n].callback));
    }
  }

  lemma Exchange(a: multiset<nat>, b: multiset<nat>, c: multiset<nat>, d: multiset<nat>, e: multiset<nat>)
    requires a + b == c + d
    ensures (a + e) + b == (c + e) + d
  {
    calc {
      (a + e) + b;
      (a + b) + e;
      (c + d) + e;
      (c + e) + d;
    }
  }

  // A list that differs in no callback holds the same ones.
  lemma {:induction false} HeldSame(a: seq<Inst>, b: seq<Inst>)
    requires |a| == |b| && forall i {:trigger a[i]} {:trigger b[i]} | 0 <= i < |a| :: a[i].callback == b[i].callback
    ensures HeldIds(a) == HeldIds(b)
  {
    if |a| > 0 { HeldSame(a[..|a| - 1], b[..|b| - 1]); }
  }

  lemma HeldPush(a: seq<Inst>, inst: Inst)
    ensures HeldIds(a + [inst]) == HeldIds(a) + CallbackIds(inst.callback)
  {
    assert (a + [inst])[..|a|] == a;
  }

  lemma CalledPush(log: seq<Call>, c: Call)
    ensures CalledIds(log + [c]) == CalledIds(log) + multiset{c.callback.id}
  {
    assert (log + [c])[..|log|] == log;
  }

  lemma QueuedPush(tasks: seq<Task>, t: Task)
    ensures QueuedIds(tasks + [t]) == QueuedIds(tasks) + TaskIds(t)
  {
    assert (tasks + [t])[..|tasks|] == tasks;
  }

  lemma {:induction false} QueuedPop(tasks: seq<Task>)
    requires |tasks| > 0
    ensures QueuedIds(tasks) == TaskIds(tasks[0]) + QueuedIds(tasks[1..])
  {
    var n := |tasks| - 1;
    if n > 0 {
      QueuedPop(tasks[..n]);
      assert tasks[..n][1..] == tasks[1..][..n - 1];
      assert QueuedIds(tasks[1..]) == QueuedIds(tasks[1..][..n - 1]) + TaskIds(tasks[n]);
    } else {
      assert tasks[..n] == [] && tasks[1..] == [];
    }
  }

  // Moving a held callback to the log.
  lemma HeldToLog(st: State, i: Id, inst: Inst, frame: Option<Frame>)
    requires i < |st.insts| && inst.callback.None? && st.insts[i].callback.Some?
    ensures HeldIds(st.insts[i := inst]) + CalledIds(st.log + [Call(st.insts[i].callback.value, frame)]) ==
            HeldIds(st.insts) + CalledIds(st.log)
  {
    HeldUpdate(st.insts, i, inst);
    CalledPush(st.log, Call(st.insts[i].callback.value, frame));
    calc {
      HeldIds(st.insts[i := inst]) + CalledIds(st.log + [Call(st.insts[i].callback.value, frame)]);
      HeldIds(st.insts[i := inst]) + CallbackIds(st.insts[i].callback) + CalledIds(st.log);
      HeldIds(st.insts) + CallbackIds(inst.callback) + CalledIds(st.log);
      HeldIds(st.insts) + CalledIds(st.log);
    }
  }

  lemma AttachPlaces(st: State, i: Id, callback: Option<Callback>)
    requires i < |st.insts|
    ensures Placed(Attach(st, i, callback)) == Placed(st) + CallbackIds(callback)
  {
    var inst := st.insts[i];
    if callback.Some? {
      if inst.product.Some? {
        CalledPush(st.log, Call(callback.value, inst.product));
      } else {
        HeldUpdate(st.insts, i, inst.(callback := callback));
        var was, now := HeldIds(st.insts), HeldIds(Attach(st, i, callback).insts);
        calc {
          Placed(Attach(st, i, callback));
          now + CalledIds(st.log) + (st.replaced + CallbackIds(inst.callback));
          now + CallbackIds(inst.callback) + CalledIds(st.log) + st.replaced;
          was + CallbackIds(callback) + CalledIds(st.log) + st.replaced;
          Placed(st) + CallbackIds(callback);
        }
      }
    }
  }

  lemma CreatePlaces(g: Filters, st: State, key: Key, callback: Option<Callback>, deps: seq<Id>)
    requires (forall j <- deps :: j < |st.insts|) && TableInRange(st)
    ensures Placed(Create(g, st, key, callback, deps)) == Placed(st) + CallbackIds(callback)
  {
    var inputs := deps + FalseInput(g, st, key);
    var linked := LinkInputs(st.insts, inputs, |st.insts|);
    var s := Create(g, st, key, callback, deps);
    LinkInputsFacts(st.insts, inputs, |st.insts|);
    HeldSame(st.insts, linked);
    HeldPush(linked, NewInst(g, st, key, callback, inputs));
    assert HeldIds(s.insts) == HeldIds(st.insts) + CallbackIds(callback);
    assert s.log == st.log && s.replaced == st.replaced;
    Aside(HeldIds(st.insts), CallbackIds(callback), CalledIds(st.log), st.replaced);
  }

  lemma Aside(a: multiset<nat>, b: multiset<nat>, c: multiset<nat>, d: multiset<nat>)
    ensures (a + b) + c + d == (a + c + d) + b
  {
  }

  /** Constructing puts the request's callback in one place. */
  lemma {:induction false} ConstructPlaces(g: Filters, st: State, key: Key, callback: Option<Callback>)
    requires Acyclic(g) && TableInRange(st)
    ensures var s := ConstructFrame(g, st, key, callback).0;
            Placed(s) == Placed(st) + CallbackIds(callback) && s.tasks == st.tasks && s.issued == st.issued
    decreases g.rank(key), 1, 0
  {
    if key in st.table {
      AttachPlaces(st, st.table[key], callback);
    } else {
      var (s, inputs) := ConstructDeps(g, st, key, g.deps(key));
      ConstructDepsPlaces(g, st, key, g.deps(key));
      CreatePlaces(g, s, key, callback, inputs);
    }
  }

  lemma {:induction false} ConstructDepsPlaces(g: Filters, st: State, parent: Key, deps: seq<Key>)
    requires Acyclic(g) && TableInRange(st) && forall d <- deps :: g.rank(d) < g.rank(parent)
    ensures var s := ConstructDeps(g, st, parent, deps).0;
            Placed(s) == Placed(st) && s.tasks == st.tasks && s.issued == st.issued
    decreases g.rank(parent), 0, |deps|
  {
    if |deps| > 0 {
      assert deps[0] in deps;
      ConstructPlaces(g, st, deps[0], None);
      ConstructDepsPlaces(g, ConstructFrame(g, st, deps[0], None).0, parent, deps[1..]);
    }
  }

  lemma KillOnePlaces(st: State, i: Id)
    requires i < |st.insts|
    ensures Placed(KillOne(st, i)) == Placed(st)
  {
    var inst := st.insts[i].(callback := None, drops := st.insts[i].drops + 1);
    var r := KillOne(st, i);
    assert r.insts == st.insts[i := inst] && r.replaced == st.replaced;
    if st.insts[i].callback.Some? {
      HeldToLog(st, i, inst, None);
      assert r.log == st.log + [Call(st.insts[i].callback.value, None)];
    } else {
      HeldSame(st.insts, r.insts);
      assert r.log == st.log;
    }
    assert HeldIds(r.insts) + CalledIds(r.log) == HeldIds(st.insts) + CalledIds(st.log);
  }

  lemma {:induction false} KillTreePlaces(st: State, i: Id)
    requires Linked(st.insts) && i < |st.insts|
    ensures var r := KillTree(st, i); Placed(r) == Placed(st) && r.tasks == st.tasks && r.issued == st.issued
    decreases |st.insts| - i, 1, 0
  {
    KillOnePlaces(st, i);
    assert Linked(KillOne(st, i).insts);
    KillOutputsPlaces(KillOne(st, i), i, st.insts[i].outputs);
  }

  lemma {:induction false} KillOutputsPlaces(st: State, i: Id, outputs: seq<Id>)
    requires Linked(st.insts) && i < |st.insts| && forall o <- outputs :: i < o < |st.insts|
    ensures var r := KillOutputs(st, i, outputs); Placed(r) == Placed(st) && r.tasks == st.tasks && r.issued == st.issued
    decreases |st.insts| - i, 0, |outputs|
  {
    if |outputs| > 0 {
      assert outputs[0] in outputs;
      assert forall x | x in outputs[1..] :: x in outputs;
      if outputs[0] in st.alive { KillTreePlaces(st, outputs[0]); }
      KillOutputsPlaces(if outputs[0] in st.alive then KillTree(st, outputs[0]) else st, i, outputs[1..]);
    }
  }

  lemma AnswerPlaces(st: State, i: Id)
    requires i < |st.insts|
    ensures Placed(Answer(st, i)) == Placed(st)
  {
    if st.insts[i].callback.Some? {
      HeldToLog(st, i, st.insts[i].(callback := None), st.insts[i].product);
    }
  }

  lemma {:induction false} PostOutputsPlaces(st: State, outputs: seq<Id>)
    requires Linked(st.insts) && forall o <- outputs :: o < |st.insts|
    ensures var r := PostOutputs(st, outputs);
            r.log == st.log && r.replaced == st.replaced && r.tasks == st.tasks && r.issued == st.issued
    decreases |outputs|
  {
    if |outputs| > 0 {
      assert outputs[0] in outputs;
      assert forall x | x in outputs[1..] :: x in outputs;
      PostOutputsPlaces(PostOutput(st, outputs[0]), outputs[1..]);
    }
  }

  lemma NotifyPlaces(st: State, i: Id, failed: bool)
    requires InRange(st)
    ensures var r := HandleNotify(st, i, failed); Placed(r) == Placed(st) && r.tasks == st.tasks && r.issued == st.issued
  {
    if i in st.alive {
      var s := OpenNeck(st, i);
      HeldSame(st.insts, s.insts);
      if failed {
        KillTreePlaces(s, i);
      } else {
        PostOutputsPlaces(s, s.insts[i].outputs);
        AnswerPlaces(PostOutputs(s, s.insts[i].outputs), i);
      }
    }
  }

  lemma TaskPlaces(g: Filters, st: State)
    requires Acyclic(g) && |st.tasks| > 0 && InRange(st)
    ensures var h := HandleTask(g, st);
            Placed(h) == Placed(st) + TaskIds(st.tasks[0]) && h.tasks == st.tasks[1..] && h.issued == st.issued
  {
    match st.tasks[0] {
      case Construct(key, callback) => ConstructPlaces(g, Popped(st), key, callback);
      case Notify(i, failed) => NotifyPlaces(Popped(st), i, failed);
    }
  }

  lemma ReleasePlaces(st: State)
    ensures var s := ReleaseAll(st); Placed(s) == Placed(st) && s.tasks == st.tasks && s.issued == st.issued
  {
    HeldSame(st.insts, ReleaseAll(st).insts);
  }

  /** A task of the maintainer moves callbacks but keeps each in one place. */
  lemma MaintainConserves(g: Filters, st: State)
    requires Acyclic(g) && |st.tasks| > 0 && InRange(st) && Conserved(st)
    ensures Conserved(Maintain(g, st))
  {
    QueuedPop(st.tasks);
    TaskPlaces(g, st);
    ReleasePlaces(HandleTask(g, st));
    Moved(QueuedIds(st.tasks), TaskIds(st.tasks[0]), QueuedIds(st.tasks[1..]), Placed(st), Placed(HandleTask(g, st)));
  }

  lemma Moved(q: multiset<nat>, t: multiset<nat>, rest: multiset<nat>, before: multiset<nat>, after: multiset<nat>)
    requires q == t + rest && after == before + t
    ensures rest + after == q + before
  {
    calc {
      rest + (before + t);
      (t + rest) + before;
    }
  }
}
