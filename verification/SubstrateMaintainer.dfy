/** The maintainer as the source runs it: tables updated in place by recursive calls and loops. */
module SubstrateMaintainer {
  import opened Options
  import opened Substrate
  import opened SubstrateInv
  import opened SubstrateMaintain

  class Maintainer {
    var insts: seq<Inst>
    var instances: map<Key, Id>
    var alive: set<Id>
    var busy: set<nat>
    var waiting: set<Id>
    var work: multiset<Id>
    var log: seq<Call>
    var replaced: multiset<nat>
    var tick: nat
    // What the maintainer reads but the workers and clients write.
    ghost var others: State

    ghost function Abs(): State
      reads this
    {
      State(insts, instances, alive, busy, waiting, work, others.computing, others.stored, others.reposting,
            others.tasks, log, replaced, others.issued, tick)
    }

    constructor ()
      ensures Abs() == Initial
    {
      insts, instances, alive, busy, waiting, work := [], map[], {}, {}, {}, multiset{};
      log, replaced, tick, others := [], multiset{}, 0, Initial;
    }

    method PostWork(i: Id)
      requires i < |insts|
      modifies this
      ensures Abs() == Substrate.PostWork(old(Abs()), i)
    {
      if !insts[i].single {
        work := work + multiset{i};
      } else {
        waiting := waiting + {i};
      }
    }

    method Link(inputs: seq<Id>, n: Id)
      requires forall j <- inputs :: j < |insts|
      modifies this`insts
      ensures insts == LinkInputs(old(insts), inputs, n)
      decreases |inputs|
    {
      ghost var start := insts;
      var d := 0;
      while d < |inputs|
        invariant 0 <= d <= |inputs| && |insts| == |start|
        invariant forall j | j in inputs[d..] :: j in inputs
        invariant LinkInputs(insts, inputs[d..], n) == LinkInputs(start, inputs, n)
      {
        var j := inputs[d];
        assert j in inputs;
        assert inputs[d..][0] == j && inputs[d..][1..] == inputs[d + 1..];
        assert forall x | x in inputs[d + 1..] :: x in inputs[d..];
        insts := insts[j := insts[j].(outputs := insts[j].outputs + [n])];
        d := d + 1;
      }
      assert inputs[d..] == [];
    }

    method AttachCallback(i: Id, callback: Option<Callback>)
      requires i < |insts|
      modifies this
      ensures Abs() == Attach(old(Abs()), i, callback)
    {
      if callback.Some? {
        if insts[i].product.Some? {
          log := log + [Call(callback.value, insts[i].product)];
        } else {
          replaced := replaced + CallbackIds(insts[i].callback);
          insts := insts[i := insts[i].(callback := callback)];
        }
      }
    }

    method Add(g: Filters, key: Key, callback: Option<Callback>, deps: seq<Id>)
      requires (forall j <- deps :: j < |insts|) && TableInRange(Abs())
      modifies this
      ensures Abs() == Create(g, old(Abs()), key, callback, deps)
    {
      var inputs := deps;
      if g.makeLinear(key.sub) && key.frame > 0 && Key(key.sub, key.frame - 1) in instances {
        inputs := inputs + [instances[Key(key.sub, key.frame - 1)]];
      }
      var i := |insts|;
      Link(inputs, i);
      insts := insts + [Inst(key, inputs, [], callback, tick, None, false, g.singleThreaded(key.sub), false, false, 0)];
      instances := instances[key := i];
      alive := alive + {i};
      assert inputs == deps + FalseInput(g, old(Abs()), key);
      assert Abs() == AddInst(g, old(Abs()), key, callback, inputs);
      if InputsReady(insts, i) {
        PostWork(i);
      }
    }

    method Construct(g: Filters, key: Key, callback: Option<Callback>) returns (i: Id)
      requires Acyclic(g) && TableInRange(Abs())
      modifies this
      ensures (Abs(), i) == ConstructFrame(g, old(Abs()), key, callback)
      decreases g.rank(key), 1, 0
    {
      if key in instances {
        i := instances[key];
        AttachCallback(i, callback);
      } else {
        var inputs := Inputs(g, key, g.deps(key));
        i := |insts|;
        Add(g, key, callback, inputs);
      }
    }

    method Inputs(g: Filters, parent: Key, deps: seq<Key>) returns (r: seq<Id>)
      requires Acyclic(g) && TableInRange(Abs()) && forall d <- deps :: g.rank(d) < g.rank(parent)
      modifies this
      ensures (Abs(), r) == ConstructDeps(g, old(Abs()), parent, deps)
      decreases g.rank(parent), 0, |deps|
    {
      r := [];
      if |deps| > 0 {
        assert deps[0] in deps;
        var i := Construct(g, deps[0], None);
        var rest := Inputs(g, parent, deps[1..]);
        r := [i] + rest;
      }
    }

    method KillTree(i: Id)
      requires Linked(insts) && i < |insts|
      modifies this
      ensures Abs() == Substrate.KillTree(old(Abs()), i)
      decreases |insts| - i, 1, 0
    {
      var outputs := insts[i].outputs;
      if insts[i].callback.Some? {
        log := log + [Call(insts[i].callback.value, None)];
      }
      insts := insts[i := insts[i].(callback := None, drops := insts[i].drops + 1)];
      assert Abs() == KillOne(old(Abs()), i);
      KillAll(i, outputs);
      alive := alive - {i};
    }

    method KillAll(i: Id, outputs: seq<Id>)
      requires Linked(insts) && i < |insts| && forall o <- outputs :: i < o < |insts|
      modifies this
      ensures Abs() == KillOutputs(old(Abs()), i, outputs)
      decreases |insts| - i, 0, |outputs|
    {
      if |outputs| > 0 {
        assert outputs[0] in outputs;
        assert forall x | x in outputs[1..] :: x in outputs;
        if outputs[0] in alive {
          KillTree(outputs[0]);
        }
        KillAll(i, outputs[1..]);
      }
    }

    method Open(i: Id)
      requires i < |insts|
      modifies this`insts, this`busy, this`waiting
      ensures Abs() == OpenNeck(old(Abs()), i)
    {
      if insts[i].single {
        busy := busy - {insts[i].key.sub};
        waiting := waiting - {i};
        insts := insts[i := insts[i].(single := false, released := false)];
      }
    }

    method HandleReport(i: Id, failed: bool)
      requires InRange(Abs())
      modifies this
      ensures Abs() == HandleNotify(old(Abs()), i, failed)
    {
      if i !in alive {
        return;
      }
      Open(i);
      if failed {
        KillTree(i);
        instances := map k | k in instances && instances[k] in alive :: instances[k];
      } else {
        SendOutputs(insts[i].outputs);
        if insts[i].callback.Some? {
          log := log + [Call(insts[i].callback.value, insts[i].product)];
          insts := insts[i := insts[i].(callback := None)];
        }
      }
    }

    method SendOutputs(outputs: seq<Id>)
      requires Linked(insts) && forall o <- outputs :: o < |insts|
      modifies this
      ensures Abs() == PostOutputs(old(Abs()), outputs)
    {
      ghost var start := Abs();
      var d := 0;
      while d < |outputs|
        invariant 0 <= d <= |outputs| && insts == start.insts
        invariant forall o | o in outputs[d..] :: o in outputs
        invariant PostOutputs(Abs(), outputs[d..]) == PostOutputs(start, outputs)
      {
        var o := outputs[d];
        assert o in outputs;
        assert outputs[d..][0] == o && outputs[d..][1..] == outputs[d + 1..];
        assert forall x | x in outputs[d + 1..] :: x in outputs[d..];
        ghost var before := Abs();
        if o in alive && insts[o].product.None? && InputsReady(insts, o) {
          PostWork(o);
        }
        assert Abs() == PostOutput(before, o);
        d := d + 1;
      }
      assert outputs[d..] == [];
    }

    // The first frame in the neck of a substrate.
    method Earliest(s: nat) returns (i: Id)
      requires exists j :: j in waiting && j < |insts| && insts[j].key.sub == s && IsEarliest(Abs(), j)
      ensures i in waiting && i < |insts| && insts[i].key.sub == s && IsEarliest(Abs(), i)
    {
      ghost var j :| j in waiting && j < |insts| && insts[j].key.sub == s && IsEarliest(Abs(), j);
      assert forall k | k in waiting && k < |insts| && insts[k].key.sub == s :: Before(Abs(), j, k);
      i :| i in waiting && i < |insts| && insts[i].key.sub == s &&
           forall k | k in waiting :: k < |insts| && insts[k].key.sub == s ==>
             insts[i].tick < insts[k].tick || (insts[i].tick == insts[k].tick && i <= k);
    }

    method Release(i: Id)
      requires i < |insts|
      modifies this`insts, this`busy, this`waiting, this`work
      ensures Abs() == WithReleased(old(Abs()), i)
    {
      work := work + multiset{i};
      waiting := waiting - {i};
      busy := busy + {insts[i].key.sub};
      insts := insts[i := insts[i].(released := true)];
    }

    /** The loop over the necks after each task: every open neck with frames waiting releases its earliest. */
    method ReleaseNecks()
      requires InRange(Abs())
      modifies this`insts, this`busy, this`waiting, this`work
      ensures Abs() == ReleaseAll(old(Abs()))
    {
      ghost var start := Abs();
      ghost var released: set<Id> := {};
      var todo := set i | i in waiting && i < |insts| :: insts[i].key.sub;
      ReleaseNone(start);
      while todo != {}
        invariant Abs() == ReleaseSet(start, released)
        invariant Releasing(start, released, todo)
        decreases todo
      {
        var s :| s in todo;
        if s !in busy {
          EarliestWaits(start, released, todo, s);
          var i := Earliest(s);
          ReleasingStep(start, released, todo, s, i);
          Release(i);
          released := released + {i};
        } else {
          BusyChoosesNone(start, released, todo, s);
        }
        todo := todo - {s};
      }
      assert released == Chosen(start);
    }

    /** One turn of the maintainer's loop: the first task of the queue and the release after it. */
    method Turn(g: Filters, task: Task)
      requires Core(g, Abs()) && |others.tasks| > 0 && others.tasks[0] == task
      modifies this
      ensures Abs() == Maintain(g, old(Abs())) && Core(g, Abs()) && Drained(Abs())
    {
      TaskKeepsCore(g, Abs());
      MaintainKeepsCore(g, Abs());
      others := others.(tasks := others.tasks[1..]);
      match task {
        case Construct(key, callback) =>
          var i := Construct(g, key, callback);
        case Notify(i, failed) =>
          HandleReport(i, failed);
      }
      ReleaseNecks();
    }

    // One step of the eviction loop.
    method TryEvict(g: Filters, key: Key, keep: set<Id>) returns (evicted: bool)
      requires Core(g, Abs()) && key in instances
      modifies this`instances, this`alive
      ensures Core(g, Abs())
      ensures evicted <==> old(instances)[key] !in keep && CanEvict(old(Abs()), old(instances)[key])
      ensures Abs() == if evicted then Evict(old(Abs()), old(instances)[key]) else old(Abs())
      ensures instances == if evicted then old(instances) - {key} else old(instances)
    {
      var i := instances[key];
      var outputs := insts[i].outputs;
      evicted := insts[i].product.Some? && insts[i].callback.None? && !insts[i].single && i !in keep &&
                 forall o <- outputs :: o in alive && o < |insts| ==> insts[o].product.Some?;
      if evicted {
        EvictKeepsCore(g, Abs(), i);
        instances := instances - {key};
        alive := alive - {i};
      }
    }

    /** The eviction loop. `keep` holds the frames kept for their indulgence. It removes exactly the others that could
        be evicted when it started, whatever the order, and keeps the invariant. */
    method EvictAll(g: Filters, keep: set<Id>)
      requires Core(g, Abs())
      modifies this`instances, this`alive
      ensures Core(g, Abs())
      ensures forall i <- old(alive) :: i in alive <==> !(i !in keep && CanEvict(old(Abs()), i))
      ensures alive <= old(alive)
    {
      ghost var start := Abs();
      ghost var gone: set<Id> := {};
      var todo := instances.Keys;
      while todo != {}
        invariant Core(g, Abs()) && todo <= instances.Keys
        invariant Evicting(start, Abs(), gone, todo, keep)
        decreases todo
      {
        var key :| key in todo;
        EvictingStep(g, start, Abs(), gone, todo, keep, key);
        ghost var i := instances[key];
        var evicted := TryEvict(g, key, keep);
        if evicted {
          gone := gone + {i};
        }
        todo := todo - {key};
      }
    }
  }

  // The eviction loop under way: the frames gone could go when it started, and those that still should are to come.
  ghost predicate Evicting(start: State, now: State, gone: set<Id>, todo: set<Key>, keep: set<Id>) {
    && now == start.(table := now.table, alive := start.alive - gone)
    && (forall i <- gone :: i !in keep && CanEvict(start, i))
    && (forall i <- now.alive :: i < |start.insts| && i !in keep && CanEvict(start, i) ==> start.insts[i].key in todo)
  }

  lemma EvictingStep(g: Filters, start: State, now: State, gone: set<Id>, todo: set<Key>, keep: set<Id>, key: Key)
    requires InRange(now) && TableInv(now) && Evicting(start, now, gone, todo, keep) && key in todo && key in now.table
    ensures var i := now.table[key];
            && i < |now.insts| && (CanEvict(now, i) <==> CanEvict(start, i))
            && (if i !in keep && CanEvict(now, i) then Evicting(start, Evict(now, i), gone + {i}, todo - {key}, keep)
                else Evicting(start, now, gone, todo - {key}, keep))
  {
    var i := now.table[key];
    SameEvictable(start, now, gone, i);
    if i !in keep && CanEvict(now, i) {
      assert start.alive - gone - {i} == start.alive - (gone + {i});
    }
  }

  // Evicting finished frames does not change which frames can be evicted.
  lemma SameEvictable(start: State, now: State, gone: set<Id>, i: Id)
    requires now == start.(table := now.table, alive := start.alive - gone) && i in now.alive
    requires forall x <- gone :: CanEvict(start, x)
    ensures CanEvict(now, i) <==> CanEvict(start, i)
  {
  }

  function WithReleased(st: State, i: Id): State
    requires i < |st.insts|
  {
    st.(work := st.work + multiset{i}, waiting := st.waiting - {i}, busy := st.busy + {SubOf(st, i)},
        insts := st.insts[i := st.insts[i].(released := true)])
  }

  // The release loop under way: those released are chosen, and the other chosen frames are of necks to come.
  ghost predicate Releasing(start: State, released: set<Id>, todo: set<nat>)
    requires InRange(start)
  {
    && released <= Chosen(start)
    && (forall i <- Chosen(start) :: i in released || SubOf(start, i) in todo)
    && (forall i <- released :: SubOf(start, i) !in todo)
    && (forall s <- todo :: exists i :: i in start.waiting && SubOf(start, i) == s)
  }

  lemma ReleaseNone(start: State)
    requires InRange(start)
    ensures ReleaseSet(start, {}) == start
    ensures Releasing(start, {}, set i | i in start.waiting && i < |start.insts| :: start.insts[i].key.sub)
  {
    assert ReleaseSet(start, {}).insts == start.insts;
    assert ReleaseSet(start, {}).work == start.work;
  }

  lemma EarliestWaits(start: State, released: set<Id>, todo: set<nat>, s: nat)
    requires InRange(start) && Releasing(start, released, todo) && s in todo && s !in ReleaseSet(start, released).busy
    ensures var now := ReleaseSet(start, released);
            exists i :: i in now.waiting && i < |now.insts| && now.insts[i].key.sub == s && IsEarliest(now, i)
  {
    var w :| w in start.waiting && SubOf(start, w) == s;
    EarliestIsChosen(start, w);
    var i :| i in Chosen(start) && SubOf(start, i) == s;
    var now := ReleaseSet(start, released);
    assert i in now.waiting && now.insts[i].key.sub == s;
    assert IsEarliest(now, i);
  }

  lemma ReleasingStep(start: State, released: set<Id>, todo: set<nat>, s: nat, i: Id)
    requires InRange(start) && Releasing(start, released, todo) && s in todo && s !in ReleaseSet(start, released).busy
    requires var now := ReleaseSet(start, released);
             i in now.waiting && i < |now.insts| && now.insts[i].key.sub == s && IsEarliest(now, i)
    ensures i !in released && Releasing(start, released + {i}, todo - {s})
    ensures ReleaseSet(start, released + {i}) == WithReleased(ReleaseSet(start, released), i)
  {
    var now := ReleaseSet(start, released);
    forall j | j in start.waiting && SubOf(start, j) == s ensures Before(start, i, j) {
      assert j in now.waiting && SubOf(now, j) == s;
      assert Before(now, i, j);
    }
    assert i in Chosen(start);
    forall j | j in Chosen(start) && SubOf(start, j) == s ensures j == i {
      OneChosen(start, i, j);
    }
    ReleaseOneMore(start, released, i);
  }

  lemma ReleaseOneMore(start: State, released: set<Id>, i: Id)
    requires i < |start.insts| && i !in released
    ensures ReleaseSet(start, released + {i}) == WithReleased(ReleaseSet(start, released), i)
  {
    var now, next := ReleaseSet(start, released), ReleaseSet(start, released + {i});
    assert multiset(released + {i}) == multiset(released) + multiset{i};
    assert next.insts == now.insts[i := now.insts[i].(released := true)];
    assert next.work == now.work + multiset{i};
    assert next.busy == now.busy + {SubOf(now, i)};
    assert next.waiting == now.waiting - {i};
  }

  lemma BusyChoosesNone(start: State, released: set<Id>, todo: set<nat>, s: nat)
    requires InRange(start) && Releasing(start, released, todo) && s in todo && s in ReleaseSet(start, released).busy
    ensures Releasing(start, released, todo - {s})
  {
  }
}
