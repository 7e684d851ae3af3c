/** The order in which frames are made and finished: ticks, and frames of linear filters. */
module SubstrateOrder {
  import opened Options
  import opened Substrate
  import opened SubstrateInv
  import opened SubstrateConstruct
  import opened SubstrateNotify
  import opened SubstrateMaintain
  import opened SubstrateRun

  // The frame before a frame of a linear filter.
  predicate HasPrevious(g: Filters, key: Key) {
    g.makeLinear(key.sub) && key.frame > 0
  }

  function Previous(key: Key): Key
    requires key.frame > 0
  {
    Key(key.sub, key.frame - 1)
  }

  // An instance made from state `a` on: it has the tick of its time, and the frame before it as an input if that was
  // in the table.
  ghost predicate MadeFrom(g: Filters, a: State, insts: seq<Inst>, i: Id)
    requires i < |insts|
  {
    && insts[i].tick == a.tick
    && (HasPrevious(g, insts[i].key) && Previous(insts[i].key) in a.table ==>
          a.table[Previous(insts[i].key)] in insts[i].inputs)
  }

  // All that was made from one state to another. What was in the table stays there.
  ghost predicate Makes(g: Filters, a: State, b: State) {
    && |a.insts| <= |b.insts| && b.tick == a.tick
    && (forall k <- a.table :: k in b.table && b.table[k] == a.table[k])
    && forall i {:trigger b.insts[i]} | |a.insts| <= i < |b.insts| :: MadeFrom(g, a, b.insts, i)
  }

  lemma MakesOn(g: Filters, a: State, b: State, c: State, rank: nat)
    requires Makes(g, a, b) && Makes(g, b, c) && Grows(g, b, c, rank)
    ensures Makes(g, a, c)
  {
    forall i | |a.insts| <= i < |c.insts| ensures MadeFrom(g, a, c.insts, i) {
      if i < |b.insts| {
        assert MadeFrom(g, a, b.insts, i);
        assert c.insts[i] == b.insts[i].(callback := c.insts[i].callback, outputs := c.insts[i].outputs);
      } else {
        assert MadeFrom(g, b, c.insts, i);
      }
    }
  }

  lemma CreateMakes(g: Filters, st: State, key: Key, callback: Option<Callback>, deps: seq<Id>)
    requires InRange(st) && GoodInputs(g, st, key, deps) && key !in st.table
    ensures Makes(g, st, Create(g, st, key, callback, deps))
  {
    AddInstExtends(g, st, key, callback, deps + FalseInput(g, st, key));
    var s := Create(g, st, key, callback, deps);
    assert s.insts[|st.insts|].inputs == deps + FalseInput(g, st, key);
    if HasPrevious(g, key) && Previous(key) in st.table {
      assert FalseInput(g, st, key) == [st.table[Previous(key)]];
    }
  }

  lemma AttachMakes(g: Filters, st: State, i: Id, callback: Option<Callback>)
    requires i < |st.insts|
    ensures Makes(g, st, Attach(st, i, callback))
  {
  }

  /** Constructing a frame makes it, and every frame it depends on that is missing, in this way. */
  lemma {:induction false} ConstructMakes(g: Filters, st: State, key: Key, callback: Option<Callback>)
    requires Core(g, st) && (callback.Some? ==> callback.value.key == key)
    ensures Makes(g, st, ConstructFrame(g, st, key, callback).0)
    decreases g.rank(key), 1, 0
  {
    if key in st.table {
      AttachMakes(g, st, st.table[key], callback);
    } else {
      var (s, inputs) := ConstructDeps(g, st, key, g.deps(key));
      ConstructDepsMake(g, st, key, g.deps(key));
      ConstructDepsKeepsCore(g, st, key, g.deps(key));
      RepresentedAreGood(g, st, s, key, inputs);
      CreateMakes(g, s, key, callback, inputs);
      CreateGrows(g, s, key, callback, inputs);
      MakesOn(g, st, s, Create(g, s, key, callback, inputs), g.rank(key) + 1);
    }
  }

  lemma RepresentedAreGood(g: Filters, st: State, s: State, key: Key, deps: seq<Id>)
    requires Core(g, s) && Grows(g, st, s, g.rank(key)) && key !in st.table && Represent(s, deps, g.deps(key))
    ensures GoodInputs(g, s, key, deps) && key !in s.table
  {
    forall j | j in deps ensures j in s.alive {
      var d :| 0 <= d < |deps| && deps[d] == j;
    }
  }

  lemma {:induction false} ConstructDepsMake(g: Filters, st: State, parent: Key, deps: seq<Key>)
    requires Core(g, st) && forall d <- deps :: g.rank(d) < g.rank(parent)
    ensures Makes(g, st, ConstructDeps(g, st, parent, deps).0)
    decreases g.rank(parent), 0, |deps|
  {
    if |deps| > 0 {
      assert deps[0] in deps;
      var (s1, i) := ConstructFrame(g, st, deps[0], None);
      ConstructMakes(g, st, deps[0], None);
      ConstructKeepsCore(g, st, deps[0], None);
      ConstructDepsMake(g, s1, parent, deps[1..]);
      ConstructDepsKeepsCore(g, s1, parent, deps[1..]);
      MakesOn(g, st, s1, ConstructDeps(g, s1, parent, deps[1..]).0, g.rank(parent));
    }
  }

  // A task that makes an instance is a request.
  lemma TaskMakes(g: Filters, st: State, i: Id)
    requires Core(g, st) && |st.tasks| > 0 && |st.insts| <= i < |Maintain(g, st).insts|
    ensures MadeFrom(g, st, Maintain(g, st).insts, i)
  {
    var s := HandleTask(g, st);
    match st.tasks[0] {
      case Construct(key, callback) =>
        assert st.tasks[0] in st.tasks;
        RequestMakes(g, st, key, callback, i);
      case Notify(j, failed) =>
        SameCount(g, st);
    }
  }

  lemma RequestMakes(g: Filters, st: State, key: Key, callback: Option<Callback>, i: Id)
    requires Core(g, st) && |st.tasks| > 0 && st.tasks[0] == Construct(key, callback)
    requires |st.insts| <= i < |HandleTask(g, st).insts|
    ensures MadeFrom(g, st, HandleTask(g, st).insts, i)
  {
    assert st.tasks[0] in st.tasks;
    PopConstruct(g, st);
    ConstructMakes(g, Popped(st), key, callback);
    assert MadeFrom(g, Popped(st), HandleTask(g, st).insts, i);
  }

  lemma SameCount(g: Filters, st: State)
    requires Core(g, st) && |st.tasks| > 0 && st.tasks[0].Notify?
    ensures |Maintain(g, st).insts| == |st.insts|
  {
  }

  // The step of a run that makes an instance.
  lemma StepMakes(g: Filters, states: seq<State>, events: seq<Event>, n: nat, i: Id)
    requires Acyclic(g) && IsRun(g, states, events) && n < |events|
    requires |states[n].insts| <= i < |states[n + 1].insts|
    ensures MadeFrom(g, states[n], states[n + 1].insts, i)
  {
    RunKeepsInv(g, states, events, n);
    assert Step(g, states[n], events[n], states[n + 1]);
    if events[n].RunTask? { TaskMakes(g, states[n], i); } else { OnlyTasksMake(g, states[n], events[n], states[n + 1]); }
  }

  lemma OnlyTasksMake(g: Filters, st: State, e: Event, next: State)
    requires Acyclic(g) && Step(g, st, e, next) && !e.RunTask?
    ensures |next.insts| == |st.insts|
  {
  }

  /** A frame has, for good, the tick of the time it was made. */
  lemma TickIsOfCreation(g: Filters, states: seq<State>, events: seq<Event>, n: nat, m: nat, i: Id)
    requires Acyclic(g) && IsRun(g, states, events) && n < m < |states|
    requires |states[n].insts| <= i < |states[n + 1].insts|
    ensures i < |states[m].insts| && states[m].insts[i].tick == states[n].tick
  {
    StepMakes(g, states, events, n, i);
    RunSettles(g, states, events, n + 1, m);
  }

  /** A frame of a linear filter waits for the frame before it, if that was in the table when it was made: it goes to no
      worker and has no product before the other one has. */
  lemma LinearWaits(g: Filters, states: seq<State>, events: seq<Event>, n: nat, m: nat, i: Id)
    requires Acyclic(g) && IsRun(g, states, events) && n < m < |states|
    requires |states[n].insts| <= i < |states[n + 1].insts|
    requires var key := states[n + 1].insts[i].key;
             g.makeLinear(key.sub) && key.frame > 0 && Key(key.sub, key.frame - 1) in states[n].table
    ensures var key := states[n + 1].insts[i].key;
            var j := states[n].table[Key(key.sub, key.frame - 1)];
            && i < |states[m].insts| && j < |states[m].insts| && states[m].insts[j].key == Key(key.sub, key.frame - 1)
            && (Handed(states[m], i) || i in states[m].waiting || states[m].insts[i].product.Some? ==>
                  states[m].insts[j].product.Some?)
  {
    var j := states[n].table[Previous(states[n + 1].insts[i].key)];
    StepMakes(g, states, events, n, i);
    RunSettles(g, states, events, n + 1, m);
    RunKeepsInv(g, states, events, n);
    RunKeepsInv(g, states, events, m);
    assert InstAt(g, states[m], i);
    assert j in states[m].insts[i].inputs;
    RunSettles(g, states, events, n, m);
  }
}
