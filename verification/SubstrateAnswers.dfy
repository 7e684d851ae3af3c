/** What clients get: the frame they asked for, an error only if something failed, and a table that can be emptied. */
module SubstrateAnswers {
  import opened Options
  import opened Substrate
  import opened SubstrateInv
  import opened SubstrateConstruct
  import opened SubstrateNotify
  import opened SubstrateMaintain
  import opened SubstrateRun

  // Whose callback it is

  // Something is true of every callback queued, held or called.
  ghost predicate Everywhere(st: State, p: Callback -> bool) {
    && (forall t <- st.tasks :: t.Construct? ==> OfSome(t.callback, p))
    && (forall i {:trigger st.insts[i]} | 0 <= i < |st.insts| :: OfSome(st.insts[i].callback, p))
    && (forall c <- st.log :: p(c.callback))
  }

  predicate OfSome(c: Option<Callback>, p: Callback -> bool) {
    c.Some? ==> p(c.value)
  }

  lemma AttachEverywhere(st: State, i: Id, callback: Option<Callback>, p: Callback -> bool)
    requires i < |st.insts| && Everywhere(st, p) && OfSome(callback, p)
    ensures Everywhere(Attach(st, i, callback), p)
  {
  }

  lemma {:induction false} LinkedCallbacks(insts: seq<Inst>, inputs: seq<Id>, n: Id)
    requires forall j <- inputs :: j < |insts|
    ensures forall i {:trigger insts[i]} | 0 <= i < |insts| :: LinkInputs(insts, inputs, n)[i].callback == insts[i].callback
  {
    LinkInputsFacts(insts, inputs, n);
  }

  lemma CreateEverywhere(g: Filters, st: State, key: Key, callback: Option<Callback>, deps: seq<Id>, p: Callback -> bool)
    requires TableInRange(st) && (forall j <- deps :: j < |st.insts|) && Everywhere(st, p) && OfSome(callback, p)
    ensures Everywhere(Create(g, st, key, callback, deps), p) && Create(g, st, key, callback, deps).issued == st.issued
  {
    var inputs := deps + FalseInput(g, st, key);
    LinkedCallbacks(st.insts, inputs, |st.insts|);
    var added := AddInst(g, st, key, callback, inputs);
    forall i | 0 <= i < |added.insts| ensures OfSome(added.insts[i].callback, p) {
      if i < |st.insts| { assert OfSome(st.insts[i].callback, p); }
    }
    assert Create(g, st, key, callback, deps).insts == added.insts;
  }

  lemma {:induction false} ConstructEverywhere(g: Filters, st: State, key: Key, callback: Option<Callback>, p: Callback -> bool)
    requires Acyclic(g) && TableInRange(st) && Everywhere(st, p) && OfSome(callback, p)
    ensures var s := ConstructFrame(g, st, key, callback).0; Everywhere(s, p) && s.issued == st.issued
    decreases g.rank(key), 1, 0
  {
    if key in st.table {
      AttachEverywhere(st, st.table[key], callback, p);
    } else {
      var (s, inputs) := ConstructDeps(g, st, key, g.deps(key));
      DepsEverywhere(g, st, key, g.deps(key), p);
      CreateEverywhere(g, s, key, callback, inputs, p);
    }
  }

  lemma {:induction false} DepsEverywhere(g: Filters, st: State, parent: Key, deps: seq<Key>, p: Callback -> bool)
    requires Acyclic(g) && TableInRange(st) && (forall d <- deps :: g.rank(d) < g.rank(parent)) && Everywhere(st, p)
    ensures var s := ConstructDeps(g, st, parent, deps).0; Everywhere(s, p) && s.issued == st.issued
    decreases g.rank(parent), 0, |deps|
  {
    if |deps| > 0 {
      assert deps[0] in deps;
      ConstructEverywhere(g, st, deps[0], None, p);
      DepsEverywhere(g, ConstructFrame(g, st, deps[0], None).0, parent, deps[1..], p);
    }
  }

  lemma {:induction false} KillEverywhere(st: State, i: Id, p: Callback -> bool)
    requires Linked(st.insts) && i < |st.insts| && Everywhere(st, p)
    ensures Everywhere(KillTree(st, i), p) && KillTree(st, i).issued == st.issued
    decreases |st.insts| - i, 1, 0
  {
    assert Everywhere(KillOne(st, i), p);
    KillOutputsEverywhere(KillOne(st, i), i, st.insts[i].outputs, p);
  }

  lemma {:induction false} KillOutputsEverywhere(st: State, i: Id, outputs: seq<Id>, p: Callback -> bool)
    requires Linked(st.insts) && i < |st.insts| && (forall o <- outputs :: i < o < |st.insts|) && Everywhere(st, p)
    ensures Everywhere(KillOutputs(st, i, outputs), p) && KillOutputs(st, i, outputs).issued == st.issued
    decreases |st.insts| - i, 0, |outputs|
  {
    if |outputs| > 0 {
      assert outputs[0] in outputs;
      if outputs[0] in st.alive { KillEverywhere(st, outputs[0], p); }
      var s := if outputs[0] in st.alive then KillTree(st, outputs[0]) else st;
      assert forall x | x in outputs[1..] :: x in outputs;
      KillOutputsEverywhere(s, i, outputs[1..], p);
    }
  }

  lemma {:induction false} PostOutputsSame(st: State, outputs: seq<Id>)
    requires Linked(st.insts) && forall o <- outputs :: o < |st.insts|
    ensures var r := PostOutputs(st, outputs); r.insts == st.insts && r.tasks == st.tasks && r.log == st.log && r.issued == st.issued
    decreases |outputs|
  {
    if |outputs| > 0 {
      assert outputs[0] in outputs;
      assert forall x | x in outputs[1..] :: x in outputs;
      PostOutputsSame(PostOutput(st, outputs[0]), outputs[1..]);
    }
  }

  lemma NotifyEverywhere(st: State, i: Id, failed: bool, p: Callback -> bool)
    requires InRange(st) && Everywhere(st, p)
    ensures Everywhere(HandleNotify(st, i, failed), p) && HandleNotify(st, i, failed).issued == st.issued
  {
    if i in st.alive {
      var s := OpenNeck(st, i);
      assert Everywhere(s, p);
      if failed { KillEverywhere(s, i, p); } else { PostOutputsSame(s, s.insts[i].outputs); }
    }
  }

  lemma MaintainEverywhere(g: Filters, st: State, p: Callback -> bool)
    requires Acyclic(g) && |st.tasks| > 0 && InRange(st) && Everywhere(st, p)
    ensures Everywhere(Maintain(g, st), p) && Maintain(g, st).issued == st.issued
  {
    assert st.tasks[0] in st.tasks;
    assert Everywhere(Popped(st), p);
    match st.tasks[0] {
      case Construct(key, callback) => ConstructEverywhere(g, Popped(st), key, callback, p);
      case Notify(i, failed) => NotifyEverywhere(Popped(st), i, failed, p);
    }
    ReleaseEverywhere(HandleTask(g, st), p);
  }

  lemma ReleaseEverywhere(st: State, p: Callback -> bool)
    requires Everywhere(st, p)
    ensures Everywhere(ReleaseAll(st), p)
  {
  }

  lemma StepEverywhere(g: Filters, st: State, e: Event, next: State, p: Callback -> bool)
    requires Acyclic(g) && Step(g, st, e, next) && Everywhere(st, p)
    requires e.AskFrame? ==> p(Callback(st.issued, e.key))
    ensures Everywhere(next, p) && next.issued == st.issued + (if e.AskFrame? then 1 else 0)
  {
    match e {
      case RunTask => MaintainEverywhere(g, st, p);
      case _ =>
    }
  }

  // The frames asked for, in the order of asking.
  function Asked(events: seq<Event>): seq<Key> {
    if events == [] then []
    else
      var e := events[|events| - 1];
      Asked(events[..|events| - 1]) + (if e.AskFrame? then [e.key] else [])
  }

  function IsAsked(asked: seq<Key>): Callback -> bool {
    (c: Callback) => c.id < |asked| && c.key == asked[c.id]
  }

  lemma {:induction false} RunAsks(g: Filters, states: seq<State>, events: seq<Event>, n: nat)
    requires Acyclic(g) && IsRun(g, states, events) && n < |states|
    ensures states[n].issued == |Asked(events[..n])| && Everywhere(states[n], IsAsked(Asked(events[..n])))
  {
    if n > 0 {
      var before, now, e := Asked(events[..n - 1]), Asked(events[..n]), events[n - 1];
      RunAsks(g, states, events, n - 1);
      assert events[..n][..n - 1] == events[..n - 1] && events[..n][n - 1] == e;
      assert Step(g, states[n - 1], e, states[n]);
      EverywhereMore(states[n - 1], before, now);
      StepEverywhere(g, states[n - 1], e, states[n], IsAsked(now));
    }
  }

  lemma EverywhereMore(st: State, a: seq<Key>, b: seq<Key>)
    requires a <= b && Everywhere(st, IsAsked(a))
    ensures Everywhere(st, IsAsked(b))
  {
    forall t | t in st.tasks ensures t.Construct? ==> OfSome(t.callback, IsAsked(b)) {
      assert t.Construct? ==> OfSome(t.callback, IsAsked(a));
    }
    forall i | 0 <= i < |st.insts| ensures OfSome(st.insts[i].callback, IsAsked(b)) {
      assert OfSome(st.insts[i].callback, IsAsked(a));
    }
    forall c | c in st.log ensures IsAsked(b)(c.callback) {
      assert IsAsked(a)(c.callback);
    }
  }

  /** Whoever is called with a frame gets the frame asked for, as the recursive evaluator gives it: the callback with
      number k is that of the k-th request. */
  lemma AnswersAreAsked(g: Filters, states: seq<State>, events: seq<Event>, n: nat, c: Call)
    requires Acyclic(g) && IsRun(g, states, events) && n < |states| && c in states[n].log
    ensures c.callback.id < |Asked(events[..n])|
    ensures c.frame.Some? ==> c.frame.value == Reference(g, Asked(events[..n])[c.callback.id])
  {
    RunAsks(g, states, events, n);
    RunKeepsInv(g, states, events, n);
    assert IsAsked(Asked(events[..n]))(c.callback);
  }

  /** The recursive evaluator hands a filter the frames it depends on, each in its place. */
  lemma ReferenceIs(g: Filters, key: Key, frames: seq<Frame>)
    requires Acyclic(g) && |frames| == |g.deps(key)|
    requires forall d | 0 <= d < |frames| :: frames[d] == Reference(g, g.deps(key)[d])
    ensures Reference(g, key) == g.process(key, frames)
  {
    var deps := g.deps(key);
    assert frames == seq(|deps|, d requires 0 <= d < |deps| => assert deps[d] in deps; Reference(g, deps[d]));
  }

  // Errors

  // Nothing has failed, and no callback got an error.
  ghost predicate NothingFailed(st: State) {
    && (forall i {:trigger st.insts[i]} | 0 <= i < |st.insts| :: !st.insts[i].failed)
    && (forall c <- st.log :: c.frame.Some?)
  }

  lemma {:induction false} NewUnfailed(g: Filters, st: State, key: Key, callback: Option<Callback>)
    requires Acyclic(g) && TableInRange(st) && NothingFailed(st)
    ensures NothingFailed(ConstructFrame(g, st, key, callback).0)
    decreases g.rank(key), 1, 0
  {
    if key !in st.table {
      var (s, inputs) := ConstructDeps(g, st, key, g.deps(key));
      DepsUnfailed(g, st, key, g.deps(key));
      CreateUnfailed(g, s, key, callback, inputs);
    }
  }

  lemma CreateUnfailed(g: Filters, st: State, key: Key, callback: Option<Callback>, deps: seq<Id>)
    requires TableInRange(st) && (forall j <- deps :: j < |st.insts|) && NothingFailed(st)
    ensures NothingFailed(Create(g, st, key, callback, deps))
  {
    var inputs := deps + FalseInput(g, st, key);
    LinkInputsFacts(st.insts, inputs, |st.insts|);
    var added := AddInst(g, st, key, callback, inputs);
    forall i | 0 <= i < |added.insts| ensures !added.insts[i].failed {
      if i < |st.insts| { assert !st.insts[i].failed; }
    }
    assert Create(g, st, key, callback, deps).insts == added.insts;
  }

  lemma {:induction false} DepsUnfailed(g: Filters, st: State, parent: Key, deps: seq<Key>)
    requires Acyclic(g) && TableInRange(st) && (forall d <- deps :: g.rank(d) < g.rank(parent)) && NothingFailed(st)
    ensures NothingFailed(ConstructDeps(g, st, parent, deps).0)
    decreases g.rank(parent), 0, |deps|
  {
    if |deps| > 0 {
      assert deps[0] in deps;
      NewUnfailed(g, st, deps[0], None);
      DepsUnfailed(g, ConstructFrame(g, st, deps[0], None).0, parent, deps[1..]);
    }
  }

  lemma NotifyUnfailed(g: Filters, st: State, i: Id, failed: bool)
    requires Core(g, st) && NothingFailed(st) && |st.tasks| > 0 && st.tasks[0] == Notify(i, failed)
    ensures NothingFailed(HandleNotify(Popped(st), i, failed))
  {
    ReportIsTrue(g, st, i, failed);
    if i in st.alive {
      var s := OpenNeck(Popped(st), i);
      PostOutputsSame(s, s.insts[i].outputs);
    }
  }

  lemma ReportIsTrue(g: Filters, st: State, i: Id, failed: bool)
    requires Core(g, st) && |st.tasks| > 0 && st.tasks[0] == Notify(i, failed)
    ensures InRange(Popped(st)) && i < |st.insts|
    ensures if failed then st.insts[i].failed else st.insts[i].product.Some?
  {
    assert st.tasks[0] in st.tasks;
    assert InstAt(g, st, i);
  }

  lemma MaintainUnfailed(g: Filters, st: State)
    requires Core(g, st) && |st.tasks| > 0 && NothingFailed(st)
    ensures NothingFailed(Maintain(g, st))
  {
    assert NothingFailed(Popped(st));
    match st.tasks[0] {
      case Construct(key, callback) => NewUnfailed(g, Popped(st), key, callback);
      case Notify(i, failed) => NotifyUnfailed(g, st, i, failed);
    }
    ReleaseUnfailed(HandleTask(g, st));
  }

  lemma ReleaseUnfailed(st: State)
    requires NothingFailed(st)
    ensures NothingFailed(ReleaseAll(st))
  {
  }

  lemma WorkerUnfailed(st: State, i: Id)
    requires i < |st.insts| && NothingFailed(st)
    ensures NothingFailed(Take(st, i)) && NothingFailed(GiveUp(st, i))
  {
  }

  lemma FinishUnfailed(g: Filters, st: State, i: Id)
    requires CanFinish(g, st, i) && NothingFailed(st)
    ensures NothingFailed(Finish(g, st, i))
  {
  }

  lemma StepUnfailed(g: Filters, st: State, e: Event, next: State)
    requires Core(g, st) && Step(g, st, e, next) && NothingFailed(st) && !e.FailFrame?
    ensures NothingFailed(next)
  {
    if e.RunTask? {
      MaintainUnfailed(g, st);
    } else if e.FinishFrame? {
      FinishUnfailed(g, st, e.id);
    } else if e.TakeFrame? || e.GiveUpFrame? {
      WorkerUnfailed(st, e.id);
    }
  }

  /** Errors come from failures: as long as processing has not thrown, every callback that was called got a frame. */
  lemma {:induction false} ErrorsComeFromFailures(g: Filters, states: seq<State>, events: seq<Event>, n: nat)
    requires Acyclic(g) && IsRun(g, states, events) && n < |states|
    requires forall k | 0 <= k < n :: !events[k].FailFrame?
    ensures NothingFailed(states[n])
  {
    if n > 0 {
      ErrorsComeFromFailures(g, states, events, n - 1);
      LastUnfailed(g, states, events, n - 1);
    }
  }

  lemma LastUnfailed(g: Filters, states: seq<State>, events: seq<Event>, n: nat)
    requires Acyclic(g) && IsRun(g, states, events) && n < |events| && !events[n].FailFrame? && NothingFailed(states[n])
    ensures NothingFailed(states[n + 1])
  {
    RunKeepsInv(g, states, events, n);
    assert Step(g, states[n], events[n], states[n + 1]);
    StepUnfailed(g, states[n], events[n], states[n + 1]);
  }

  // Going on

  // A step of the maintainer with a task, or of a worker.
  predicate IsWork(e: Event) {
    !e.AskFrame? && !e.EvictFrame? && !e.NextTick?
  }

  /** As long as something is queued or a worker is busy, the maintainer or a worker can go on. */
  lemma WorkCanGoOn(g: Filters, states: seq<State>, events: seq<Event>, n: nat)
    requires Acyclic(g) && IsRun(g, states, events) && n < |states| && !Quiet(states[n])
    ensures exists e, next :: IsWork(e) && Step(g, states[n], e, next)
  {
    RunKeepsInv(g, states, events, n);
    StateCanGoOn(g, states[n]);
  }

  lemma GoesOn(g: Filters, st: State, e: Event, next: State)
    requires Acyclic(g) && IsWork(e) && Step(g, st, e, next)
    ensures exists e, next :: IsWork(e) && Step(g, st, e, next)
  {
  }

  lemma StateCanGoOn(g: Filters, st: State)
    requires Core(g, st) && !Quiet(st)
    ensures exists e, next :: IsWork(e) && Step(g, st, e, next)
  {
    if |st.tasks| > 0 {
      GoesOn(g, st, RunTask, Maintain(g, st));
    } else if |st.work| > 0 {
      var i :| i in st.work;
      GoesOn(g, st, TakeFrame(i), Take(st, i));
    } else if |st.reposting| > 0 {
      var i :| i in st.reposting;
      GoesOn(g, st, PushBackFrame(i), PushBack(st, i));
    } else if st.computing != {} {
      var i :| i in st.computing;
      FinishedIsReference(g, st, i);
      GoesOn(g, st, FinishFrame(i), Finish(g, st, i));
    } else {
      var i :| i in st.stored;
      GoesOn(g, st, ReportFrame(i), Report(st, i));
    }
  }

  // Eviction

  /** Nothing is kept for good: when nothing is queued and no worker is busy, every frame in the table can be evicted. */
  lemma QuietCanBeEvicted(g: Filters, states: seq<State>, events: seq<Event>, n: nat, i: Id)
    requires Acyclic(g) && IsRun(g, states, events) && n < |states| && Quiet(states[n]) && i in states[n].alive
    ensures CanEvict(states[n], i)
  {
    var st := states[n];
    RunKeepsInv(g, states, events, n);
    NoFrameStuck(g, states, events, n);
    assert InstAt(g, st, i);
    assert st.table[st.insts[i].key] == i;
    forall o | o in st.insts[i].outputs && o in st.alive ensures st.insts[o].product.Some? {
      assert st.table[st.insts[o].key] == o;
    }
  }
}
