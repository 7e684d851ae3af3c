/** A maintainer task keeps the invariant, and after it no neck is open while a frame waits in it. */
module SubstrateMaintain {
  import opened Options
  import opened Substrate
  import opened SubstrateInv
  import opened SubstrateConstruct
  import opened SubstrateNotify

  function Popped(st: State): State
    requires |st.tasks| > 0
  {
    st.(tasks := st.tasks[1..])
  }

  lemma PoppedTasks(st: State)
    requires |st.tasks| > 0
    ensures forall t | t in st.tasks :: t == st.tasks[0] || t in Popped(st).tasks
    ensures forall t | t in Popped(st).tasks :: t in st.tasks
  {
    assert st.tasks == [st.tasks[0]] + st.tasks[1..];
  }

  lemma PoppedShared(g: Filters, st: State)
    requires Shared(g, st) && |st.tasks| > 0
    ensures Shared(g, Popped(st))
  {
    PoppedTasks(st);
  }

  // A construct task is in nobody's way.
  lemma PopConstruct(g: Filters, st: State)
    requires Core(g, st) && |st.tasks| > 0 && st.tasks[0].Construct?
    ensures Core(g, Popped(st))
  {
    PoppedShared(g, st);
    forall x | 0 <= x < |st.insts| ensures InstAt(g, Popped(st), x) {
      assert InstAt(g, st, x);
      PoppedTasks(st);
    }
  }

  // The report of a frame that is gone tells nothing: whoever needed the frame kept it alive.
  lemma PopDead(g: Filters, st: State)
    requires Core(g, st) && |st.tasks| > 0 && st.tasks[0].Notify? && st.tasks[0].id !in st.alive
    ensures Core(g, Popped(st))
  {
    PoppedShared(g, st);
    forall x | 0 <= x < |st.insts| ensures InstAt(g, Popped(st), x) {
      assert InstAt(g, st, x);
      PoppedTasks(st);
      assert forall j <- st.insts[x].inputs :: j != st.tasks[0].id && DonePending(st, j) ==> DonePending(Popped(st), j);
    }
  }

  // A finished frame: its neck opens and its callback is answered, and only its outputs may lack a sender.
  function Settled(st: State, i: Id): State
    requires |st.tasks| > 0 && i < |st.insts|
  {
    Answer(OpenNeck(Popped(st), i), i)
  }

  lemma SettledGraph(g: Filters, st: State, i: Id)
    requires |st.tasks| > 0 && i < |st.insts| && Linked(st.insts)
    ensures SameGraph(st.insts, Settled(st, i).insts)
    ensures forall x {:trigger Settled(st, i).insts[x]} | 0 <= x < |st.insts| && x != i :: Settled(st, i).insts[x] == st.insts[x]
  {
  }

  lemma SettledRuns(g: Filters, st: State, i: Id, x: Id)
    requires Acyclic(g) && InRange(st) && Mutual(st.insts) && |st.tasks| > 0 && st.tasks[0] == Notify(i, false) && i in st.alive && x < |st.insts|
    requires ProductAt(g, st, i) && TakenAt(st, i) && ProductAt(g, st, x) && TakenAt(st, x) && ProgressAt(st, x)
    ensures var s := Settled(st, i);
            && Linked(s.insts) && ProductAt(g, s, x) && TakenAt(s, x)
            && (ProgressAt(s, x) || x in s.insts[i].outputs)
  {
    var s := Settled(st, i);
    PoppedTasks(st);
    SettledGraph(g, st, i);
    SameGraphFacts(g, st.insts, s.insts);
    assert i in st.insts[x].inputs <==> x in st.insts[i].outputs;
    assert forall j <- st.insts[x].inputs :: j != i && DonePending(st, j) ==> DonePending(s, j);
    assert x != i ==> s.insts[x] == st.insts[x];
  }

  lemma SettledHolds(st: State, i: Id, x: Id)
    requires InRange(st) && NeckInv(st) && i in st.alive && x < |st.insts|
    requires |st.tasks| > 0 && st.tasks[0] == Notify(i, false) && st.insts[i].product.Some?
    requires NeckAt(st, i) && HeldAt(st, x) && NeckAt(st, x)
    ensures var s := Settled(st, i); |s.insts| == |st.insts| && HeldAt(s, x) && NeckAt(s, x)
  {
    PoppedTasks(st);
    assert x != i ==> Settled(st, i).insts[x] == st.insts[x];
  }

  lemma SettledInst(g: Filters, st: State, i: Id, x: Id)
    requires Shared(g, st) && |st.tasks| > 0 && st.tasks[0] == Notify(i, false) && i in st.alive && x < |st.insts|
    requires InstAt(g, st, i) && InstAt(g, st, x)
    ensures var s := Settled(st, i); Linked(s.insts) && LooksTo(g, s, x, s.insts[i].outputs)
  {
    SettledRuns(g, st, i, x);
    SettledHolds(st, i, x);
  }

  lemma SettledShared(g: Filters, st: State, i: Id)
    requires Shared(g, st) && |st.tasks| > 0 && st.tasks[0] == Notify(i, false) && i in st.alive
    requires InstAt(g, st, i)
    ensures Shared(g, Settled(st, i))
  {
    var s := Settled(st, i);
    PoppedTasks(st);
    SettledGraph(g, st, i);
    SameGraphFacts(g, st.insts, s.insts);
    OpenNeckInv(st, s, i);
  }

  // Opening the neck of a frame that is its filter's released one leaves the other necks as they were.
  lemma OpenNeckInv(st: State, s: State, i: Id)
    requires InRange(st) && InRange(s) && NeckInv(st) && i < |st.insts| && |s.insts| == |st.insts|
    requires forall x {:trigger s.insts[x]} {:trigger st.insts[x]} | 0 <= x < |s.insts| ::
               s.insts[x].key == st.insts[x].key && (x != i ==> s.insts[x].released == st.insts[x].released)
    requires if st.insts[i].single then !s.insts[i].released && s.busy == st.busy - {SubOf(st, i)}
             else s.insts[i].released == st.insts[i].released && s.busy == st.busy
    ensures NeckInv(s)
  {
    forall b | b in s.busy ensures HasReleased(s, b) {
      assert HasReleased(st, b);
      var x :| 0 <= x < |st.insts| && st.insts[x].released && st.insts[x].key.sub == b;
      assert s.insts[x].released;
    }
  }

  // Answering a callback and going over outputs do not meet.
  lemma {:induction false} AnswerCommutes(st: State, i: Id, outputs: seq<Id>)
    requires Linked(st.insts) && i < |st.insts| && forall o <- outputs :: o < |st.insts|
    ensures Linked(Answer(st, i).insts)
    ensures Answer(PostOutputs(st, outputs), i) == PostOutputs(Answer(st, i), outputs)
    decreases |outputs|
  {
    if |outputs| > 0 {
      assert outputs[0] in outputs;
      assert forall x | x in outputs[1..] :: x in outputs;
      AnswerCommutesOnce(st, i, outputs[0]);
      AnswerCommutes(PostOutput(st, outputs[0]), i, outputs[1..]);
    }
  }

  lemma AnswerCommutesOnce(st: State, i: Id, o: Id)
    requires Linked(st.insts) && i < |st.insts| && o < |st.insts|
    ensures Linked(Answer(st, i).insts)
    ensures Answer(PostOutput(st, o), i) == PostOutput(Answer(st, i), o)
  {
    assert SameGraph(st.insts, Answer(st, i).insts);
  }

  lemma PostWorkRest(g: Filters, st: State, i: Id, x: Id)
    requires Acyclic(g) && Linked(st.insts) && i < |st.insts| && x < |st.insts|
    requires i in st.alive && st.insts[i].product.None? && InputsReady(st.insts, i)
    requires AtRest(g, st, i) && AtRest(g, st, x)
    ensures var s := PostWork(st, i);
            AtRest(g, s, x) && (x == i || ProgressAt(st, x) ==> ProgressAt(s, x))
  {
    var s := PostWork(st, i);
    assert x != i ==> (Handed(s, x) <==> Handed(st, x)) && (x in s.waiting <==> x in st.waiting);
  }

  // At rest, and if nothing will send it, then it is among the outputs still to be looked at.
  ghost predicate LooksTo(g: Filters, st: State, x: Id, outputs: seq<Id>)
    requires Acyclic(g) && x < |st.insts| && Linked(st.insts)
  {
    AtRest(g, st, x) && (ProgressAt(st, x) || x in outputs)
  }

  /** Going over the outputs sends on every frame that lacked only this. */
  lemma {:induction false} PostOutputsKeepsCore(g: Filters, st: State, outputs: seq<Id>)
    requires Shared(g, st) && forall o <- outputs :: o < |st.insts|
    requires forall x {:trigger st.insts[x]} | 0 <= x < |st.insts| :: LooksTo(g, st, x, outputs)
    ensures Core(g, PostOutputs(st, outputs))
    decreases |outputs|
  {
    if |outputs| > 0 {
      var o := outputs[0];
      assert o in outputs;
      var rest := outputs[1..];
      assert forall x | x in rest :: x in outputs;
      assert forall x | x in outputs :: x == o || x in rest;
      assert LooksTo(g, st, o, outputs);
      var send := o in st.alive && st.insts[o].product.None? && InputsReady(st.insts, o);
      var s := PostOutput(st, o);
      if send { PostWorkShared(g, st, o); }
      forall x | 0 <= x < |s.insts| ensures LooksTo(g, s, x, rest) {
        assert LooksTo(g, st, x, outputs);
        if send { PostWorkRest(g, st, o, x); }
      }
      PostOutputsKeepsCore(g, s, rest);
    } else {
      forall x | 0 <= x < |st.insts| ensures InstAt(g, st, x) {
        assert LooksTo(g, st, x, outputs);
      }
    }
  }

  lemma FinishedKeepsCore(g: Filters, st: State, i: Id)
    requires Core(g, st) && |st.tasks| > 0 && st.tasks[0] == Notify(i, false) && i in st.alive
    ensures Core(g, HandleNotify(Popped(st), i, false))
  {
    var s := Settled(st, i);
    assert InstAt(g, st, i);
    SettledShared(g, st, i);
    forall x | 0 <= x < |s.insts| ensures LooksTo(g, s, x, s.insts[i].outputs) {
      assert InstAt(g, st, x);
      SettledInst(g, st, i, x);
    }
    PostOutputsKeepsCore(g, s, s.insts[i].outputs);
    FinishedIsPosted(st, i);
  }

  lemma FinishedIsPosted(st: State, i: Id)
    requires InRange(st) && |st.tasks| > 0 && st.tasks[0] == Notify(i, false) && i in st.alive
    ensures HandleNotify(Popped(st), i, false) == PostOutputs(Settled(st, i), Settled(st, i).insts[i].outputs)
  {
    var unlocked := OpenNeck(Popped(st), i);
    AnswerCommutes(unlocked, i, unlocked.insts[i].outputs);
  }

  // A failed frame

  lemma {:induction false} PathUnready(g: Filters, st: State, p: seq<Id>, n: nat)
    requires Core(g, st) && Path(st, p) && n < |p| && st.insts[p[0]].product.None?
    ensures st.insts[p[n]].product.None? && (n > 0 ==> !InputsReady(st.insts, p[n]))
  {
    if n > 0 {
      PathUnready(g, st, p, n - 1);
      assert p[n] in st.insts[p[n - 1]].outputs;
      assert p[n - 1] in st.insts[p[n]].inputs;
      assert InstAt(g, st, p[n]);
    }
  }

  // Not in a worker's hands now or before, and not waiting for one.
  ghost predicate Untouched(st: State, x: Id) {
    && x in st.alive && x < |st.insts| && st.insts[x].product.None?
    && !st.insts[x].taken && !st.insts[x].failed && !st.insts[x].released && !Handed(st, x) && x !in st.waiting
  }

  lemma UnreadyUntouched(g: Filters, st: State, x: Id)
    requires Acyclic(g) && Linked(st.insts) && x < |st.insts| && InstAt(g, st, x)
    requires x in st.alive && st.insts[x].product.None? && !InputsReady(st.insts, x)
    ensures Untouched(st, x)
  {
  }

  lemma PathEndUntouched(g: Filters, st: State, p: seq<Id>)
    requires Core(g, st) && Path(st, p) && |p| > 1 && st.insts[p[0]].product.None?
    ensures Untouched(st, p[|p| - 1])
  {
    PathUnready(g, st, p, |p| - 1);
    var x := p[|p| - 1];
    assert InstAt(g, st, x) by { assert st.insts[x] == st.insts[x]; }
    UnreadyUntouched(g, st, x);
  }

  /** A live frame that depends on an unfinished one was never handed to a worker and is not waiting to be. */
  lemma DependentsUntouched(g: Filters, st: State, i: Id, x: Id)
    requires Core(g, st) && i in st.alive && st.insts[i].product.None? && Reaches(st, i, x) && x != i
    ensures Untouched(st, x)
  {
    var p :| Path(st, p) && p[0] == i && p[|p| - 1] == x;
    PathEndUntouched(g, st, p);
  }

  // The frames that die with i.
  ghost predicate DiesWith(st: State, i: Id, dead: set<Id>)
    requires InRange(st)
  {
    i in dead && dead <= st.alive && Closed(st, dead) && forall x <- dead :: x == i || Untouched(st, x)
  }

  lemma SamePaths(st: State, s: State, i: Id, x: Id)
    requires |s.insts| == |st.insts| && s.alive == st.alive && Reaches(s, i, x)
    requires forall y {:trigger s.insts[y]} {:trigger st.insts[y]} | 0 <= y < |st.insts| ::
               s.insts[y].outputs == st.insts[y].outputs
    ensures Reaches(st, i, x)
  {
    var p :| Path(s, p) && p[0] == i && p[|p| - 1] == x;
    assert Path(st, p);
  }

  lemma FailedDead(g: Filters, st: State, i: Id) returns (dead: set<Id>)
    requires Core(g, st) && |st.tasks| > 0 && st.tasks[0] == Notify(i, true) && i in st.alive
    ensures Killed(OpenNeck(Popped(st), i), KillTree(OpenNeck(Popped(st), i), i), dead)
    ensures DiesWith(st, i, dead)
  {
    var s := OpenNeck(Popped(st), i);
    dead := KillTreeKills(s, i);
    forall x | x in dead && x != i ensures Untouched(st, x) {
      ReachedUntouched(g, st, i, x);
    }
    SameClosed(st, s, dead);
  }

  lemma ReachedUntouched(g: Filters, st: State, i: Id, x: Id)
    requires Core(g, st) && |st.tasks| > 0 && st.tasks[0] == Notify(i, true) && i in st.alive
    requires Reaches(OpenNeck(Popped(st), i), i, x) && x != i
    ensures Untouched(st, x)
  {
    assert InstAt(g, st, i);
    assert st.tasks[0] in st.tasks;
    SamePaths(st, OpenNeck(Popped(st), i), i, x);
    DependentsUntouched(g, st, i, x);
  }

  lemma SameClosed(st: State, s: State, dead: set<Id>)
    requires InRange(st) && InRange(s) && |s.insts| == |st.insts| && s.alive == st.alive && Closed(s, dead)
    requires forall y {:trigger s.insts[y]} {:trigger st.insts[y]} | 0 <= y < |st.insts| ::
               s.insts[y].outputs == st.insts[y].outputs
    ensures Closed(st, dead)
  {
  }

  lemma SweptTable(st: State, s: State, k: State, dead: set<Id>)
    requires InRange(st) && TableInv(st) && InRange(s) && Killed(s, k, dead)
    requires s.table == st.table && s.alive == st.alive && |s.insts| == |st.insts|
    requires forall x {:trigger s.insts[x]} {:trigger st.insts[x]} | 0 <= x < |st.insts| :: s.insts[x].key == st.insts[x].key
    ensures InRange(Sweep(k)) && TableInv(Sweep(k))
  {
  }

  lemma FailedAnswers(g: Filters, st: State, s: State, k: State, dead: set<Id>)
    requires Acyclic(g) && AnswerInv(g, st) && |st.tasks| > 0 && InRange(s) && Killed(s, k, dead)
    requires s.tasks == Popped(st).tasks && s.log == st.log
    ensures AnswerInv(g, Sweep(k))
  {
    PoppedTasks(st);
    assert forall c <- k.log :: c in st.log || c.frame.None?;
  }

  lemma FailedNecks(st: State, i: Id, dead: set<Id>, s: State, k: State)
    requires InRange(st) && NeckInv(st) && |st.tasks| > 0 && i < |st.insts|
    requires s == OpenNeck(Popped(st), i) && InRange(s) && Killed(s, k, dead)
    ensures InRange(Sweep(k)) && NeckInv(Sweep(k)) && SameGraph(st.insts, k.insts)
  {
    OpenNeckInv(st, Sweep(k), i);
  }

  lemma FailedNamed(st: State, i: Id, dead: set<Id>, s: State, k: State)
    requires Named(st) && |st.tasks| > 0 && i < |st.insts|
    requires s == OpenNeck(Popped(st), i) && InRange(s) && Killed(s, k, dead) && InRange(Sweep(k))
    ensures Named(Sweep(k))
  {
    PoppedTasks(st);
  }

  lemma FailedShared(g: Filters, st: State, i: Id, dead: set<Id>, s: State, k: State)
    requires Shared(g, st) && |st.tasks| > 0 && i in st.alive
    requires s == OpenNeck(Popped(st), i) && InRange(s) && Killed(s, k, dead)
    ensures Shared(g, Sweep(k))
  {
    FailedNecks(st, i, dead, s, k);
    FailedNamed(st, i, dead, s, k);
    assert Mutual(k.insts) by { SameGraphFacts(g, st.insts, k.insts); }
    SweptTable(st, s, k, dead);
    FailedAnswers(g, st, s, k, dead);
  }

  lemma FailedRuns(g: Filters, st: State, i: Id, dead: set<Id>, s: State, k: State, x: Id)
    requires Acyclic(g) && InRange(st) && Mutual(st.insts) && |st.tasks| > 0 && st.tasks[0] == Notify(i, true) && i in st.alive && x < |st.insts|
    requires ProductAt(g, st, x) && TakenAt(st, x) && ProgressAt(st, x)
    requires s == OpenNeck(Popped(st), i) && InRange(s) && Killed(s, k, dead) && DiesWith(st, i, dead)
    requires TakenAt(st, i)
    ensures Linked(k.insts) && ProductAt(g, Sweep(k), x) && TakenAt(Sweep(k), x) && ProgressAt(Sweep(k), x)
  {
    var r := Sweep(k);
    PoppedTasks(st);
    assert SameGraph(st.insts, r.insts);
    SameGraphFacts(g, st.insts, r.insts);
    assert Handed(r, x) <==> Handed(st, x);
    assert x != i ==> (x in r.waiting <==> x in st.waiting);
    assert forall j <- st.insts[x].inputs :: DonePending(st, j) ==> DonePending(r, j);
    assert r.insts[x].taken == st.insts[x].taken && r.insts[x].failed == st.insts[x].failed;
    forall j | j in st.insts[x].inputs && j in dead && x in st.alive ensures x in dead {
      assert x in st.insts[j].outputs;
    }
  }

  lemma FailedHolds(st: State, i: Id, dead: set<Id>, s: State, k: State, x: Id)
    requires InRange(st) && NeckInv(st) && i in st.alive && x < |st.insts|
    requires |st.tasks| > 0 && st.tasks[0] == Notify(i, true) && st.insts[i].failed && st.insts[i].product.None?
    requires NeckAt(st, i) && HeldAt(st, x) && NeckAt(st, x)
    requires s == OpenNeck(Popped(st), i) && InRange(s) && Killed(s, k, dead) && DiesWith(st, i, dead)
    ensures |k.insts| == |st.insts| && HeldAt(Sweep(k), x) && NeckAt(Sweep(k), x)
  {
    PoppedTasks(st);
  }

  lemma FailedKeepsCore(g: Filters, st: State, i: Id)
    requires Core(g, st) && |st.tasks| > 0 && st.tasks[0] == Notify(i, true) && i in st.alive
    ensures Core(g, HandleNotify(Popped(st), i, true))
  {
    var dead := FailedDead(g, st, i);
    var s := OpenNeck(Popped(st), i);
    var k := KillTree(s, i);
    assert InstAt(g, st, i);
    FailedShared(g, st, i, dead, s, k);
    forall x | 0 <= x < |st.insts| ensures InstAt(g, Sweep(k), x) {
      assert InstAt(g, st, x);
      FailedRuns(g, st, i, dead, s, k, x);
      FailedHolds(st, i, dead, s, k, x);
    }
  }

  // Releasing

  // A waiting frame of an open neck has not been handed out or run.
  lemma ChosenFresh(g: Filters, st: State, i: Id)
    requires Core(g, st) && i in Chosen(st)
    ensures i < |st.insts| && i in st.waiting && st.insts[i].single && i in st.alive && !st.insts[i].released
    ensures st.insts[i].product.None? && !st.insts[i].failed && !st.insts[i].taken
  {
    assert InstAt(g, st, i);
  }

  /** An open neck in which frames wait releases one of them, and none of its frames has a smaller tick. */
  lemma {:induction false} EarliestIsChosen(st: State, i: Id)
    requires InRange(st) && i in st.waiting && SubOf(st, i) !in st.busy
    ensures exists j :: j in Chosen(st) && SubOf(st, j) == SubOf(st, i) && st.insts[j].tick <= st.insts[i].tick
    decreases st.insts[i].tick, i
  {
    if IsEarliest(st, i) {
      assert i in Chosen(st);
    } else {
      var j :| j in st.waiting && SubOf(st, j) == SubOf(st, i) && !Before(st, i, j);
      EarliestIsChosen(st, j);
    }
  }

  lemma OneChosen(st: State, i: Id, j: Id)
    requires InRange(st) && i in Chosen(st) && j in Chosen(st) && SubOf(st, i) == SubOf(st, j)
    ensures i == j
  {
    assert Before(st, i, j) && Before(st, j, i);
  }

  lemma ReleasedInst(g: Filters, st: State, x: Id)
    requires Core(g, st) && x < |st.insts|
    ensures Linked(ReleaseAll(st).insts) && InstAt(g, ReleaseAll(st), x)
  {
    assert SameGraph(st.insts, ReleaseAll(st).insts);
    if x in Chosen(st) { ChosenInst(g, st, x); } else { UnchosenInst(g, st, x); }
  }

  lemma ChosenInst(g: Filters, st: State, x: Id)
    requires Core(g, st) && x < |st.insts| && x in Chosen(st) && SameGraph(st.insts, ReleaseAll(st).insts)
    ensures Linked(ReleaseAll(st).insts) && InstAt(g, ReleaseAll(st), x)
  {
    assert InstAt(g, st, x);
    SameGraphFacts(g, st.insts, ReleaseAll(st).insts);
    ChosenFresh(g, st, x);
    ReleasedNeck(g, st, x);
  }

  lemma UnchosenInst(g: Filters, st: State, x: Id)
    requires Core(g, st) && x < |st.insts| && x !in Chosen(st) && SameGraph(st.insts, ReleaseAll(st).insts)
    ensures Linked(ReleaseAll(st).insts) && InstAt(g, ReleaseAll(st), x)
  {
    var s := ReleaseAll(st);
    assert InstAt(g, st, x);
    SameGraphFacts(g, st.insts, s.insts);
    assert s.insts[x] == st.insts[x] && (Handed(s, x) <==> Handed(st, x));
    ReleasedNeck(g, st, x);
  }

  lemma ReleasedNeck(g: Filters, st: State, x: Id)
    requires Core(g, st) && x < |st.insts|
    ensures NeckAt(ReleaseAll(st), x)
  {
    assert InstAt(g, st, x);
    if x in Chosen(st) {
      ChosenFresh(g, st, x);
    } else {
      assert ReleaseAll(st).insts[x] == st.insts[x];
    }
  }

  lemma OneReleased(g: Filters, st: State, i: Id, j: Id)
    requires Core(g, st) && i < |st.insts| && j < |st.insts|
    requires var s := ReleaseAll(st); s.insts[i].released && s.insts[j].released && SubOf(s, i) == SubOf(s, j)
    ensures i == j
  {
    assert InstAt(g, st, i) && InstAt(g, st, j);
    if i in Chosen(st) && j in Chosen(st) { OneChosen(st, i, j); }
  }

  lemma BusyHasReleased(st: State, b: nat)
    requires InRange(st) && NeckInv(st) && b in ReleaseAll(st).busy
    ensures HasReleased(ReleaseAll(st), b)
  {
    var s := ReleaseAll(st);
    if b in st.busy {
      assert HasReleased(st, b);
      var x :| 0 <= x < |st.insts| && st.insts[x].released && st.insts[x].key.sub == b;
      assert s.insts[x].released;
    } else {
      var x :| x in Chosen(st) && SubOf(st, x) == b;
      assert s.insts[x].released;
    }
  }

  lemma ReleasedNecks(g: Filters, st: State)
    requires Core(g, st)
    ensures InRange(ReleaseAll(st)) && NeckInv(ReleaseAll(st))
  {
    var s := ReleaseAll(st);
    forall i, j | 0 <= i < |s.insts| && 0 <= j < |s.insts| && s.insts[i].released && s.insts[j].released && SubOf(s, i) == SubOf(s, j)
      ensures i == j
    {
      OneReleased(g, st, i, j);
    }
    forall b | b in s.busy ensures HasReleased(s, b) {
      BusyHasReleased(st, b);
    }
  }

  lemma ReleasedShared(g: Filters, st: State)
    requires Shared(g, st) && InRange(ReleaseAll(st)) && NeckInv(ReleaseAll(st))
    ensures Shared(g, ReleaseAll(st))
  {
    var s := ReleaseAll(st);
    assert SameGraph(st.insts, s.insts);
    SameGraphFacts(g, st.insts, s.insts);
  }

  lemma ReleaseDrains(st: State)
    requires InRange(st) && InRange(ReleaseAll(st))
    ensures Drained(ReleaseAll(st))
  {
    var s := ReleaseAll(st);
    forall i | i in s.waiting ensures SubOf(s, i) in s.busy {
      if SubOf(st, i) !in st.busy {
        EarliestIsChosen(st, i);
      }
    }
  }

  lemma ReleaseKeepsCore(g: Filters, st: State)
    requires Core(g, st)
    ensures Core(g, ReleaseAll(st)) && Drained(ReleaseAll(st))
  {
    ReleasedNecks(g, st);
    ReleasedShared(g, st);
    ReleaseDrains(st);
    forall x | 0 <= x < |st.insts| ensures InstAt(g, ReleaseAll(st), x) {
      ReleasedInst(g, st, x);
    }
  }

  lemma TaskKeepsCore(g: Filters, st: State)
    requires Core(g, st) && |st.tasks| > 0
    ensures Core(g, HandleTask(g, st))
  {
    assert st.tasks[0] in st.tasks;
    match st.tasks[0] {
      case Construct(key, callback) =>
        PopConstruct(g, st);
        ConstructKeepsCore(g, Popped(st), key, callback);
      case Notify(i, failed) =>
        if i !in st.alive {
          PopDead(g, st);
        } else if failed {
          FailedKeepsCore(g, st, i);
        } else {
          FinishedKeepsCore(g, st, i);
        }
    }
  }

  /** A task of the maintainer, with the release that follows it, keeps the invariant. */
  lemma MaintainKeepsCore(g: Filters, st: State)
    requires Core(g, st) && |st.tasks| > 0
    ensures Core(g, Maintain(g, st)) && Drained(Maintain(g, st))
  {
    TaskKeepsCore(g, st);
    ReleaseKeepsCore(g, HandleTask(g, st));
  }
}
