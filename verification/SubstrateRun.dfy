/** Runs of the scheduler in every interleaving, and what holds all along them. */
module SubstrateRun {
  import opened Options
  import opened Substrate
  import opened SubstrateInv
  import opened SubstrateConstruct
  import opened SubstrateNotify
  import opened SubstrateMaintain
  import opened SubstrateCallbacks

  datatype Event =
    | AskFrame(key: Key)
    | RunTask
    | EvictFrame(id: Id)
    | NextTick
    | TakeFrame(id: Id)
    | FinishFrame(id: Id)
    | ReportFrame(id: Id)
    | FailFrame(id: Id)
    | GiveUpFrame(id: Id)
    | PushBackFrame(id: Id)

  // One step of a client, the maintainer or a worker.
  ghost predicate Step(g: Filters, st: State, e: Event, next: State)
    requires Acyclic(g)
  {
    match e
    case AskFrame(key) => next == Request(st, key)
    case RunTask => |st.tasks| > 0 && InRange(st) && next == Maintain(g, st)
    case EvictFrame(i) => CanEvict(st, i) && next == Evict(st, i)
    case NextTick => next == st.(tick := st.tick + 1)
    case TakeFrame(i) => i in st.work && i < |st.insts| && next == Take(st, i)
    case FinishFrame(i) => i in st.computing && CanFinish(g, st, i) && next == Finish(g, st, i)
    case ReportFrame(i) => i in st.stored && next == Report(st, i)
    case FailFrame(i) => i in st.computing && i < |st.insts| && next == Fail(st, i)
    case GiveUpFrame(i) => i in st.computing && i < |st.insts| && next == GiveUp(st, i)
    case PushBackFrame(i) => i in st.reposting && next == PushBack(st, i)
  }

  lemma TickKeepsCore(g: Filters, st: State)
    requires Core(g, st)
    ensures Core(g, st.(tick := st.tick + 1))
  {
    var s := st.(tick := st.tick + 1);
    forall x | 0 <= x < |s.insts| ensures InstAt(g, s, x) {
      assert InstAt(g, st, x);
    }
  }

  lemma StepKeepsCore(g: Filters, st: State, e: Event, next: State)
    requires Core(g, st) && Drained(st) && Step(g, st, e, next)
    ensures Core(g, next) && Drained(next)
  {
    match e {
      case AskFrame(key) => RequestKeepsCore(g, st, key);
      case RunTask => MaintainKeepsCore(g, st);
      case EvictFrame(i) => EvictKeepsCore(g, st, i);
      case NextTick => TickKeepsCore(g, st);
      case TakeFrame(i) => TakeKeepsCore(g, st, i);
      case FinishFrame(i) => FinishKeepsCore(g, st, i);
      case ReportFrame(i) => ReportKeepsCore(g, st, i);
      case FailFrame(i) => FailKeepsCore(g, st, i);
      case GiveUpFrame(i) => GiveUpKeepsCore(g, st, i);
      case PushBackFrame(i) => PushBackKeepsCore(g, st, i);
    }
  }

  lemma SameCallbacks(st: State, next: State)
    requires |next.insts| == |st.insts| && Conserved(st)
    requires forall i {:trigger st.insts[i]} {:trigger next.insts[i]} | 0 <= i < |st.insts| ::
               st.insts[i].callback == next.insts[i].callback
    requires next.log == st.log && next.replaced == st.replaced && next.issued == st.issued
    requires QueuedIds(next.tasks) == QueuedIds(st.tasks)
    ensures Conserved(next)
  {
    HeldSame(st.insts, next.insts);
  }

  lemma AskConserves(st: State, key: Key)
    requires Conserved(st)
    ensures Conserved(Request(st, key))
  {
    QueuedPush(st.tasks, Construct(key, Some(Callback(st.issued, key))));
    AskedOne(QueuedIds(st.tasks), Placed(st), st.issued);
  }

  lemma ReportConserves(st: State, next: State, t: Task)
    requires Conserved(st) && t.Notify? && next.tasks == st.tasks + [t] && |next.insts| == |st.insts|
    requires forall i {:trigger st.insts[i]} {:trigger next.insts[i]} | 0 <= i < |st.insts| ::
               st.insts[i].callback == next.insts[i].callback
    requires next.log == st.log && next.replaced == st.replaced && next.issued == st.issued
    ensures Conserved(next)
  {
    QueuedPush(st.tasks, t);
    SameCallbacks(st, next);
  }

  lemma StepConserves(g: Filters, st: State, e: Event, next: State)
    requires Acyclic(g) && Conserved(st) && Step(g, st, e, next)
    ensures Conserved(next)
  {
    match e {
      case AskFrame(key) => AskConserves(st, key);
      case RunTask => MaintainConserves(g, st);
      case ReportFrame(i) => ReportConserves(st, next, Notify(i, false));
      case FailFrame(i) => ReportConserves(st, next, Notify(i, true));
      case _ => SilentConserves(g, st, e, next);
    }
  }

  // Steps that queue nothing and touch no callback.
  lemma SilentStep(g: Filters, st: State, e: Event, next: State)
    requires Acyclic(g) && Step(g, st, e, next)
    requires e.EvictFrame? || e.NextTick? || e.TakeFrame? || e.FinishFrame? || e.GiveUpFrame? || e.PushBackFrame?
    ensures next.tasks == st.tasks && next.log == st.log && next.replaced == st.replaced && next.issued == st.issued
    ensures |next.insts| == |st.insts|
    ensures forall i {:trigger st.insts[i]} {:trigger next.insts[i]} | 0 <= i < |st.insts| ::
              st.insts[i].callback == next.insts[i].callback
  {
  }

  lemma SilentConserves(g: Filters, st: State, e: Event, next: State)
    requires Acyclic(g) && Conserved(st) && Step(g, st, e, next)
    requires e.EvictFrame? || e.NextTick? || e.TakeFrame? || e.FinishFrame? || e.GiveUpFrame? || e.PushBackFrame?
    ensures Conserved(next)
  {
    SilentStep(g, st, e, next);
    SameCallbacks(st, next);
  }

  lemma AskedOne(queued: multiset<nat>, placed: multiset<nat>, n: nat)
    requires queued + placed == IssuedIds(n)
    ensures (queued + multiset{n}) + placed == IssuedIds(n + 1)
  {
  }

  // A run: it starts with nothing asked, and each state follows from the one before by a step.
  ghost predicate IsRun(g: Filters, states: seq<State>, events: seq<Event>)
    requires Acyclic(g)
  {
    && |states| == |events| + 1 && states[0] == Initial
    && forall n {:trigger events[n]} | 0 <= n < |events| :: Step(g, states[n], events[n], states[n + 1])
  }

  /** The invariant holds in every state of every run. */
  lemma {:induction false} RunKeepsInv(g: Filters, states: seq<State>, events: seq<Event>, n: nat)
    requires Acyclic(g) && IsRun(g, states, events) && n < |states|
    ensures Inv(g, states[n])
  {
    if n > 0 {
      RunKeepsInv(g, states, events, n - 1);
      assert Step(g, states[n - 1], events[n - 1], states[n]);
      StepKeepsCore(g, states[n - 1], events[n - 1], states[n]);
      StepConserves(g, states[n - 1], events[n - 1], states[n]);
    }
  }

  // What a client and the filters see

  /** Every product, in the table or out of it, and every frame a callback receives is what the plain recursive
      evaluator gives, after eviction and recomputation too. */
  lemma FramesAreReference(g: Filters, states: seq<State>, events: seq<Event>, n: nat)
    requires Acyclic(g) && IsRun(g, states, events) && n < |states|
    ensures forall i {:trigger states[n].insts[i]} | 0 <= i < |states[n].insts| && states[n].insts[i].product.Some? ::
              states[n].insts[i].product.value == Reference(g, states[n].insts[i].key)
    ensures forall c <- states[n].log :: c.frame.Some? ==> c.frame.value == Reference(g, c.callback.key)
  {
    RunKeepsInv(g, states, events, n);
    var st := states[n];
    forall i | 0 <= i < |st.insts| && st.insts[i].product.Some?
      ensures st.insts[i].product.value == Reference(g, st.insts[i].key)
    {
      assert InstAt(g, st, i);
    }
  }

  /** A worker that has taken a frame finds every input in the table with its product. */
  lemma WorkerFindsInputs(g: Filters, states: seq<State>, events: seq<Event>, n: nat, i: Id)
    requires Acyclic(g) && IsRun(g, states, events) && n < |states| && i in states[n].computing
    ensures var st := states[n];
            && CanFinish(g, st, i) && st.insts[i].product.None? && i in st.alive
            && forall j <- st.insts[i].inputs :: j in st.table.Values
  {
    RunKeepsInv(g, states, events, n);
    var st := states[n];
    assert InstAt(g, st, i);
    forall j | j in st.insts[i].inputs ensures j in st.table.Values {
      assert st.insts[j].key in st.table;
    }
  }

  // A product once stored, and a failure once met, stay. A frame keeps its key, its inputs and its tick.
  ghost predicate Settles(st: State, next: State) {
    && |st.insts| <= |next.insts|
    && forall i {:trigger st.insts[i]} {:trigger next.insts[i]} | 0 <= i < |st.insts| ::
         && next.insts[i].key == st.insts[i].key
         && next.insts[i].inputs == st.insts[i].inputs && next.insts[i].tick == st.insts[i].tick
         && (st.insts[i].product.Some? ==> next.insts[i].product == st.insts[i].product)
         && (st.insts[i].failed ==> next.insts[i].failed)
  }

  lemma ConstructSettles(g: Filters, st: State, key: Key, callback: Option<Callback>)
    requires Core(g, st) && |st.tasks| > 0 && st.tasks[0] == Construct(key, callback)
    ensures Settles(st, HandleTask(g, st))
  {
    assert st.tasks[0] in st.tasks;
    PopConstruct(g, st);
    ConstructKeepsCore(g, Popped(st), key, callback);
    GrowsSettles(g, Popped(st), HandleTask(g, st), g.rank(key) + 1);
  }

  lemma GrowsSettles(g: Filters, a: State, b: State, rank: nat)
    requires Grows(g, a, b, rank)
    ensures Settles(a, b)
  {
  }

  lemma FailureSettles(st: State, i: Id)
    requires InRange(st) && i in st.alive
    ensures Settles(st, Sweep(KillTree(OpenNeck(st, i), i)))
  {
    var dead := KillTreeKills(OpenNeck(st, i), i);
  }

  lemma TaskSettles(g: Filters, st: State)
    requires Core(g, st) && |st.tasks| > 0
    ensures Settles(st, HandleTask(g, st))
  {
    match st.tasks[0] {
      case Construct(key, callback) => ConstructSettles(g, st, key, callback);
      case Notify(i, failed) =>
        if i in st.alive && failed { FailureSettles(Popped(st), i); }
    }
  }

  lemma MaintainSettles(g: Filters, st: State)
    requires Core(g, st) && |st.tasks| > 0
    ensures Settles(st, Maintain(g, st))
  {
    TaskSettles(g, st);
    SettlesOn(st, HandleTask(g, st), Maintain(g, st));
  }

  lemma FinishSettles(g: Filters, st: State, i: Id)
    requires Core(g, st) && i in st.computing && CanFinish(g, st, i)
    ensures Settles(st, Finish(g, st, i))
  {
    assert InstAt(g, st, i);
  }

  lemma StepSettles(g: Filters, st: State, e: Event, next: State)
    requires Core(g, st) && Step(g, st, e, next)
    ensures Settles(st, next)
  {
    match e {
      case RunTask => MaintainSettles(g, st);
      case FinishFrame(i) => FinishSettles(g, st, i);
      case TakeFrame(i) => WorkerSettles(st, i);
      case FailFrame(i) => WorkerSettles(st, i);
      case GiveUpFrame(i) => WorkerSettles(st, i);
      case _ => assert next.insts == st.insts;
    }
  }

  lemma WorkerSettles(st: State, i: Id)
    requires i < |st.insts|
    ensures Settles(st, Take(st, i)) && Settles(st, Fail(st, i)) && Settles(st, GiveUp(st, i))
  {
  }

  lemma LastSettles(g: Filters, states: seq<State>, events: seq<Event>, n: nat)
    requires Acyclic(g) && IsRun(g, states, events) && n + 1 < |states|
    ensures Settles(states[n], states[n + 1])
  {
    RunKeepsInv(g, states, events, n);
    assert Step(g, states[n], events[n], states[n + 1]);
    StepSettles(g, states[n], events[n], states[n + 1]);
  }

  lemma {:induction false} RunSettles(g: Filters, states: seq<State>, events: seq<Event>, n: nat, m: nat)
    requires Acyclic(g) && IsRun(g, states, events) && n <= m < |states|
    ensures Settles(states[n], states[m])
  {
    if n < m {
      RunSettles(g, states, events, n, m - 1);
      LastSettles(g, states, events, m - 1);
      SettlesOn(states[n], states[m - 1], states[m]);
    }
  }

  lemma SettlesOn(a: State, b: State, c: State)
    requires Settles(a, b) && Settles(b, c)
    ensures Settles(a, c)
  {
  }

  // Processing i has ended, well or badly.
  ghost predicate Ended(st: State, i: Id) {
    i < |st.insts| && (st.insts[i].product.Some? || st.insts[i].failed)
  }

  lemma EndedNotComputing(g: Filters, st: State, i: Id)
    requires Core(g, st) && Ended(st, i)
    ensures i !in st.computing
  {
    assert InstAt(g, st, i);
  }

  /** An instance is computed at most once, however often it was posted. */
  lemma ComputedOnce(g: Filters, states: seq<State>, events: seq<Event>, n: nat, m: nat, i: Id)
    requires Acyclic(g) && IsRun(g, states, events) && n < m < |events|
    requires events[n] == FinishFrame(i) || events[n] == FailFrame(i)
    ensures events[m] != FinishFrame(i) && events[m] != FailFrame(i) && events[m] != GiveUpFrame(i)
  {
    assert Step(g, states[n], events[n], states[n + 1]);
    assert Step(g, states[m], events[m], states[m + 1]);
    assert Ended(states[n + 1], i);
    RunSettles(g, states, events, n + 1, m);
    assert Ended(states[m], i) by { assert states[m].insts[i] == states[m].insts[i]; }
    RunKeepsInv(g, states, events, m);
    EndedNotComputing(g, states[m], i);
  }

  /** The frame data of an instance is dropped at most once: after it was computed, or when it was killed. */
  lemma DataDroppedOnce(g: Filters, states: seq<State>, events: seq<Event>, n: nat, i: Id)
    requires Acyclic(g) && IsRun(g, states, events) && n < |states| && i < |states[n].insts|
    ensures var st := states[n];
            st.insts[i].drops == if st.insts[i].product.Some? || i !in st.alive then 1 else 0
  {
    RunKeepsInv(g, states, events, n);
    assert InstAt(g, states[n], i);
  }

  /** At most one frame of a single-threaded filter is out of its neck, and at most one is being computed. */
  lemma OneFramePerFilter(g: Filters, states: seq<State>, events: seq<Event>, n: nat, i: Id, j: Id)
    requires Acyclic(g) && IsRun(g, states, events) && n < |states|
    requires i < |states[n].insts| && j < |states[n].insts| && SubOf(states[n], i) == SubOf(states[n], j)
    ensures states[n].insts[i].released && states[n].insts[j].released ==> i == j
    ensures g.singleThreaded(SubOf(states[n], i)) && i in states[n].computing && j in states[n].computing ==> i == j
  {
    RunKeepsInv(g, states, events, n);
    assert InstAt(g, states[n], i) && InstAt(g, states[n], j);
  }

  // Failure

  lemma InDead(s: State, i: Id, x: Id, dead: set<Id>)
    requires InRange(s) && Closed(s, dead) && i in dead && Reaches(s, i, x)
    ensures x in dead
  {
    var p :| Path(s, p) && p[0] == i && p[|p| - 1] == x;
    ClosedHoldsPaths(s, dead, p, |p| - 1);
  }

  lemma FailureKills(st: State, i: Id) returns (dead: set<Id>)
    requires InRange(st) && |st.tasks| > 0 && i in st.alive
    ensures Killed(OpenNeck(Popped(st), i), KillTree(OpenNeck(Popped(st), i), i), dead)
    ensures dead <= st.alive && forall x :: x in dead <==> Reaches(st, i, x)
  {
    var s := OpenNeck(Popped(st), i);
    dead := KillTreeKills(s, i);
    forall x ensures x in dead <==> Reaches(st, i, x) {
      if x in dead { SamePaths(st, s, i, x); }
      if Reaches(st, i, x) {
        SamePaths(s, st, i, x);
        InDead(s, i, x, dead);
      }
    }
  }

  /** When the report of a thrown exception is handled, exactly the live frames that depend on the failed one die, and
      they leave the table. */
  lemma FailureIsExact(g: Filters, st: State, i: Id, x: Id)
    requires Core(g, st) && |st.tasks| > 0 && st.tasks[0] == Notify(i, true) && i in st.alive && x < |st.insts|
    ensures x in st.alive && x !in Maintain(g, st).alive <==> Reaches(st, i, x)
    ensures Reaches(st, i, x) ==> x !in Maintain(g, st).table.Values
  {
    var dead := FailureKills(st, i);
    var next := Maintain(g, st);
    assert next.alive == st.alive - dead;
    forall k | k in next.table ensures next.table[k] in next.alive {
    }
  }

  /** None of the dependents that die had been handed to a worker. */
  lemma FailureSparesWorkers(g: Filters, st: State, i: Id, x: Id)
    requires Core(g, st) && |st.tasks| > 0 && st.tasks[0] == Notify(i, true) && i in st.alive && x < |st.insts|
    requires Reaches(st, i, x)
    ensures st.insts[x].product.None? && st.insts[x].drops == 0 && (x != i ==> Untouched(st, x))
  {
    FailedUnfinished(g, st, i);
    if x != i { DependentsUntouched(g, st, i, x); }
    var p :| Path(st, p) && p[0] == i && p[|p| - 1] == x;
    UnfinishedUndropped(g, st, x);
  }

  /** The data of each frame that dies is dropped once, and a callback it held gets the error. */
  lemma FailureDropsAndAnswers(st: State, i: Id, x: Id)
    requires InRange(st) && |st.tasks| > 0 && i in st.alive && x < |st.insts| && Reaches(st, i, x)
    ensures var next := Sweep(KillTree(OpenNeck(Popped(st), i), i));
            && |next.insts| == |st.insts| && next.insts[x].drops == st.insts[x].drops + 1 && next.insts[x].callback.None?
            && (st.insts[x].callback.Some? ==> Call(st.insts[x].callback.value, None) in next.log)
  {
    var dead := FailureKills(st, i);
    var s := OpenNeck(Popped(st), i);
    KillTreeSendsErrors(s, i);
    assert ErrorSentAt(s, KillTree(s, i), x);
  }

  lemma FailedUnfinished(g: Filters, st: State, i: Id)
    requires Core(g, st) && Notify(i, true) in st.tasks && i < |st.insts|
    ensures st.insts[i].product.None?
  {
    assert InstAt(g, st, i);
  }

  lemma UnfinishedUndropped(g: Filters, st: State, x: Id)
    requires Core(g, st) && x in st.alive && x < |st.insts| && st.insts[x].product.None?
    ensures st.insts[x].drops == 0
  {
    assert InstAt(g, st, x);
  }

  // Rest

  // Nothing is queued and no worker is busy.
  predicate Quiet(st: State) {
    |st.tasks| == 0 && |st.work| == 0 && |st.reposting| == 0 && st.computing == {} && st.stored == {}
  }

  // A released frame is with a worker or has a report on the way.
  lemma ReleasedNotQuiet(g: Filters, st: State, i: Id)
    requires Core(g, st) && i < |st.insts| && st.insts[i].released
    ensures !Quiet(st)
  {
    assert InstAt(g, st, i);
  }

  lemma BusyNotQuiet(g: Filters, st: State, s: nat)
    requires Core(g, st) && s in st.busy
    ensures !Quiet(st)
  {
    assert HasReleased(st, s);
    var i :| 0 <= i < |st.insts| && st.insts[i].released && st.insts[i].key.sub == s;
    ReleasedNotQuiet(g, st, i);
  }

  // An unfinished live frame means that something is queued or busy: take one with finished inputs.
  lemma {:induction false} UnfinishedNotQuiet(g: Filters, st: State, i: Id)
    requires Core(g, st) && Drained(st) && i in st.alive && st.insts[i].product.None?
    ensures !Quiet(st)
    decreases i
  {
    assert InstAt(g, st, i);
    if InputsReady(st.insts, i) {
      if i in st.waiting { BusyNotQuiet(g, st, SubOf(st, i)); }
    } else {
      var j :| j in st.insts[i].inputs && st.insts[j].product.None?;
      UnfinishedNotQuiet(g, st, j);
    }
  }

  // A callback held by a finished frame means that the frame has a report on the way.
  lemma HeldNotQuiet(g: Filters, st: State, i: Id)
    requires Core(g, st) && Drained(st) && i < |st.insts| && st.insts[i].callback.Some?
    ensures !Quiet(st)
  {
    assert InstAt(g, st, i);
    if st.insts[i].product.None? { UnfinishedNotQuiet(g, st, i); }
  }

  lemma {:induction false} NoneHeld(insts: seq<Inst>)
    requires forall i {:trigger insts[i]} | 0 <= i < |insts| :: insts[i].callback.None?
    ensures HeldIds(insts) == multiset{}
  {
    if |insts| > 0 { NoneHeld(insts[..|insts| - 1]); }
  }

  // Everything asked for has been computed and answered.
  ghost predicate Finished(st: State) {
    && (forall k <- st.table :: st.table[k] < |st.insts| && st.insts[st.table[k]].product.Some?)
    && (forall i {:trigger st.insts[i]} | 0 <= i < |st.insts| :: st.insts[i].callback.None?)
    && st.busy == {} && st.waiting == {}
  }

  /** No frame gets stuck: when nothing is queued and no worker is busy, every frame in the table has its product, no
      callback is held, no neck is busy, nobody waits in one, and each callback issued was called once unless a later
      request had replaced it. */
  lemma NoFrameStuck(g: Filters, states: seq<State>, events: seq<Event>, n: nat)
    requires Acyclic(g) && IsRun(g, states, events) && n < |states|
    ensures Quiet(states[n]) ==>
              Finished(states[n]) && CalledIds(states[n].log) + states[n].replaced == IssuedIds(states[n].issued)
  {
    RunKeepsInv(g, states, events, n);
    var st := states[n];
    forall s ensures s in st.busy ==> !Quiet(st) { if s in st.busy { BusyNotQuiet(g, st, s); } }
    forall i ensures i in st.waiting ==> !Quiet(st) { if i in st.waiting { BusyNotQuiet(g, st, SubOf(st, i)); } }
    forall k ensures k in st.table && st.insts[st.table[k]].product.None? ==> !Quiet(st) {
      if k in st.table && st.insts[st.table[k]].product.None? { UnfinishedNotQuiet(g, st, st.table[k]); }
    }
    forall i | 0 <= i < |st.insts| ensures st.insts[i].callback.Some? ==> !Quiet(st) {
      if st.insts[i].callback.Some? { HeldNotQuiet(g, st, i); }
    }
    if Quiet(st) { NoneHeld(st.insts); }
  }

  lemma {:induction false} IssuedOnce(n: nat, id: nat)
    ensures IssuedIds(n)[id] == if id < n then 1 else 0
  {
    if n > 0 { IssuedOnce(n - 1, id); }
  }

  lemma {:induction false} CallIsCounted(log: seq<Call>, i: nat, j: nat)
    requires i < j < |log| && log[i].callback.id == log[j].callback.id
    ensures CalledIds(log)[log[i].callback.id] >= 2
  {
    var front := log[..|log| - 1];
    if j < |front| {
      CallIsCounted(front, i, j);
    } else {
      CallIsIn(front, i);
    }
  }

  lemma {:induction false} CallIsIn(log: seq<Call>, i: nat)
    requires i < |log|
    ensures CalledIds(log)[log[i].callback.id] >= 1
  {
    if i < |log| - 1 { CallIsIn(log[..|log| - 1], i); }
  }

  /** No callback is called twice, and one that was replaced is never called. */
  lemma CalledAtMostOnce(g: Filters, states: seq<State>, events: seq<Event>, n: nat)
    requires Acyclic(g) && IsRun(g, states, events) && n < |states|
    ensures forall i, j {:trigger states[n].log[i], states[n].log[j]} | 0 <= i < j < |states[n].log| ::
              states[n].log[i].callback.id != states[n].log[j].callback.id
    ensures forall c <- states[n].log :: c.callback.id < states[n].issued && c.callback.id !in states[n].replaced
  {
    RunKeepsInv(g, states, events, n);
    var st := states[n];
    forall i, j | 0 <= i < j < |st.log| ensures st.log[i].callback.id != st.log[j].callback.id {
      IssuedOnce(st.issued, st.log[i].callback.id);
      if st.log[i].callback.id == st.log[j].callback.id {
        CallIsCounted(st.log, i, j);
        assert false;
      }
    }
    forall c | c in st.log ensures c.callback.id < st.issued && c.callback.id !in st.replaced {
      var i :| 0 <= i < |st.log| && st.log[i] == c;
      CallIsIn(st.log, i);
      IssuedOnce(st.issued, c.callback.id);
    }
  }
}
