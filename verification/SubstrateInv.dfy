/** What holds in every reachable state of the scheduler, and that the workers' steps keep it. */
module SubstrateInv {
  import opened Options
  import opened Substrate

  ghost predicate DonePending(st: State, i: Id) {
    i in st.stored || Notify(i, false) in st.tasks
  }

  // Every queue and set names instances.
  ghost predicate Named(st: State) {
    && InRange(st)
    && (forall i <- st.work :: i < |st.insts|) && (forall i <- st.reposting :: i < |st.insts|)
    && (forall i <- st.computing :: i < |st.insts|) && (forall i <- st.stored :: i < |st.insts|)
    && (forall t <- st.tasks :: t.Notify? ==> t.id < |st.insts|)
  }

  // The first inputs are the dependencies, in order.
  ghost predicate InputsAreDeps(g: Filters, insts: seq<Inst>, i: Id)
    requires i < |insts| && Linked(insts)
  {
    var inst := insts[i];
    && |g.deps(inst.key)| <= |inst.inputs|
    && forall d | 0 <= d < |g.deps(inst.key)| ::
         inst.inputs[d] < |insts| && insts[inst.inputs[d]].key == g.deps(inst.key)[d]
  }

  // An input and its output name each other.
  ghost predicate Mutual(insts: seq<Inst>) {
    forall i, j {:trigger j in insts[i].inputs} {:trigger i in insts[j].outputs} |
      0 <= i < |insts| && 0 <= j < |insts| :: j in insts[i].inputs <==> i in insts[j].outputs
  }

  // The table and `alive` name the same instances.
  ghost predicate TableInv(st: State)
    requires InRange(st)
  {
    && (forall k <- st.table :: st.table[k] in st.alive && st.insts[st.table[k]].key == k)
    && (forall i <- st.alive :: st.insts[i].key in st.table && st.table[st.insts[i].key] == i)
  }

  // In a worker's hands or on the way to one.
  ghost predicate Handed(st: State, i: Id) {
    i in st.work || i in st.reposting || i in st.computing
  }

  // A product is the reference frame and its inputs were finished; an unfinished frame keeps its inputs in the table.
  ghost predicate ProductAt(g: Filters, st: State, i: Id)
    requires Acyclic(g) && i < |st.insts| && Linked(st.insts)
  {
    var inst := st.insts[i];
    && InputsAreDeps(g, st.insts, i)
    && (inst.product.Some? ==> InputsReady(st.insts, i) && inst.product.value == Reference(g, inst.key))
    && (inst.product.None? && i in st.alive ==> forall j <- inst.inputs :: j in st.alive)
    && (inst.product.None? && !inst.failed ==> inst.single == g.singleThreaded(inst.key.sub))
  }

  // Frames handed out have finished inputs, and those not yet run are alive. A frame is taken while a worker
  // computes it, and for good once it is finished or failed.
  ghost predicate TakenAt(st: State, i: Id)
    requires i < |st.insts| && Linked(st.insts)
  {
    var inst := st.insts[i];
    && (Handed(st, i) || i in st.waiting ==> InputsReady(st.insts, i) && (inst.product.None? && !inst.failed ==> i in st.alive))
    && (inst.taken <==> i in st.computing || inst.product.Some? || inst.failed)
    && (i in st.computing ==> inst.product.None? && !inst.failed)
    && (inst.failed ==> inst.product.None? && InputsReady(st.insts, i))
    && (DonePending(st, i) ==> inst.product.Some?)
    && (Notify(i, true) in st.tasks ==> inst.failed)
    && (inst.failed && i in st.alive ==> Notify(i, true) in st.tasks)
  }

  // A frame whose inputs are finished is on its way, or the report of an input that will send it is.
  ghost predicate ProgressAt(st: State, i: Id)
    requires i < |st.insts| && Linked(st.insts)
  {
    i in st.alive && st.insts[i].product.None? && !st.insts[i].failed && InputsReady(st.insts, i) ==>
      Handed(st, i) || i in st.waiting || exists j <- st.insts[i].inputs :: DonePending(st, j)
  }

  // A held callback belongs to a live frame that will report. Frame data is dropped once: when the frame is
  // computed or when it is killed.
  ghost predicate HeldAt(st: State, i: Id)
    requires i < |st.insts|
  {
    var inst := st.insts[i];
    && (inst.callback.Some? ==>
          && i in st.alive && inst.callback.value.key == inst.key
          && (inst.product.Some? ==> DonePending(st, i)))
    && inst.drops == (if inst.product.Some? || i !in st.alive then 1 else 0)
  }

  // A released frame is single-threaded, its neck is busy, and it is on its way or will report.
  ghost predicate NeckAt(st: State, i: Id)
    requires i < |st.insts|
  {
    var inst := st.insts[i];
    && (i in st.waiting ==> inst.single && i in st.alive)
    && (inst.released ==>
          && inst.single && i in st.alive && inst.key.sub in st.busy
          && (inst.product.None? && !inst.failed ==> Handed(st, i))
          && (inst.product.Some? ==> DonePending(st, i)))
    && (inst.single && (Handed(st, i) || inst.product.Some? || inst.failed) ==> inst.released)
  }

  ghost predicate InstAt(g: Filters, st: State, i: Id)
    requires Acyclic(g) && i < |st.insts| && Linked(st.insts)
  {
    ProductAt(g, st, i) && TakenAt(st, i) && ProgressAt(st, i) && HeldAt(st, i) && NeckAt(st, i)
  }

  // At most one frame of a filter is released, and one is while the neck is busy.
  ghost predicate NeckInv(st: State)
    requires InRange(st)
  {
    && (forall i, j {:trigger st.insts[i], st.insts[j]} | 0 <= i < |st.insts| && 0 <= j < |st.insts| ::
          st.insts[i].released && st.insts[j].released && SubOf(st, i) == SubOf(st, j) ==> i == j)
    && (forall s <- st.busy :: HasReleased(st, s))
  }

  ghost predicate HasReleased(st: State, s: nat) {
    exists i {:trigger st.insts[i]} | 0 <= i < |st.insts| :: st.insts[i].released && st.insts[i].key.sub == s
  }

  // Requests ask for the frame their callback expects, and answers are reference frames.
  ghost predicate AnswerInv(g: Filters, st: State)
    requires Acyclic(g)
  {
    && (forall t <- st.tasks :: t.Construct? && t.callback.Some? ==> t.callback.value.key == t.key)
    && (forall c <- st.log :: c.frame.Some? ==> c.frame.value == Reference(g, c.callback.key))
  }

  // Where the callbacks are

  function QueuedIds(tasks: seq<Task>): multiset<nat> {
    if tasks == [] then multiset{}
    else QueuedIds(tasks[..|tasks| - 1]) + TaskIds(tasks[|tasks| - 1])
  }

  function TaskIds(t: Task): multiset<nat> {
    if t.Construct? then CallbackIds(t.callback) else multiset{}
  }

  function HeldIds(insts: seq<Inst>): multiset<nat> {
    if insts == [] then multiset{}
    else HeldIds(insts[..|insts| - 1]) + CallbackIds(insts[|insts| - 1].callback)
  }

  function CalledIds(log: seq<Call>): multiset<nat> {
    if log == [] then multiset{}
    else CalledIds(log[..|log| - 1]) + multiset{log[|log| - 1].callback.id}
  }

  function IssuedIds(n: nat): multiset<nat> {
    if n == 0 then multiset{} else IssuedIds(n - 1) + multiset{n - 1}
  }

  // The callbacks that have left the queue.
  function Placed(st: State): multiset<nat> {
    HeldIds(st.insts) + CalledIds(st.log) + st.replaced
  }

  // Every callback issued is in one place: queued with its request, held, replaced, or called.
  ghost predicate Conserved(st: State) {
    QueuedIds(st.tasks) + Placed(st) == IssuedIds(st.issued)
  }

  ghost predicate Shared(g: Filters, st: State) {
    Acyclic(g) && Named(st) && Mutual(st.insts) && TableInv(st) && NeckInv(st) && AnswerInv(g, st)
  }

  ghost predicate Core(g: Filters, st: State) {
    && Shared(g, st)
    && forall i {:trigger st.insts[i]} | 0 <= i < |st.insts| :: InstAt(g, st, i)
  }

  // No neck is open while a frame waits in it.
  ghost predicate Drained(st: State)
    requires InRange(st)
  {
    forall i <- st.waiting :: SubOf(st, i) in st.busy
  }

  ghost predicate Inv(g: Filters, st: State) {
    Core(g, st) && Drained(st) && Conserved(st)
  }

  // The workers' steps

  // Instances that agree on key, links and product are equally ready and have the same dependencies.
  ghost predicate SameGraph(a: seq<Inst>, b: seq<Inst>) {
    && |a| == |b|
    && forall i {:trigger a[i]} {:trigger b[i]} | 0 <= i < |a| ::
         a[i].key == b[i].key && a[i].inputs == b[i].inputs && a[i].outputs == b[i].outputs && a[i].product == b[i].product
  }

  lemma SameGraphFacts(g: Filters, a: seq<Inst>, b: seq<Inst>)
    requires SameGraph(a, b) && Linked(a)
    ensures Linked(b)
    ensures Mutual(a) ==> Mutual(b)
    ensures forall i {:trigger InputsReady(b, i)} | 0 <= i < |a| :: InputsReady(a, i) <==> InputsReady(b, i)
    ensures forall i {:trigger InputsAreDeps(g, b, i)} | 0 <= i < |a| :: InputsAreDeps(g, a, i) <==> InputsAreDeps(g, b, i)
  {
  }

  lemma TakeInst(g: Filters, st: State, i: Id, x: Id)
    requires Core(g, st) && i in st.work && x < |st.insts|
    ensures Linked(Take(st, i).insts) && InstAt(g, Take(st, i), x)
  {
    SameGraphFacts(g, st.insts, Take(st, i).insts);
    if x == i { TakeItself(g, st, i); } else { TakeOther(g, st, i, x); }
  }

  lemma TakeItself(g: Filters, st: State, i: Id)
    requires Core(g, st) && i in st.work && Linked(Take(st, i).insts)
    ensures InstAt(g, Take(st, i), i)
  {
    assert InstAt(g, st, i);
    SameGraphFacts(g, st.insts, Take(st, i).insts);
  }

  lemma TakeOther(g: Filters, st: State, i: Id, x: Id)
    requires Core(g, st) && i in st.work && x < |st.insts| && x != i && Linked(Take(st, i).insts)
    ensures InstAt(g, Take(st, i), x)
  {
    assert InstAt(g, st, x);
    SameGraphFacts(g, st.insts, Take(st, i).insts);
    TakeSend(st, i, x);
    TakeGraph(g, st, i, x);
  }

  lemma TakeGraph(g: Filters, st: State, i: Id, x: Id)
    requires Acyclic(g) && Named(st) && i in st.work && i < |st.insts| && x < |st.insts| && x != i && Linked(Take(st, i).insts)
    requires InputsReady(st.insts, x) == InputsReady(Take(st, i).insts, x)
    requires InputsAreDeps(g, st.insts, x) == InputsAreDeps(g, Take(st, i).insts, x)
    requires ProductAt(g, st, x) && TakenAt(st, x) && ProgressAt(st, x)
    ensures ProductAt(g, Take(st, i), x) && TakenAt(Take(st, i), x) && ProgressAt(Take(st, i), x)
  {
    var s := Take(st, i);
    assert s.insts[x] == st.insts[x] && (Handed(s, x) <==> Handed(st, x));
  }

  lemma TakeSend(st: State, i: Id, x: Id)
    requires i in st.work && i < |st.insts| && x < |st.insts| && x != i && HeldAt(st, x) && NeckAt(st, x)
    ensures HeldAt(Take(st, i), x) && NeckAt(Take(st, i), x)
  {
  }

  lemma TakeShared(g: Filters, st: State, i: Id)
    requires Shared(g, st) && i in st.work
    ensures Shared(g, Take(st, i))
  {
    SameGraphFacts(g, st.insts, Take(st, i).insts);
  }

  lemma TakeKeepsCore(g: Filters, st: State, i: Id)
    requires Core(g, st) && i in st.work
    ensures Core(g, Take(st, i))
  {
    TakeShared(g, st, i);
    forall x | 0 <= x < |st.insts| ensures InstAt(g, Take(st, i), x) {
      TakeInst(g, st, i, x);
    }
  }

  /** What a worker computes from the products it reads is the reference frame. */
  lemma FinishedIsReference(g: Filters, st: State, i: Id)
    requires Core(g, st) && i in st.computing
    ensures CanFinish(g, st, i)
    ensures g.process(st.insts[i].key, InputFrames(g, st, i)) == Reference(g, st.insts[i].key)
  {
    assert InstAt(g, st, i);
    var k := st.insts[i].key;
    var deps, frames := g.deps(k), InputFrames(g, st, i);
    forall d | 0 <= d < |deps| ensures deps[d] in deps && frames[d] == Reference(g, deps[d]) {
      var j := st.insts[i].inputs[d];
      assert j in st.insts[i].inputs;
      assert InstAt(g, st, j);
    }
    assert frames == seq(|deps|, d requires 0 <= d < |deps| => assert deps[d] in deps; Reference(g, deps[d]));
  }

  // Storing a product only makes more frames ready.
  lemma FinishGraph(g: Filters, a: seq<Inst>, b: seq<Inst>, i: Id)
    requires Linked(a) && Mutual(a) && i < |a| && |b| == |a|
    requires b == a[i := a[i].(product := b[i].product, drops := b[i].drops)] && b[i].product.Some?
    ensures Linked(b) && Mutual(b)
    ensures forall x {:trigger InputsReady(b, x)} | 0 <= x < |b| :: InputsReady(a, x) ==> InputsReady(b, x)
    ensures forall x {:trigger InputsReady(b, x)} | 0 <= x < |b| ::
              InputsReady(b, x) ==> InputsReady(a, x) || i in a[x].inputs
    ensures forall x {:trigger InputsAreDeps(g, b, x)} | 0 <= x < |b| :: InputsAreDeps(g, a, x) ==> InputsAreDeps(g, b, x)
  {
  }

  lemma FinishInst(g: Filters, st: State, i: Id, x: Id)
    requires Core(g, st) && i in st.computing && CanFinish(g, st, i) && x < |st.insts|
    ensures Linked(Finish(g, st, i).insts) && InstAt(g, Finish(g, st, i), x)
  {
    var s := Finish(g, st, i);
    FinishedIsReference(g, st, i);
    assert InstAt(g, st, x);
    FinishGraph(g, st.insts, s.insts, i);
    if x != i {
      assert s.insts[x] == st.insts[x] && (Handed(s, x) <==> Handed(st, x));
      assert forall j <- st.insts[x].inputs :: DonePending(st, j) ==> DonePending(s, j);
    }
  }

  lemma FinishShared(g: Filters, st: State, i: Id)
    requires Shared(g, st) && i in st.computing && CanFinish(g, st, i)
    ensures Shared(g, Finish(g, st, i))
  {
    FinishGraph(g, st.insts, Finish(g, st, i).insts, i);
  }

  lemma FinishKeepsCore(g: Filters, st: State, i: Id)
    requires Core(g, st) && i in st.computing
    ensures CanFinish(g, st, i) && Core(g, Finish(g, st, i))
  {
    FinishedIsReference(g, st, i);
    FinishShared(g, st, i);
    forall x | 0 <= x < |st.insts| ensures InstAt(g, Finish(g, st, i), x) {
      FinishInst(g, st, i, x);
    }
  }

  lemma ReportInst(g: Filters, st: State, i: Id, x: Id)
    requires Core(g, st) && i in st.stored && x < |st.insts|
    ensures Linked(Report(st, i).insts) && InstAt(g, Report(st, i), x)
  {
    var s := Report(st, i);
    assert InstAt(g, st, x);
  }

  lemma ReportShared(g: Filters, st: State, i: Id)
    requires Shared(g, st) && i in st.stored
    ensures Shared(g, Report(st, i))
  {
  }

  lemma ReportKeepsCore(g: Filters, st: State, i: Id)
    requires Core(g, st) && i in st.stored
    ensures Core(g, Report(st, i))
  {
    ReportShared(g, st, i);
    forall x | 0 <= x < |st.insts| ensures InstAt(g, Report(st, i), x) {
      ReportInst(g, st, i, x);
    }
  }

  lemma FailInst(g: Filters, st: State, i: Id, x: Id)
    requires Core(g, st) && i in st.computing && x < |st.insts|
    ensures Linked(Fail(st, i).insts) && InstAt(g, Fail(st, i), x)
  {
    var s := Fail(st, i);
    assert InstAt(g, st, x) && InstAt(g, st, i);
    SameGraphFacts(g, st.insts, s.insts);
    if x != i {
      assert s.insts[x] == st.insts[x] && (Handed(s, x) <==> Handed(st, x));
    }
  }

  lemma FailShared(g: Filters, st: State, i: Id)
    requires Shared(g, st) && i in st.computing
    ensures Shared(g, Fail(st, i))
  {
    SameGraphFacts(g, st.insts, Fail(st, i).insts);
  }

  lemma FailKeepsCore(g: Filters, st: State, i: Id)
    requires Core(g, st) && i in st.computing
    ensures Core(g, Fail(st, i))
  {
    FailShared(g, st, i);
    forall x | 0 <= x < |st.insts| ensures InstAt(g, Fail(st, i), x) {
      FailInst(g, st, i, x);
    }
  }

  lemma GiveUpInst(g: Filters, st: State, i: Id, x: Id)
    requires Core(g, st) && i in st.computing && x < |st.insts|
    ensures Linked(GiveUp(st, i).insts) && InstAt(g, GiveUp(st, i), x)
  {
    var s := GiveUp(st, i);
    assert InstAt(g, st, x) && InstAt(g, st, i);
    SameGraphFacts(g, st.insts, s.insts);
    if x != i {
      assert s.insts[x] == st.insts[x] && (Handed(s, x) <==> Handed(st, x));
    }
  }

  lemma GiveUpShared(g: Filters, st: State, i: Id)
    requires Shared(g, st) && i in st.computing
    ensures Shared(g, GiveUp(st, i))
  {
    SameGraphFacts(g, st.insts, GiveUp(st, i).insts);
  }

  lemma GiveUpKeepsCore(g: Filters, st: State, i: Id)
    requires Core(g, st) && i in st.computing
    ensures Core(g, GiveUp(st, i))
  {
    GiveUpShared(g, st, i);
    forall x | 0 <= x < |st.insts| ensures InstAt(g, GiveUp(st, i), x) {
      GiveUpInst(g, st, i, x);
    }
  }

  lemma PushBackInst(g: Filters, st: State, i: Id, x: Id)
    requires Core(g, st) && i in st.reposting && x < |st.insts|
    ensures Linked(PushBack(st, i).insts) && InstAt(g, PushBack(st, i), x)
  {
    var s := PushBack(st, i);
    assert InstAt(g, st, x);
  }

  lemma PushBackShared(g: Filters, st: State, i: Id)
    requires Shared(g, st) && i in st.reposting
    ensures Shared(g, PushBack(st, i))
  {
  }

  lemma PushBackKeepsCore(g: Filters, st: State, i: Id)
    requires Core(g, st) && i in st.reposting
    ensures Core(g, PushBack(st, i))
  {
    PushBackShared(g, st, i);
    forall x | 0 <= x < |st.insts| ensures InstAt(g, PushBack(st, i), x) {
      PushBackInst(g, st, i, x);
    }
  }

  lemma EvictInst(g: Filters, st: State, i: Id, x: Id)
    requires Core(g, st) && CanEvict(st, i) && x < |st.insts|
    ensures Linked(Evict(st, i).insts) && InstAt(g, Evict(st, i), x)
  {
    var s := Evict(st, i);
    assert InstAt(g, st, x);
  }

  lemma EvictShared(g: Filters, st: State, i: Id)
    requires Shared(g, st) && CanEvict(st, i)
    ensures Shared(g, Evict(st, i))
  {
  }

  lemma EvictKeepsCore(g: Filters, st: State, i: Id)
    requires Core(g, st) && CanEvict(st, i)
    ensures Core(g, Evict(st, i))
  {
    EvictShared(g, st, i);
    forall x | 0 <= x < |st.insts| ensures InstAt(g, Evict(st, i), x) {
      EvictInst(g, st, i, x);
    }
  }

  lemma RequestKeepsCore(g: Filters, st: State, key: Key)
    requires Core(g, st)
    ensures Core(g, Request(st, key))
  {
    var s := Request(st, key);
    forall x | 0 <= x < |s.insts| ensures InstAt(g, s, x) {
      assert InstAt(g, st, x);
    }
  }
}
