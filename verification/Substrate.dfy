/** The frame scheduler: a maintainer that owns the table of frame instances, workers that compute ready frames,
    and the steps they take. Instances are numbered in the order they are created and a number is never reused. */
module Substrate {
  import opened Options

  // Frames are only passed on and compared.
  type Frame(==, !new)

  type Id = nat

  // A frame of a substrate.
  datatype Key = Key(sub: nat, frame: nat)

  // What the filters say: the frames a frame depends on, two flags, and what processing computes. `rank` witnesses
  // that dependencies are acyclic.
  datatype Filters = Filters(deps: Key -> seq<Key>, makeLinear: nat -> bool, singleThreaded: nat -> bool,
                             process: (Key, seq<Frame>) -> Frame, rank: Key -> nat)

  ghost predicate Acyclic(g: Filters) {
    forall k, d | d in g.deps(k) :: g.rank(d) < g.rank(k)
  }

  /** The plain recursive evaluator of the filter graph. */
  function Reference(g: Filters, k: Key): Frame
    requires Acyclic(g)
    decreases g.rank(k)
  {
    var deps := g.deps(k);
    g.process(k, seq(|deps|, i requires 0 <= i < |deps| => assert deps[i] in deps; Reference(g, deps[i])))
  }

  // The callback of one request.
  datatype Callback = Callback(id: nat, key: Key)

  // `released` is set while a single-threaded frame is out of its neck, `failed` once processing has thrown, and
  // `drops` counts the times the frame data was dropped.
  datatype Inst = Inst(key: Key, inputs: seq<Id>, outputs: seq<Id>, callback: Option<Callback>, tick: nat,
                       product: Option<Frame>, taken: bool, single: bool, released: bool, failed: bool, drops: nat)

  datatype Task = Construct(key: Key, callback: Option<Callback>) | Notify(id: Id, failed: bool)

  // A callback run with a frame, or with an error when there is none.
  datatype Call = Call(callback: Callback, frame: Option<Frame>)

  // `busy` and `waiting` are the necks of all substrates; `computing`, `stored` and `reposting` hold the frames that
  // a worker has taken, has finished but not reported, and has given up but not pushed back.
  datatype State = State(insts: seq<Inst>, table: map<Key, Id>, alive: set<Id>,
                         busy: set<nat>, waiting: set<Id>, work: multiset<Id>,
                         computing: set<Id>, stored: set<Id>, reposting: multiset<Id>,
                         tasks: seq<Task>, log: seq<Call>, replaced: multiset<nat>, issued: nat, tick: nat)

  const Initial := State([], map[], {}, {}, {}, multiset{}, {}, {}, multiset{}, [], [], multiset{}, 0, 0)

  function SubOf(st: State, i: Id): nat
    requires i < |st.insts|
  {
    st.insts[i].key.sub
  }

  // Table entries and links stay inside the instances, inputs are older and outputs younger.
  ghost predicate Linked(insts: seq<Inst>) {
    forall i {:trigger insts[i]} | 0 <= i < |insts| ::
      (forall j <- insts[i].inputs :: j < i) && (forall o <- insts[i].outputs :: i < o < |insts|)
  }

  ghost predicate InRange(st: State) {
    && Linked(st.insts)
    && (forall k <- st.table :: st.table[k] < |st.insts|)
    && (forall i <- st.alive :: i < |st.insts|)
    && (forall i <- st.waiting :: i < |st.insts|)
  }

  predicate InputsReady(insts: seq<Inst>, i: Id)
    requires i < |insts| && forall j <- insts[i].inputs :: j < |insts|
  {
    forall j <- insts[i].inputs :: insts[j].product.Some?
  }

  // Single-threaded frames go to their neck, others to the workers.
  function PostWork(st: State, i: Id): State
    requires i < |st.insts|
  {
    if !st.insts[i].single then st.(work := st.work + multiset{i}) else st.(waiting := st.waiting + {i})
  }

  // Constructing a frame

  // Each input gets the new instance as an output, once for every time it is an input.
  function LinkInputs(insts: seq<Inst>, inputs: seq<Id>, n: Id): (r: seq<Inst>)
    requires forall j <- inputs :: j < |insts|
    ensures |r| == |insts|
    decreases |inputs|
  {
    if |inputs| == 0 then insts
    else
      var j := inputs[0];
      assert j in inputs;
      assert forall x | x in inputs[1..] :: x in inputs;
      LinkInputs(insts[j := insts[j].(outputs := insts[j].outputs + [n])], inputs[1..], n)
  }

  // The frame before, if the filter is made linear and the frame is in the table.
  function FalseInput(g: Filters, st: State, key: Key): seq<Id> {
    if g.makeLinear(key.sub) && key.frame > 0 && Key(key.sub, key.frame - 1) in st.table
    then [st.table[Key(key.sub, key.frame - 1)]] else []
  }

  function NewInst(g: Filters, st: State, key: Key, callback: Option<Callback>, inputs: seq<Id>): Inst {
    Inst(key, inputs, [], callback, st.tick, None, false, g.singleThreaded(key.sub), false, false, 0)
  }

  function AddInst(g: Filters, st: State, key: Key, callback: Option<Callback>, inputs: seq<Id>): State
    requires forall j <- inputs :: j < |st.insts|
  {
    var n := |st.insts|;
    st.(insts := LinkInputs(st.insts, inputs, n) + [NewInst(g, st, key, callback, inputs)],
        table := st.table[key := n], alive := st.alive + {n})
  }

  function Create(g: Filters, st: State, key: Key, callback: Option<Callback>, deps: seq<Id>): State
    requires (forall j <- deps :: j < |st.insts|) && (forall k <- st.table :: st.table[k] < |st.insts|)
  {
    var inputs := deps + FalseInput(g, st, key);
    var added := AddInst(g, st, key, callback, inputs);
    if InputsReady(added.insts, |st.insts|) then PostWork(added, |st.insts|) else added
  }

  function CallbackIds(c: Option<Callback>): multiset<nat> {
    if c.Some? then multiset{c.value.id} else multiset{}
  }

  // A request for a frame in the table: answered at once, or held by the instance in place of an earlier callback.
  function Attach(st: State, i: Id, callback: Option<Callback>): State
    requires i < |st.insts|
  {
    var inst := st.insts[i];
    if callback.None? then st
    else if inst.product.Some? then st.(log := st.log + [Call(callback.value, inst.product)])
    else st.(insts := st.insts[i := inst.(callback := callback)],
             replaced := st.replaced + CallbackIds(inst.callback))
  }

  ghost predicate TableInRange(st: State) {
    forall k <- st.table :: st.table[k] < |st.insts|
  }

  function ConstructFrame(g: Filters, st: State, key: Key, callback: Option<Callback>): (r: (State, Id))
    requires Acyclic(g) && TableInRange(st)
    ensures TableInRange(r.0) && r.1 < |r.0.insts| && |st.insts| <= |r.0.insts|
    decreases g.rank(key), 1, 0
  {
    if key in st.table then (Attach(st, st.table[key], callback), st.table[key])
    else
      var (s, inputs) := ConstructDeps(g, st, key, g.deps(key));
      (Create(g, s, key, callback, inputs), |s.insts|)
  }

  function ConstructDeps(g: Filters, st: State, parent: Key, deps: seq<Key>): (r: (State, seq<Id>))
    requires Acyclic(g) && TableInRange(st) && forall d <- deps :: g.rank(d) < g.rank(parent)
    ensures TableInRange(r.0) && |st.insts| <= |r.0.insts|
    ensures |r.1| == |deps| && forall j <- r.1 :: j < |r.0.insts|
    decreases g.rank(parent), 0, |deps|
  {
    if |deps| == 0 then (st, [])
    else
      var (s1, i) := ConstructFrame(g, st, deps[0], None);
      var (s2, rest) := ConstructDeps(g, s1, parent, deps[1..]);
      (s2, [i] + rest)
  }

  // A finished or failed frame

  // A live unfinished output whose inputs are all finished is sent on.
  function PostOutput(st: State, o: Id): (r: State)
    requires Linked(st.insts) && o < |st.insts|
    ensures r.insts == st.insts
  {
    if o in st.alive && st.insts[o].product.None? && InputsReady(st.insts, o) then PostWork(st, o) else st
  }

  function PostOutputs(st: State, outputs: seq<Id>): (r: State)
    requires Linked(st.insts) && forall o <- outputs :: o < |st.insts|
    ensures r.insts == st.insts
    decreases |outputs|
  {
    if |outputs| == 0 then st
    else
      assert outputs[0] in outputs;
      assert forall x | x in outputs[1..] :: x in outputs;
      PostOutputs(PostOutput(st, outputs[0]), outputs[1..])
  }

  // Killing changes neither the number of instances nor their links.
  ghost predicate SameLinks(a: seq<Inst>, b: seq<Inst>) {
    && |a| == |b|
    && forall i {:trigger a[i]} {:trigger b[i]} | 0 <= i < |a| :: a[i].inputs == b[i].inputs && a[i].outputs == b[i].outputs
  }

  // The frame data is dropped and a held callback gets the error.
  function KillOne(st: State, i: Id): State
    requires i < |st.insts|
  {
    var inst := st.insts[i];
    st.(insts := st.insts[i := inst.(callback := None, drops := inst.drops + 1)],
        log := if inst.callback.Some? then st.log + [Call(inst.callback.value, None)] else st.log)
  }

  function KillTree(st: State, i: Id): (r: State)
    requires Linked(st.insts) && i < |st.insts|
    ensures SameLinks(st.insts, r.insts)
    decreases |st.insts| - i, 1, 0
  {
    var s := KillOutputs(KillOne(st, i), i, st.insts[i].outputs);
    s.(alive := s.alive - {i})
  }

  function KillOutputs(st: State, i: Id, outputs: seq<Id>): (r: State)
    requires Linked(st.insts) && i < |st.insts| && forall o <- outputs :: i < o < |st.insts|
    ensures SameLinks(st.insts, r.insts)
    decreases |st.insts| - i, 0, |outputs|
  {
    if |outputs| == 0 then st
    else
      assert outputs[0] in outputs;
      var s := if outputs[0] in st.alive then KillTree(st, outputs[0]) else st;
      assert forall x | x in outputs[1..] :: x in outputs;
      KillOutputs(s, i, outputs[1..])
  }

  // Only the instances still alive stay in the table.
  function Sweep(st: State): State {
    st.(table := map k | k in st.table && st.table[k] in st.alive :: st.table[k])
  }

  // The neck of a single-threaded frame opens again.
  function OpenNeck(st: State, i: Id): State
    requires i < |st.insts|
  {
    if st.insts[i].single then
      st.(busy := st.busy - {SubOf(st, i)}, waiting := st.waiting - {i},
          insts := st.insts[i := st.insts[i].(single := false, released := false)])
    else st
  }

  function Answer(st: State, i: Id): State
    requires i < |st.insts|
  {
    var inst := st.insts[i];
    if inst.callback.None? then st
    else st.(insts := st.insts[i := inst.(callback := None)], log := st.log + [Call(inst.callback.value, inst.product)])
  }

  function HandleNotify(st: State, i: Id, failed: bool): State
    requires InRange(st)
  {
    if i !in st.alive then st
    else
      var s := OpenNeck(st, i);
      if failed then Sweep(KillTree(s, i)) else Answer(PostOutputs(s, s.insts[i].outputs), i)
  }

  // The necks

  predicate Before(st: State, i: Id, j: Id)
    requires i < |st.insts| && j < |st.insts|
  {
    st.insts[i].tick < st.insts[j].tick || (st.insts[i].tick == st.insts[j].tick && i <= j)
  }

  // The frames to release: in each neck that is not busy, the one of the smallest tick.
  function Chosen(st: State): set<Id> {
    set i | i in st.waiting && i < |st.insts| && SubOf(st, i) !in st.busy && IsEarliest(st, i)
  }

  predicate IsEarliest(st: State, i: Id)
    requires i < |st.insts|
  {
    forall j <- st.waiting :: j < |st.insts| && SubOf(st, j) == SubOf(st, i) ==> Before(st, i, j)
  }

  function ReleaseSet(st: State, chosen: set<Id>): State {
    st.(busy := st.busy + (set i | i in chosen && i < |st.insts| :: SubOf(st, i)),
        waiting := st.waiting - chosen,
        work := st.work + multiset(chosen),
        insts := seq(|st.insts|, i requires 0 <= i < |st.insts| =>
                   if i in chosen then st.insts[i].(released := true) else st.insts[i]))
  }

  function ReleaseAll(st: State): State {
    ReleaseSet(st, Chosen(st))
  }

  // The steps

  // One task off the queue.
  function HandleTask(g: Filters, st: State): State
    requires Acyclic(g) && |st.tasks| > 0 && InRange(st)
  {
    var s := st.(tasks := st.tasks[1..]);
    match st.tasks[0]
    case Construct(key, callback) => ConstructFrame(g, s, key, callback).0
    case Notify(i, failed) => HandleNotify(s, i, failed)
  }

  // The maintainer handles a task to the end and then releases from every open neck.
  function Maintain(g: Filters, st: State): State
    requires Acyclic(g) && |st.tasks| > 0 && InRange(st)
  {
    ReleaseAll(HandleTask(g, st))
  }

  predicate CanEvict(st: State, i: Id) {
    && i < |st.insts| && i in st.alive
    && st.insts[i].product.Some? && st.insts[i].callback.None? && !st.insts[i].single
    && forall o <- st.insts[i].outputs :: o in st.alive && o < |st.insts| ==> st.insts[o].product.Some?
  }

  function Evict(st: State, i: Id): State
    requires i < |st.insts|
  {
    st.(table := st.table - {st.insts[i].key}, alive := st.alive - {i})
  }

  // A client asks for a frame.
  function Request(st: State, key: Key): State {
    st.(tasks := st.tasks + [Construct(key, Some(Callback(st.issued, key)))], issued := st.issued + 1)
  }

  // A worker pops a frame and takes it, unless it was taken before.
  function Take(st: State, i: Id): State
    requires i < |st.insts|
  {
    var s := st.(work := st.work - multiset{i});
    if st.insts[i].taken then s
    else s.(insts := st.insts[i := st.insts[i].(taken := true)], computing := st.computing + {i})
  }

  // Every input a worker would read has its product, and there is one for each dependency.
  predicate CanFinish(g: Filters, st: State, i: Id) {
    && i < |st.insts| && |g.deps(st.insts[i].key)| <= |st.insts[i].inputs|
    && forall j <- st.insts[i].inputs :: j < |st.insts| && st.insts[j].product.Some?
  }

  // The products a worker passes to the filter: those of the dependencies, without a false input.
  function InputFrames(g: Filters, st: State, i: Id): seq<Frame>
    requires CanFinish(g, st, i)
  {
    var inst := st.insts[i];
    seq(|g.deps(inst.key)|, d requires 0 <= d < |g.deps(inst.key)| =>
      assert inst.inputs[d] in inst.inputs; st.insts[inst.inputs[d]].product.value)
  }

  // Processing succeeded: the frame data is dropped and the product stored.
  function Finish(g: Filters, st: State, i: Id): State
    requires CanFinish(g, st, i)
  {
    var inst := st.insts[i];
    var frame := g.process(inst.key, InputFrames(g, st, i));
    st.(insts := st.insts[i := inst.(product := Some(frame), drops := inst.drops + 1)],
        computing := st.computing - {i}, stored := st.stored + {i})
  }

  // The worker reports a stored product.
  function Report(st: State, i: Id): State {
    st.(stored := st.stored - {i}, tasks := st.tasks + [Notify(i, false)])
  }

  // Processing threw.
  function Fail(st: State, i: Id): State
    requires i < |st.insts|
  {
    st.(insts := st.insts[i := st.insts[i].(failed := true)], computing := st.computing - {i},
        tasks := st.tasks + [Notify(i, true)])
  }

  // The filter's lock was not free: the frame is given up, and later pushed back.
  function GiveUp(st: State, i: Id): State
    requires i < |st.insts|
  {
    st.(insts := st.insts[i := st.insts[i].(taken := false)], computing := st.computing - {i},
        reposting := st.reposting + multiset{i})
  }

  function PushBack(st: State, i: Id): State {
    st.(reposting := st.reposting - multiset{i}, work := st.work + multiset{i})
  }
}
