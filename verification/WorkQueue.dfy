/** The workers' priority queue: many producers and many consumers, a lock around the heap, and a flag to sleep on.
    The lock makes each access to the heap one step. */
module WorkQueue {

  // Items are only compared by rank; the greatest goes first.
  type Item(==, !new)

  // A producer has put its item in the heap, or has cleared `sem`.
  datatype Push = Pushed | Cleared

  // A consumer is busy with an item, about to look at the heap, testing `sem`, about to wait, or blocked.
  datatype Consumer = Busy | Looking | TestSem | Waiting | Blocked

  // `pushed` and `popped` record all items so far.
  datatype State = State(heap: multiset<Item>, sem: bool, producers: map<nat, Push>, consumers: seq<Consumer>,
                         pushed: multiset<Item>, popped: multiset<Item>)

  datatype Step =
    | PushItem(p: nat, x: Item)
    | Clear(p: nat)
    | Notify(p: nat, woken: nat)
    | Ask(c: nat)
    | Pop(c: nat, x: Item)
    | FindEmpty(c: nat)
    | TestAndSet(c: nat)
    | Sleep(c: nat)
    | WakeUp(c: nat)

  function Initial(workers: nat): State {
    State(multiset{}, false, map[], seq(workers, c => Busy), multiset{}, multiset{})
  }

  predicate In(st: State, c: nat, at: Consumer) {
    c < |st.consumers| && st.consumers[c] == at
  }

  // A notification wakes some blocked consumer, if there is one.
  predicate Can(rank: Item -> int, st: State, s: Step) {
    match s
    case PushItem(p, _) => p !in st.producers
    case Clear(p) => p in st.producers && st.producers[p].Pushed?
    case Notify(p, w) => p in st.producers && st.producers[p].Cleared? && (Blocked in st.consumers ==> In(st, w, Blocked))
    case Ask(c) => In(st, c, Busy)
    case Pop(c, x) => In(st, c, Looking) && x in st.heap && IsTop(rank, st.heap, x)
    case FindEmpty(c) => In(st, c, Looking) && st.heap == multiset{}
    case TestAndSet(c) => In(st, c, TestSem)
    case Sleep(c) => In(st, c, Waiting)
    case WakeUp(c) => In(st, c, Blocked)
  }

  predicate IsTop(rank: Item -> int, heap: multiset<Item>, x: Item) {
    forall y <- heap :: rank(y) <= rank(x)
  }

  function Move(st: State, c: nat, to: Consumer): (r: State)
    requires c < |st.consumers|
    ensures |r.consumers| == |st.consumers|
  {
    st.(consumers := st.consumers[c := to])
  }

  function Do(rank: Item -> int, st: State, s: Step): State
    requires Can(rank, st, s)
  {
    match s
    case PushItem(p, x) =>
      st.(heap := st.heap + multiset{x}, pushed := st.pushed + multiset{x}, producers := st.producers[p := Pushed])
    case Clear(p) => st.(sem := false, producers := st.producers[p := Cleared])
    case Notify(p, w) =>
      var s := st.(producers := st.producers - {p});
      if Blocked in st.consumers then Move(s, w, Waiting) else s
    case Ask(c) => Move(st, c, Looking)
    case Pop(c, x) => Move(st, c, Busy).(heap := st.heap - multiset{x}, popped := st.popped + multiset{x})
    case FindEmpty(c) => Move(st, c, TestSem)
    case TestAndSet(c) => Move(st, c, if st.sem then Waiting else Looking).(sem := true)
    case Sleep(c) => Move(st, c, if st.sem then Blocked else TestSem)
    case WakeUp(c) => Move(st, c, Waiting)
  }

  ghost predicate SomePush(st: State, at: Push) {
    exists p {:trigger st.producers[p]} | p in st.producers :: st.producers[p] == at
  }

  // A consumer that will look at the heap before it goes to sleep.
  ghost predicate WillLook(st: State) {
    exists c {:trigger st.consumers[c]} | 0 <= c < |st.consumers| :: st.consumers[c].Busy? || st.consumers[c].Looking?
  }

  ghost predicate Awake(st: State) {
    exists c {:trigger st.consumers[c]} | 0 <= c < |st.consumers| :: !st.consumers[c].Blocked?
  }

  // Items in the heap are looked after: `sem` is or will be clear, or a consumer will look. While `sem` is clear, a
  // consumer is awake or will be woken.
  ghost predicate Inv(st: State) {
    && st.pushed == st.heap + st.popped
    && (st.heap != multiset{} ==> !st.sem || SomePush(st, Pushed) || WillLook(st))
    && (!st.sem && |st.consumers| > 0 ==> Awake(st) || SomePush(st, Cleared))
  }

  lemma InitialInv(workers: nat)
    ensures Inv(Initial(workers))
  {
    assert workers > 0 ==> Initial(workers).consumers[0].Busy?;
  }

  lemma KeptPush(a: State, b: State, p: nat, at: Push)
    requires forall q {:trigger a.producers[q]} | q in a.producers && q != p :: q in b.producers && b.producers[q] == a.producers[q]
    requires p in a.producers ==> a.producers[p] != at
    ensures SomePush(a, at) ==> SomePush(b, at)
  {
    if SomePush(a, at) {
      var q :| q in a.producers && a.producers[q] == at;
      assert b.producers[q] == at;
    }
  }

  lemma ProducerKeepsInv(rank: Item -> int, st: State, s: Step)
    requires Inv(st) && Can(rank, st, s) && (s.PushItem? || s.Clear? || s.Notify?)
    ensures Inv(Do(rank, st, s))
  {
    var next := Do(rank, st, s);
    match s {
      case PushItem(p, x) =>
        assert next.producers[p].Pushed?;
        KeptPush(st, next, p, Cleared);
      case Clear(p) =>
        assert next.producers[p].Cleared?;
      case Notify(p, w) =>
        KeptPush(st, next, p, Pushed);
        NotifyWakes(rank, st, p, w);
    }
  }

  lemma NotifyWakes(rank: Item -> int, st: State, p: nat, w: nat)
    requires Can(rank, st, Notify(p, w))
    ensures var next := Do(rank, st, Notify(p, w));
            (WillLook(st) ==> WillLook(next)) && (|st.consumers| > 0 ==> Awake(next))
  {
    var next := Do(rank, st, Notify(p, w));
    if WillLook(st) {
      var c :| 0 <= c < |st.consumers| && (st.consumers[c].Busy? || st.consumers[c].Looking?);
      assert next.consumers[c] == st.consumers[c];
    }
    if Blocked in st.consumers {
      assert next.consumers[w] == Waiting;
    } else if |st.consumers| > 0 {
      assert st.consumers[0] in st.consumers && next.consumers[0] == st.consumers[0];
    }
  }

  // A consumer that moves but does not stop looking, or moves while the heap is looked after without it.
  lemma MoveKeeps(st: State, c: nat, to: Consumer)
    requires c < |st.consumers|
    ensures to.Busy? || to.Looking? ==> WillLook(Move(st, c, to))
    ensures !(st.consumers[c].Busy? || st.consumers[c].Looking?) && WillLook(st) ==> WillLook(Move(st, c, to))
    ensures !to.Blocked? ==> Awake(Move(st, c, to))
  {
    assert Move(st, c, to).consumers[c] == to;
    if !(st.consumers[c].Busy? || st.consumers[c].Looking?) && WillLook(st) {
      var d :| 0 <= d < |st.consumers| && (st.consumers[d].Busy? || st.consumers[d].Looking?);
      assert Move(st, c, to).consumers[d] == st.consumers[d];
    }
  }

  lemma ConsumerKeepsInv(rank: Item -> int, st: State, s: Step)
    requires Inv(st) && Can(rank, st, s) && !(s.PushItem? || s.Clear? || s.Notify?)
    ensures Inv(Do(rank, st, s))
  {
    var next := Do(rank, st, s);
    MoveKeeps(st, s.c, next.consumers[s.c]);
    assert next.producers == st.producers;
    assert SomePush(next, Pushed) == SomePush(st, Pushed) && SomePush(next, Cleared) == SomePush(st, Cleared);
  }

  lemma StepKeepsInv(rank: Item -> int, st: State, s: Step)
    requires Inv(st) && Can(rank, st, s)
    ensures Inv(Do(rank, st, s))
  {
    if s.PushItem? || s.Clear? || s.Notify? { ProducerKeepsInv(rank, st, s); } else { ConsumerKeepsInv(rank, st, s); }
  }

  lemma SameWorkers(rank: Item -> int, st: State, s: Step)
    requires Can(rank, st, s)
    ensures |Do(rank, st, s).consumers| == |st.consumers|
  {
    match s
    case PushItem(_, _) =>
    case Clear(_) =>
    case Notify(_, _) =>
    case _ =>
  }

  // Runs

  ghost predicate IsRun(rank: Item -> int, workers: nat, states: seq<State>, steps: seq<Step>) {
    && |states| == |steps| + 1 && states[0] == Initial(workers)
    && forall i {:trigger steps[i]} | 0 <= i < |steps| :: Follows(rank, states[i], steps[i], states[i + 1])
  }

  ghost predicate Follows(rank: Item -> int, a: State, s: Step, b: State) {
    Can(rank, a, s) && b == Do(rank, a, s)
  }

  lemma {:induction false} RunKeepsInv(rank: Item -> int, workers: nat, states: seq<State>, steps: seq<Step>, n: nat)
    requires IsRun(rank, workers, states, steps) && n < |states|
    ensures Inv(states[n]) && |states[n].consumers| == workers
    decreases n
  {
    if n == 0 {
      InitialInv(workers);
    } else {
      RunKeepsInv(rank, workers, states, steps, n - 1);
      assert Follows(rank, states[n - 1], steps[n - 1], states[n]);
      StepKeepsInv(rank, states[n - 1], steps[n - 1]);
      SameWorkers(rank, states[n - 1], steps[n - 1]);
    }
  }

  // What a run has pushed and popped, read off its steps.
  function PushedBy(steps: seq<Step>): multiset<Item> {
    if steps == [] then multiset{}
    else
      var s := steps[|steps| - 1];
      PushedBy(steps[..|steps| - 1]) + (if s.PushItem? then multiset{s.x} else multiset{})
  }

  function PoppedBy(steps: seq<Step>): multiset<Item> {
    if steps == [] then multiset{}
    else
      var s := steps[|steps| - 1];
      PoppedBy(steps[..|steps| - 1]) + (if s.Pop? then multiset{s.x} else multiset{})
  }

  lemma {:induction false} RunRecords(rank: Item -> int, workers: nat, states: seq<State>, steps: seq<Step>, n: nat)
    requires IsRun(rank, workers, states, steps) && n < |states|
    ensures states[n].pushed == PushedBy(steps[..n]) && states[n].popped == PoppedBy(steps[..n])
    decreases n
  {
    if n > 0 {
      RunRecords(rank, workers, states, steps, n - 1);
      assert Follows(rank, states[n - 1], steps[n - 1], states[n]);
      assert steps[..n][..n - 1] == steps[..n - 1] && steps[..n][n - 1] == steps[n - 1];
    }
  }

  /** The best goes first: an item that is popped was pushed and not popped yet, and so was no item of a higher rank. */
  lemma PopsTheBest(rank: Item -> int, workers: nat, states: seq<State>, steps: seq<Step>, n: nat)
    requires IsRun(rank, workers, states, steps) && n < |steps| && steps[n].Pop?
    ensures PushedBy(steps[..n])[steps[n].x] > PoppedBy(steps[..n])[steps[n].x]
    ensures forall y :: PushedBy(steps[..n])[y] > PoppedBy(steps[..n])[y] ==> rank(y) <= rank(steps[n].x)
  {
    RunRecords(rank, workers, states, steps, n);
    RunKeepsInv(rank, workers, states, steps, n);
    assert Follows(rank, states[n], steps[n], states[n + 1]);
    forall y | PushedBy(steps[..n])[y] > PoppedBy(steps[..n])[y] ensures rank(y) <= rank(steps[n].x) {
      assert y in states[n].heap;
    }
  }

  lemma {:induction false} HasTop(rank: Item -> int, heap: multiset<Item>) returns (x: Item)
    requires heap != multiset{}
    ensures x in heap && IsTop(rank, heap, x)
    decreases |heap|
  {
    x :| x in heap;
    var rest := heap - multiset{x};
    assert forall z <- heap :: z == x || z in rest;
    if rest != multiset{} {
      var y := HasTop(rank, rest);
      if rank(y) > rank(x) { x := y; }
    }
  }

  /** A worker that looks at the heap can go on: it takes an item if there is one. */
  lemma LookingCanTake(rank: Item -> int, st: State, c: nat)
    requires In(st, c, Looking) && st.heap != multiset{}
    ensures exists x :: Can(rank, st, Pop(c, x))
  {
    var x := HasTop(rank, st.heap);
    assert Can(rank, st, Pop(c, x));
  }

  /** No item is stuck: when every worker is blocked and no producer is in the middle of a push, everything pushed was
      popped, each item as often as it was pushed. */
  lemma BlockedIsEmpty(rank: Item -> int, workers: nat, states: seq<State>, steps: seq<Step>, n: nat)
    requires IsRun(rank, workers, states, steps) && n < |states| && workers > 0
    requires forall c | 0 <= c < |states[n].consumers| :: states[n].consumers[c].Blocked?
    requires forall p :: p !in states[n].producers
    ensures states[n].heap == multiset{} && PoppedBy(steps[..n]) == PushedBy(steps[..n])
  {
    RunRecords(rank, workers, states, steps, n);
    RunKeepsInv(rank, workers, states, steps, n);
    var st := states[n];
    assert !WillLook(st) && !Awake(st);
    assert !SomePush(st, Pushed) && !SomePush(st, Cleared);
  }
}
