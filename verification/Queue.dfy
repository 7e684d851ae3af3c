/** The many-producer single-consumer queue as steps on shared memory, each atomic, in any interleaving. */
module Queue {
  import opened Options

  // Values are only passed on and compared.
  type Item(==, !new)

  // Nodes are numbered as they are made, and a number is not used again.
  type Id = nat

  // Where a producer is in a push: it has swung `head` to its node, has linked the node, or has cleared `sem`. A quiet
  // push does not wake the consumer.
  datatype Push = Swung(node: Id, prev: Id, loud: bool) | Linked | Cleared

  // Where the consumer is in a pop: reading the link, comparing with `head`, testing `sem`, about to wait, or blocked.
  datatype Consumer = Away | Reload(wait: bool) | CheckHead(wait: bool) | TestSem | Waiting | Blocked

  // `live` holds the nodes not freed, `link` their links, and `value` their values; a stop request has none.
  datatype Memory = Memory(made: nat, live: set<Id>, link: map<Id, Id>, value: map<Id, Option<Item>>,
                           head: Id, tail: Id, sem: bool, producers: map<nat, Push>, consumer: Consumer)

  // What happened: the nodes and values in the order of the swings, the place of each node in it, who swung it, which
  // pushes were loud, and the values popped.
  datatype History = History(order: seq<Id>, place: map<Id, nat>, swinger: map<Id, nat>,
                             swung: seq<Option<Item>>, loud: seq<bool>, received: seq<Option<Item>>)

  datatype State = State(m: Memory, h: History)

  const Initial := State(Memory(1, {0}, map[], map[0 := None], 0, 0, false, map[], Away),
                         History([0], map[0 := 0], map[], [], [], []))

  datatype Step =
    | Swing(p: nat, item: Option<Item>, loudly: bool)
    | Link(p: nat)
    | Clear(p: nat)
    | Notify(p: nat)
    | StartPop(wait: bool)
    | LoadNext
    | CompareHead
    | TestAndSet
    | Sleep
    | WakeUp

  // What a producer does

  function DoSwing(st: State, p: nat, item: Option<Item>, loudly: bool): State {
    var m, h, n := st.m, st.h, st.m.made;
    State(m.(made := n + 1, live := m.live + {n}, value := m.value[n := item], head := n,
             producers := m.producers[p := Swung(n, m.head, loudly)]),
          h.(order := h.order + [n], place := h.place[n := |h.order|], swinger := h.swinger[n := p],
             swung := h.swung + [item], loud := h.loud + [loudly]))
  }

  // The link is written into the node before, which must not have been freed.
  function DoLink(st: State, p: nat): State
    requires p in st.m.producers && st.m.producers[p].Swung? && st.m.producers[p].prev in st.m.live
  {
    var m, push := st.m, st.m.producers[p];
    st.(m := m.(link := m.link[push.prev := push.node],
                producers := if push.loud then m.producers[p := Linked] else m.producers - {p}))
  }

  function DoClear(st: State, p: nat): State {
    st.(m := st.m.(sem := false, producers := st.m.producers[p := Cleared]))
  }

  function DoNotify(st: State, p: nat): State {
    st.(m := st.m.(producers := st.m.producers - {p},
                   consumer := if st.m.consumer.Blocked? then Waiting else st.m.consumer))
  }

  // What the consumer does

  // A linked node is taken: the tail moves to it, the old tail is freed and its value goes to the caller.
  function DoLoadNext(st: State): State
    requires st.m.consumer.Reload? && st.m.tail in st.m.live
    requires st.m.tail in st.m.link ==> st.m.link[st.m.tail] in st.m.live && st.m.link[st.m.tail] in st.m.value
  {
    var m, t := st.m, st.m.tail;
    if t !in m.link then st.(m := m.(consumer := CheckHead(m.consumer.wait)))
    else
      var n := m.link[t];
      State(m.(live := m.live - {t}, value := m.value[n := None], tail := n, consumer := Away),
            st.h.(received := st.h.received + [m.value[n]]))
  }

  function DoCompareHead(st: State): State
    requires st.m.consumer.CheckHead?
  {
    var wait := st.m.consumer.wait;
    st.(m := st.m.(consumer := if st.m.head != st.m.tail then Reload(wait) else if wait then TestSem else Away))
  }

  function DoTestAndSet(st: State): State {
    st.(m := st.m.(sem := true, consumer := if st.m.sem then Waiting else Reload(true)))
  }

  function DoSleep(st: State): State {
    st.(m := st.m.(consumer := if st.m.sem then Blocked else TestSem))
  }

  predicate Can(st: State, s: Step) {
    var m := st.m;
    match s
    case Swing(p, _, _) => p !in m.producers
    case Link(p) => p in m.producers && m.producers[p].Swung?
    case Clear(p) => p in m.producers && m.producers[p].Linked?
    case Notify(p) => p in m.producers && m.producers[p].Cleared?
    case StartPop(_) => m.consumer.Away?
    case LoadNext => m.consumer.Reload?
    case CompareHead => m.consumer.CheckHead?
    case TestAndSet => m.consumer.TestSem?
    case Sleep => m.consumer.Waiting?
    case WakeUp => m.consumer.Blocked?
  }

  // Every node the step reads or writes is there and not freed.
  predicate Accessible(st: State, s: Step) {
    var m := st.m;
    match s
    case Link(p) => p in m.producers && m.producers[p].Swung? ==> m.producers[p].prev in m.live
    case LoadNext => m.tail in m.live && (m.tail in m.link ==> m.link[m.tail] in m.live && m.link[m.tail] in m.value)
    case _ => true
  }

  function Do(st: State, s: Step): State
    requires Can(st, s) && Accessible(st, s)
  {
    match s
    case Swing(p, item, loudly) => DoSwing(st, p, item, loudly)
    case Link(p) => DoLink(st, p)
    case Clear(p) => DoClear(st, p)
    case Notify(p) => DoNotify(st, p)
    case StartPop(wait) => st.(m := st.m.(consumer := Reload(wait)))
    case LoadNext => DoLoadNext(st)
    case CompareHead => DoCompareHead(st)
    case TestAndSet => DoTestAndSet(st)
    case Sleep => DoSleep(st)
    case WakeUp => st.(m := st.m.(consumer := Waiting))
  }

  // The invariant

  // What was received is what was swung first. The nodes in the order of the swings are each in its place, and none of
  // them was made later.
  ghost predicate Ordered(h: History, made: nat) {
    && |h.order| == |h.swung| + 1 && |h.loud| == |h.swung| && |h.received| <= |h.swung|
    && (forall i {:trigger h.received[i]} {:trigger h.swung[i]} | 0 <= i < |h.received| :: h.received[i] == h.swung[i])
    && (forall i {:trigger h.order[i]} | 0 <= i < |h.order| :: h.order[i] in h.place && h.place[h.order[i]] == i)
    && (forall n <- h.place :: n < made && h.place[n] < |h.order| && h.order[h.place[n]] == n)
  }

  // The nodes from the tail on are live and no others, and what was not received is in its node.
  ghost predicate Stored(st: State)
    requires Ordered(st.h, st.m.made)
  {
    var m, h := st.m, st.h;
    && m.head == h.order[|h.swung|] && m.tail == h.order[|h.received|]
    && (forall n <- m.link :: n in h.place)
    && (forall n :: n in m.live <==> n in h.place && |h.received| <= h.place[n])
    && (forall n <- m.live :: |h.received| < h.place[n] ==> n in m.value && m.value[n] == h.swung[h.place[n] - 1])
  }

  // A live node but the head is linked to the next, or the producer that swung the next one is about to link it.
  ghost predicate LinkedAt(st: State, n: Id)
    requires Ordered(st.h, st.m.made) && n in st.h.place
  {
    var m, h := st.m, st.h;
    var i := h.place[n];
    if n in m.link then i < |h.swung| && m.link[n] == h.order[i + 1]
    else i < |h.swung| ==> Pushing(st, h.order[i + 1])
  }

  ghost predicate Pushing(st: State, n: Id) {
    && n in st.h.swinger && st.h.swinger[n] in st.m.producers
    && st.m.producers[st.h.swinger[n]].Swung? && st.m.producers[st.h.swinger[n]].node == n
  }

  // A producer that has swung is between a live node not linked yet and its own.
  ghost predicate PushAt(st: State, p: nat)
    requires Ordered(st.h, st.m.made) && p in st.m.producers
  {
    var m, h, push := st.m, st.h, st.m.producers[p];
    push.Swung? ==>
      && push.node in m.live && push.node in h.place && push.node in h.swinger && h.swinger[push.node] == p
      && push.prev in m.live && push.prev in h.place && push.prev !in m.link && h.place[push.node] > 0
      && h.place[push.prev] == h.place[push.node] - 1 && push.loud == h.loud[h.place[push.node] - 1]
  }

  ghost predicate Chained(st: State)
    requires Ordered(st.h, st.m.made) && Stored(st)
  {
    && (forall n <- st.m.live :: LinkedAt(st, n))
    && (forall p <- st.m.producers :: PushAt(st, p))
  }

  // A loud push has left a value that was not received.
  ghost predicate LoudLeft(h: History) {
    exists i {:trigger h.loud[i]} | |h.received| <= i < |h.loud| :: h.loud[i]
  }

  // A loud push has not cleared `sem` yet, or has not notified.
  ghost predicate WillClear(m: Memory) {
    exists p {:trigger m.producers[p]} | p in m.producers ::
      (m.producers[p].Swung? && m.producers[p].loud) || m.producers[p].Linked?
  }

  ghost predicate WillNotify(m: Memory) {
    exists p {:trigger m.producers[p]} | p in m.producers :: m.producers[p].Cleared?
  }

  // The consumer misses nothing: while it is going to sleep, a loud value left means that `sem` is or will be clear;
  // and while it is blocked with `sem` clear, a notification is on its way.
  ghost predicate Wakes(st: State) {
    && ((st.m.consumer.TestSem? || st.m.consumer.Waiting? || st.m.consumer.Blocked?) && LoudLeft(st.h) ==>
          !st.m.sem || WillClear(st.m))
    && (st.m.consumer.Blocked? && !st.m.sem ==> WillNotify(st.m))
  }

  ghost predicate Inv(st: State) {
    Ordered(st.h, st.m.made) && Stored(st) && Chained(st) && Wakes(st)
  }

  lemma InitialInv()
    ensures Inv(Initial)
  {
  }

  // Steps that leave the nodes and the producers about to link alone

  ghost predicate SameChain(a: State, b: State) {
    && b.h == a.h
    && b.m == a.m.(sem := b.m.sem, producers := b.m.producers, consumer := b.m.consumer)
    && (forall p {:trigger p in a.m.producers} {:trigger p in b.m.producers} ::
          (p in b.m.producers && b.m.producers[p].Swung?) == (p in a.m.producers && a.m.producers[p].Swung?) &&
          (p in a.m.producers && a.m.producers[p].Swung? && p in b.m.producers ==> b.m.producers[p] == a.m.producers[p]))
  }

  lemma SameLinkedAt(a: State, b: State, n: Id)
    requires Ordered(a.h, a.m.made) && SameChain(a, b) && n in a.h.place && LinkedAt(a, n)
    ensures LinkedAt(b, n)
  {
  }

  lemma SamePushAt(a: State, b: State, p: nat)
    requires Ordered(a.h, a.m.made) && SameChain(a, b) && p in b.m.producers
    requires p in a.m.producers ==> PushAt(a, p)
    ensures PushAt(b, p)
  {
  }

  lemma SameStored(a: State, b: State)
    requires Ordered(a.h, a.m.made) && Stored(a) && SameChain(a, b)
    ensures Stored(b)
  {
  }

  lemma SameChainKeeps(a: State, b: State)
    requires Ordered(a.h, a.m.made) && Stored(a) && Chained(a) && SameChain(a, b)
    ensures Stored(b) && Chained(b)
  {
    SameStored(a, b);
    forall n | n in b.m.live ensures LinkedAt(b, n) {
      assert LinkedAt(a, n);
      SameLinkedAt(a, b, n);
    }
    forall p | p in b.m.producers ensures PushAt(b, p) {
      if p in a.m.producers { assert PushAt(a, p); }
      SamePushAt(a, b, p);
    }
  }

  // A producer swings the head

  lemma SwingStored(st: State, p: nat, item: Option<Item>, loudly: bool)
    requires Ordered(st.h, st.m.made) && Stored(st) && p !in st.m.producers
    ensures var s := DoSwing(st, p, item, loudly); Ordered(s.h, s.m.made) && Stored(s)
  {
  }

  lemma SwingLinkedAt(st: State, p: nat, item: Option<Item>, loudly: bool, n: Id)
    requires Ordered(st.h, st.m.made) && st.m.head == st.h.order[|st.h.swung|] && p !in st.m.producers
    requires n in st.h.place && LinkedAt(st, n)
    ensures var s := DoSwing(st, p, item, loudly); Ordered(s.h, s.m.made) && n in s.h.place && LinkedAt(s, n)
  {
  }

  lemma SwingPushAt(st: State, p: nat, item: Option<Item>, loudly: bool, q: nat)
    requires Ordered(st.h, st.m.made) && p !in st.m.producers && q in st.m.producers && PushAt(st, q)
    ensures var s := DoSwing(st, p, item, loudly); Ordered(s.h, s.m.made) && q in s.m.producers && PushAt(s, q)
  {
  }

  lemma SwingChained(st: State, p: nat, item: Option<Item>, loudly: bool)
    requires Ordered(st.h, st.m.made) && Stored(st) && Chained(st) && p !in st.m.producers
    ensures var s := DoSwing(st, p, item, loudly); Ordered(s.h, s.m.made) && Stored(s) && Chained(s)
  {
    var s := DoSwing(st, p, item, loudly);
    SwingStored(st, p, item, loudly);
    assert LinkedAt(st, st.m.head);
    forall n | n in s.m.live ensures LinkedAt(s, n) {
      if n != st.m.made {
        assert n in st.m.live && LinkedAt(st, n);
        SwingLinkedAt(st, p, item, loudly, n);
      } else {
        assert n !in st.m.link;
      }
    }
    forall q | q in s.m.producers ensures PushAt(s, q) {
      if q != p { SwingPushAt(st, p, item, loudly, q); }
    }
  }

  // A producer links its node

  lemma LinkLinkedAt(st: State, p: nat, n: Id)
    requires Ordered(st.h, st.m.made) && Can(st, Link(p)) && Accessible(st, Link(p)) && PushAt(st, p)
    requires n in st.h.place && LinkedAt(st, n)
    ensures LinkedAt(DoLink(st, p), n)
  {
    var push := st.m.producers[p];
    assert st.h.order[st.h.place[push.node]] == push.node && st.h.order[st.h.place[push.prev]] == push.prev;
  }

  lemma LinkPushAt(st: State, p: nat, q: nat)
    requires Ordered(st.h, st.m.made) && Can(st, Link(p)) && Accessible(st, Link(p)) && PushAt(st, p)
    requires q in st.m.producers && q != p && PushAt(st, q)
    ensures PushAt(DoLink(st, p), q)
  {
    var a, b := st.m.producers[p], st.m.producers[q];
    assert b.Swung? ==> st.h.order[st.h.place[a.node]] == a.node && st.h.order[st.h.place[b.node]] == b.node;
  }

  lemma LinkStored(st: State, p: nat)
    requires Ordered(st.h, st.m.made) && Stored(st) && Chained(st) && Can(st, Link(p))
    ensures Accessible(st, Link(p)) && Stored(DoLink(st, p))
  {
    assert PushAt(st, p);
  }

  lemma LinkChained(st: State, p: nat)
    requires Ordered(st.h, st.m.made) && Stored(st) && Chained(st) && Can(st, Link(p))
    ensures Accessible(st, Link(p)) && Stored(DoLink(st, p)) && Chained(DoLink(st, p))
  {
    LinkStored(st, p);
    assert PushAt(st, p);
    var s := DoLink(st, p);
    forall n | n in s.m.live ensures LinkedAt(s, n) {
      LinkLinkedAt(st, p, n);
    }
    forall q | q in s.m.producers ensures PushAt(s, q) {
      if q != p { LinkPushAt(st, p, q); }
    }
  }

  // The consumer takes a node

  lemma LoadIsAccessible(st: State)
    requires Ordered(st.h, st.m.made) && Stored(st) && Chained(st)
    ensures Accessible(st, LoadNext)
    ensures st.m.tail in st.m.link ==> |st.h.received| < |st.h.swung| && st.m.link[st.m.tail] == st.h.order[|st.h.received| + 1]
  {
    assert LinkedAt(st, st.m.tail);
  }

  // There is a linked node to take.
  predicate Takes(st: State) {
    && st.m.consumer.Reload? && st.m.tail in st.m.link && Accessible(st, LoadNext)
    && |st.h.received| < |st.h.swung| && |st.h.swung| < |st.h.order|
    && st.m.link[st.m.tail] == st.h.order[|st.h.received| + 1]
  }

  lemma LoadStored(st: State)
    requires Ordered(st.h, st.m.made) && Stored(st) && Takes(st)
    ensures var s := DoLoadNext(st);
            Ordered(s.h, s.m.made) && Stored(s) && s.h.received == st.h.received + [st.h.swung[|st.h.received|]]
  {
    var s := DoLoadNext(st);
    forall n ensures n in s.m.live <==> n in s.h.place && |s.h.received| <= s.h.place[n] {
      assert n in st.m.live <==> n in st.h.place && |st.h.received| <= st.h.place[n];
    }
  }

  lemma LoadPushAt(st: State, q: nat)
    requires Ordered(st.h, st.m.made) && Stored(st) && Takes(st) && q in st.m.producers && PushAt(st, q)
    ensures PushAt(DoLoadNext(st), q)
  {
  }

  lemma LoadLinkedAt(st: State, n: Id)
    requires Ordered(st.h, st.m.made) && Takes(st) && n in st.h.place && LinkedAt(st, n)
    requires Ordered(DoLoadNext(st).h, DoLoadNext(st).m.made)
    ensures LinkedAt(DoLoadNext(st), n)
  {
  }

  lemma LoadChained(st: State)
    requires Ordered(st.h, st.m.made) && Stored(st) && Chained(st) && st.m.consumer.Reload?
    ensures Accessible(st, LoadNext)
    ensures var s := DoLoadNext(st); Ordered(s.h, s.m.made) && Stored(s) && Chained(s)
  {
    LoadIsAccessible(st);
    var s := DoLoadNext(st);
    if st.m.tail in st.m.link {
      LoadStored(st);
      forall n | n in s.m.live ensures LinkedAt(s, n) {
        LoadLinkedAt(st, n);
      }
      forall q | q in s.m.producers ensures PushAt(s, q) {
        LoadPushAt(st, q);
      }
    } else {
      SameChainKeeps(st, s);
    }
  }

  // Waking

  lemma NothingLeft(h: History)
    requires |h.received| == |h.swung| == |h.loud|
    ensures !LoudLeft(h)
  {
  }

  lemma SwingWakes(st: State, p: nat, item: Option<Item>, loudly: bool)
    requires Inv(st) && p !in st.m.producers
    ensures Wakes(DoSwing(st, p, item, loudly))
  {
    var s := DoSwing(st, p, item, loudly);
    if LoudLeft(s.h) && !loudly {
      var i :| |s.h.received| <= i < |s.h.loud| && s.h.loud[i];
      assert st.h.loud[i];
    }
    assert s.m.producers[p].Swung?;
    if WillClear(st.m) {
      var q :| q in st.m.producers && ((st.m.producers[q].Swung? && st.m.producers[q].loud) || st.m.producers[q].Linked?);
      assert s.m.producers[q] == st.m.producers[q];
    }
    if WillNotify(st.m) {
      var q :| q in st.m.producers && st.m.producers[q].Cleared?;
      assert s.m.producers[q] == st.m.producers[q];
    }
  }

  lemma LinkWakes(st: State, p: nat)
    requires Wakes(st) && Can(st, Link(p)) && Accessible(st, Link(p))
    ensures Wakes(DoLink(st, p))
  {
    var s := DoLink(st, p);
    if WillClear(st.m) { LinkStillClears(st, p); }
    if WillNotify(st.m) {
      var q :| q in st.m.producers && st.m.producers[q].Cleared?;
      assert s.m.producers[q] == st.m.producers[q];
    }
  }

  lemma LinkStillClears(st: State, p: nat)
    requires Can(st, Link(p)) && Accessible(st, Link(p)) && WillClear(st.m)
    ensures WillClear(DoLink(st, p).m)
  {
    var q :| q in st.m.producers && ((st.m.producers[q].Swung? && st.m.producers[q].loud) || st.m.producers[q].Linked?);
    var m := DoLink(st, p).m;
    assert q in m.producers;
    assert m.producers[q].Linked? || (q != p && m.producers[q] == st.m.producers[q]);
  }

  lemma ClearWakes(st: State, p: nat)
    requires Inv(st) && Can(st, Clear(p))
    ensures Wakes(DoClear(st, p))
  {
    assert DoClear(st, p).m.producers[p].Cleared?;
  }

  lemma NotifyWakes(st: State, p: nat)
    requires Inv(st) && Can(st, Notify(p))
    ensures Wakes(DoNotify(st, p))
  {
    var s := DoNotify(st, p);
    if WillClear(st.m) {
      var q :| q in st.m.producers && ((st.m.producers[q].Swung? && st.m.producers[q].loud) || st.m.producers[q].Linked?);
      assert s.m.producers[q] == st.m.producers[q];
    }
  }

  /** Every step a thread can take finds the nodes it touches and keeps the invariant. */
  lemma StepKeepsInv(st: State, s: Step)
    requires Inv(st) && Can(st, s)
    ensures Accessible(st, s) && Inv(Do(st, s))
  {
    match s {
      case Swing(p, item, loudly) =>
        SwingChained(st, p, item, loudly);
        SwingWakes(st, p, item, loudly);
      case Link(p) =>
        LinkChained(st, p);
        LinkWakes(st, p);
      case Clear(p) =>
        SameChainKeeps(st, DoClear(st, p));
        ClearWakes(st, p);
      case Notify(p) =>
        SameChainKeeps(st, DoNotify(st, p));
        NotifyWakes(st, p);
      case LoadNext =>
        LoadChained(st);
      case CompareHead =>
        CompareKeeps(st);
      case _ =>
        SameChainKeeps(st, Do(st, s));
    }
  }

  lemma CompareKeeps(st: State)
    requires Inv(st) && Can(st, CompareHead)
    ensures Inv(DoCompareHead(st))
  {
    SameChainKeeps(st, DoCompareHead(st));
    if st.m.head == st.m.tail {
      EmptyWhenEqual(st);
      NothingLeft(st.h);
    }
  }

  // The head is the tail only when all was received.
  lemma EmptyWhenEqual(st: State)
    requires Ordered(st.h, st.m.made) && Stored(st) && st.m.head == st.m.tail
    ensures |st.h.received| == |st.h.swung|
  {
    assert st.h.place[st.h.order[|st.h.swung|]] == |st.h.swung|;
    assert st.h.place[st.h.order[|st.h.received|]] == |st.h.received|;
  }

  // Runs

  // Each step is one some thread could take, and does what it does if it finds the nodes it touches.
  ghost predicate IsRun(states: seq<State>, steps: seq<Step>) {
    && |states| == |steps| + 1 && states[0] == Initial
    && forall i {:trigger steps[i]} | 0 <= i < |steps| :: Follows(states[i], steps[i], states[i + 1])
  }

  ghost predicate Follows(a: State, s: Step, b: State) {
    Can(a, s) && (Accessible(a, s) ==> b == Do(a, s))
  }

  lemma {:induction false} RunKeepsInv(states: seq<State>, steps: seq<Step>, n: nat)
    requires IsRun(states, steps) && n < |states|
    ensures Inv(states[n])
    decreases n
  {
    if n == 0 {
      InitialInv();
    } else {
      RunKeepsInv(states, steps, n - 1);
      assert Follows(states[n - 1], steps[n - 1], states[n]);
      StepKeepsInv(states[n - 1], steps[n - 1]);
    }
  }

  /** Whatever the interleaving, the values come out in the order `head` was swung, none twice and none left out. */
  lemma ReceivedInOrder(states: seq<State>, steps: seq<Step>, n: nat)
    requires IsRun(states, steps) && n < |states|
    ensures states[n].h.received <= states[n].h.swung
  {
    RunKeepsInv(states, steps, n);
  }

  /** A value not received yet is still in its node, and the node is live. */
  lemma NothingIsLost(states: seq<State>, steps: seq<Step>, n: nat, i: nat)
    requires IsRun(states, steps) && n < |states|
    requires |states[n].h.received| <= i < |states[n].h.swung|
    ensures var st := states[n];
            && i + 1 < |st.h.order| && st.h.order[i + 1] in st.m.live && st.h.order[i + 1] in st.m.value
            && st.m.value[st.h.order[i + 1]] == st.h.swung[i]
  {
    RunKeepsInv(states, steps, n);
    var node := states[n].h.order[i + 1];
    assert states[n].h.place[node] == i + 1;
  }

  // The values of the pushes a run has begun, in their order.
  function SwungBy(steps: seq<Step>): seq<Option<Item>> {
    if steps == [] then []
    else
      var s := steps[|steps| - 1];
      SwungBy(steps[..|steps| - 1]) + (if s.Swing? then [s.item] else [])
  }

  lemma {:induction false} RunRecords(states: seq<State>, steps: seq<Step>, n: nat)
    requires IsRun(states, steps) && n < |states|
    ensures states[n].h.swung == SwungBy(steps[..n])
    decreases n
  {
    if n > 0 {
      RunRecords(states, steps, n - 1);
      RunKeepsInv(states, steps, n - 1);
      assert Follows(states[n - 1], steps[n - 1], states[n]);
      StepKeepsInv(states[n - 1], steps[n - 1]);
      assert steps[..n][..n - 1] == steps[..n - 1] && steps[..n][n - 1] == steps[n - 1];
    }
  }

  /** What has come out is the beginning of what was pushed. */
  lemma ReceivedIsPushed(states: seq<State>, steps: seq<Step>, n: nat)
    requires IsRun(states, steps) && n < |states|
    ensures states[n].h.received <= SwungBy(steps[..n])
  {
    RunRecords(states, steps, n);
    ReceivedInOrder(states, steps, n);
  }

  /** Looking for the next value takes it exactly when there is one and the producer that pushed it has linked it. */
  lemma LoadTakesNext(states: seq<State>, steps: seq<Step>, n: nat)
    requires IsRun(states, steps) && n < |steps| && steps[n] == LoadNext
    ensures var h, r := states[n].h, |states[n].h.received|;
            && |h.order| == |h.swung| + 1
            && states[n + 1].h.received ==
               if r < |h.swung| && !Pushing(states[n], h.order[r + 1]) then h.swung[..r + 1] else h.received
  {
    var st := states[n];
    RunKeepsInv(states, steps, n);
    assert Follows(st, steps[n], states[n + 1]);
    LoadIsAccessible(st);
    var r := |st.h.received|;
    assert st.h.place[st.m.tail] == r && LinkedAt(st, st.m.tail);
    if r < |st.h.swung| && Pushing(st, st.h.order[r + 1]) {
      assert PushAt(st, st.h.swinger[st.h.order[r + 1]]);
    }
    ReceivedInOrder(states, steps, n + 1);
    ReceivedInOrder(states, steps, n);
  }

  /** No step touches a node that was freed. */
  lemma NoFreedAccess(states: seq<State>, steps: seq<Step>, n: nat)
    requires IsRun(states, steps) && n < |steps|
    ensures Accessible(states[n], steps[n])
  {
    RunKeepsInv(states, steps, n);
    assert Follows(states[n], steps[n], states[n + 1]);
    StepKeepsInv(states[n], steps[n]);
  }

  /** No wake-up is lost: when the consumer is blocked and no producer is in the middle of a push, every value of a loud
      push was received. */
  lemma BlockedIsEmpty(states: seq<State>, steps: seq<Step>, n: nat)
    requires IsRun(states, steps) && n < |states| && states[n].m.consumer.Blocked?
    requires forall p :: p !in states[n].m.producers
    ensures var h := states[n].h;
            && |h.loud| == |h.swung|
            && (forall i | |h.received| <= i < |h.loud| :: !h.loud[i])
            && ((forall i | 0 <= i < |h.loud| :: h.loud[i]) ==> h.received == h.swung)
  {
    RunKeepsInv(states, steps, n);
    var st := states[n];
    assert !WillNotify(st.m) && !WillClear(st.m);
    assert !LoudLeft(st.h);
    forall i | |st.h.received| <= i < |st.h.loud| ensures !st.h.loud[i] {
    }
    if |st.h.received| < |st.h.loud| {
      assert !st.h.loud[|st.h.received|];
    } else {
      assert st.h.received == st.h.swung;
    }
  }

  /** A pop that does not wait gives up only when every value swung was received. */
  lemma EmptyMeansEmpty(states: seq<State>, steps: seq<Step>, n: nat)
    requires IsRun(states, steps) && n < |steps| && steps[n] == CompareHead && states[n + 1].m.consumer.Away?
    ensures states[n].h.received == states[n].h.swung
  {
    RunKeepsInv(states, steps, n);
    assert Follows(states[n], steps[n], states[n + 1]);
    EmptyWhenEqual(states[n]);
  }
}
