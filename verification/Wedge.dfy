/** The counter lock, and the workers that use it to run their first call into a filter alone. Each step is one atomic
    access to the counter. */
module Wedge {

  const HIGHEST := 0x8000_0000
  const LIMIT := 0x1_0000_0000

  // The counter is a 32-bit word.
  newtype Word = w: int | 0 <= w < LIMIT

  function Increment(w: Word): Word {
    if w as int == LIMIT - 1 then 0 else w + 1
  }

  function Decrement(w: Word): Word {
    if w == 0 then (LIMIT - 1) as Word else w - 1
  }

  predicate HasHighest(w: Word) {
    w as int >= HIGHEST
  }

  function WithoutHighest(w: Word): Word {
    if HasHighest(w) then (w as int - HIGHEST) as Word else w
  }

  // What a worker is doing with the lock, and for which filter: nothing; it failed to share and has still to take
  // back its increment; it saw the counter at zero and is about to exchange it; or it is in a call.
  datatype Use = Idle | Bumped | SawZero(sub: nat) | Shared(sub: nat) | Exclusive(sub: nat)

  // `inited` holds for each worker the filters it has called.
  datatype State = State(word: Word, uses: seq<Use>, inited: seq<set<nat>>)

  datatype Step =
    | FetchAdd(t: nat, sub: nat)
    | TakeBack(t: nat)
    | Load(t: nat, sub: nat)
    | Exchange(t: nat, spurious: bool)
    | UnlockShared(t: nat)
    | UnlockExclusive(t: nat)

  function Initial(workers: nat): State {
    State(0, seq(workers, t => Idle), seq(workers, t => {}))
  }

  // A worker shares the lock for a filter it has called before and takes it alone for a filter it has not.
  predicate Can(st: State, s: Step) {
    && |st.inited| == |st.uses|
    && s.t < |st.uses|
    && match s
       case FetchAdd(t, sub) => st.uses[t].Idle? && sub in st.inited[t]
       case TakeBack(t) => st.uses[t].Bumped?
       case Load(t, sub) => st.uses[t].Idle? && sub !in st.inited[t]
       case Exchange(t, _) => st.uses[t].SawZero?
       case UnlockShared(t) => st.uses[t].Shared?
       case UnlockExclusive(t) => st.uses[t].Exclusive?
  }

  function Do(st: State, s: Step): State
    requires Can(st, s)
  {
    match s
    case FetchAdd(t, sub) =>
      st.(word := Increment(st.word), uses := st.uses[t := if HasHighest(st.word) then Bumped else Shared(sub)])
    case TakeBack(t) => st.(word := Decrement(st.word), uses := st.uses[t := Idle])
    case Load(t, sub) => st.(uses := st.uses[t := if st.word == 0 then SawZero(sub) else Idle])
    case Exchange(t, spurious) =>
      var sub := st.uses[t].sub;
      if st.word == 0 && !spurious then
        st.(word := HIGHEST as Word, uses := st.uses[t := Exclusive(sub)], inited := st.inited[t := st.inited[t] + {sub}])
      else st.(uses := st.uses[t := Idle])
    case UnlockShared(t) => st.(word := Decrement(st.word), uses := st.uses[t := Idle])
    case UnlockExclusive(t) => st.(word := WithoutHighest(st.word), uses := st.uses[t := Idle])
  }

  // How much a worker has added to the counter.
  function Share(u: Use): nat {
    match u
    case Bumped | Shared(_) => 1
    case Exclusive(_) => HIGHEST
    case _ => 0
  }

  function Total(uses: seq<Use>): nat {
    if uses == [] then 0 else Total(uses[..|uses| - 1]) + Share(uses[|uses| - 1])
  }

  // The counter is what the workers added, one that holds the lock alone is the only one in a call, and one that
  // shares has called the filter before.
  ghost predicate Inv(st: State) {
    && |st.inited| == |st.uses| < HIGHEST
    && st.word as int == Total(st.uses)
    && (forall t, u {:trigger st.uses[t], st.uses[u]} | 0 <= t < |st.uses| && 0 <= u < |st.uses| && t != u ::
          st.uses[t].Exclusive? ==> !st.uses[u].Exclusive? && !st.uses[u].Shared?)
    && (forall t {:trigger st.uses[t]} | 0 <= t < |st.uses| :: st.uses[t].Shared? || st.uses[t].Exclusive? ==>
          st.uses[t].sub in st.inited[t])
  }

  // Changing what one worker added

  lemma {:induction false} TotalUpdate(uses: seq<Use>, t: nat, u: Use)
    requires t < |uses|
    ensures Total(uses[t := u]) == Total(uses) - Share(uses[t]) + Share(u)
    ensures Share(uses[t]) <= Total(uses)
  {
    var n := |uses| - 1;
    if t == n {
      assert uses[t := u][..n] == uses[..n];
    } else {
      assert uses[t := u][..n] == uses[..n][t := u];
      TotalUpdate(uses[..n], t, u);
    }
  }

  // Without a worker alone, the counter is the number of increments and below the highest bit.
  lemma {:induction false} TotalOfOnes(uses: seq<Use>)
    requires forall t {:trigger uses[t]} | 0 <= t < |uses| :: !uses[t].Exclusive?
    ensures Total(uses) <= |uses|
  {
    if uses != [] { TotalOfOnes(uses[..|uses| - 1]); }
  }

  // With exactly one worker alone, the highest bit is set and the rest stays below it.
  lemma TotalWithOne(uses: seq<Use>, t: nat)
    requires t < |uses| && uses[t].Exclusive?
    requires forall u {:trigger uses[u]} | 0 <= u < |uses| && u != t :: !uses[u].Exclusive?
    ensures HIGHEST <= Total(uses) < HIGHEST + |uses|
  {
    TotalUpdate(uses, t, Bumped);
    TotalOfOnes(uses[t := Bumped]);
  }

  // The highest bit is set exactly while a worker is alone, and the counter does not wrap.
  lemma HighestMeansAlone(st: State)
    requires Inv(st)
    ensures HasHighest(st.word) <==> exists t {:trigger st.uses[t]} | 0 <= t < |st.uses| :: st.uses[t].Exclusive?
    ensures Total(st.uses) < LIMIT - 1
  {
    if exists t {:trigger st.uses[t]} | 0 <= t < |st.uses| :: st.uses[t].Exclusive? {
      var t :| 0 <= t < |st.uses| && st.uses[t].Exclusive?;
      TotalWithOne(st.uses, t);
    } else {
      TotalOfOnes(st.uses);
    }
  }

  /** A counter at zero means that nobody is in a call. */
  lemma ZeroMeansFree(st: State)
    requires Inv(st) && st.word == 0
    ensures forall t {:trigger st.uses[t]} | 0 <= t < |st.uses| :: !st.uses[t].Shared? && !st.uses[t].Exclusive?
  {
    forall t | 0 <= t < |st.uses| ensures !st.uses[t].Shared? && !st.uses[t].Exclusive? {
      TotalUpdate(st.uses, t, Idle);
    }
  }

  lemma InitialInv(workers: nat)
    requires workers < HIGHEST
    ensures Inv(Initial(workers))
  {
    IdleTotal(Initial(workers).uses);
  }

  lemma {:induction false} IdleTotal(uses: seq<Use>)
    requires forall t {:trigger uses[t]} | 0 <= t < |uses| :: uses[t].Idle?
    ensures Total(uses) == 0
  {
    if uses != [] { IdleTotal(uses[..|uses| - 1]); }
  }

  /** Every step of a worker keeps the invariant. */
  lemma StepKeepsInv(st: State, s: Step)
    requires Inv(st) && Can(st, s)
    ensures Inv(Do(st, s))
  {
    HighestMeansAlone(st);
    if st.word == 0 { ZeroMeansFree(st); }
    StepKeepsTotal(st, s);
  }

  lemma StepKeepsTotal(st: State, s: Step)
    requires Inv(st) && Can(st, s)
    ensures Do(st, s).word as int == Total(Do(st, s).uses)
  {
    HighestMeansAlone(st);
    TotalUpdate(st.uses, s.t, Do(st, s).uses[s.t]);
    if s.UnlockExclusive? {
      assert st.uses[s.t].Exclusive?;
    }
  }

  // Runs

  ghost predicate IsRun(workers: nat, states: seq<State>, steps: seq<Step>) {
    && |states| == |steps| + 1 && states[0] == Initial(workers)
    && forall i {:trigger steps[i]} | 0 <= i < |steps| :: Can(states[i], steps[i]) && states[i + 1] == Do(states[i], steps[i])
  }

  lemma {:induction false} RunKeepsInv(workers: nat, states: seq<State>, steps: seq<Step>, n: nat)
    requires IsRun(workers, states, steps) && workers < HIGHEST && n < |states|
    ensures Inv(states[n]) && |states[n].uses| == workers
    decreases n
  {
    if n == 0 {
      InitialInv(workers);
    } else {
      RunKeepsInv(workers, states, steps, n - 1);
      assert Can(states[n - 1], steps[n - 1]);
      StepKeepsInv(states[n - 1], steps[n - 1]);
    }
  }

  // Nobody is in a call or has bumped the counter.
  ghost predicate IsFree(uses: seq<Use>) {
    forall t {:trigger uses[t]} | 0 <= t < |uses| :: uses[t].Idle? || uses[t].SawZero?
  }

  ghost predicate NoneAlone(uses: seq<Use>) {
    forall t {:trigger uses[t]} | 0 <= t < |uses| :: !uses[t].Exclusive?
  }

  lemma {:induction false} FreeTotal(uses: seq<Use>)
    ensures Total(uses) == 0 <==> IsFree(uses)
  {
    if uses != [] {
      var n := |uses| - 1;
      FreeTotal(uses[..n]);
      assert IsFree(uses) <==> IsFree(uses[..n]) && (uses[n].Idle? || uses[n].SawZero?) by {
        assert forall t | 0 <= t < n :: uses[t] == uses[..n][t];
      }
    }
  }

  /** A try fails only where it has to. In every interleaving a worker shares the lock exactly when nobody holds it alone,
      sees it free exactly when nobody is in a call or has bumped the counter, and then takes it exactly when that is
      still so, unless the exchange fails spuriously. */
  lemma TryIsExact(workers: nat, states: seq<State>, steps: seq<Step>, n: nat)
    requires IsRun(workers, states, steps) && workers < HIGHEST && n < |steps|
    ensures var t, uses, next := steps[n].t, states[n].uses, states[n + 1].uses;
            && t < |uses| == |next|
            && (steps[n].FetchAdd? ==> next[t] == if NoneAlone(uses) then Shared(steps[n].sub) else Bumped)
            && (steps[n].Load? ==> next[t] == if IsFree(uses) then SawZero(steps[n].sub) else Idle)
            && (steps[n].Exchange? ==>
                  uses[t].SawZero? &&
                  next[t] == if IsFree(uses) && !steps[n].spurious then Exclusive(uses[t].sub) else Idle)
            && (steps[n].TakeBack? || steps[n].UnlockShared? || steps[n].UnlockExclusive? ==> next[t].Idle?)
  {
    RunKeepsInv(workers, states, steps, n);
    assert Can(states[n], steps[n]);
    HighestMeansAlone(states[n]);
    FreeTotal(states[n].uses);
  }

  /** In every interleaving a worker that holds the lock alone is the only one in a call, even while others have bumped
      the counter and not taken it back. */
  lemma ExclusiveIsAlone(workers: nat, states: seq<State>, steps: seq<Step>, n: nat, t: nat, u: nat)
    requires IsRun(workers, states, steps) && workers < HIGHEST && n < |states|
    requires t < workers && u < workers && t != u && |states[n].uses| == workers && states[n].uses[t].Exclusive?
    ensures !states[n].uses[u].Exclusive? && !states[n].uses[u].Shared?
  {
    RunKeepsInv(workers, states, steps, n);
  }

  /** A worker's first call into a filter overlaps no other call under the same counter: the call is made holding the
      lock alone, as the worker had not called the filter before. */
  lemma FirstCallIsAlone(workers: nat, states: seq<State>, steps: seq<Step>, n: nat, t: nat, sub: nat)
    requires IsRun(workers, states, steps) && workers < HIGHEST && n < |steps|
    requires t < workers && |states[n].uses| == |states[n + 1].uses| == workers == |states[n].inited|
    requires sub !in states[n].inited[t]
    requires states[n + 1].uses[t] == Shared(sub) || states[n + 1].uses[t] == Exclusive(sub)
    ensures var uses := states[n + 1].uses;
            && uses[t] == Exclusive(sub)
            && forall u {:trigger uses[u]} | 0 <= u < workers && u != t :: !uses[u].Shared? && !uses[u].Exclusive?
  {
    var uses := states[n + 1].uses;
    RunKeepsInv(workers, states, steps, n);
    RunKeepsInv(workers, states, steps, n + 1);
    assert Can(states[n], steps[n]);
    assert states[n].uses[t].Shared? || states[n].uses[t].Exclusive? ==> states[n].uses[t].sub in states[n].inited[t];
    forall u {:trigger uses[u]} | 0 <= u < workers && u != t ensures !uses[u].Shared? && !uses[u].Exclusive? {
      ExclusiveIsAlone(workers, states, steps, n + 1, t, u);
    }
  }
}
