/** Handling a report keeps the invariant: outputs are sent on, or the failed frame and exactly its live dependents die. */
module SubstrateNotify {
  import opened Options
  import opened Substrate
  import opened SubstrateInv
  import opened SubstrateConstruct

  // Killing

  // A path of live frames along outputs, from the first to the last.
  ghost predicate Path(st: State, p: seq<Id>) {
    && |p| > 0
    && (forall n | 0 <= n < |p| :: p[n] in st.alive && p[n] < |st.insts|)
    && forall n | 0 <= n < |p| - 1 :: p[n + 1] in st.insts[p[n]].outputs
  }

  // x depends on i through live frames.
  ghost predicate Reaches(st: State, i: Id, x: Id) {
    exists p :: Path(st, p) && p[0] == i && p[|p| - 1] == x
  }

  // What killing the frames in `dead` leaves: each lost its callback and dropped its data once more.
  ghost predicate Killed(st: State, r: State, dead: set<Id>)
    requires InRange(st)
  {
    && dead <= st.alive && r.alive == st.alive - dead
    && |r.insts| == |st.insts|
    && (forall x {:trigger r.insts[x]} {:trigger st.insts[x]} | 0 <= x < |st.insts| ::
          r.insts[x] == if x in dead then st.insts[x].(callback := None, drops := st.insts[x].drops + 1) else st.insts[x])
    && st.log <= r.log && (forall n | |st.log| <= n < |r.log| :: r.log[n].frame.None?)
    && r == st.(insts := r.insts, alive := r.alive, log := r.log)
  }

  // No live frame outside the set depends on one inside.
  ghost predicate Closed(st: State, dead: set<Id>)
    requires InRange(st)
  {
    forall x, o {:trigger o in st.insts[x].outputs} | x in dead && x < |st.insts| && o in st.insts[x].outputs && o in st.alive ::
      o in dead
  }

  lemma KilledInRange(st: State, r: State, dead: set<Id>)
    requires InRange(st) && Killed(st, r, dead)
    ensures InRange(r)
  {
  }

  lemma ReachesInLarger(st: State, r: State, dead: set<Id>, i: Id, x: Id)
    requires InRange(st) && Killed(st, r, dead) && Reaches(r, i, x)
    ensures Reaches(st, i, x)
  {
    var p :| Path(r, p) && p[0] == i && p[|p| - 1] == x;
    assert Path(st, p);
  }

  lemma ReachesFurther(st: State, i: Id, o: Id, x: Id)
    requires Reaches(st, o, x) && i in st.alive && i < |st.insts| && o in st.insts[i].outputs
    ensures Reaches(st, i, x)
  {
    var p :| Path(st, p) && p[0] == o && p[|p| - 1] == x;
    var q := [i] + p;
    assert Path(st, q) && q[0] == i && q[|q| - 1] == x;
  }

  // Killing one set and then another of the remaining live frames.
  lemma KilledTwice(st: State, s: State, r: State, d1: set<Id>, d2: set<Id>)
    requires InRange(st) && Killed(st, s, d1) && InRange(s) && Killed(s, r, d2)
    ensures Killed(st, r, d1 + d2)
    ensures Closed(st, d1) && Closed(s, d2) ==> Closed(st, d1 + d2)
  {
    forall x | 0 <= x < |st.insts|
      ensures r.insts[x] == if x in d1 + d2 then st.insts[x].(callback := None, drops := st.insts[x].drops + 1)
                            else st.insts[x]
    {
      assert x in d2 ==> x !in d1;
    }
    if Closed(st, d1) && Closed(s, d2) {
      forall x, o | x in d1 + d2 && x < |st.insts| && o in st.insts[x].outputs && o in st.alive ensures o in d1 + d2 {
        if x in d2 { assert o in s.insts[x].outputs; }
      }
    }
  }

  lemma {:induction false} KillTreeKills(st: State, i: Id) returns (dead: set<Id>)
    requires InRange(st) && i in st.alive
    ensures Killed(st, KillTree(st, i), dead) && i in dead && Closed(st, dead)
    ensures forall x <- dead :: Reaches(st, i, x) && i <= x
    decreases |st.insts| - i, 1, 0
  {
    var one := KillOne(st, i);
    KillOneInRange(st, i);
    var rest := KillOutputsKills(one, i, st.insts[i].outputs);
    dead := rest + {i};
    KillTreeResult(st, i, one, KillOutputs(one, i, st.insts[i].outputs), rest);
    assert Path(st, [i]);
    forall x | x in rest ensures Reaches(st, i, x) {
      ReachedThrough(st, i, x);
    }
  }

  lemma KillOneInRange(st: State, i: Id)
    requires InRange(st) && i in st.alive
    ensures InRange(KillOne(st, i)) && |KillOne(st, i).insts| == |st.insts|
    ensures forall o <- st.insts[i].outputs :: i < o < |st.insts|
  {
  }

  lemma ReachedThrough(st: State, i: Id, x: Id)
    requires InRange(st) && i in st.alive && ReachedFrom(KillOne(st, i), st.insts[i].outputs, x)
    ensures Reaches(st, i, x)
  {
    var o :| o in st.insts[i].outputs && Reaches(KillOne(st, i), o, x);
    ReachesBefore(st, i, o, x);
    ReachesFurther(st, i, o, x);
  }

  lemma ReachesBefore(st: State, i: Id, o: Id, x: Id)
    requires InRange(st) && i in st.alive && Reaches(KillOne(st, i), o, x)
    ensures Reaches(st, o, x)
  {
    var p :| Path(KillOne(st, i), p) && p[0] == o && p[|p| - 1] == x;
    assert Path(st, p);
  }

  lemma KillTreeResult(st: State, i: Id, one: State, k: State, rest: set<Id>)
    requires InRange(st) && i in st.alive && InRange(one) && one == KillOne(st, i)
    requires Killed(one, k, rest) && Closed(one, rest) && i !in rest
    requires forall o <- st.insts[i].outputs :: o in st.alive ==> o in rest
    ensures Killed(st, k.(alive := k.alive - {i}), rest + {i}) && Closed(st, rest + {i})
  {
    forall x, o | x in rest + {i} && x < |st.insts| && o in st.insts[x].outputs && o in st.alive ensures o in rest + {i} {
      if x != i { assert o in one.insts[x].outputs; }
    }
  }

  // x depends, through live frames, on one of these.
  ghost predicate ReachedFrom(st: State, outputs: seq<Id>, x: Id) {
    exists o :: o in outputs && Reaches(st, o, x)
  }

  lemma ReachedFromMore(st: State, s: State, d: set<Id>, rest: seq<Id>, outputs: seq<Id>, x: Id)
    requires InRange(st) && Killed(st, s, d) && ReachedFrom(s, rest, x) && forall o | o in rest :: o in outputs
    ensures ReachedFrom(st, outputs, x)
  {
    var o :| o in rest && Reaches(s, o, x);
    ReachesInLarger(st, s, d, o, x);
  }

  lemma {:induction false} KillOutputsKills(st: State, i: Id, outputs: seq<Id>) returns (dead: set<Id>)
    requires InRange(st) && i < |st.insts| && forall o <- outputs :: i < o < |st.insts|
    ensures Killed(st, KillOutputs(st, i, outputs), dead) && Closed(st, dead)
    ensures forall o <- outputs :: o in st.alive ==> o in dead
    ensures forall x <- dead :: i < x && ReachedFrom(st, outputs, x)
    decreases |st.insts| - i, 0, |outputs|
  {
    dead := {};
    if |outputs| > 0 {
      var o := outputs[0];
      assert o in outputs;
      var rest := outputs[1..];
      assert forall x | x in rest :: x in outputs;
      assert forall x | x in outputs :: x == o || x in rest;
      var s, d1 := st, {};
      if o in st.alive {
        s := KillTree(st, o);
        d1 := KillTreeKills(st, o);
      }
      KilledInRange(st, s, d1);
      var d2 := KillOutputsKills(s, i, rest);
      dead := d1 + d2;
      KilledTwice(st, s, KillOutputs(s, i, rest), d1, d2);
      forall x | x in d2 ensures ReachedFrom(st, outputs, x) {
        ReachedFromMore(st, s, d1, rest, outputs, x);
      }
    }
  }

  lemma {:induction false} ClosedHoldsPaths(st: State, dead: set<Id>, p: seq<Id>, n: nat)
    requires InRange(st) && Closed(st, dead) && Path(st, p) && p[0] in dead && n < |p|
    ensures p[n] in dead
  {
    if n > 0 {
      ClosedHoldsPaths(st, dead, p, n - 1);
      assert p[n] in st.insts[p[n - 1]].outputs;
    }
  }

  /** Killing a live frame removes exactly the live frames that depend on it through live frames, drops the data of
      each once, and gives each held callback the error. */
  lemma KillTreeIsExact(st: State, i: Id)
    requires InRange(st) && i in st.alive
    ensures var r := KillTree(st, i);
            exists dead :: Killed(st, r, dead) && Closed(st, dead) && i in dead && forall x :: x in dead <==> Reaches(st, i, x)
  {
    var dead := KillTreeKills(st, i);
    forall x | Reaches(st, i, x) ensures x in dead {
      var p :| Path(st, p) && p[0] == i && p[|p| - 1] == x;
      ClosedHoldsPaths(st, dead, p, |p| - 1);
    }
    assert forall x :: x in dead <==> Reaches(st, i, x);
  }

  // The log only grows, no callback appears, and one that was held and no longer is got the error.
  ghost predicate ErrorsSent(st: State, r: State) {
    |r.insts| == |st.insts| && st.log <= r.log && forall x | 0 <= x < |st.insts| :: ErrorSentAt(st, r, x)
  }

  ghost predicate ErrorSentAt(st: State, r: State, x: Id)
    requires x < |st.insts| && |r.insts| == |st.insts|
  {
    r.insts[x].callback == st.insts[x].callback ||
    (st.insts[x].callback.Some? && r.insts[x].callback.None? && Call(st.insts[x].callback.value, None) in r.log)
  }

  lemma ErrorsSentOn(st: State, s: State, r: State)
    requires ErrorsSent(st, s) && ErrorsSent(s, r)
    ensures ErrorsSent(st, r)
  {
    forall x | 0 <= x < |st.insts| ensures ErrorSentAt(st, r, x) {
      assert ErrorSentAt(st, s, x) && ErrorSentAt(s, r, x);
    }
  }

  /** Killing hands the error to every callback it lets go of. */
  lemma {:induction false} KillTreeSendsErrors(st: State, i: Id)
    requires Linked(st.insts) && i < |st.insts|
    ensures ErrorsSent(st, KillTree(st, i))
    decreases |st.insts| - i, 1, 0
  {
    var one := KillOne(st, i);
    assert Linked(one.insts);
    var k := KillOutputs(one, i, st.insts[i].outputs);
    forall x | 0 <= x < |st.insts| ensures ErrorSentAt(st, one, x) {
      if x == i && st.insts[i].callback.Some? {
        assert one.log[|st.log|] == Call(st.insts[i].callback.value, None);
      }
    }
    KillOutputsSendsErrors(one, i, st.insts[i].outputs);
    ErrorsSentOn(st, one, k);
    forall x | 0 <= x < |st.insts| ensures ErrorSentAt(st, KillTree(st, i), x) {
      assert ErrorSentAt(st, k, x);
    }
  }

  lemma {:induction false} KillOutputsSendsErrors(st: State, i: Id, outputs: seq<Id>)
    requires Linked(st.insts) && i < |st.insts| && forall o <- outputs :: i < o < |st.insts|
    ensures ErrorsSent(st, KillOutputs(st, i, outputs))
    decreases |st.insts| - i, 0, |outputs|
  {
    if |outputs| > 0 {
      assert outputs[0] in outputs;
      assert forall x | x in outputs[1..] :: x in outputs;
      var s := if outputs[0] in st.alive then KillTree(st, outputs[0]) else st;
      if outputs[0] in st.alive { KillTreeSendsErrors(st, outputs[0]); }
      KillOutputsSendsErrors(s, i, outputs[1..]);
      ErrorsSentOn(st, s, KillOutputs(s, i, outputs[1..]));
    }
  }
}
