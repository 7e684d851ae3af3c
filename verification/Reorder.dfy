/** The frame maps of DuplicateFrames and DeleteFrames: which source frame each output frame shows. */
module Reorder {

  ghost predicate Sorted(s: seq<int>) {
    forall i, j {:trigger s[i], s[j]} | 0 <= i < j < |s| :: s[i] <= s[j]
  }

  // How many of the numbers are below a bound.
  function Below(s: seq<int>, bound: int): nat {
    if s == [] then 0 else Below(s[..|s| - 1], bound) + (if s[|s| - 1] < bound then 1 else 0)
  }

  // The first `k` of a sorted list are below a bound and the others are not.
  lemma {:induction false} BelowIs(s: seq<int>, bound: int, k: nat)
    requires k <= |s| && (forall i | 0 <= i < k :: s[i] < bound) && (forall i | k <= i < |s| :: s[i] >= bound)
    ensures Below(s, bound) == k
  {
    if s != [] {
      BelowIs(s[..|s| - 1], bound, if k == |s| then k - 1 else k);
    }
  }

  lemma {:induction false} BelowBetween(s: seq<int>, a: int, b: int)
    requires a <= b
    ensures Below(s, a) <= Below(s, b) <= |s|
  {
    if s != [] { BelowBetween(s[..|s| - 1], a, b); }
  }

  // Duplicating

  // What the output should be: every source frame once, and once more for each time it is listed.
  function Duplicated(dups: seq<int>, frames: nat): seq<int> {
    if frames == 0 then []
    else
      BelowBetween(dups, frames - 1, frames);
      Duplicated(dups, frames - 1) + seq(1 + Below(dups, frames) - Below(dups, frames - 1), i => frames - 1)
  }

  lemma {:induction false} DuplicatedLength(dups: seq<int>, frames: nat)
    requires forall d <- dups :: 0 <= d
    ensures |Duplicated(dups, frames)| == frames + Below(dups, frames)
  {
    BelowNone(dups);
    if frames > 0 {
      DuplicatedLength(dups, frames - 1);
      BelowBetween(dups, frames - 1, frames);
    }
  }

  lemma {:induction false} BelowNone(s: seq<int>)
    requires forall d <- s :: 0 <= d
    ensures Below(s, 0) == 0
  {
    if s != [] {
      var front := s[..|s| - 1];
      forall d | d in front ensures 0 <= d {
        assert d in s;
      }
      assert s[|s| - 1] in s;
      BelowNone(front);
    }
  }

  lemma {:induction false} DuplicatedAt(dups: seq<int>, frames: nat, m: nat, n: nat)
    requires (forall d <- dups :: 0 <= d) && m < frames && m + Below(dups, m) <= n <= m + Below(dups, m + 1)
    ensures n < |Duplicated(dups, frames)| && Duplicated(dups, frames)[n] == m
  {
    DuplicatedLength(dups, frames);
    DuplicatedLength(dups, frames - 1);
    BelowBetween(dups, frames - 1, frames);
    BelowBetween(dups, m + 1, frames);
    if m < frames - 1 {
      DuplicatedAt(dups, frames - 1, m, n);
    }
  }

  lemma {:induction false} BelowCounts(s: seq<int>, x: int)
    ensures Below(s, x + 1) == Below(s, x) + multiset(s)[x]
  {
    if s != [] {
      var n := |s| - 1;
      assert s == s[..n] + [s[n]];
      BelowCounts(s[..n], x);
    }
  }

  lemma {:induction false} CountRepeated(x: int, n: nat, y: int)
    ensures multiset(seq(n, i => x))[y] == if y == x then n else 0
  {
    if n > 0 {
      CountRepeated(x, n - 1, y);
      assert seq(n, i => x) == seq(n - 1, i => x) + [x];
    }
  }

  /** In order, each source frame once and once more for each time it is listed. */
  lemma {:induction false} DuplicatedShows(dups: seq<int>, frames: nat, m: int)
    ensures multiset(Duplicated(dups, frames))[m] == if 0 <= m < frames then 1 + multiset(dups)[m] else 0
  {
    if frames > 0 {
      DuplicatedShows(dups, frames - 1, m);
      BelowBetween(dups, frames - 1, frames);
      BelowCounts(dups, frames - 1);
      CountRepeated(frames - 1, 1 + Below(dups, frames) - Below(dups, frames - 1), m);
    }
  }

  lemma {:induction false} DuplicatedInOrder(dups: seq<int>, frames: nat)
    ensures Sorted(Duplicated(dups, frames)) && forall x <- Duplicated(dups, frames) :: 0 <= x < frames
  {
    if frames > 0 {
      var front := Duplicated(dups, frames - 1);
      DuplicatedInOrder(dups, frames - 1);
      BelowBetween(dups, frames - 1, frames);
      SortedAppend(front, seq(1 + Below(dups, frames) - Below(dups, frames - 1), i => frames - 1));
    }
  }

  lemma SortedAppend(a: seq<int>, b: seq<int>)
    requires Sorted(a) && Sorted(b) && forall x, y | x in a && y in b :: x <= y
    ensures Sorted(a + b)
  {
    var s := a + b;
    forall i, j | 0 <= i < j < |s| ensures s[i] <= s[j] {
      if i < |a| <= j { assert s[i] in a && s[j] in b; }
    }
  }

  /** The map of DuplicateFrames shows each source frame once and each listed copy of it, in order. */
  method DuplicateSource(dups: seq<int>, frames: nat, n: nat) returns (m: int)
    requires Sorted(dups) && (forall d <- dups :: 0 <= d < frames) && n < frames + |dups|
    ensures n < |Duplicated(dups, frames)| == frames + |dups|
    ensures m == Duplicated(dups, frames)[n]
  {
    m := n;
    var i := 0;
    while i < |dups| && m > dups[i]
      invariant 0 <= i <= |dups| && m == n - i
      invariant forall j | 0 <= j < i :: dups[j] < n - j
      invariant i > 0 ==> dups[i - 1] <= m
    {
      m := m - 1;
      i := i + 1;
    }
    DuplicatedLength(dups, frames);
    assert forall j | 0 <= j < |dups| :: dups[j] in dups;
    BelowIs(dups, frames, |dups|);
    DuplicateSpot(dups, m, i);
    DuplicatedAt(dups, frames, m, n);
  }

  lemma DuplicateSpot(dups: seq<int>, m: int, i: nat)
    requires Sorted(dups) && i <= |dups| && (i < |dups| ==> m <= dups[i]) && (i > 0 ==> dups[i - 1] <= m)
    ensures Below(dups, m) <= i <= Below(dups, m + 1)
  {
    BelowAtMost(dups, m, i);
    BelowAtLeast(dups, m + 1, i);
  }

  lemma {:induction false} BelowAtMost(s: seq<int>, bound: int, k: nat)
    requires k <= |s| && forall i | k <= i < |s| :: s[i] >= bound
    ensures Below(s, bound) <= k
  {
    if s != [] { BelowAtMost(s[..|s| - 1], bound, if k == |s| then k - 1 else k); }
  }

  lemma {:induction false} BelowAtLeast(s: seq<int>, bound: int, k: nat)
    requires k <= |s| && forall i | 0 <= i < k :: s[i] < bound
    ensures Below(s, bound) >= k
  {
    if s != [] { BelowAtLeast(s[..|s| - 1], bound, if k == |s| then k - 1 else k); }
  }

  // Deleting

  // What the output should be: the source frames that are not listed.
  function Remaining(deleted: seq<int>, frames: nat): seq<int> {
    if frames == 0 then []
    else Remaining(deleted, frames - 1) + (if frames - 1 in deleted then [] else [frames - 1])
  }

  ghost predicate Distinct(s: seq<int>) {
    forall i, j {:trigger s[i], s[j]} | 0 <= i < j < |s| :: s[i] < s[j]
  }

  lemma {:induction false} RemainingLength(deleted: seq<int>, frames: nat)
    requires Distinct(deleted) && forall d <- deleted :: 0 <= d
    ensures |Remaining(deleted, frames)| == frames - Below(deleted, frames)
  {
    BelowNone(deleted);
    if frames > 0 {
      RemainingLength(deleted, frames - 1);
      BelowNext(deleted, frames - 1);
    }
  }

  lemma {:induction false} BelowNext(s: seq<int>, x: int)
    requires Distinct(s)
    ensures Below(s, x + 1) == Below(s, x) + (if x in s then 1 else 0)
  {
    if s != [] {
      var front := s[..|s| - 1];
      BelowNext(front, x);
      if s[|s| - 1] == x {
        assert forall i | 0 <= i < |front| :: front[i] != x;
      }
      assert s == front + [s[|s| - 1]];
    }
  }

  /** Exactly the frames that are not listed, in order. */
  lemma {:induction false} RemainingShows(deleted: seq<int>, frames: nat, m: int)
    ensures m in Remaining(deleted, frames) <==> 0 <= m < frames && m !in deleted
    ensures Distinct(Remaining(deleted, frames)) && forall x <- Remaining(deleted, frames) :: 0 <= x < frames
  {
    if frames > 0 {
      var front := Remaining(deleted, frames - 1);
      RemainingShows(deleted, frames - 1, m);
      assert forall i | 0 <= i < |front| :: front[i] in front;
    }
  }

  lemma {:induction false} RemainingAt(deleted: seq<int>, frames: nat, m: nat)
    requires m < frames && m !in deleted
    ensures |Remaining(deleted, m)| < |Remaining(deleted, frames)|
    ensures Remaining(deleted, frames)[|Remaining(deleted, m)|] == m
  {
    if m < frames - 1 { RemainingAt(deleted, frames - 1, m); }
  }

  /** The map of DeleteFrames shows exactly the frames that were not deleted, in order. */
  method DeleteSource(deleted: seq<int>, frames: nat, n: nat) returns (m: int)
    requires Distinct(deleted) && (forall d <- deleted :: 0 <= d < frames) && n + |deleted| < frames
    ensures n < |Remaining(deleted, frames)| == frames - |deleted|
    ensures m == Remaining(deleted, frames)[n]
  {
    m := n;
    var i := 0;
    while i < |deleted| && m >= deleted[i]
      invariant 0 <= i <= |deleted| && m == n + i
      invariant i > 0 ==> deleted[i - 1] < m
    {
      m := m + 1;
      i := i + 1;
    }
    assert forall j | 0 <= j < |deleted| :: deleted[j] in deleted;
    BelowIs(deleted, frames, |deleted|);
    BelowIs(deleted, m, i);
    assert m !in deleted;
    RemainingLength(deleted, m);
    RemainingLength(deleted, frames);
    RemainingAt(deleted, frames, m);
  }

  // Creating

  datatype Error = OutOfBounds | DeletedTwice | AllDeleted

  datatype Result = Ok(list: seq<int>, frames: nat) | Err(error: Error)

  predicate AllInRange(listed: seq<int>, frames: nat) {
    forall d <- listed :: 0 <= d < frames
  }

  predicate NoneTwice(listed: seq<int>) {
    forall d <- listed :: multiset(listed)[d] == 1
  }

  // In a sorted list frames listed twice stand side by side.
  lemma {:induction false} SortedOnce(s: seq<int>)
    requires Sorted(s)
    ensures Distinct(s) <==> NoneTwice(s)
  {
    if |s| > 0 {
      var n := |s| - 1;
      assert s == s[..n] + [s[n]];
      SortedOnce(s[..n]);
      OnceMore(s[..n], s[n]);
      DistinctMore(s[..n], s[n]);
    }
  }

  lemma OnceMore(front: seq<int>, last: int)
    ensures NoneTwice(front + [last]) <==> NoneTwice(front) && last !in front
  {
    var s := front + [last];
    assert multiset(s) == multiset(front) + multiset{last};
    assert s[|front|] == last && last in s;
    forall d | d in front ensures d in s && multiset(s)[d] == multiset(front)[d] + (if d == last then 1 else 0) {
      var i :| 0 <= i < |front| && front[i] == d;
      assert s[i] == d;
    }
    if last in front { assert multiset(front)[last] >= 1; }
  }

  lemma DistinctMore(front: seq<int>, last: int)
    requires Sorted(front + [last])
    ensures Distinct(front + [last]) <==> Distinct(front) && last !in front
  {
    var s := front + [last];
    assert forall i | 0 <= i < |front| :: s[i] == front[i] && s[i] <= s[|front|];
    if Distinct(s) {
      assert forall i | 0 <= i < |front| :: s[i] < s[|front|];
    }
  }

  // The checks of DeleteFrames on a clip of known length. `sort` is the library's.
  method CreateDelete(listed: seq<int>, frames: nat, sort: seq<int> -> seq<int>) returns (r: Result)
    requires frames > 0 && multiset(sort(listed)) == multiset(listed) && Sorted(sort(listed))
    ensures r == Err(OutOfBounds) <==> !AllInRange(listed, frames)
    ensures r == Err(DeletedTwice) <==> AllInRange(listed, frames) && !NoneTwice(listed)
    ensures r == Err(AllDeleted) <==> AllInRange(listed, frames) && NoneTwice(listed) && |listed| == frames
    ensures r.Ok? ==> Distinct(r.list) && (forall d <- r.list :: 0 <= d < frames) && r.frames == frames - |r.list| > 0
    ensures r.Ok? ==> multiset(r.list) == multiset(listed)
  {
    SortedOnce(sort(listed));
    assert |sort(listed)| == |multiset(listed)| == |listed|;
    for i := 0 to |listed|
      invariant forall j | 0 <= j < i :: 0 <= listed[j] < frames
    {
      if listed[i] < 0 || listed[i] >= frames {
        assert listed[i] in listed;
        return Err(OutOfBounds);
      }
    }
    var deleted := sort(listed);
    forall d | d in deleted ensures 0 <= d < frames {
      assert d in multiset(deleted);
      assert d in listed;
    }
    var i := 0;
    while i < |deleted| - 1
      invariant 0 <= i && (i <= |deleted| - 1 || i == 0) && forall j | 0 <= j < i :: deleted[j] < deleted[j + 1]
    {
      if deleted[i] == deleted[i + 1] {
        assert !Distinct(deleted);
        return Err(DeletedTwice);
      }
      i := i + 1;
    }
    StrictlyUp(deleted);
    AtMostAll(deleted, frames);
    if frames == |deleted| {
      return Err(AllDeleted);
    }
    r := Ok(deleted, frames - |deleted|);
  }

  lemma StrictlyUp(s: seq<int>)
    requires forall j | 0 <= j < |s| - 1 :: s[j] < s[j + 1]
    ensures Distinct(s)
  {
    forall i, j | 0 <= i < j < |s| ensures s[i] < s[j] {
      StrictlyUpTo(s, i, j);
    }
  }

  lemma {:induction false} StrictlyUpTo(s: seq<int>, i: nat, j: nat)
    requires (forall k | 0 <= k < |s| - 1 :: s[k] < s[k + 1]) && i < j < |s|
    ensures s[i] < s[j]
    decreases j
  {
    if i < j - 1 { StrictlyUpTo(s, i, j - 1); }
    assert s[j - 1] < s[j - 1 + 1];
  }

  // Different frames are at most as many as there are.
  lemma AtMostAll(s: seq<int>, frames: nat)
    requires Distinct(s) && forall d <- s :: 0 <= d < frames
    ensures |s| <= frames
  {
    RemainingLength(s, frames);
    assert forall j | 0 <= j < |s| :: s[j] in s;
    BelowIs(s, frames, |s|);
  }
}
