/** The horizontal box blur: a sliding window over each row, run several times between two buffers. */
module BoxBlur {

  // Samples of up to 16 bits and the 32-bit accumulator. A value outside of its type would fail verification.
  newtype Sample = x: int | 0 <= x < 0x1_0000
  newtype Accumulator = x: int | 0 <= x < 0x1_0000_0000

  const MAX_RADIUS := 30000

  // The nearest position inside a row.
  function Clamp(i: int, width: int): int
    requires width > 0
  {
    if i < 0 then 0 else if i >= width then width - 1 else i
  }

  // It is inside, and no position inside is nearer.
  lemma ClampIsNearest(i: int, width: int, j: int)
    requires 0 <= j < width
    ensures var c := Clamp(i, width);
            0 <= c < width && (if c < i then i - c else c - i) <= (if j < i then i - j else j - i)
  {
  }

  // The sum of `n` samples from position `from`, clamped to the row.
  function SumFrom(s: seq<Sample>, from: int, n: nat): nat
    requires |s| > 0
  {
    if n == 0 then 0 else SumFrom(s, from, n - 1) + s[Clamp(from + n - 1, |s|)] as nat
  }

  function Window(s: seq<Sample>, x: int, radius: nat): nat
    requires |s| > 0
  {
    SumFrom(s, x - radius, 2 * radius + 1)
  }

  lemma {:induction false} SumBounds(s: seq<Sample>, from: int, n: nat, lo: nat, hi: nat)
    requires |s| > 0 && forall i | from <= i < from + n :: lo <= s[Clamp(i, |s|)] as nat <= hi
    ensures n * lo <= SumFrom(s, from, n) <= n * hi
  {
    if n > 0 {
      SumBounds(s, from, n - 1, lo, hi);
      OneTimesMore(n, lo);
      OneTimesMore(n, hi);
    }
  }

  lemma OneTimesMore(n: nat, c: nat)
    requires n > 0
    ensures n * c == (n - 1) * c + c
  {
  }

  lemma TimesGrows(a: nat, b: nat, c: nat)
    requires a <= b
    ensures a * c <= b * c
  {
  }

  // A pixel: the window's mean, rounded down or up.
  function Pixel(s: seq<Sample>, x: int, radius: nat, round: nat): (p: nat)
    requires |s| > 0 && round <= 2 * radius
    ensures p < 0x1_0000
  {
    PixelBetween(s, x, radius, round, 0, 0xffff);
    (Window(s, x, radius) + round) / (2 * radius + 1)
  }

  /** A pixel lies between bounds of its window. */
  lemma PixelBetween(s: seq<Sample>, x: int, radius: nat, round: nat, lo: nat, hi: nat)
    requires |s| > 0 && round <= 2 * radius
    requires forall i | x - radius <= i <= x + radius :: lo <= s[Clamp(i, |s|)] as nat <= hi
    ensures lo <= (Window(s, x, radius) + round) / (2 * radius + 1) <= hi
  {
    SumBounds(s, x - radius, 2 * radius + 1, lo, hi);
    MeanBetween(Window(s, x, radius), round, 2 * radius + 1, lo, hi);
  }

  lemma MeanBetween(sum: nat, round: nat, div: nat, lo: nat, hi: nat)
    requires 0 < div && round < div && div * lo <= sum <= div * hi
    ensures lo <= (sum + round) / div <= hi
  {
    var q := (sum + round) / div;
    assert sum + round == q * div + (sum + round) % div;
    OneTimesMore(q + 1, div);
    if q < lo { TimesGrows(q + 1, lo, div); }
    OneTimesMore(hi + 1, div);
    if q > hi { TimesGrows(hi + 1, q, div); }
  }

  /** The blur of a row. */
  function Blur(s: seq<Sample>, radius: nat, round: nat): (r: seq<Sample>)
    requires |s| > 0 && round <= 2 * radius
    ensures |r| == |s|
  {
    seq(|s|, x requires 0 <= x < |s| => Pixel(s, x, radius, round) as Sample)
  }

  // The blur of several passes, rounding up and down in turn.
  function Blurs(s: seq<Sample>, radius: nat, passes: nat): (r: seq<Sample>)
    requires |s| > 0
    ensures |r| == |s|
  {
    if passes == 0 then s else Blur(Blurs(s, radius, passes - 1), radius, Rounding(radius, passes - 1))
  }

  function Rounding(radius: nat, pass: nat): (r: nat)
    ensures r <= 2 * radius
  {
    if pass % 2 == 1 then 0 else 2 * radius
  }

  // What a pass is, without the arithmetic that makes it: every sample is the mean of its window rounded up, or down.

  ghost predicate RoundedUp(sum: nat, div: nat, v: nat) {
    (v - 1) * div < sum <= v * div
  }

  ghost predicate RoundedDown(sum: nat, div: nat, v: nat) {
    v * div <= sum < (v + 1) * div
  }

  ghost predicate IsPass(a: seq<Sample>, b: seq<Sample>, radius: nat, up: bool) {
    |a| == |b| > 0 && forall x | 0 <= x < |b| :: IsRounded(a, b, radius, up, x)
  }

  ghost predicate IsRounded(a: seq<Sample>, b: seq<Sample>, radius: nat, up: bool, x: nat)
    requires x < |a| == |b|
  {
    if up then RoundedUp(Window(a, x, radius), 2 * radius + 1, b[x] as nat)
    else RoundedDown(Window(a, x, radius), 2 * radius + 1, b[x] as nat)
  }

  // A row is made of another by so many passes: the first rounds up, the next down, and so on in turn.
  ghost predicate MadeBy(s: seq<Sample>, radius: nat, passes: nat, r: seq<Sample>) {
    if passes == 0 then r == s
    else exists before :: IsPassAt(passes, before, r, radius) && MadeBy(s, radius, passes - 1, before)
  }

  ghost predicate IsPassAt(passes: nat, a: seq<Sample>, b: seq<Sample>, radius: nat) {
    IsPass(a, b, radius, passes % 2 == 1)
  }

  lemma DivisionRounds(sum: nat, div: nat, v: nat)
    requires div > 0
    ensures v == (sum + (div - 1)) / div <==> RoundedUp(sum, div, v)
    ensures v == sum / div <==> RoundedDown(sum, div, v)
  {
    QuotientBounds(sum + (div - 1), div, v);
    QuotientBounds(sum, div, v);
    assert (v + 1) * div == (v - 1) * div + 2 * div && v * div == (v - 1) * div + div;
  }

  lemma QuotientBounds(n: nat, div: nat, v: nat)
    requires div > 0
    ensures v == n / div <==> v * div <= n < (v + 1) * div
  {
    var q := n / div;
    assert n == q * div + n % div;
    assert (q + 1) * div == q * div + div;
    if v < q { TimesGrows(v + 1, q, div); }
    if v > q { TimesGrows(q + 1, v, div); }
  }

  lemma PassIsBlur(a: seq<Sample>, b: seq<Sample>, radius: nat, up: bool)
    requires |a| > 0
    ensures IsPass(a, b, radius, up) <==> b == Blur(a, radius, if up then 2 * radius else 0)
  {
    var r := Blur(a, radius, if up then 2 * radius else 0);
    if |a| == |b| {
      forall x | 0 <= x < |a| ensures b[x] == r[x] <==> IsRounded(a, b, radius, up, x) {
        DivisionRounds(Window(a, x, radius), 2 * radius + 1, b[x] as nat);
      }
      if IsPass(a, b, radius, up) {
        forall x | 0 <= x < |a| ensures b[x] == r[x] {
          assert IsRounded(a, b, radius, up, x);
        }
      }
    }
  }

  lemma InTurn(radius: nat, passes: nat)
    requires passes > 0
    ensures Rounding(radius, passes - 1) == if passes % 2 == 1 then 2 * radius else 0
  {
  }

  lemma LastPass(s: seq<Sample>, radius: nat, passes: nat, r: seq<Sample>)
    requires |s| > 0 && passes > 0
    ensures IsPassAt(passes, Blurs(s, radius, passes - 1), r, radius) <==> r == Blurs(s, radius, passes)
  {
    var up := passes % 2 == 1;
    InTurn(radius, passes);
    assert Blurs(s, radius, passes) == Blur(Blurs(s, radius, passes - 1), radius, if up then 2 * radius else 0);
    PassIsBlur(Blurs(s, radius, passes - 1), r, radius, up);
  }

  /** The blur of several passes is what so many passes make, and nothing else is. */
  lemma {:induction false} BlursAreMade(s: seq<Sample>, radius: nat, passes: nat, r: seq<Sample>)
    requires |s| > 0
    ensures MadeBy(s, radius, passes, r) <==> r == Blurs(s, radius, passes)
  {
    if passes > 0 {
      LastPass(s, radius, passes, r);
      var n, before := passes - 1, Blurs(s, radius, passes - 1);
      BlursAreMade(s, radius, n, before);
      forall mid | MadeBy(s, radius, n, mid) ensures mid == before {
        BlursAreMade(s, radius, n, mid);
      }
      assert MadeBy(s, radius, passes, r) <==> IsPassAt(passes, before, r, radius);
    }
  }

  /** The pass after an even number of passes rounds up, and the pass after an odd number down. */
  lemma PassesRoundInTurn(s: seq<Sample>, radius: nat, passes: nat)
    requires |s| > 0
    ensures Blurs(s, radius, 0) == s
    ensures IsPass(Blurs(s, radius, passes), Blurs(s, radius, passes + 1), radius, passes % 2 == 0)
  {
    PassIsBlur(Blurs(s, radius, passes), Blurs(s, radius, passes + 1), radius, passes % 2 == 0);
  }

  // Sliding the window

  lemma {:induction false} SumSlides(s: seq<Sample>, from: int, n: nat)
    requires |s| > 0
    ensures SumFrom(s, from, n) + s[Clamp(from + n, |s|)] as nat == s[Clamp(from, |s|)] as nat + SumFrom(s, from + 1, n)
  {
    if n > 0 { SumSlides(s, from, n - 1); }
  }

  lemma {:induction false} SumSplit(s: seq<Sample>, from: int, n: nat, k: nat)
    requires |s| > 0
    ensures SumFrom(s, from, n + k) == SumFrom(s, from, n) + SumFrom(s, from + n, k)
  {
    if k > 0 { SumSplit(s, from, n, k - 1); }
  }

  // Left of the row the window sees the first sample again and again.
  lemma {:induction false} SumOutside(s: seq<Sample>, from: int, n: nat)
    requires |s| > 0 && from + n <= 1
    ensures SumFrom(s, from, n) == n * s[0] as nat
  {
    if n > 0 { SumOutside(s, from, n - 1); }
  }

  lemma SumFits(s: seq<Sample>, from: int, n: nat)
    requires |s| > 0 && n <= 2 * MAX_RADIUS + 1
    ensures SumFrom(s, from, n) + 2 * MAX_RADIUS < 0x1_0000_0000
  {
    SumBounds(s, from, n, 0, 0xffff);
  }

  // The row of a plane at an offset.
  function Row(a: seq<Sample>, at: nat, width: nat): (r: seq<Sample>)
    requires at + width <= |a|
    ensures |r| == width
  {
    a[at..at + width]
  }

  ghost predicate OnlyRowChanged(a: seq<Sample>, b: seq<Sample>, at: nat, width: nat) {
    |a| == |b| && forall i {:trigger a[i]} {:trigger b[i]} | 0 <= i < |a| && !(at <= i < at + width) :: a[i] == b[i]
  }

  function Min(a: int, b: int): int {
    if a < b then a else b
  }

  function Max(a: int, b: int): int {
    if a > b then a else b
  }

  // The pixels of a row written so far, the others as they were.
  ghost predicate Written(s: seq<Sample>, radius: nat, round: nat, before: seq<Sample>, after: seq<Sample>, d0: nat, n: nat)
    requires 0 < |s| && round <= 2 * radius
  {
    && |after| == |before| && d0 + |s| <= |before| && n <= |s|
    && (forall i {:trigger after[i]} {:trigger before[i]} | 0 <= i < |before| ::
          if d0 <= i < d0 + n then after[i] as nat == Pixel(s, i - d0, radius, round) else after[i] == before[i])
  }

  lemma WrittenAll(s: seq<Sample>, radius: nat, round: nat, before: seq<Sample>, after: seq<Sample>, d0: nat)
    requires 0 < |s| && round <= 2 * radius && Written(s, radius, round, before, after, d0, |s|)
    ensures Row(after, d0, |s|) == Blur(s, radius, round) && OnlyRowChanged(before, after, d0, |s|)
  {
    var r, b := Row(after, d0, |s|), Blur(s, radius, round);
    forall x | 0 <= x < |s| ensures r[x] == b[x] {
      assert r[x] == after[d0 + x];
    }
  }

  // Before pixel `x`: the accumulator holds the window without its last sample, and the pixels before `x` are written.
  ghost predicate Sliding(s: seq<Sample>, radius: nat, round: nat, before: seq<Sample>, after: seq<Sample>, d0: nat,
                          x: nat, acc: Accumulator)
    requires 0 < |s| && round <= 2 * radius
  {
    acc as nat == SumFrom(s, x - radius, 2 * radius) && Written(s, radius, round, before, after, d0, x)
  }

  lemma WindowSlides(s: seq<Sample>, x: int, radius: nat)
    requires |s| > 0 && radius <= MAX_RADIUS
    ensures Window(s, x, radius) == SumFrom(s, x - radius, 2 * radius) + s[Clamp(x + radius, |s|)] as nat
    ensures Window(s, x, radius) == SumFrom(s, x + 1 - radius, 2 * radius) + s[Clamp(x - radius, |s|)] as nat
    ensures Window(s, x, radius) + 2 * MAX_RADIUS < 0x1_0000_0000
  {
    SumFits(s, x - radius, 2 * radius + 1);
    SumSlides(s, x - radius, 2 * radius);
  }

  // One step at a pixel: the next sample enters, the pixel is written, the last sample leaves.
  method Slide(acc: Accumulator, src: array<Sample>, s0: nat, dst: array<Sample>, d0: nat, width: nat, radius: nat, round: nat,
               x: nat, enter: int, leave: int, ghost before: seq<Sample>) returns (next: Accumulator)
    requires 0 < width && s0 + width <= src.Length && d0 + width <= dst.Length && src != dst
    requires radius <= MAX_RADIUS && round <= 2 * radius && x < width
    requires enter == Clamp(x + radius, width) && leave == Clamp(x - radius, width)
    requires Sliding(Row(src[..], s0, width), radius, round, before, dst[..], d0, x, acc)
    modifies dst
    ensures Sliding(Row(src[..], s0, width), radius, round, before, dst[..], d0, x + 1, next)
  {
    ghost var s, was := Row(src[..], s0, width), dst[..];
    WindowSlides(s, x, radius);
    next := acc + src[s0 + enter] as Accumulator;
    PixelBetween(s, x, radius, round, 0, 0xffff);
    dst[d0 + x] := ((next + round as Accumulator) / (2 * radius + 1) as Accumulator) as Sample;
    assert dst[..] == was[d0 + x := Pixel(s, x, radius, round) as Sample];
    next := next - src[s0 + leave] as Accumulator;
  }

  method Repeated(sample: Sample, radius: nat) returns (acc: Accumulator)
    requires radius <= MAX_RADIUS
    ensures acc as nat == radius * sample as nat
  {
    ProductFits(radius, sample as nat);
    acc := radius as Accumulator * sample as Accumulator;
  }

  lemma ProductFits(radius: nat, sample: nat)
    requires radius <= MAX_RADIUS && sample < 0x1_0000
    ensures radius * sample < 0x1_0000_0000
  {
    assert radius * sample <= MAX_RADIUS * sample;
  }

  // The window before the first pixel.
  method FirstWindow(src: array<Sample>, s0: nat, width: nat, radius: nat) returns (acc: Accumulator)
    requires 0 < width && s0 + width <= src.Length && radius <= MAX_RADIUS
    ensures acc as nat == SumFrom(Row(src[..], s0, width), 0 - radius, 2 * radius)
  {
    ghost var s := Row(src[..], s0, width);
    SumOutside(s, 0 - radius, radius);
    acc := Repeated(src[s0], radius);
    for x := 0 to radius
      invariant acc as nat == SumFrom(s, 0 - radius, radius + x)
    {
      SumFits(s, 0 - radius, radius + x + 1);
      acc := acc + src[s0 + Min(x, width - 1)] as Accumulator;
    }
  }

  /** The blur of a row, by a sliding window: each pixel is written once, every index is inside of the row, and the
      accumulator does not wrap. */
  method BlurH(src: array<Sample>, s0: nat, dst: array<Sample>, d0: nat, width: nat, radius: nat, round: nat)
    requires 0 < width && s0 + width <= src.Length && d0 + width <= dst.Length && src != dst
    requires radius <= MAX_RADIUS && round <= 2 * radius
    modifies dst
    ensures Row(dst[..], d0, width) == Blur(Row(src[..], s0, width), radius, round)
    ensures OnlyRowChanged(old(dst[..]), dst[..], d0, width)
  {
    ghost var s, before := Row(src[..], s0, width), dst[..];
    var acc := FirstWindow(src, s0, width, radius);
    var x := 0;
    while x < Min(radius, width)
      invariant 0 <= x <= Min(radius, width) && src[..] == old(src[..])
      invariant Sliding(s, radius, round, before, dst[..], d0, x, acc)
    {
      acc := Slide(acc, src, s0, dst, d0, width, radius, round, x, Min(x + radius, width - 1), Max(x - radius, 0), before);
      x := x + 1;
    }
    if width > radius {
      while x < width - radius
        invariant radius <= x <= Max(width - radius, radius) && src[..] == old(src[..])
        invariant Sliding(s, radius, round, before, dst[..], d0, x, acc)
      {
        acc := Slide(acc, src, s0, dst, d0, width, radius, round, x, x + radius, x - radius, before);
        x := x + 1;
      }
      while x < width
        invariant Max(width - radius, radius) <= x <= width && src[..] == old(src[..])
        invariant Sliding(s, radius, round, before, dst[..], d0, x, acc)
      {
        acc := Slide(acc, src, s0, dst, d0, width, radius, round, x, Min(x + radius, width - 1), Max(x - radius, 0), before);
        x := x + 1;
      }
    }
    WrittenAll(s, radius, round, before, dst[..], d0);
  }

  // Radius one, in place

  // The window of three around a pixel.
  lemma WindowOfThree(s: seq<Sample>, x: nat)
    requires x < |s|
    ensures Window(s, x, 1) == s[Clamp(x - 1, |s|)] as nat + s[x] as nat + s[Clamp(x + 1, |s|)] as nat
    ensures Window(s, x, 1) + 2 < 0x1_0000_0000
  {
    assert SumFrom(s, x - 1, 3) == SumFrom(s, x - 1, 2) + s[Clamp(x + 1, |s|)] as nat;
    assert SumFrom(s, x - 1, 2) == SumFrom(s, x - 1, 1) + s[x] as nat;
    assert SumFrom(s, x - 1, 1) == SumFrom(s, x - 1, 0) + s[Clamp(x - 1, |s|)] as nat;
  }

  // The pixels before `x` are written. The others still hold the row when it is blurred in place.
  ghost predicate Begun(s: seq<Sample>, round: nat, before: seq<Sample>, src: seq<Sample>, s0: nat, dst: seq<Sample>, d0: nat, x: nat)
    requires 0 < |s| && round <= 2
  {
    && Written(s, 1, round, before, dst, d0, x) && s0 + |s| <= |src|
    && forall i {:trigger src[i]} | s0 + x <= i < s0 + |s| :: src[i] == s[i - s0]
  }

  // Writes a pixel from its window's sum.
  method Put(acc: Accumulator, src: array<Sample>, s0: nat, dst: array<Sample>, d0: nat, x: nat, round: nat,
             ghost s: seq<Sample>, ghost before: seq<Sample>)
    requires 0 < |s| && round <= 2 && x < |s| && (src == dst ==> s0 == d0)
    requires Begun(s, round, before, src[..], s0, dst[..], d0, x) && acc as nat == Window(s, x, 1)
    modifies dst
    ensures Begun(s, round, before, src[..], s0, dst[..], d0, x + 1)
  {
    ghost var was := dst[..];
    WindowOfThree(s, x);
    PixelBetween(s, x, 1, round, 0, 0xffff);
    dst[d0 + x] := ((acc + round as Accumulator) / 3) as Sample;
    assert dst[..] == was[d0 + x := Pixel(s, x, 1, round) as Sample];
  }

  // Before pixel `x`: the accumulator holds the two samples before its window's last, kept aside as well.
  ghost predicate Carried(s: seq<Sample>, x: nat, acc: Accumulator, tmp0: Accumulator, tmp1: Accumulator)
    requires 0 < x < |s|
  {
    tmp0 as nat == s[x] as nat && tmp1 as nat == s[x - 1] as nat && acc as nat == s[x - 1] as nat + s[x] as nat
  }

  // Two pixels in the middle of the row.
  method TwoPixels(src: array<Sample>, s0: nat, dst: array<Sample>, d0: nat, x: nat, round: nat, acc: Accumulator,
                   tmp0: Accumulator, tmp1: Accumulator, ghost s: seq<Sample>, ghost before: seq<Sample>)
    returns (next: Accumulator, next0: Accumulator, next1: Accumulator)
    requires round <= 2 && 0 < x && x + 2 < |s| && (src == dst ==> s0 == d0)
    requires Begun(s, round, before, src[..], s0, dst[..], d0, x) && Carried(s, x, acc, tmp0, tmp1)
    modifies dst
    ensures Begun(s, round, before, src[..], s0, dst[..], d0, x + 2) && Carried(s, x + 2, next, next0, next1)
  {
    WindowOfThree(s, x);
    WindowOfThree(s, x + 1);
    next1 := src[s0 + x + 1] as Accumulator;
    next := acc + next1;
    Put(next, src, s0, dst, d0, x, round, s, before);
    next := next - tmp1;
    next0 := src[s0 + x + 2] as Accumulator;
    next := next + next0;
    Put(next, src, s0, dst, d0, x + 1, round, s, before);
    next := next - tmp0;
  }

  // The first two pixels of the row.
  method FirstPixels(src: array<Sample>, s0: nat, dst: array<Sample>, d0: nat, width: nat, round: nat)
    returns (acc: Accumulator, tmp0: Accumulator, tmp1: Accumulator)
    requires 3 <= width && s0 + width <= src.Length && d0 + width <= dst.Length && round <= 2 && (src == dst ==> s0 == d0)
    modifies dst
    ensures Begun(Row(old(src[..]), s0, width), round, old(dst[..]), src[..], s0, dst[..], d0, 2)
    ensures Carried(Row(old(src[..]), s0, width), 2, acc, tmp0, tmp1)
  {
    ghost var s, before := Row(src[..], s0, width), dst[..];
    WindowOfThree(s, 0);
    WindowOfThree(s, 1);
    tmp0, tmp1 := src[s0] as Accumulator, src[s0 + 1] as Accumulator;
    acc := tmp0 * 2 + tmp1;
    Put(acc, src, s0, dst, d0, 0, round, s, before);
    acc := acc - tmp0;
    var v := src[s0 + 2] as Accumulator;
    acc := acc + v;
    Put(acc, src, s0, dst, d0, 1, round, s, before);
    acc := acc - tmp0;
    tmp0 := v;
  }

  // The last pixel of a row of odd width, or the last two.
  method LastPixels(src: array<Sample>, s0: nat, dst: array<Sample>, d0: nat, width: nat, round: nat, first: Accumulator,
                    tmp0: Accumulator, tmp1: Accumulator, ghost s: seq<Sample>, ghost before: seq<Sample>)
    requires 3 <= width == |s| && round <= 2 && (src == dst ==> s0 == d0)
    requires var x := if width % 2 == 1 then width - 1 else width - 2;
             Begun(s, round, before, src[..], s0, dst[..], d0, x) && Carried(s, x, first, tmp0, tmp1)
    modifies dst
    ensures Written(s, 1, round, before, dst[..], d0, width)
  {
    var acc := first;
    WindowOfThree(s, width - 1);
    if width % 2 == 1 {
      acc := acc + tmp0;
      Put(acc, src, s0, dst, d0, width - 1, round, s, before);
    } else {
      WindowOfThree(s, width - 2);
      var v := src[s0 + width - 1] as Accumulator;
      acc := acc + v;
      Put(acc, src, s0, dst, d0, width - 2, round, s, before);
      acc := acc - tmp1;
      acc := acc + v;
      Put(acc, src, s0, dst, d0, width - 1, round, s, before);
    }
  }

  /** The blur of radius one, two pixels at a time. It may write over the row it reads, and gives what the general blur
      gives on an untouched copy. */
  method BlurHR1(src: array<Sample>, s0: nat, dst: array<Sample>, d0: nat, width: nat, round: nat)
    requires 3 <= width && s0 + width <= src.Length && d0 + width <= dst.Length && round <= 2 && (src == dst ==> s0 == d0)
    modifies dst
    ensures Row(dst[..], d0, width) == Blur(Row(old(src[..]), s0, width), 1, round)
    ensures OnlyRowChanged(old(dst[..]), dst[..], d0, width)
  {
    ghost var s, before := Row(src[..], s0, width), dst[..];
    var acc, tmp0, tmp1 := FirstPixels(src, s0, dst, d0, width, round);
    var x := 2;
    while x < width - 2
      invariant 2 <= x < width && x % 2 == 0
      invariant Begun(s, round, before, src[..], s0, dst[..], d0, x) && Carried(s, x, acc, tmp0, tmp1)
    {
      acc, tmp0, tmp1 := TwoPixels(src, s0, dst, d0, x, round, acc, tmp0, tmp1, s, before);
      x := x + 2;
    }
    LastPixels(src, s0, dst, d0, width, round, acc, tmp0, tmp1, s, before);
    WrittenAll(s, 1, round, before, dst[..], d0);
  }

  // The planes

  function At(row: nat, stride: nat): nat {
    row * stride
  }

  ghost predicate Unchanged(a: seq<Sample>, b: seq<Sample>, from: nat, to: nat) {
    |a| == |b| && forall i {:trigger a[i]} {:trigger b[i]} | from <= i < to && i < |a| :: a[i] == b[i]
  }

  // The first `n` rows of a plane are blurred, and the padding after each of them and the other rows are as they were.
  ghost predicate RowsBlurred(src: seq<Sample>, before: seq<Sample>, after: seq<Sample>, stride: nat, width: nat,
                              radius: nat, passes: nat, n: nat)
    requires 0 < width <= stride
  {
    && (forall row {:trigger At(row, stride)} | 0 <= row < n :: RowBlurred(src, before, after, stride, width, radius, passes, row))
    && Unchanged(before, after, At(n, stride), |after|)
  }

  ghost predicate RowBlurred(src: seq<Sample>, before: seq<Sample>, after: seq<Sample>, stride: nat, width: nat,
                             radius: nat, passes: nat, row: nat)
    requires 0 < width <= stride
  {
    var at := At(row, stride);
    && at + width <= |src| && at + width <= |after|
    && MadeBy(Row(src, at, width), radius, passes, Row(after, at, width))
    && Unchanged(before, after, at + width, at + stride)
  }

  lemma RowsApart(a: nat, b: nat, stride: nat, width: nat)
    requires a < b && width <= stride
    ensures At(a, stride) + width <= At(b, stride)
  {
    assert (a + 1) * stride <= b * stride;
  }

  lemma OneRowMore(src: seq<Sample>, before: seq<Sample>, mid: seq<Sample>, after: seq<Sample>, stride: nat, width: nat,
                   radius: nat, passes: nat, n: nat)
    requires 0 < width <= stride && RowsBlurred(src, before, mid, stride, width, radius, passes, n)
    requires At(n, stride) + width <= |src| && At(n, stride) + width <= |after| && OnlyRowChanged(mid, after, At(n, stride), width)
    requires Row(after, At(n, stride), width) == Blurs(Row(src, At(n, stride), width), radius, passes)
    ensures RowsBlurred(src, before, after, stride, width, radius, passes, n + 1)
  {
    RowsApart(n, n + 1, stride, stride);
    var at := At(n, stride);
    BlursAreMade(Row(src, at, width), radius, passes, Row(after, at, width));
    StillUnchanged(before, mid, after, at, width, at, |after|, at + width, at + stride);
    StillUnchanged(before, mid, after, at, width, at, |after|, At(n + 1, stride), |after|);
    forall row | 0 <= row < n + 1 ensures RowBlurred(src, before, after, stride, width, radius, passes, row) {
      if row < n {
        assert RowBlurred(src, before, mid, stride, width, radius, passes, row);
        RowsApart(row, n, stride, stride);
        OtherRow(mid, after, at, width, At(row, stride));
        var from, to := At(row, stride) + width, At(row, stride) + stride;
        StillUnchanged(before, mid, after, at, width, from, to, from, to);
      }
    }
  }

  // Changing one row leaves other parts unchanged.
  lemma StillUnchanged(before: seq<Sample>, mid: seq<Sample>, after: seq<Sample>, at: nat, width: nat,
                       from: nat, to: nat, from2: nat, to2: nat)
    requires Unchanged(before, mid, from, to) && OnlyRowChanged(mid, after, at, width)
    requires from <= from2 && (to2 <= to || |mid| <= to) && (to2 <= at || at + width <= from2)
    ensures Unchanged(before, after, from2, to2)
  {
    forall i | from2 <= i < to2 && i < |before| ensures before[i] == after[i] {
      assert before[i] == mid[i];
    }
  }

  lemma OtherRow(mid: seq<Sample>, after: seq<Sample>, at: nat, width: nat, other: nat)
    requires OnlyRowChanged(mid, after, at, width) && other + width <= at && other + width <= |mid|
    ensures Row(after, other, width) == Row(mid, other, width)
  {
    var a, b := Row(after, other, width), Row(mid, other, width);
    forall x | 0 <= x < width ensures a[x] == b[x] {
      assert a[x] == after[other + x] && b[x] == mid[other + x];
    }
  }

  // All passes over a row. The result of each goes to one of two buffers in turn, the last of them to `dst`.
  method BlurRow(src: array<Sample>, at: nat, dst: array<Sample>, width: nat, passes: nat, radius: nat, tmp: array<Sample>)
    requires 0 < width && at + width <= src.Length && at + width <= dst.Length && 0 < passes && radius <= MAX_RADIUS
    requires src != dst && dst != tmp && src != tmp && (passes > 1 ==> width <= tmp.Length)
    modifies dst, tmp
    ensures Row(dst[..], at, width) == Blurs(Row(src[..], at, width), radius, passes)
    ensures OnlyRowChanged(old(dst[..]), dst[..], at, width)
  {
    ghost var s := Row(src[..], at, width);
    FirstBlur(s, radius);
    if passes % 2 == 1 {
      BlurH(src, at, dst, at, width, radius, Rounding(radius, 0));
      ghost var mid := dst[..];
      if passes > 1 {
        MorePasses(dst, at, tmp, 0, width, radius, passes, s);
      }
    } else {
      BlurH(src, at, tmp, 0, width, radius, Rounding(radius, 0));
      MorePasses(tmp, 0, dst, at, width, radius, passes, s);
    }
  }

  // The passes after the first, between two buffers. An odd number of passes ends in the first of them.
  method MorePasses(first: array<Sample>, a1: nat, second: array<Sample>, a2: nat, width: nat, radius: nat, passes: nat,
                    ghost s: seq<Sample>)
    requires 0 < width == |s| && a1 + width <= first.Length && a2 + width <= second.Length && first != second
    requires radius <= MAX_RADIUS && 0 < passes && Row(first[..], a1, width) == Blurs(s, radius, 1)
    modifies first, second
    ensures if passes % 2 == 1 then Row(first[..], a1, width) == Blurs(s, radius, passes)
            else Row(second[..], a2, width) == Blurs(s, radius, passes)
    ensures OnlyRowChanged(old(first[..]), first[..], a1, width) && OnlyRowChanged(old(second[..]), second[..], a2, width)
  {
    var dst1, at1, dst2, at2 := first, a1, second, a2;
    ghost var odd := true;
    for p := 1 to passes
      invariant odd == (p % 2 == 1)
      invariant if odd then dst1 == first && at1 == a1 && dst2 == second && at2 == a2
                else dst1 == second && at1 == a2 && dst2 == first && at2 == a1
      invariant at1 + width <= dst1.Length && Row(dst1[..], at1, width) == Blurs(s, radius, p)
      invariant OnlyRowChanged(old(first[..]), first[..], a1, width)
      invariant OnlyRowChanged(old(second[..]), second[..], a2, width)
    {
      AnotherPass(dst1, at1, dst2, at2, width, radius, p, s);
      dst1, at1, dst2, at2 := dst2, at2, dst1, at1;
      odd := !odd;
    }
  }

  method AnotherPass(src: array<Sample>, s0: nat, dst: array<Sample>, d0: nat, width: nat, radius: nat, pass: nat,
                     ghost s: seq<Sample>)
    requires 0 < width == |s| && s0 + width <= src.Length && d0 + width <= dst.Length && src != dst && radius <= MAX_RADIUS
    requires Row(src[..], s0, width) == Blurs(s, radius, pass)
    modifies dst
    ensures Row(dst[..], d0, width) == Blurs(s, radius, pass + 1) && OnlyRowChanged(old(dst[..]), dst[..], d0, width)
  {
    BlurH(src, s0, dst, d0, width, radius, Rounding(radius, pass));
  }

  lemma FirstBlur(s: seq<Sample>, radius: nat)
    requires |s| > 0
    ensures Blurs(s, radius, 1) == Blur(s, radius, Rounding(radius, 0))
  {
    assert Blurs(s, radius, 0) == s;
  }

  /** A plane: every row ends blurred by all passes in `dst`, whichever buffer the passes started in, and nothing else
      of `dst` changes. */
  method ProcessPlane(src: array<Sample>, dst: array<Sample>, stride: nat, width: nat, height: nat, passes: nat, radius: nat,
                      tmp: array<Sample>)
    requires 0 < width <= stride && 0 < passes && radius <= MAX_RADIUS
    requires At(height, stride) <= src.Length && At(height, stride) <= dst.Length
    requires src != dst && dst != tmp && src != tmp && (passes > 1 ==> width <= tmp.Length)
    modifies dst, tmp
    ensures RowsBlurred(src[..], old(dst[..]), dst[..], stride, width, radius, passes, height)
  {
    ghost var before := dst[..];
    var at := 0;
    for h := 0 to height
      invariant at == At(h, stride) && src[..] == old(src[..])
      invariant RowsBlurred(src[..], before, dst[..], stride, width, radius, passes, h)
    {
      ghost var mid := dst[..];
      RowFits(h, height, stride);
      BlurRow(src, at, dst, width, passes, radius, tmp);
      OneRowMore(src[..], before, mid, dst[..], stride, width, radius, passes, h);
      at := at + stride;
    }
  }

  lemma RowFits(h: nat, height: nat, stride: nat)
    requires h < height
    ensures At(h, stride) + stride == At(h + 1, stride) <= At(height, stride)
  {
    assert (h + 1) * stride <= height * stride;
  }

  /** A plane of radius one: the first pass goes from `src` to `dst`, the others are made in place. */
  method ProcessPlaneR1(src: array<Sample>, dst: array<Sample>, stride: nat, width: nat, height: nat, passes: nat)
    requires 3 <= width <= stride && 0 < passes
    requires At(height, stride) <= src.Length && At(height, stride) <= dst.Length && src != dst
    modifies dst
    ensures RowsBlurred(src[..], old(dst[..]), dst[..], stride, width, 1, passes, height)
  {
    ghost var before := dst[..];
    var at := 0;
    for h := 0 to height
      invariant at == At(h, stride) && src[..] == old(src[..])
      invariant RowsBlurred(src[..], before, dst[..], stride, width, 1, passes, h)
    {
      ghost var mid := dst[..];
      RowFits(h, height, stride);
      BlurRowR1(src, at, dst, width, passes);
      OneRowMore(src[..], before, mid, dst[..], stride, width, 1, passes, h);
      at := at + stride;
    }
  }

  method BlurRowR1(src: array<Sample>, at: nat, dst: array<Sample>, width: nat, passes: nat)
    requires 3 <= width && at + width <= src.Length && at + width <= dst.Length && 0 < passes && src != dst
    modifies dst
    ensures Row(dst[..], at, width) == Blurs(Row(src[..], at, width), 1, passes)
    ensures OnlyRowChanged(old(dst[..]), dst[..], at, width)
  {
    ghost var s, before := Row(src[..], at, width), dst[..];
    BlurHR1(src, at, dst, at, width, 2);
    assert Blurs(s, 1, 0) == s;
    for p := 1 to passes
      invariant Row(dst[..], at, width) == Blurs(s, 1, p) && OnlyRowChanged(before, dst[..], at, width)
    {
      BlurHR1(dst, at, dst, at, width, Rounding(1, p));
    }
  }
}
