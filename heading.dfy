/** Angle arithmetic of the Qibla compass, on exact reals: JavaScript's `% 360`,
    the shortest signed turn used by smoothHeading, the circular distance of the
    jitter gate, the relative direction of the Qibla arrow, and the moving average
    of the last readings. */
module Heading {

  const FullTurn: real := 360.0
  const HalfTurn: real := 180.0

  /** A heading in [0, 360). */
  predicate IsBearing(x: real) { 0.0 <= x < FullTurn }

  /** A raw reading in [0, 360]: `360 - alpha` reaches 360 when alpha is 0. */
  predicate IsReading(x: real) { 0.0 <= x <= FullTurn }

  function Abs(x: real): (r: real)
    ensures r >= 0.0 && (r == x || r == -x)
  {
    if x < 0.0 then -x else x
  }

  function Min(a: real, b: real): (r: real)
    ensures r <= a && r <= b && (r == a || r == b)
  {
    if a <= b then a else b
  }

  /** JavaScript's `x % 360`: the remainder of truncating division, so it has the
      sign of `x`; on the ranges that occur it subtracts whole turns. */
  function Rem360(x: real): (r: real)
    ensures x >= 0.0 ==> IsBearing(r)
    ensures x < 0.0 ==> -FullTurn < r <= 0.0
    ensures 0.0 <= x < FullTurn ==> r == x
    ensures FullTurn <= x < 2.0 * FullTurn ==> r == x - FullTurn
    ensures 2.0 * FullTurn <= x < 3.0 * FullTurn ==> r == x - 2.0 * FullTurn
  {
    if x >= 0.0 then x - FullTurn * (x / FullTurn).Floor as real
    else -((-x) - FullTurn * ((-x) / FullTurn).Floor as real)
  }

  /** Lines 11-13 of smoothHeading: `target - current`, brought into [-180, 180]
      by at most one correction of a whole turn. */
  function ShortestDiff(current: real, target: real): (d: real)
    ensures IsBearing(current) && IsReading(target) ==> -HalfTurn <= d <= HalfTurn
    ensures d == target - current || d == target - current - FullTurn || d == target - current + FullTurn
    ensures -HalfTurn <= target - current <= HalfTurn ==> d == target - current
  {
    var diff := target - current;
    var diff' := if diff > HalfTurn then diff - FullTurn else diff;
    if diff' < -HalfTurn then diff' + FullTurn else diff'
  }

  /** smoothHeading: one proportional step of `factor` along the shorter arc from
      `current` towards `target`, normalised back into [0, 360). */
  function SmoothHeading(current: real, target: real, factor: real): (r: real)
    ensures IsBearing(current) && IsReading(target) && 0.0 <= factor <= 1.0 ==> IsBearing(r)
    ensures IsBearing(current) && current == target ==> r == current
    ensures IsBearing(current) && factor == 0.0 ==> r == current
    ensures IsBearing(current) && IsBearing(target) && factor == 1.0 ==> r == target
  {
    Rem360(current + Scaled(ShortestDiff(current, target), factor) + FullTurn)
  }

  /** `diff * smoothingFactor`: a fraction in [0, 1] of a turn lies between no turn
      and the whole turn, on the same side. */
  function Scaled(d: real, factor: real): (s: real)
    ensures 0.0 <= factor <= 1.0 && d >= 0.0 ==> 0.0 <= s <= d
    ensures 0.0 <= factor <= 1.0 && d < 0.0 ==> d <= s <= 0.0
    ensures factor == 0.0 ==> s == 0.0
    ensures factor == 1.0 ==> s == d
  {
    ProductWithinTurn(d, factor);
    d * factor
  }

  lemma ProductWithinTurn(d: real, factor: real)
    ensures 0.0 <= factor <= 1.0 && d >= 0.0 ==> 0.0 <= d * factor <= d
    ensures 0.0 <= factor <= 1.0 && d < 0.0 ==> d <= d * factor <= 0.0
    ensures factor == 0.0 ==> d * factor == 0.0
    ensures factor == 1.0 ==> d * factor == d
  {
    if factor == 0.0 || factor == 1.0 {
    } else if !(0.0 <= factor <= 1.0) {
    } else if d >= 0.0 {
      assert d * factor <= d * 1.0;
    } else {
      assert (-d) * factor <= (-d) * 1.0;
    }
  }

  /** `Math.min(diff, 360 - diff)` for `diff = |a - b|`: how far apart two headings
      are around the circle. */
  function NormalizedDiff(a: real, b: real): (n: real)
    ensures IsReading(a) && IsReading(b) ==> 0.0 <= n <= HalfTurn
    ensures a == b ==> n == 0.0
  {
    var diff := Abs(a - b);
    Min(diff, FullTurn - diff)
  }

  lemma NormalizedDiffSymmetric(a: real, b: real)
    ensures NormalizedDiff(a, b) == NormalizedDiff(b, a)
  {
  }

  /** Two headings whose difference is `e` up to a whole turn, with `|e|` at most
      half a turn, are `|e|` apart. */
  lemma NormalizedDiffOfOffset(a: real, b: real, e: real)
    requires -FullTurn <= b - a <= FullTurn
    requires -HalfTurn <= e <= HalfTurn
    requires b - a == e || b - a == e + FullTurn || b - a == e - FullTurn
    ensures NormalizedDiff(a, b) == Abs(e)
  {
  }

  /** The jitter gate's distance is the size of smoothHeading's shortest turn. */
  lemma NormalizedDiffIsShortestTurn(current: real, target: real)
    requires IsBearing(current) && IsReading(target)
    ensures NormalizedDiff(current, target) == Abs(ShortestDiff(current, target))
  {
    var d := ShortestDiff(current, target);
    NormalizedDiffOfOffset(current, target, d);
  }

  /** Each smoothing step closes the fraction `factor` of the circular distance to
      the target, moving along the shorter arc; `SmoothHeadingKeepsSide` adds that
      it stays on the same side. */
  lemma SmoothHeadingClosesDistance(current: real, target: real, factor: real)
    requires IsBearing(current) && IsReading(target) && 0.0 <= factor <= 1.0
    ensures NormalizedDiff(SmoothHeading(current, target, factor), target)
            == NormalizedDiff(current, target) - Scaled(NormalizedDiff(current, target), factor)
  {
    var d := ShortestDiff(current, target);
    var left := Abs(d - Scaled(d, factor));
    assert NormalizedDiff(SmoothHeading(current, target, factor), target) == left by {
      SmoothHeadingDistanceLeft(current, target, factor);
    }
    assert NormalizedDiff(current, target) == Abs(d) by {
      NormalizedDiffIsShortestTurn(current, target);
    }
    assert left == Abs(d) - Scaled(Abs(d), factor) by {
      RemainderOfScaled(d, factor);
      ProductWithinTurn(Abs(d), factor);
      assert Scaled(Abs(d), factor) == Abs(d) * factor;
      assert (1.0 - factor) * Abs(d) == Abs(d) - Abs(d) * factor;
    }
  }

  /** The step never overshoots: what is left between the smoothed heading and the
      target is the fraction `1 - factor` of the shortest turn, on the same side,
      up to a whole turn. */
  lemma SmoothHeadingKeepsSide(current: real, target: real, factor: real)
    requires IsBearing(current) && IsReading(target) && 0.0 <= factor <= 1.0
    ensures var d := ShortestDiff(current, target);
            var left := target - SmoothHeading(current, target, factor);
            left == (1.0 - factor) * d || left == (1.0 - factor) * d + FullTurn ||
            left == (1.0 - factor) * d - FullTurn
  {
    var d := ShortestDiff(current, target);
    SmoothHeadingOffset(current, target, factor);
    ScaledLeavesRest(d, factor);
  }

  /** After the step, the target lies the rest `d - step` of the shortest turn `d`
      away, up to a whole turn. */
  lemma SmoothHeadingOffset(current: real, target: real, factor: real)
    requires IsBearing(current) && IsReading(target) && 0.0 <= factor <= 1.0
    ensures var d := ShortestDiff(current, target);
            var rest := d - Scaled(d, factor);
            var left := target - SmoothHeading(current, target, factor);
            left == rest || left == rest + FullTurn || left == rest - FullTurn
  {
    var d := ShortestDiff(current, target);
    var step := Scaled(d, factor);
    Rem360WithinThreeTurns(current + step + FullTurn);
    RemainingOffset(current, target, d, step, SmoothHeading(current, target, factor));
  }

  lemma ScaledLeavesRest(d: real, factor: real)
    ensures d - Scaled(d, factor) == (1.0 - factor) * d
  {
  }

  /** After the step, the target is the rest of the shortest turn away. */
  lemma SmoothHeadingDistanceLeft(current: real, target: real, factor: real)
    requires IsBearing(current) && IsReading(target) && 0.0 <= factor <= 1.0
    ensures var d := ShortestDiff(current, target);
            NormalizedDiff(SmoothHeading(current, target, factor), target) == Abs(d - Scaled(d, factor))
  {
    var d := ShortestDiff(current, target);
    var step := Scaled(d, factor);
    var r := SmoothHeading(current, target, factor);
    Rem360WithinThreeTurns(current + step + FullTurn);
    RemainingOffset(current, target, d, step, r);
    NormalizedDiffOfOffset(r, target, d - step);
  }

  /** What is left of the turn `d` after a step `s` towards it, up to whole turns. */
  lemma RemainingOffset(current: real, target: real, d: real, s: real, r: real)
    requires IsBearing(current) && IsReading(target) && IsBearing(r)
    requires -HalfTurn <= d <= HalfTurn
    requires (0.0 <= s <= d) || (d <= s <= 0.0)
    requires d == target - current || d == target - current - FullTurn || d == target - current + FullTurn
    requires r == current + s + FullTurn || r == current + s || r == current + s - FullTurn
    ensures -HalfTurn <= d - s <= HalfTurn
    ensures target - r == d - s || target - r == d - s + FullTurn || target - r == d - s - FullTurn
  {
  }

  /** The part of a turn left after the step is the fraction `1 - factor` of it. */
  lemma RemainderOfScaled(d: real, factor: real)
    requires 0.0 <= factor <= 1.0
    ensures Abs(d - Scaled(d, factor)) == (1.0 - factor) * Abs(d)
  {
    assert d - Scaled(d, factor) == (1.0 - factor) * d;
    if d < 0.0 {
      assert (1.0 - factor) * (-d) == -((1.0 - factor) * d);
      assert (1.0 - factor) * (-d) >= 0.0;
    } else {
      assert (1.0 - factor) * d >= 0.0;
    }
  }

  lemma Rem360WithinThreeTurns(x: real)
    requires 0.0 <= x < 3.0 * FullTurn
    ensures Rem360(x) == x || Rem360(x) == x - FullTurn || Rem360(x) == x - 2.0 * FullTurn
  {
  }

  /** `(qiblaDirection - compassHeading + 360) % 360`: the angle by which the arrow
      is turned on the dial. */
  function RelativeDirection(qibla: real, heading: real): (r: real)
    ensures IsBearing(qibla) && IsBearing(heading) ==> IsBearing(r)
    ensures IsBearing(qibla) && IsBearing(heading) ==>
              heading + r == qibla || heading + r == qibla + FullTurn
    ensures IsBearing(heading) && qibla == heading ==> r == 0.0
  {
    Rem360(qibla - heading + FullTurn)
  }

  // ---------------------------------------------------------------------------
  // moving average

  /** `s.reduce((sum, h) => sum + h, 0)`, folding from the left. */
  function Sum(s: seq<real>): real
  {
    if s == [] then 0.0 else Sum(s[..|s| - 1]) + s[|s| - 1]
  }

  /** The window's mean `Sum(s) / s.length`. */
  function Mean(s: seq<real>): real
    requires |s| > 0
  {
    Sum(s) / |s| as real
  }

  function SeqMin(s: seq<real>): (m: real)
    requires |s| > 0
    ensures m in s && forall i :: 0 <= i < |s| ==> m <= s[i]
  {
    if |s| == 1 then s[0] else Min(s[0], SeqMin(s[1..]))
  }

  function SeqMax(s: seq<real>): (m: real)
    requires |s| > 0
    ensures m in s && forall i :: 0 <= i < |s| ==> s[i] <= m
  {
    if |s| == 1 then s[0]
    else var rest := SeqMax(s[1..]); if s[0] >= rest then s[0] else rest
  }

  lemma {:induction false} SumBounds(s: seq<real>, lo: real, hi: real)
    requires forall i :: 0 <= i < |s| ==> lo <= s[i] <= hi
    ensures |s| as real * lo <= Sum(s) <= |s| as real * hi
  {
    if s != [] {
      SumBounds(s[..|s| - 1], lo, hi);
    }
  }

  /** The mean of readings that all lie in [lo, hi] lies in [lo, hi]. */
  lemma MeanWithin(s: seq<real>, lo: real, hi: real)
    requires |s| > 0
    requires forall i :: 0 <= i < |s| ==> lo <= s[i] <= hi
    ensures lo <= Mean(s) <= hi
  {
    SumBounds(s, lo, hi);
    var n := |s| as real;
    assert Sum(s) == Mean(s) * n;
    assert lo * n <= Mean(s) * n <= hi * n;
    assert (Mean(s) - lo) * n >= 0.0 && (hi - Mean(s)) * n >= 0.0;
  }

  /** The moving average lies between the window's smallest and largest reading. */
  lemma MeanBetweenMinAndMax(s: seq<real>)
    requires |s| > 0
    ensures SeqMin(s) <= Mean(s) <= SeqMax(s)
  {
    MeanWithin(s, SeqMin(s), SeqMax(s));
  }

  /** The mean is taken on the raw numbers, with no unwrapping at north: readings
      around 0/360 average to a heading pointing south-east. */
  lemma MeanAcrossNorth()
    ensures Mean([359.0, 1.0, 2.0, 358.0, 0.0]) == 144.0
  {
    var w := [359.0, 1.0, 2.0, 358.0, 0.0];
    assert [359.0][..0] == [];
    assert Sum([359.0]) == 359.0;
    assert [359.0, 1.0][..1] == [359.0];
    assert Sum([359.0, 1.0]) == 360.0;
    assert [359.0, 1.0, 2.0][..2] == [359.0, 1.0];
    assert Sum([359.0, 1.0, 2.0]) == 362.0;
    assert [359.0, 1.0, 2.0, 358.0][..3] == [359.0, 1.0, 2.0];
    assert Sum([359.0, 1.0, 2.0, 358.0]) == 720.0;
    assert w[..4] == [359.0, 1.0, 2.0, 358.0];
    assert Sum(w) == 720.0;
  }

  /** The accumulation of line 141, over the window in arrival order. */
  method MovingAverage(window: seq<real>) returns (avg: real)
    requires |window| > 0
    ensures avg == Mean(window)
  {
    var sum := 0.0;
    var i := 0;
    while i < |window|
      invariant 0 <= i <= |window|
      invariant sum == Sum(window[..i])
    {
      assert window[..i + 1][..i] == window[..i];
      sum := sum + window[i];
      i := i + 1;
    }
    assert window[..i] == window;
    avg := sum / |window| as real;
  }
}
