/** numpy's default percentile (`np.percentile(a, p)`, method "linear",
    Hyndman and Fan definition 7): sort the sample, take the fractional rank
    h = (n - 1) * p / 100 and interpolate linearly between the order
    statistics at floor(h) and floor(h) + 1 (the upper index clipped to the
    last element). */
module Percentiles {
  import opened Outcomes
  import opened Stats

  /** The fractional rank h = (n - 1) * p / 100 of percentile `p` in a
      sample of `n` values. */
  function Rank(n: nat, p: real): (h: real)
    requires n > 0 && 0.0 <= p <= 100.0
    ensures 0.0 <= h <= (n - 1) as real
  {
    RankBounds((n - 1) as real, p);
    (n - 1) as real * p / 100.0
  }

  lemma RankBounds(m: real, p: real)
    requires m >= 0.0 && 0.0 <= p <= 100.0
    ensures 0.0 <= m * p / 100.0 <= m
  {
    assert m * p <= m * 100.0 by { assert m * (100.0 - p) >= 0.0; }
  }

  /** Linear interpolation between the two order statistics around the
      fractional rank; the value lies between the smallest and the largest
      element of the sorted sample. */
  function LinearPercentile(s: seq<real>, p: real): (r: real)
    requires Sorted(s) && |s| > 0 && 0.0 <= p <= 100.0
    ensures s[0] <= r <= s[|s| - 1]
  {
    var h := Rank(|s|, p);
    var i := h.Floor;
    SegmentBounds(s, p);
    Interpolate(s, i, h - i as real)
  }

  /** The point a fraction `g` of the way from order statistic `i` to the
      next one; numpy clips the next index to the last element. */
  function Interpolate(s: seq<real>, i: int, g: real): real
    requires 0 <= i < |s|
  {
    if i + 1 < |s| then s[i] + g * (s[i + 1] - s[i]) else s[i]
  }

  /** floor(h) is an index of the sample, the interpolation weight lies in
      [0, 1), and the interpolated value lies between the order statistic at
      floor(h) and the next one. */
  lemma SegmentBounds(s: seq<real>, p: real)
    requires Sorted(s) && |s| > 0 && 0.0 <= p <= 100.0
    ensures 0 <= Rank(|s|, p).Floor < |s|
    ensures var i := Rank(|s|, p).Floor;
            var g := Rank(|s|, p) - i as real;
            && 0.0 <= g < 1.0
            && s[i] <= Interpolate(s, i, g)
            && (i + 1 < |s| ==> Interpolate(s, i, g) <= s[i + 1])
  {
    var h := Rank(|s|, p);
    var i := h.Floor;
    var g := h - i as real;
    assert i as real <= h < i as real + 1.0;
    if i + 1 < |s| {
      SameSegment(s[i], s[i + 1], 0.0, g);
      SameSegment(s[i], s[i + 1], g, 1.0);
    }
  }

  /** Percentile 0 is the smallest element and percentile 100 the largest. */
  lemma LinearPercentileEnds(s: seq<real>)
    requires Sorted(s) && |s| > 0
    ensures LinearPercentile(s, 0.0) == s[0]
    ensures LinearPercentile(s, 100.0) == s[|s| - 1]
  {
    assert Rank(|s|, 0.0) == 0.0;
    assert Rank(|s|, 100.0) == (|s| - 1) as real;
  }

  /** The interpolated percentile is monotone in `p`. */
  lemma LinearPercentileMonotone(s: seq<real>, p1: real, p2: real)
    requires Sorted(s) && |s| > 0
    requires 0.0 <= p1 <= p2 <= 100.0
    ensures LinearPercentile(s, p1) <= LinearPercentile(s, p2)
  {
    var n := |s|;
    RankMonotone(n, p1, p2);
    SegmentBounds(s, p1);
    SegmentBounds(s, p2);
    var h1, h2 := Rank(n, p1), Rank(n, p2);
    var i1, i2 := h1.Floor, h2.Floor;
    var g1, g2 := h1 - i1 as real, h2 - i2 as real;
    assert LinearPercentile(s, p1) == Interpolate(s, i1, g1);
    assert LinearPercentile(s, p2) == Interpolate(s, i2, g2);
    if i1 == i2 {
      if i1 + 1 < n {
        SameSegment(s[i1], s[i1 + 1], g1, g2);
      }
    } else {
      assert s[i1 + 1] <= s[i2];
    }
  }

  /** The fractional rank grows with the percentile. */
  lemma RankMonotone(n: nat, p1: real, p2: real)
    requires n > 0 && 0.0 <= p1 <= p2 <= 100.0
    ensures Rank(n, p1) <= Rank(n, p2)
  {
    var m := (n - 1) as real;
    MulNonNegative(m, p2 - p1);
    assert m * (p2 - p1) == m * p2 - m * p1;
  }

  /** On one segment, a larger interpolation weight gives a larger value. */
  lemma SameSegment(a: real, b: real, g1: real, g2: real)
    requires a <= b && g1 <= g2
    ensures a + g1 * (b - a) <= a + g2 * (b - a)
  {
    MulNonNegative(g2 - g1, b - a);
    assert (g2 - g1) * (b - a) == g2 * (b - a) - g1 * (b - a);
  }

  /** `np.percentile(xs, p)` on exact reals.  numpy first rejects a
      percentile outside [0, 100] (ValueError) and then has no order
      statistic to read from an empty sample (IndexError). */
  function Percentile(xs: seq<real>, p: real): (r: Result<real>)
    ensures r.Ok? <==> 0.0 <= p <= 100.0 && |xs| > 0
    ensures !(0.0 <= p <= 100.0) ==> r == Err(PercentileOutOfRange)
    ensures 0.0 <= p <= 100.0 && |xs| == 0 ==> r == Err(EmptySample)
    ensures r.Ok? ==> Min(xs) <= r.value <= Max(xs)
  {
    if p < 0.0 || p > 100.0 then Err(PercentileOutOfRange)
    else if |xs| == 0 then Err(EmptySample)
    else
      SortEnds(xs);
      Ok(LinearPercentile(Sort(xs), p))
  }

  /** A larger percentile never gives a smaller value. */
  lemma PercentileMonotone(xs: seq<real>, p1: real, p2: real)
    requires |xs| > 0
    requires 0.0 <= p1 <= p2 <= 100.0
    ensures Percentile(xs, p1).Ok? && Percentile(xs, p2).Ok?
    ensures Percentile(xs, p1).value <= Percentile(xs, p2).value
  {
    LinearPercentileMonotone(Sort(xs), p1, p2);
  }

  /** Percentiles 0 and 100 are the sample minimum and maximum. */
  lemma PercentileExtremes(xs: seq<real>)
    requires |xs| > 0
    ensures Percentile(xs, 0.0) == Ok(Min(xs))
    ensures Percentile(xs, 100.0) == Ok(Max(xs))
  {
    SortEnds(xs);
    LinearPercentileEnds(Sort(xs));
  }
}
