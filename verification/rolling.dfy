/** Rolling compounding: `returns.rolling(W).apply(lambda x: (x + 1).prod() - 1).dropna()`.
    Every full window of W consecutive daily returns becomes one compounded
    return; the W - 1 incomplete windows at the start are NaN in pandas and
    are dropped. */
module Rolling {
  import opened Stats

  /** One day's step of the growth factor: what has accumulated so far,
      times the day's factor (1 + r). */
  function Step(acc: real, r: real): real
  {
    acc * (1.0 + r)
  }

  /** `acc` carried through the days of `xs` in order, one Step per day. */
  function GrowthFrom(acc: real, xs: seq<real>): real
    decreases xs
  {
    if xs == [] then acc else GrowthFrom(Step(acc, xs[0]), xs[1..])
  }

  /** Growth factor of a run of returns, `(x + 1).prod()`: the product of
      (1 + r) over the run, taken from left to right. */
  function Growth(xs: seq<real>): real
  {
    GrowthFrom(1.0, xs)
  }

  /** Compounded return of a run of returns: the product of (1 + r), minus 1. */
  function Compound(xs: seq<real>): real
  {
    Growth(xs) - 1.0
  }

  /** Carrying through two consecutive runs is carrying through the first,
      then through the second. */
  lemma {:induction false} GrowthFromAppend(acc: real, a: seq<real>, b: seq<real>)
    ensures GrowthFrom(acc, a + b) == GrowthFrom(GrowthFrom(acc, a), b)
    decreases a
  {
    if a == [] {
      assert a + b == b;
    } else {
      assert (a + b)[0] == a[0] && (a + b)[1..] == a[1..] + b;
      GrowthFromAppend(Step(acc, a[0]), a[1..], b);
    }
  }

  /** The starting amount only scales the result. */
  lemma {:induction false} GrowthFromScale(acc: real, xs: seq<real>)
    ensures GrowthFrom(acc, xs) == acc * Growth(xs)
    decreases xs
  {
    if xs != [] {
      GrowthFromScale(Step(acc, xs[0]), xs[1..]);
      GrowthFromScale(Step(1.0, xs[0]), xs[1..]);
      StepScale(acc, xs[0], Growth(xs[1..]), Growth(xs));
    }
  }

  /** The inductive step of GrowthFromScale, on plain values. */
  lemma StepScale(acc: real, r: real, g: real, whole: real)
    requires whole == Step(1.0, r) * g
    ensures Step(acc, r) * g == acc * whole
  {
  }

  /** Growth over two consecutive runs is the product of their growths, so
      compounding is geometric, not additive. */
  lemma GrowthAppend(a: seq<real>, b: seq<real>)
    ensures Growth(a + b) == Growth(a) * Growth(b)
  {
    GrowthFromAppend(1.0, a, b);
    GrowthFromScale(Growth(a), b);
  }

  /** The growth of a single day is that day's factor. */
  lemma GrowthSingle(x: real)
    ensures Growth([x]) == 1.0 + x
  {
    assert [x][1..] == [];
    assert Growth([x]) == GrowthFrom(Step(1.0, x), []);
  }

  /** Compounding a single return gives back that return. */
  lemma CompoundSingle(x: real)
    ensures Compound([x]) == x
  {
    GrowthSingle(x);
  }

  /** When no single day loses more than everything (every return is at
      least -1, as with positive prices and no short positions), the
      compounded return loses at most everything too. */
  lemma CompoundLossBound(xs: seq<real>)
    requires forall i :: 0 <= i < |xs| ==> xs[i] >= -1.0
    ensures Compound(xs) >= -1.0
  {
    GrowthFromNonNegative(1.0, xs);
  }

  /** A non-negative amount stays non-negative through days whose factors
      are non-negative. */
  lemma {:induction false} GrowthFromNonNegative(acc: real, xs: seq<real>)
    requires acc >= 0.0
    requires forall i :: 0 <= i < |xs| ==> xs[i] >= -1.0
    ensures GrowthFrom(acc, xs) >= 0.0
    decreases xs
  {
    if xs != [] {
      assert forall i :: 0 <= i < |xs[1..]| ==> xs[1..][i] == xs[i + 1];
      MulNonNegative(acc, 1.0 + xs[0]);
      GrowthFromNonNegative(Step(acc, xs[0]), xs[1..]);
    }
  }

  /** The rolling series: one compounded return per full window of W
      consecutive returns, in date order.  There are |R| - W + 1 of them, or
      none when the series is shorter than the window (see RollingAt for
      what each entry is). */
  function RollingReturns(r: seq<real>, w: nat): (rr: seq<real>)
    requires w >= 1
    ensures |rr| == if w <= |r| then |r| - w + 1 else 0
  {
    if |r| < w then [] else [Compound(r[..w])] + RollingReturns(r[1..], w)
  }

  /** Entry k of the rolling series compounds R[k], ..., R[k + W - 1]. */
  lemma {:induction false} RollingAt(r: seq<real>, w: nat, k: nat)
    requires w >= 1 && k < |RollingReturns(r, w)|
    ensures RollingReturns(r, w)[k] == Compound(r[k..k + w])
  {
    if k > 0 {
      RollingAt(r[1..], w, k - 1);
      assert r[1..][k - 1..k - 1 + w] == r[k..k + w];
    }
  }

  /** A window of one day leaves the daily series unchanged. */
  lemma RollingOneDay(r: seq<real>)
    ensures RollingReturns(r, 1) == r
  {
    var rr := RollingReturns(r, 1);
    forall k | 0 <= k < |r|
      ensures rr[k] == r[k]
    {
      RollingAt(r, 1, k);
      assert r[k..k + 1] == [r[k]];
      CompoundSingle(r[k]);
    }
  }

  /** Consecutive windows share all but one day: the growth of window k + 1
      is that of window k with its first day swapped for the next day. */
  lemma SlideWindow(r: seq<real>, w: nat, k: nat)
    requires w >= 1 && k + w < |r|
    ensures (1.0 + r[k]) * (1.0 + RollingReturns(r, w)[k + 1])
            == (1.0 + RollingReturns(r, w)[k]) * (1.0 + r[k + w])
  {
    var rr := RollingReturns(r, w);
    RollingAt(r, w, k);
    RollingAt(r, w, k + 1);
    var mid := r[k + 1..k + w];
    var first, last := r[k], r[k + w];
    assert r[k..k + w] == [first] + mid;
    assert r[k + 1..k + 1 + w] == mid + [last];
    assert 1.0 + rr[k] == Growth([first] + mid);
    assert 1.0 + rr[k + 1] == Growth(mid + [last]);
    GrowthAppend([first], mid);
    GrowthAppend(mid, [last]);
    GrowthSingle(first);
    GrowthSingle(last);
    Swap(1.0 + first, 1.0 + last, Growth([first]), Growth([last]), Growth(mid),
         1.0 + rr[k], 1.0 + rr[k + 1]);
  }

  /** The arithmetic step of SlideWindow, on plain values: with A = F * g
      and B = g * L, f * B == A * l when F == f and L == l. */
  lemma Swap(f: real, l: real, F: real, L: real, g: real, A: real, B: real)
    requires F == f && L == l && A == F * g && B == g * L
    ensures f * B == A * l
  {
  }
}
