/** The three risk estimators and the conversion of a return fraction into
    a currency amount.  Confidence levels are the integers the script offers
    (90, 95 or 99); the percentile taken is 100 - confidence. */
module Estimators {
  import opened Outcomes
  import opened Stats
  import opened Percentiles
  import opened Rolling

  // ---------------------------------------------------------------- historical

  /** `historical_var`: the (100 - confidence)-th percentile of the rolling
      compounded returns, returned together with that rolling series.  numpy
      rejects a confidence outside [0, 100] and has nothing to interpolate
      when the daily series is shorter than the window. */
  function HistoricalVaR(daily: seq<real>, window: nat, confidence: int): (r: Result<(real, seq<real>)>)
    requires window >= 1
    ensures r.Ok? <==> 0 <= confidence <= 100 && window <= |daily|
    ensures !(0 <= confidence <= 100) ==> r == Err(PercentileOutOfRange)
    ensures 0 <= confidence <= 100 && |daily| < window ==> r == Err(EmptySample)
    ensures r.Ok? ==> r.value.1 == RollingReturns(daily, window)
    ensures r.Ok? ==> Min(r.value.1) <= r.value.0 <= Max(r.value.1)
  {
    var rolling := RollingReturns(daily, window);
    match Percentile(rolling, (100 - confidence) as real)
    case Err(e) => Err(e)
    case Ok(v) => Ok((v, rolling))
  }

  /** A higher confidence gives a lower (more extreme) historical VaR. */
  lemma HistoricalVaRMonotone(daily: seq<real>, window: nat, c1: int, c2: int)
    requires 1 <= window <= |daily|
    requires 0 <= c1 <= c2 <= 100
    ensures HistoricalVaR(daily, window, c1).Ok? && HistoricalVaR(daily, window, c2).Ok?
    ensures HistoricalVaR(daily, window, c2).value.0 <= HistoricalVaR(daily, window, c1).value.0
  {
    PercentileMonotone(RollingReturns(daily, window), (100 - c2) as real, (100 - c1) as real);
  }

  /** The three levels the script offers are ordered: VaR at 99 is at most
      VaR at 95, which is at most VaR at 90. */
  lemma HistoricalVaROfferedLevels(daily: seq<real>, window: nat)
    requires 1 <= window <= |daily|
    ensures HistoricalVaR(daily, window, 99).Ok?
    ensures HistoricalVaR(daily, window, 99).value.0 <= HistoricalVaR(daily, window, 95).value.0
                                                     <= HistoricalVaR(daily, window, 90).value.0
  {
    HistoricalVaRMonotone(daily, window, 95, 99);
    HistoricalVaRMonotone(daily, window, 90, 95);
  }

  // --------------------------------------------------------------- conditional

  /** `conditional_var`: the mean of the rolling returns at or below the same
      percentile cutoff.  The tail is never empty, since the cutoff is at least
      the sample minimum; its mean lies between the minimum and the cutoff. */
  function ConditionalVaR(rolling: seq<real>, confidence: int): (r: Result<real>)
    ensures r.Ok? <==> 0 <= confidence <= 100 && |rolling| > 0
    ensures !(0 <= confidence <= 100) ==> r == Err(PercentileOutOfRange)
    ensures 0 <= confidence <= 100 && |rolling| == 0 ==> r == Err(EmptySample)
    ensures r.Ok? ==> Min(rolling) <= r.value <= Percentile(rolling, (100 - confidence) as real).value
  {
    match Percentile(rolling, (100 - confidence) as real)
    case Err(e) => Err(e)
    case Ok(cutoff) =>
      var tail := Tail(rolling, cutoff);
      MeanAtMost(tail, cutoff);
      TailAboveMin(rolling, cutoff, tail);
      Ok(Mean(tail))
  }

  /** The elements at or below a cutoff that is at least the minimum: a
      non-empty selection holding every element of `xs` at most the cutoff,
      as often as it occurs there, and nothing else. */
  function Tail(xs: seq<real>, cutoff: real): (t: seq<real>)
    requires |xs| > 0 && Min(xs) <= cutoff
    ensures |t| > 0
    ensures forall i :: 0 <= i < |t| ==> t[i] <= cutoff && t[i] in xs
    ensures forall x :: multiset(t)[x] == if x <= cutoff then multiset(xs)[x] else 0
  {
    var m := Min(xs);
    var i :| 0 <= i < |xs| && xs[i] == m;
    assert xs[i] in AtMost(xs, cutoff);
    AtMost(xs, cutoff)
  }

  lemma TailAboveMin(xs: seq<real>, cutoff: real, t: seq<real>)
    requires |xs| > 0 && Min(xs) <= cutoff && t == Tail(xs, cutoff)
    ensures Min(xs) <= Mean(t)
  {
    var m := Min(t);
    assert m in xs;
  }

  /** Expected shortfall never exceeds the historical VaR computed from the
      same daily returns, window and confidence. */
  lemma ConditionalAtMostHistorical(daily: seq<real>, window: nat, confidence: int)
    requires window >= 1
    requires HistoricalVaR(daily, window, confidence).Ok?
    ensures ConditionalVaR(HistoricalVaR(daily, window, confidence).value.1, confidence).Ok?
    ensures ConditionalVaR(HistoricalVaR(daily, window, confidence).value.1, confidence).value
            <= HistoricalVaR(daily, window, confidence).value.0
  {
  }

  // ---------------------------------------------------------------- parametric

  /** The z-table of `parametric_var`: left-tail normal quantiles for the
      three supported levels; any other key is a KeyError. */
  function ZScore(confidence: int): (r: Result<real>)
    ensures r.Ok? <==> confidence == 90 || confidence == 95 || confidence == 99
    ensures r.Err? ==> r.error == UnsupportedConfidence
    ensures r.Ok? ==> r.value < 0.0
  {
    if confidence == 90 then Ok(-1.28)
    else if confidence == 95 then Ok(-1.65)
    else if confidence == 99 then Ok(-2.33)
    else Err(UnsupportedConfidence)
  }

  /** `sqrt` gives the non-negative square root of every non-negative real. */
  ghost predicate SquareRoot(sqrt: real -> real)
  {
    forall x :: 0.0 <= x ==> 0.0 <= sqrt(x) && sqrt(x) * sqrt(x) == x
  }

  /** `parametric_var`: (mean + z * sample standard deviation) * sqrt(window),
      with the square root supplied by the caller.  The z-table lookup fails
      for an unsupported confidence; with fewer than two returns pandas'
      sample standard deviation is NaN and no number results. */
  function ParametricVaR(daily: seq<real>, window: nat, confidence: int, sqrt: real -> real): (r: Result<real>)
    ensures r.Ok? <==> ZScore(confidence).Ok? && |daily| >= 2
    ensures ZScore(confidence).Err? ==> r == Err(UnsupportedConfidence)
    ensures ZScore(confidence).Ok? && |daily| < 2 ==> r == Err(TooFewReturns)
  {
    match ZScore(confidence)
    case Err(e) => Err(e)
    case Ok(z) =>
      if |daily| < 2 then Err(TooFewReturns)
      else Ok((Mean(daily) + z * sqrt(SampleVariance(daily))) * sqrt(window as real))
  }

  lemma ScaleMonotone(a: real, b: real, s: real)
    requires a <= b && s >= 0.0
    ensures a * s <= b * s
  {
    assert (b - a) * s >= 0.0;
  }

  /** The parametric estimate never exceeds the mean return scaled to the
      horizon: the z-scores are negative and the deviation is not. */
  lemma ParametricBelowScaledMean(daily: seq<real>, window: nat, confidence: int, sqrt: real -> real)
    requires SquareRoot(sqrt)
    requires ParametricVaR(daily, window, confidence, sqrt).Ok?
    ensures ParametricVaR(daily, window, confidence, sqrt).value <= Mean(daily) * sqrt(window as real)
  {
    var z := ZScore(confidence).value;
    var sd := sqrt(SampleVariance(daily));
    var m := Mean(daily);
    assert 0.0 <= sd;
    assert z * sd <= 0.0 by { MulNonNegative(-z, sd); }
    ScaleMonotone(m + z * sd, m, sqrt(window as real));
  }

  /** A higher offered confidence gives a lower parametric estimate. */
  lemma ParametricOfferedLevels(daily: seq<real>, window: nat, sqrt: real -> real)
    requires SquareRoot(sqrt) && |daily| >= 2
    ensures ParametricVaR(daily, window, 99, sqrt).Ok?
    ensures ParametricVaR(daily, window, 99, sqrt).value <= ParametricVaR(daily, window, 95, sqrt).value
                                                        <= ParametricVaR(daily, window, 90, sqrt).value
  {
    var sd := sqrt(SampleVariance(daily));
    var m := Mean(daily);
    var s := sqrt(window as real);
    assert 0.0 <= sd && 0.0 <= s;
    assert -2.33 * sd <= -1.65 * sd <= -1.28 * sd;
    ScaleMonotone(m + -2.33 * sd, m + -1.65 * sd, s);
    ScaleMonotone(m + -1.65 * sd, m + -1.28 * sd, s);
  }

  /** A series without spread has parametric VaR equal to its return scaled
      to the horizon, whatever the confidence. */
  lemma ParametricWithoutSpread(daily: seq<real>, window: nat, confidence: int, sqrt: real -> real)
    requires SquareRoot(sqrt) && |daily| >= 2 && ZScore(confidence).Ok?
    requires forall i :: 0 <= i < |daily| ==> daily[i] == daily[0]
    ensures ParametricVaR(daily, window, confidence, sqrt).Ok?
    ensures ParametricVaR(daily, window, confidence, sqrt).value == daily[0] * sqrt(window as real)
  {
    ConstantHasZeroVariance(daily);
    SquareRootOfZero(sqrt);
    WithoutDeviation(daily[0], ZScore(confidence).value, sqrt(0.0), sqrt(window as real));
  }

  lemma WithoutDeviation(m: real, z: real, sd: real, s: real)
    requires sd == 0.0
    ensures (m + z * sd) * s == m * s
  {
  }

  lemma SquareRootOfZero(sqrt: real -> real)
    requires SquareRoot(sqrt)
    ensures sqrt(0.0) == 0.0
  {
    var sd := sqrt(0.0);
    var square := sd * sd;
    assert 0.0 <= sd && square == 0.0;
    SquareZero(sd, square);
  }

  /** A non-negative number whose square is zero is zero. */
  lemma SquareZero(x: real, square: real)
    requires x >= 0.0 && square == x * x && square <= 0.0
    ensures x == 0.0
  {
    if x > 0.0 {
      calc {
        square;
        x * x;
      >
        0.0 * x;
      }
    }
  }

  // ------------------------------------------------------------------ amounts

  /** Round to two decimals, ties to the even cent, as Python's `round(x, 2)`
      does on the exact value: the result is a whole number of cents within
      half a cent of the input. */
  function RoundCents(y: real): (r: real)
    ensures (r * 100.0).Floor as real == r * 100.0
    ensures -0.5 <= r * 100.0 - y * 100.0 <= 0.5
  {
    var x := y * 100.0;
    var k := x.Floor;
    var f := x - k as real;
    var n := if f < 0.5 then k
             else if f > 0.5 then k + 1
             else if k % 2 == 0 then k
             else k + 1;
    n as real / 100.0
  }

  /** An amount already in whole cents is left unchanged, so rounding twice
      is rounding once. */
  lemma RoundCentsWholeCents(y: real)
    requires (y * 100.0).Floor as real == y * 100.0
    ensures RoundCents(y) == y
  {
  }

  lemma RoundCentsIdempotent(y: real)
    ensures RoundCents(RoundCents(y)) == RoundCents(y)
  {
    RoundCentsWholeCents(RoundCents(y));
  }

  /** Rounding to cents preserves order. */
  lemma RoundCentsMonotone(a: real, b: real)
    requires a <= b
    ensures RoundCents(a) <= RoundCents(b)
  {
    var ka, kb := (a * 100.0).Floor, (b * 100.0).Floor;
    assert ka <= kb;
  }

  /** `calculate_var_amount`: the return fraction times the portfolio value,
      rounded to cents. */
  function VarAmount(pct: real, portfolioValue: real): (amount: real)
    ensures (amount * 100.0).Floor as real == amount * 100.0
    ensures -0.005 <= amount - pct * portfolioValue <= 0.005
  {
    RoundCents(pct * portfolioValue)
  }

  /** A 2.5% loss on a portfolio of 100000 is an amount of -2500.00. */
  lemma VarAmountExample()
    ensures VarAmount(-0.025, 100000.0) == -2500.0
  {
    RoundCentsWholeCents(-2500.0);
  }
}
