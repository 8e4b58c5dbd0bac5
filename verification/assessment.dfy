/** The order in which the script applies the engine to one portfolio:
    validate the weights, skip an empty price table, aggregate the returns,
    then compute the historical, parametric and conditional estimates.  The
    user interface around it (inputs, messages, plot, download) is not part
    of this model; each place where the script stops becomes an error. */
module Assessment {
  import opened Outcomes
  import opened Stats
  import opened Returns
  import opened Rolling
  import opened Estimators

  /** The three estimates as return fractions, with the rolling series they
      were read from.  The parametric estimate is `None` where pandas would
      display NaN (fewer than two daily returns). */
  datatype Report = Report(historical: real, parametric: Option<real>, conditional: real, rolling: seq<real>)

  /** One run of the script on a downloaded price table: the weight check,
      the empty-table guard and the aggregation of the daily returns, then
      the estimates of `Estimate`. */
  function Assess(table: PriceTable, weights: seq<real>, window: nat, confidence: int, sqrt: real -> real): (r: Result<Report>)
    requires window >= 1
    requires table.Rectangular() && table.NonZeroPrices()
    ensures r.Ok? <==> && Sum(weights) == 100.0
                       && !table.Empty()
                       && |weights| == table.columns
                       && window < |table.rows|
                       && ZScore(confidence).Ok?
    ensures Sum(weights) != 100.0 ==> r == Err(InvalidWeights)
    ensures Sum(weights) == 100.0 && table.Empty() ==> r == Err(NoData)
    ensures Sum(weights) == 100.0 && !table.Empty() && |weights| != table.columns ==> r == Err(DimensionMismatch)
    ensures Sum(weights) == 100.0 && !table.Empty() && |weights| == table.columns ==>
              && PortfolioReturns(table, weights).Ok?
              && |PortfolioReturns(table, weights).value| == |table.rows| - 1
              && r == Estimate(PortfolioReturns(table, weights).value, window, confidence, sqrt)
    ensures Sum(weights) == 100.0 && !table.Empty() && |weights| == table.columns ==>
              && (!(0 <= confidence <= 100) ==> r == Err(PercentileOutOfRange))
              && (0 <= confidence <= 100 && |table.rows| <= window ==> r == Err(EmptySample))
              && (0 <= confidence <= 100 && window < |table.rows| && ZScore(confidence).Err? ==>
                    r == Err(UnsupportedConfidence))
    ensures r.Ok? ==> |r.value.rolling| == |table.rows| - window
    ensures r.Ok? ==> Min(r.value.rolling) <= r.value.conditional <= r.value.historical <= Max(r.value.rolling)
    ensures r.Ok? ==> (r.value.parametric.Some? <==> |table.rows| >= 3)
  {
    if CheckWeights(weights).Err? then Err(InvalidWeights)
    else if table.Empty() then Err(NoData)
    else
      match PortfolioReturns(table, weights)
      case Err(e) => Err(e)
      case Ok(daily) => Estimate(daily, window, confidence, sqrt)
  }

  /** The three estimates from the daily portfolio returns, in the script's
      order: the historical estimate (with its rolling series), then the
      parametric one, whose z-table lookup stops the script for an
      unsupported confidence, then the conditional one on the same rolling
      series. */
  function Estimate(daily: seq<real>, window: nat, confidence: int, sqrt: real -> real): (r: Result<Report>)
    requires window >= 1
    ensures r.Ok? <==> 0 <= confidence <= 100 && window <= |daily| && ZScore(confidence).Ok?
    ensures !(0 <= confidence <= 100) ==> r == Err(PercentileOutOfRange)
    ensures 0 <= confidence <= 100 && |daily| < window ==> r == Err(EmptySample)
    ensures 0 <= confidence <= 100 && window <= |daily| && ZScore(confidence).Err? ==> r == Err(UnsupportedConfidence)
    ensures r.Ok? ==> && r.value.rolling == RollingReturns(daily, window)
                      && HistoricalVaR(daily, window, confidence) == Ok((r.value.historical, r.value.rolling))
    ensures r.Ok? ==> ConditionalVaR(r.value.rolling, confidence) == Ok(r.value.conditional)
    ensures r.Ok? ==> if r.value.parametric.Some?
                      then ParametricVaR(daily, window, confidence, sqrt) == Ok(r.value.parametric.value)
                      else ParametricVaR(daily, window, confidence, sqrt) == Err(TooFewReturns)
    ensures r.Ok? ==> |r.value.rolling| == |daily| - window + 1
    ensures r.Ok? ==> Min(r.value.rolling) <= r.value.conditional <= r.value.historical <= Max(r.value.rolling)
    ensures r.Ok? ==> (r.value.parametric.Some? <==> |daily| >= 2)
  {
    match HistoricalVaR(daily, window, confidence)
    case Err(e) => Err(e)
    case Ok((historical, rolling)) =>
      var parametric := ParametricVaR(daily, window, confidence, sqrt);
      if parametric == Err(UnsupportedConfidence) then Err(UnsupportedConfidence)
      else
        ConditionalAtMostHistorical(daily, window, confidence);
        var conditional := ConditionalVaR(rolling, confidence).value;
        Ok(Report(historical,
                  if parametric.Ok? then Some(parametric.value) else None,
                  conditional,
                  rolling))
  }

  /** Runs that differ only in the offered confidence level report ordered
      estimates: the higher the confidence, the lower (more extreme) the
      historical and the parametric estimate. */
  lemma AssessOfferedLevels(table: PriceTable, weights: seq<real>, window: nat, sqrt: real -> real)
    requires window >= 1
    requires table.Rectangular() && table.NonZeroPrices()
    requires Assess(table, weights, window, 90, sqrt).Ok?
    ensures Assess(table, weights, window, 95, sqrt).Ok? && Assess(table, weights, window, 99, sqrt).Ok?
    ensures Assess(table, weights, window, 99, sqrt).value.historical
            <= Assess(table, weights, window, 95, sqrt).value.historical
            <= Assess(table, weights, window, 90, sqrt).value.historical
    ensures SquareRoot(sqrt) && Assess(table, weights, window, 90, sqrt).value.parametric.Some? ==>
              && Assess(table, weights, window, 95, sqrt).value.parametric.Some?
              && Assess(table, weights, window, 99, sqrt).value.parametric.Some?
              && Assess(table, weights, window, 99, sqrt).value.parametric.value
                 <= Assess(table, weights, window, 95, sqrt).value.parametric.value
                 <= Assess(table, weights, window, 90, sqrt).value.parametric.value
  {
    var daily := PortfolioReturns(table, weights).value;
    HistoricalVaROfferedLevels(daily, window);
    if SquareRoot(sqrt) && |daily| >= 2 {
      ParametricOfferedLevels(daily, window, sqrt);
    }
  }

  /** The worked example of two assets over four dates: prices 100, 101,
      102, 101 and 50, 49, 51, 52 with weights 60 and 40. */
  function ExampleTable(): PriceTable
  {
    PriceTable(2, [[100.0, 50.0], [101.0, 49.0], [102.0, 51.0], [101.0, 52.0]])
  }

  /** The example's three daily portfolio returns. */
  lemma TwoAssetExample()
    ensures PortfolioReturns(ExampleTable(), [60.0, 40.0]) == Ok(ExampleDaily())
  {
    ExampleReturns(ExampleTable(), [60.0, 40.0]);
  }

  /** The example's portfolio returns, entry by entry. */
  lemma ExampleReturns(t: PriceTable, w: seq<real>)
    requires t == ExampleTable() && w == [60.0, 40.0]
    ensures t.Rectangular() && t.NonZeroPrices()
    ensures PortfolioReturns(t, w) == Ok(ExampleDaily())
  {
    assert t.Rectangular() && t.NonZeroPrices();
    assert Fractions(w) == [0.6, 0.4];
    var r := PortfolioReturns(t, w);
    assert r.Ok? && |r.value| == 3 && t.columns > 0;
    ExampleValues(t, r.value, Fractions(w));
  }

  /** Three values that are the example's weighted daily returns are the
      example's daily series. */
  lemma ExampleValues(t: PriceTable, v: seq<real>, f: seq<real>)
    requires t == ExampleTable() && f == [0.6, 0.4] && |v| == 3
    requires forall k :: 0 <= k < 3 ==> v[k] == Dot(AssetReturns(t.rows[k], t.rows[k + 1]), f)
    ensures v == ExampleDaily()
  {
    assert v[0] == -0.002 by {
      assert v[0] == Dot(AssetReturns(t.rows[0], t.rows[1]), f);
      ExampleDay0();
    }
    assert v[1] == 0.6 / 101.0 + 0.8 / 49.0 by {
      assert v[1] == Dot(AssetReturns(t.rows[1], t.rows[2]), f);
      ExampleDay1();
    }
    assert v[2] == 1.0 / 510.0 by {
      assert v[2] == Dot(AssetReturns(t.rows[2], t.rows[3]), f);
      ExampleDay2();
    }
  }

  /** Over a window of two days the example has two compounded returns. */
  lemma TwoAssetRollingExample()
    ensures RollingReturns(ExampleDaily(), 2)
            == [(1.0 + -0.002) * (1.0 + (0.6 / 101.0 + 0.8 / 49.0)) - 1.0,
                (1.0 + (0.6 / 101.0 + 0.8 / 49.0)) * (1.0 + 1.0 / 510.0) - 1.0]
  {
    var d := ExampleDaily();
    RollingAt(d, 2, 0);
    RollingAt(d, 2, 1);
    assert d[0..2] == [d[0], d[1]] && d[1..3] == [d[1], d[2]];
    GrowthPair(d[0], d[1]);
    GrowthPair(d[1], d[2]);
  }

  function ExampleDaily(): seq<real>
  {
    [-0.002, 0.6 / 101.0 + 0.8 / 49.0, 1.0 / 510.0]
  }

  lemma ExampleDay0()
    ensures Dot(AssetReturns([100.0, 50.0], [101.0, 49.0]), [0.6, 0.4]) == -0.002
  {
    var a := AssetReturns([100.0, 50.0], [101.0, 49.0]);
    assert a == [0.01, -0.02];
    DotPair(a, [0.6, 0.4]);
  }

  lemma ExampleDay1()
    ensures Dot(AssetReturns([101.0, 49.0], [102.0, 51.0]), [0.6, 0.4]) == 0.6 / 101.0 + 0.8 / 49.0
  {
    var a := AssetReturns([101.0, 49.0], [102.0, 51.0]);
    assert a == [1.0 / 101.0, 2.0 / 49.0];
    DotPair(a, [0.6, 0.4]);
  }

  lemma ExampleDay2()
    ensures Dot(AssetReturns([102.0, 51.0], [101.0, 52.0]), [0.6, 0.4]) == 1.0 / 510.0
  {
    var a := AssetReturns([102.0, 51.0], [101.0, 52.0]);
    assert a == [-1.0 / 102.0, 1.0 / 51.0];
    DotPair(a, [0.6, 0.4]);
  }

  lemma DotPair(a: seq<real>, f: seq<real>)
    requires |a| == 2 && |f| == 2
    ensures Dot(a, f) == a[0] * f[0] + a[1] * f[1]
  {
    var a', f' := a[1..], f[1..];
    assert a'[1..] == [] && f'[1..] == [];
    assert Dot(a', f') == a'[0] * f'[0] + Dot(a'[1..], f'[1..]);
    assert Dot(a, f) == a[0] * f[0] + Dot(a', f');
  }

  lemma GrowthPair(x: real, y: real)
    ensures Compound([x, y]) == (1.0 + x) * (1.0 + y) - 1.0
  {
    assert [x, y][1..] == [y] && [y][1..] == [];
    assert Growth([x, y]) == GrowthFrom(Step(1.0, x), [y]);
    assert GrowthFrom(Step(1.0, x), [y]) == Step(Step(1.0, x), y);
  }

  /** A daily series of three returns has no full window of ten days: the
      historical estimate has no sample to read. */
  lemma ShortSeriesExample(daily: seq<real>)
    requires |daily| == 3
    ensures HistoricalVaR(daily, 10, 95) == Err(EmptySample)
    ensures RollingReturns(daily, 10) == []
  {
  }
}
