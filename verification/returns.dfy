/** Return aggregation: from a table of asset prices (one row per date, one
    column per asset) to the portfolio's daily simple returns, as
    `price_data.pct_change().dropna().dot(weights / 100)` computes them, and
    the check that the percentage weights add up to 100. */
module Returns {
  import opened Outcomes
  import opened Stats

  /** A price table: `columns` assets and one row of prices per date, oldest
      first. */
  datatype PriceTable = PriceTable(columns: nat, rows: seq<seq<real>>)
  {
    /** Every row holds one price per asset column. */
    ghost predicate Rectangular()
    {
      forall t :: 0 <= t < |rows| ==> |rows[t]| == columns
    }

    /** No price is zero.  A zero price makes pandas produce an infinite or
        NaN return, which this exact-real model does not represent. */
    ghost predicate NonZeroPrices()
    {
      forall t, i :: 0 <= t < |rows| && 0 <= i < |rows[t]| ==> rows[t][i] != 0.0
    }

    /** `DataFrame.empty`: true when either axis has length zero. */
    predicate Empty()
    {
      |rows| == 0 || columns == 0
    }
  }

  /** Per-asset simple returns from one date's prices to the next one's. */
  function AssetReturns(prev: seq<real>, cur: seq<real>): (r: seq<real>)
    requires |prev| == |cur|
    requires forall i :: 0 <= i < |prev| ==> prev[i] != 0.0
    ensures |r| == |prev|
    ensures forall i :: 0 <= i < |r| ==> r[i] == (cur[i] - prev[i]) / prev[i]
  {
    if prev == [] then []
    else [(cur[0] - prev[0]) / prev[0]] + AssetReturns(prev[1..], cur[1..])
  }

  /** `pct_change().dropna()`: one row of per-asset returns per date after the
      first; the first date has no previous price, its row is all NaN and is
      dropped.  A table without asset columns has no NaN to drop, so every
      (empty) row is kept. */
  function PctChange(rows: seq<seq<real>>, columns: nat): (r: seq<seq<real>>)
    requires forall t :: 0 <= t < |rows| ==> |rows[t]| == columns
    requires forall t, i :: 0 <= t < |rows| && 0 <= i < |rows[t]| ==> rows[t][i] != 0.0
    ensures |r| == if columns == 0 then |rows| else if |rows| == 0 then 0 else |rows| - 1
    ensures forall k :: 0 <= k < |r| ==> |r[k]| == columns
    ensures columns > 0 ==> forall k :: 0 <= k < |r| ==> r[k] == AssetReturns(rows[k], rows[k + 1])
  {
    if columns == 0 then rows
    else if |rows| < 2 then []
    else [AssetReturns(rows[0], rows[1])] + PctChange(rows[1..], columns)
  }

  /** `np.array(weights) / 100`: percentages as fractions. */
  function Fractions(w: seq<real>): (f: seq<real>)
    ensures |f| == |w|
    ensures forall i :: 0 <= i < |f| ==> f[i] * 100.0 == w[i]
  {
    if w == [] then [] else [w[0] / 100.0] + Fractions(w[1..])
  }

  /** Dot product of two vectors of the same length. */
  function Dot(a: seq<real>, b: seq<real>): real
    requires |a| == |b|
  {
    if a == [] then 0.0 else a[0] * b[0] + Dot(a[1..], b[1..])
  }

  /** `DataFrame.dot(f)`: the weighted sum of every row. */
  function DotRows(rows: seq<seq<real>>, f: seq<real>): (r: seq<real>)
    requires forall t :: 0 <= t < |rows| ==> |rows[t]| == |f|
    ensures |r| == |rows|
    ensures forall t :: 0 <= t < |r| ==> r[t] == Dot(rows[t], f)
  {
    if rows == [] then [] else [Dot(rows[0], f)] + DotRows(rows[1..], f)
  }

  /** `calculate_portfolio_returns`: per-asset returns weighted by the
      fractions of the portfolio.  When the number of weights differs from the
      number of asset columns the computation stops before any dot product;
      otherwise there is one portfolio return per date after the first (and
      a zero return per date when there are no assets at all). */
  function PortfolioReturns(table: PriceTable, weights: seq<real>): (r: Result<seq<real>>)
    requires table.Rectangular() && table.NonZeroPrices()
    ensures r.Err? <==> |weights| != table.columns
    ensures r.Err? ==> r.error == DimensionMismatch
    ensures r.Ok? ==> |r.value| == if table.columns == 0 then |table.rows|
                                   else if |table.rows| == 0 then 0 else |table.rows| - 1
    ensures r.Ok? && table.columns > 0 ==> forall k :: 0 <= k < |r.value| ==>
              r.value[k] == Dot(AssetReturns(table.rows[k], table.rows[k + 1]), Fractions(weights))
    ensures r.Ok? && table.columns == 0 ==> forall k :: 0 <= k < |r.value| ==> r.value[k] == 0.0
  {
    var daily := PctChange(table.rows, table.columns);
    var f := Fractions(weights);
    if |f| != table.columns then Err(DimensionMismatch)
    else
      Ok(DotRows(daily, f))
  }

  /** The weight check of the script: weights are accepted only when they sum
      to exactly 100. */
  function CheckWeights(weights: seq<real>): (r: Result<seq<real>>)
    ensures r.Ok? <==> Sum(weights) == 100.0
    ensures r.Ok? ==> r.value == weights
    ensures r.Err? ==> r.error == InvalidWeights
  {
    if Sum(weights) != 100.0 then Err(InvalidWeights) else Ok(weights)
  }

  /** The fractions of accepted weights sum to one. */
  lemma {:induction false} FractionsSum(w: seq<real>)
    ensures Sum(Fractions(w)) * 100.0 == Sum(w)
  {
    if w != [] {
      FractionsSum(w[1..]);
    }
  }

  lemma AcceptedWeightsSumToOne(w: seq<real>)
    requires CheckWeights(w).Ok?
    ensures Sum(Fractions(w)) == 1.0
  {
    FractionsSum(w);
  }

  /** Price relatives cur[i] / prev[i]. */
  function Relatives(prev: seq<real>, cur: seq<real>): (r: seq<real>)
    requires |prev| == |cur|
    requires forall i :: 0 <= i < |prev| ==> prev[i] != 0.0
    ensures |r| == |prev|
  {
    if prev == [] then [] else [cur[0] / prev[0]] + Relatives(prev[1..], cur[1..])
  }

  lemma SimpleReturn(c: real, p: real)
    requires p != 0.0
    ensures (c - p) / p == c / p - 1.0
  {
    assert p / p == 1.0;
    assert (c - p) / p == c / p - p / p;
  }

  /** The weighted simple return equals the weighted price relative minus the
      sum of the fractions. */
  lemma {:induction false} DotReturnsAsRelatives(prev: seq<real>, cur: seq<real>, f: seq<real>)
    requires |prev| == |cur| == |f|
    requires forall i :: 0 <= i < |prev| ==> prev[i] != 0.0
    ensures Dot(AssetReturns(prev, cur), f) == Dot(Relatives(prev, cur), f) - Sum(f)
  {
    if prev != [] {
      DotReturnsAsRelatives(prev[1..], cur[1..], f[1..]);
      SimpleReturn(cur[0], prev[0]);
      assert AssetReturns(prev, cur)[1..] == AssetReturns(prev[1..], cur[1..]);
      assert ((cur[0] - prev[0]) / prev[0]) * f[0] == (cur[0] / prev[0]) * f[0] - f[0];
    }
  }

  /** For weights summing to 100, the portfolio's daily return is its
      weighted price relative minus one: price[t] / price[t - 1] - 1 for the
      portfolio as a whole. */
  lemma PortfolioReturnIsRelativeMinusOne(table: PriceTable, weights: seq<real>, k: nat)
    requires table.Rectangular() && table.NonZeroPrices()
    requires |weights| == table.columns && Sum(weights) == 100.0
    requires k + 1 < |table.rows|
    ensures PortfolioReturns(table, weights).Ok?
    ensures PortfolioReturns(table, weights).value[k]
            == Dot(Relatives(table.rows[k], table.rows[k + 1]), Fractions(weights)) - 1.0
  {
    FractionsSum(weights);
    DotReturnsAsRelatives(table.rows[k], table.rows[k + 1], Fractions(weights));
  }

  /** A dot product with a constant vector is the constant times the sum. */
  lemma {:induction false} DotConstant(a: seq<real>, f: seq<real>, c: real)
    requires |a| == |f|
    requires forall i :: 0 <= i < |a| ==> a[i] == c
    ensures Dot(a, f) == c * Sum(f)
  {
    if a != [] {
      DotConstant(a[1..], f[1..], c);
    }
  }

  /** When every asset has the same return on a date and the weights sum to
      100, the portfolio has that return too. */
  lemma UniformReturnIsPortfolioReturn(table: PriceTable, weights: seq<real>, k: nat, c: real)
    requires table.Rectangular() && table.NonZeroPrices()
    requires |weights| == table.columns && Sum(weights) == 100.0
    requires k + 1 < |table.rows|
    requires forall i :: 0 <= i < table.columns ==>
               (table.rows[k + 1][i] - table.rows[k][i]) / table.rows[k][i] == c
    ensures PortfolioReturns(table, weights).Ok?
    ensures PortfolioReturns(table, weights).value[k] == c
  {
    var f := Fractions(weights);
    var a := AssetReturns(table.rows[k], table.rows[k + 1]);
    assert forall i :: 0 <= i < |a| ==> a[i] == c;
    AcceptedWeightsSumToOne(weights);
    DotConstant(a, f, c);
    assert Dot(a, f) == c * 1.0;
    assert PortfolioReturns(table, weights).value[k] == Dot(a, f);
  }
}
