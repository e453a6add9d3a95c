/** `CCI`: the commodity channel index. Each typical price is compared with the
    mean of its window and scaled by the window's mean absolute deviation:
    `(tp - mean) / (mad * scaling)`, with `period - 1` undefined entries first. */
module Cci {
  import opened Series
  import opened Rolling
  import opened SimpleStats

  /** `np.abs(window - centre)`, one row of `abs_deviation_arr`. */
  function AbsDeviations(w: seq<real>, centre: real): (d: seq<real>)
    ensures |d| == |w|
    ensures forall j :: 0 <= j < |w| ==> d[j] == Abs(w[j] - centre)
  {
    seq(|w|, j requires 0 <= j < |w| => Abs(w[j] - centre))
  }

  /** The mean absolute deviation of a window from its own mean; never negative. */
  function MeanAbsDeviation(w: seq<real>): (d: real)
    requires w != []
    ensures 0.0 <= d
  {
    var devs := AbsDeviations(w, Mean(w));
    MeanAtLeast(devs, 0.0);
    Mean(devs)
  }

  /** `(tp - central) / (mad * scaling)`; a zero denominator gives `Undef`. */
  function Quotient(deviation: real, mad: real, scaling: real): Val
  {
    Div(Num(deviation), Num(mad * scaling))
  }

  /** The index at position `i`, from the window that ends there. A zero
      denominator gives `Undef`. */
  function CciAt(tp: seq<real>, period: nat, scaling: real, i: nat): Val
    requires 1 <= period && period - 1 <= i < |tp|
  {
    var w := Trailing(tp, period, i);
    Quotient(tp[i] - Mean(w), MeanAbsDeviation(w), scaling)
  }

  /** `CCI(dfHigh, dfLow, dfClose, period, scaling)`. */
  function Cci(high: seq<real>, low: seq<real>, close: seq<real>, period: nat, scaling: real): (r: seq<Val>)
    requires |low| == |high| && |close| == |high|
    requires 1 <= period <= |high|
    ensures |r| == |high|
    ensures forall i :: 0 <= i < period - 1 ==> r[i] == Undef
    ensures forall i :: period - 1 <= i < |high| ==> r[i] == CciAt(Typical(high, low, close), period, scaling, i)
  {
    var tp := Typical(high, low, close);
    seq(|tp|, i requires 0 <= i < |tp| => if i < period - 1 then Undef else CciAt(tp, period, scaling, i))
  }

  /** The mean absolute deviation is zero exactly when the window is flat. */
  lemma MadZeroIffFlat(w: seq<real>)
    requires w != []
    ensures MeanAbsDeviation(w) == 0.0 <==> forall j :: 0 <= j < |w| ==> w[j] == w[0]
  {
    var m := Mean(w);
    var devs := AbsDeviations(w, m);
    var n := |w| as real;
    if forall j :: 0 <= j < |w| ==> w[j] == w[0] {
      SumOfConstant(w, w[0]);
      assert m == w[0];
      SumOfConstant(devs, 0.0);
    } else {
      if MeanAbsDeviation(w) == 0.0 {
        assert Sum(devs) == Mean(devs) * n;
        SumZeroOfNonNegative(devs);
        assert false;
      }
    }
  }

  /** A window whose typical prices are all equal has no deviation, and the
      index there is undefined rather than an error. */
  lemma CciFlatWindowUndefined(high: seq<real>, low: seq<real>, close: seq<real>, period: nat, scaling: real, i: nat)
    requires |low| == |high| && |close| == |high|
    requires 1 <= period && period - 1 <= i < |high|
    requires var tp := Typical(high, low, close);
      forall j :: i - period + 1 <= j <= i ==> tp[j] == tp[i]
    ensures Cci(high, low, close, period, scaling)[i] == Undef
  {
    var tp := Typical(high, low, close);
    var w := Trailing(tp, period, i);
    assert forall j :: 0 <= j < |w| ==> w[j] == w[0] by {
      assert forall j :: 0 <= j < |w| ==> w[j] == tp[i - period + 1 + j];
    }
    MadZeroIffFlat(w);
  }

  /** Conversely, with a non-zero scaling, a window holding two different
      typical prices has a positive deviation and the index there is defined. */
  lemma CciDefinedUnlessFlat(high: seq<real>, low: seq<real>, close: seq<real>, period: nat, scaling: real, i: nat, j: nat)
    requires |low| == |high| && |close| == |high|
    requires 1 <= period && period - 1 <= i < |high|
    requires scaling != 0.0
    requires i - period + 1 <= j <= i && Typical(high, low, close)[j] != Typical(high, low, close)[i]
    ensures Cci(high, low, close, period, scaling)[i].Num?
  {
    var tp := Typical(high, low, close);
    var w := Trailing(tp, period, i);
    assert w[j - (i - period + 1)] != w[|w| - 1];
    MadZeroIffFlat(w);
  }

  /** The last element of a window lies within `|w| / 2` mean absolute
      deviations of the window's mean: the deviations sum to zero, so the others
      together are at least as far off as the last one. */
  lemma LastDeviationBound(w: seq<real>)
    requires w != []
    ensures 2.0 * Abs(w[|w| - 1] - Mean(w)) <= |w| as real * MeanAbsDeviation(w)
  {
    var n, last := |w| as real, |w| - 1;
    var m := Mean(w);
    var d := seq(|w|, j requires 0 <= j < |w| => w[j] - m);
    var a := AbsDeviations(w, m);
    DeviationsSumToZero(w, d);
    SumLast(d);
    SumLast(a);
    assert Sum(a[..last]) >= Abs(d[last]) by {
      SumAbsBound(d[..last], a[..last]);
    }
    TotalOfMean(a);
  }

  /** The deviations from the mean sum to zero. */
  lemma DeviationsSumToZero(w: seq<real>, d: seq<real>)
    requires w != [] && |d| == |w|
    requires forall j :: 0 <= j < |w| ==> d[j] == w[j] - Mean(w)
    ensures Sum(d) == 0.0
  {
    SumShifted(w, d, Mean(w));
    TotalOfMean(w);
  }

  /** `|s| * mean(s) == sum(s)`. */
  lemma TotalOfMean(s: seq<real>)
    requires s != []
    ensures |s| as real * Mean(s) == Sum(s)
  {
  }

  /** A defined quotient `dev / (mad * scaling)` is at most `n / (2 * scaling)`
      in size when `2 * |dev| <= n * mad`. */
  lemma QuotientBound(dev: real, mad: real, scaling: real, n: real)
    requires 0.0 <= mad && 0.0 < scaling
    requires 2.0 * Abs(dev) <= n * mad
    requires Quotient(dev, mad, scaling).Num?
    ensures Abs(Quotient(dev, mad, scaling).v) <= n / (2.0 * scaling)
  {
    var q := mad * scaling;
    assert q != 0.0;
    assert 0.0 < mad;
    assert 0.0 < q;
    assert Quotient(dev, mad, scaling).v == dev / q;
    assert Abs(dev / q) == Abs(dev) / q;
    assert Abs(dev) / q <= (n * mad / 2.0) / q;
    assert (n * mad / 2.0) / q == n / (2.0 * scaling);
  }

  /** Lambert's bound: with a positive scaling factor, every defined value of
      the index is at most `period / (2 * scaling)` in size (about 666.7 for the
      default period 20 and scaling 0.015). */
  lemma CciBounded(high: seq<real>, low: seq<real>, close: seq<real>, period: nat, scaling: real, i: nat)
    requires |low| == |high| && |close| == |high|
    requires 1 <= period <= |high| && i < |high|
    requires 0.0 < scaling
    requires Cci(high, low, close, period, scaling)[i].Num?
    ensures Abs(Cci(high, low, close, period, scaling)[i].v) <= period as real / (2.0 * scaling)
  {
    assert period - 1 <= i;
    CciAtBounded(Typical(high, low, close), period, scaling, i);
  }

  lemma CciAtBounded(tp: seq<real>, period: nat, scaling: real, i: nat)
    requires 1 <= period && period - 1 <= i < |tp|
    requires 0.0 < scaling
    requires CciAt(tp, period, scaling, i).Num?
    ensures Abs(CciAt(tp, period, scaling, i).v) <= period as real / (2.0 * scaling)
  {
    var w := Trailing(tp, period, i);
    var dev, mad := tp[i] - Mean(w), MeanAbsDeviation(w);
    LastDeviationBound(w);
    var n := |w| as real;
    assert 2.0 * Abs(dev) <= n * mad;
    QuotientBound(dev, mad, scaling, n);
  }

  /** `(typicalPrice[period-1:] - central_tendency_arr) / (mean_abs_deviation * scaling)`. */
  function Quotients(tp: seq<real>, period: nat, central: seq<Val>, mads: seq<real>, scaling: real): (q: seq<Val>)
    requires 1 <= period <= |tp|
    requires |central| == |mads| == |tp| - period + 1
    requires forall k :: 0 <= k < |central| ==> central[k].Num?
    ensures |q| == |central|
    ensures forall k :: 0 <= k < |q| ==> q[k] == Quotient(tp[k + period - 1] - central[k].v, mads[k], scaling)
  {
    seq(|central|, k requires 0 <= k < |central| => Quotient(tp[k + period - 1] - central[k].v, mads[k], scaling))
  }

  /** The loop `mean_abs_deviation[i] = np.mean(abs_deviation_arr[i])`: the
      mean of every row, written into a fresh array. */
  method RowMeans(rows: seq<seq<real>>) returns (means: seq<real>)
    requires forall k :: 0 <= k < |rows| ==> rows[k] != []
    ensures |means| == |rows|
    ensures forall k :: 0 <= k < |rows| ==> means[k] == Mean(rows[k])
  {
    var a := new real[|rows|];
    for i := 0 to |rows|
      invariant forall k :: 0 <= k < i ==> a[k] == Mean(rows[k])
    {
      a[i] := Mean(rows[i]);
    }
    means := a[..];
  }

  /** The quotients computed from the windows, their means and the means of
      their absolute deviations are the index at the windows' last positions. */
  lemma ValuesAreIndices(tp: seq<real>, period: nat, scaling: real, windows: seq<seq<real>>,
                         central: seq<Val>, deviations: seq<seq<real>>, mads: seq<real>, values: seq<Val>)
    requires 1 <= period <= |tp|
    requires |windows| == |tp| - period + 1
    requires |central| == |deviations| == |mads| == |values| == |windows|
    requires forall k :: 0 <= k < |windows| ==> windows[k] == Trailing(tp, period, k + period - 1) && |windows[k]| == period
    requires forall k :: 0 <= k < |windows| ==> central[k] == Num(Mean(windows[k]))
    requires forall k :: 0 <= k < |windows| ==>
      deviations[k] == AbsDeviations(windows[k], central[k].v) && |deviations[k]| == period
    requires forall k :: 0 <= k < |windows| ==> mads[k] == Mean(deviations[k])
    requires values == Quotients(tp, period, central, mads, scaling)
    ensures forall k :: 0 <= k < |values| ==> values[k] == CciAt(tp, period, scaling, k + period - 1)
  {
  }

  /** The padded values, once each is the index at its position, are `Cci`. */
  lemma PaddedIndices(high: seq<real>, low: seq<real>, close: seq<real>, period: nat, scaling: real, values: seq<Val>)
    requires |low| == |high| && |close| == |high|
    requires 1 <= period <= |high|
    requires |values| == |high| - period + 1
    requires forall k :: 0 <= k < |values| ==> values[k] == CciAt(Typical(high, low, close), period, scaling, k + period - 1)
    ensures Undefs(period - 1) + values == Cci(high, low, close, period, scaling)
  {
    var r, spec := Undefs(period - 1) + values, Cci(high, low, close, period, scaling);
    forall i | period - 1 <= i < |high|
      ensures r[i] == spec[i]
    {
      assert r[i] == values[i - period + 1];
    }
  }

  /** `CCI`: the typical prices, their rolling windows, the central tendency
      from `SMA_numba`, the absolute deviations, a loop taking the mean of each
      row, and the final quotient padded with NaN. */
  method ComputeCci(high: seq<real>, low: seq<real>, close: seq<real>, period: nat, scaling: real) returns (r: seq<Val>)
    requires |low| == |high| && |close| == |high|
    requires 1 <= period <= |high|
    ensures r == Cci(high, low, close, period, scaling)
  {
    var tp := Typical(high, low, close);
    var windows := Windows(tp, period);
    var sma := ComputeSmaNumba(tp, period);
    var central := sma[period - 1..];
    var m := |windows|;
    forall k | 0 <= k < m
      ensures windows[k] == Trailing(tp, period, k + period - 1) && central[k] == Num(Mean(windows[k]))
    {
      WindowEndingAt(tp, period, k + period - 1);
    }
    var deviations := seq(m, k requires 0 <= k < m => AbsDeviations(windows[k], central[k].v));
    var mads := RowMeans(deviations);
    var values := Quotients(tp, period, central, mads, scaling);
    r := Undefs(period - 1) + values;
    ValuesAreIndices(tp, period, scaling, windows, central, deviations, mads, values);
    PaddedIndices(high, low, close, period, scaling, values);
  }
}
