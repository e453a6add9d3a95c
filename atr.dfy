/** `ATR`: the average true range, Wilder's average (`alpha = True`, that is
    `1 / period`) of the true range of each step after the first. */
module Atr {
  import opened Series
  import opened Recurrence

  /** Python's `max(a, b, c)` on three numbers. */
  function Max3(a: real, b: real, c: real): (m: real)
    ensures a <= m && b <= m && c <= m
    ensures m == a || m == b || m == c
  {
    if a >= b && a >= c then a else if b >= c then b else c
  }

  /** The true range of step `i + 1`: the largest of its high-low span and the
      distances of its high and its low from the previous close. The first step
      has no previous close, so there is one value fewer than there are steps. */
  function TrueRange(high: seq<real>, low: seq<real>, close: seq<real>): (tr: seq<real>)
    requires |low| == |high| && |close| == |high| && 1 <= |high|
    ensures |tr| == |high| - 1
    ensures forall i :: 0 <= i < |tr| ==>
      && 0.0 <= tr[i]
      && high[i + 1] - low[i + 1] <= tr[i]
      && Abs(high[i + 1] - close[i]) <= tr[i]
      && Abs(low[i + 1] - close[i]) <= tr[i]
      && (tr[i] == high[i + 1] - low[i + 1] || tr[i] == Abs(high[i + 1] - close[i]) || tr[i] == Abs(low[i + 1] - close[i]))
  {
    seq(|high| - 1, i requires 0 <= i < |high| - 1 =>
      Max3(high[i + 1] - low[i + 1], Abs(high[i + 1] - close[i]), Abs(low[i + 1] - close[i])))
  }

  /** The average true range: the Wilder average of the true range. It is one
      element shorter than the inputs (it is not re-padded), and every value from
      the seed on is defined and non-negative. */
  function Atr(high: seq<real>, low: seq<real>, close: seq<real>, period: nat): (r: seq<Val>)
    requires |low| == |high| && |close| == |high|
    requires 1 <= period <= |high| - 1
    ensures |r| == |high| - 1
    ensures forall i :: 0 <= i < period - 1 ==> r[i] == Undef
    ensures forall i :: period - 1 <= i < |r| ==> r[i].Num? && 0.0 <= r[i].v
  {
    var tr := Lift(TrueRange(high, low, close));
    EmaAllAtLeast(tr, period, Flag(true), 0.0);
    Ema(tr, period, Flag(true))
  }

  /** Every value after the seed is one Wilder step from the value before:
      `atr[i] = atr[i - 1] * (1 - 1/period) + tr[i] / period`. */
  lemma AtrStep(high: seq<real>, low: seq<real>, close: seq<real>, period: nat, i: nat)
    requires |low| == |high| && |close| == |high|
    requires 1 <= period <= i < |high| - 1
    ensures var r := Atr(high, low, close, period);
      r[i] == Step(r[i - 1], Num(TrueRange(high, low, close)[i]), 1.0 / period as real)
  {
    EmaStep(Lift(TrueRange(high, low, close)), period, Flag(true), i);
    AlphaConventions(period, 0.0);
  }

  /** `ATR(dfHigh, dfLow, dfClose, period)`: the three difference arrays, the
      true range filled in by a loop, and its Wilder average. */
  method ComputeAtr(high: seq<real>, low: seq<real>, close: seq<real>, period: nat) returns (r: seq<Val>)
    requires |low| == |high| && |close| == |high|
    requires 1 <= period <= |high| - 1
    ensures r == Atr(high, low, close, period)
  {
    var n := |high| - 1;
    var highMinusLow := seq(n, i requires 0 <= i < n => high[i + 1] - low[i + 1]);
    var highMinusClosePrev := seq(n, i requires 0 <= i < n => Abs(high[i + 1] - close[i]));
    var lowMinusClosePrev := seq(n, i requires 0 <= i < n => Abs(low[i + 1] - close[i]));
    var ranges := new real[n];
    for i := 0 to n
      invariant forall k :: 0 <= k < i ==> ranges[k] == TrueRange(high, low, close)[k]
    {
      ranges[i] := Max3(highMinusLow[i], highMinusClosePrev[i], lowMinusClosePrev[i]);
    }
    assert ranges[..] == TrueRange(high, low, close);
    r := ComputeEma(Lift(ranges[..]), period, Flag(true));
  }
}
