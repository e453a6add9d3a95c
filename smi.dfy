/** `SMI`: the stochastic momentum index. The close is compared with the centre
    of the high-low range of its window; that distance and the range are each
    smoothed twice by exponential averages (slow, then fast), and the index is
    `100 * distance / (range / 2)`. Its signal line averages the index once
    more. */
module Smi {
  import opened Series
  import opened Rolling
  import opened Recurrence

  datatype SmiResult = SmiResult(smi: seq<Val>, signal: seq<Val>)

  /** The midpoint of the highest high and the lowest low of the window that
      ends at `t`. */
  function WindowMidpoint(high: seq<real>, low: seq<real>, period: nat, t: nat): real
    requires |low| == |high| && 1 <= period && period - 1 <= t < |high|
  {
    (MaxOf(Trailing(high, period, t)) + MinOf(Trailing(low, period, t))) / 2.0
  }

  /** The width of that range. */
  function WindowWidth(high: seq<real>, low: seq<real>, period: nat, t: nat): real
    requires |low| == |high| && 1 <= period && period - 1 <= t < |high|
  {
    MaxOf(Trailing(high, period, t)) - MinOf(Trailing(low, period, t))
  }

  /** `centre` after the back-fill: the midpoint of the highest high and the
      lowest low of the window ending at `t`, and before the first full window
      the midpoint of that step's own high and low. */
  function Centre(high: seq<real>, low: seq<real>, period: nat): (c: seq<real>)
    requires |low| == |high| && 1 <= period <= |high|
    ensures |c| == |high|
    ensures forall t :: 0 <= t < period - 1 ==> c[t] == (high[t] + low[t]) / 2.0
    ensures forall t :: period - 1 <= t < |high| ==>
      c[t] == WindowMidpoint(high, low, period, t)
  {
    seq(|high|, t requires 0 <= t < |high| =>
      if t < period - 1 then (high[t] + low[t]) / 2.0
      else WindowMidpoint(high, low, period, t))
  }

  /** `HL_diff` after the back-fill: the width of the same range. */
  function HighLowRange(high: seq<real>, low: seq<real>, period: nat): (d: seq<real>)
    requires |low| == |high| && 1 <= period <= |high|
    ensures |d| == |high|
    ensures forall t :: 0 <= t < period - 1 ==> d[t] == high[t] - low[t]
    ensures forall t :: period - 1 <= t < |high| ==>
      d[t] == WindowWidth(high, low, period, t)
  {
    seq(|high|, t requires 0 <= t < |high| =>
      if t < period - 1 then high[t] - low[t]
      else WindowWidth(high, low, period, t))
  }

  /** `c_diff = dfClose - centre`. */
  function CloseDiff(high: seq<real>, low: seq<real>, close: seq<real>, period: nat): (c: seq<real>)
    requires |low| == |high| && |close| == |high| && 1 <= period <= |high|
    ensures |c| == |high|
  {
    var centre := Centre(high, low, period);
    seq(|high|, t requires 0 <= t < |high| => close[t] - centre[t])
  }

  /** `EMA(EMA(x, slow)[slow-1:], fast)`: the double smoothing applied to both
      the distance and the range. */
  function SmoothedTwice(x: seq<real>, slow: nat, fast: nat): (r: seq<Val>)
    requires 1 <= slow <= |x| && 1 <= fast <= |x| - slow + 1
    ensures |r| == |x| - slow + 1
    ensures forall j :: 0 <= j < fast - 1 ==> r[j] == Undef
  {
    Ema(Ema(Lift(x), slow, Flag(false))[slow - 1..], fast, Flag(false))
  }

  /** `den2 = ... / 2`. */
  function Halved(d: seq<Val>): (h: seq<Val>)
    ensures |h| == |d|
  {
    seq(|d|, j requires 0 <= j < |d| => Div(d[j], Num(2.0)))
  }

  /** `100 * (num2 / den2)`. */
  function Percent(num: seq<Val>, den: seq<Val>): (p: seq<Val>)
    requires |den| == |num|
    ensures |p| == |num|
  {
    seq(|num|, j requires 0 <= j < |num| => Mul(Num(100.0), Div(num[j], den[j])))
  }

  /** The index before padding: one entry per position from `slow_period - 1`. */
  function SmiLine(high: seq<real>, low: seq<real>, close: seq<real>, period: nat, fast: nat, slow: nat): (s: seq<Val>)
    requires |low| == |high| && |close| == |high| && 1 <= period <= |high|
    requires 1 <= slow <= |high| && 1 <= fast <= |high| - slow + 1
    ensures |s| == |high| - slow + 1
    ensures forall j :: 0 <= j < fast - 1 ==> s[j] == Undef
  {
    var num2 := SmoothedTwice(CloseDiff(high, low, close, period), slow, fast);
    var den2 := Halved(SmoothedTwice(HighLowRange(high, low, period), slow, fast));
    Percent(num2, den2)
  }

  /** `SMI(dfHigh, dfLow, dfClose, period, fast_period, slow_period, signal_period)`:
      the index padded with `slow_period - 1` undefined entries and the signal
      `EMA(SMI[1:], signal_period)` padded with `slow_period`. */
  function Smi(high: seq<real>, low: seq<real>, close: seq<real>, period: nat, fast: nat, slow: nat, signalPeriod: nat): (r: SmiResult)
    requires |low| == |high| && |close| == |high| && 1 <= period <= |high|
    requires 1 <= slow <= |high| && 1 <= fast <= |high| - slow + 1
    requires 1 <= signalPeriod <= |high| - slow
    ensures |r.smi| == |high| && |r.signal| == |high|
    ensures forall t :: 0 <= t < slow + fast - 2 ==> r.smi[t] == Undef
    ensures forall t :: 0 <= t < slow + signalPeriod - 1 ==> r.signal[t] == Undef
  {
    var line := SmiLine(high, low, close, period, fast, slow);
    SmiResult(Undefs(slow - 1) + line, Undefs(slow) + Ema(line[1..], signalPeriod, Flag(false)))
  }

  // ---------------------------------------------------------------------------
  // The close against its range

  /** A close inside its own step's high-low range lies within half the range
      of the centre, at every position. */
  lemma CloseWithinHalfRange(high: seq<real>, low: seq<real>, close: seq<real>, period: nat, t: nat)
    requires |low| == |high| && |close| == |high| && 1 <= period <= |high|
    requires t < |high| && low[t] <= close[t] <= high[t]
    ensures 2.0 * Abs(CloseDiff(high, low, close, period)[t]) <= HighLowRange(high, low, period)[t]
  {
    if t >= period - 1 {
      var hi, lo := MaxOf(Trailing(high, period, t)), MinOf(Trailing(low, period, t));
      assert high[t] <= hi && lo <= low[t];
    }
  }

  /** Where every high is above its low, every range is positive. */
  lemma RangePositive(high: seq<real>, low: seq<real>, period: nat, t: nat)
    requires |low| == |high| && 1 <= period <= |high|
    requires t < |high| && low[t] < high[t]
    ensures 0.0 < HighLowRange(high, low, period)[t]
  {
    if t >= period - 1 {
      var hi, lo := MaxOf(Trailing(high, period, t)), MinOf(Trailing(low, period, t));
      assert high[t] <= hi && lo <= low[t];
    }
  }

  // ---------------------------------------------------------------------------
  // The double smoothing

  /** A double smoothing of fully defined data is defined from `fast - 1` on. */
  lemma SmoothedTwiceDefined(x: seq<real>, slow: nat, fast: nat, j: nat)
    requires 1 <= slow <= |x| && 1 <= fast <= |x| - slow + 1
    requires fast - 1 <= j < |x| - slow + 1
    ensures SmoothedTwice(x, slow, fast)[j].Num?
  {
    var inner := Ema(Lift(x), slow, Flag(false));
    var tail := inner[slow - 1..];
    assert AllNum(tail) by {
      forall k | 0 <= k < |tail| ensures tail[k].Num? {
        EmaDefined(Lift(x), slow, Flag(false), k + slow - 1);
      }
    }
    EmaDefined(tail, fast, Flag(false), j);
  }

  /** A double smoothing of data bounded below by `lo` stays at or above `lo`. */
  lemma SmoothedTwiceAtLeast(x: seq<real>, slow: nat, fast: nat, lo: real, j: nat)
    requires 1 <= slow <= |x| && 1 <= fast <= |x| - slow + 1
    requires fast - 1 <= j < |x| - slow + 1
    requires forall t :: 0 <= t < |x| ==> lo <= x[t]
    ensures SmoothedTwice(x, slow, fast)[j].Num? && lo <= SmoothedTwice(x, slow, fast)[j].v
  {
    var inner := Ema(Lift(x), slow, Flag(false));
    var tail := inner[slow - 1..];
    forall k | 0 <= k < |tail|
      ensures tail[k].Num? && lo <= tail[k].v
    {
      EmaAtLeast(Lift(x), slow, Flag(false), lo, k + slow - 1);
    }
    EmaAtLeast(tail, fast, Flag(false), lo, j);
  }

  /** If every `2 * |x_t|` is bounded by `y_t`, the double smoothings keep that
      bound: an exponential average is a convex combination at every step. */
  lemma SmoothedTwiceHalfDominated(xs: seq<real>, ys: seq<real>, slow: nat, fast: nat, j: nat)
    requires |xs| == |ys|
    requires 1 <= slow <= |xs| && 1 <= fast <= |xs| - slow + 1
    requires fast - 1 <= j < |xs| - slow + 1
    requires forall t :: 0 <= t < |xs| ==> 2.0 * Abs(xs[t]) <= ys[t]
    ensures SmoothedTwice(xs, slow, fast)[j].Num? && SmoothedTwice(ys, slow, fast)[j].Num?
    ensures 2.0 * Abs(SmoothedTwice(xs, slow, fast)[j].v) <= SmoothedTwice(ys, slow, fast)[j].v
  {
    var ix, iy := Ema(Lift(xs), slow, Flag(false)), Ema(Lift(ys), slow, Flag(false));
    var tx, ty := ix[slow - 1..], iy[slow - 1..];
    forall k | 0 <= k < |tx|
      ensures tx[k].Num? && ty[k].Num? && 2.0 * Abs(tx[k].v) <= ty[k].v
    {
      EmaHalfDominated(Lift(xs), Lift(ys), slow, Flag(false), k + slow - 1);
    }
    EmaHalfDominated(tx, ty, fast, Flag(false), j);
  }

  // ---------------------------------------------------------------------------
  // Properties of the index

  lemma QuotientAtMostOne(a: real, h: real)
    requires 0.0 <= a <= h && 0.0 < h
    ensures a / h <= 1.0
  {
    var b := a / h;
    assert b * h == a;
  }

  /** `100 * (num / (den / 2))` lies in [-100, 100] when `2 * |num| <= den`. */
  lemma PercentOfHalfBounded(num: Val, den: Val)
    requires num.Num? && den.Num? && 2.0 * Abs(num.v) <= den.v
    requires Mul(Num(100.0), Div(num, Div(den, Num(2.0)))).Num?
    ensures Abs(Mul(Num(100.0), Div(num, Div(den, Num(2.0)))).v) <= 100.0
  {
    var h := den.v / 2.0;
    assert h != 0.0;
    assert 0.0 < h;
    assert Abs(num.v) <= h;
    var q := num.v / h;
    assert Abs(q) == Abs(num.v) / h;
    QuotientAtMostOne(Abs(num.v), h);
    assert Abs(100.0 * q) == 100.0 * Abs(q);
  }

  /** When every close lies within its step's high and low, every defined value
      of the index lies in [-100, 100]. */
  lemma SmiBounded(high: seq<real>, low: seq<real>, close: seq<real>, period: nat, fast: nat, slow: nat, signalPeriod: nat)
    requires |low| == |high| && |close| == |high| && 1 <= period <= |high|
    requires 1 <= slow <= |high| && 1 <= fast <= |high| - slow + 1
    requires 1 <= signalPeriod <= |high| - slow
    requires forall t :: 0 <= t < |high| ==> low[t] <= close[t] <= high[t]
    ensures var s := Smi(high, low, close, period, fast, slow, signalPeriod).smi;
      forall t :: 0 <= t < |high| && s[t].Num? ==> Abs(s[t].v) <= 100.0
  {
    var s := Smi(high, low, close, period, fast, slow, signalPeriod).smi;
    var cd, hl := CloseDiff(high, low, close, period), HighLowRange(high, low, period);
    forall t | 0 <= t < |high| ensures 2.0 * Abs(cd[t]) <= hl[t] {
      CloseWithinHalfRange(high, low, close, period, t);
    }
    forall t | 0 <= t < |high| && s[t].Num?
      ensures Abs(s[t].v) <= 100.0
    {
      var j := t - slow + 1;
      var num2, den := SmoothedTwice(cd, slow, fast), SmoothedTwice(hl, slow, fast);
      assert s[t] == Mul(Num(100.0), Div(num2[j], Div(den[j], Num(2.0))));
      SmoothedTwiceHalfDominated(cd, hl, slow, fast, j);
      PercentOfHalfBounded(num2[j], den[j]);
    }
  }

  /** With every high above its low, the unpadded index is defined at every
      position from `fast_period - 1` on; after padding to the input's length
      that is every position from `slow_period + fast_period - 2` on. */
  lemma SmiDefined(high: seq<real>, low: seq<real>, close: seq<real>, period: nat, fast: nat, slow: nat, t: nat)
    requires |low| == |high| && |close| == |high| && 1 <= period <= |high|
    requires 1 <= slow <= |high| && 1 <= fast <= |high| - slow + 1
    requires forall k :: 0 <= k < |high| ==> low[k] < high[k]
    requires fast - 1 <= t < |high| - slow + 1
    ensures SmiLine(high, low, close, period, fast, slow)[t].Num?
  {
    var cd, hl := CloseDiff(high, low, close, period), HighLowRange(high, low, period);
    var lo := MinOf(hl);
    assert 0.0 < lo by {
      MinOfAttained(hl);
      var k :| 0 <= k < |hl| && hl[k] == lo;
      RangePositive(high, low, period, k);
    }
    var num2, den := SmoothedTwice(cd, slow, fast), SmoothedTwice(hl, slow, fast);
    SmoothedTwiceDefined(cd, slow, fast, t);
    SmoothedTwiceAtLeast(hl, slow, fast, lo, t);
    assert Div(den[t], Num(2.0)).v != 0.0;
  }

  /** The padded index returned by `SMI` is defined from position
      `slow_period + fast_period - 2` on, when every high is above its low. */
  lemma SmiPaddedDefined(high: seq<real>, low: seq<real>, close: seq<real>, period: nat, fast: nat, slow: nat, signalPeriod: nat, t: nat)
    requires |low| == |high| && |close| == |high| && 1 <= period <= |high|
    requires 1 <= slow <= |high| && 1 <= fast <= |high| - slow + 1
    requires 1 <= signalPeriod <= |high| - slow
    requires forall k :: 0 <= k < |high| ==> low[k] < high[k]
    requires slow + fast - 2 <= t < |high|
    ensures Smi(high, low, close, period, fast, slow, signalPeriod).smi[t].Num?
  {
    var line := SmiLine(high, low, close, period, fast, slow);
    assert (Undefs(slow - 1) + line)[t] == line[t - (slow - 1)];
    SmiDefined(high, low, close, period, fast, slow, t - (slow - 1));
  }

  // ---------------------------------------------------------------------------
  // The signal line

  /** As written, the signal averages `SMI[1:]`, which drops only the first of
      the `fast_period - 1` undefined entries. For `fast_period >= 3` the
      average is seeded with an undefined value and the whole signal line is
      undefined. */
  lemma SignalUndefinedWhenFastAbove2(high: seq<real>, low: seq<real>, close: seq<real>, period: nat, fast: nat, slow: nat, signalPeriod: nat)
    requires |low| == |high| && |close| == |high| && 1 <= period <= |high|
    requires 3 <= fast && 1 <= slow <= |high| && fast <= |high| - slow + 1
    requires 1 <= signalPeriod <= |high| - slow
    ensures var r := Smi(high, low, close, period, fast, slow, signalPeriod);
      forall t :: 0 <= t < |high| ==> r.signal[t] == Undef
  {
    var line := SmiLine(high, low, close, period, fast, slow);
    var tail := line[1..];
    var e := Ema(tail, signalPeriod, Flag(false));
    assert tail[0] == Undef;
    forall i | signalPeriod - 1 <= i < |tail|
      ensures e[i] == Undef
    {
      EmaDefinedIff(tail, signalPeriod, Flag(false), i);
      assert tail[..i + 1][0] == Undef;
    }
  }

  /** The signal line as evidently intended: the average of the index from its
      first defined position `fast_period - 1`, padded to the input's length. */
  function SignalCorrected(high: seq<real>, low: seq<real>, close: seq<real>, period: nat, fast: nat, slow: nat, signalPeriod: nat): (g: seq<Val>)
    requires |low| == |high| && |close| == |high| && 1 <= period <= |high|
    requires 1 <= slow <= |high| && 1 <= fast <= |high| - slow + 1
    requires 1 <= signalPeriod <= |high| - slow - fast + 2
    ensures |g| == |high|
  {
    var line := SmiLine(high, low, close, period, fast, slow);
    Undefs(slow + fast - 2) + Ema(line[fast - 1..], signalPeriod, Flag(false))
  }

  /** For the default `fast_period = 2` the corrected signal is the library's. */
  lemma SignalCorrectedAgreesAtFast2(high: seq<real>, low: seq<real>, close: seq<real>, period: nat, slow: nat, signalPeriod: nat)
    requires |low| == |high| && |close| == |high| && 1 <= period <= |high|
    requires 1 <= slow && 2 <= |high| - slow + 1
    requires 1 <= signalPeriod <= |high| - slow
    ensures SignalCorrected(high, low, close, period, 2, slow, signalPeriod)
         == Smi(high, low, close, period, 2, slow, signalPeriod).signal
  {
  }

  /** With every high above its low, the corrected signal is defined at every
      position from `slow_period + fast_period + signal_period - 3` on, for any
      `fast_period`. */
  lemma SignalCorrectedDefined(high: seq<real>, low: seq<real>, close: seq<real>, period: nat, fast: nat, slow: nat, signalPeriod: nat, t: nat)
    requires |low| == |high| && |close| == |high| && 1 <= period <= |high|
    requires 1 <= slow <= |high| && 1 <= fast <= |high| - slow + 1
    requires 1 <= signalPeriod <= |high| - slow - fast + 2
    requires forall k :: 0 <= k < |high| ==> low[k] < high[k]
    requires slow + fast + signalPeriod - 3 <= t < |high|
    ensures SignalCorrected(high, low, close, period, fast, slow, signalPeriod)[t].Num?
  {
    var tail := SmiLine(high, low, close, period, fast, slow)[fast - 1..];
    SmiLineTailDefined(high, low, close, period, fast, slow);
    EmaDefined(tail, signalPeriod, Flag(false), t - (slow + fast - 2));
  }

  /** With every high above its low, the unpadded index has no undefined entry
      from `fast_period - 1` on. */
  lemma SmiLineTailDefined(high: seq<real>, low: seq<real>, close: seq<real>, period: nat, fast: nat, slow: nat)
    requires |low| == |high| && |close| == |high| && 1 <= period <= |high|
    requires 1 <= slow <= |high| && 1 <= fast <= |high| - slow + 1
    requires forall k :: 0 <= k < |high| ==> low[k] < high[k]
    ensures AllNum(SmiLine(high, low, close, period, fast, slow)[fast - 1..])
  {
    var tail := SmiLine(high, low, close, period, fast, slow)[fast - 1..];
    forall k | 0 <= k < |tail| ensures tail[k].Num? {
      SmiDefined(high, low, close, period, fast, slow, k + fast - 1);
    }
  }

  // ---------------------------------------------------------------------------
  // The computation

  /** A prefix followed by a body is the full sequence they agree with. */
  lemma BackFill(front: seq<real>, body: seq<real>, full: seq<real>)
    requires |full| == |front| + |body|
    requires forall t :: 0 <= t < |front| ==> full[t] == front[t]
    requires forall k :: 0 <= k < |body| ==> full[k + |front|] == body[k]
    ensures front + body == full
  {
    forall t | |front| <= t < |full|
      ensures (front + body)[t] == full[t]
    {
      assert full[(t - |front|) + |front|] == body[t - |front|];
    }
  }

  /** The back-fill `(dfHigh[:period-1] + dfLow[:period-1]) / 2`. */
  function FrontMidpoints(high: seq<real>, low: seq<real>, period: nat): (f: seq<real>)
    requires |low| == |high| && 1 <= period <= |high|
    ensures |f| == period - 1
    ensures forall t :: 0 <= t < period - 1 ==> f[t] == (high[t] + low[t]) / 2.0
  {
    seq(period - 1, t requires 0 <= t < period - 1 => (high[t] + low[t]) / 2.0)
  }

  /** The back-fill `dfHigh[:period-1] - dfLow[:period-1]`. */
  function FrontWidths(high: seq<real>, low: seq<real>, period: nat): (f: seq<real>)
    requires |low| == |high| && 1 <= period <= |high|
    ensures |f| == period - 1
    ensures forall t :: 0 <= t < period - 1 ==> f[t] == high[t] - low[t]
  {
    seq(period - 1, t requires 0 <= t < period - 1 => high[t] - low[t])
  }

  /** The loop over the rolling windows: the midpoint and the width of the
      range of each pair of rows, written into two fresh arrays. */
  method WindowRanges(rollingHigh: seq<seq<real>>, rollingLow: seq<seq<real>>) returns (centre: seq<real>, hlDiff: seq<real>)
    requires |rollingLow| == |rollingHigh|
    requires forall k :: 0 <= k < |rollingHigh| ==> rollingHigh[k] != [] && rollingLow[k] != []
    ensures |centre| == |rollingHigh| && |hlDiff| == |rollingHigh|
    ensures forall k :: 0 <= k < |rollingHigh| ==>
      centre[k] == (MaxOf(rollingHigh[k]) + MinOf(rollingLow[k])) / 2.0
      && hlDiff[k] == MaxOf(rollingHigh[k]) - MinOf(rollingLow[k])
  {
    var m := |rollingHigh|;
    var c, d := new real[m], new real[m];
    for i := 0 to m
      invariant forall k :: 0 <= k < i ==>
        c[k] == (MaxOf(rollingHigh[k]) + MinOf(rollingLow[k])) / 2.0
        && d[k] == MaxOf(rollingHigh[k]) - MinOf(rollingLow[k])
    {
      c[i] := (MaxOf(rollingHigh[i]) + MinOf(rollingLow[i])) / 2.0;
      d[i] := MaxOf(rollingHigh[i]) - MinOf(rollingLow[i]);
    }
    centre, hlDiff := c[..], d[..];
  }

  /** Row `k` of the two rolling views holds the window that ends at
      `k + period - 1`, so its midpoint and width are the back-filled values
      there. */
  lemma RowRange(high: seq<real>, low: seq<real>, period: nat, k: nat)
    requires |low| == |high| && 1 <= period <= |high| && k < |high| - period + 1
    ensures WindowMidpoint(high, low, period, k + period - 1)
      == (MaxOf(Windows(high, period)[k]) + MinOf(Windows(low, period)[k])) / 2.0
    ensures WindowWidth(high, low, period, k + period - 1)
      == MaxOf(Windows(high, period)[k]) - MinOf(Windows(low, period)[k])
  {
    var t := k + period - 1;
    assert t - period + 1 == k;
    WindowEndingAt(high, period, t);
    WindowEndingAt(low, period, t);
  }

  /** The loop's rows are the windows ending at each position from
      `period - 1` on. */
  lemma RowsAreWindows(high: seq<real>, low: seq<real>, period: nat, centre: seq<real>, hlDiff: seq<real>)
    requires |low| == |high| && 1 <= period <= |high|
    requires |centre| == |high| - period + 1 && |hlDiff| == |centre|
    requires forall k :: 0 <= k < |centre| ==>
      centre[k] == (MaxOf(Windows(high, period)[k]) + MinOf(Windows(low, period)[k])) / 2.0
      && hlDiff[k] == MaxOf(Windows(high, period)[k]) - MinOf(Windows(low, period)[k])
    ensures forall k :: 0 <= k < |centre| ==>
      centre[k] == WindowMidpoint(high, low, period, k + period - 1)
      && hlDiff[k] == WindowWidth(high, low, period, k + period - 1)
  {
    forall k | 0 <= k < |centre|
      ensures centre[k] == WindowMidpoint(high, low, period, k + period - 1)
      ensures hlDiff[k] == WindowWidth(high, low, period, k + period - 1)
    {
      RowRange(high, low, period, k);
    }
  }

  /** The window midpoints after the back-fill are `Centre`. */
  lemma BackFilledCentre(high: seq<real>, low: seq<real>, period: nat, centre: seq<real>)
    requires |low| == |high| && 1 <= period <= |high|
    requires |centre| == |high| - period + 1
    requires forall k :: 0 <= k < |centre| ==> centre[k] == WindowMidpoint(high, low, period, k + period - 1)
    ensures FrontMidpoints(high, low, period) + centre == Centre(high, low, period)
  {
    var full, front := Centre(high, low, period), FrontMidpoints(high, low, period);
    forall k | 0 <= k < |centre|
      ensures full[k + |front|] == centre[k]
    {
      assert k + |front| == k + period - 1;
    }
    BackFill(front, centre, full);
  }

  /** The window widths after the back-fill are `HighLowRange`. */
  lemma BackFilledRange(high: seq<real>, low: seq<real>, period: nat, hlDiff: seq<real>)
    requires |low| == |high| && 1 <= period <= |high|
    requires |hlDiff| == |high| - period + 1
    requires forall k :: 0 <= k < |hlDiff| ==> hlDiff[k] == WindowWidth(high, low, period, k + period - 1)
    ensures FrontWidths(high, low, period) + hlDiff == HighLowRange(high, low, period)
  {
    var full, front := HighLowRange(high, low, period), FrontWidths(high, low, period);
    forall k | 0 <= k < |hlDiff|
      ensures full[k + |front|] == hlDiff[k]
    {
      assert k + |front| == k + period - 1;
    }
    BackFill(front, hlDiff, full);
  }

  /** `SMI`: the loop over the rolling windows, the back-fill, the two double
      smoothings, the quotient and the padding. */
  method ComputeSmi(high: seq<real>, low: seq<real>, close: seq<real>, period: nat, fast: nat, slow: nat, signalPeriod: nat)
    returns (r: SmiResult)
    requires |low| == |high| && |close| == |high| && 1 <= period <= |high|
    requires 1 <= slow <= |high| && 1 <= fast <= |high| - slow + 1
    requires 1 <= signalPeriod <= |high| - slow
    ensures r == Smi(high, low, close, period, fast, slow, signalPeriod)
  {
    var n := |high|;
    var rollingHigh, rollingLow := Windows(high, period), Windows(low, period);
    var centre, hlDiff := WindowRanges(rollingHigh, rollingLow);
    RowsAreWindows(high, low, period, centre, hlDiff);
    BackFilledCentre(high, low, period, centre);
    BackFilledRange(high, low, period, hlDiff);
    var fullCentre := FrontMidpoints(high, low, period) + centre;
    var fullRange := FrontWidths(high, low, period) + hlDiff;
    var cDiff := seq(n, t requires 0 <= t < n => close[t] - fullCentre[t]);
    assert cDiff == CloseDiff(high, low, close, period);
    var num1 := ComputeEma(Lift(cDiff), slow, Flag(false));
    var den1 := ComputeEma(Lift(fullRange), slow, Flag(false));
    var num2 := ComputeEma(num1[slow - 1..], fast, Flag(false));
    var den2 := ComputeEma(den1[slow - 1..], fast, Flag(false));
    var line := Percent(num2, Halved(den2));
    var signal := ComputeEma(line[1..], signalPeriod, Flag(false));
    r := SmiResult(Undefs(slow - 1) + line, Undefs(slow) + signal);
  }
}
