/** `MACD`: the difference of a fast and a slow exponential average (optionally
    as a percentage of the slow one), its signal line, and the histogram
    between the two. */
module Macd {
  import opened Series
  import opened Recurrence

  datatype MacdResult = MacdResult(macd: seq<Val>, signal: seq<Val>, hist: seq<Val>)

  /** One entry of the MACD line: `fast - slow`, then `*= 100 / slow` when
      `percent`. */
  function MacdAt(f: Val, s: Val, percent: bool): Val
  {
    var d := Sub(f, s);
    if percent then Mul(d, Div(Num(100.0), s)) else d
  }

  /** `fast_EMA - slow_EMA`, then `macd *= 100 / slow_EMA` when `percent`. */
  function MacdLine(arr: seq<real>, fast: nat, slow: nat, percent: bool): (m: seq<Val>)
    requires 1 <= fast <= |arr| && 1 <= slow <= |arr|
    ensures |m| == |arr|
    ensures forall i :: 0 <= i < |arr| ==>
      m[i] == MacdAt(Ema(Lift(arr), fast, Flag(false))[i], Ema(Lift(arr), slow, Flag(false))[i], percent)
  {
    var f, s := Ema(Lift(arr), fast, Flag(false)), Ema(Lift(arr), slow, Flag(false));
    seq(|arr|, i requires 0 <= i < |arr| => MacdAt(f[i], s[i], percent))
  }

  /** `MACD(arr, fast_period, slow_period, signal_period, percent)`. The signal
      line copies the first `slow_period - 1` entries of the MACD line and
      averages the rest; the histogram is their difference at every index. */
  function Macd(arr: seq<real>, fast: nat, slow: nat, signalPeriod: nat, percent: bool): (r: MacdResult)
    requires 1 <= fast <= |arr| && 1 <= slow <= |arr|
    requires 1 <= signalPeriod <= |arr| - slow + 1
    ensures |r.macd| == |arr| && |r.signal| == |arr| && |r.hist| == |arr|
    ensures forall i :: 0 <= i < slow - 1 ==> r.signal[i] == r.macd[i]
    ensures forall i :: slow - 1 <= i < |arr| ==>
      r.signal[i] == Ema(r.macd[slow - 1..], signalPeriod, Flag(false))[i - slow + 1]
    ensures forall i :: 0 <= i < |arr| ==> r.hist[i] == Sub(r.macd[i], r.signal[i])
  {
    var macd := MacdLine(arr, fast, slow, percent);
    var signal := SignalLine(macd, slow, signalPeriod);
    MacdResult(macd, signal, Difference(macd, signal))
  }

  /** `np.concatenate((macd[:slow_period-1], EMA(macd[slow_period-1:], signal_period)))`. */
  function SignalLine(macd: seq<Val>, slow: nat, signalPeriod: nat): (g: seq<Val>)
    requires 1 <= slow <= |macd| && 1 <= signalPeriod <= |macd| - slow + 1
    ensures |g| == |macd|
    ensures forall i :: 0 <= i < slow - 1 ==> g[i] == macd[i]
    ensures forall i :: slow - 1 <= i < |macd| ==> g[i] == Ema(macd[slow - 1..], signalPeriod, Flag(false))[i - slow + 1]
  {
    macd[..slow - 1] + Ema(macd[slow - 1..], signalPeriod, Flag(false))
  }

  /** `hist = macd - signal`, element by element. */
  function Difference(x: seq<Val>, y: seq<Val>): (d: seq<Val>)
    requires |y| == |x|
    ensures |d| == |x|
    ensures forall i :: 0 <= i < |x| ==> d[i] == Sub(x[i], y[i])
  {
    seq(|x|, i requires 0 <= i < |x| => Sub(x[i], y[i]))
  }

  /** Before either average is seeded the MACD line is undefined. */
  lemma MacdLineWarmUp(arr: seq<real>, fast: nat, slow: nat, percent: bool, i: nat)
    requires 1 <= fast <= |arr| && 1 <= slow <= |arr|
    requires i < fast - 1 || i < slow - 1
    ensures MacdLine(arr, fast, slow, percent)[i] == Undef
  {
  }

  /** Past both warm-ups both averages are defined and the MACD entry is
      computed from them. */
  lemma MacdLineValue(arr: seq<real>, fast: nat, slow: nat, percent: bool, i: nat)
    requires 1 <= fast <= |arr| && 1 <= slow <= |arr|
    requires fast - 1 <= i < |arr| && slow - 1 <= i
    ensures Ema(Lift(arr), fast, Flag(false))[i].Num? && Ema(Lift(arr), slow, Flag(false))[i].Num?
    ensures MacdLine(arr, fast, slow, percent)[i]
      == MacdAt(Ema(Lift(arr), fast, Flag(false))[i], Ema(Lift(arr), slow, Flag(false))[i], percent)
  {
    EmaDefined(Lift(arr), fast, Flag(false), i);
    EmaDefined(Lift(arr), slow, Flag(false), i);
  }

  /** An entry from two defined averages is their difference, or that
      difference in percent of the slow one, undefined where the slow average
      is zero. */
  lemma MacdAtValue(f: real, s: real, percent: bool)
    ensures MacdAt(Num(f), Num(s), percent) ==
      if !percent then Num(f - s)
      else if s == 0.0 then Undef
      else Num((f - s) * (100.0 / s))
  {
  }

  /** Without the percent rescaling and with `fast_period <= slow_period`, the
      line is defined from `slow_period - 1`, the signal and the histogram from
      `slow_period + signal_period - 2`, and there `hist == macd - signal` as
      numbers. */
  lemma MacdDefined(arr: seq<real>, fast: nat, slow: nat, signalPeriod: nat)
    requires 1 <= fast <= slow <= |arr|
    requires 1 <= signalPeriod <= |arr| - slow + 1
    ensures var r := Macd(arr, fast, slow, signalPeriod, false);
      && (forall i :: slow - 1 <= i < |arr| ==> r.macd[i].Num?)
      && (forall i :: slow + signalPeriod - 2 <= i < |arr| ==>
            r.signal[i].Num? && r.hist[i] == Num(r.macd[i].v - r.signal[i].v))
  {
    var r := Macd(arr, fast, slow, signalPeriod, false);
    forall i | slow - 1 <= i < |arr|
      ensures r.macd[i].Num?
    {
      MacdLineValue(arr, fast, slow, false, i);
    }
    var tail := r.macd[slow - 1..];
    assert AllNum(tail) by {
      forall j | 0 <= j < |tail| ensures tail[j].Num? {
        assert tail[j] == r.macd[j + slow - 1];
      }
    }
    forall i | slow + signalPeriod - 2 <= i < |arr|
      ensures r.signal[i].Num? && r.hist[i] == Num(r.macd[i].v - r.signal[i].v)
    {
      EmaDefined(tail, signalPeriod, Flag(false), i - slow + 1);
      assert r.hist[i] == Sub(r.macd[i], r.signal[i]);
    }
  }

  /** With `fast_period > slow_period` the MACD line is still undefined at
      `slow_period - 1`, the signal average is seeded with NaN, and the signal
      line and the histogram are undefined everywhere. */
  lemma MacdSignalUndefinedWhenFastIsSlower(arr: seq<real>, fast: nat, slow: nat, signalPeriod: nat, percent: bool)
    requires 1 <= slow < fast <= |arr|
    requires 1 <= signalPeriod <= |arr| - slow + 1
    ensures var r := Macd(arr, fast, slow, signalPeriod, percent);
      forall i :: 0 <= i < |arr| ==> r.signal[i] == Undef && r.hist[i] == Undef
  {
    var r := Macd(arr, fast, slow, signalPeriod, percent);
    var tail := r.macd[slow - 1..];
    MacdLineWarmUp(arr, fast, slow, percent, slow - 1);
    assert tail[0] == Undef;
    EmaUndefinedSeed(tail, signalPeriod, Flag(false), 0);
    forall i | 0 <= i < slow - 1
      ensures r.signal[i] == Undef
    {
      MacdLineWarmUp(arr, fast, slow, percent, i);
    }
  }
}
