/** `RSI`: the relative strength index. The first differences are split into
    up-moves and down-moves, each averaged with Wilder's factor `1 / period`, and
    `100 - 100 / (1 + rUp / rDown)` is prefixed with one NaN for the element
    that differencing loses. */
module Rsi {
  import opened Series
  import opened Recurrence

  /** `np.diff`: the change from each element to the next. */
  function Diff(arr: seq<real>): (delta: seq<real>)
    requires 1 <= |arr|
    ensures |delta| == |arr| - 1
    ensures forall i :: 0 <= i < |delta| ==> arr[i] + delta[i] == arr[i + 1]
  {
    seq(|arr| - 1, i requires 0 <= i < |arr| - 1 => arr[i + 1] - arr[i])
  }

  /** `up[up < 0] = 0` and `down[down > 0] = 0` on two copies of `delta`: each
      change is split into a non-negative and a non-positive part that add up to
      it, at most one of which is non-zero. */
  function UpDown(delta: seq<real>): (r: (seq<real>, seq<real>))
    ensures |r.0| == |delta| && |r.1| == |delta|
    ensures forall i :: 0 <= i < |delta| ==>
      && 0.0 <= r.0[i] && r.1[i] <= 0.0
      && r.0[i] + r.1[i] == delta[i]
      && (r.0[i] == 0.0 || r.1[i] == 0.0)
  {
    (seq(|delta|, i requires 0 <= i < |delta| => if delta[i] < 0.0 then 0.0 else delta[i]),
     seq(|delta|, i requires 0 <= i < |delta| => if delta[i] > 0.0 then 0.0 else delta[i]))
  }

  function Wilder(period: nat): AlphaArg
    requires 1 <= period
  {
    Given(1.0 / period as real)
  }

  /** `rUp = EMA(up, period, alpha = 1 / period)`: an average of non-negative
      moves with a factor in (0, 1], so it is non-negative from its seed on. */
  function AverageGain(arr: seq<real>, period: nat): (u: seq<Val>)
    requires 1 <= period <= |arr| - 1
    ensures |u| == |arr| - 1
    ensures forall i :: period - 1 <= i < |u| ==> u[i].Num? && 0.0 <= u[i].v
  {
    var up := Lift(UpDown(Diff(arr)).0);
    EmaAllAtLeast(up, period, Wilder(period), 0.0);
    Ema(up, period, Wilder(period))
  }

  /** `rDown = np.abs(EMA(down, period, alpha = 1 / period))`: defined from its
      seed on, and never negative. */
  function AverageLoss(arr: seq<real>, period: nat): (d: seq<Val>)
    requires 1 <= period <= |arr| - 1
    ensures |d| == |arr| - 1
    ensures forall i :: period - 1 <= i < |d| ==> d[i].Num? && 0.0 <= d[i].v
  {
    var down := Lift(UpDown(Diff(arr)).1);
    var e := Ema(down, period, Wilder(period));
    EmaAllDefined(down, period, Wilder(period));
    seq(|e|, i requires 0 <= i < |e| => AbsVal(e[i]))
  }

  /** `100 - (100 / (1 + rUp / rDown))`. */
  function Strength(u: Val, d: Val): Val
  {
    Sub(Num(100.0), Div(Num(100.0), Add(Num(1.0), Div(u, d))))
  }

  function Rsi(arr: seq<real>, period: nat): (r: seq<Val>)
    requires 1 <= period <= |arr| - 1
    ensures |r| == |arr|
    ensures forall i :: 0 <= i < period ==> r[i] == Undef
  {
    var u, d := AverageGain(arr, period), AverageLoss(arr, period);
    [Undef] + seq(|arr| - 1, i requires 0 <= i < |arr| - 1 => Strength(u[i], d[i]))
  }

  /** The index as the share of the gain in gain plus loss. */
  function RatioForm(u: real, d: real): real
    requires 0.0 < u + d
  {
    100.0 * u / (u + d)
  }

  /** The strength of a non-negative gain over a positive loss lies in [0, 100)
      and equals `100 * u / (u + d)`. */
  lemma StrengthOfAverages(u: real, d: real)
    requires 0.0 <= u && 0.0 < d
    ensures Strength(Num(u), Num(d)) == Num(RatioForm(u, d))
    ensures 0.0 <= RatioForm(u, d) < 100.0
  {
    var q := u / d;
    assert 0.0 <= q;
    assert (1.0 + q) * d == d + u;
    var sum := u + d;
    var x, y := 100.0 * d / sum, 100.0 * u / sum;
    assert 100.0 / (1.0 + q) == x;
    assert x + y == 100.0 * (d + u) / sum;
    assert 100.0 * (d + u) / sum == 100.0;
    assert 100.0 * u / (u + d) < 100.0 by {
      assert 100.0 * u < 100.0 * (u + d);
    }
  }

  /** Wherever the index is defined it lies in [0, 100): `rUp` averages
      non-negative moves with a factor in (0, 1], and `rDown` is an absolute
      value that a defined quotient makes non-zero. */
  lemma RsiBounds(arr: seq<real>, period: nat)
    requires 1 <= period <= |arr| - 1
    ensures forall i :: 0 <= i < |arr| && Rsi(arr, period)[i].Num? ==>
      0.0 <= Rsi(arr, period)[i].v < 100.0
  {
    var r := Rsi(arr, period);
    var u, d := AverageGain(arr, period), AverageLoss(arr, period);
    forall i | 0 <= i < |arr| && r[i].Num?
      ensures 0.0 <= r[i].v < 100.0
    {
      var j := i - 1;
      assert r[i] == Strength(u[j], d[j]);
      StrengthOfAverages(u[j].v, d[j].v);
    }
  }

  /** After the warm-up the index is defined exactly where the average loss is
      non-zero, and there it is `100 * rUp / (rUp + rDown)`. */
  lemma RsiDefinedIff(arr: seq<real>, period: nat, i: nat)
    requires 1 <= period <= i < |arr|
    ensures AverageGain(arr, period)[i - 1].Num? && AverageLoss(arr, period)[i - 1].Num?
    ensures Rsi(arr, period)[i] ==
      if AverageLoss(arr, period)[i - 1].v == 0.0 then Undef
      else Num(RatioForm(AverageGain(arr, period)[i - 1].v, AverageLoss(arr, period)[i - 1].v))
  {
    var j := i - 1;
    var u, d := AverageGain(arr, period)[j], AverageLoss(arr, period)[j];
    assert Rsi(arr, period)[i] == Strength(u, d);
    if d.v != 0.0 {
      StrengthOfAverages(u.v, d.v);
    }
  }
}
