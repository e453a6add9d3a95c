/** `ROC`, discrete compounding: the percentage change over `period` steps,
    `(arr[period:] - arr[:-period]) / arr[:-period] * 100`, padded with `period`
    undefined entries. */
module Roc {
  import opened Series

  function RocDiscrete(arr: seq<real>, period: nat): (r: seq<Val>)
    requires 1 <= period <= |arr|
    ensures |r| == |arr|
    ensures forall t :: 0 <= t < period ==> r[t] == Undef
    ensures forall t :: period <= t < |arr| ==> (r[t].Num? <==> arr[t - period] != 0.0)
    ensures forall t :: period <= t < |arr| && arr[t - period] != 0.0 ==>
      r[t].v == 100.0 * (arr[t] - arr[t - period]) / arr[t - period]
  {
    var n := |arr| - period;
    var later, earlier := arr[period..], arr[..n];
    Undefs(period)
      + seq(n, j requires 0 <= j < n => Mul(Div(Num(later[j] - earlier[j]), Num(earlier[j])), Num(100.0)))
  }

  /** Compounding the rate back onto the earlier price gives the later price. */
  lemma RocRecoversPrice(arr: seq<real>, period: nat, t: nat)
    requires 1 <= period <= t < |arr|
    requires arr[t - period] != 0.0
    ensures arr[t] == arr[t - period] * (1.0 + RocDiscrete(arr, period)[t].v / 100.0)
  {
    var b, c := arr[t - period], arr[t];
    var rate := RocDiscrete(arr, period)[t].v;
    assert rate == 100.0 * (c - b) / b;
    assert rate / 100.0 == (c - b) / b;
    assert b * ((c - b) / b) == c - b;
  }

  /** The example `ROC([100, 110, 121], 1, discrete) == [nan, 10, 10]`. */
  lemma RocExample()
    ensures RocDiscrete([100.0, 110.0, 121.0], 1) == [Undef, Num(10.0), Num(10.0)]
  {
    var r := RocDiscrete([100.0, 110.0, 121.0], 1);
    assert r[1].v == 100.0 * (110.0 - 100.0) / 100.0;
    assert r[2].v == 100.0 * (121.0 - 110.0) / 110.0;
  }
}
