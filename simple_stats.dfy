/** Simple moving average: `SMA` (window means over the rolling view) and its
    loop twin `SMA_numba` (a sum per window, divided by the period at the end). */
module SimpleStats {
  import opened Series
  import opened Rolling

  /** `SMA(arr, period)`: `period - 1` undefined entries, then the mean of each
      rolling window. */
  function Sma(arr: seq<real>, period: nat): (r: seq<Val>)
    requires 1 <= period <= |arr|
    ensures |r| == |arr|
    ensures forall i :: 0 <= i < period - 1 ==> r[i] == Undef
    ensures forall i :: period - 1 <= i < |arr| ==> r[i] == Num(Mean(Trailing(arr, period, i)))
  {
    var windows := Windows(arr, period);
    Undefs(period - 1) + seq(|windows|, k requires 0 <= k < |windows| => Num(Mean(windows[k])))
  }

  /** Every value of the average lies between the least and the greatest input. */
  lemma SmaWithinInputRange(arr: seq<real>, period: nat, lo: real, hi: real)
    requires 1 <= period <= |arr|
    requires forall i :: 0 <= i < |arr| ==> lo <= arr[i] <= hi
    ensures forall i :: period - 1 <= i < |arr| ==> lo <= Sma(arr, period)[i].v <= hi
  {
    forall i | period - 1 <= i < |arr|
      ensures lo <= Sma(arr, period)[i].v <= hi
    {
      MeanWithin(Trailing(arr, period, i), lo, hi);
    }
  }

  /** A three-step average is the mean of the input and the two before it. */
  lemma SmaOfThree(arr: seq<real>, i: nat)
    requires 2 <= i < |arr|
    ensures Sma(arr, 3)[i] == Num((arr[i - 2] + arr[i - 1] + arr[i]) / 3.0)
  {
    assert Trailing(arr, 3, i) == [arr[i - 2], arr[i - 1], arr[i]];
    MeanOfThree(arr[i - 2], arr[i - 1], arr[i]);
  }

  /** The example `SMA([1, 2, 3, 4, 5], 3) == [nan, nan, 2, 3, 4]`. */
  lemma SmaExample()
    ensures Sma([1.0, 2.0, 3.0, 4.0, 5.0], 3) == [Undef, Undef, Num(2.0), Num(3.0), Num(4.0)]
  {
    var a := [1.0, 2.0, 3.0, 4.0, 5.0];
    SmaOfThree(a, 2);
    SmaOfThree(a, 3);
    SmaOfThree(a, 4);
  }

  lemma MeanOfThree(x: real, y: real, z: real)
    ensures Mean([x, y, z]) == (x + y + z) / 3.0
  {
    SumOfThree(x, y, z);
  }

  lemma SumOfThree(x: real, y: real, z: real)
    ensures Sum([x, y, z]) == x + y + z
  {
    assert [x, y, z][1..] == [y, z];
    assert [y, z][1..] == [z];
    assert [z][1..] == [];
    assert Sum([z]) == z + Sum([]);
    assert Sum([y, z]) == y + Sum([z]);
  }

  /** `results / period` on an array that holds NaN. */
  function DivideEach(s: seq<Val>, d: real): (r: seq<Val>)
    ensures |r| == |s|
    ensures forall i :: 0 <= i < |s| ==> r[i] == Div(s[i], Num(d))
  {
    seq(|s|, i requires 0 <= i < |s| => Div(s[i], Num(d)))
  }

  /** `SMA_numba`: sums each window into a zeroed array, overwrites the first
      `period - 1` slots with NaN, then divides the whole array by `period`. It
      agrees with `SMA` everywhere. */
  method ComputeSmaNumba(arr: seq<real>, period: nat) returns (r: seq<Val>)
    requires 1 <= period <= |arr|
    ensures r == Sma(arr, period)
  {
    var results := new Val[|arr|](_ => Num(0.0));
    var i := period - 1;
    while i < results.Length
      invariant period - 1 <= i <= results.Length
      invariant forall k :: period - 1 <= k < i ==> results[k] == Num(Sum(Trailing(arr, period, k)))
    {
      results[i] := Num(Sum(arr[i - period + 1..i + 1]));
      i := i + 1;
    }
    for j := 0 to period - 1
      invariant forall k :: 0 <= k < j ==> results[k] == Undef
      invariant forall k :: period - 1 <= k < results.Length ==> results[k] == Num(Sum(Trailing(arr, period, k)))
    {
      results[j] := Undef;
    }
    r := DivideEach(results[..], period as real);
    ghost var sma := Sma(arr, period);
    assert forall k :: 0 <= k < |arr| ==> r[k] == sma[k];
  }
}
