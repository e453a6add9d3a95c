/** `rolling_window`: the overlapping windows of one array.

    The library builds them as a strided view that shares the array's storage;
    here each window is the subsequence it views. */
module Rolling {

  /** Window `k` starts one element after window `k - 1`: the view moves by one
      stride per row. */
  function Windows<T>(a: seq<T>, window: nat): (r: seq<seq<T>>)
    requires 1 <= window <= |a|
    ensures |r| == |a| - window + 1
    ensures forall k :: 0 <= k < |r| ==> r[k] == a[k..k + window]
    decreases |a|
  {
    if |a| == window then [a]
    else [a[..window]] + Windows(a[1..], window)
  }

  /** The window that ends at position `i`: `a[i - period + 1 .. i]`. */
  function Trailing<T>(a: seq<T>, period: nat, i: nat): (w: seq<T>)
    requires 1 <= period && period - 1 <= i < |a|
    ensures |w| == period && w[period - 1] == a[i]
  {
    a[i - period + 1..i + 1]
  }

  /** Row `i - period + 1` of the rolling view is the window that ends at `i`:
      this is the index shift every padded indicator relies on. */
  lemma WindowEndingAt<T>(a: seq<T>, period: nat, i: nat)
    requires 1 <= period && period - 1 <= i < |a|
    ensures Windows(a, period)[i - period + 1] == Trailing(a, period, i)
  {
  }
}
