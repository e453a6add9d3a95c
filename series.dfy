/** Values of an indicator series and the arithmetic the indicators use on them.

    The library pads its outputs with NaN. Here an element is either a number or
    `Undef`; every operation on `Val` yields `Undef` as soon as one operand is
    `Undef` (as NaN propagates), and a division by zero yields `Undef` (where the
    floating-point code would produce an infinity or a NaN). */
module Series {

  datatype Val = Undef | Num(v: real)

  function Add(x: Val, y: Val): Val { if x.Num? && y.Num? then Num(x.v + y.v) else Undef }
  function Sub(x: Val, y: Val): Val { if x.Num? && y.Num? then Num(x.v - y.v) else Undef }
  function Mul(x: Val, y: Val): Val { if x.Num? && y.Num? then Num(x.v * y.v) else Undef }
  function Div(x: Val, y: Val): Val { if x.Num? && y.Num? && y.v != 0.0 then Num(x.v / y.v) else Undef }
  function AbsVal(x: Val): Val { if x.Num? then Num(Abs(x.v)) else Undef }

  function Abs(x: real): real { if x < 0.0 then -x else x }

  /** `n` undefined entries: the `np.array([np.nan] * n)` padding. */
  function Undefs(n: nat): (r: seq<Val>)
    ensures |r| == n
    ensures forall i :: 0 <= i < n ==> r[i] == Undef
  {
    seq(n, _ => Undef)
  }

  /** A NaN-free input array seen as a series of values. */
  function Lift(xs: seq<real>): (r: seq<Val>)
    ensures |r| == |xs|
    ensures forall i :: 0 <= i < |xs| ==> r[i] == Num(xs[i])
    ensures AllNum(r)
  {
    seq(|xs|, i requires 0 <= i < |xs| => Num(xs[i]))
  }

  predicate AllNum(s: seq<Val>) { forall i :: 0 <= i < |s| ==> s[i].Num? }

  /** The numbers of a series none of whose entries is undefined. */
  function Nums(s: seq<Val>): (r: seq<real>)
    requires AllNum(s)
    ensures |r| == |s|
    ensures forall i :: 0 <= i < |s| ==> r[i] == s[i].v
  {
    seq(|s|, i requires 0 <= i < |s| => s[i].v)
  }

  function Sum(s: seq<real>): real
  {
    if s == [] then 0.0 else s[0] + Sum(s[1..])
  }

  function Mean(s: seq<real>): real
    requires s != []
  {
    Sum(s) / |s| as real
  }

  /** `np.mean` of a window that may hold NaN. */
  function MeanOf(s: seq<Val>): (m: Val)
    requires s != []
    ensures m.Num? <==> AllNum(s)
  {
    if AllNum(s) then Num(Mean(Nums(s))) else Undef
  }

  /** `np.max` of a non-empty window. */
  function MaxOf(s: seq<real>): (m: real)
    requires s != []
    ensures forall i :: 0 <= i < |s| ==> s[i] <= m
  {
    if |s| == 1 then s[0]
    else
      var t := MaxOf(s[1..]);
      if s[0] >= t then s[0] else t
  }

  /** `np.min` of a non-empty window. */
  function MinOf(s: seq<real>): (m: real)
    requires s != []
    ensures forall i :: 0 <= i < |s| ==> m <= s[i]
  {
    if |s| == 1 then s[0]
    else
      var t := MinOf(s[1..]);
      if s[0] <= t then s[0] else t
  }

  /** The maximum is one of the elements. */
  lemma {:induction false} MaxOfAttained(s: seq<real>)
    requires s != []
    ensures exists i :: 0 <= i < |s| && s[i] == MaxOf(s)
  {
    if |s| > 1 && s[0] < MaxOf(s[1..]) {
      MaxOfAttained(s[1..]);
      var i :| 0 <= i < |s| - 1 && s[1..][i] == MaxOf(s[1..]);
      assert s[i + 1] == MaxOf(s);
    } else {
      assert s[0] == MaxOf(s);
    }
  }

  /** The minimum is one of the elements. */
  lemma {:induction false} MinOfAttained(s: seq<real>)
    requires s != []
    ensures exists i :: 0 <= i < |s| && s[i] == MinOf(s)
  {
    if |s| > 1 && s[0] > MinOf(s[1..]) {
      MinOfAttained(s[1..]);
      var i :| 0 <= i < |s| - 1 && s[1..][i] == MinOf(s[1..]);
      assert s[i + 1] == MinOf(s);
    } else {
      assert s[0] == MinOf(s);
    }
  }

  /** The typical price `(high + close + low) / 3` of each time step. */
  function Typical(high: seq<real>, low: seq<real>, close: seq<real>): (tp: seq<real>)
    requires |low| == |high| && |close| == |high|
    ensures |tp| == |high|
    ensures forall i :: 0 <= i < |high| && low[i] <= close[i] <= high[i] ==> low[i] <= tp[i] <= high[i]
  {
    seq(|high|, i requires 0 <= i < |high| => (high[i] + close[i] + low[i]) / 3.0)
  }

  // ---------------------------------------------------------------------------
  // Facts about sums and means

  lemma {:induction false} SumAtLeast(s: seq<real>, lo: real)
    requires forall i :: 0 <= i < |s| ==> lo <= s[i]
    ensures |s| as real * lo <= Sum(s)
  {
    if s != [] {
      SumAtLeast(s[1..], lo);
    }
  }

  lemma {:induction false} SumAtMost(s: seq<real>, hi: real)
    requires forall i :: 0 <= i < |s| ==> s[i] <= hi
    ensures Sum(s) <= |s| as real * hi
  {
    if s != [] {
      SumAtMost(s[1..], hi);
    }
  }

  lemma MeanAtLeast(s: seq<real>, lo: real)
    requires s != []
    requires forall i :: 0 <= i < |s| ==> lo <= s[i]
    ensures lo <= Mean(s)
  {
    SumAtLeast(s, lo);
    var n := |s| as real;
    assert n * lo / n == lo;
  }

  lemma MeanAtMost(s: seq<real>, hi: real)
    requires s != []
    requires forall i :: 0 <= i < |s| ==> s[i] <= hi
    ensures Mean(s) <= hi
  {
    SumAtMost(s, hi);
    var n := |s| as real;
    assert n * hi / n == hi;
  }

  /** The mean of a window lies between any bounds of its elements. */
  lemma MeanWithin(s: seq<real>, lo: real, hi: real)
    requires s != []
    requires forall i :: 0 <= i < |s| ==> lo <= s[i] <= hi
    ensures lo <= Mean(s) <= hi
  {
    MeanAtLeast(s, lo);
    MeanAtMost(s, hi);
  }

  /** A window whose elements all equal `c` has mean `c`. */
  lemma {:induction false} SumOfConstant(s: seq<real>, c: real)
    requires forall i :: 0 <= i < |s| ==> s[i] == c
    ensures Sum(s) == |s| as real * c
  {
    if s != [] {
      SumOfConstant(s[1..], c);
    }
  }

  /** A sum of non-negative terms is zero only when every term is. */
  lemma {:induction false} SumZeroOfNonNegative(s: seq<real>)
    requires forall i :: 0 <= i < |s| ==> 0.0 <= s[i]
    requires Sum(s) == 0.0
    ensures forall i :: 0 <= i < |s| ==> s[i] == 0.0
  {
    if s != [] {
      SumAtLeast(s[1..], 0.0);
      SumZeroOfNonNegative(s[1..]);
      forall i | 1 <= i < |s| ensures s[i] == 0.0 {
        assert s[i] == s[1..][i - 1];
      }
    }
  }

  /** If every `2 * |x_i|` is bounded by `y_i`, the sums keep that bound. */
  lemma {:induction false} SumHalfDominated(xs: seq<real>, ys: seq<real>)
    requires |xs| == |ys|
    requires forall i :: 0 <= i < |xs| ==> 2.0 * Abs(xs[i]) <= ys[i]
    ensures 2.0 * Abs(Sum(xs)) <= Sum(ys)
  {
    if xs != [] {
      SumHalfDominated(xs[1..], ys[1..]);
    }
  }

  lemma MeanHalfDominated(xs: seq<real>, ys: seq<real>)
    requires |xs| == |ys| && xs != []
    requires forall i :: 0 <= i < |xs| ==> 2.0 * Abs(xs[i]) <= ys[i]
    ensures 2.0 * Abs(Mean(xs)) <= Mean(ys)
  {
    SumHalfDominated(xs, ys);
    var n := |xs| as real;
    var sx, sy := Sum(xs), Sum(ys);
    AbsOfQuotient(sx, n);
    DivideBoth(2.0 * Abs(sx), sy, n);
    assert 2.0 * (Abs(sx) / n) == (2.0 * Abs(sx)) / n;
  }

  lemma AbsOfQuotient(x: real, n: real)
    requires 0.0 < n
    ensures Abs(x / n) == Abs(x) / n
  {
    if x < 0.0 {
      assert x / n < 0.0;
      assert -(x / n) == (-x) / n;
    }
  }

  /** Dividing both sides by a positive number keeps an inequality. */
  lemma DivideBoth(a: real, b: real, n: real)
    requires a <= b && 0.0 < n
    ensures a / n <= b / n
  {
  }

  /** The sum peels off its last term as well as its first. */
  lemma {:induction false} SumLast(s: seq<real>)
    requires s != []
    ensures Sum(s) == Sum(s[..|s| - 1]) + s[|s| - 1]
  {
    if |s| > 1 {
      SumLast(s[1..]);
      assert s[1..][..|s| - 2] == s[..|s| - 1][1..];
    }
  }

  /** Shifting every term by `c` shifts the sum by `|s| * c`. */
  lemma {:induction false} SumShifted(s: seq<real>, d: seq<real>, c: real)
    requires |d| == |s|
    requires forall i :: 0 <= i < |s| ==> d[i] == s[i] - c
    ensures Sum(d) == Sum(s) - |s| as real * c
  {
    if s != [] {
      SumShifted(s[1..], d[1..], c);
    }
  }

  /** The triangle inequality for sums: `|sum d| <= sum |d|`. */
  lemma {:induction false} SumAbsBound(d: seq<real>, a: seq<real>)
    requires |a| == |d|
    requires forall i :: 0 <= i < |d| ==> a[i] == Abs(d[i])
    ensures Abs(Sum(d)) <= Sum(a)
  {
    if d != [] {
      SumAbsBound(d[1..], a[1..]);
    }
  }
}
