/** `EMA`: the exponential moving average, the recurrence every momentum
    indicator is built on.

    The average is undefined before index `period - 1`, seeded there with the
    mean of the first `period` inputs, and then folded left to right:
    `out[i] = out[i - 1] * (1 - alpha) + alpha * in[i]`. */
module Recurrence {
  import opened Series

  /** The `alpha` argument: the flags `True` / `False`, or a smoothing factor. */
  datatype AlphaArg = Flag(on: bool) | Given(x: real)

  /** Python compares the argument with `True` and `False` by value, so the
      number 1.0 selects the `True` branch and 0.0 the `False` branch. */
  predicate IsTrue(alpha: AlphaArg) { alpha == Flag(true) || alpha == Given(1.0) }
  predicate IsFalse(alpha: AlphaArg) { alpha == Flag(false) || alpha == Given(0.0) }

  /** The smoothing factor: `1 / period` for `True` (Wilder's convention),
      `2 / (period + 1)` for `False`, and any other number as given. A flag, or a
      number in [0, 1], always yields a factor in (0, 1]. */
  function AlphaValue(alpha: AlphaArg, period: nat): (a: real)
    requires 1 <= period
    ensures (alpha.Flag? || 0.0 <= alpha.x <= 1.0) ==> 0.0 < a <= 1.0
  {
    if IsTrue(alpha) then 1.0 / period as real
    else if IsFalse(alpha) then 2.0 / (period as real + 1.0)
    else alpha.x
  }

  /** The three-way selection as the callers see it. */
  lemma AlphaConventions(period: nat, x: real)
    requires 1 <= period
    ensures AlphaValue(Flag(true), period) == 1.0 / period as real
    ensures AlphaValue(Flag(false), period) == 2.0 / (period as real + 1.0)
    ensures x != 0.0 && x != 1.0 ==> AlphaValue(Given(x), period) == x
    ensures AlphaValue(Given(1.0), period) == 1.0 / period as real
    ensures AlphaValue(Given(0.0), period) == 2.0 / (period as real + 1.0)
  {
  }

  /** RSI passes `alpha = 1 / period` as a number; it yields exactly that factor,
      even for `period == 1`, where the number equals `True`. */
  lemma ReciprocalAlpha(period: nat)
    requires 1 <= period
    ensures AlphaValue(Given(1.0 / period as real), period) == 1.0 / period as real
  {
  }

  /** One step of the recurrence: `prev * (1 - alpha) + alpha * x`. */
  function Step(prev: Val, x: Val, a: real): Val
  {
    Add(Mul(prev, Num(1.0 - a)), Mul(Num(a), x))
  }

  /** The left-to-right fold of `Step` over `xs`, starting from `prev`. */
  function Fold(prev: Val, xs: seq<Val>, a: real): (r: seq<Val>)
    ensures |r| == |xs|
    decreases |xs|
  {
    if xs == [] then []
    else
      var next := Step(prev, xs[0], a);
      [next] + Fold(next, xs[1..], a)
  }

  /** Each element of the fold is one `Step` from the element before it. */
  lemma {:induction false} FoldRecurrence(prev: Val, xs: seq<Val>, a: real, k: nat)
    requires k < |xs|
    ensures Fold(prev, xs, a)[k] == Step(if k == 0 then prev else Fold(prev, xs, a)[k - 1], xs[k], a)
    decreases k
  {
    if k > 0 {
      FoldRecurrence(Step(prev, xs[0], a), xs[1..], a, k - 1);
    }
  }

  /** `EMA(arr, period, alpha)` as a function: undefined before `period - 1`,
      the mean of the first `period` inputs at `period - 1`, then the left fold
      of the recurrence over the remaining inputs. */
  function Ema(arr: seq<Val>, period: nat, alpha: AlphaArg): (r: seq<Val>)
    requires 1 <= period <= |arr|
    ensures |r| == |arr|
    ensures forall i :: 0 <= i < period - 1 ==> r[i] == Undef
    ensures r[period - 1] == MeanOf(arr[..period])
  {
    var seed := MeanOf(arr[..period]);
    Undefs(period - 1) + [seed] + Fold(seed, arr[period..], AlphaValue(alpha, period))
  }

  /** Every output after the seed is one step of the recurrence from the output
      before it: `out[i] = out[i - 1] * (1 - alpha) + alpha * arr[i]`. */
  lemma EmaStep(arr: seq<Val>, period: nat, alpha: AlphaArg, i: nat)
    requires 1 <= period <= i < |arr|
    ensures Ema(arr, period, alpha)[i] == Step(Ema(arr, period, alpha)[i - 1], arr[i], AlphaValue(alpha, period))
  {
    var seed := MeanOf(arr[..period]);
    var xs := arr[period..];
    FoldRecurrence(seed, xs, AlphaValue(alpha, period), i - period);
    assert xs[i - period] == arr[i];
  }

  /** NaN propagation: from the seed on, an output is defined exactly when no
      input up to and including its own index is undefined. */
  lemma {:induction false} EmaDefinedIff(arr: seq<Val>, period: nat, alpha: AlphaArg, i: nat)
    requires 1 <= period <= |arr| && period - 1 <= i < |arr|
    ensures Ema(arr, period, alpha)[i].Num? <==> AllNum(arr[..i + 1])
    decreases i
  {
    if i >= period {
      EmaDefinedIff(arr, period, alpha, i - 1);
      EmaStep(arr, period, alpha, i);
      assert arr[..i + 1] == arr[..i] + [arr[i]];
    }
  }

  /** On inputs without NaN the average is defined from the seed on. */
  lemma EmaDefined(arr: seq<Val>, period: nat, alpha: AlphaArg, i: nat)
    requires 1 <= period <= |arr| && period - 1 <= i < |arr|
    requires AllNum(arr)
    ensures Ema(arr, period, alpha)[i].Num?
  {
    EmaDefinedIff(arr, period, alpha, i);
    assert AllNum(arr[..i + 1]);
  }

  lemma EmaAllDefined(arr: seq<Val>, period: nat, alpha: AlphaArg)
    requires 1 <= period <= |arr|
    requires AllNum(arr)
    ensures forall i :: period - 1 <= i < |arr| ==> Ema(arr, period, alpha)[i].Num?
  {
    forall i | period - 1 <= i < |arr|
      ensures Ema(arr, period, alpha)[i].Num?
    {
      EmaDefined(arr, period, alpha, i);
    }
  }

  /** One undefined input among the first `period` seeds the average with NaN,
      and every output is then undefined. */
  lemma EmaUndefinedSeed(arr: seq<Val>, period: nat, alpha: AlphaArg, j: nat)
    requires 1 <= period <= |arr| && j < period && arr[j] == Undef
    ensures forall i :: 0 <= i < |arr| ==> Ema(arr, period, alpha)[i] == Undef
  {
    forall i | period - 1 <= i < |arr|
      ensures Ema(arr, period, alpha)[i] == Undef
    {
      EmaDefinedIff(arr, period, alpha, i);
      assert arr[..i + 1][j] == Undef;
    }
  }

  /** The recurrence is causal: an output depends only on the inputs up to its
      index, so truncating the input after `m` elements keeps the first `m`
      outputs. */
  lemma {:induction false} EmaCausal(arr: seq<Val>, period: nat, alpha: AlphaArg, m: nat, i: nat)
    requires 1 <= period <= m <= |arr| && i < m
    ensures Ema(arr[..m], period, alpha)[i] == Ema(arr, period, alpha)[i]
    decreases i
  {
    if i >= period {
      EmaCausal(arr, period, alpha, m, i - 1);
      EmaStep(arr, period, alpha, i);
      EmaStep(arr[..m], period, alpha, i);
    } else if i == period - 1 {
      assert arr[..m][..period] == arr[..period];
    }
  }

  /** An average of inputs that are all at least `lo` is at least `lo`. */
  lemma {:induction false} EmaAtLeast(arr: seq<Val>, period: nat, alpha: AlphaArg, lo: real, i: nat)
    requires 1 <= period <= |arr| && period - 1 <= i < |arr|
    requires forall j :: 0 <= j < |arr| ==> arr[j].Num? && lo <= arr[j].v
    requires 0.0 <= AlphaValue(alpha, period) <= 1.0
    ensures Ema(arr, period, alpha)[i].Num? && lo <= Ema(arr, period, alpha)[i].v
    decreases i
  {
    var r := Ema(arr, period, alpha);
    if i == period - 1 {
      MeanAtLeast(Nums(arr[..period]), lo);
    } else {
      EmaAtLeast(arr, period, alpha, lo, i - 1);
      EmaStep(arr, period, alpha, i);
      StepAtLeast(r[i - 1], arr[i], AlphaValue(alpha, period), lo);
    }
  }

  lemma EmaAllAtLeast(arr: seq<Val>, period: nat, alpha: AlphaArg, lo: real)
    requires 1 <= period <= |arr|
    requires forall j :: 0 <= j < |arr| ==> arr[j].Num? && lo <= arr[j].v
    requires 0.0 <= AlphaValue(alpha, period) <= 1.0
    ensures forall i :: period - 1 <= i < |arr| ==>
      Ema(arr, period, alpha)[i].Num? && lo <= Ema(arr, period, alpha)[i].v
  {
    forall i | period - 1 <= i < |arr|
      ensures Ema(arr, period, alpha)[i].Num? && lo <= Ema(arr, period, alpha)[i].v
    {
      EmaAtLeast(arr, period, alpha, lo, i);
    }
  }

  /** An average of inputs that are all at most `hi` is at most `hi`. */
  lemma {:induction false} EmaAtMost(arr: seq<Val>, period: nat, alpha: AlphaArg, hi: real, i: nat)
    requires 1 <= period <= |arr| && period - 1 <= i < |arr|
    requires forall j :: 0 <= j < |arr| ==> arr[j].Num? && arr[j].v <= hi
    requires 0.0 <= AlphaValue(alpha, period) <= 1.0
    ensures Ema(arr, period, alpha)[i].Num? && Ema(arr, period, alpha)[i].v <= hi
    decreases i
  {
    var r := Ema(arr, period, alpha);
    if i == period - 1 {
      MeanAtMost(Nums(arr[..period]), hi);
    } else {
      EmaAtMost(arr, period, alpha, hi, i - 1);
      EmaStep(arr, period, alpha, i);
      StepAtMost(r[i - 1], arr[i], AlphaValue(alpha, period), hi);
    }
  }

  lemma StepAtLeast(pv: Val, xv: Val, a: real, lo: real)
    requires pv.Num? && xv.Num? && lo <= pv.v && lo <= xv.v && 0.0 <= a <= 1.0
    ensures Step(pv, xv, a).Num? && lo <= Step(pv, xv, a).v
  {
    var p, x := pv.v, xv.v;
    assert (p - lo) * (1.0 - a) >= 0.0;
    assert (x - lo) * a >= 0.0;
  }

  lemma StepAtMost(pv: Val, xv: Val, a: real, hi: real)
    requires pv.Num? && xv.Num? && pv.v <= hi && xv.v <= hi && 0.0 <= a <= 1.0
    ensures Step(pv, xv, a).Num? && Step(pv, xv, a).v <= hi
  {
    var p, x := pv.v, xv.v;
    assert (hi - p) * (1.0 - a) >= 0.0;
    assert (hi - x) * a >= 0.0;
  }

  /** The average stays within the range of its inputs. */
  lemma EmaWithin(arr: seq<Val>, period: nat, alpha: AlphaArg, lo: real, hi: real)
    requires 1 <= period <= |arr|
    requires forall j :: 0 <= j < |arr| ==> arr[j].Num? && lo <= arr[j].v <= hi
    requires 0.0 <= AlphaValue(alpha, period) <= 1.0
    ensures forall i :: period - 1 <= i < |arr| ==>
      Ema(arr, period, alpha)[i].Num? && lo <= Ema(arr, period, alpha)[i].v <= hi
  {
    forall i | period - 1 <= i < |arr|
      ensures Ema(arr, period, alpha)[i].Num? && lo <= Ema(arr, period, alpha)[i].v <= hi
    {
      EmaAtLeast(arr, period, alpha, lo, i);
      EmaAtMost(arr, period, alpha, hi, i);
    }
  }

  lemma AbsScaled(p: real, c: real)
    requires 0.0 <= c
    ensures Abs(p * c) == Abs(p) * c
  {
    if p < 0.0 {
      assert p * c <= 0.0;
    }
  }

  lemma StepHalfDominated(pv: Val, qv: Val, xv: Val, yv: Val, a: real)
    requires pv.Num? && qv.Num? && xv.Num? && yv.Num?
    requires 2.0 * Abs(pv.v) <= qv.v && 2.0 * Abs(xv.v) <= yv.v
    requires 0.0 <= a <= 1.0
    ensures Step(pv, xv, a).Num? && Step(qv, yv, a).Num?
    ensures 2.0 * Abs(Step(pv, xv, a).v) <= Step(qv, yv, a).v
  {
    var p, q, x, y := pv.v, qv.v, xv.v, yv.v;
    var u, w, v, z := p * (1.0 - a), x * a, q * (1.0 - a), y * a;
    assert Step(pv, xv, a) == Num(u + w) by {
      assert a * x == w;
    }
    assert Step(qv, yv, a) == Num(v + z) by {
      assert a * y == z;
    }
    ScaledBound(p, q, 1.0 - a);
    ScaledBound(x, y, a);
    SumOfHalfBounds(u, w, v, z);
  }

  lemma SumOfHalfBounds(u: real, w: real, v: real, z: real)
    requires 2.0 * Abs(u) <= v && 2.0 * Abs(w) <= z
    ensures 2.0 * Abs(u + w) <= v + z
  {
  }

  /** Scaling both sides of `2 * |b| <= q` by a non-negative factor keeps it. */
  lemma ScaledBound(b: real, q: real, c: real)
    requires 2.0 * Abs(b) <= q && 0.0 <= c
    ensures 2.0 * Abs(b * c) <= q * c
  {
    AbsScaled(b, c);
    assert (q - 2.0 * Abs(b)) * c >= 0.0;
  }

  /** Averaging with the same period and factor keeps a pointwise bound
      `2 * |x_j| <= y_j` between two input series. */
  lemma {:induction false} EmaHalfDominated(xs: seq<Val>, ys: seq<Val>, period: nat, alpha: AlphaArg, i: nat)
    requires |xs| == |ys|
    requires 1 <= period <= |xs| && period - 1 <= i < |xs|
    requires forall j :: 0 <= j < |xs| ==> xs[j].Num? && ys[j].Num? && 2.0 * Abs(xs[j].v) <= ys[j].v
    requires 0.0 <= AlphaValue(alpha, period) <= 1.0
    ensures Ema(xs, period, alpha)[i].Num? && Ema(ys, period, alpha)[i].Num?
    ensures 2.0 * Abs(Ema(xs, period, alpha)[i].v) <= Ema(ys, period, alpha)[i].v
    decreases i
  {
    var ex, ey := Ema(xs, period, alpha), Ema(ys, period, alpha);
    if i == period - 1 {
      var sx, sy := Nums(xs[..period]), Nums(ys[..period]);
      assert forall j :: 0 <= j < period ==> 2.0 * Abs(sx[j]) <= sy[j];
      MeanHalfDominated(sx, sy);
      assert ex[i] == Num(Mean(sx)) && ey[i] == Num(Mean(sy));
    } else {
      EmaHalfDominated(xs, ys, period, alpha, i - 1);
      EmaStep(xs, period, alpha, i);
      EmaStep(ys, period, alpha, i);
      StepHalfDominated(ex[i - 1], ey[i - 1], xs[i], ys[i], AlphaValue(alpha, period));
    }
  }

  /** `EMA` as the library runs it, with the loop bound `len(arr)`: fills a
      zeroed array, writes the seed, steps through the rest, and overwrites the
      first `period - 1` slots with NaN. */
  method ComputeEma(arr: seq<Val>, period: nat, alpha: AlphaArg) returns (r: seq<Val>)
    requires 1 <= period <= |arr|
    ensures r == Ema(arr, period, alpha)
  {
    ghost var spec := Ema(arr, period, alpha);
    var a := AlphaValue(alpha, period);
    var weights := new Val[|arr|](_ => Num(0.0));
    weights[period - 1] := MeanOf(arr[..period]);
    var i := period;
    while i < weights.Length
      invariant period <= i <= weights.Length
      invariant forall k :: period - 1 <= k < i ==> weights[k] == spec[k]
    {
      EmaStep(arr, period, alpha, i);
      weights[i] := Step(weights[i - 1], arr[i], a);
      i := i + 1;
    }
    for j := 0 to period - 1
      invariant forall k :: 0 <= k < j ==> weights[k] == Undef
      invariant forall k :: period - 1 <= k < weights.Length ==> weights[k] == spec[k]
    {
      weights[j] := Undef;
    }
    assert forall k :: 0 <= k < weights.Length ==> weights[k] == spec[k];
    r := weights[..];
  }

  /** How the loop of `EMA` ends when an index is checked against the arrays. */
  datatype LoopEnd = Completed(weights: seq<Val>) | IndexOutOfRange(index: nat)

  /** `EMA` with the loop exactly as written, `range(period, len(arr) + 1)`,
      and every index checked: its last iteration reads `arr[len(arr)]` and
      writes `exp_weights[len(arr)]`, one past the end of both arrays, for every
      input. */
  method ComputeEmaAsWritten(arr: seq<Val>, period: nat, alpha: AlphaArg) returns (e: LoopEnd)
    requires 1 <= period <= |arr|
    ensures e == IndexOutOfRange(|arr|)
  {
    var a := AlphaValue(alpha, period);
    var weights := new Val[|arr|](_ => Num(0.0));
    weights[period - 1] := MeanOf(arr[..period]);
    e := Completed([]);
    var i := period;
    while i < weights.Length + 1
      invariant period <= i <= weights.Length
    {
      if i >= |arr| || i >= weights.Length {
        e := IndexOutOfRange(i);
        break;
      }
      weights[i] := Step(weights[i - 1], arr[i], a);
      i := i + 1;
    }
  }
}
