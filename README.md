# tech_inds indicator engine, modelled in Dafny

`tech_inds` is a small library of technical-analysis indicators over price
series. Every indicator is a whole-array computation: it takes arrays of
highs, lows and closes, builds rolling windows or exponential averages, and
returns arrays of the same length (or one shorter), with NaN at the positions
where the indicator is not yet defined.

This project models the engine in `__init__.py`:

- `rolling_window`, the overlapping windows of an array (module `Rolling`);
- the simple moving average `SMA` and its loop form `SMA_numba` (`SimpleStats`);
- the exponential moving average `EMA` with its three `alpha` conventions (`Recurrence`);
- `ATR` (`Atr`), `MACD` (`Macd`), `RSI` (`Rsi`), `CCI` (`Cci`), `SMI` (`Smi`) and `ROC` (`Roc`);
- `Boll` (`Boll`): the middle band, plus a model of Python's name resolution
  that shows why the function body as written cannot run to the end.

Values are `Val = Undef | Num(real)`:

- `Undef` stands for NaN, and for every non-finite result.
- The lifted arithmetic in `Series` propagates `Undef`.
- A division by zero gives `Undef`.

Each indicator is specified by a function (`Atr.Atr`, `Macd.Macd`, `Rsi.Rsi`,
`Cci.Cci`, `Smi.Smi`, `Roc.RocDiscrete`, `Boll.MiddleBand`). Where the library works with loops
over zeroed arrays (`SMA_numba`, `EMA`, `ATR`, the row loops of `CCI` and
`SMI`), a method does the same with a Dafny array and a `while`/`for` loop. It
is proved equal to the specification function. Lemmas then prove what the
indicators promise: bounds, the points from which they are defined, the EMA
recurrence, and the example values.

## Model

| member | source | states |
|---|---|---|
| Series.MeanOf | __init__.py:51 | `np.mean` of a window is defined exactly when every element is |
| Series.MaxOf | __init__.py:131-132 | `np.max` of a window is at least every element |
| Series.MaxOfAttained | __init__.py:131-132 | the maximum is one of the elements |
| Series.MinOf | __init__.py:131-132 | `np.min` of a window is at most every element |
| Series.MinOfAttained | __init__.py:131-132 | the minimum is one of the elements |
| Series.Typical | __init__.py:25 | the typical price of a step whose close lies within its low and high also lies there |
| Rolling.Windows | __init__.py:6-9 | there are `len - window + 1` windows, and window `k` is `a[k .. k + window]` |
| Rolling.WindowEndingAt | __init__.py:6-9 | row `i - period + 1` of the rolling view is the window that ends at `i` |
| SimpleStats.Sma | __init__.py:18-21 | `period - 1` undefined entries, then at each `i` the mean of the window ending at `i` |
| SimpleStats.SmaWithinInputRange | __init__.py:18-21 | every defined average lies between any lower and upper bound of the inputs |
| SimpleStats.SmaOfThree | __init__.py:18-21 | with period 3, the value at `i` is the mean of `arr[i-2]`, `arr[i-1]` and `arr[i]` |
| SimpleStats.SmaExample | __init__.py:18-21 | `SMA([1,2,3,4,5], 3)` is `[nan, nan, 2, 3, 4]` |
| SimpleStats.ComputeSmaNumba | __init__.py:34-40 | the loop of window sums, the NaN prefix and the division by `period` give exactly `SMA` |
| Recurrence.AlphaValue | __init__.py:45-48 | a flag, or a number in [0, 1], yields a smoothing factor in (0, 1] |
| Recurrence.AlphaConventions | __init__.py:45-48 | `True` (or 1.0) selects `1/period`, `False` (or 0.0) selects `2/(period+1)`, and any other number is used as given |
| Recurrence.ReciprocalAlpha | __init__.py:93-94 | passing `1/period` as a number yields exactly `1/period`, even when `period == 1` makes it compare equal to `True` |
| Recurrence.Ema | __init__.py:50-54 | the output has the input's length, is undefined before `period - 1`, and holds the mean of the first `period` inputs at `period - 1` |
| Recurrence.EmaStep | __init__.py:52-53 | each output after the seed is `prev * (1 - alpha) + alpha * arr[i]` |
| Recurrence.EmaDefinedIff | __init__.py:50-54 | an output from the seed on is defined exactly when every input up to it is defined |
| Recurrence.EmaDefined | __init__.py:50-54 | with all inputs defined, every output from the seed on is defined |
| Recurrence.EmaUndefinedSeed | __init__.py:51-54 | one NaN among the first `period` inputs makes every output NaN |
| Recurrence.EmaCausal | __init__.py:50-54 | outputs up to `i` depend only on inputs up to `i` |
| Recurrence.EmaAtLeast | __init__.py:50-54 | with a factor in (0, 1], inputs at or above `lo` give outputs at or above `lo` |
| Recurrence.EmaAtMost | __init__.py:50-54 | with a factor in (0, 1], inputs at or below `hi` give outputs at or below `hi` |
| Recurrence.EmaWithin | __init__.py:50-54 | inputs within `[lo, hi]` keep every defined output within `[lo, hi]` |
| Recurrence.EmaHalfDominated | __init__.py:50-54 | if `2*abs(x[t]) <= y[t]` for every `t`, the same holds for the two averages |
| Recurrence.ComputeEma | __init__.py:50-55 | the loop over a zeroed array, run up to the last index, yields exactly `Ema` |
| Recurrence.ComputeEmaAsWritten | __init__.py:52-53 | the loop bound `len + 1` reaches index `len(arr)` for every input |
| Atr.TrueRange | __init__.py:60-68 | one value per step after the first: the largest of the high-low span and the distances of high and low from the previous close, so never negative |
| Atr.Atr | __init__.py:59-70 | the Wilder average (`alpha = True`) of the true range, one element shorter than the input, undefined before `period - 1`, and defined and non-negative from there on |
| Atr.AtrStep | __init__.py:69 | every value after the seed is one Wilder step from the one before: `atr[i] = atr[i-1] * (1 - 1/period) + tr[i] / period` |
| Atr.ComputeAtr | __init__.py:59-70 | the loop that fills the true range, followed by the EMA, returns exactly `Atr` |
| Macd.Macd | __init__.py:74-82 | the signal copies the first `slow - 1` MACD entries and averages the rest, and `hist == macd - signal` at every index |
| Macd.MacdLineWarmUp | __init__.py:75-77 | the MACD line is undefined before either average is seeded |
| Macd.MacdLineValue | __init__.py:75-79 | past both warm-ups both averages are defined, and the line entry is computed from those two values |
| Macd.MacdAtValue | __init__.py:77-79 | an entry from two defined averages is `fast - slow`, or with `percent` that times `100 / slow`, undefined where `slow == 0` |
| Macd.SignalLine | __init__.py:80 | the signal copies the first `slow - 1` MACD entries, and from there holds the EMA of the rest of the line |
| Macd.MacdDefined | __init__.py:74-82 | with `fast <= slow` and no percent rescaling, the line is defined from `slow - 1`, and signal and histogram from `slow + signal - 2`, with `hist = macd - signal` |
| Macd.MacdSignalUndefinedWhenFastIsSlower | __init__.py:80-81 | with `fast > slow` the signal average is seeded with NaN, so signal and histogram are undefined everywhere |
| Rsi.Diff | __init__.py:87 | `arr[i] + delta[i] == arr[i + 1]` |
| Rsi.UpDown | __init__.py:88-90 | each change splits into a non-negative and a non-positive part that add up to it, at most one of them non-zero |
| Rsi.AverageGain | __init__.py:93-94 | the Wilder average of the up-moves is defined and non-negative from its seed on |
| Rsi.AverageLoss | __init__.py:93-95 | the absolute Wilder average of the down-moves is defined and non-negative from its seed on |
| Rsi.Rsi | __init__.py:86-100 | the output has the input's length and is undefined for the first `period` positions |
| Rsi.StrengthOfAverages | __init__.py:96 | `100 - 100/(1 + u/d)` equals `100*u/(u+d)` and lies in [0, 100) |
| Rsi.RsiBounds | __init__.py:86-100 | every defined RSI value lies in [0, 100) |
| Rsi.RsiDefinedIff | __init__.py:93-99 | after the warm-up the RSI is defined exactly where the average loss is non-zero, and there it is `100*up/(up+down)` |
| Cci.AbsDeviations | __init__.py:111 | one absolute deviation from the centre per window element |
| Cci.MeanAbsDeviation | __init__.py:111-116 | the mean absolute deviation of a window from its mean is non-negative |
| Cci.Cci | __init__.py:104-120 | `period - 1` undefined entries, then at each `i` the window's `(tp - mean) / (mad * scaling)` |
| Cci.MadZeroIffFlat | __init__.py:111-118 | the mean absolute deviation is zero exactly when every price in the window is equal |
| Cci.CciFlatWindowUndefined | __init__.py:118 | a flat window makes the index undefined (a zero denominator) |
| Cci.CciDefinedUnlessFlat | __init__.py:118 | conversely, with a non-zero scaling, a window holding two different typical prices gives a defined index |
| Cci.LastDeviationBound | __init__.py:111-118 | the last price of a window is at most `n/2` mean absolute deviations from the window mean |
| Cci.CciBounded | __init__.py:118 | with positive scaling, every defined value is at most `period / (2 * scaling)` in size |
| Cci.RowMeans | __init__.py:112-116 | the loop writes the mean of each row of deviations |
| Cci.ComputeCci | __init__.py:104-120 | windows, the `SMA_numba` central tendency, the row loop and the padded quotient yield exactly `Cci` |
| Smi.Centre | __init__.py:128-134 | the window midpoint of highest high and lowest low, back-filled with the bar midpoints for the first `period - 1` positions |
| Smi.HighLowRange | __init__.py:128-135 | the window's highest high minus lowest low, back-filled with each bar's high minus low |
| Smi.CloseWithinHalfRange | __init__.py:131-137 | a close within its bar's range is at most half the high-low range from the centre |
| Smi.RangePositive | __init__.py:132-135 | bars with high above low give a positive range |
| Smi.SmoothedTwice | __init__.py:138-141 | the doubly smoothed series is `len - slow + 1` long and undefined before `fast - 1` |
| Smi.SmoothedTwiceDefined | __init__.py:138-141 | the doubly smoothed series is defined from `fast - 1` on |
| Smi.SmoothedTwiceAtLeast | __init__.py:138-141 | a lower bound on the input bounds the doubly smoothed series |
| Smi.SmoothedTwiceHalfDominated | __init__.py:138-141 | double smoothing preserves `2*abs(x) <= y` |
| Smi.SmiLine | __init__.py:137-142 | the unpadded SMI is `len - slow + 1` long and undefined before `fast - 1` |
| Smi.Smi | __init__.py:124-146 | both outputs have the input's length, the SMI is undefined before `slow + fast - 2` and the signal before `slow + signal - 1` |
| Smi.SmiBounded | __init__.py:137-142 | when every close lies within its bar's range, every defined SMI value lies in [-100, 100] |
| Smi.SmiDefined | __init__.py:137-142 | when every high exceeds its low, the unpadded SMI line is defined from `fast - 1` on |
| Smi.SmiPaddedDefined | __init__.py:137-146 | when every high exceeds its low, the padded SMI that the function returns is defined from `slow + fast - 2` on |
| Smi.SmiLineTailDefined | __init__.py:137-142 | when every high exceeds its low, the unpadded SMI line has no undefined entry from `fast - 1` on |
| Smi.SignalUndefinedWhenFastAbove2 | __init__.py:143-145 | with `fast_period >= 3` the signal as written is undefined everywhere |
| Smi.SignalCorrected | __init__.py:143-145 | the signal averaged from the first defined SMI value on has the input's length |
| Smi.SignalCorrectedAgreesAtFast2 | __init__.py:143-145 | at the default `fast_period = 2` the corrected signal equals the signal as written |
| Smi.SignalCorrectedDefined | __init__.py:143-145 | when every high exceeds its low, the corrected signal is defined from `slow + fast + signal - 3` on |
| Smi.WindowRanges | __init__.py:128-132 | the loop writes each window's midpoint and width |
| Smi.ComputeSmi | __init__.py:124-146 | the window loop, back-filling, the four averages and the padding yield exactly `Smi` |
| Roc.RocDiscrete | __init__.py:154-155 | `period` undefined entries, then `100 * (arr[t] - arr[t-period]) / arr[t-period]`, defined exactly where the earlier price is non-zero |
| Roc.RocRecoversPrice | __init__.py:154 | compounding the rate onto the earlier price gives the later price |
| Roc.RocExample | __init__.py:154-155 | discrete `ROC([100, 110, 121], 1)` is `[nan, 10, 10]` |
| Boll.MiddleBand | __init__.py:25-26 | the middle band is undefined before `period - 1` and defined from there |
| Boll.MiddleWithinPriceRange | __init__.py:25-26 | with closes inside their bars, the middle band lies between the window's lowest low and highest high |
| Boll.BollAsWrittenRaises | __init__.py:27 | the body as written cannot complete |
| Boll.BollAsWrittenError | __init__.py:27 | its first failure is `UnboundLocalError` on `stdev`, at the third statement |
| Boll.RenamedBodyCompletes | __init__.py:27-29 | with the local renamed, every name resolves and the body completes |

## Left out

- `stdev` (lines 12-15) and the upper and lower Bollinger bands (lines 28-29): they need a square root, and real square roots are not modelled. Only the middle band and the name-resolution failure are modelled.
- The continuous-compounding branch of `ROC` (line 152): it needs a logarithm. Only the discrete branch is modelled, and `continuous_compound` is not a parameter.
- Floating point: values are exact reals. Rounding is not modelled.
- Infinities are not kept apart from NaN. For example, `rUp / rDown` with `rDown == 0` is `inf` in numpy when `rUp > 0`, and `RSI` then gives 100. Here the index is `Undef` there (`Rsi.RsiDefinedIff`).
- numba compilation and the `as_strided` view: windows are modelled as copies. The aliasing of the view with its array is not modelled, because no indicator writes through a view.
- numba's nopython mode does no bounds checking. The read and write one past the end in `EMA` are modelled as a failing index access (`Recurrence.ComputeEmaAsWritten`). What the compiled code actually does there is undefined.
- The library validates no argument. Every indicator requires `1 <= period <= len(input)` and equal input lengths (and similar bounds on the fast, slow and signal periods). `ATR` (`Atr.Atr`, `Atr.ComputeAtr`) and `RSI` (`Rsi.Rsi`) require the stricter `1 <= period <= len(input) - 1`, because they average an array one element shorter than the input, and at `period == len(input)` that `EMA` call would index past its end. Calls outside these bounds are not modelled.
- Default argument values are not modelled. Every period is an explicit parameter.
- `Macd.Macd`: `fast` and `slow` are both averaged with `alpha = False`, as in the library. The percent branch `macd *= 100 / slow_EMA` is modelled, but definedness is proved only without it (`Macd.MacdDefined`).
- `setup.py`: packaging metadata, not behaviour.

## Findings

| source | as written | input that shows it | evidently intended | confidence | as-written member | corrected member |
|---|---|---|---|---|---|---|
| __init__.py:52-53 | `range(period, len(exp_weights) + 1)` runs the recurrence at `i == len(arr)`, one past the end of both arrays | any input, e.g. `EMA([1.0, 2.0], 1)` reaches index 2 | `range(period, len(exp_weights))` | not executed | Recurrence.ComputeEmaAsWritten | Recurrence.ComputeEma |
| __init__.py:27 | `stdev = stdev(...)` assigns a local named like the module's function, so the call reads an unbound local | any call `Boll(h, l, c)` | a differently named local for the band width | not executed | Boll.BollAsWrittenError | Boll.RenamedBodyCompletes |
| __init__.py:143 | `EMA(SMI[1:], signal_period)` seeds the signal with the mean of `SMI[1 : signal_period + 1]`, which holds NaN when `fast_period >= 3` | `SMI(h, l, c, fast_period = 3)`: `SMI[1]` is NaN, so every signal value is NaN | average the SMI from its first defined value, `SMI[fast_period - 1:]` | not executed | Smi.SignalUndefinedWhenFastAbove2 | Smi.SignalCorrected |
