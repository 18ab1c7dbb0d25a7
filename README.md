# pulsemagstep calibration interpolation, modelled in Dafny

`pulsemagstep.py` plans the steps of a pulse-magnetiser run. It has two inputs:

- a calibration table of (voltage, field) pairs measured on the magnetiser;
- a list of target fields.

For each target field it computes the voltage that should produce it. It can do this in three ways:

- piecewise-linear interpolation between the calibration points ("pwl");
- a least-squares straight line through all of them ("lsq");
- an interpolating spline ("spl").

The target fields themselves come from a sampler. Its linear branch spaces `number` fields evenly from `start` to `end`.

This project models that engine over Dafny's `real`s. It proves what the code guarantees:

- the out-of-range sentinel;
- the position the scan finds;
- the Python `calib[-1]` wrap-around at the first calibration field;
- betweenness (convexity) and monotonicity of the piecewise-linear lookup;
- that the least-squares line solves the normal equations, minimises the squared error and recovers exact linear data;
- the length and order of every result list;
- the dispatch on the technique name, and its error for unknown names;
- the count, spacing and end points of the linear sampler.

A Python exception is modelled as `Err(kind)` of `Outcomes.Result`, named after the exception class it stands for:

- `IndexError`: `calib[0]` on an empty table;
- `ZeroDivisionError`: a zero-width segment, `number == 1` in the sampler, or `arange` with step 0;
- `ValueError`: unpacking the columns of an empty table;
- `UnboundLocalError`: `interpolate` with an unknown name.

The four interpolation functions and `interpolate` are Dafny `method`s: `InterpolateSegment`, `InterpolatePwl`, `InterpolateLsq`, `InterpolateSpline` and `Interpolate`. Each `for` or `while` loop in them carries its loop invariants. Each method is proved equal to a reference function:

| method | reference function |
|---|---|
| `InterpolateSegment` | `Segment` |
| `InterpolatePwl` | `Pwl` |
| `InterpolateLsq` | `Lsq` |
| `InterpolateSpline` | `Spline` |
| `Interpolate` | `Dispatch` |

The linear branch of `pick_desired_fields` has no loop or state in the program: it is one `arange` call. It is therefore the function `FieldSampler.LinearFields`, with no method.

The lemmas state the properties about those functions.

Files:

- `calibration.dfy` (modules `Outcomes`, `Calibration`): error kinds, `Result`/`Option`, points, tables, Python indexing.
- `piecewise.dfy` (`PiecewiseLinear`): `interpolate_segment` and `interpolate_pwl`.
- `leastsquares.dfy` (`LeastSquares`): `interpolate_lsq`. The fit is the closed-form ordinary-least-squares line.
- `spline.dfy` (`SplineInterpolation`): `interpolate_spline`, over an abstract spline.
- `sampler.dfy` (`FieldSampler`): the linear branch of `pick_desired_fields`.
- `engine.dfy` (`Engine`): `interpolate`.

## Model

| member | source | states |
|---|---|---|
| PiecewiseLinear.FirstAtLeast | pulsemagstep.py:39-41 | the scan index: the first position from `from` whose field is at least the target, or the table's end; every field it passes is below the target |
| PiecewiseLinear.InterpolateSegment | pulsemagstep.py:36-43 | the while-loop lookup equals `Segment`; outside [first field, last field] it returns exactly the sentinel -1; otherwise it blends (`Blend`) between `calib[s-1]`, read with Python's negative indexing (`Calibration.PyAt`), and `calib[s]` |
| PiecewiseLinear.Blend | pulsemagstep.py:42-43 | ZeroDivisionError exactly when the two fields coincide; otherwise the result lies on the straight line through the two points |
| PiecewiseLinear.FirstAtLeastIs | pulsemagstep.py:39-41 | any index meeting the exit condition with all earlier fields below the target is the scan's result |
| PiecewiseLinear.ScanBracketsTarget | pulsemagstep.py:37-42 | for an in-range target the scan stops inside the table, with calib[s-1] < target <= calib[s] and a non-zero divisor when s >= 1, and at s = 0 only on the first field, where calib[s-1] is the last point |
| PiecewiseLinear.SegmentFailsIff | pulsemagstep.py:36-43 | the lookup raises exactly on an empty table (IndexError), or on the first field of a table whose first and last fields coincide (ZeroDivisionError); nothing else |
| PiecewiseLinear.SegmentAtFirstField | pulsemagstep.py:40-43 | at the first field the scan stops at 0, calib[-1] is the last point, and the formula still yields the first voltage when first field < last field |
| PiecewiseLinear.BlendAtHi | pulsemagstep.py:42-43 | the blend at the upper end of a non-degenerate segment gives that end's voltage |
| PiecewiseLinear.SegmentAtKnot | pulsemagstep.py:36-43 | on a strictly ascending table of two or more points, a target equal to calibration field k returns voltage k |
| PiecewiseLinear.SegmentIsConvex | pulsemagstep.py:42-43 | a successful in-range lookup is (1 - w) * V[s-1] + w * V[s] with 0 < w <= 1, so it lies between those two voltages |
| PiecewiseLinear.BlendIsConvex | pulsemagstep.py:42-43 | the blend with weight w in (0, 1] is the convex combination of the two voltages and lies between them |
| PiecewiseLinear.SegmentBetweenKnots | pulsemagstep.py:39-43 | on an ascending table a target in (F[k], F[k+1]] is interpolated on segment k..k+1 and lies between its voltages |
| PiecewiseLinear.FirstAtLeastMonotone | pulsemagstep.py:39-41 | a larger target scans at least as far |
| PiecewiseLinear.SegmentWithinSegment | pulsemagstep.py:39-43 | with ascending fields and voltages an in-range lookup lies between V[s-1] and V[s] of the segment the scan chose, and equals V[0] at s = 0 |
| PiecewiseLinear.BlendMonotone | pulsemagstep.py:42-43 | on a segment with non-negative slope the blend preserves the order of targets |
| PiecewiseLinear.SegmentMonotone | pulsemagstep.py:36-43 | with ascending fields and voltages the lookup is monotone over the calibrated span |
| PiecewiseLinear.InterpolatePwl | pulsemagstep.py:45-49 | the append loop equals `Pwl`, propagating the first lookup's exception |
| PiecewiseLinear.PwlKeepsError | pulsemagstep.py:47-48 | once a target's lookup has raised, later targets do not change the outcome |
| PiecewiseLinear.PwlPointwise | pulsemagstep.py:45-49 | interpolate_pwl succeeds iff every lookup does; it then has one pair per target, pair i being (fields[i], lookup of fields[i]), each target handled on its own |
| PiecewiseLinear.PwlFirstError | pulsemagstep.py:47-48 | a failing interpolate_pwl raises the exception of the first target whose lookup raises |
| PiecewiseLinear.PwlOnValidTable | pulsemagstep.py:36-49 | on an ascending table of two or more points interpolate_pwl never raises, writes -1 outside the span and the exact voltage at every calibration field |
| PiecewiseLinear.PwlErrors | pulsemagstep.py:45-49 | interpolate_pwl raises only IndexError or ZeroDivisionError |
| LeastSquares.MomentsOf | pulsemagstep.py:64-65 | the moments of a table count its points |
| LeastSquares.InterpolateLsq | pulsemagstep.py:63-69 | the append loop equals `Lsq`: ValueError on an empty table; `RankDeficientFit` when the spread n * sum(F^2) - (sum F)^2 is zero, as on a one-point table; otherwise every target mapped through the fitted line |
| LeastSquares.LsqPointwise | pulsemagstep.py:66-69 | on success one pair per target in target order, each voltage field * slope + intercept, with no range check |
| LeastSquares.LsqErrors | pulsemagstep.py:64-65 | interpolate_lsq raises only ValueError, or the model's rank-deficient error |
| LeastSquares.SumResidualFromMoments | pulsemagstep.py:65 | the sum of residuals equals its closed form over the moments |
| LeastSquares.SumFieldResidualFromMoments | pulsemagstep.py:65 | the field-weighted sum of residuals equals its closed form over the moments |
| LeastSquares.SquaredErrorFromMoments | pulsemagstep.py:65 | the sum of squared residuals equals its closed form over the moments |
| LeastSquares.SquaredLineFromMoments | pulsemagstep.py:65 | the sum of squares of a line's values over the fields equals its closed form over the moments |
| LeastSquares.SquaredLineNonNegative | pulsemagstep.py:65 | a sum of squares is never negative |
| LeastSquares.FitOfSolvesNormalEquations | pulsemagstep.py:65 | the closed-form slope and intercept solve both normal equations on the moments |
| LeastSquares.NormalEquationsDetermineFit | pulsemagstep.py:65 | any line solving both normal equations is the closed-form fit, when the spread is non-zero |
| LeastSquares.MomentSquaredErrorSplit | pulsemagstep.py:65 | the squared error of any line is that of another line plus cross terms plus the squared difference of the two lines |
| LeastSquares.NormalEquations | pulsemagstep.py:65 | over the table, the fitted line's residuals and field-weighted residuals both sum to zero |
| LeastSquares.FitMinimisesSquaredError | pulsemagstep.py:65 | no straight line has a smaller sum of squared residuals than the fitted one |
| LeastSquares.OnLineResiduals | pulsemagstep.py:65 | when every point lies on a line, that line's residual sums are zero |
| LeastSquares.FitRecoversLine | pulsemagstep.py:65 | a table lying exactly on a line is fitted by that very line |
| LeastSquares.SpreadAddPoint | pulsemagstep.py:65 | adding a point grows the spread by the sum of squared distances of the earlier fields from it |
| LeastSquares.SpreadNonNegative | pulsemagstep.py:65 | the spread n * sum(F^2) - (sum F)^2 is never negative |
| LeastSquares.SquaredLineAboveFirst | pulsemagstep.py:65 | the squared distances from x of fields whose first exceeds x sum to a positive value |
| LeastSquares.SpreadPositive | pulsemagstep.py:65 | two or more strictly ascending fields give a positive spread, so the fit exists |
| LeastSquares.LsqOnValidTable | pulsemagstep.py:63-69 | on an ascending table of two or more points interpolate_lsq never raises and extrapolates every target with the fitted line |
| SplineInterpolation.InterpolateSpline | pulsemagstep.py:51-61 | the try/except loop equals `Spline`: ValueError on an empty table, the fit's failure when the spline cannot be built, otherwise each target's spline value or -1.0E30 |
| SplineInterpolation.SplineFailsIff | pulsemagstep.py:52-60 | interpolate_spline raises exactly on an empty table (ValueError) or a spline that cannot be built; a failing evaluation never raises |
| SplineInterpolation.SplinePointwise | pulsemagstep.py:54-61 | on success one pair per target in target order, the voltage being -1.0E30 exactly where evaluation raised and the spline's value elsewhere |
| FieldSampler.Ceil | pulsemagstep.py:20 | the least integer not below x, the length rule of arange |
| FieldSampler.Arange | pulsemagstep.py:20 | arange raises for a zero step; otherwise position i holds start + i * step, and a natural i is a position exactly when that value lies before `stop` in the step's direction |
| FieldSampler.ArangeCount | pulsemagstep.py:20 | ceil((stop - start) / step) values, or none when that is not positive, are exactly the terms before `stop` |
| FieldSampler.StepCount | pulsemagstep.py:18-20 | with a non-zero span, stepping one past `end` spans exactly `number` steps |
| FieldSampler.LinearFields | pulsemagstep.py:17-21 | the sampler raises ZeroDivisionError exactly when number is 1 or start equals end, and nothing else; otherwise it is arange(start, end + step, step) with step = (end - start) / (number - 1) |
| FieldSampler.LinearFieldsLength | pulsemagstep.py:18-21 | the sampler yields exactly `number` fields for number >= 2 and none for number <= 0 |
| FieldSampler.LinearFieldAt | pulsemagstep.py:18-20 | on success, field i is start + i * (end - start) / (number - 1) |
| FieldSampler.LinearFieldsValues | pulsemagstep.py:18-21 | field i is start + i * (end - start) / (number - 1); the first is start and the last is end |
| FieldSampler.LinearFieldsAscending | pulsemagstep.py:18-21 | when start < end the fields strictly ascend |
| Engine.Interpolate | pulsemagstep.py:71-78 | "lsq", "spl" and "pwl" run interpolate_lsq, interpolate_spline and interpolate_pwl; the result is UnboundLocalError exactly for any other name |
| Engine.UnboundOnlyForUnknown | pulsemagstep.py:71-78 | dispatch yields UnboundLocalError iff the name is none of the three, since no technique raises it itself |
| Engine.KnownTechniquesOnValidTable | pulsemagstep.py:71-78 | on an ascending table of two or more points "pwl" and "lsq" succeed with one pair per target in target order |

## Left out

- The exponential branch of `pick_desired_fields` (`log10`, `10**x`, `round(..., 1)`) is left out. It is floating-point numerics.
- `make_calibration` is left out. It reads and parses a file, so it is I/O and `float()` parsing.
- `make_graph` is left out. It is matplotlib plotting.
- `main` is left out. It is option parsing and `print` formatting.
- Spline construction and evaluation (`splrep`, `splev`) are foreign code.
  - `SplineInterpolation.Spline` takes the spline built for the table as a parameter.
  - That parameter is `None` when building it raised. Otherwise it is an evaluator that answers `None` where evaluation raised.
  - Which tables and targets make scipy raise is not modelled.
  - Construction failures of every kind are reported as the single error `SplineFitError`.
  - The evaluator is not required to pass through the calibration points. `splrep` with zero smoothing interpolates them, but the model does not assume or prove it.
- LeastSquares.InterpolateLsq: when the spread n * sum(F^2) - (sum F)^2 is zero (all fields equal, a one-point table included) it returns `RankDeficientFit`. There `polyfit` returns a minimum-norm line with a RankWarning, and the program prints the voltages extrapolated from it. The closed-form fit divides by the spread, so it has no value there.
- `LeastSquares.LeastSquaresFit` does not model the internals of `polyfit`. It is the closed-form ordinary-least-squares line over reals.
  - Where its denominator n * sum(F^2) - (sum F)^2 is zero, `polyfit` still returns a minimum-norm fit with a RankWarning.
  - The model instead reports `RankDeficientFit`. This happens for a table whose fields are all equal, including a single point.
  - `LeastSquares.LsqOnValidTable` shows that this cannot happen on a table of two or more strictly ascending fields.
- Floating-point rounding is not modelled; all arithmetic is over exact reals.
  - Under float rounding, `arange(start, end + step, step)` can yield `number + 1` values. This model yields exactly `number`.
- `FieldSampler.LinearFields` takes `number` as an integer. The program passes `float(opt.steps)`, so a non-integral count is not modelled.
- `interpolate_segment` returns the integer `-1` for an out-of-range target. The model returns the real -1.0.

