/**
 * Least-squares extrapolation: `interpolate_lsq`.
 *
 * The program fits voltage against field with a first-degree polynomial and
 * applies `field * slope + intercept` to every target, without a range check.
 * Here the fit is the closed-form ordinary-least-squares line over reals,
 * computed from the table's moments (count and sums of F, V, F*F, F*V, V*V).
 * The lemmas prove that it solves the normal equations, that no other line
 * has a smaller sum of squared residuals, that it recovers a table lying
 * exactly on a line, and that a table meeting the calibration invariant
 * always has a fit.
 *
 * Each sum over the table is related to a closed form over the moments by
 * induction, adding one point at a time (`AddPoint`); the algebra is done on
 * the moments alone.
 */
module LeastSquares {
  import opened Outcomes
  import opened Calibration

  /** A straight line, voltage = field * slope + intercept. */
  datatype Fit = Fit(slope: real, intercept: real)

  /** Count and sums of F, V, F*F, F*V and V*V over a table. */
  datatype Moments = Moments(n: real, f: real, v: real, ff: real, fv: real, vv: real)

  function AddPoint(m: Moments, p: Point): Moments {
    Moments(m.n + 1.0, m.f + p.field, m.v + p.voltage,
            m.ff + p.field * p.field, m.fv + p.field * p.voltage, m.vv + p.voltage * p.voltage)
  }

  function MomentsOf(calib: Table): (m: Moments)
    ensures m.n == |calib| as real
  {
    if calib == [] then Moments(0.0, 0.0, 0.0, 0.0, 0.0, 0.0)
    else AddPoint(MomentsOf(calib[1..]), calib[0])
  }

  /** n * sum(F^2) - (sum F)^2, the denominator of the closed-form slope. */
  function Spread(m: Moments): real {
    m.n * m.ff - m.f * m.f
  }

  /** The closed-form least-squares line for the given moments. */
  function FitOf(m: Moments): Fit
    requires m.n != 0.0 && Spread(m) != 0.0
  {
    var slope := (m.n * m.fv - m.f * m.v) / Spread(m);
    Fit(slope, (m.v - slope * m.f) / m.n)
  }

  /** The least-squares line through a calibration table (what `polyfit(mt, volts, 1)` computes). */
  function LeastSquaresFit(calib: Table): Fit
    requires |calib| > 0 && Spread(MomentsOf(calib)) != 0.0
  {
    FitOf(MomentsOf(calib))
  }

  /** The line's voltage at a field. */
  function LineValue(fit: Fit, field: real): real {
    field * fit.slope + fit.intercept
  }

  /** Every target paired with the line's value there, in target order. */
  function Extrapolate(fields: seq<real>, fit: Fit): seq<Sample> {
    seq(|fields|, i requires 0 <= i < |fields| => Sample(fields[i], LineValue(fit, fields[i])))
  }

  /** Reference definition of `interpolate_lsq(fields, calib)`. */
  function Lsq(fields: seq<real>, calib: Table): Result<seq<Sample>> {
    if |calib| == 0 then Err(ValueError)
    else if Spread(MomentsOf(calib)) == 0.0 then Err(RankDeficientFit)
    else Ok(Extrapolate(fields, LeastSquaresFit(calib)))
  }

  /** `interpolate_lsq`: fit once, then apply the line to each target in turn. */
  method InterpolateLsq(fields: seq<real>, calib: Table) returns (r: Result<seq<Sample>>)
    ensures r == Lsq(fields, calib)
  {
    if |calib| == 0 {
      return Err(ValueError);
    }
    if Spread(MomentsOf(calib)) == 0.0 {
      assert Lsq(fields, calib) == Err(RankDeficientFit);
      return Err(RankDeficientFit);
    }
    var fit := LeastSquaresFit(calib);
    assert Lsq(fields, calib) == Ok(Extrapolate(fields, fit));
    var result: seq<Sample> := [];
    for i := 0 to |fields|
      invariant |result| == i
      invariant forall j :: 0 <= j < i ==> result[j] == Sample(fields[j], LineValue(fit, fields[j]))
    {
      result := result + [Sample(fields[i], LineValue(fit, fields[i]))];
    }
    assert |Extrapolate(fields, fit)| == |fields|;
    assert forall j :: 0 <= j < |fields| ==> result[j] == Extrapolate(fields, fit)[j];
    assert result == Extrapolate(fields, fit);
    r := Ok(result);
  }

  /** interpolate_lsq returns one sample per target, in target order, each
      the fitted line's value at that target; there is no range check. */
  lemma LsqPointwise(fields: seq<real>, calib: Table)
    requires Lsq(fields, calib).Ok?
    ensures |calib| > 0 && Spread(MomentsOf(calib)) != 0.0
    ensures |Lsq(fields, calib).value| == |fields|
    ensures forall i :: 0 <= i < |fields| ==>
      Lsq(fields, calib).value[i] ==
        Sample(fields[i], LineValue(LeastSquaresFit(calib), fields[i]))
  {
  }

  /** interpolate_lsq only ever raises ValueError, or the model's rank-deficient error. */
  lemma LsqErrors(fields: seq<real>, calib: Table)
    requires Lsq(fields, calib).Err?
    ensures Lsq(fields, calib).error == ValueError || Lsq(fields, calib).error == RankDeficientFit
  {
  }

  // ---- sums over the table and their closed forms over the moments ----

  /** The residual of point p against the line (a, b). */
  function Residual(p: Point, a: real, b: real): real {
    p.voltage - (p.field * a + b)
  }

  function SumResidual(calib: Table, a: real, b: real): real {
    if calib == [] then 0.0 else Residual(calib[0], a, b) + SumResidual(calib[1..], a, b)
  }

  function SumFieldResidual(calib: Table, a: real, b: real): real {
    if calib == [] then 0.0
    else calib[0].field * Residual(calib[0], a, b) + SumFieldResidual(calib[1..], a, b)
  }

  /** Sum of squared residuals against the line (a, b). */
  function SquaredError(calib: Table, a: real, b: real): real {
    if calib == [] then 0.0
    else Residual(calib[0], a, b) * Residual(calib[0], a, b) + SquaredError(calib[1..], a, b)
  }

  /** Sum over the points of (F * alpha + beta)^2. */
  function SquaredLine(calib: Table, alpha: real, beta: real): real {
    if calib == [] then 0.0
    else (calib[0].field * alpha + beta) * (calib[0].field * alpha + beta) + SquaredLine(calib[1..], alpha, beta)
  }

  function MomentResidual(m: Moments, a: real, b: real): real {
    m.v - a * m.f - b * m.n
  }

  function MomentFieldResidual(m: Moments, a: real, b: real): real {
    m.fv - a * m.ff - b * m.f
  }

  function MomentSquaredError(m: Moments, a: real, b: real): real {
    m.vv - 2.0 * a * m.fv - 2.0 * b * m.v + a * a * m.ff + 2.0 * a * b * m.f + b * b * m.n
  }

  function MomentSquaredLine(m: Moments, alpha: real, beta: real): real {
    alpha * alpha * m.ff + 2.0 * alpha * beta * m.f + beta * beta * m.n
  }

  // Adding one point adds its own term to each closed form.

  lemma AddPointResidual(m: Moments, p: Point, a: real, b: real)
    ensures MomentResidual(AddPoint(m, p), a, b) == Residual(p, a, b) + MomentResidual(m, a, b)
  {
  }

  lemma AddPointFieldResidual(m: Moments, p: Point, a: real, b: real)
    ensures MomentFieldResidual(AddPoint(m, p), a, b) == p.field * Residual(p, a, b) + MomentFieldResidual(m, a, b)
  {
  }

  lemma AddPointSquaredError(m: Moments, p: Point, a: real, b: real)
    ensures MomentSquaredError(AddPoint(m, p), a, b) ==
            Residual(p, a, b) * Residual(p, a, b) + MomentSquaredError(m, a, b)
  {
  }

  lemma AddPointSquaredLine(m: Moments, p: Point, a: real, b: real)
    ensures MomentSquaredLine(AddPoint(m, p), a, b) ==
            (p.field * a + b) * (p.field * a + b) + MomentSquaredLine(m, a, b)
  {
  }

  // Each sum over the table equals its closed form over the table's moments.

  lemma {:induction false} SumResidualFromMoments(calib: Table, a: real, b: real)
    ensures SumResidual(calib, a, b) == MomentResidual(MomentsOf(calib), a, b)
  {
    if calib != [] {
      var m, p := MomentsOf(calib[1..]), calib[0];
      assert SumResidual(calib, a, b) == Residual(p, a, b) + SumResidual(calib[1..], a, b);
      assert SumResidual(calib[1..], a, b) == MomentResidual(m, a, b) by {
        SumResidualFromMoments(calib[1..], a, b);
      }
      assert MomentResidual(MomentsOf(calib), a, b) == Residual(p, a, b) + MomentResidual(m, a, b) by {
        assert MomentsOf(calib) == AddPoint(m, p);
        AddPointResidual(m, p, a, b);
      }
    }
  }

  lemma {:induction false} SumFieldResidualFromMoments(calib: Table, a: real, b: real)
    ensures SumFieldResidual(calib, a, b) == MomentFieldResidual(MomentsOf(calib), a, b)
  {
    if calib != [] {
      var m, p := MomentsOf(calib[1..]), calib[0];
      assert SumFieldResidual(calib, a, b) == p.field * Residual(p, a, b) + SumFieldResidual(calib[1..], a, b);
      assert SumFieldResidual(calib[1..], a, b) == MomentFieldResidual(m, a, b) by {
        SumFieldResidualFromMoments(calib[1..], a, b);
      }
      assert MomentFieldResidual(MomentsOf(calib), a, b) == p.field * Residual(p, a, b) + MomentFieldResidual(m, a, b) by {
        assert MomentsOf(calib) == AddPoint(m, p);
        AddPointFieldResidual(m, p, a, b);
      }
    }
  }

  lemma {:induction false} SquaredErrorFromMoments(calib: Table, a: real, b: real)
    ensures SquaredError(calib, a, b) == MomentSquaredError(MomentsOf(calib), a, b)
  {
    if calib != [] {
      var m, p := MomentsOf(calib[1..]), calib[0];
      assert SquaredError(calib, a, b) == Residual(p, a, b) * Residual(p, a, b) + SquaredError(calib[1..], a, b);
      assert SquaredError(calib[1..], a, b) == MomentSquaredError(m, a, b) by {
        SquaredErrorFromMoments(calib[1..], a, b);
      }
      assert MomentSquaredError(MomentsOf(calib), a, b) == Residual(p, a, b) * Residual(p, a, b) + MomentSquaredError(m, a, b) by {
        assert MomentsOf(calib) == AddPoint(m, p);
        AddPointSquaredError(m, p, a, b);
      }
    }
  }

  lemma {:induction false} SquaredLineFromMoments(calib: Table, a: real, b: real)
    ensures SquaredLine(calib, a, b) == MomentSquaredLine(MomentsOf(calib), a, b)
  {
    if calib != [] {
      var m, p := MomentsOf(calib[1..]), calib[0];
      assert SquaredLine(calib, a, b) == (p.field * a + b) * (p.field * a + b) + SquaredLine(calib[1..], a, b);
      assert SquaredLine(calib[1..], a, b) == MomentSquaredLine(m, a, b) by {
        SquaredLineFromMoments(calib[1..], a, b);
      }
      assert MomentSquaredLine(MomentsOf(calib), a, b) == (p.field * a + b) * (p.field * a + b) + MomentSquaredLine(m, a, b) by {
        assert MomentsOf(calib) == AddPoint(m, p);
        AddPointSquaredLine(m, p, a, b);
      }
    }
  }

  lemma {:induction false} SquaredLineNonNegative(calib: Table, alpha: real, beta: real)
    ensures SquaredLine(calib, alpha, beta) >= 0.0
  {
    if calib != [] {
      SquaredLineNonNegative(calib[1..], alpha, beta);
      var d := calib[0].field * alpha + beta;
      assert d * d >= 0.0;
    }
  }

  // ---- the fit ----

  /** On the moments: the closed-form line makes both residual sums vanish. */
  lemma FitOfSolvesNormalEquations(m: Moments)
    requires m.n != 0.0 && Spread(m) != 0.0
    ensures MomentResidual(m, FitOf(m).slope, FitOf(m).intercept) == 0.0
    ensures MomentFieldResidual(m, FitOf(m).slope, FitOf(m).intercept) == 0.0
  {
    var s, c := FitOf(m).slope, FitOf(m).intercept;
    assert s * Spread(m) == m.n * m.fv - m.f * m.v;
    assert c * m.n == m.v - s * m.f;
    assert m.n * (m.fv - s * m.ff - c * m.f) == m.n * m.fv - s * (m.n * m.ff) - (c * m.n) * m.f;
  }

  /** On the moments: any line solving both normal equations is the closed-form line. */
  lemma NormalEquationsDetermineFit(m: Moments, a: real, b: real)
    requires m.n != 0.0 && Spread(m) != 0.0
    requires MomentResidual(m, a, b) == 0.0 && MomentFieldResidual(m, a, b) == 0.0
    ensures FitOf(m) == Fit(a, b)
  {
    assert m.v == a * m.f + b * m.n;
    assert m.fv == a * m.ff + b * m.f;
    assert m.n * m.fv - m.f * m.v == a * Spread(m);
  }

  /** On the moments: the squared error against (a, b) is that against (s, c),
      plus the cross terms, plus the squared difference of the two lines. */
  lemma MomentSquaredErrorSplit(m: Moments, s: real, c: real, a: real, b: real)
    ensures MomentSquaredError(m, a, b) ==
            MomentSquaredError(m, s, c)
            + 2.0 * (s - a) * MomentFieldResidual(m, s, c)
            + 2.0 * (c - b) * MomentResidual(m, s, c)
            + MomentSquaredLine(m, s - a, c - b)
  {
  }

  /** The fitted line satisfies both normal equations over the table: its
      residuals, and its field-weighted residuals, sum to zero. */
  lemma NormalEquations(calib: Table)
    requires |calib| > 0 && Spread(MomentsOf(calib)) != 0.0
    ensures SumResidual(calib, LeastSquaresFit(calib).slope, LeastSquaresFit(calib).intercept) == 0.0
    ensures SumFieldResidual(calib, LeastSquaresFit(calib).slope, LeastSquaresFit(calib).intercept) == 0.0
  {
    var fit := LeastSquaresFit(calib);
    SumResidualFromMoments(calib, fit.slope, fit.intercept);
    SumFieldResidualFromMoments(calib, fit.slope, fit.intercept);
    FitOfSolvesNormalEquations(MomentsOf(calib));
  }

  /** The fitted line minimises the sum of squared residuals: no line (a, b)
      fits the calibration table better. */
  lemma FitMinimisesSquaredError(calib: Table, a: real, b: real)
    requires |calib| > 0 && Spread(MomentsOf(calib)) != 0.0
    ensures SquaredError(calib, LeastSquaresFit(calib).slope, LeastSquaresFit(calib).intercept)
            <= SquaredError(calib, a, b)
  {
    var m, fit := MomentsOf(calib), LeastSquaresFit(calib);
    var s, c := fit.slope, fit.intercept;
    SquaredErrorFromMoments(calib, s, c);
    SquaredErrorFromMoments(calib, a, b);
    SquaredLineFromMoments(calib, s - a, c - b);
    FitOfSolvesNormalEquations(m);
    MomentSquaredErrorSplit(m, s, c, a, b);
    SquaredLineNonNegative(calib, s - a, c - b);
  }

  lemma {:induction false} OnLineResiduals(calib: Table, a: real, b: real)
    requires forall i :: 0 <= i < |calib| ==> calib[i].voltage == calib[i].field * a + b
    ensures SumResidual(calib, a, b) == 0.0 && SumFieldResidual(calib, a, b) == 0.0
  {
    if calib != [] {
      assert forall i :: 0 <= i < |calib[1..]| ==> calib[1..][i] == calib[i + 1];
      OnLineResiduals(calib[1..], a, b);
      assert Residual(calib[0], a, b) == 0.0;
    }
  }

  /** A table whose points lie exactly on the line (a, b) is fitted by that line. */
  lemma FitRecoversLine(calib: Table, a: real, b: real)
    requires |calib| > 0 && Spread(MomentsOf(calib)) != 0.0
    requires forall i :: 0 <= i < |calib| ==> calib[i].voltage == calib[i].field * a + b
    ensures LeastSquaresFit(calib) == Fit(a, b)
  {
    OnLineResiduals(calib, a, b);
    SumResidualFromMoments(calib, a, b);
    SumFieldResidualFromMoments(calib, a, b);
    NormalEquationsDetermineFit(MomentsOf(calib), a, b);
  }

  // ---- when the fit exists ----

  /** On the moments: adding a point x grows the spread by the sum of squared
      distances of the earlier fields from x. */
  lemma SpreadAddPoint(m: Moments, p: Point)
    ensures Spread(AddPoint(m, p)) == Spread(m) + MomentSquaredLine(m, 1.0, -p.field)
  {
  }

  lemma {:induction false} SpreadNonNegative(calib: Table)
    ensures Spread(MomentsOf(calib)) >= 0.0
  {
    if calib != [] {
      var m, p := MomentsOf(calib[1..]), calib[0];
      var q := MomentSquaredLine(m, 1.0, -p.field);
      assert q >= 0.0 by {
        SquaredLineFromMoments(calib[1..], 1.0, -p.field);
        SquaredLineNonNegative(calib[1..], 1.0, -p.field);
      }
      assert Spread(m) >= 0.0 by {
        SpreadNonNegative(calib[1..]);
      }
      assert Spread(MomentsOf(calib)) == Spread(m) + q by {
        assert MomentsOf(calib) == AddPoint(m, p);
        SpreadAddPoint(m, p);
      }
    }
  }

  /** The squared distances from x of fields whose first lies above x sum to a positive value. */
  lemma SquaredLineAboveFirst(calib: Table, x: real)
    requires |calib| > 0 && calib[0].field > x
    ensures SquaredLine(calib, 1.0, -x) > 0.0
  {
    var d := calib[0].field * 1.0 + -x;
    SquaredLineNonNegative(calib[1..], 1.0, -x);
    ProductPlusPositive(d, d, SquaredLine(calib[1..], 1.0, -x));
  }

  lemma ProductPlusPositive(d: real, e: real, t: real)
    requires d > 0.0 && e > 0.0 && t >= 0.0
    ensures d * e + t > 0.0
  {
  }

  /** A table of at least two points with strictly ascending fields has a
      positive spread, so the least-squares fit exists. */
  lemma SpreadPositive(calib: Table)
    requires Ascending(calib) && |calib| >= 2
    ensures Spread(MomentsOf(calib)) > 0.0
  {
    var rest, p := calib[1..], calib[0];
    var m := MomentsOf(rest);
    var q := MomentSquaredLine(m, 1.0, -p.field);
    assert q > 0.0 by {
      SquaredLineAboveFirst(rest, p.field);
      SquaredLineFromMoments(rest, 1.0, -p.field);
    }
    assert Spread(m) >= 0.0 by {
      SpreadNonNegative(rest);
    }
    assert Spread(MomentsOf(calib)) == Spread(m) + q by {
      assert MomentsOf(calib) == AddPoint(m, p);
      SpreadAddPoint(m, p);
    }
  }

  /** On a table meeting the calibration invariant interpolate_lsq never
      fails, and extrapolates every target, inside or outside the calibrated
      span, with the least-squares line. */
  lemma LsqOnValidTable(fields: seq<real>, calib: Table)
    requires Ascending(calib) && |calib| >= 2
    ensures Lsq(fields, calib).Ok?
    ensures Spread(MomentsOf(calib)) != 0.0 && Lsq(fields, calib).value == Extrapolate(fields, LeastSquaresFit(calib))
  {
    SpreadPositive(calib);
  }
}
