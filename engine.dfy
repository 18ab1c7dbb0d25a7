/**
 * Technique dispatch: `interpolate(fields, technique, calib)`.
 *
 * The name selects least squares ("lsq"), spline ("spl") or piecewise
 * linear ("pwl").  Any other name selects nothing, and reading the result
 * then raises UnboundLocalError.
 */
module Engine {
  import opened Outcomes
  import opened Calibration
  import opened PiecewiseLinear
  import opened LeastSquares
  import opened SplineInterpolation

  /** The names `interpolate` recognises. */
  predicate KnownTechnique(technique: string) {
    technique == "lsq" || technique == "spl" || technique == "pwl"
  }

  /** Reference definition of `interpolate`, the spline being the one built
      for `calib` (see `SplineInterpolation.Spline`). */
  function Dispatch(fields: seq<real>, technique: string, calib: Table, spline: Option<Evaluator>)
    : Result<seq<Sample>>
  {
    if technique == "lsq" then Lsq(fields, calib)
    else if technique == "spl" then Spline(fields, calib, spline)
    else if technique == "pwl" then Pwl(fields, calib)
    else Err(UnboundLocalError)
  }

  /** `interpolate`: run the selected technique. */
  method Interpolate(fields: seq<real>, technique: string, calib: Table, spline: Option<Evaluator>)
    returns (r: Result<seq<Sample>>)
    ensures r == Dispatch(fields, technique, calib, spline)
    ensures technique == "pwl" ==> r == Pwl(fields, calib)
    ensures technique == "lsq" ==> r == Lsq(fields, calib)
    ensures technique == "spl" ==> r == Spline(fields, calib, spline)
    ensures r == Err(UnboundLocalError) <==> !KnownTechnique(technique)
  {
    UnboundOnlyForUnknown(fields, technique, calib, spline);
    if technique == "lsq" {
      r := InterpolateLsq(fields, calib);
    } else if technique == "spl" {
      r := InterpolateSpline(fields, calib, spline);
    } else if technique == "pwl" {
      r := InterpolatePwl(fields, calib);
    } else {
      r := Err(UnboundLocalError);
    }
  }

  /** `interpolate` raises UnboundLocalError exactly for an unrecognised name:
      none of the three techniques raises it itself. */
  lemma UnboundOnlyForUnknown(fields: seq<real>, technique: string, calib: Table, spline: Option<Evaluator>)
    ensures Dispatch(fields, technique, calib, spline) == Err(UnboundLocalError) <==> !KnownTechnique(technique)
  {
    if Pwl(fields, calib).Err? {
      PwlErrors(fields, calib);
    }
    if Lsq(fields, calib).Err? {
      LsqErrors(fields, calib);
    }
    SplineFailsIff(fields, calib, spline);
  }

  /** On a table meeting the calibration invariant (at least two points,
      fields strictly ascending) "pwl" and "lsq" always succeed with one
      sample per target, in target order. */
  lemma KnownTechniquesOnValidTable(fields: seq<real>, calib: Table, spline: Option<Evaluator>)
    requires Ascending(calib) && |calib| >= 2
    ensures var r := Dispatch(fields, "pwl", calib, spline);
      r.Ok? && |r.value| == |fields| && forall i :: 0 <= i < |fields| ==> r.value[i].field == fields[i]
    ensures var r := Dispatch(fields, "lsq", calib, spline);
      r.Ok? && |r.value| == |fields| && forall i :: 0 <= i < |fields| ==> r.value[i].field == fields[i]
  {
    PwlOnValidTable(fields, calib);
    PwlPointwise(fields, calib);
    LsqOnValidTable(fields, calib);
    LsqPointwise(fields, calib);
  }
}
