/**
 * Spline interpolation: `interpolate_spline`.
 *
 * The program builds an interpolating spline through the calibration table
 * (scipy's `splrep` with zero smoothing) and evaluates it at every target
 * (`splev`), writing the sentinel -1.0E30 for any target whose evaluation
 * raises.  The spline library is not modelled: the spline built for the
 * table is a parameter, `None` when its construction raised, otherwise an
 * evaluator that answers `None` where evaluation raised.
 */
module SplineInterpolation {
  import opened Outcomes
  import opened Calibration

  /** The voltage written for a target whose spline evaluation raised (-1.0E30). */
  const SplineFailure: real := -1000000000000000000000000000000.0

  /** A spline evaluator: the spline's value at a field, or None where evaluation raises. */
  type Evaluator = real -> Option<real>

  /** The voltage written for one target. */
  function SplineValue(eval: Evaluator, field: real): real {
    match eval(field)
    case Some(y) => y
    case None => SplineFailure
  }

  /** Reference definition of `interpolate_spline(fields, calib)`, given the
      spline that the library builds for `calib` (None if building it raised). */
  function Spline(fields: seq<real>, calib: Table, spline: Option<Evaluator>): Result<seq<Sample>> {
    if |calib| == 0 then Err(ValueError)
    else if spline.None? then Err(SplineFitError)
    else Ok(seq(|fields|, i requires 0 <= i < |fields| => Sample(fields[i], SplineValue(spline.value, fields[i]))))
  }

  /** `interpolate_spline`: evaluate the spline at each target in turn, catching failures. */
  method InterpolateSpline(fields: seq<real>, calib: Table, spline: Option<Evaluator>)
    returns (r: Result<seq<Sample>>)
    ensures r == Spline(fields, calib, spline)
  {
    if |calib| == 0 {
      return Err(ValueError);
    }
    if spline.None? {
      return Err(SplineFitError);
    }
    var eval := spline.value;
    var result: seq<Sample> := [];
    for i := 0 to |fields|
      invariant |result| == i
      invariant forall j :: 0 <= j < i ==> result[j] == Sample(fields[j], SplineValue(eval, fields[j]))
    {
      var y;
      match eval(fields[i]) {
        case Some(v) => y := v;
        case None => y := SplineFailure;
      }
      result := result + [Sample(fields[i], y)];
    }
    var expected := Spline(fields, calib, spline).value;
    assert |expected| == |fields|;
    assert forall j :: 0 <= j < |fields| ==> result[j] == expected[j];
    assert result == expected;
    r := Ok(result);
  }

  /** interpolate_spline fails exactly when the table is empty (the unpacking
      of its columns raises) or the spline cannot be built; each failing
      evaluation is caught and becomes the sentinel, never an error. */
  lemma SplineFailsIff(fields: seq<real>, calib: Table, spline: Option<Evaluator>)
    ensures Spline(fields, calib, spline).Err? <==> |calib| == 0 || spline.None?
    ensures Spline(fields, calib, spline) == Err(ValueError) <==> |calib| == 0
    ensures Spline(fields, calib, spline).Err? ==>
      Spline(fields, calib, spline).error == ValueError || Spline(fields, calib, spline).error == SplineFitError
  {
  }

  /** On success: one sample per target, in target order; the voltage is the
      spline's value where evaluation succeeds and the sentinel where it raises. */
  lemma SplinePointwise(fields: seq<real>, calib: Table, spline: Option<Evaluator>)
    requires Spline(fields, calib, spline).Ok?
    ensures spline.Some?
    ensures |Spline(fields, calib, spline).value| == |fields|
    ensures forall i :: 0 <= i < |fields| ==> Spline(fields, calib, spline).value[i].field == fields[i]
    ensures forall i :: 0 <= i < |fields| && spline.value(fields[i]).None? ==>
      Spline(fields, calib, spline).value[i].voltage == SplineFailure
    ensures forall i :: 0 <= i < |fields| && spline.value(fields[i]).Some? ==>
      Spline(fields, calib, spline).value[i].voltage == spline.value(fields[i]).value
  {
  }
}
