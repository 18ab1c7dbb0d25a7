/**
 * Shared vocabulary of the pulse-magnetiser step calculator: the outcome of
 * an operation (a value, or the Python exception the program would raise),
 * calibration points and tables, and the (field, voltage) result pairs.
 */
module Outcomes {

  /** The exceptions the program can raise, named after their Python classes. */
  datatype Error =
    | IndexError          // calib[0] on an empty calibration table
    | ZeroDivisionError   // a float division by zero, or numpy.arange with a zero step
    | ValueError          // zip(*calib) unpacked into two names on an empty table
    | UnboundLocalError   // `result` read in interpolate when no branch assigned it
    | RankDeficientFit    // the closed-form straight-line fit has a zero denominator
    | SplineFitError      // the spline construction itself raised

  datatype Result<T> = Ok(value: T) | Err(error: Error)

  datatype Option<T> = None | Some(value: T)
}

module Calibration {

  /** One calibration measurement: a driving voltage and the field it produced. */
  datatype Point = Point(voltage: real, field: real)

  /** A calibration table, in file order. */
  type Table = seq<Point>

  /** One line of output: a target field and the voltage computed for it. */
  datatype Sample = Sample(field: real, voltage: real)

  /** Fields strictly increase from first to last point. */
  predicate Ascending(calib: Table) {
    forall i, j :: 0 <= i < j < |calib| ==> calib[i].field < calib[j].field
  }

  /** Voltages never decrease from first to last point (a monotone calibration curve). */
  predicate VoltagesAscending(calib: Table) {
    forall i, j :: 0 <= i < j < |calib| ==> calib[i].voltage <= calib[j].voltage
  }

  function Last(calib: Table): Point
    requires |calib| > 0
  {
    calib[|calib| - 1]
  }

  /** Python's `calib[i]`: a negative index counts back from the end of the list. */
  function PyAt(calib: Table, i: int): Point
    requires -|calib| <= i < |calib|
  {
    if i < 0 then calib[|calib| + i] else calib[i]
  }
}
