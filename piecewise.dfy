/**
 * Piecewise-linear lookup: `interpolate_segment` and `interpolate_pwl`.
 *
 * `Segment` and `Pwl` are the reference definitions; the methods
 * `InterpolateSegment` and `InterpolatePwl` follow the program's loops and are
 * proved equal to them. The lemmas state what the lookup promises: the -1
 * sentinel outside the calibrated span, the bracketing index the scan finds,
 * exact hits on calibration points (including the first point, reached
 * through Python's `calib[-1]`), convex blending, and per-target independence.
 */
module PiecewiseLinear {
  import opened Outcomes
  import opened Calibration

  /** The value returned for a target outside the calibrated field span. */
  const OutOfRange: real := -1.0

  /** The span check of the lookup: first field <= target <= last field. */
  predicate InRange(field: real, calib: Table)
    requires |calib| > 0
  {
    calib[0].field <= field <= Last(calib).field
  }

  /** The index the scan stops at, starting from `from`: the first point whose
      field is at least the target, or |calib| when there is none. */
  function FirstAtLeast(calib: Table, field: real, from: nat): (s: nat)
    requires from <= |calib|
    ensures from <= s <= |calib|
    ensures s < |calib| ==> field <= calib[s].field
    ensures forall j :: from <= j < s ==> calib[j].field < field
    decreases |calib| - from
  {
    if from == |calib| || field <= calib[from].field then from
    else FirstAtLeast(calib, field, from + 1)
  }

  /** Straight-line blend between `lo` and `hi`, evaluated at `field`: the
      point (field, voltage) lies on the line through the two points.  Python
      raises when the two fields coincide. */
  function Blend(field: real, lo: Point, hi: Point): (r: Result<real>)
    ensures r.Err? <==> hi.field == lo.field
    ensures r.Err? ==> r.error == ZeroDivisionError
    ensures r.Ok? ==>
      (r.value - lo.voltage) * (hi.field - lo.field) == (hi.voltage - lo.voltage) * (field - lo.field)
  {
    var width := hi.field - lo.field;
    if width == 0.0 then Err(ZeroDivisionError)
    else Ok(lo.voltage + (hi.voltage - lo.voltage) / width * (field - lo.field))
  }

  /** Reference definition of `interpolate_segment(field, calib)`. */
  function Segment(field: real, calib: Table): Result<real> {
    if |calib| == 0 then Err(IndexError)
    else if !InRange(field, calib) then Ok(OutOfRange)
    else
      assert field <= calib[|calib| - 1].field;
      var s := FirstAtLeast(calib, field, 0);
      Blend(field, PyAt(calib, s - 1), calib[s])
  }

  /** `interpolate_segment`: range check, forward scan, blend. */
  method InterpolateSegment(field: real, calib: Table) returns (r: Result<real>)
    ensures |calib| > 0 && !InRange(field, calib) ==> r == Ok(OutOfRange)
    ensures r == Segment(field, calib)
  {
    if |calib| == 0 {
      return Err(IndexError);
    }
    if field < calib[0].field || field > calib[|calib| - 1].field {
      return Ok(OutOfRange);
    }
    var s := 0;
    while calib[s].field < field
      invariant 0 <= s < |calib|
      invariant forall j :: 0 <= j < s ==> calib[j].field < field
      decreases |calib| - s
    {
      s := s + 1;
    }
    FirstAtLeastIs(calib, field, 0, s);
    var lo := PyAt(calib, s - 1);
    var hi := calib[s];
    if hi.field - lo.field == 0.0 {
      return Err(ZeroDivisionError);
    }
    var scale := (hi.voltage - lo.voltage) / (hi.field - lo.field);
    assert Segment(field, calib) == Blend(field, lo, hi);
    assert Blend(field, lo, hi).value == lo.voltage + scale * (field - lo.field);
    r := Ok(lo.voltage + scale * (field - lo.field));
  }

  /** The first index at least the target is unique. */
  lemma FirstAtLeastIs(calib: Table, field: real, from: nat, s: nat)
    requires from <= s < |calib|
    requires field <= calib[s].field
    requires forall j :: from <= j < s ==> calib[j].field < field
    ensures FirstAtLeast(calib, field, from) == s
  {
  }

  /** For an in-range target the scan stops inside the table at a point whose
      field is at least the target, every earlier field is below it, and the
      segment it selects has a non-zero width unless the scan stopped at 0. */
  lemma ScanBracketsTarget(field: real, calib: Table)
    requires |calib| > 0 && InRange(field, calib)
    ensures var s := FirstAtLeast(calib, field, 0);
      s < |calib| && field <= calib[s].field &&
      (forall j :: 0 <= j < s ==> calib[j].field < field) &&
      (s >= 1 ==> calib[s - 1].field < field <= calib[s].field &&
                  calib[s].field - calib[s - 1].field != 0.0) &&
      (s == 0 ==> field == calib[0].field && PyAt(calib, s - 1) == Last(calib))
  {
    assert field <= calib[|calib| - 1].field;
  }

  /** The lookup fails exactly on an empty table (IndexError) or when the target
      is the first field and the first and last fields coincide, so that the
      wrapped-around segment from calib[-1] to calib[0] has width zero. */
  lemma SegmentFailsIff(field: real, calib: Table)
    ensures Segment(field, calib).Err? <==>
            |calib| == 0 || (field == calib[0].field && calib[0].field == Last(calib).field)
    ensures Segment(field, calib) == Err(IndexError) <==> |calib| == 0
    ensures Segment(field, calib).Err? ==>
            Segment(field, calib).error == IndexError || Segment(field, calib).error == ZeroDivisionError
  {
    if |calib| > 0 && InRange(field, calib) {
      ScanBracketsTarget(field, calib);
    }
  }

  /** A target equal to the first field returns the first voltage, through the
      segment from calib[-1] (the last point) to calib[0]; this needs the
      first field to lie below the last. */
  lemma SegmentAtFirstField(calib: Table)
    requires |calib| > 0 && calib[0].field < Last(calib).field
    ensures FirstAtLeast(calib, calib[0].field, 0) == 0
    ensures PyAt(calib, -1) == Last(calib)
    ensures Segment(calib[0].field, calib) == Ok(calib[0].voltage)
  {
    var lo, hi := Last(calib), calib[0];
    FirstAtLeastIs(calib, hi.field, 0, 0);
    BlendAtHi(lo, hi);
  }

  /** Blending evaluated at the upper end of a segment gives its upper voltage. */
  lemma BlendAtHi(lo: Point, hi: Point)
    requires hi.field != lo.field
    ensures Blend(hi.field, lo, hi) == Ok(hi.voltage)
  {
    var width := hi.field - lo.field;
    DivMul(hi.voltage - lo.voltage, width);
    assert Blend(hi.field, lo, hi).value == lo.voltage + (hi.voltage - lo.voltage) / width * width;
  }

  lemma DivMul(x: real, y: real)
    requires y != 0.0
    ensures x / y * y == x
  {
  }

  /** On a strictly ascending table of at least two points, a target equal to
      the field of point k returns the voltage of point k. */
  lemma SegmentAtKnot(calib: Table, k: nat)
    requires Ascending(calib) && |calib| >= 2 && k < |calib|
    ensures Segment(calib[k].field, calib) == Ok(calib[k].voltage)
  {
    if k == 0 {
      SegmentAtFirstField(calib);
    } else {
      FirstAtLeastIs(calib, calib[k].field, 0, k);
      BlendAtHi(calib[k - 1], calib[k]);
    }
  }

  /** A successful in-range lookup is the convex combination
      (1 - w) * V[s-1] + w * V[s] of the two points around the scan index s
      (s - 1 read with Python indexing), with weight 0 < w <= 1; so it lies
      between those two voltages. */
  lemma SegmentIsConvex(field: real, calib: Table) returns (w: real)
    requires |calib| > 0 && InRange(field, calib) && Segment(field, calib).Ok?
    ensures var s := FirstAtLeast(calib, field, 0);
      s < |calib| &&
      0.0 < w <= 1.0 &&
      Segment(field, calib).value ==
        (1.0 - w) * PyAt(calib, s - 1).voltage + w * calib[s].voltage
    ensures var s := FirstAtLeast(calib, field, 0);
      s < |calib| &&
      var a, b := PyAt(calib, s - 1).voltage, calib[s].voltage;
      (a <= b ==> a <= Segment(field, calib).value <= b) &&
      (b <= a ==> b <= Segment(field, calib).value <= a)
  {
    ScanBracketsTarget(field, calib);
    var s := FirstAtLeast(calib, field, 0);
    var lo, hi := PyAt(calib, s as int - 1), calib[s];
    var width := hi.field - lo.field;
    assert width != 0.0;
    w := (field - lo.field) / width;
    if s == 0 {
      assert field == hi.field;
      assert field - lo.field == width;
      assert w == 1.0;
    } else {
      assert 0.0 < field - lo.field <= width;
      DivBounds(field - lo.field, width);
    }
    BlendIsConvex(field, lo, hi, w);
  }

  /** For 0 < x <= y, the ratio x / y lies in (0, 1]. */
  lemma DivBounds(x: real, y: real)
    requires 0.0 < x <= y
    ensures 0.0 < x / y <= 1.0
  {
  }

  lemma BlendIsConvex(field: real, lo: Point, hi: Point, w: real)
    requires hi.field != lo.field
    requires w == (field - lo.field) / (hi.field - lo.field)
    requires 0.0 < w <= 1.0
    ensures Blend(field, lo, hi).Ok?
    ensures Blend(field, lo, hi).value == (1.0 - w) * lo.voltage + w * hi.voltage
    ensures lo.voltage <= hi.voltage ==> lo.voltage <= Blend(field, lo, hi).value <= hi.voltage
    ensures hi.voltage <= lo.voltage ==> hi.voltage <= Blend(field, lo, hi).value <= lo.voltage
  {
    var width := hi.field - lo.field;
    var dv := hi.voltage - lo.voltage;
    assert Blend(field, lo, hi).value == lo.voltage + dv / width * (field - lo.field);
    assert dv / width * (field - lo.field) == dv * w;
    if lo.voltage <= hi.voltage {
      assert 0.0 <= dv * w <= dv;
    } else {
      assert dv <= dv * w <= 0.0;
    }
  }

  /** On a strictly ascending table, a target in (F[k], F[k+1]] is blended
      from points k and k+1 and lands between their voltages. */
  lemma SegmentBetweenKnots(calib: Table, k: nat, field: real)
    requires Ascending(calib) && k + 1 < |calib|
    requires calib[k].field < field <= calib[k + 1].field
    ensures Segment(field, calib).Ok?
    ensures var lo, hi := calib[k], calib[k + 1];
      Segment(field, calib).value ==
        lo.voltage + (hi.voltage - lo.voltage) * ((field - lo.field) / (hi.field - lo.field))
    ensures var a, b := calib[k].voltage, calib[k + 1].voltage;
      (a <= b ==> a <= Segment(field, calib).value <= b) &&
      (b <= a ==> b <= Segment(field, calib).value <= a)
  {
    var lo, hi := calib[k], calib[k + 1];
    FirstAtLeastIs(calib, field, 0, k + 1);
    var w := (field - lo.field) / (hi.field - lo.field);
    DivBounds(field - lo.field, hi.field - lo.field);
    BlendIsConvex(field, lo, hi, w);
  }

  /** A larger target scans at least as far. */
  lemma FirstAtLeastMonotone(calib: Table, f1: real, f2: real)
    requires f1 <= f2
    ensures FirstAtLeast(calib, f1, 0) <= FirstAtLeast(calib, f2, 0)
  {
  }

  /** With ascending fields and voltages, an in-range lookup lies between the
      voltages of the segment the scan selects; at the first field it is the
      first voltage. */
  lemma SegmentWithinSegment(calib: Table, field: real)
    requires Ascending(calib) && VoltagesAscending(calib) && |calib| >= 2
    requires InRange(field, calib)
    ensures var s := FirstAtLeast(calib, field, 0);
      s < |calib| && Segment(field, calib).Ok? &&
      Segment(field, calib).value <= calib[s].voltage &&
      (s == 0 ==> Segment(field, calib).value == calib[0].voltage) &&
      (s >= 1 ==> calib[s - 1].voltage <= Segment(field, calib).value)
  {
    SegmentFailsIff(field, calib);
    ScanBracketsTarget(field, calib);
    var s := FirstAtLeast(calib, field, 0);
    if s == 0 {
      SegmentAtFirstField(calib);
    } else {
      assert calib[s - 1].voltage <= calib[s].voltage;
      var _ := SegmentIsConvex(field, calib);
    }
  }

  /** Two targets on the same segment: a non-negative slope keeps them in order. */
  lemma BlendMonotone(lo: Point, hi: Point, f1: real, f2: real)
    requires lo.field < hi.field && lo.voltage <= hi.voltage && f1 <= f2
    ensures Blend(f1, lo, hi).Ok? && Blend(f2, lo, hi).Ok?
    ensures Blend(f1, lo, hi).value <= Blend(f2, lo, hi).value
  {
    var scale := (hi.voltage - lo.voltage) / (hi.field - lo.field);
    assert scale >= 0.0;
    assert Blend(f2, lo, hi).value - Blend(f1, lo, hi).value == scale * (f2 - f1);
  }

  /** When both fields and voltages ascend, the lookup is monotone over the
      calibrated span: a larger target never gets a smaller voltage. */
  lemma SegmentMonotone(calib: Table, f1: real, f2: real)
    requires Ascending(calib) && VoltagesAscending(calib) && |calib| >= 2
    requires InRange(f1, calib) && InRange(f2, calib) && f1 <= f2
    ensures Segment(f1, calib).Ok? && Segment(f2, calib).Ok?
    ensures Segment(f1, calib).value <= Segment(f2, calib).value
  {
    var s1, s2 := FirstAtLeast(calib, f1, 0), FirstAtLeast(calib, f2, 0);
    FirstAtLeastMonotone(calib, f1, f2);
    SegmentWithinSegment(calib, f1);
    SegmentWithinSegment(calib, f2);
    if s1 < s2 {
      assert calib[s1].voltage <= calib[s2 - 1].voltage;
    } else if s1 >= 1 {
      BlendMonotone(calib[s1 - 1], calib[s1], f1, f2);
    }
  }

  /** Reference definition of `interpolate_pwl(fields, calib)`: one sample per
      target, in target order; the first failing target's exception escapes. */
  function Pwl(fields: seq<real>, calib: Table): Result<seq<Sample>>
    decreases |fields|
  {
    if fields == [] then Ok([])
    else
      var f := fields[|fields| - 1];
      match Pwl(fields[..|fields| - 1], calib)
      case Err(e) => Err(e)
      case Ok(done) =>
        match Segment(f, calib)
        case Err(e) => Err(e)
        case Ok(v) => Ok(done + [Sample(f, v)])
  }

  /** `interpolate_pwl`: a fresh lookup per target, appended in order. */
  method InterpolatePwl(fields: seq<real>, calib: Table) returns (r: Result<seq<Sample>>)
    ensures r == Pwl(fields, calib)
  {
    var result: seq<Sample> := [];
    for i := 0 to |fields|
      invariant Pwl(fields[..i], calib) == Ok(result)
    {
      var v := InterpolateSegment(fields[i], calib);
      assert fields[..i + 1][..i] == fields[..i];
      if v.Err? {
        PwlKeepsError(fields[..i + 1], fields[i + 1..], calib);
        assert fields[..i + 1] + fields[i + 1..] == fields;
        return Err(v.error);
      }
      result := result + [Sample(fields[i], v.value)];
    }
    assert fields[..|fields|] == fields;
    r := Ok(result);
  }

  /** Once a prefix of the targets fails, later targets change nothing. */
  lemma {:induction false} PwlKeepsError(xs: seq<real>, ys: seq<real>, calib: Table)
    requires Pwl(xs, calib).Err?
    ensures Pwl(xs + ys, calib) == Pwl(xs, calib)
    decreases |ys|
  {
    if ys != [] {
      var init := ys[..|ys| - 1];
      var zs := xs + ys;
      assert zs[..|zs| - 1] == xs + init;
      PwlKeepsError(xs, init, calib);
      assert Pwl(zs[..|zs| - 1], calib).Err?;
    } else {
      assert xs + ys == xs;
    }
  }

  /** interpolate_pwl succeeds exactly when every target's lookup succeeds, and
      then returns as many samples as targets, sample i pairing target i with
      its own lookup: each target is handled on its own, so the targets need
      not be sorted. */
  lemma {:induction false} PwlPointwise(fields: seq<real>, calib: Table)
    ensures Pwl(fields, calib).Ok? <==>
            forall i :: 0 <= i < |fields| ==> Segment(fields[i], calib).Ok?
    ensures Pwl(fields, calib).Ok? ==>
            |Pwl(fields, calib).value| == |fields| &&
            forall i :: 0 <= i < |fields| ==>
              Pwl(fields, calib).value[i] == Sample(fields[i], Segment(fields[i], calib).value)
    decreases |fields|
  {
    if fields != [] {
      var init := fields[..|fields| - 1];
      PwlPointwise(init, calib);
      assert forall i :: 0 <= i < |init| ==> init[i] == fields[i];
    }
  }

  /** When interpolate_pwl fails, its exception is that of the first target
      whose lookup fails. */
  lemma {:induction false} PwlFirstError(fields: seq<real>, calib: Table) returns (k: nat)
    requires Pwl(fields, calib).Err?
    ensures k < |fields|
    ensures Segment(fields[k], calib) == Err(Pwl(fields, calib).error)
    ensures forall j :: 0 <= j < k ==> Segment(fields[j], calib).Ok?
    decreases |fields|
  {
    var init := fields[..|fields| - 1];
    assert forall i :: 0 <= i < |init| ==> init[i] == fields[i];
    if Pwl(init, calib).Err? {
      k := PwlFirstError(init, calib);
    } else {
      PwlPointwise(init, calib);
      k := |fields| - 1;
    }
  }

  /** On a table meeting the calibration invariant (at least two points,
      strictly ascending fields) interpolate_pwl never raises; every sample is
      the -1 sentinel outside the calibrated span and the exact voltage at a
      calibration point. */
  lemma PwlOnValidTable(fields: seq<real>, calib: Table)
    requires Ascending(calib) && |calib| >= 2
    ensures Pwl(fields, calib).Ok? && |Pwl(fields, calib).value| == |fields|
    ensures forall i :: 0 <= i < |fields| && !InRange(fields[i], calib) ==>
              Pwl(fields, calib).value[i] == Sample(fields[i], OutOfRange)
    ensures forall i, k :: 0 <= i < |fields| && 0 <= k < |calib| && fields[i] == calib[k].field ==>
              Pwl(fields, calib).value[i] == Sample(fields[i], calib[k].voltage)
  {
    forall i | 0 <= i < |fields| ensures Segment(fields[i], calib).Ok? {
      SegmentFailsIff(fields[i], calib);
    }
    PwlPointwise(fields, calib);
    forall i, k | 0 <= i < |fields| && 0 <= k < |calib| && fields[i] == calib[k].field
      ensures Pwl(fields, calib).value[i] == Sample(fields[i], calib[k].voltage)
    {
      SegmentAtKnot(calib, k);
    }
  }

  /** interpolate_pwl only ever raises IndexError or ZeroDivisionError. */
  lemma PwlErrors(fields: seq<real>, calib: Table)
    requires Pwl(fields, calib).Err?
    ensures Pwl(fields, calib).error == IndexError || Pwl(fields, calib).error == ZeroDivisionError
  {
    var k := PwlFirstError(fields, calib);
    SegmentFailsIff(fields[k], calib);
  }
}
