/**
 * The linear branch of `pick_desired_fields`: `number` target fields evenly
 * spaced from `start` to `end`, produced as `arange(start, end + step, step)`
 * with `step = (end - start) / (number - 1)`.
 *
 * `arange` is modelled over reals: it yields `start + i * step` for every
 * natural i whose value lies before `stop`, that is ceil((stop - start) / step)
 * values (none when that is not positive), and raises ZeroDivisionError for
 * a zero step.
 */
module FieldSampler {
  import opened Outcomes

  /** The least integer not below x. */
  function Ceil(x: real): (c: int)
    ensures c as real >= x && (c - 1) as real < x
  {
    -((-x).Floor)
  }

  /** The i-th value of an arithmetic progression. */
  function Term(start: real, step: real, i: nat): real {
    start + i as real * step
  }

  /** `arange(start, stop, step)` over reals. */
  function Arange(start: real, stop: real, step: real): (r: Result<seq<real>>)
    ensures r.Err? <==> step == 0.0
    ensures r.Ok? ==> forall i :: 0 <= i < |r.value| ==> r.value[i] == Term(start, step, i)
    ensures r.Ok? ==> forall i: nat :: i < |r.value| <==>
      (if step > 0.0 then Term(start, step, i) < stop else Term(start, step, i) > stop)
  {
    if step == 0.0 then Err(ZeroDivisionError)
    else
      var n := Ceil((stop - start) / step);
      var len := if n < 0 then 0 else n;
      ArangeCount(start, stop, step, len);
      Ok(seq(len, i requires 0 <= i < len => Term(start, step, i)))
  }

  /** ceil((stop - start) / step) steps, and none when that is not positive,
      are exactly the terms that lie before `stop` in the step's direction. */
  lemma ArangeCount(start: real, stop: real, step: real, len: int)
    requires step != 0.0
    requires var n := Ceil((stop - start) / step); len == if n < 0 then 0 else n
    ensures forall i: nat :: i < len <==>
      (if step > 0.0 then Term(start, step, i) < stop else Term(start, step, i) > stop)
  {
    var q := (stop - start) / step;
    assert q * step == stop - start;
    forall i: nat
      ensures i < len <==> (if step > 0.0 then Term(start, step, i) < stop else Term(start, step, i) > stop)
    {
      assert i < len <==> i as real < q;
      assert Term(start, step, i) - stop == (i as real - q) * step;
      SignOfProduct(i as real - q, step);
    }
  }

  /** The sign of x * y for a non-zero y. */
  lemma SignOfProduct(x: real, y: real)
    requires y != 0.0
    ensures y > 0.0 ==> (x * y < 0.0 <==> x < 0.0)
    ensures y < 0.0 ==> (x * y > 0.0 <==> x < 0.0)
  {
    if x < 0.0 && y > 0.0 {
      assert (-x) * y > 0.0;
    } else if x < 0.0 && y < 0.0 {
      assert (-x) * (-y) > 0.0;
    } else if x > 0.0 && y > 0.0 {
      assert x * y > 0.0;
    } else if x > 0.0 && y < 0.0 {
      assert x * (-y) > 0.0;
    }
  }

  /** The linear branch of `pick_desired_fields(start, end, number)`.  It
      raises ZeroDivisionError exactly when `number` is 1 (the step's own
      division) or the span is zero (arange with a zero step), and nothing else. */
  function LinearFields(start: real, end: real, number: int): (r: Result<seq<real>>)
    ensures r.Err? <==> number == 1 || start == end
    ensures r.Err? ==> r.error == ZeroDivisionError
  {
    if number == 1 then Err(ZeroDivisionError)
    else
      var step := (end - start) / (number - 1) as real;
      assert step == 0.0 <==> start == end by {
        if start != end {
          StepCount(start, end, number);
        }
      }
      Arange(start, end + step, step)
  }

  lemma CeilOfInt(k: int)
    ensures Ceil(k as real) == k
  {
  }

  /** With a non-zero span, stepping one step past `end` spans exactly `number`
      steps from `start`. */
  lemma StepCount(start: real, end: real, number: int)
    requires number != 1 && start != end
    ensures var step := (end - start) / (number - 1) as real;
      step != 0.0 && (end + step - start) / step == number as real
  {
    var k := (number - 1) as real;
    var step := (end - start) / k;
    assert step * k == end - start;
    assert step != 0.0;
    assert (end + step - start) == step * (k + 1.0);
  }

  /** On success the sampler yields exactly `number` fields when `number` is at
      least 2, and none when it is 0 or negative. */
  lemma LinearFieldsLength(start: real, end: real, number: int)
    requires LinearFields(start, end, number).Ok?
    ensures number >= 2 ==> |LinearFields(start, end, number).value| == number
    ensures number <= 0 ==> |LinearFields(start, end, number).value| == 0
  {
    StepCount(start, end, number);
    CeilOfInt(number);
  }

  /** Field i is start + i * (end - start) / (number - 1). */
  lemma LinearFieldAt(start: real, end: real, number: int, i: nat)
    requires LinearFields(start, end, number).Ok? && number >= 2
    requires i < |LinearFields(start, end, number).value|
    ensures LinearFields(start, end, number).value[i] == start + i as real * (end - start) / (number - 1) as real
  {
    var k := (number - 1) as real;
    var step := (end - start) / k;
    assert LinearFields(start, end, number).value[i] == Term(start, step, i);
    TermOfQuotient(start, end - start, k, i);
  }

  lemma TermOfQuotient(start: real, y: real, k: real, i: nat)
    requires k != 0.0
    ensures Term(start, y / k, i) == start + i as real * y / k
  {
    MulDivAssoc(i as real, y, k);
  }

  /** The sampler yields `number` fields, field i being
      start + i * (end - start) / (number - 1); the first is `start` and the
      last is `end`. */
  lemma LinearFieldsValues(start: real, end: real, number: int)
    requires LinearFields(start, end, number).Ok? && number >= 2
    ensures var r := LinearFields(start, end, number).value;
      forall i :: 0 <= i < |r| ==> r[i] == start + i as real * (end - start) / (number - 1) as real
    ensures var r := LinearFields(start, end, number).value;
      |r| == number && r[0] == start && r[|r| - 1] == end
  {
    LinearFieldsLength(start, end, number);
    var r := LinearFields(start, end, number).value;
    forall i | 0 <= i < |r|
      ensures r[i] == start + i as real * (end - start) / (number - 1) as real
    {
      LinearFieldAt(start, end, number, i);
    }
    var k := (number - 1) as real;
    LinearFieldAt(start, end, number, 0);
    LinearFieldAt(start, end, number, number - 1);
    MulDivCancel(k, end - start);
  }

  lemma MulDivAssoc(x: real, y: real, z: real)
    requires z != 0.0
    ensures x * (y / z) == x * y / z
  {
  }

  lemma MulDivCancel(k: real, y: real)
    requires k != 0.0
    ensures k * y / k == y
  {
  }

  /** With `start < end` the fields strictly ascend, by one step each. */
  lemma LinearFieldsAscending(start: real, end: real, number: int)
    requires start < end && number >= 2
    ensures LinearFields(start, end, number).Ok?
    ensures var r := LinearFields(start, end, number).value;
      forall i, j :: 0 <= i < j < |r| ==> r[i] < r[j]
  {
    var r := LinearFields(start, end, number).value;
    var step := (end - start) / (number - 1) as real;
    assert step > 0.0;
    forall i, j | 0 <= i < j < |r|
      ensures r[i] < r[j]
    {
      assert r[j] - r[i] == (j - i) as real * step;
      ProductPositive((j - i) as real, step);
    }
  }

  lemma ProductPositive(x: real, y: real)
    requires x > 0.0 && y > 0.0
    ensures x * y > 0.0
  {
  }
}
