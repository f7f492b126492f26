/** The two free helper functions of the demo: `lerp` with its snap-to-zero
    rule and the integer `Sign`. */
module Helpers {
  import opened Base

  /** The unsnapped linear interpolation `start + (end - start) * weight`. */
  function Blend(start: real, end: real, weight: real): real
  {
    start + (end - start) * weight
  }

  /** Linear interpolation whose result is forced to exactly 0 when its
      magnitude is below one unit, so smoothing processes stop instead of
      creeping towards zero forever. */
  function Lerp(start: real, end: real, weight: real): (out: real)
    ensures AbsReal(Blend(start, end, weight)) >= 1.0 ==> out == Blend(start, end, weight)
    ensures out == 0.0 <==> -1.0 < Blend(start, end, weight) < 1.0
    ensures out == 0.0 || AbsReal(out) >= 1.0
  {
    var out := Blend(start, end, weight);
    if AbsReal(out) < 1.0 then 0.0 else out
  }

  /** Sign of an integer: 1, -1 or 0. */
  function Sign(value: int): (s: int)
    ensures s == 1 <==> value > 0
    ensures s == -1 <==> value < 0
    ensures s == 0 <==> value == 0
  {
    if value > 0 then 1
    else if value < 0 then -1
    else 0
  }

  /** Every integer is its sign times its magnitude. */
  lemma SignTimesAbs(value: int)
    ensures value == Sign(value) * Abs(value)
  {
  }

  /** With weight 1 the interpolation lands on `end`, unless `end` itself is
      snapped to zero; with weight 0 it stays at `start` under the same rule. */
  lemma LerpEndpoints(start: real, end: real)
    ensures Lerp(start, end, 1.0) == (if AbsReal(end) < 1.0 then 0.0 else end)
    ensures Lerp(start, end, 0.0) == (if AbsReal(start) < 1.0 then 0.0 else start)
  {
  }

  /** For a weight in [0, 1] the unsnapped interpolation stays between the two
      endpoints, whichever of them is the larger; the snap can only move it
      to 0. */
  lemma LerpBetween(start: real, end: real, weight: real)
    requires 0.0 <= weight <= 1.0
    ensures start <= end ==> start <= Blend(start, end, weight) <= end
    ensures end <= start ==> end <= Blend(start, end, weight) <= start
    ensures start <= end ==> Lerp(start, end, weight) == 0.0 || start <= Lerp(start, end, weight) <= end
    ensures end <= start ==> Lerp(start, end, weight) == 0.0 || end <= Lerp(start, end, weight) <= start
  {
    var d := end - start;
    var rest := 1.0 - weight;
    assert rest >= 0.0;
    assert d * weight + d * rest == d;
    if start <= end {
      assert d * weight >= 0.0;
      assert d * rest >= 0.0;
    } else {
      assert (-d) * weight >= 0.0;
      assert (-d) * rest >= 0.0;
    }
  }
}
