/**
 * Parameter validation of `smoothen_route` (route.py,
 * `__validate_smoothen_input`): range checks in the fixed order granular
 * level, cutoff angle, cutoff distance; the first failing field is reported.
 */
module Validation {
  import opened Results

  /** The parameter a validation error names. */
  datatype Field = GranularLevel | CutoffAngle | CutoffDistance

  /** The accepted ranges, both ends inclusive. */
  predicate GranularOk(g: int) { 0 <= g <= 10 }
  predicate AngleOk(a: int) { 0 <= a <= 60 }
  predicate DistanceOk(d: int) { 0 <= d <= 1000 }

  /** The first parameter out of range, in checking order, or `None` when all are accepted. */
  function Validate(g: int, a: int, d: int): (failed: Option<Field>)
    ensures failed == None <==> GranularOk(g) && AngleOk(a) && DistanceOk(d)
    ensures failed == Some(GranularLevel) <==> !GranularOk(g)
    ensures failed == Some(CutoffAngle) <==> GranularOk(g) && !AngleOk(a)
    ensures failed == Some(CutoffDistance) <==> GranularOk(g) && AngleOk(a) && !DistanceOk(d)
  {
    if g < 0 || g > 10 then Some(GranularLevel)
    else if a < 0 || a > 60 then Some(CutoffAngle)
    else if d < 0 || d > 1000 then Some(CutoffDistance)
    else None
  }

  /** The defaults are accepted, and the out-of-range values the test suite tries are each rejected. */
  lemma ValidationExamples()
    ensures Validate(5, 45, 500) == None
    ensures Validate(5, 45, 100000) == Some(CutoffDistance)
    ensures Validate(5, 90, 500) == Some(CutoffAngle)
    ensures Validate(11, 45, 500) == Some(GranularLevel)
    ensures Validate(11, 90, 100000) == Some(GranularLevel)
  {
  }
}
