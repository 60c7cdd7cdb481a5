/** `linearDeadzone` (code/anker/core/anker_inputs.hpp). Floats are reals. */
module Inputs {

  function Abs(x: real): (r: real)
    ensures r >= 0.0 && (r == x || r == -x)
  {
    if x < 0.0 then -x else x
  }

  /** `linearDeadzone(value, lower, upper)`: magnitudes up to `lower` give 0,
      magnitudes from `upper` on give the sign of `value`, and the range in
      between is mapped linearly onto (0, 1), keeping the sign. `upper`
      defaults to 1. */
  function LinearDeadzone(value: real, lower: real, upper: real := 1.0): (r: real)
    ensures Abs(value) <= lower ==> r == 0.0
    ensures lower < Abs(value) && upper <= Abs(value) ==> r == (if value < 0.0 then -1.0 else 1.0)
    ensures lower < Abs(value) < upper ==>
              r * (upper - lower) == (if value < 0.0 then -1.0 else 1.0) * (Abs(value) - lower)
  {
    var abs := Abs(value);
    var sign := if value < 0.0 then -1.0 else 1.0;
    if abs <= lower then 0.0
    else if abs >= upper then sign
    else sign * (abs - lower) / (upper - lower)
  }

  /** With `0 <= lower < upper` the result lies in [-1, 1], never has the
      opposite sign of `value`, and is 0 only inside the dead zone. */
  lemma DeadzoneRange(value: real, lower: real, upper: real)
    requires 0.0 <= lower < upper
    ensures -1.0 <= LinearDeadzone(value, lower, upper) <= 1.0
    ensures value >= 0.0 ==> LinearDeadzone(value, lower, upper) >= 0.0
    ensures value < 0.0 ==> LinearDeadzone(value, lower, upper) <= 0.0
    ensures LinearDeadzone(value, lower, upper) == 0.0 <==> Abs(value) <= lower
  {
    var abs := Abs(value);
    if lower < abs < upper {
      var r := LinearDeadzone(value, lower, upper);
      var d := upper - lower;
      if value < 0.0 {
        assert (-r) * d == abs - lower;
        UnitByProduct(-r, d, abs - lower);
      } else {
        UnitByProduct(r, d, abs - lower);
      }
    }
  }

  /** `r` with `r * d == p` and `0 < p < d` lies strictly between 0 and 1. */
  lemma UnitByProduct(r: real, d: real, p: real)
    requires d > 0.0 && r * d == p && 0.0 < p < d
    ensures 0.0 < r < 1.0
  {
    if r <= 0.0 { NonPositiveTimesPositive(r, d); }
    if r >= 1.0 { NonPositiveTimesPositive(1.0 - r, d); }
  }

  lemma NonPositiveTimesPositive(a: real, b: real)
    requires a <= 0.0 && b > 0.0
    ensures a * b <= 0.0
  {
  }

  /** The dead zone is odd: mirroring a non-zero input mirrors the output. */
  lemma DeadzoneOdd(value: real, lower: real, upper: real)
    requires value != 0.0
    ensures LinearDeadzone(-value, lower, upper) == -LinearDeadzone(value, lower, upper)
  {
  }
}
