/** Rust's `f64::round` (to nearest, ties away from zero) and the
    saturating `f64 as i32` conversion, over `real` and `int`. */
module Rounding {

  const I32_MIN: int := -0x8000_0000
  const I32_MAX: int := 0x7fff_ffff

  function Abs(v: real): real {
    if v < 0.0 then -v else v
  }

  /** How far the integer `n` lies from `v`. */
  function DistanceTo(v: real, n: int): real {
    Abs(v - n as real)
  }

  /** `e` is the error of rounding `v` to a nearest integer: none lies closer. */
  ghost predicate NearestError(v: real, e: real) {
    forall n: int :: Abs(e) <= DistanceTo(v, n)
  }

  /** `n` is what `v.round()` returns: the nearest integer to `v`, halfway
      cases rounded away from zero. */
  ghost predicate RoundsTo(v: real, n: int) {
    if v >= 0.0 then n as real <= v + 0.5 < n as real + 1.0
    else n as real - 1.0 < v - 0.5 <= n as real
  }

  /** At most one integer is what `v.round()` returns. */
  lemma RoundsToUnique(v: real, n: int, m: int)
    requires RoundsTo(v, n) && RoundsTo(v, m)
    ensures n == m
  {
  }

  /** `v.round()`. */
  ghost function Round(v: real): (n: int)
    ensures RoundsTo(v, n)
  {
    assert RoundsTo(v, if v >= 0.0 then (v + 0.5).Floor else -((0.5 - v).Floor));
    var n: int :| RoundsTo(v, n);
    n
  }

  /** `v.round() as i32`, computed the way the standard library does it: by
      flooring `v + 1/2` for a non-negative `v` and mirroring otherwise. */
  method RoundToI32(v: real) returns (r: int)
    ensures r == SaturateI32(Round(v))
  {
    var n: int;
    if v >= 0.0 {
      n := (v + 0.5).Floor;
    } else {
      n := -((0.5 - v).Floor);
    }
    RoundsToUnique(v, n, Round(v));
    r := SaturateI32(n);
  }

  predicate FitsI32(n: int) {
    I32_MIN <= n <= I32_MAX
  }

  /** `as i32` on an integral value: out-of-range values saturate at the bounds. */
  function SaturateI32(n: int): (r: int)
    ensures FitsI32(r)
    ensures FitsI32(n) ==> r == n
    ensures n < I32_MIN ==> r == I32_MIN
    ensures n > I32_MAX ==> r == I32_MAX
  {
    if n < I32_MIN then I32_MIN else if n > I32_MAX then I32_MAX else n
  }

  /** The rounding error is at most one half either way. */
  lemma RoundError(v: real)
    ensures -0.5 <= v - Round(v) as real <= 0.5
  {
  }

  /** No integer is closer to `v` than `Round(v)`. */
  lemma RoundNearest(v: real, n: int)
    ensures DistanceTo(v, Round(v)) <= DistanceTo(v, n)
  {
    RoundError(v);
    var r := Round(v);
    if n < r {
      assert n as real <= r as real - 1.0;
    } else if n > r {
      assert n as real >= r as real + 1.0;
    }
  }

  /** The carry left by rounding `v` and casting it to `i32`: when no
      saturation happens it is at most 1/2 either way, and no integer lies
      closer to `v` than the emitted value. */
  lemma SaturatedCarry(v: real)
    requires FitsI32(Round(v))
    ensures var e := v - SaturateI32(Round(v)) as real;
            -0.5 <= e <= 0.5 && NearestError(v, e)
  {
    RoundError(v);
    forall n: int ensures DistanceTo(v, Round(v)) <= DistanceTo(v, n) {
      RoundNearest(v, n);
    }
  }

  /** At an exact tie the result lies on the far side of `v` from zero. */
  lemma RoundTiesAway(v: real)
    ensures v - Round(v) as real == 0.5 ==> v < 0.0
    ensures v - Round(v) as real == -0.5 ==> v > 0.0
  {
  }

  /** Rounding commutes with negation. */
  lemma RoundOdd(v: real)
    ensures Round(-v) == -Round(v)
  {
    RoundsToUnique(-v, Round(-v), -Round(v));
  }

  /** Integral values are left alone. */
  lemma RoundIntegral(n: int)
    ensures Round(n as real) == n
  {
    RoundsToUnique(n as real, Round(n as real), n);
  }

  /** Both ends of the carry interval occur: 2.5 leaves -1/2 and -2.5 leaves +1/2. */
  lemma RoundTieExamples()
    ensures Round(2.5) == 3 && 2.5 - Round(2.5) as real == -0.5
    ensures Round(-2.5) == -3 && -2.5 - Round(-2.5) as real == 0.5
  {
    RoundsToUnique(2.5, Round(2.5), 3);
    RoundsToUnique(-2.5, Round(-2.5), -3);
  }
}
