/** The sensitivity curve: a pure, piecewise-linear map from pointer speed to
    a scale factor. Floating point is modelled over `real`. */
module Curve {

  /** The sensitivity cap `-c`; `Infinite` stands for the default `f64::INFINITY`. */
  datatype Cap = Finite(limit: real) | Infinite

  /** `f64::min(v, cap)`: the smaller of the two, with an infinite cap never chosen. */
  function MinCap(v: real, cap: Cap): (r: real)
    ensures r <= v
    ensures cap.Finite? ==> r <= cap.limit
    ensures r == v || (cap.Finite? && r == cap.limit)
  {
    match cap
    case Infinite => v
    case Finite(c) => if v < c then v else c
  }

  /** `a.mul_add(b, c)`; over the reals the fused rounding plays no part. */
  function MulAdd(a: real, b: real, c: real): real {
    a * b + c
  }

  /** `factor`: flat below `offset`, above it a linear ramp of slope `accel`
      clamped at `cap`, everything scaled by `sensMult`. */
  function Factor(sensMult: real, accel: real, cap: Cap, offset: real, speed: real): real {
    if speed < offset then sensMult
    else sensMult * MinCap(MulAdd(accel, speed - offset, 1.0), cap)
  }

  /** The curve parameters `-m`, `-a`, `-c` and `-o`. */
  datatype Params = Params(sensMult: real, accel: real, cap: Cap, offset: real)

  /** The curve the program uses: `factor` with its parameters fixed. */
  function CurveOf(p: Params): real -> real {
    (speed: real) => Factor(p.sensMult, p.accel, p.cap, p.offset, speed)
  }

  /** The sign facts about products that the curve's shape rests on. */
  lemma MulNonNegative(a: real, b: real)
    requires 0.0 <= a && 0.0 <= b
    ensures 0.0 <= a * b
  {
  }

  lemma MulPositive(a: real, b: real)
    requires 0.0 < a && 0.0 < b
    ensures 0.0 < a * b
  {
  }

  /** The unclamped ramp value at `speed`. */
  function Ramp(accel: real, offset: real, speed: real): real {
    1.0 + accel * (speed - offset)
  }

  /** Below the offset the factor is the multiplier itself. */
  lemma FactorFlat(sensMult: real, accel: real, cap: Cap, offset: real, speed: real)
    requires speed < offset
    ensures Factor(sensMult, accel, cap, offset, speed) == sensMult
  {
  }

  /** At or above the offset the factor is the multiplier times the ramp,
      or times the cap once the ramp passes it. */
  lemma FactorRamp(sensMult: real, accel: real, cap: Cap, offset: real, speed: real)
    requires offset <= speed
    ensures var ramp := Ramp(accel, offset, speed);
            Factor(sensMult, accel, cap, offset, speed)
            == if cap.Finite? && cap.limit < ramp then sensMult * cap.limit else sensMult * ramp
  {
  }

  /** At the offset itself the ramp is 1, so the factor is `sensMult * min(1, cap)`:
      the multiplier when the cap is at least 1, strictly less when it is below 1. */
  lemma FactorAtOffset(sensMult: real, accel: real, cap: Cap, offset: real)
    ensures Factor(sensMult, accel, cap, offset, offset)
            == if cap.Finite? && cap.limit < 1.0 then sensMult * cap.limit else sensMult
    ensures (cap.Infinite? || cap.limit >= 1.0) ==> Factor(sensMult, accel, cap, offset, offset) == sensMult
  {
  }

  /** With a cap below 1 and a positive multiplier the curve drops at the offset:
      any slower speed gets a larger factor than the offset does. */
  lemma FactorDropsBelowUnitCap(sensMult: real, accel: real, limit: real, offset: real, slower: real)
    requires sensMult > 0.0 && limit < 1.0 && slower < offset
    ensures Factor(sensMult, accel, Finite(limit), offset, offset)
            < Factor(sensMult, accel, Finite(limit), offset, slower)
  {
    MulPositive(sensMult, 1.0 - limit);
  }

  /** On the ramp the factor is non-decreasing in speed. */
  lemma FactorMonotone(sensMult: real, accel: real, cap: Cap, offset: real, s1: real, s2: real)
    requires sensMult >= 0.0 && accel >= 0.0
    requires offset <= s1 <= s2
    ensures Factor(sensMult, accel, cap, offset, s1) <= Factor(sensMult, accel, cap, offset, s2)
  {
    MulNonNegative(accel, s2 - s1);
    var r1, r2 := MulAdd(accel, s1 - offset, 1.0), MulAdd(accel, s2 - offset, 1.0);
    assert r1 <= r2;
    var m1, m2 := MinCap(r1, cap), MinCap(r2, cap);
    assert m1 <= m2;
    MulNonNegative(sensMult, m2 - m1);
  }

  /** With a cap of at least 1 (or none) the factor is non-decreasing over all speeds. */
  lemma FactorMonotoneEverywhere(sensMult: real, accel: real, cap: Cap, offset: real, s1: real, s2: real)
    requires sensMult >= 0.0 && accel >= 0.0
    requires cap.Infinite? || cap.limit >= 1.0
    requires s1 <= s2
    ensures Factor(sensMult, accel, cap, offset, s1) <= Factor(sensMult, accel, cap, offset, s2)
  {
    if s1 < offset {
      if offset <= s2 {
        FactorAtOffset(sensMult, accel, cap, offset);
        FactorMonotone(sensMult, accel, cap, offset, offset, s2);
      }
    } else {
      FactorMonotone(sensMult, accel, cap, offset, s1, s2);
    }
  }

  /** On the ramp the factor never exceeds `sensMult * cap`. */
  lemma FactorCapped(sensMult: real, accel: real, limit: real, offset: real, speed: real)
    requires sensMult >= 0.0 && offset <= speed
    ensures Factor(sensMult, accel, Finite(limit), offset, speed) <= sensMult * limit
  {
    var m := MinCap(MulAdd(accel, speed - offset, 1.0), Finite(limit));
    MulNonNegative(sensMult, limit - m);
  }

  /** With a positive slope, every speed far enough past the offset reaches the cap exactly. */
  lemma FactorReachesCap(sensMult: real, accel: real, limit: real, offset: real, speed: real)
    requires accel > 0.0 && offset <= speed
    requires speed >= offset + (limit - 1.0) / accel
    ensures Factor(sensMult, accel, Finite(limit), offset, speed) == sensMult * limit
  {
    MulNonNegative(accel, speed - offset - (limit - 1.0) / accel);
    assert accel * ((limit - 1.0) / accel) == limit - 1.0;
  }

  /** Worked values: multiplier 2, slope 0.01, cap 3, offset 5. */
  lemma FactorExamples()
    ensures Factor(2.0, 0.01, Finite(3.0), 5.0, 0.0) == 2.0
    ensures Factor(2.0, 0.01, Finite(3.0), 5.0, 5.0) == 2.0
    ensures Factor(2.0, 0.01, Finite(3.0), 5.0, 105.0) == 4.0
    ensures Factor(2.0, 0.01, Finite(3.0), 5.0, 1000.0) == 6.0
  {
  }
}
