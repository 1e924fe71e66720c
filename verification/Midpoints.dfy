/**
 The rounded midpoint (lo + hi) / 2 of an 80-digit context: how far it can be from the exact
 one, and when it is certain to fall strictly between the ends.
 */
module Midpoints {
  import opened Common
  import opened Intervals
  import opened Certificates

  lemma {:induction false} UnitPositive(d: real)
    requires d > 0.0
    ensures Unit(d) > 0.0
  {
    assert d * Ulp80() > 0.0;
  }

  /** Two and a half units from the sum, half a unit from the quotient. */
  lemma {:induction false} MidpointWithinThreeUnits(r: Rounding, d: real, a: real, b: real)
    requires EightyDigits(r, d) && -d <= a <= d && -d <= b <= d
    ensures Abs(Mid(r, a, b) - (a + b) / 2.0) <= 3.0 * Unit(d)
    ensures -d <= Mid(r, a, b) <= d && Unit(d) > 0.0
  {
    hide Decade, Unit, EightyDigits;
    SumNear(r, d, a + b);
    HalfNear(r, d, r.near(a + b) / 2.0);
  }

  lemma {:induction false} HalfNear(r: Rounding, d: real, x: real)
    requires EightyDigits(r, d) && -d <= x <= d
    ensures -Unit(d) / 2.0 <= r.near(x) - x <= Unit(d) / 2.0 && -d <= r.near(x) <= d && Unit(d) > 0.0
  {
    hide Unit, Decade;
    DecadePositive(d);
    UnitPositive(d);
  }

  lemma {:induction false} DecadePositive(d: real)
    requires Decade(d)
    ensures d > 0.0
  {
  }

  lemma {:induction false} SumNear(r: Rounding, d: real, x: real)
    requires EightyDigits(r, d) && -2.0 * d <= x <= 2.0 * d
    ensures -5.0 * Unit(d) <= r.near(x) - x <= 5.0 * Unit(d) && -2.0 * d <= r.near(x) <= 2.0 * d
  {
    hide Decade, Unit;
  }

  /** More than six units of width keep the rounded midpoint strictly inside. */
  lemma {:induction false} WideMidpointInside(r: Rounding, d: real, a: real, b: real)
    requires EightyDigits(r, d) && -d <= a < b <= d && b - a > 6.0 * Unit(d)
    ensures a < Mid(r, a, b) < b
    ensures Mid(r, a, b) - a >= (b - a) / 2.0 - 3.0 * Unit(d)
    ensures b - Mid(r, a, b) >= (b - a) / 2.0 - 3.0 * Unit(d)
  {
    hide Decade, Unit, EightyDigits, Mid;
    MidpointWithinThreeUnits(r, d, a, b);
  }
}
