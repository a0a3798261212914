/** Precision: comparison of doubles up to an absolute and a relative tolerance. */
module Precision {
  const DEFAULT_TOLERANCE: real := 0.0000000001

  function Abs(a: real): real {
    if a < 0.0 then -a else a
  }

  /** A quotient 0/0 is not a number and compares as false. */
  function Compare(value1: real, value2: real, absolute: real, relative: real): int {
    var diff := value1 - value2;
    var scale := Abs(value1) + Abs(value2);
    if Abs(diff) < absolute then 0
    else if scale != 0.0 && Abs(diff) * 2.0 / scale < relative then 0
    else if diff > 0.0 then 1
    else -1
  }

  /** The two arguments can be swapped, for positive tolerances. */
  lemma CompareSwaps(a: real, b: real, absolute: real, relative: real)
    requires absolute > 0.0
    ensures Compare(a, b, absolute, relative) == -Compare(b, a, absolute, relative)
  {
    assert Abs(a - b) == Abs(b - a) && Abs(a) + Abs(b) == Abs(b) + Abs(a);
  }

  /** Beside zero only the absolute tolerance counts: the relative distance is 2. */
  lemma NearZero(c: real, absolute: real, relative: real)
    requires absolute > 0.0 && relative <= 2.0
    ensures Compare(c, 0.0, absolute, relative) == 0 <==> Abs(c) < absolute
  {
    if c != 0.0 { Twice(Abs(c)); }
  }

  lemma Twice(a: real)
    requires a > 0.0
    ensures a * 2.0 / a == 2.0
  {
  }

  /** Beside one the relative test admits a little more than the absolute one. */
  lemma NearOne(c: real, tolerance: real)
    requires 0.0 < tolerance < 2.0 && Compare(c, 1.0, tolerance, tolerance) == 0
    ensures Abs(c - 1.0) * (2.0 - tolerance) < 2.0 * tolerance
  {
    var d := Abs(c - 1.0);
    if d < tolerance {
      Product(d, tolerance);
    } else {
      var scale := Abs(c) + 1.0;
      QuotientBound(d * 2.0, scale, tolerance);
      assert scale <= d + 2.0;
      Scaled(d, scale, tolerance);
    }
  }

  lemma Product(d: real, tolerance: real)
    requires 0.0 <= d < tolerance < 2.0
    ensures d * (2.0 - tolerance) < 2.0 * tolerance
  {
    assert d * tolerance >= 0.0;
  }

  lemma QuotientBound(a: real, b: real, t: real)
    requires b > 0.0 && a / b < t
    ensures a < t * b
  {
    assert a == (a / b) * b;
  }

  lemma Scaled(d: real, scale: real, tolerance: real)
    requires d * 2.0 < tolerance * scale && scale <= d + 2.0 && tolerance > 0.0
    ensures d * (2.0 - tolerance) < 2.0 * tolerance
  {
    Monotone(tolerance, scale, d + 2.0);
    assert tolerance * (d + 2.0) == tolerance * d + tolerance * 2.0;
    assert d * (2.0 - tolerance) == d * 2.0 - tolerance * d;
  }

  lemma Monotone(t: real, a: real, b: real)
    requires t > 0.0 && a <= b
    ensures t * a <= t * b
  {
    assert t * (b - a) >= 0.0;
    assert t * (b - a) == t * b - t * a;
  }
}
