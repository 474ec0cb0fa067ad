/** java.awt.Color restricted to what the core uses: three 8-bit channels and `>>`. */
module Rgb {

  /** An 8-bit colour channel, as returned by Color.getRed/getGreen/getBlue. */
  type Channel = x: int | 0 <= x < 256

  datatype Color = Color(r: Channel, g: Channel, b: Channel)

  const White := Color(255, 255, 255)
  const Black := Color(0, 0, 0)
  /** Color.DARK_GRAY is (64, 64, 64). */
  const DarkGray := Color(64, 64, 64)

  function Pow2(n: nat): (p: nat)
    ensures p >= 1
  {
    if n == 0 then 1 else 2 * Pow2(n - 1)
  }

  /** Java's `x >> s` on a non-negative int: `s` successive halvings. */
  function Shr(x: Channel, s: nat): (y: Channel)
    ensures y <= x
  {
    if s == 0 then x else Shr(x, s - 1) / 2
  }

  /** Every channel shifted right by `s`. */
  function ShiftColor(c: Color, s: nat): (d: Color)
    ensures d.r == Shr(c.r, s) && d.g == Shr(c.g, s) && d.b == Shr(c.b, s)
  {
    Color(Shr(c.r, s), Shr(c.g, s), Shr(c.b, s))
  }

  lemma LessByFactor(a: int, b: int, d: int)
    requires d > 0 && a * d < b * d
    ensures a < b
  {
    assert (b - a) * d > 0;
  }

  /** Division is unique: the quotient is the only q with q*d <= x < (q+1)*d. */
  lemma DivUnique(x: int, d: int, q: int)
    requires d > 0 && q * d <= x < (q + 1) * d
    ensures x / d == q
  {
    var q0 := x / d;
    assert q0 * d <= x < (q0 + 1) * d;
    LessByFactor(q0, q + 1, d);
    LessByFactor(q, q0 + 1, d);
  }

  lemma MulBound(z: int, r2: int, r1: int, a: int, b: int)
    requires a > 0 && b > 0 && 0 <= r1 < a && 0 <= r2 < b
    ensures 0 <= r2 * a + r1 < a * b
  {
    assert r2 * a <= (b - 1) * a;
  }

  lemma Regroup(x: int, y: int, z: int, r1: int, r2: int, a: int, b: int)
    requires x == y * a + r1 && y == z * b + r2
    ensures x == z * (a * b) + (r2 * a + r1)
  {
    calc {
      y * a;
      (z * b + r2) * a;
      z * b * a + r2 * a;
      { assert z * b * a == z * (a * b); }
      z * (a * b) + r2 * a;
    }
  }

  /** Dividing by a and then by b is dividing by a*b. */
  lemma DivDiv(x: nat, a: nat, b: nat)
    requires a > 0 && b > 0
    ensures x / a / b == x / (a * b)
  {
    var y := x / a;
    var z := y / b;
    Regroup(x, y, z, x % a, y % b, a, b);
    MulBound(z, y % b, x % a, a, b);
    assert z * (a * b) <= x < (z + 1) * (a * b);
    DivUnique(x, a * b, z);
  }

  /** `x >> s` is floor division by 2^s. */
  lemma {:induction false} ShrIsDivision(x: Channel, s: nat)
    ensures Shr(x, s) == x / Pow2(s)
  {
    if s > 0 {
      ShrIsDivision(x, s - 1);
      DivDiv(x, Pow2(s - 1), 2);
      assert Pow2(s - 1) * 2 == Pow2(s);
    }
  }

  /** Shifting by `s` and then by `t` is shifting by `s + t`. */
  lemma {:induction false} ShrShr(x: Channel, s: nat, t: nat)
    ensures Shr(Shr(x, s), t) == Shr(x, s + t)
  {
    if t > 0 {
      ShrShr(x, s, t - 1);
    }
  }

  lemma ShiftColorShiftColor(c: Color, s: nat, t: nat)
    ensures ShiftColor(ShiftColor(c, s), t) == ShiftColor(c, s + t)
  {
    ShrShr(c.r, s, t);
    ShrShr(c.g, s, t);
    ShrShr(c.b, s, t);
  }
}
