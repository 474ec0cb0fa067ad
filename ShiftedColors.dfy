/**
 * ShiftedColor: a colour whose channels were shifted right by `shift` bits, the bucket key of
 * the colour finder. The jbesticon and jicon copies of the class are identical; both are
 * modelled here. A datatype is immutable, as the Java object is once constructed.
 */
module ShiftedColors {
  import opened Rgb
  import opened Results

  datatype ShiftedColor = ShiftedColor(shift: int, color: Color) {
    function Red(): Channel { color.r }
    function Green(): Channel { color.g }
    function Blue(): Channel { color.b }
  }

  const TwoTo31: int := 0x8000_0000
  const TwoTo32: int := 0x1_0000_0000

  /** Java int arithmetic: the 32-bit two's complement value congruent to `x`. */
  function Wrap32(x: int): (w: int)
    ensures -TwoTo31 <= w < TwoTo31
    ensures (w - x) % TwoTo32 == 0
  {
    (x + TwoTo31) % TwoTo32 - TwoTo31
  }

  /** Color.getRGB() for an opaque colour: alpha 0xFF in the top byte, as a signed int. */
  function ColorRgb(c: Color): int
  {
    0xFF00_0000 + c.r * 0x1_0000 + c.g * 0x100 + c.b - TwoTo32
  }

  /** Color.equals compares getRGB() values. */
  predicate ColorEquals(c: Color, d: Color)
  {
    ColorRgb(c) == ColorRgb(d)
  }

  /** Color.hashCode() is getRGB(). */
  function ColorHashCode(c: Color): int
  {
    ColorRgb(c)
  }

  /**
   * ShiftedColor.equals(Object): `other == None` stands for null (the class check cannot fail
   * between two ShiftedColor values, and the wrapped colour is never null here).
   */
  predicate Equals(a: ShiftedColor, other: Option<ShiftedColor>)
  {
    match other
    case None => false
    case Some(that) => a.shift == that.shift && ColorEquals(a.color, that.color)
  }

  /** ShiftedColor.hashCode(): `31 * shift + color.hashCode()` in 32-bit arithmetic. */
  function HashCode(a: ShiftedColor): (h: int)
    ensures -TwoTo31 <= h < TwoTo31
  {
    Wrap32(31 * Wrap32(a.shift) + ColorHashCode(a.color))
  }

  /** getRGB() determines the three channels, so Color.equals is channel equality. */
  lemma {:induction false} ColorRgbInjective(c: Color, d: Color)
    ensures ColorEquals(c, d) <==> c == d
  {
    if ColorEquals(c, d) {
      var v := c.r * 0x1_0000 + c.g * 0x100 + c.b;
      var w := d.r * 0x1_0000 + d.g * 0x100 + d.b;
      assert v == w;
      DivUnique(v, 0x100, c.r * 0x100 + c.g);
      DivUnique(w, 0x100, d.r * 0x100 + d.g);
      assert c.r * 0x100 + c.g == d.r * 0x100 + d.g;
      DivUnique(c.r * 0x100 + c.g, 0x100, c.r);
      DivUnique(d.r * 0x100 + d.g, 0x100, d.r);
    }
  }

  /** Two instances are equal iff they have the same shift and the same colour. */
  lemma EqualsIff(a: ShiftedColor, b: ShiftedColor)
    ensures Equals(a, Some(b)) <==> a.shift == b.shift && a.color == b.color
    ensures Equals(a, Some(b)) <==> a == b
  {
    ColorRgbInjective(a.color, b.color);
  }

  /** equals(null) is false. */
  lemma EqualsNull(a: ShiftedColor)
    ensures !Equals(a, None)
  {
  }

  /** equals is reflexive, symmetric and transitive. */
  lemma EqualsIsEquivalence(a: ShiftedColor, b: ShiftedColor, c: ShiftedColor)
    ensures Equals(a, Some(a))
    ensures Equals(a, Some(b)) <==> Equals(b, Some(a))
    ensures Equals(a, Some(b)) && Equals(b, Some(c)) ==> Equals(a, Some(c))
  {
  }

  /** Equal instances have equal hash codes. */
  lemma HashCodeConsistent(a: ShiftedColor, b: ShiftedColor)
    requires Equals(a, Some(b))
    ensures HashCode(a) == HashCode(b)
  {
    EqualsIff(a, b);
  }

  /** The channel getters read the wrapped colour. */
  lemma GettersReadColor(a: ShiftedColor)
    ensures a.Red() == a.color.r && a.Green() == a.color.g && a.Blue() == a.color.b
    ensures ShiftedColor(a.shift, Color(a.Red(), a.Green(), a.Blue())) == a
  {
  }
}
