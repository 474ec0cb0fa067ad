/**
 * JiconColorFinder.getWeight: colours far from grey weigh more. Java doubles are modelled as
 * exact reals.
 */
module SaturationWeight {
  import opened Rgb

  function Abs(x: int): nat
  {
    if x < 0 then -x else x
  }

  /** `abs(x) * abs(x)`, as the source writes each squared difference. */
  function AbsSquare(x: int): nat
  {
    MulNonNegative(Abs(x), Abs(x));
    Abs(x) * Abs(x)
  }

  lemma MulNonNegative(a: nat, b: nat)
    ensures a * b >= 0
  {
  }

  /** (r-g)^2 + (r-b)^2 + (g-b)^2, an int in the source. */
  function SquaredDifferences(c: Color): nat
  {
    AbsSquare(c.r - c.g) + AbsSquare(c.r - c.b) + AbsSquare(c.g - c.b)
  }

  const Epsilon: real := 0.0000000001

  /** The weight, with the source's guard that returns 1E-10 for a non-positive weight. */
  function Weight(c: Color): (w: real)
    ensures w >= 1.0
  {
    var weight := (SquaredDifferences(c) as real) / 65535.0 * 1000.0 + 1.0;
    if weight <= 0.0 then Epsilon else weight
  }

  /** The guard never fires: the weight is always the plain formula. */
  lemma WeightIsFormula(c: Color)
    ensures Weight(c) == (SquaredDifferences(c) as real) * 1000.0 / 65535.0 + 1.0
  {
  }

  /** Grey colours (r = g = b) weigh exactly 1. */
  lemma GreyWeighsOne(c: Color)
    requires c.r == c.g == c.b
    ensures Weight(c) == 1.0
  {
  }

  /** Only grey colours weigh exactly 1. */
  lemma WeightOneOnlyForGrey(c: Color)
    requires Weight(c) == 1.0
    ensures c.r == c.g == c.b
  {
    assert SquaredDifferences(c) == 0;
    AbsSquareZero(c.r - c.g);
    AbsSquareZero(c.r - c.b);
  }

  lemma AbsSquareZero(x: int)
    ensures AbsSquare(x) == 0 <==> x == 0
  {
    if x != 0 {
      MulMonotone(1, Abs(x));
    }
  }

  lemma MulMonotone(u: nat, v: nat)
    requires u <= v
    ensures u * u <= v * v
  {
    assert u * u <= u * v;
  }

  /** The weight does not depend on the order of the channels. */
  lemma WeightPermutationInvariant(c: Color)
    ensures Weight(Color(c.g, c.r, c.b)) == Weight(c)
    ensures Weight(Color(c.r, c.b, c.g)) == Weight(c)
    ensures Weight(Color(c.b, c.g, c.r)) == Weight(c)
    ensures Weight(Color(c.g, c.b, c.r)) == Weight(c)
    ensures Weight(Color(c.b, c.r, c.g)) == Weight(c)
  {
    AbsSquareSymmetric(c.r, c.g);
    AbsSquareSymmetric(c.r, c.b);
    AbsSquareSymmetric(c.g, c.b);
  }

  lemma AbsSquareSymmetric(x: int, y: int)
    ensures AbsSquare(x - y) == AbsSquare(y - x)
  {
  }

  /** Sorted channels x <= y <= z: the three differences are p, q and p + q. */
  lemma SortedBound(x: int, y: int, z: int)
    requires 0 <= x <= y <= z <= 255
    ensures AbsSquare(x - y) + AbsSquare(x - z) + AbsSquare(y - z) <= 2 * 255 * 255
  {
    var p, q := y - x, z - y;
    assert AbsSquare(x - y) == p * p;
    assert AbsSquare(y - z) == q * q;
    assert AbsSquare(x - z) == (p + q) * (p + q);
    assert (p + q) * (p + q) == p * p + 2 * (p * q) + q * q;
    MulNonNegative(p, q);
    MulMonotone(p + q, 255);
  }

  lemma SquaredDifferencesBound(c: Color)
    ensures SquaredDifferences(c) <= 2 * 255 * 255
  {
    var r: int, g: int, b: int := c.r, c.g, c.b;
    AbsSquareSymmetric(r, g);
    AbsSquareSymmetric(r, b);
    AbsSquareSymmetric(g, b);
    if r <= g <= b { SortedBound(r, g, b); }
    else if r <= b <= g { SortedBound(r, b, g); }
    else if g <= r <= b { SortedBound(g, r, b); }
    else if g <= b <= r { SortedBound(g, b, r); }
    else if b <= r <= g { SortedBound(b, r, g); }
    else { SortedBound(b, g, r); }
  }

  /** For 8-bit channels the weight is at most 1 + 2*255^2*1000/65535 (about 1985.4). */
  lemma WeightUpperBound(c: Color)
    ensures Weight(c) <= 1.0 + (2 * 255 * 255) as real * 1000.0 / 65535.0
  {
    SquaredDifferencesBound(c);
  }

  /** The maximum is reached by a pure primary such as red. */
  lemma WeightOfRed()
    ensures Weight(Color(255, 0, 0)) == 1.0 + (2 * 255 * 255) as real * 1000.0 / 65535.0
  {
  }
}
