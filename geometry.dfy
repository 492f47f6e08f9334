/** Points of the canvas and the distance between them. */
module Geometry {

  /** A canvas coordinate. The source uses floating-point vectors; every point
      the modelled core compares is taken to lie on the integer grid. */
  datatype Point = Point(x: int, y: int)

  /** Squared Euclidean distance. The source compares square roots of this
      quantity; the square root is strictly monotone, so every strict `<`
      between two distances keeps its outcome when squares are compared. */
  function SqDist(p: Point, q: Point): (d: nat)
    ensures d == 0 <==> p == q
  {
    var dx, dy := p.x - q.x, p.y - q.y;
    SquareNonNegative(dx);
    SquareNonNegative(dy);
    SquareZero(dx);
    SquareZero(dy);
    dx * dx + dy * dy
  }

  lemma SquareNonNegative(a: int)
    ensures a * a >= 0
  {
    if a < 0 {
      assert a * a == (-a) * (-a);
    }
  }

  lemma SquareZero(a: int)
    ensures a * a == 0 <==> a == 0
  {
    if a != 0 {
      SquareNonNegative(a);
      if a > 0 {
        assert a * a >= a;
      } else {
        assert a * a == (-a) * (-a) >= -a;
      }
    }
  }
}
