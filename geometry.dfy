/**
 * Points, distances and the outcome of an operation that may panic.
 *
 * Square roots have no closed form over `real`, so every operation that
 * needs one takes the square-root function as a parameter; the lemmas that
 * depend on its behaviour require `IsSqrt` of it.
 */
module Geometry {

  /** A point in the plane (position.go:9-12). */
  datatype Position = Position(x: real, y: real)

  datatype Option<+T> = None | Some(value: T)

  /** The result of an operation that either yields a value or panics at run time. */
  datatype Outcome<+T> = Value(v: T) | Panic(reason: string)

  /**
   * What the lemmas assume of the square root they are given: it is never
   * negative, it squares back to any non-negative argument, and it is 0 at 0
   * (which follows from the other two, stated so that no proof needs the
   * solver's non-linear reasoning to recover it).
   */
  ghost predicate IsSqrt(sqrt: real -> real)
  {
    sqrt(0.0) == 0.0 &&
    forall x :: sqrt(x) >= 0.0 && (x >= 0.0 ==> sqrt(x) * sqrt(x) == x)
  }

  /** `Position.Distance`: Euclidean distance between two points. */
  function Distance(sqrt: real -> real, p: Position, o: Position): real
  {
    var dY := o.y - p.y;
    var dX := o.x - p.x;
    sqrt(dY * dY + dX * dX)
  }

  /** `getLineLength`: Euclidean length of the line from `start` to `end`. */
  function LineLength(sqrt: real -> real, start: Position, end: Position): real
  {
    sqrt((end.x - start.x) * (end.x - start.x) + (end.y - start.y) * (end.y - start.y))
  }

  /** A distance is never negative, and the distance of a point to itself is 0. */
  lemma DistanceProperties(sqrt: real -> real, p: Position, o: Position)
    requires IsSqrt(sqrt)
    ensures Distance(sqrt, p, o) >= 0.0
    ensures Distance(sqrt, p, p) == 0.0
    ensures LineLength(sqrt, p, o) >= 0.0
    ensures LineLength(sqrt, p, p) == 0.0
  {
    assert p.y - p.y == 0.0 && p.x - p.x == 0.0;
  }

  /** The line length and the distance agree: both are the Euclidean norm of `o - p`. */
  lemma LineLengthIsDistance(sqrt: real -> real, p: Position, o: Position)
    ensures LineLength(sqrt, p, o) == Distance(sqrt, p, o)
  {
    assert (o.x - p.x) * (o.x - p.x) + (o.y - p.y) * (o.y - p.y)
        == (o.y - p.y) * (o.y - p.y) + (o.x - p.x) * (o.x - p.x);
  }

  /** Only a point has distance 0 from itself: distance 0 means the two positions coincide. */
  lemma DistanceZero(sqrt: real -> real, p: Position, o: Position)
    requires IsSqrt(sqrt) && Distance(sqrt, p, o) == 0.0
    ensures p == o
  {
    var dY, dX := o.y - p.y, o.x - p.x;
    SquareSign(dY);
    SquareSign(dX);
    RootZero(sqrt, dY * dY + dX * dX);
    SumOfSquaresZero(dY, dX);
  }

  /** A non-negative number whose root is 0 is itself 0. */
  lemma RootZero(sqrt: real -> real, x: real)
    requires IsSqrt(sqrt) && x >= 0.0 && sqrt(x) == 0.0
    ensures x == 0.0
  {
  }

  /**
   * `a * a` and `a * b` behind function names: the solver rewrites a
   * comparison of a bare square with 0 into one about `a` itself, which
   * loses the link to the square appearing in a sum.
   */
  function Square(a: real): real { a * a }

  function Product(a: real, b: real): real { a * b }

  lemma ProductPositive(a: real, b: real)
    requires a > 0.0 && b > 0.0
    ensures Product(a, b) > 0.0
  {
  }

  lemma SquareNegate(a: real)
    ensures Square(-a) == Square(a)
  {
  }

  /** A square is never negative, and it is positive unless its root is 0. */
  lemma SquareSign(a: real)
    ensures Square(a) >= 0.0
    ensures a != 0.0 ==> Square(a) > 0.0
  {
    if a > 0.0 {
      ProductPositive(a, a);
    } else if a < 0.0 {
      ProductPositive(-a, -a);
      SquareNegate(a);
    }
  }

  /** A sum of two squares is 0 only when both roots are. */
  lemma SumOfSquaresZero(a: real, b: real)
    requires a * a + b * b <= 0.0
    ensures a == 0.0 && b == 0.0
  {
    SquareSign(a);
    SquareSign(b);
  }
}
