/**
 * The older curve code of bezier.go. Its cubic `PositionAt` takes the curve
 * parameter t directly, its lookup table samples t in steps of 1/500, and
 * its constructor sets the length from `DistanceAt(1.0)` before, and apart
 * from, building the table. bezier.go declares no `DistanceAt` for
 * `CubicBezier`, so the constructor takes it as a parameter.
 */
module Bezier {
  import opened Geometry
  import Sampling
  import Paths

  /** `tValueSampleStep` is 1/500: the table holds the samples t = i/500. */
  const CubicSamples: nat := 500

  datatype QuadraticBezier = QuadraticBezier(start: Position, b: Position, c: Position, length: real)
  {
    /**
     * `QuadraticBezier.PositionAt(t)`: the same quadratic Bernstein form as
     * path.go's, running from the start (t = 0) to `c` (t = 1).
     */
    function PositionAt(t: real): (p: Position)
      ensures t == 0.0 ==> p == start
      ensures t == 1.0 ==> p == c
    {
      Paths.QuadraticPoint(start, b, c, t)
    }
  }

  datatype CubicBezier = CubicBezier(start: Position, b: Position, c: Position, d: Position,
                                     length: real, lookupTable: Sampling.LookupTable)
  {
    /**
     * `CubicBezier.PositionAt(t)`: the same cubic Bernstein form as path.go's
     * `PositionAtT`, taking t itself, running from the start (t = 0) to `d`
     * (t = 1).
     */
    function PositionAt(t: real): (p: Position)
      ensures t == 0.0 ==> p == start
      ensures t == 1.0 ==> p == d
    {
      Paths.CubicPoint(start, b, c, d, t)
    }
  }

  /** The cubic as a function of t, as `generateLookupTable` evaluates it. */
  function Curve(start: Position, b: Position, c: Position, d: Position): real -> Position
  {
    t => CubicBezier(start, b, c, d, 0.0, Sampling.LookupTable([], [])).PositionAt(t)
  }

  /** The table `generateLookupTable` builds: 501 samples, t stepping by 1/500. */
  function Table(sqrt: real -> real, start: Position, b: Position, c: Position, d: Position): (table: Sampling.LookupTable)
    ensures |table.distValues| == |table.tValues| == CubicSamples + 1
  {
    Sampling.SampledTable(sqrt, start, Curve(start, b, c, d), CubicSamples)
  }

  /**
   * `generateLookupTable`: the table of a cubic is valid, t runs from 0 to 1
   * and the first distance is 0, the sample at t = 0 being the start itself.
   */
  lemma TableShape(sqrt: real -> real, start: Position, b: Position, c: Position, d: Position)
    requires IsSqrt(sqrt)
    ensures Sampling.Valid(Table(sqrt, start, b, c, d))
    ensures Table(sqrt, start, b, c, d).tValues[CubicSamples] == 1.0
    ensures Table(sqrt, start, b, c, d).distValues[0] == 0.0
  {
    var curve := Curve(start, b, c, d);
    assert curve(0.0) == start;
    Sampling.SampledTableValid(sqrt, start, curve, CubicSamples);
  }

  /**
   * `NewCubicBezier`: the length is `DistanceAt(1.0)`, computed first; the
   * table is built afterwards and is not consulted for the length.
   */
  method NewCubicBezier(sqrt: real -> real, start: Position, b: Position, c: Position, d: Position,
                        distanceAt: real -> real)
    returns (bez: CubicBezier)
    ensures bez.start == start && bez.b == b && bez.c == c && bez.d == d
    ensures bez.length == distanceAt(1.0)
    ensures bez.lookupTable == Table(sqrt, start, b, c, d)
  {
    bez := CubicBezier(start, b, c, d, 0.0, Sampling.LookupTable([], []));
    bez := bez.(length := distanceAt(1.0));
    var lookupTable := Sampling.GenerateLookupTable(sqrt, start, Curve(start, b, c, d), CubicSamples);
    bez := bez.(lookupTable := lookupTable);
  }

  /**
   * `CubicBezier.ApproximateT`: the same scan as path.go's. On a table built
   * by `generateLookupTable` the result is a curve parameter in [0, 1]; it is
   * 0 below the first distance and 1 from the last distance on.
   */
  method ApproximateT(sqrt: real -> real, bez: CubicBezier, dist: real) returns (t: real)
    requires bez.lookupTable == Table(sqrt, bez.start, bez.b, bez.c, bez.d)
    ensures t == Sampling.ApproxT(bez.lookupTable, dist)
    ensures IsSqrt(sqrt) ==> 0.0 <= t <= 1.0
    ensures IsSqrt(sqrt) && dist < 0.0 ==> t == 0.0
    ensures IsSqrt(sqrt) && dist >= bez.lookupTable.distValues[CubicSamples] ==> t == 1.0
  {
    t := Sampling.ApproximateT(bez.lookupTable, dist);
    if IsSqrt(sqrt) {
      TableShape(sqrt, bez.start, bez.b, bez.c, bez.d);
      Sampling.ApproxTInUnitInterval(bez.lookupTable, dist);
      Sampling.ApproxTEnds(bez.lookupTable, dist);
    }
  }
}
