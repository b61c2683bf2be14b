/**
 * The segment model and path traversal of path.go.
 *
 * A path is an ordered sequence of segments with a stored total length.
 * `GetPositionAtLength` clamps at the end, walks the segments subtracting
 * their lengths, returns the owning segment's start for a residual below
 * 0.01, and otherwise asks the owning segment for the point at the residual.
 * Go's nil results are `None`; a run-time panic is `Panic`.
 */
module Paths {
  import opened Geometry
  import Traversal
  import Sampling

  /** `tValueSampleStep` is 1/2000: a cubic's table holds the samples t = i/2000. */
  const CubicSamples: nat := 2000

  /** A residual below this returns the owning segment's start point. */
  const Epsilon: real := 0.01

  /**
   * The segment kinds of path.go. `Empty` and `Move` have length 0 and no
   * positions; the other kinds carry their defining points and the length
   * computed when they were built.
   */
  datatype Segment =
    | Empty
    | Move
    | Line(start: Position, end: Position, length: real)
    | QuadraticBezier(start: Position, b: Position, c: Position, length: real)
    | CubicBezier(start: Position, b: Position, c: Position, d: Position,
                  length: real, lookupTable: Sampling.LookupTable)
  {
    function Length(): real
    {
      match this
      case Empty => 0.0
      case Move => 0.0
      case Line(_, _, length) => length
      case QuadraticBezier(_, _, _, length) => length
      case CubicBezier(_, _, _, _, length, _) => length
    }

    function StartPosition(): Option<Position>
    {
      if Empty? || Move? then None else Some(start)
    }

    /** The quadratic's end position is its control point `b`, not its end point `c`. */
    function EndPosition(): Option<Position>
    {
      match this
      case Empty => None
      case Move => None
      case Line(_, end, _) => Some(end)
      case QuadraticBezier(_, b, _, _) => Some(b)
      case CubicBezier(_, _, _, d, _, _) => Some(d)
    }
  }

  /** Holds of every segment a constructor of path.go builds: a cubic's table has as many t values as distances. */
  ghost predicate WellFormed(s: Segment)
  {
    s.CubicBezier? ==> |s.lookupTable.tValues| == |s.lookupTable.distValues|
  }

  /** `Path`: the segments in drawing order and the stored total length. */
  datatype Path = Path(segments: seq<Segment>, length: real)

  function Lengths(segments: seq<Segment>): (ls: seq<real>)
  {
    seq(|segments|, i requires 0 <= i < |segments| => segments[i].Length())
  }

  /** The stored length is the sum of the segment lengths, none of which is negative. */
  ghost predicate Consistent(p: Path)
  {
    p.length == Traversal.Sum(Lengths(p.segments)) && Traversal.NonNegative(Lengths(p.segments))
  }

  /** `Path.calculateLength`: the accumulator loop over the segments. */
  method CalculateLength(p: Path) returns (length: real)
    ensures length == Traversal.Sum(Lengths(p.segments))
  {
    var ls := Lengths(p.segments);
    length := 0.0;
    var i := 0;
    while i < |p.segments|
      invariant 0 <= i <= |p.segments|
      invariant length == Traversal.Sum(ls[..i])
    {
      Traversal.SumSnoc(ls[..i], ls[i]);
      assert ls[..i + 1] == ls[..i] + [ls[i]];
      length := length + p.segments[i].Length();
      i := i + 1;
    }
    assert ls[..i] == ls;
  }

  /** `math.Pow` for an integer exponent. */
  function Pow(base: real, exp: int): real
    requires base != 0.0
    decreases if exp < 0 then -exp else exp
  {
    if exp == 0 then 1.0
    else if exp > 0 then base * Pow(base, exp - 1)
    else Pow(base, exp + 1) / base
  }

  /** Every power of 1 is 1: the threshold `math.Pow(1, -10)` of `Line.PositionAt` is 1, not 1e-10. */
  lemma {:induction false} PowOfOne(exp: int)
    ensures Pow(1.0, exp) == 1.0
    decreases if exp < 0 then -exp else exp
  {
    if exp > 0 {
      PowOfOne(exp - 1);
    } else if exp < 0 {
      PowOfOne(exp + 1);
    }
  }

  /** `NewLine`: a line whose length is the distance between its end points. */
  function NewLine(sqrt: real -> real, start: Position, end: Position): (l: Segment)
    ensures l.Line? && l.start == start && l.end == end
    ensures l.Length() == Distance(sqrt, start, end)
  {
    LineLengthIsDistance(sqrt, start, end);
    Line(start, end, LineLength(sqrt, start, end))
  }

  lemma SquareNonNegative(m: real)
    ensures m * m >= 0.0
  {
    if m < 0.0 {
      assert m * m == (-m) * (-m);
      Sampling.MulLeftLe(0.0, -m, -m);
    } else if m > 0.0 {
      Sampling.MulLeftLe(0.0, m, m);
    }
  }

  /**
   * `Line.PositionAt(t)`: the point at distance t from the start along the
   * line. Lines shorter than `math.Pow(1, -10)` (which is 1) give the start;
   * a vertical line gives the x of the start with y = t (or -t when the line
   * points down), not an offset from the start's y. Otherwise the run has
   * the sign of end.x - start.x and the rise is the slope times the run. The
   * test at path.go:158 compares an expression that is identically 0 with the
   * threshold, so its branch is always taken and the projection after it
   * (path.go:165-178) is never reached; it is not part of the model.
   */
  function LinePositionAt(sqrt: real -> real, start: Position, end: Position, t: real): Position
  {
    var lineLength := LineLength(sqrt, start, end);
    if lineLength < Pow(1.0, -10) then start
    else if start.x == end.x then
      Position(start.x, if end.y < start.y then -t else t)
    else
      var m := (end.y - start.y) / (end.x - start.x);
      var mult := if end.x < start.x then -1.0 else 1.0;
      var run := sqrt(RunSquared(t, m)) * mult;
      var rise := m * run;
      Position(start.x + run, start.y + rise)
  }

  /** The square of the run for a step of length t along slope m: t^2 / (1 + m^2). */
  function RunSquared(t: real, m: real): real
  {
    SquareNonNegative(m);
    (t * t) / (1.0 + m * m)
  }

  /**
   * On a line that is not vertical and at least 1 long, the point returned
   * lies on the line through start and end, at distance |t| from the start,
   * on the side of the start that the end is on.
   */
  lemma LinePositionAlongLine(sqrt: real -> real, start: Position, end: Position, t: real)
    requires IsSqrt(sqrt)
    requires start.x != end.x && LineLength(sqrt, start, end) >= 1.0
    ensures var p := LinePositionAt(sqrt, start, end, t);
      (p.x - start.x) * (end.y - start.y) == (p.y - start.y) * (end.x - start.x) &&
      (p.x - start.x) * (p.x - start.x) + (p.y - start.y) * (p.y - start.y) == t * t &&
      (p.x - start.x) * (end.x - start.x) >= 0.0
  {
    PowOfOne(-10);
    var dx, dy := end.x - start.x, end.y - start.y;
    var m := dy / dx;
    var mult := if end.x < start.x then -1.0 else 1.0;
    var s := sqrt(RunSquared(t, m));
    var p := LinePositionAt(sqrt, start, end, t);
    assert p.x - start.x == s * mult && p.y - start.y == m * (s * mult);
    RunSquaredNonNegative(t, m);
    SlopeStep(dx, dy, t, s, mult);
  }

  lemma RunSquaredNonNegative(t: real, m: real)
    ensures RunSquared(t, m) >= 0.0
  {
    SquareNonNegative(t);
    SquareNonNegative(m);
    Sampling.DivLe(0.0, t * t, 1.0 + m * m);
  }

  /**
   * The arithmetic of the sloped case: with m = dy/dx, a square root s of
   * t^2/(1 + m^2), and the sign of dx as `mult`, the step (s*mult, m*s*mult)
   * is parallel to (dx, dy), has length |t| and points the way dx does.
   */
  lemma SlopeStep(dx: real, dy: real, t: real, s: real, mult: real)
    requires dx != 0.0 && mult == (if dx < 0.0 then -1.0 else 1.0)
    requires s >= 0.0 && s * s == RunSquared(t, dy / dx)
    ensures var run := s * mult; var rise := (dy / dx) * run;
      run * dy == rise * dx && run * run + rise * rise == t * t && run * dx >= 0.0
  {
    var m := dy / dx;
    assert m * dx == dy;
    SquareNonNegative(m);
    var k := 1.0 + m * m;
    var q := (t * t) / k;
    assert q * k == t * t;
    var run := s * mult;
    var rise := m * run;
    assert run * run == q by {
      assert mult * mult == 1.0;
      assert run * run == (s * s) * (mult * mult);
    }
    assert rise * rise == (m * m) * (run * run);
    assert run * run + rise * rise == q * k;
    assert rise * dx == run * dy by {
      assert rise * dx == run * (m * dx);
    }
    assert run * dx >= 0.0 by {
      if dx > 0.0 {
        Sampling.MulLeftLe(0.0, s, dx);
        assert run * dx == s * dx;
      } else {
        Sampling.MulLeftLe(0.0, s, -dx);
        assert run * dx == s * (-dx);
      }
    }
  }

  /** Every line shorter than `math.Pow(1, -10)`, which is 1, returns its start, whatever t is. */
  lemma ShortLineStaysAtStart(sqrt: real -> real, start: Position, end: Position, t: real)
    requires LineLength(sqrt, start, end) < 1.0
    ensures LinePositionAt(sqrt, start, end, t) == start
  {
    PowOfOne(-10);
  }

  /**
   * A vertical line of length at least 1 returns the x of its start and y = t,
   * or y = -t when the line points down: not an offset from the start's y.
   */
  lemma VerticalLinePosition(sqrt: real -> real, start: Position, end: Position, t: real)
    requires start.x == end.x && LineLength(sqrt, start, end) >= 1.0
    ensures LinePositionAt(sqrt, start, end, t) == Position(start.x, if end.y < start.y then -t else t)
  {
    PowOfOne(-10);
  }

  /**
   * So the point is off the line in general: on the line (3,5) to (3,10),
   * the point at distance 2 is (3,2), below the line's start.
   */
  lemma VerticalLineIgnoresStartY(sqrt: real -> real)
    requires IsSqrt(sqrt)
    ensures LinePositionAt(sqrt, Position(3.0, 5.0), Position(3.0, 10.0), 2.0) == Position(3.0, 2.0)
  {
    var s := LineLength(sqrt, Position(3.0, 5.0), Position(3.0, 10.0));
    assert s >= 0.0 && s * s == 25.0;
    if s < 1.0 {
      Sampling.MulLeftLe(s, 1.0, s);
      Sampling.MulLeftLe(s, 1.0, 1.0);
      assert false;
    }
    VerticalLinePosition(sqrt, Position(3.0, 5.0), Position(3.0, 10.0), 2.0);
  }

  /** A degenerate line (start == end) has length 0 and every position on it is the start. */
  lemma DegenerateLine(sqrt: real -> real, p: Position, t: real)
    requires IsSqrt(sqrt)
    ensures NewLine(sqrt, p, p).Length() == 0.0
    ensures LinePositionAt(sqrt, p, p, t) == p
  {
    DistanceProperties(sqrt, p, p);
    PowOfOne(-10);
  }

  /** `QuadraticBezier.PositionAt(t)`: the Bernstein form with weights (1-t)^2, 2t(1-t), t^2. */
  function QuadraticPoint(start: Position, b: Position, c: Position, t: real): Position
  {
    var qb1 := t * t;
    var qb2 := 2.0 * t * (1.0 - t);
    var qb3 := (1.0 - t) * (1.0 - t);
    Position(c.x * qb1 + b.x * qb2 + start.x * qb3,
             c.y * qb1 + b.y * qb2 + start.y * qb3)
  }

  /**
   * The quadratic runs from `start` (t = 0) to `c` (t = 1), yet its
   * `EndPosition` is the control point `b`.
   */
  lemma QuadraticEnds(start: Position, b: Position, c: Position, length: real)
    ensures QuadraticPoint(start, b, c, 0.0) == start
    ensures QuadraticPoint(start, b, c, 1.0) == c
    ensures QuadraticBezier(start, b, c, length).EndPosition() == Some(b)
  {
  }

  /** `CubicBezier.PositionAtT(t)`: the Bernstein form with weights (1-t)^3, 3t(1-t)^2, 3t^2(1-t), t^3. */
  function CubicPoint(start: Position, b: Position, c: Position, d: Position, t: real): Position
  {
    var cb1 := t * t * t;
    var cb2 := 3.0 * t * t * (1.0 - t);
    var cb3 := 3.0 * t * (1.0 - t) * (1.0 - t);
    var cb4 := (1.0 - t) * (1.0 - t) * (1.0 - t);
    Position(d.x * cb1 + c.x * cb2 + b.x * cb3 + start.x * cb4,
             d.y * cb1 + c.y * cb2 + b.y * cb3 + start.y * cb4)
  }

  lemma CubicEnds(start: Position, b: Position, c: Position, d: Position)
    ensures CubicPoint(start, b, c, d, 0.0) == start
    ensures CubicPoint(start, b, c, d, 1.0) == d
  {
  }

  /** The cubic as a function of t, as the sampling loop evaluates it. */
  function CubicCurve(start: Position, b: Position, c: Position, d: Position): real -> Position
  {
    t => CubicPoint(start, b, c, d, t)
  }

  /** The table `generateLookupTable` builds for a cubic. */
  function CubicTable(sqrt: real -> real, start: Position, b: Position, c: Position, d: Position): (table: Sampling.LookupTable)
    ensures |table.distValues| == |table.tValues| == CubicSamples + 1
  {
    Sampling.SampledTable(sqrt, start, CubicCurve(start, b, c, d), CubicSamples)
  }

  /** What `NewCubicBezier` builds: the table, and the length read off its last entry. */
  ghost predicate BuiltCubic(sqrt: real -> real, s: Segment)
  {
    s.CubicBezier? &&
    s.lookupTable == CubicTable(sqrt, s.start, s.b, s.c, s.d) &&
    s.length == s.lookupTable.distValues[CubicSamples]
  }

  /** `NewCubicBezier`: builds the lookup table, then sets the length to its last distance. */
  method NewCubicBezier(sqrt: real -> real, start: Position, b: Position, c: Position, d: Position)
    returns (bez: Segment)
    ensures bez.CubicBezier? && bez.start == start && bez.b == b && bez.c == c && bez.d == d
    ensures BuiltCubic(sqrt, bez)
  {
    var lookupTable := Sampling.GenerateLookupTable(sqrt, start, CubicCurve(start, b, c, d), CubicSamples);
    var length := lookupTable.distValues[|lookupTable.distValues| - 1];
    bez := CubicBezier(start, b, c, d, length, lookupTable);
  }

  /**
   * For a cubic built by `NewCubicBezier` the table is valid, the length is
   * non-negative, the whole length maps to t = 1 and so to the end point `d`,
   * distance 0 maps to the start point, and a longer distance never maps to
   * an earlier t.
   */
  lemma BuiltCubicEnds(sqrt: real -> real, s: Segment)
    requires IsSqrt(sqrt) && BuiltCubic(sqrt, s)
    ensures Sampling.Valid(s.lookupTable)
    ensures s.length >= 0.0
    ensures Sampling.ApproxT(s.lookupTable, s.length) == 1.0
    ensures SegmentPositionAt(sqrt, s, s.length) == Some(s.d)
    ensures SegmentPositionAt(sqrt, s, 0.0) == Some(s.start)
    ensures forall d1, d2 :: d1 <= d2 ==>
      Sampling.ApproxT(s.lookupTable, d1) <= Sampling.ApproxT(s.lookupTable, d2)
  {
    var curve := CubicCurve(s.start, s.b, s.c, s.d);
    CubicEnds(s.start, s.b, s.c, s.d);
    assert curve(0.0) == s.start;
    Sampling.SampledTableValid(sqrt, s.start, curve, CubicSamples);
    var ds := s.lookupTable.distValues;
    assert ds[0] <= ds[CubicSamples];
    Sampling.ApproxTEnds(s.lookupTable, s.length);
    Sampling.ApproxTAtZero(sqrt, s.start, curve, CubicSamples);
    forall d1, d2 | d1 <= d2
      ensures Sampling.ApproxT(s.lookupTable, d1) <= Sampling.ApproxT(s.lookupTable, d2)
    {
      Sampling.ApproxTMonotone(s.lookupTable, d1, d2);
    }
  }

  /**
   * `PositionAt` of each kind: the line walks a distance, the quadratic
   * takes its argument as the curve parameter t, and the cubic converts
   * the distance to t through its table.
   */
  function SegmentPositionAt(sqrt: real -> real, s: Segment, dist: real): Option<Position>
    requires WellFormed(s)
  {
    match s
    case Empty => None
    case Move => None
    case Line(start, end, _) => Some(LinePositionAt(sqrt, start, end, dist))
    case QuadraticBezier(start, b, c, _) => Some(QuadraticPoint(start, b, c, dist))
    case CubicBezier(start, b, c, d, _, table) => Some(CubicPoint(start, b, c, d, Sampling.ApproxT(table, dist)))
  }

  /** The segment's `PositionAt` as run: the cubic scans its table. */
  method PositionAt(sqrt: real -> real, s: Segment, dist: real) returns (p: Option<Position>)
    requires WellFormed(s)
    ensures p == SegmentPositionAt(sqrt, s, dist)
  {
    match s
    case CubicBezier(start, b, c, d, _, table) =>
      var t := Sampling.ApproximateT(table, dist);
      p := Some(CubicPoint(start, b, c, d, t));
    case _ =>
      p := SegmentPositionAt(sqrt, s, dist);
  }

  /** What `Path.GetPositionAtLength` returns. */
  function PositionAtLength(sqrt: real -> real, p: Path, l: real): Outcome<Option<Position>>
    requires forall i :: 0 <= i < |p.segments| ==> WellFormed(p.segments[i])
  {
    var segs := p.segments;
    if |segs| == 0 then Value(None)
    else if p.length <= l then Value(segs[|segs| - 1].EndPosition())
    else
      var (idx, residual) := Traversal.Locate(Lengths(segs), l);
      if idx >= |segs| then Panic("index out of range")
      else if residual < Epsilon then Value(segs[idx].StartPosition())
      else Value(SegmentPositionAt(sqrt, segs[idx], residual))
  }

  /** `Path.GetPositionAtLength`: the walk that subtracts segment lengths from l. */
  method GetPositionAtLength(sqrt: real -> real, p: Path, l: real) returns (r: Outcome<Option<Position>>)
    requires forall i :: 0 <= i < |p.segments| ==> WellFormed(p.segments[i])
    ensures r == PositionAtLength(sqrt, p, l)
  {
    var segs := p.segments;
    if |segs| == 0 {
      return Value(None);
    }
    if p.length <= l {
      return Value(segs[|segs| - 1].EndPosition());
    }
    ghost var ls := Lengths(segs);
    var rest := l;
    var reachedSegmentIdx := 0;
    var i := 0;
    while i < |segs|
      invariant 0 <= i <= |segs| && reachedSegmentIdx == i
      invariant Traversal.Locate(ls, l) == (i + Traversal.Locate(ls[i..], rest).0, Traversal.Locate(ls[i..], rest).1)
    {
      assert ls[i..][1..] == ls[i + 1..];
      if rest >= segs[i].Length() {
        rest := rest - segs[i].Length();
        reachedSegmentIdx := i + 1;
      } else {
        break;
      }
      i := i + 1;
    }
    if reachedSegmentIdx >= |segs| {
      return Panic("index out of range");
    }
    var s := segs[reachedSegmentIdx];
    if rest < Epsilon {
      return Value(s.StartPosition());
    }
    var pos := PositionAt(sqrt, s, rest);
    return Value(pos);
  }

  /** A path without segments has no position; at or past the stored length the last segment's end is returned. */
  lemma PositionAtLengthEnds(sqrt: real -> real, p: Path, l: real)
    requires forall i :: 0 <= i < |p.segments| ==> WellFormed(p.segments[i])
    ensures |p.segments| == 0 ==> PositionAtLength(sqrt, p, l) == Value(None)
    ensures |p.segments| > 0 && l >= p.length ==>
      PositionAtLength(sqrt, p, l) == Value(p.segments[|p.segments| - 1].EndPosition())
  {
  }

  /**
   * When the stored length is the sum of the segment lengths and
   * 0 <= l < length, the walk stops on a segment inside the path that has
   * positive length, so never on an `Empty` or `Move`; the residual lies in
   * [0, that length); and the query neither panics nor returns nil.
   */
  lemma PositionAtLengthOwner(sqrt: real -> real, p: Path, l: real)
    requires forall i :: 0 <= i < |p.segments| ==> WellFormed(p.segments[i])
    requires Consistent(p) && 0.0 <= l < p.length
    ensures var (idx, residual) := Traversal.Locate(Lengths(p.segments), l);
      idx < |p.segments| &&
      !p.segments[idx].Empty? && !p.segments[idx].Move? &&
      0.0 <= residual < p.segments[idx].Length() &&
      PositionAtLength(sqrt, p, l).Value? && PositionAtLength(sqrt, p, l).v.Some?
  {
    Traversal.LocateOwner(Lengths(p.segments), l);
  }

  /**
   * At l = 0 a consistent path of positive length answers the start point of
   * its first segment of positive length; the zero-length segments before it
   * are walked over.
   */
  lemma PositionAtLengthZero(sqrt: real -> real, p: Path)
    requires forall i :: 0 <= i < |p.segments| ==> WellFormed(p.segments[i])
    requires Consistent(p) && p.length > 0.0
    ensures exists idx :: (0 <= idx < |p.segments| &&
      p.segments[idx].Length() > 0.0 &&
      (forall j :: 0 <= j < idx ==> p.segments[j].Length() == 0.0) &&
      PositionAtLength(sqrt, p, 0.0) == Value(p.segments[idx].StartPosition()))
  {
    var ls := Lengths(p.segments);
    Traversal.LocateOwner(ls, 0.0);
    Traversal.LocateZero(ls);
    var idx := Traversal.Locate(ls, 0.0).0;
    assert forall j :: 0 <= j < idx ==> p.segments[j].Length() == ls[j];
    assert PositionAtLength(sqrt, p, 0.0) == Value(p.segments[idx].StartPosition());
  }
}
