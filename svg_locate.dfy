/**
 * `GetPositionAtLength` of svg.go: the point at arc length `l` along a list
 * of segment records whose total length is given as `pathLength`.
 *
 * The point itself is computed by functions this model does not include
 * (`getPointOnLine`, `getPointOnCubicBezier` with the closest t from the
 * record's lookup table, `getPointOnQuadraticBezier`,
 * `getPointOnEllipticalArc`), so the result names the function the query is
 * delegated to and the arguments it is given.
 */
module SvgLocate {
  import opened Geometry
  import opened Traversal
  import opened SvgParse

  const NoSegmentsError := "Cannot calculate position on path with no segments"
  const NilPanic := "invalid memory address or nil pointer dereference"

  /** Residuals below this return the start of the owning record. */
  const SmallResidual := 0.01

  /** The error returned for a record whose command has no case. */
  function NoCaseMatch(command: string): string
  {
    "no case match for command " + command + " when calculating point on path"
  }

  /** What the query returns: a point, the call that computes it, or an error. */
  datatype Located =
    | At(p: Position)
    | OnLine(dist: real, start: Option<Position>, end: Position)
    | OnCubic(dist: real, start: Option<Position>, b: Position, c: Position, d: Position)
    | OnQuadratic(dist: real, start: Option<Position>, b: Position, c: Position)
    | OnArc(center: Position, radii: Position, theta: real, psi: real)
    | Failed(message: string)

  function Lengths(segs: seq<Segment>): (ls: seq<real>)
  {
    seq(|segs|, i requires 0 <= i < |segs| => segs[i].length)
  }

  /**
   * The query on the record the walk stopped at, with residual `l`: a small
   * residual returns the record's start (a nil start panics); otherwise the
   * command picks the call, reading the points it needs.
   */
  function OnSegment(s: Segment, l: real): Outcome<Located>
    requires l < SmallResidual || l < s.length
  {
    if l < SmallResidual then
      if s.start.None? then Panic(NilPanic) else Value(At(s.start.value))
    else if s.command == "L" then
      if |s.points| < 2 then Panic(IndexPanic)
      else Value(OnLine(l, s.start, Position(s.points[0], s.points[1])))
    else if s.command == "C" then
      if |s.points| < 6 then Panic(IndexPanic)
      else Value(OnCubic(l, s.start, Position(s.points[0], s.points[1]), Position(s.points[2], s.points[3]),
                         Position(s.points[4], s.points[5])))
    else if s.command == "Q" then
      if |s.points| < 4 then Panic(IndexPanic)
      else Value(OnQuadratic(l, s.start, Position(s.points[0], s.points[1]), Position(s.points[2], s.points[3])))
    else if s.command == "A" then
      if |s.points| < 7 then Panic(IndexPanic)
      else Value(OnArc(Position(s.points[0], s.points[1]), Position(s.points[2], s.points[3]),
                       s.points[4] + (s.points[5] * l) / s.length, s.points[6]))
    else
      Value(Failed(NoCaseMatch(s.command)))
  }

  /**
   * The answer of `GetPositionAtLength`: an error without records; at or
   * past `pathLength` the last two numbers of the last record; otherwise the
   * query on the record the walk stops at, which panics when the walk runs
   * off the end.
   */
  function PositionAtLength(l: real, pathLength: real, segs: seq<Segment>): Outcome<Located>
  {
    if |segs| == 0 then Value(Failed(NoSegmentsError))
    else if pathLength <= l then
      var pts := segs[|segs| - 1].points;
      if |pts| < 2 then Panic(IndexPanic) else Value(At(Position(pts[|pts| - 2], pts[|pts| - 1])))
    else
      var (idx, rest) := Locate(Lengths(segs), l);
      if idx >= |segs| then Panic(IndexPanic)
      else
        LocateConsumesPrefix(Lengths(segs), l);
        OnSegment(segs[idx], rest)
  }

  /** `GetPositionAtLength`: the walk that subtracts each record's length while the rest is at least that long. */
  method GetPositionAtLength(l: real, pathLength: real, segs: seq<Segment>) returns (r: Outcome<Located>)
    ensures r == PositionAtLength(l, pathLength, segs)
  {
    if |segs| == 0 {
      return Value(Failed(NoSegmentsError));
    }
    if pathLength <= l {
      var pts := segs[|segs| - 1].points;
      if |pts| < 2 {
        return Panic(IndexPanic);
      }
      return Value(At(Position(pts[|pts| - 2], pts[|pts| - 1])));
    }
    ghost var ls := Lengths(segs);
    var rest := l;
    var reachedSegmentIdx := 0;
    var i := 0;
    while i < |segs|
      invariant 0 <= i <= |segs| && reachedSegmentIdx == i
      invariant Locate(ls, l) == (i + Locate(ls[i..], rest).0, Locate(ls[i..], rest).1)
    {
      assert ls[i..][1..] == ls[i + 1..];
      if rest >= segs[i].length {
        rest := rest - segs[i].length;
        reachedSegmentIdx := i + 1;
      } else {
        break;
      }
      i := i + 1;
    }
    if reachedSegmentIdx >= |segs| {
      return Panic(IndexPanic);
    }
    LocateConsumesPrefix(ls, l);
    r := OnSegment(segs[reachedSegmentIdx], rest);
  }

  /**
   * Without records the query is an error; at or past `pathLength` it is the
   * last two numbers of the last record, and it panics when that record has
   * fewer than two.
   */
  lemma PositionAtLengthEnds(l: real, pathLength: real, segs: seq<Segment>)
    ensures |segs| == 0 ==> PositionAtLength(l, pathLength, segs) == Value(Failed(NoSegmentsError))
    ensures |segs| > 0 && pathLength <= l ==>
              var pts := segs[|segs| - 1].points;
              (PositionAtLength(l, pathLength, segs).Panic? <==> |pts| < 2) &&
              (|pts| >= 2 ==> PositionAtLength(l, pathLength, segs) == Value(At(Position(pts[|pts| - 2], pts[|pts| - 1]))))
  {
  }

  /**
   * When `pathLength` is the sum of the record lengths, none negative, and
   * 0 <= l < pathLength: the walk stops inside the list on a record of
   * positive length with the residual in [0, that length); a residual below
   * 0.01 returns the record's start; and a record whose command is not L, C,
   * Q or A gives the "no case match" error.
   */
  lemma PositionAtLengthOwner(l: real, pathLength: real, segs: seq<Segment>)
    requires NonNegative(Lengths(segs)) && pathLength == Sum(Lengths(segs))
    requires 0.0 <= l < pathLength
    ensures var (idx, rest) := Locate(Lengths(segs), l);
            && idx < |segs|
            && segs[idx].length > 0.0
            && 0.0 <= rest < segs[idx].length
            && (rest < SmallResidual && segs[idx].start.Some? ==>
                  PositionAtLength(l, pathLength, segs) == Value(At(segs[idx].start.value)))
            && (rest >= SmallResidual && segs[idx].command !in {"L", "C", "Q", "A"} ==>
                  PositionAtLength(l, pathLength, segs) == Value(Failed(NoCaseMatch(segs[idx].command))))
  {
    LocateOwner(Lengths(segs), l);
  }

  /**
   * On records the parser produced, with `pathLength` the sum of their
   * lengths, none negative, a query at 0 <= l < pathLength never panics and
   * never fails: the owning record has positive length, so it is a line,
   * cubic or quadratic with a start and all its points, never a move or a
   * closepath marker.
   */
  lemma ParsedPathQueryAnswers(m: Measures, chunks: seq<Chunk>, l: real, pathLength: real)
    requires Parse(m, chunks).Value?
    requires NonNegative(Lengths(Parse(m, chunks).v)) && pathLength == Sum(Lengths(Parse(m, chunks).v))
    requires 0.0 <= l < pathLength
    ensures PositionAtLength(l, pathLength, Parse(m, chunks).v).Value?
    ensures !PositionAtLength(l, pathLength, Parse(m, chunks).v).v.Failed?
  {
    var segs := Parse(m, chunks).v;
    ParseProduced(m, chunks);
    PositionAtLengthOwner(l, pathLength, segs);
    var idx := Locate(Lengths(segs), l).0;
    assert Shaped(segs[idx]);
  }

  /** The repetitions of a closepath letter keep it as the command letter. */
  lemma ClosepathLetterKept(m: Measures, segs: seq<Segment>, cp: Position, c: char, coords: seq<real>)
    requires c == 'z' || c == 'Z'
    requires RunRepeats(m, segs, cp, c, coords).Value?
    ensures RunRepeats(m, segs, cp, c, coords).v.cmdChar == c
  {
    if |coords| > 0 {
      var st := Repeat(m, segs, cp, c, coords).v;
      assert st.coords == [] && st.cmdChar == c;
      assert RunRepeats(m, segs + st.emitted, st.cp, st.cmdChar, st.coords).v.cmdChar == c;
    }
  }

  /** A parse whose last chunk is a closepath ends with the bare marker. */
  lemma ClosedParseEndsWithMarker(m: Measures, chunks: seq<Chunk>, segs: seq<Segment>, cp: Position)
    requires chunks != [] && chunks[|chunks| - 1].command in "zZ"
    requires RunChunks(m, chunks, segs, cp).Value?
    ensures var out := RunChunks(m, chunks, segs, cp).v; out != [] && out[|out| - 1] == CloseMarker
  {
    ClosedRunEndsWithMarker(m, chunks, |chunks| - 1, segs, cp);
  }

  /** The same, by induction over the number of chunks before the closing one. */
  lemma {:induction false} ClosedRunEndsWithMarker(m: Measures, chunks: seq<Chunk>, n: nat, segs: seq<Segment>, cp: Position)
    requires |chunks| == n + 1
    requires chunks[n].command == 'z' || chunks[n].command == 'Z'
    requires RunChunks(m, chunks, segs, cp).Value?
    ensures var out := RunChunks(m, chunks, segs, cp).v; out != [] && out[|out| - 1] == CloseMarker
    decreases n, 1
  {
    if n == 0 {
      ClosedLastChunk(m, chunks, segs, cp);
    } else {
      ClosedRunStep(m, chunks, n, segs, cp);
    }
  }

  /** The inductive step: the first chunk runs, and the rest of the parse ends with the marker. */
  lemma {:induction false} ClosedRunStep(m: Measures, chunks: seq<Chunk>, n: nat, segs: seq<Segment>, cp: Position)
    requires |chunks| == n + 1 && n > 0
    requires chunks[n].command == 'z' || chunks[n].command == 'Z'
    requires RunChunks(m, chunks, segs, cp).Value?
    ensures var out := RunChunks(m, chunks, segs, cp).v; out != [] && out[|out| - 1] == CloseMarker
    decreases n, 0
  {
    var st := FirstChunkStep(m, chunks, segs, cp);
    assert chunks[1..][n - 1] == chunks[n];
    ClosedRunEndsWithMarker(m, chunks[1..], n - 1, AfterChunk(st), st.cp);
    EndsWithMarkerStep(m, chunks, segs, cp, st);
  }

  /** A parse ends with the marker when the parse after its first chunk does. */
  lemma EndsWithMarkerStep(m: Measures, chunks: seq<Chunk>, segs: seq<Segment>, cp: Position, st: State)
    requires chunks != [] && RunRepeats(m, segs, cp, chunks[0].command, chunks[0].coords) == Value(st)
    requires var rest := RunChunks(m, chunks[1..], AfterChunk(st), st.cp);
             rest.Value? && rest.v != [] && rest.v[|rest.v| - 1] == CloseMarker
    ensures var out := RunChunks(m, chunks, segs, cp); out.Value? && out.v != [] && out.v[|out.v| - 1] == CloseMarker
  {
  }

  lemma ClosedLastChunk(m: Measures, chunks: seq<Chunk>, segs: seq<Segment>, cp: Position)
    requires |chunks| == 1 && (chunks[0].command == 'z' || chunks[0].command == 'Z')
    requires RunChunks(m, chunks, segs, cp).Value?
    ensures var out := RunChunks(m, chunks, segs, cp).v; out != [] && out[|out| - 1] == CloseMarker
  {
    var st := FirstChunkStep(m, chunks, segs, cp);
    ClosedChunkAppendsMarker(m, segs, cp, chunks[0].command, chunks[0].coords);
    assert chunks[1..] == [];
  }

  /** After a closepath chunk the records end with the bare marker. */
  lemma ClosedChunkAppendsMarker(m: Measures, segs: seq<Segment>, cp: Position, c: char, coords: seq<real>)
    requires c == 'z' || c == 'Z'
    requires RunRepeats(m, segs, cp, c, coords).Value?
    ensures var out := AfterChunk(RunRepeats(m, segs, cp, c, coords).v); out != [] && out[|out| - 1] == CloseMarker
  {
    ClosepathLetterKept(m, segs, cp, c, coords);
  }

  /** A parse that succeeds runs its first chunk without a panic and goes on from the state that chunk leaves. */
  lemma FirstChunkStep(m: Measures, chunks: seq<Chunk>, segs: seq<Segment>, cp: Position) returns (st: State)
    requires chunks != [] && RunChunks(m, chunks, segs, cp).Value?
    ensures RunRepeats(m, segs, cp, chunks[0].command, chunks[0].coords) == Value(st)
    ensures RunChunks(m, chunks, segs, cp) == RunChunks(m, chunks[1..], AfterChunk(st), st.cp)
  {
    st := RunRepeats(m, segs, cp, chunks[0].command, chunks[0].coords).v;
  }

  /**
   * A path whose data ends in a closepath cannot be queried at or past its
   * length: the last record is the bare marker, which has no points, and
   * reading its last two panics.
   */
  lemma ClosedPathEndPanics(m: Measures, chunks: seq<Chunk>, l: real, pathLength: real)
    requires chunks != [] && chunks[|chunks| - 1].command in "zZ"
    requires Parse(m, chunks).Value?
    requires pathLength <= l
    ensures PositionAtLength(l, pathLength, Parse(m, chunks).v) == Panic(IndexPanic)
  {
    ClosedParseEndsWithMarker(m, chunks, [], Origin);
  }
}
