# svgpath in Dafny

A model of the core of svgpath, a Go library that turns SVG path data into
segment records and answers "which point lies at arc length L along the
path". Three source files carry the logic, and they declare some of the same
names (`Segment`, `Line`, `CubicBezier`). Each file is therefore modelled in
its own module, with shared pieces factored out:

- `Geometry` (geometry.dfy): `Position`, Euclidean distance and line length,
  `Option` for Go's nil and `Outcome` for a run-time panic.
- `Traversal` (traversal.dfy): the walk both `GetPositionAtLength` functions
  perform over segment lengths, with the fact that it stops inside the list.
- `Sampling` (sampling.dfy): the lookup-table sampling loop and the
  `ApproximateT` scan that inverts it. path.go and bezier.go run the same
  code with 2000 and 500 steps.
- `Paths` (path.go): the `Segment` kinds, `Path.calculateLength`,
  `Path.GetPositionAtLength`, `Line.PositionAt`, the Bernstein forms and
  `NewCubicBezier`.
- `Bezier` (bezier.go): the older quadratic and cubic with t-based
  `PositionAt`, the 500-step table and a `NewCubicBezier` that sets the
  length apart from the table.
- `SvgParse` (svg.go): `ParseSegmentsFromSVG` as a state machine over
  (command letter, numbers) chunks. It also holds `calcLength` and
  `getLastCommand`, and the invariants the records it produces satisfy.
- `SvgText` (svg.go): the text side of `ParseSegmentsFromSVG`. Spaces become
  commas, a `|` goes before every command letter, the text is split at `|`,
  and every piece is scanned for numbers. The imperative method is proved
  equal to the chunk machine.
- `SvgLocate` (svg.go): `GetPositionAtLength` over segment records.

Arithmetic is on `real`. The square root is a parameter `sqrt`; lemmas that
depend on its behaviour require `IsSqrt(sqrt)`, meaning it is non-negative
and squares back to any non-negative argument. The arc-length functions
`calcLength` calls are defined in none of svg.go, path.go, bezier.go or
position.go, so they are parameters too (`Measures`). Number scanning (a
regular expression plus `strconv.ParseFloat`) is a `Scanner` parameter. The
point computations `GetPositionAtLength` in svg.go delegates to are defined in
none of those files either, so its
result names the call and its arguments (`Located`).

Behaviours reproduced as written, and proved:
- `Line.PositionAt` compares the length with `math.Pow(1, -10)`, which is 1
  (`Paths.PowOfOne`, `Paths.ShortLineStaysAtStart`).
- A vertical line yields y = ±t rather than start.y ± t
  (`Paths.VerticalLinePosition`, with the instance
  `Paths.VerticalLineIgnoresStartY`).
- The quadratic's `EndPosition` is its control point `b` (`Paths.QuadraticEnds`).
- A closepath does not move the current point back to the subpath start
  (`SvgParse.ClosepathKeepsPen`).
- Querying at or past the length of a path whose data ends in `z` panics
  (`SvgLocate.ClosedPathEndPanics`).
- `S`/`s` and other unknown letters drop their numbers and record one
  zero-length segment named after the letter, starting at the current point
  (`SvgParse.RepeatMovesPen`).
- `A` and `a` panic with "elliptical arc not implemented"
  (`SvgParse.ArcRepeatPanics`).
- Numbers left over that do not fill a repetition cause a slice-index panic
  (`SvgParse.RunRepeatsArity`).

## Model

| member | source | states |
|---|---|---|
| Geometry.DistanceProperties | position.go:14-18 | distance and line length are never negative, and are 0 from a point to itself |
| Geometry.DistanceZero | position.go:14-18 | distance 0 holds only between equal points |
| Geometry.LineLengthIsDistance | path.go:128-130 | `getLineLength` and `Position.Distance` agree on every pair of points |
| Traversal.SumSnoc | path.go:20-26 | adding one more length at the end adds it to the sum, which the accumulator loop relies on |
| Traversal.SumNonNegative | path.go:20-26 | non-negative lengths have a non-negative sum |
| Traversal.LocateConsumesPrefix | path.go:39-47 | the walk consumes exactly the lengths before the index it stops at; it stops past the end or where the residual is below that segment's length |
| Traversal.LocateOwner | path.go:39-49 | for non-negative lengths and 0 <= l < their sum, the walk stops inside the list on a segment of positive length with residual in [0, length) |
| Traversal.LocateZero | path.go:39-49 | from l = 0 the walk skips exactly the zero-length segments at the front and leaves residual 0 |
| Sampling.GenerateLookupTable | path.go:379-399 | the sampling loop builds exactly the table sampled at t = i/n for i = 0..n |
| Sampling.CumulativeDistsMonotone | path.go:383-393 | cumulative distances start non-negative and never decrease |
| Sampling.SampledTableValid | path.go:379-399 | the built table is valid: equal lengths, t rising strictly from 0 to exactly 1, distances non-decreasing, first distance 0 when the curve starts at `start` |
| Sampling.SampleTsRise | path.go:380-386 | the sample parameters start at 0, end at 1, stay in [0, 1] and rise strictly |
| Sampling.CumulativeDistsPrefix | path.go:385-393 | further iterations only append to the distances |
| Sampling.FirstAbove | path.go:348-349 | the index of the first entry that exceeds dist: all before it are at most dist |
| Sampling.FirstAboveIsFirst | path.go:348-349 | any index with that property is the first one above |
| Sampling.ApproximateT | path.go:347-361 | the scan with early return computes the interpolated parameter (0 at index 0, 1.0 when no entry exceeds dist) |
| Sampling.ApproxTEnds | path.go:347-361 | below the first entry the result is 0; at or past the last entry of a valid table it is 1 |
| Sampling.ApproxTBracket | path.go:353-356 | inside the table the distance is bracketed by entries idx-1 and idx, so the divisor is positive, and the result lies in [tValues[idx-1], tValues[idx]) |
| Sampling.ApproxTMonotone | path.go:347-361 | a longer distance never gives an earlier parameter |
| Sampling.ApproxTInUnitInterval | path.go:347-361 | on a valid table the result lies in [0, 1] |
| Sampling.ApproxTAtZero | path.go:347-399 | on a table sampled from a curve that begins at its start point, distance 0 maps to a parameter whose curve point is the start, also when the table opens with a run of zero distances |
| Sampling.ZeroDistanceStaysAtStart | path.go:379-399 | when the cumulative distance after k samples is 0, sample k - 1 lies on the start point |
| Sampling.InterpolationBounds | path.go:353-356 | linear interpolation between bracketing samples stays in [t0, t1) |
| Sampling.InterpolateMonotone | path.go:353-356 | the interpolation is monotone in the distance |
| Paths.CalculateLength | path.go:20-26 | the accumulator loop returns the sum of every segment's length, with `Empty` and `Move` contributing 0 |
| Paths.PowOfOne | path.go:136 | every power of 1 is 1, so the short-line threshold is 1 |
| Paths.NewLine | path.go:122-126 | the line keeps its end points and its length is their distance |
| Paths.LinePositionAlongLine | path.go:150-163 | on a non-vertical line of length at least 1, the point lies on the line, at distance \|t\| from the start, on the end's side |
| Paths.SlopeStep | path.go:150-163 | the step (run, m*run) is parallel to the line, has length \|t\| and follows the sign of end.x - start.x |
| Paths.ShortLineStaysAtStart | path.go:136-138 | every line shorter than 1 returns its start for every t |
| Paths.VerticalLinePosition | path.go:140-148 | every vertical line of length at least 1 returns (start.x, -t) when it points down and (start.x, t) otherwise, whatever start.y is |
| Paths.VerticalLineIgnoresStartY | path.go:140-148 | instance: the line (3, 5)-(3, 10) at t = 2 gives (3, 2), a point off the line |
| Paths.DegenerateLine | path.go:122-138 | a line from a point to itself has length 0 and every position on it is the start |
| Paths.QuadraticEnds | path.go:297-318 | the quadratic runs from start (t = 0) to c (t = 1), yet its `EndPosition` is b |
| Paths.CubicEnds | path.go:367-377 | the cubic runs from start (t = 0) to d (t = 1) |
| Paths.CubicTable | path.go:379-399 | the 2000-step table holds 2001 samples in each sequence |
| Paths.NewCubicBezier | path.go:340-345 | the table is the sampled table and the length is its last distance |
| Paths.BuiltCubicEnds | path.go:340-361 | for a cubic so built, the table is valid, the length is non-negative, the whole length maps to t = 1 and so to d, distance 0 maps to the start, and the mapping is monotone |
| Paths.PositionAt | path.go:363-365 | a segment's `PositionAt`: the cubic converts the distance to t through its table and evaluates the Bernstein form |
| Paths.GetPositionAtLength | path.go:28-57 | the walk returns nil for no segments, the last end at or past the length, a panic past the end, the owning start for a residual below 0.01 and otherwise that segment's `PositionAt` |
| Paths.PositionAtLengthEnds | path.go:30-37 | no segments give nil; l >= length gives the last segment's `EndPosition` |
| Paths.PositionAtLengthOwner | path.go:39-55 | on a consistent path with 0 <= l < length the owner is in bounds, not `Empty` or `Move`, the residual lies in [0, its length), and the query neither panics nor returns nil |
| Paths.PositionAtLengthZero | path.go:39-53 | at l = 0 the answer is the start of the first segment of positive length |
| Bezier.QuadraticBezier.PositionAt | bezier.go:141-150 | the quadratic is at start for t = 0 and at c for t = 1 |
| Bezier.CubicBezier.PositionAt | bezier.go:191-201 | the cubic takes t directly and is at start for t = 0 and at d for t = 1 |
| Bezier.Table | bezier.go:203-223 | the 500-step table holds 501 samples in each sequence |
| Bezier.TableShape | bezier.go:203-223 | the table is valid, its last t is 1 and its first distance 0 |
| Bezier.NewCubicBezier | bezier.go:168-173 | the length is `DistanceAt(1.0)`, set independently of the table, which is the 500-step sampled table |
| Bezier.ApproximateT | bezier.go:175-189 | the same scan as path.go's; on a built table the result lies in [0, 1], is 0 for a negative distance and 1 from the last distance on |
| SvgParse.CalcLength | svg.go:232-257 | panics exactly when L, C or Q has too few points; a line's length is the distance; letters other than L, C, Q and A give 0 |
| SvgParse.Switch | svg.go:65-183 | every case of the command switch that does not panic consumes numbers (the record each case produces is stated by `SvgParse.AbsoluteRecords`, `SvgParse.RelativeIsShiftedAbsolute`, `SvgParse.SmoothQuadraticRecords` and `SvgParse.RepeatMovesPen`, and the arc panic by `SvgParse.ArcRepeatPanics`) |
| SvgParse.AbsoluteRecords | svg.go:72-206 | for L, M, H, V, C and Q with enough numbers, one repetition records exactly one segment that starts at the current point, holds the command's points ((x, cp.y) for H, (cp.x, y) for V, the consumed numbers otherwise), is named "M" for a moveto and after the letter otherwise, has `calcLength`'s length, and leaves the current point at its last two numbers and the rest of the numbers unconsumed |
| SvgParse.AbsolutePointRecords | svg.go:71-206 | L and M with two numbers record one segment from the current point to (x, y), named "M" for a moveto and "L" otherwise, with `calcLength`'s length, and move the current point to (x, y) |
| SvgParse.AbsoluteAxisRecords | svg.go:95-206 | H records a line to (x, cp.y) and V a line to (cp.x, y), each with `calcLength`'s length; the end becomes the current point and one number is consumed |
| SvgParse.Repeat | svg.go:59-207 | one repetition consumes numbers, so the `for len(coords) > 0` loop ends |
| SvgParse.AppendRecord | svg.go:190-206 | appending a well-shaped record that starts at the current point keeps the list produced and moves the current point to its last two numbers |
| SvgParse.SwitchSound | svg.go:65-183 | every case of the command switch yields a well-shaped record starting at the current point |
| SvgParse.RepeatKeepsProduced | svg.go:59-207 | one repetition keeps the records produced, with the current point equal to the last two numbers of the last record that has numbers |
| SvgParse.RunRepeatsKeepsProduced | svg.go:59-208 | the repetitions of a chunk keep that invariant |
| SvgParse.RunChunksKeepsProduced | svg.go:38-215 | the chunk loop keeps that invariant |
| SvgParse.ParseProduced | svg.go:18-218 | every record list the parser returns is produced: each record starts at the current point before it, and the shapes and lengths are per command |
| SvgParse.RepeatArity | svg.go:59-136 | a repetition panics exactly when fewer numbers than the arity (2, 1, 6, 4) remain; otherwise it consumes that many, records one segment and turns M into L and m into l |
| SvgParse.RunRepeatsArity | svg.go:59-208 | a chunk panics exactly when its count of numbers is not a multiple of the arity; otherwise it records count/arity segments, the first an M for a moveto and the rest with the recorded letter |
| SvgParse.ArityValues | svg.go:59-136 | arities are 1, 2, 4 or 6, and the letter after a repetition has the same arity and recorded command |
| SvgParse.RepeatMovesPen | svg.go:91-206 | H and h keep y; V and v keep x; letters without arity keep the current point and drop their numbers, and record exactly the segment named after the letter, starting at the current point, with no points and length 0, preceded for z and Z by the bare closepath marker |
| SvgParse.ArcRepeatPanics | svg.go:171-172 | a repetition of A or a panics with "elliptical arc not implemented" |
| SvgParse.SwitchRelativePoint | svg.go:66-170 | relative l, m and t are their absolute versions on numbers offset by the current point |
| SvgParse.SwitchRelativeAxis | svg.go:91-110 | relative h and v are H and V on offset numbers |
| SvgParse.SwitchRelativeCurve | svg.go:111-136 | relative c and q, control points included, are C and Q on numbers offset by the current point before the repetition |
| SvgParse.RelativeIsShiftedAbsolute | svg.go:66-170 | every relative command gives the same records, current point and leftover numbers as its absolute version on offset numbers |
| SvgParse.SmoothQuadraticReflects | svg.go:137-170 | T and t record a "Q" whose control point reflects the previous quadratic's control point about the current point, its end; otherwise the control point is the current point |
| SvgParse.SmoothQuadraticRecords | svg.go:137-170 | with at least two numbers and a usable previous record, T and t record exactly one quadratic that starts at the current point, has the reflected control point and ends at the first two numbers (offset by the current point for t), whose length is the quadratic arc length; that end becomes the current point and the two numbers are consumed |
| SvgParse.ReflectedControlTangent | svg.go:139-148 | after a quadratic the reflected point is 2·current − previous control, with the current point at that quadratic's end; after anything else it is the current point |
| SvgParse.ExampleOpening | svg.go:84-129 | "M 0 0 Q 5 -10 10 0" records a move and a quadratic ending at (10, 0) |
| SvgParse.SmoothStepAfterQuadratic | svg.go:137-153 | for any record list ending in a quadratic with control point ctrl, any current point and any numbers (x, y, ...), one T step records the control point reflected through the current point and the end (x, y), and moves the current point there |
| SvgParse.ExampleSmoothRun | svg.go:137-153 | the chunk "T 20 0 30 0" after that quadratic records two reflected quadratics and ends at (30, 0) |
| SvgParse.SmoothQuadraticExample | svg.go:137-170 | chained smooth quadratics keep reflecting: (5,-10) about (10,0) to (15,10), then about (20,0) to (25,-10) |
| SvgParse.ClosepathKeepsPen | svg.go:210-214 | a closepath chunk without numbers only appends the bare marker and leaves the current point unchanged |
| SvgText.ReplaceAllAppend | svg.go:24-29 | replacing distributes over concatenation |
| SvgText.ReplaceAllRemoves | svg.go:24 | no space is left once spaces become commas, and text without the pattern is unchanged |
| SvgText.MarkOneMore | svg.go:26-29 | one more `ReplaceAll` over a new letter equals marking all letters in one pass |
| SvgText.MarkedNothing | svg.go:26-29 | marking no letters leaves the text unchanged |
| SvgText.ValidCommandsDistinct | svg.go:15-16 | the command letters are distinct and none is the separator |
| SvgText.SplitJoin | svg.go:32 | joining the pieces with `\|` gives the text back, and no piece contains `\|` |
| SvgText.PiecesStartWithCommands | svg.go:26-43 | every piece after the first starts with a command letter; the first holds none |
| SvgText.UnmarkMarked | svg.go:26-29 | removing the inserted `\|` gives the text back |
| SvgText.UnmarkedAppend | svg.go:26-29 | removing `\|` distributes over concatenation |
| SvgText.MarkCommands | svg.go:26-29 | the letter-by-letter `ReplaceAll` loop marks every command letter once |
| SvgText.ScanCoordinates | svg.go:47-57 | the number loop gives the scanned numbers, 0 for each that fails to parse |
| SvgText.RepeatCommand | svg.go:59-208 | the `for len(coords) > 0` loop computes the chunk's repetitions, stopping at the first panic |
| SvgText.ChunksFrom | svg.go:38-47 | an empty piece is skipped; a non-empty one gives a chunk of its first character and the numbers in the rest |
| SvgText.RunChunksCons | svg.go:38-215 | a chunk's panic ends the parse; otherwise the parse goes on from the state it leaves |
| SvgText.ParseSegmentsFromSVG | svg.go:18-218 | empty data gives no records; otherwise the result is the chunk machine run over the split text, and its records are produced |
| SvgLocate.GetPositionAtLength | svg.go:272-361 | the walk gives the error for no records, the last two numbers at or past the length, a panic past the end, the start for a residual below 0.01, and otherwise the call for the record's command or the "no case match" error |
| SvgLocate.PositionAtLengthEnds | svg.go:274-285 | no records give the error; at or past the length the last record's last two numbers, with a panic exactly when it has fewer than two |
| SvgLocate.PositionAtLengthOwner | svg.go:287-359 | with consistent lengths and 0 <= l < pathLength the owner is in bounds with positive length and residual in [0, length); a small residual gives the start; other letters give "no case match" |
| SvgLocate.ParsedPathQueryAnswers | svg.go:272-361 | on parsed records with consistent lengths a query inside the path never panics and never fails |
| SvgLocate.ClosepathLetterKept | svg.go:173-183 | the repetitions of a closepath letter keep it as the letter |
| SvgLocate.ClosedParseEndsWithMarker | svg.go:210-214 | a parse whose last chunk is a closepath ends with the bare marker |
| SvgLocate.ClosedPathEndPanics | svg.go:278-285 | querying at or past the length of a path whose data ends in z panics on the marker's missing points |

## Left out

- `QuadraticBezier.DistanceAt` (path.go:261-295, bezier.go:105-139) is closed-form square-root and logarithm arithmetic, so `NewQuadraticBezier` in both files is not modelled. Its square roots are also discarded, leaving `uuk` and `bbk` at 0.
- `Position.String`, `Path.String` and every other `String` method are formatting.
- Elliptical arcs are left out: `getPointOnEllipticalArc`, `convertEndpointToCenterParameterization` and path.go's `EllipticalArc` are trigonometry or placeholders. The parser's `A`/`a` panic is modelled (`SvgParse.ArcRepeatPanics`), and the svg.go query on an "A" record names the call (`OnArc`) with the angle it computes.
- The number regular expression and `strconv.ParseFloat` are the `Scanner` parameter. Only the rule that a failed parse contributes 0 is kept.
- `getCubicArcLength`, `getQuadraticArcLength` and `getEllipticalArcLength` are the `Measures` parameter. `getPointOnLine`, `getPointOnCubicBezier`, `getPointOnQuadraticBezier`, `generateCubicBezierLookupTable`, `GetClosestT` and `PathFromSVG` are not part of this model: the query names the call instead. The svg.go record's `CubicBezierLookupTable` field is therefore not represented.
- bezier.go's `Line.PositionAt` (bezier.go:24-76) refers to names it does not declare, so it has no model.
- The tests (svg_test.go, path_test.go) check float outputs of `PathFromSVG`, which is not part of this model.
- Floating point is not modelled: arithmetic is exact on `real`. The sampling loops use an integer counter with t = i/n, so they take exactly n + 1 samples; Go's accumulated `t += step` may differ in the last sample. The table's accuracy against the true arc length is not stated.
- Paths.LinePositionAt: the projection code after path.go:158 is unreachable, because the test there is identically 0, so it has no model.
- Go pointers and in-place field updates are modelled as values. Constructors return a new datatype value, and nil versus an empty slice is not distinguished (`Points: nil` is `[]`).
- Text is a sequence of characters, not bytes. `segmentStr[:1]` is the first character.
- Bezier.ApproximateT and Bezier.CubicBezier.PositionAt reuse the shared definitions in `Sampling` and `Paths`, because the Go code is the same; their contracts are stated for bezier.go's 500-step table.
- Paths.PositionAt: a quadratic segment's `PositionAt` takes the residual distance as its curve parameter t, as the source does. Nothing is proved about whether that point is at that distance.
