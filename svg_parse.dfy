/**
 * The segment records of svg.go and the state machine at the heart of
 * `ParseSegmentsFromSVG`, over chunks already split off the path data: a
 * command letter and the numbers that follow it.
 *
 * The parser keeps a current point, starting at (0, 0). For every chunk it
 * repeats the chunk's command while numbers remain, each repetition
 * consuming as many numbers as the command takes and recording one segment
 * that starts at the current point.
 */
module SvgParse {
  import opened Geometry

  /**
   * A segment record: the command it was recorded as, its control and end
   * points flattened to x, y pairs, its start (absent on the bare closepath
   * marker) and its length.
   */
  datatype Segment = Segment(command: string, points: seq<real>, start: Option<Position>, length: real)

  /** One piece of path data: its command letter and the numbers after it. */
  datatype Chunk = Chunk(command: char, coords: seq<real>)

  /** The length functions `calcLength` calls whose definitions are not part of this model. */
  datatype Measures = Measures(
    sqrt: real -> real,
    cubicArcLength: (seq<real>, seq<real>, real) -> real,
    quadraticArcLength: (seq<real>, seq<real>, real) -> real,
    ellipticalArcLength: seq<real> -> real)

  const IndexPanic := "index out of range"
  const ArcPanic := "elliptical arc not implemented"
  const Origin := Position(0.0, 0.0)

  /** The bare record `{Command: "z"}` a closepath appends. */
  const CloseMarker := Segment("z", [], None, 0.0)

  /**
   * `calcLength`: the length of a line, cubic, quadratic or arc by its
   * command; any other command has length 0. Reading too few points panics.
   */
  function CalcLength(m: Measures, start: Position, cmd: string, points: seq<real>): (r: Outcome<real>)
    ensures r.Panic? <==> (cmd == "L" && |points| < 2) || (cmd == "C" && |points| < 6) || (cmd == "Q" && |points| < 4)
    ensures cmd != "L" && cmd != "C" && cmd != "Q" && cmd != "A" ==> r == Value(0.0)
    ensures cmd == "L" && |points| >= 2 ==> r == Value(Distance(m.sqrt, start, Position(points[0], points[1])))
  {
    if cmd == "L" then
      if |points| < 2 then Panic(IndexPanic)
      else
        var end := Position(points[0], points[1]);
        LineLengthIsDistance(m.sqrt, start, end);
        Value(LineLength(m.sqrt, start, end))
    else if cmd == "C" then
      if |points| < 6 then Panic(IndexPanic)
      else Value(m.cubicArcLength([start.x, points[0], points[2], points[4]],
                                  [start.y, points[1], points[3], points[5]], 1.0))
    else if cmd == "Q" then
      if |points| < 4 then Panic(IndexPanic)
      else Value(m.quadraticArcLength([start.x, points[0], points[2]],
                                      [start.y, points[1], points[3]], 1.0))
    else if cmd == "A" then
      Value(m.ellipticalArcLength(points))
    else
      Value(0.0)
  }

  /** `getLastCommand`: the command of the last segment recorded so far, "" before the first. */
  function GetLastCommand(segs: seq<Segment>): string
  {
    if |segs| == 0 then "" else segs[|segs| - 1].command
  }

  /**
   * What the `switch cmdChar` of one repetition decides: the record's
   * points, the new current point, the command name it sets (empty when it
   * sets none), the command letter for the next repetition, the numbers not
   * yet consumed and any records it appends itself.
   */
  datatype Decision = Decision(points: seq<real>, cp: Position, cmd: string, cmdChar: char,
                               coords: seq<real>, before: seq<Segment>)

  /**
   * The first control point of a smooth quadratic: the reflection of the
   * previous record's first point about the current point when that record
   * is a quadratic, the current point otherwise.
   */
  function ReflectedControl(segs: seq<Segment>, cp: Position): Outcome<Position>
  {
    if GetLastCommand(segs) == "Q" then
      var last := segs[|segs| - 1].points;
      if |last| < 2 then Panic(IndexPanic)
      else Value(Position(2.0 * cp.x - last[0], 2.0 * cp.y - last[1]))
    else
      Value(cp)
  }

  /** The `switch cmdChar` of one pass of the `for len(coords) > 0` loop. */
  function Switch(segs: seq<Segment>, cp: Position, cmdChar: char, coords: seq<real>): (r: Outcome<Decision>)
    requires |coords| > 0
    ensures r.Value? ==> |r.v.coords| < |coords|
  {
    match cmdChar
    case 'l' =>
      if |coords| < 2 then Panic(IndexPanic)
      else
        var p := Position(cp.x + coords[0], cp.y + coords[1]);
        Value(Decision([p.x, p.y], p, "L", 'l', coords[2..], []))
    case 'L' =>
      if |coords| < 2 then Panic(IndexPanic)
      else
        var p := Position(coords[0], coords[1]);
        Value(Decision([p.x, p.y], p, "", 'L', coords[2..], []))
    case 'm' =>
      if |coords| < 2 then Panic(IndexPanic)
      else
        var p := Position(cp.x + coords[0], cp.y + coords[1]);
        Value(Decision([p.x, p.y], p, "M", 'l', coords[2..], []))
    case 'M' =>
      if |coords| < 2 then Panic(IndexPanic)
      else
        var p := Position(coords[0], coords[1]);
        Value(Decision([p.x, p.y], p, "M", 'L', coords[2..], []))
    case 'h' =>
      var p := Position(cp.x + coords[0], cp.y);
      Value(Decision([p.x, p.y], p, "L", 'h', coords[1..], []))
    case 'H' =>
      var p := Position(coords[0], cp.y);
      Value(Decision([p.x, p.y], p, "L", 'H', coords[1..], []))
    case 'v' =>
      var p := Position(cp.x, cp.y + coords[0]);
      Value(Decision([p.x, p.y], p, "L", 'v', coords[1..], []))
    case 'V' =>
      var p := Position(cp.x, coords[0]);
      Value(Decision([p.x, p.y], p, "L", 'V', coords[1..], []))
    case 'C' =>
      if |coords| < 6 then Panic(IndexPanic)
      else
        var p := Position(coords[4], coords[5]);
        Value(Decision([coords[0], coords[1], coords[2], coords[3], p.x, p.y], p, "", 'C', coords[6..], []))
    case 'c' =>
      if |coords| < 6 then Panic(IndexPanic)
      else
        var p := Position(cp.x + coords[4], cp.y + coords[5]);
        Value(Decision([cp.x + coords[0], cp.y + coords[1], cp.x + coords[2], cp.y + coords[3], p.x, p.y],
                   p, "C", 'c', coords[6..], []))
    case 'Q' =>
      if |coords| < 4 then Panic(IndexPanic)
      else
        var p := Position(coords[2], coords[3]);
        Value(Decision([coords[0], coords[1], p.x, p.y], p, "", 'Q', coords[4..], []))
    case 'q' =>
      if |coords| < 4 then Panic(IndexPanic)
      else
        var p := Position(cp.x + coords[2], cp.y + coords[3]);
        Value(Decision([cp.x + coords[0], cp.y + coords[1], p.x, p.y], p, "Q", 'q', coords[4..], []))
    case 'T' =>
      (match ReflectedControl(segs, cp)
       case Panic(reason) => Panic(reason)
       case Value(ctrl) =>
         if |coords| < 2 then Panic(IndexPanic)
         else
           var p := Position(coords[0], coords[1]);
           Value(Decision([ctrl.x, ctrl.y, p.x, p.y], p, "Q", 'T', coords[2..], [])))
    case 't' =>
      (match ReflectedControl(segs, cp)
       case Panic(reason) => Panic(reason)
       case Value(ctrl) =>
         if |coords| < 2 then Panic(IndexPanic)
         else
           var p := Position(cp.x + coords[0], cp.y + coords[1]);
           Value(Decision([ctrl.x, ctrl.y, p.x, p.y], p, "Q", 't', coords[2..], [])))
    case 'A' | 'a' =>
      Panic(ArcPanic)
    case 'z' | 'Z' =>
      Value(Decision([], cp, "", cmdChar, [], [CloseMarker]))
    case _ =>
      Value(Decision([], cp, "", cmdChar, [], []))
  }

  /** The name a move records: the command it set, or else the command letter it leaves. */
  function Command(mv: Decision): string
  {
    if mv.cmd != "" then mv.cmd else [mv.cmdChar]
  }

  /**
   * What one repetition leaves behind: the new current point, the command
   * letter for the next repetition, the numbers not yet consumed and the
   * records it appended.
   */
  datatype Step = Step(cp: Position, cmdChar: char, coords: seq<real>, emitted: seq<Segment>)

  /**
   * One pass of the `for len(coords) > 0` loop: the switch, then the record
   * every case shares, measured from the current point before the pass.
   */
  function Repeat(m: Measures, segs: seq<Segment>, cp: Position, cmdChar: char, coords: seq<real>): (r: Outcome<Step>)
    requires |coords| > 0
    ensures r.Value? ==> |r.v.coords| < |coords|
  {
    match Switch(segs, cp, cmdChar, coords)
    case Panic(reason) => Panic(reason)
    case Value(mv) =>
      match CalcLength(m, cp, Command(mv), mv.points)
      case Panic(reason) => Panic(reason)
      case Value(length) =>
        Value(Step(mv.cp, mv.cmdChar, mv.coords, mv.before + [Segment(Command(mv), mv.points, Some(cp), length)]))
  }

  /** Where the repetitions of one chunk leave the parser. */
  datatype State = State(segments: seq<Segment>, cp: Position, cmdChar: char)

  /** The `for len(coords) > 0` loop: repeat the command until the numbers run out. */
  function RunRepeats(m: Measures, segs: seq<Segment>, cp: Position, cmdChar: char, coords: seq<real>): Outcome<State>
    decreases |coords|
  {
    if |coords| == 0 then Value(State(segs, cp, cmdChar))
    else
      match Repeat(m, segs, cp, cmdChar, coords)
      case Panic(reason) => Panic(reason)
      case Value(st) => RunRepeats(m, segs + st.emitted, st.cp, st.cmdChar, st.coords)
  }

  /** After a chunk whose command letter is a closepath, one more bare marker is appended. */
  function AfterChunk(st: State): seq<Segment>
  {
    if st.cmdChar == 'Z' || st.cmdChar == 'z' then st.segments + [CloseMarker] else st.segments
  }

  /** The chunk loop of `ParseSegmentsFromSVG`, from a given record list and current point. */
  function RunChunks(m: Measures, chunks: seq<Chunk>, segs: seq<Segment>, cp: Position): Outcome<seq<Segment>>
    decreases |chunks|
  {
    if chunks == [] then Value(segs)
    else
      match RunRepeats(m, segs, cp, chunks[0].command, chunks[0].coords)
      case Panic(reason) => Panic(reason)
      case Value(st) => RunChunks(m, chunks[1..], AfterChunk(st), st.cp)
  }

  /** The records parsed from a sequence of chunks, starting at (0, 0) with none. */
  function Parse(m: Measures, chunks: seq<Chunk>): Outcome<seq<Segment>>
  {
    RunChunks(m, chunks, [], Origin)
  }

  /**
   * The current point after a list of records: the last two numbers of the
   * last record that has any, (0, 0) when none has.
   */
  function Pen(segs: seq<Segment>): Position
    decreases |segs|
  {
    if segs == [] then Origin
    else
      var pts := segs[|segs| - 1].points;
      if |pts| >= 2 then Position(pts[|pts| - 2], pts[|pts| - 1]) else Pen(segs[..|segs| - 1])
  }

  /**
   * The records the parser produces: only the bare marker lacks a start;
   * lines and moves carry one point, cubics three, quadratics two, anything
   * else none; and only lines, cubics and quadratics have a length.
   */
  ghost predicate Shaped(s: Segment)
  {
    && (s.start.None? ==> s == CloseMarker)
    && (s.command == "L" || s.command == "M" ==> |s.points| == 2)
    && (s.command == "C" ==> |s.points| == 6)
    && (s.command == "Q" ==> |s.points| == 4)
    && (s.command != "L" && s.command != "M" && s.command != "C" && s.command != "Q" ==> s.points == [])
    && (s.command != "L" && s.command != "C" && s.command != "Q" ==> s.length == 0.0)
  }

  /** Every record that has a start starts where the records before it left the current point. */
  ghost predicate Chained(segs: seq<Segment>)
  {
    forall i :: 0 <= i < |segs| && segs[i].start.Some? ==> segs[i].start.value == Pen(segs[..i])
  }

  ghost predicate Produced(segs: seq<Segment>)
  {
    (forall i :: 0 <= i < |segs| ==> Shaped(segs[i])) && Chained(segs)
  }

  /** Appending a well-shaped record that starts at the current point keeps the list produced. */
  lemma AppendRecord(segs: seq<Segment>, s: Segment)
    requires Produced(segs) && Shaped(s)
    requires s.start.Some? ==> s.start.value == Pen(segs)
    ensures Produced(segs + [s])
    ensures Pen(segs + [s]) == if |s.points| >= 2 then Position(s.points[|s.points| - 2], s.points[|s.points| - 1]) else Pen(segs)
  {
    var out := segs + [s];
    assert out[..|segs|] == segs;
    forall i | 0 <= i < |segs|
      ensures out[..i] == segs[..i]
    {
    }
  }

  /** What every case of the switch guarantees about the record it describes. */
  ghost predicate Sound(cp: Position, mv: Decision)
  {
    var command := Command(mv);
    && (mv.before == [] || mv.before == [CloseMarker])
    && (if mv.points == [] then mv.cp == cp
        else |mv.points| >= 2 && mv.cp == Position(mv.points[|mv.points| - 2], mv.points[|mv.points| - 1]))
    && (command == "L" || command == "M" ==> |mv.points| == 2)
    && (command == "C" ==> |mv.points| == 6)
    && (command == "Q" ==> |mv.points| == 4)
    && (command != "L" && command != "M" && command != "C" && command != "Q" ==> mv.points == [])
    && command != "A"
  }

  lemma SwitchSound(segs: seq<Segment>, cp: Position, cmdChar: char, coords: seq<real>)
    requires |coords| > 0
    ensures Switch(segs, cp, cmdChar, coords).Value? ==> Sound(cp, Switch(segs, cp, cmdChar, coords).v)
  {
    if cmdChar in "lLmMhHvV" {
      SwitchSoundLine(segs, cp, cmdChar, coords);
    } else if cmdChar in "cCqQtT" {
      SwitchSoundCurve(segs, cp, cmdChar, coords);
    }
  }

  lemma SwitchSoundLine(segs: seq<Segment>, cp: Position, cmdChar: char, coords: seq<real>)
    requires |coords| > 0 && cmdChar in "lLmMhHvV"
    ensures Switch(segs, cp, cmdChar, coords).Value? ==> Sound(cp, Switch(segs, cp, cmdChar, coords).v)
  {
  }

  lemma SwitchSoundCurve(segs: seq<Segment>, cp: Position, cmdChar: char, coords: seq<real>)
    requires |coords| > 0 && cmdChar in "cCqQtT"
    ensures Switch(segs, cp, cmdChar, coords).Value? ==> Sound(cp, Switch(segs, cp, cmdChar, coords).v)
  {
  }

  /**
   * One repetition appends records that start at the current point and
   * leaves the current point at the last two numbers it recorded (where it
   * was, when it recorded none).
   */
  lemma RepeatKeepsProduced(m: Measures, segs: seq<Segment>, cp: Position, cmdChar: char, coords: seq<real>)
    requires Produced(segs) && cp == Pen(segs) && |coords| > 0
    requires Repeat(m, segs, cp, cmdChar, coords).Value?
    ensures Produced(segs + Repeat(m, segs, cp, cmdChar, coords).v.emitted)
    ensures Repeat(m, segs, cp, cmdChar, coords).v.cp == Pen(segs + Repeat(m, segs, cp, cmdChar, coords).v.emitted)
  {
    var mv := Switch(segs, cp, cmdChar, coords).v;
    SwitchSound(segs, cp, cmdChar, coords);
    var length := CalcLength(m, cp, Command(mv), mv.points).v;
    var seg := Segment(Command(mv), mv.points, Some(cp), length);
    if mv.before == [] {
      AppendRecord(segs, seg);
      assert mv.before + [seg] == [seg];
    } else {
      AppendRecord(segs, CloseMarker);
      AppendRecord(segs + [CloseMarker], seg);
      assert segs + (mv.before + [seg]) == segs + [CloseMarker] + [seg];
    }
  }

  lemma {:induction false} RunRepeatsKeepsProduced(m: Measures, segs: seq<Segment>, cp: Position, cmdChar: char, coords: seq<real>)
    requires Produced(segs) && cp == Pen(segs)
    ensures RunRepeats(m, segs, cp, cmdChar, coords).Value? ==>
              var st := RunRepeats(m, segs, cp, cmdChar, coords).v;
              Produced(st.segments) && st.cp == Pen(st.segments)
    decreases |coords|
  {
    if |coords| > 0 && Repeat(m, segs, cp, cmdChar, coords).Value? {
      var st := Repeat(m, segs, cp, cmdChar, coords).v;
      RepeatKeepsProduced(m, segs, cp, cmdChar, coords);
      RunRepeatsKeepsProduced(m, segs + st.emitted, st.cp, st.cmdChar, st.coords);
    }
  }

  lemma {:induction false} RunChunksKeepsProduced(m: Measures, chunks: seq<Chunk>, segs: seq<Segment>, cp: Position)
    requires Produced(segs) && cp == Pen(segs)
    ensures RunChunks(m, chunks, segs, cp).Value? ==> Produced(RunChunks(m, chunks, segs, cp).v)
    decreases |chunks|
  {
    if chunks != [] {
      var run := RunRepeats(m, segs, cp, chunks[0].command, chunks[0].coords);
      RunRepeatsKeepsProduced(m, segs, cp, chunks[0].command, chunks[0].coords);
      if run.Value? {
        var st := run.v;
        if st.cmdChar == 'Z' || st.cmdChar == 'z' {
          AppendRecord(st.segments, CloseMarker);
        }
        RunChunksKeepsProduced(m, chunks[1..], AfterChunk(st), st.cp);
      }
    }
  }

  /**
   * Continuity of the parse: every record with a start begins at the current
   * point left by the records before it, starting from (0, 0); the current
   * point is always the last two numbers recorded; and the records have the
   * shapes of `Shaped`.
   */
  lemma ParseProduced(m: Measures, chunks: seq<Chunk>)
    ensures Parse(m, chunks).Value? ==> Produced(Parse(m, chunks).v)
  {
    RunChunksKeepsProduced(m, chunks, [], Origin);
  }

  /** How many numbers one repetition of a command consumes; 0 for the letters that consume them all. */
  function Arity(c: char): nat
  {
    if c in "lLmMtT" then 2
    else if c in "hHvV" then 1
    else if c in "cC" then 6
    else if c in "qQ" then 4
    else 0
  }

  /** The command recorded for a repetition that is not the first of a moveto. */
  function Recorded(c: char): string
  {
    if c in "lLmMhHvV" then "L" else if c in "cC" then "C" else "Q"
  }

  /** The command letter for the next repetition: a moveto continues as a lineto. */
  function Next(c: char): char
  {
    if c == 'm' then 'l' else if c == 'M' then 'L' else c
  }

  /**
   * A repetition of a command that takes numbers consumes exactly its arity
   * and records one segment, and panics when fewer numbers are left.
   */
  lemma RepeatArity(m: Measures, segs: seq<Segment>, cp: Position, c: char, coords: seq<real>)
    requires Arity(c) > 0 && Produced(segs) && |coords| > 0
    ensures Repeat(m, segs, cp, c, coords).Panic? <==> |coords| < Arity(c)
    ensures Repeat(m, segs, cp, c, coords).Value? ==>
              var st := Repeat(m, segs, cp, c, coords).v;
              && st.coords == coords[Arity(c)..]
              && st.cmdChar == Next(c)
              && |st.emitted| == 1
              && st.emitted[0].command == (if c in "mM" then "M" else Recorded(c))
  {
    if c in "tT" && GetLastCommand(segs) == "Q" {
      assert Shaped(segs[|segs| - 1]);
    }
    match c
    case 'l' => { assert Arity(c) == 2 && Next(c) == 'l' && Recorded(c) == "L"; }
    case 'L' => { assert Arity(c) == 2 && Next(c) == 'L' && Recorded(c) == "L"; }
    case 'm' => { assert Arity(c) == 2 && Next(c) == 'l' && Recorded(c) == "L"; }
    case 'M' => { assert Arity(c) == 2 && Next(c) == 'L' && Recorded(c) == "L"; }
    case 'h' => { assert Arity(c) == 1 && Next(c) == 'h' && Recorded(c) == "L"; }
    case 'H' => { assert Arity(c) == 1 && Next(c) == 'H' && Recorded(c) == "L"; }
    case 'v' => { assert Arity(c) == 1 && Next(c) == 'v' && Recorded(c) == "L"; }
    case 'V' => { assert Arity(c) == 1 && Next(c) == 'V' && Recorded(c) == "L"; }
    case 'c' => { assert Arity(c) == 6 && Next(c) == 'c' && Recorded(c) == "C"; }
    case 'C' => { assert Arity(c) == 6 && Next(c) == 'C' && Recorded(c) == "C"; }
    case 'q' => { assert Arity(c) == 4 && Next(c) == 'q' && Recorded(c) == "Q"; }
    case 'Q' => { assert Arity(c) == 4 && Next(c) == 'Q' && Recorded(c) == "Q"; }
    case 't' => { assert Arity(c) == 2 && Next(c) == 't' && Recorded(c) == "Q"; }
    case 'T' => { assert Arity(c) == 2 && Next(c) == 'T' && Recorded(c) == "Q"; }
  }

  lemma DivModStep(n: nat, a: nat)
    requires a == 1 || a == 2 || a == 4 || a == 6
    ensures (n + a) % a == n % a
    ensures (n + a) / a == n / a + 1
  {
    if a == 1 {
      assert (n + 1) % 1 == n % 1 && (n + 1) / 1 == n / 1 + 1;
    } else if a == 2 {
      assert (n + 2) % 2 == n % 2 && (n + 2) / 2 == n / 2 + 1;
    } else if a == 4 {
      assert (n + 4) % 4 == n % 4 && (n + 4) / 4 == n / 4 + 1;
    } else {
      assert (n + 6) % 6 == n % 6 && (n + 6) / 6 == n / 6 + 1;
    }
  }

  /**
   * The repetitions of a chunk: they panic exactly when the count of numbers
   * is not a multiple of the command's arity; otherwise they append one
   * record per repetition, the first of a moveto recorded as "M" and every
   * other one as the line, cubic or quadratic the letter denotes. So the
   * numbers after a moveto become implicit linetos, absolute after `M` and
   * relative after `m`.
   */
  lemma {:induction false} RunRepeatsArity(m: Measures, segs: seq<Segment>, cp: Position, c: char, coords: seq<real>)
    requires Arity(c) > 0 && Produced(segs) && cp == Pen(segs)
    ensures RunRepeats(m, segs, cp, c, coords).Panic? <==> |coords| % Arity(c) != 0
    ensures RunRepeats(m, segs, cp, c, coords).Value? ==>
              var out := RunRepeats(m, segs, cp, c, coords).v.segments;
              && |out| == |segs| + |coords| / Arity(c)
              && out[..|segs|] == segs
              && forall k :: |segs| <= k < |out| ==>
                   out[k].command == (if k == |segs| && c in "mM" then "M" else Recorded(c))
    decreases |coords|, 1
  {
    var a := Arity(c);
    ArityValues(c);
    if |coords| == 0 {
      assert |coords| % a == 0 && |coords| / a == 0;
    } else if |coords| < a {
      RepeatArity(m, segs, cp, c, coords);
      SmallMod(|coords|, a);
    } else {
      RunRepeatsArityStep(m, segs, cp, c, coords);
    }
  }

  /** The inductive step of `RunRepeatsArity`: one repetition, then the rest of the chunk. */
  lemma {:induction false} RunRepeatsArityStep(m: Measures, segs: seq<Segment>, cp: Position, c: char, coords: seq<real>)
    requires Arity(c) > 0 && Produced(segs) && cp == Pen(segs) && |coords| >= Arity(c)
    ensures RunRepeats(m, segs, cp, c, coords).Panic? <==> |coords| % Arity(c) != 0
    ensures RunRepeats(m, segs, cp, c, coords).Value? ==>
              var out := RunRepeats(m, segs, cp, c, coords).v.segments;
              && |out| == |segs| + |coords| / Arity(c)
              && out[..|segs|] == segs
              && forall k :: |segs| <= k < |out| ==>
                   out[k].command == (if k == |segs| && c in "mM" then "M" else Recorded(c))
    decreases |coords|, 0
  {
    ArityValues(c);
    var st, e := RepeatThenRest(m, segs, cp, c, coords);
    RunRepeatsArity(m, segs + st.emitted, st.cp, st.cmdChar, st.coords);
    CountAfterFirst(segs, e, segs + st.emitted, c, st.cmdChar, |coords|, |st.coords|,
                    RunRepeats(m, segs + st.emitted, st.cp, st.cmdChar, st.coords), RunRepeats(m, segs, cp, c, coords));
  }

  /**
   * The counting in the inductive step of `RunRepeatsArity`, stated of the
   * outcome `run` of the rest of the chunk after one record `e`, which is
   * the outcome `total` of the whole chunk.
   */
  lemma CountAfterFirst(segs: seq<Segment>, e: Segment, segs': seq<Segment>, c: char, c': char, n: nat, rest: nat,
                        run: Outcome<State>, total: Outcome<State>)
    requires Arity(c) > 0 && n == rest + Arity(c) && segs' == segs + [e]
    requires Arity(c') == Arity(c) && Recorded(c') == Recorded(c) && c' !in "mM"
    requires e.command == (if c in "mM" then "M" else Recorded(c))
    requires run.Panic? <==> rest % Arity(c') != 0
    requires run.Value? ==>
               var out := run.v.segments;
               && |out| == |segs'| + rest / Arity(c')
               && out[..|segs'|] == segs'
               && forall k :: |segs'| <= k < |out| ==>
                    out[k].command == (if k == |segs'| && c' in "mM" then "M" else Recorded(c'))
    requires total == run
    ensures total.Panic? <==> n % Arity(c) != 0
    ensures total.Value? ==>
              var out := total.v.segments;
              && |out| == |segs| + n / Arity(c)
              && out[..|segs|] == segs
              && forall k :: |segs| <= k < |out| ==>
                   out[k].command == (if k == |segs| && c in "mM" then "M" else Recorded(c))
  {
    var a := Arity(c);
    ArityValues(c);
    DivModStep(rest, a);
    if run.Value? {
      FirstOfRun(segs, e, run.v.segments, if c in "mM" then "M" else Recorded(c), Recorded(c));
    }
  }

  /** With enough numbers, the loop makes one repetition, recording `e`, and continues from the state it leaves. */
  lemma RepeatThenRest(m: Measures, segs: seq<Segment>, cp: Position, c: char, coords: seq<real>) returns (st: Step, e: Segment)
    requires Arity(c) > 0 && Produced(segs) && cp == Pen(segs) && |coords| >= Arity(c)
    ensures RunRepeats(m, segs, cp, c, coords) == RunRepeats(m, segs + st.emitted, st.cp, st.cmdChar, st.coords)
    ensures st.emitted == [e] && e.command == (if c in "mM" then "M" else Recorded(c))
    ensures st.cmdChar == Next(c) && |coords| == |st.coords| + Arity(c)
    ensures Produced(segs + st.emitted) && st.cp == Pen(segs + st.emitted)
  {
    RepeatArity(m, segs, cp, c, coords);
    st := Repeat(m, segs, cp, c, coords).v;
    e := st.emitted[0];
    assert st.emitted == [e];
    RepeatKeepsProduced(m, segs, cp, c, coords);
  }

  /** A run that starts with one record after `segs` and then only records of one command. */
  lemma FirstOfRun(segs: seq<Segment>, e: Segment, out: seq<Segment>, first: string, rest: string)
    requires |out| >= |segs| + 1
    requires out[..|segs| + 1] == segs + [e] && e.command == first
    requires forall k :: |segs| + 1 <= k < |out| ==> out[k].command == rest
    ensures out[..|segs|] == segs
    ensures forall k :: |segs| <= k < |out| ==> out[k].command == (if k == |segs| then first else rest)
  {
    assert out[..|segs|] == out[..|segs| + 1][..|segs|];
    assert out[|segs|] == out[..|segs| + 1][|segs|];
  }

  /** The arity is one of four values, and the letter after a repetition keeps arity and recorded command. */
  lemma ArityValues(c: char)
    requires Arity(c) > 0
    ensures Arity(c) == 1 || Arity(c) == 2 || Arity(c) == 4 || Arity(c) == 6
    ensures Arity(Next(c)) == Arity(c) && Recorded(Next(c)) == Recorded(c) && Next(c) !in "mM"
  {
  }

  lemma SmallMod(n: nat, a: nat)
    requires a == 1 || a == 2 || a == 4 || a == 6
    requires 0 < n < a
    ensures n % a != 0
  {
    if a == 2 {
      assert n % 2 == n;
    } else if a == 4 {
      assert n % 4 == n;
    } else if a == 6 {
      assert n % 6 == n;
    }
  }

  /**
   * Where one repetition leaves the current point: `H` and `h` keep y, `V`
   * and `v` keep x, and a closepath or an unknown letter keeps the point,
   * drops the remaining numbers and records only segments without points or
   * length: one for an unknown letter such as `S`, and for a closepath the
   * bare marker followed by a record of the letter itself.
   */
  lemma RepeatMovesPen(m: Measures, segs: seq<Segment>, cp: Position, c: char, coords: seq<real>)
    requires |coords| > 0 && Repeat(m, segs, cp, c, coords).Value?
    ensures c in "hH" ==> Repeat(m, segs, cp, c, coords).v.cp.y == cp.y
    ensures c in "vV" ==> Repeat(m, segs, cp, c, coords).v.cp.x == cp.x
    ensures Arity(c) == 0 ==>
              var st := Repeat(m, segs, cp, c, coords).v;
              && st.cp == cp && st.coords == []
              && forall k :: 0 <= k < |st.emitted| ==> st.emitted[k].points == [] && st.emitted[k].length == 0.0
    ensures Arity(c) == 0 && c !in "zZ" ==> |Repeat(m, segs, cp, c, coords).v.emitted| == 1
    ensures c in "zZ" ==>
              var emitted := Repeat(m, segs, cp, c, coords).v.emitted;
              |emitted| == 2 && emitted[0] == CloseMarker && emitted[1].command == [c]
    ensures Arity(c) == 0 ==>
              Repeat(m, segs, cp, c, coords).v.emitted
              == (if c in "zZ" then [CloseMarker] else []) + [Segment([c], [], Some(cp), 0.0)]
  {
    SwitchSound(segs, cp, c, coords);
  }

  /** An elliptical arc, absolute or relative, panics on its first repetition. */
  lemma ArcRepeatPanics(m: Measures, segs: seq<Segment>, cp: Position, c: char, coords: seq<real>)
    requires c in "aA" && |coords| > 0
    ensures Repeat(m, segs, cp, c, coords) == Panic(ArcPanic)
  {
  }

  /**
   * The points an absolute command records: `H` takes x from its number and
   * keeps y, `V` keeps x and takes y, and `L`, `M`, `C` and `Q` record their
   * numbers as given.
   */
  function AbsolutePoints(c: char, cp: Position, coords: seq<real>): (pts: seq<real>)
    requires c in "LMHVCQ" && |coords| >= Arity(c)
    ensures |pts| == (if c in "LMHV" then 2 else Arity(c))
  {
    if c == 'H' then [coords[0], cp.y]
    else if c == 'V' then [cp.x, coords[0]]
    else coords[..Arity(c)]
  }

  /**
   * One repetition of an absolute command records exactly one segment: it
   * starts at the current point, holds the command's points, is named "M"
   * for a moveto and otherwise the line, cubic or quadratic it draws, has
   * the length `calcLength` gives, and leaves the current point at its last
   * two numbers.
   */
  lemma AbsoluteRecords(m: Measures, segs: seq<Segment>, cp: Position, c: char, coords: seq<real>)
    requires c in "LMHVCQ" && |coords| >= Arity(c)
    ensures Repeat(m, segs, cp, c, coords).Value?
    ensures var st := Repeat(m, segs, cp, c, coords).v;
            var pts := AbsolutePoints(c, cp, coords);
            && |st.emitted| == 1
            && st.emitted[0].start == Some(cp)
            && st.emitted[0].points == pts
            && st.emitted[0].command == (if c == 'M' then "M" else Recorded(c))
            && st.emitted[0].length == CalcLength(m, cp, st.emitted[0].command, pts).v
            && st.cp == Position(pts[|pts| - 2], pts[|pts| - 1])
            && st.coords == coords[Arity(c)..]
  {
    if c in "LMHV" {
      AbsoluteLineRecords(m, segs, cp, c, coords);
    } else {
      AbsoluteCurveRecords(m, segs, cp, c, coords);
    }
  }

  lemma AbsoluteLineRecords(m: Measures, segs: seq<Segment>, cp: Position, c: char, coords: seq<real>)
    requires c in "LMHV" && |coords| >= Arity(c)
    ensures Repeat(m, segs, cp, c, coords).Value?
    ensures var st := Repeat(m, segs, cp, c, coords).v;
            var pts := AbsolutePoints(c, cp, coords);
            && |st.emitted| == 1
            && st.emitted[0].start == Some(cp)
            && st.emitted[0].points == pts
            && st.emitted[0].command == (if c == 'M' then "M" else Recorded(c))
            && st.emitted[0].length == CalcLength(m, cp, st.emitted[0].command, pts).v
            && st.cp == Position(pts[|pts| - 2], pts[|pts| - 1])
            && st.coords == coords[Arity(c)..]
  {
    if c in "LM" {
      AbsolutePointRecords(m, segs, cp, c, coords);
    } else {
      AbsoluteAxisRecords(m, segs, cp, c, coords);
    }
  }

  lemma AbsolutePointRecords(m: Measures, segs: seq<Segment>, cp: Position, c: char, coords: seq<real>)
    requires (c == 'L' || c == 'M') && |coords| >= 2
    ensures Repeat(m, segs, cp, c, coords).Value?
    ensures var st := Repeat(m, segs, cp, c, coords).v;
            && |st.emitted| == 1
            && st.emitted[0] == Segment(if c == 'M' then "M" else "L", coords[..2], Some(cp),
                                        CalcLength(m, cp, if c == 'M' then "M" else "L", coords[..2]).v)
            && st.cp == Position(coords[0], coords[1])
            && st.coords == coords[2..]
  {
  }

  lemma AbsoluteAxisRecords(m: Measures, segs: seq<Segment>, cp: Position, c: char, coords: seq<real>)
    requires (c == 'H' || c == 'V') && |coords| >= 1
    ensures Repeat(m, segs, cp, c, coords).Value?
    ensures var st := Repeat(m, segs, cp, c, coords).v;
            var pts := if c == 'H' then [coords[0], cp.y] else [cp.x, coords[0]];
            && |st.emitted| == 1
            && st.emitted[0] == Segment("L", pts, Some(cp), CalcLength(m, cp, "L", pts).v)
            && st.cp == Position(pts[0], pts[1])
            && st.coords == coords[1..]
  {
  }

  lemma AbsoluteCurveRecords(m: Measures, segs: seq<Segment>, cp: Position, c: char, coords: seq<real>)
    requires c in "CQ" && |coords| >= Arity(c)
    ensures Repeat(m, segs, cp, c, coords).Value?
    ensures var st := Repeat(m, segs, cp, c, coords).v;
            var pts := AbsolutePoints(c, cp, coords);
            && |st.emitted| == 1
            && st.emitted[0].start == Some(cp)
            && st.emitted[0].points == pts
            && st.emitted[0].command == Recorded(c)
            && st.emitted[0].length == CalcLength(m, cp, st.emitted[0].command, pts).v
            && st.cp == Position(pts[|pts| - 2], pts[|pts| - 1])
            && st.coords == coords[Arity(c)..]
  {
  }

  /** The absolute letter for a relative one. */
  function Absolute(c: char): char
  {
    match c
    case 'l' => 'L'
    case 'm' => 'M'
    case 'h' => 'H'
    case 'v' => 'V'
    case 'c' => 'C'
    case 'q' => 'Q'
    case 't' => 'T'
    case _ => c
  }

  /** What a relative repetition adds to its `i`-th number: the current point's x or y. */
  function Offset(c: char, cp: Position, i: nat): real
  {
    if c == 'h' then (if i == 0 then cp.x else 0.0)
    else if c == 'v' then (if i == 0 then cp.y else 0.0)
    else if i < Arity(c) then (if i % 2 == 0 then cp.x else cp.y)
    else 0.0
  }

  /** The numbers of one relative repetition made absolute: offsets from the current point before it. */
  function Shifted(c: char, cp: Position, coords: seq<real>): (r: seq<real>)
    ensures |r| == |coords|
  {
    seq(|coords|, i requires 0 <= i < |coords| => coords[i] + Offset(c, cp, i))
  }

  /** A relative command's switch describes the same record as the absolute one's on shifted numbers. */
  ghost predicate SameDecision(rel: Outcome<Decision>, abs: Outcome<Decision>)
  {
    && rel.Panic? == abs.Panic?
    && (rel.Value? ==>
          && rel.v.points == abs.v.points && rel.v.cp == abs.v.cp && rel.v.coords == abs.v.coords
          && rel.v.before == abs.v.before && Command(rel.v) == Command(abs.v))
  }

  /** `SameDecision` for the commands taking one point. */
  lemma SwitchRelativePoint(segs: seq<Segment>, cp: Position, c: char, coords: seq<real>)
    requires c in "lmt" && |coords| >= Arity(c)
    ensures SameDecision(Switch(segs, cp, c, coords), Switch(segs, cp, Absolute(c), Shifted(c, cp, coords)))
  {
    var sh := Shifted(c, cp, coords);
    assert sh[Arity(c)..] == coords[Arity(c)..];
  }

  /** `SameDecision` for the horizontal and vertical lines. */
  lemma SwitchRelativeAxis(segs: seq<Segment>, cp: Position, c: char, coords: seq<real>)
    requires c in "hv" && |coords| >= Arity(c)
    ensures SameDecision(Switch(segs, cp, c, coords), Switch(segs, cp, Absolute(c), Shifted(c, cp, coords)))
  {
    var sh := Shifted(c, cp, coords);
    assert sh[Arity(c)..] == coords[Arity(c)..];
  }

  /** `SameDecision` for the cubic and quadratic curves. */
  lemma SwitchRelativeCurve(segs: seq<Segment>, cp: Position, c: char, coords: seq<real>)
    requires c in "cq" && |coords| >= Arity(c)
    ensures SameDecision(Switch(segs, cp, c, coords), Switch(segs, cp, Absolute(c), Shifted(c, cp, coords)))
  {
    var sh := Shifted(c, cp, coords);
    assert sh[Arity(c)..] == coords[Arity(c)..];
  }

  /**
   * A relative command is the absolute one applied to numbers offset by the
   * current point before the repetition: the same records (including the
   * control points of curves, which are offsets from that same point), the
   * same new current point and the same numbers left over.
   */
  lemma RelativeIsShiftedAbsolute(m: Measures, segs: seq<Segment>, cp: Position, c: char, coords: seq<real>)
    requires c in "lmhvcqt" && |coords| >= Arity(c)
    ensures var rel := Repeat(m, segs, cp, c, coords);
            var abs := Repeat(m, segs, cp, Absolute(c), Shifted(c, cp, coords));
            && rel.Panic? == abs.Panic?
            && (rel.Value? ==> rel.v.cp == abs.v.cp && rel.v.coords == abs.v.coords && rel.v.emitted == abs.v.emitted)
  {
    if c in "lmt" {
      SwitchRelativePoint(segs, cp, c, coords);
    } else if c in "hv" {
      SwitchRelativeAxis(segs, cp, c, coords);
    } else {
      SwitchRelativeCurve(segs, cp, c, coords);
    }
  }

  /**
   * A smooth quadratic records a quadratic, so a run of them keeps
   * reflecting. After a quadratic, its first control point is the previous
   * control point reflected about the current point, which is that
   * quadratic's end: the curves meet with the same tangent. After anything
   * else the control point is the current point itself.
   */
  lemma SmoothQuadraticReflects(m: Measures, segs: seq<Segment>, cp: Position, c: char, coords: seq<real>)
    requires c in "tT" && |coords| >= 2 && Produced(segs) && cp == Pen(segs)
    ensures Repeat(m, segs, cp, c, coords).Value?
    ensures var emitted := Repeat(m, segs, cp, c, coords).v.emitted;
            && |emitted| == 1 && emitted[0].command == "Q" && |emitted[0].points| == 4
            && (GetLastCommand(segs) == "Q" ==>
                  var prev := segs[|segs| - 1].points;
                  && cp == Position(prev[2], prev[3])
                  && emitted[0].points[0] - cp.x == cp.x - prev[0]
                  && emitted[0].points[1] - cp.y == cp.y - prev[1])
            && (GetLastCommand(segs) != "Q" ==> emitted[0].points[0] == cp.x && emitted[0].points[1] == cp.y)
  {
    ReflectedControlTangent(segs, cp);
    SmoothQuadraticRecords(m, segs, cp, c, coords);
  }

  /**
   * A smooth quadratic records one quadratic that starts at the current
   * point, whose first control point is `ReflectedControl` and whose end is
   * the first two numbers (offset by the current point for `t`). The end
   * becomes the current point and the two numbers are consumed.
   */
  lemma SmoothQuadraticRecords(m: Measures, segs: seq<Segment>, cp: Position, c: char, coords: seq<real>)
    requires c in "tT" && |coords| >= 2
    requires ReflectedControl(segs, cp).Value?
    ensures Repeat(m, segs, cp, c, coords).Value?
    ensures var st := Repeat(m, segs, cp, c, coords).v;
            var ctrl := ReflectedControl(segs, cp).v;
            var end := if c == 'T' then Position(coords[0], coords[1])
                       else Position(cp.x + coords[0], cp.y + coords[1]);
            && |st.emitted| == 1
            && st.emitted[0] == QuadraticRecord(m, cp, [ctrl.x, ctrl.y, end.x, end.y])
            && st.cp == end
            && st.coords == coords[2..]
            && st.cmdChar == c
  {
  }

  lemma ReflectedControlTangent(segs: seq<Segment>, cp: Position)
    requires Produced(segs) && cp == Pen(segs)
    ensures ReflectedControl(segs, cp).Value?
    ensures GetLastCommand(segs) == "Q" ==>
              var prev := segs[|segs| - 1].points;
              && |prev| == 4 && cp == Position(prev[2], prev[3])
              && ReflectedControl(segs, cp).v.x - cp.x == cp.x - prev[0]
              && ReflectedControl(segs, cp).v.y - cp.y == cp.y - prev[1]
    ensures GetLastCommand(segs) != "Q" ==> ReflectedControl(segs, cp).v == cp
  {
    if GetLastCommand(segs) == "Q" {
      assert Shaped(segs[|segs| - 1]);
    }
  }

  /** The record of a quadratic with the given points starting at `start`. */
  function QuadraticRecord(m: Measures, start: Position, points: seq<real>): Segment
    requires |points| == 4
  {
    Segment("Q", points, Some(start),
            m.quadraticArcLength([start.x, points[0], points[2]], [start.y, points[1], points[3]], 1.0))
  }

  /** The moveto and quadratic chunks of `SmoothQuadraticExample`. */
  lemma ExampleOpening(m: Measures)
    ensures RunRepeats(m, [], Origin, 'M', [0.0, 0.0])
         == Value(State([Segment("M", [0.0, 0.0], Some(Origin), 0.0)], Origin, 'L'))
    ensures RunRepeats(m, [Segment("M", [0.0, 0.0], Some(Origin), 0.0)], Origin, 'Q', [5.0, -10.0, 10.0, 0.0])
         == Value(State([Segment("M", [0.0, 0.0], Some(Origin), 0.0),
                         QuadraticRecord(m, Origin, [5.0, -10.0, 10.0, 0.0])], Position(10.0, 0.0), 'Q'))
  {
    var segM := Segment("M", [0.0, 0.0], Some(Origin), 0.0);
    assert [0.0, 0.0][2..] == [];
    assert Switch([], Origin, 'M', [0.0, 0.0]) == Value(Decision([0.0, 0.0], Origin, "M", 'L', [], []));
    assert CalcLength(m, Origin, "M", [0.0, 0.0]) == Value(0.0);
    assert [] + [segM] == [segM];
    assert Repeat(m, [], Origin, 'M', [0.0, 0.0]) == Value(Step(Origin, 'L', [], [segM]));
    var segQ := QuadraticRecord(m, Origin, [5.0, -10.0, 10.0, 0.0]);
    assert [5.0, -10.0, 10.0, 0.0][4..] == [];
    assert Switch([segM], Origin, 'Q', [5.0, -10.0, 10.0, 0.0])
        == Value(Decision([5.0, -10.0, 10.0, 0.0], Position(10.0, 0.0), "", 'Q', [], []));
    assert Command(Decision([5.0, -10.0, 10.0, 0.0], Position(10.0, 0.0), "", 'Q', [], [])) == "Q";
    assert CalcLength(m, Origin, "Q", [5.0, -10.0, 10.0, 0.0]) == Value(segQ.length);
    assert [] + [segQ] == [segQ];
    assert [segM] + [segQ] == [segM, segQ];
  }

  /** One `T` repetition from `cp`, whatever came before, as long as the last record is a quadratic with control point `ctrl`. */
  lemma SmoothStepAfterQuadratic(m: Measures, segs: seq<Segment>, cp: Position, ctrl: Position, coords: seq<real>)
    requires |segs| > 0 && segs[|segs| - 1].command == "Q"
    requires |segs[|segs| - 1].points| >= 2
    requires segs[|segs| - 1].points[0] == ctrl.x && segs[|segs| - 1].points[1] == ctrl.y
    requires |coords| >= 2
    ensures var next := Position(coords[0], coords[1]);
            var reflected := [2.0 * cp.x - ctrl.x, 2.0 * cp.y - ctrl.y, next.x, next.y];
            Repeat(m, segs, cp, 'T', coords) == Value(Step(next, 'T', coords[2..], [QuadraticRecord(m, cp, reflected)]))
  {
    var next := Position(coords[0], coords[1]);
    var reflected := [2.0 * cp.x - ctrl.x, 2.0 * cp.y - ctrl.y, next.x, next.y];
    assert ReflectedControl(segs, cp) == Value(Position(2.0 * cp.x - ctrl.x, 2.0 * cp.y - ctrl.y));
    assert Switch(segs, cp, 'T', coords) == Value(Decision(reflected, next, "Q", 'T', coords[2..], []));
    assert [] + [QuadraticRecord(m, cp, reflected)] == [QuadraticRecord(m, cp, reflected)];
  }

  /**
   * An example: a quadratic followed by two smooth quadratics in one chunk
   * reflects twice, (5, -10) about (10, 0) to (15, 10), then (15, 10) about
   * (20, 0) to (25, -10).
   */
  lemma SmoothQuadraticExample(m: Measures)
    ensures var r := Parse(m, [Chunk('M', [0.0, 0.0]), Chunk('Q', [5.0, -10.0, 10.0, 0.0]), Chunk('T', [20.0, 0.0, 30.0, 0.0])]);
            && r.Value? && |r.v| == 4
            && r.v[2].points == [15.0, 10.0, 20.0, 0.0]
            && r.v[3].points == [25.0, -10.0, 30.0, 0.0]
  {
    var chunks := [Chunk('M', [0.0, 0.0]), Chunk('Q', [5.0, -10.0, 10.0, 0.0]), Chunk('T', [20.0, 0.0, 30.0, 0.0])];
    var segM := Segment("M", [0.0, 0.0], Some(Origin), 0.0);
    var segQ := QuadraticRecord(m, Origin, [5.0, -10.0, 10.0, 0.0]);
    var segT1 := QuadraticRecord(m, Position(10.0, 0.0), [15.0, 10.0, 20.0, 0.0]);
    var segT2 := QuadraticRecord(m, Position(20.0, 0.0), [25.0, -10.0, 30.0, 0.0]);
    ExampleOpening(m);
    ExampleSmoothRun(m);
    assert RunChunks(m, chunks[2..], [segM, segQ], Position(10.0, 0.0)) == Value([segM, segQ, segT1, segT2]);
    assert RunChunks(m, chunks[1..], [segM], Origin) == Value([segM, segQ, segT1, segT2]);
  }

  /** The smooth-quadratic chunk of `SmoothQuadraticExample`: two reflecting steps. */
  lemma ExampleSmoothRun(m: Measures)
    ensures var segM := Segment("M", [0.0, 0.0], Some(Origin), 0.0);
            var segQ := QuadraticRecord(m, Origin, [5.0, -10.0, 10.0, 0.0]);
            var segT1 := QuadraticRecord(m, Position(10.0, 0.0), [15.0, 10.0, 20.0, 0.0]);
            var segT2 := QuadraticRecord(m, Position(20.0, 0.0), [25.0, -10.0, 30.0, 0.0]);
            RunRepeats(m, [segM, segQ], Position(10.0, 0.0), 'T', [20.0, 0.0, 30.0, 0.0])
              == Value(State([segM, segQ, segT1, segT2], Position(30.0, 0.0), 'T'))
  {
    var p10, p20, p30 := Position(10.0, 0.0), Position(20.0, 0.0), Position(30.0, 0.0);
    var segM := Segment("M", [0.0, 0.0], Some(Origin), 0.0);
    var segQ := QuadraticRecord(m, Origin, [5.0, -10.0, 10.0, 0.0]);
    var segT1 := QuadraticRecord(m, p10, [15.0, 10.0, 20.0, 0.0]);
    var segT2 := QuadraticRecord(m, p20, [25.0, -10.0, 30.0, 0.0]);
    SmoothStepAfterQuadratic(m, [segM, segQ], p10, Position(5.0, -10.0), [20.0, 0.0, 30.0, 0.0]);
    assert [20.0, 0.0, 30.0, 0.0][2..] == [30.0, 0.0];
    assert [segM, segQ] + [segT1] == [segM, segQ, segT1];
    SmoothStepAfterQuadratic(m, [segM, segQ, segT1], p20, Position(15.0, 10.0), [30.0, 0.0]);
    assert [30.0, 0.0][2..] == [];
    assert [segM, segQ, segT1] + [segT2] == [segM, segQ, segT1, segT2];
    assert RunRepeats(m, [segM, segQ, segT1], p20, 'T', [30.0, 0.0])
        == Value(State([segM, segQ, segT1, segT2], p30, 'T'));
  }

  /**
   * A closepath chunk without numbers only appends the bare marker: the
   * current point stays where the last command left it and does not return
   * to the start of the subpath.
   */
  lemma ClosepathKeepsPen(m: Measures, c: char, rest: seq<Chunk>, segs: seq<Segment>, cp: Position)
    requires c == 'z' || c == 'Z'
    ensures RunChunks(m, [Chunk(c, [])] + rest, segs, cp) == RunChunks(m, rest, segs + [CloseMarker], cp)
  {
    assert ([Chunk(c, [])] + rest)[1..] == rest;
  }
}
