/**
 * `ParseSegmentsFromSVG` of svg.go on path data as text: spaces become
 * commas, a `|` is put before every command letter, the text is split at
 * the `|`s, and each non-empty piece becomes a chunk of its first character
 * and the numbers in the rest, which the state machine of `SvgParse` then
 * runs.
 *
 * The number scanner (a regular expression) and `strconv.ParseFloat` are
 * library code; they are a `Scanner` parameter here.
 */
module SvgText {
  import opened Geometry
  import opened SvgParse

  /** The command letters, in the order `validSegmentCommands` lists them. */
  const ValidCommands: string := "mMlLvVhHzZcCqQtTsSaA"

  /**
   * The numbers of a piece of text: `find` yields the number-like substrings
   * in order, and `parseFloat` reads one, failing with `None`.
   */
  datatype Scanner = Scanner(find: string -> seq<string>, parseFloat: string -> Option<real>)

  /** `strings.ReplaceAll` with a one-character pattern. */
  function ReplaceAll(s: string, pattern: char, replacement: string): string
  {
    if s == [] then [] else (if s[0] == pattern then replacement else [s[0]]) + ReplaceAll(s[1..], pattern, replacement)
  }

  /** A `|` put before every letter of `cmds` in one pass. */
  function Marked(cmds: string, s: string): string
  {
    if s == [] then [] else (if s[0] in cmds then ['|', s[0]] else [s[0]]) + Marked(cmds, s[1..])
  }

  /** `strings.Split` at `|`: the pieces between separators, at least one. */
  function Split(s: string): (pieces: seq<string>)
    ensures |pieces| >= 1
  {
    if s == [] then [[]]
    else
      var rest := Split(s[1..]);
      if s[0] == '|' then [[]] + rest else [[s[0]] + rest[0]] + rest[1..]
  }

  /** The pieces put back together with `|` between them. */
  function Join(pieces: seq<string>): string
    requires |pieces| >= 1
  {
    if |pieces| == 1 then pieces[0] else pieces[0] + ['|'] + Join(pieces[1..])
  }

  /** The text with every `|` removed. */
  function Unmarked(s: string): string
  {
    if s == [] then [] else (if s[0] == '|' then [] else [s[0]]) + Unmarked(s[1..])
  }

  /** The numbers of one piece, a failed parse contributing 0. */
  function Coordinates(sc: Scanner, tokens: seq<string>): (coords: seq<real>)
    ensures |coords| == |tokens|
  {
    seq(|tokens|, i requires 0 <= i < |tokens| =>
      match sc.parseFloat(tokens[i])
      case Some(v) => v
      case None => 0.0)
  }

  /** The chunks of the pieces: empty pieces are skipped. */
  function Chunks(sc: Scanner, pieces: seq<string>): seq<Chunk>
  {
    if pieces == [] then []
    else
      var piece := pieces[0];
      (if piece == [] then [] else [Chunk(piece[0], Coordinates(sc, sc.find(piece[1..])))]) + Chunks(sc, pieces[1..])
  }

  /** The pieces `ParseSegmentsFromSVG` splits non-empty path data into. */
  function Pieces(svgData: string): seq<string>
  {
    Split(Marked(ValidCommands, ReplaceAll(svgData, ' ', ",")))
  }

  /** What `ParseSegmentsFromSVG` returns: no records for empty data, otherwise the parse of its chunks. */
  function ParseSvg(m: Measures, sc: Scanner, svgData: string): Outcome<seq<Segment>>
  {
    if svgData == "" then Value([]) else Parse(m, Chunks(sc, Pieces(svgData)))
  }

  lemma {:induction false} ReplaceAllAppend(a: string, b: string, pattern: char, replacement: string)
    ensures ReplaceAll(a + b, pattern, replacement) == ReplaceAll(a, pattern, replacement) + ReplaceAll(b, pattern, replacement)
  {
    if a == [] {
      assert a + b == b;
    } else {
      assert (a + b)[1..] == a[1..] + b;
      ReplaceAllAppend(a[1..], b, pattern, replacement);
    }
  }

  /**
   * After `ReplaceAll`, the pattern is gone when the replacement does not
   * contain it (with spaces turned into commas no space is left), and text
   * without the pattern is unchanged.
   */
  lemma {:induction false} ReplaceAllRemoves(s: string, pattern: char, replacement: string)
    requires pattern !in replacement
    ensures pattern !in ReplaceAll(s, pattern, replacement)
    ensures pattern !in s ==> ReplaceAll(s, pattern, replacement) == s
  {
    if s != [] {
      ReplaceAllRemoves(s[1..], pattern, replacement);
      if pattern !in s {
        assert s[0] != pattern && pattern !in s[1..];
        assert [s[0]] + s[1..] == s;
      }
    }
  }

  /**
   * Marking one more letter, not yet marked and not `|` itself, on text
   * already marked for `cmds` gives the text marked for both in one pass. So
   * the `ReplaceAll` loop over the command letters puts exactly one `|`
   * before each of them.
   */
  lemma {:induction false} MarkOneMore(cmds: string, c: char, s: string)
    requires c != '|' && c !in cmds
    ensures ReplaceAll(Marked(cmds, s), c, ['|', c]) == Marked(cmds + [c], s)
  {
    if s != [] {
      var head := if s[0] in cmds then ['|', s[0]] else [s[0]];
      ReplaceAllAppend(head, Marked(cmds, s[1..]), c, ['|', c]);
      MarkOneMore(cmds, c, s[1..]);
      if s[0] in cmds {
        assert ReplaceAll(head, c, ['|', c]) == head by {
          assert head[1..][1..] == [];
        }
      }
    }
  }

  lemma {:induction false} MarkedNothing(s: string)
    ensures Marked([], s) == s
  {
    if s != [] {
      MarkedNothing(s[1..]);
    }
  }

  /** The command letters are distinct and none of them is the separator. */
  lemma ValidCommandsDistinct(k: nat)
    requires k < |ValidCommands|
    ensures ValidCommands[k] != '|' && ValidCommands[k] !in ValidCommands[..k]
  {
  }

  /** Splitting at `|` and joining again with `|` gives the text back, and no piece contains `|`. */
  lemma {:induction false} SplitJoin(s: string)
    ensures Join(Split(s)) == s
    ensures forall i :: 0 <= i < |Split(s)| ==> '|' !in Split(s)[i]
  {
    if s != [] {
      SplitJoin(s[1..]);
      var rest := Split(s[1..]);
      if s[0] == '|' {
        assert ([[]] + rest)[1..] == rest;
      } else {
        var pieces := [[s[0]] + rest[0]] + rest[1..];
        if |rest| > 1 {
          assert pieces[1..] == rest[1..];
          assert Join(rest) == rest[0] + ['|'] + Join(rest[1..]);
        }
        assert forall i :: 1 <= i < |pieces| ==> pieces[i] == rest[i];
      }
    }
  }

  /**
   * On text without `|`, every piece after the first starts with a command
   * letter, so the first character of a chunk is its command; the first
   * piece, the text before the first command, holds no command letter.
   */
  lemma {:induction false} PiecesStartWithCommands(cmds: string, s: string)
    requires '|' !in s && '|' !in cmds
    ensures forall i :: 0 < i < |Split(Marked(cmds, s))| ==>
              Split(Marked(cmds, s))[i] != [] && Split(Marked(cmds, s))[i][0] in cmds
    ensures forall j :: 0 <= j < |Split(Marked(cmds, s))[0]| ==> Split(Marked(cmds, s))[0][j] !in cmds
  {
    if s != [] {
      PiecesStartWithCommands(cmds, s[1..]);
      var tail := Marked(cmds, s[1..]);
      var rest := Split(tail);
      if s[0] in cmds {
        var x := ['|', s[0]] + tail;
        assert x[1..] == [s[0]] + tail && ([s[0]] + tail)[1..] == tail;
        assert Split([s[0]] + tail) == [[s[0]] + rest[0]] + rest[1..];
        assert Split(x) == [[]] + ([[s[0]] + rest[0]] + rest[1..]);
      } else {
        var x := [s[0]] + tail;
        assert x[1..] == tail;
        assert Split(x) == [[s[0]] + rest[0]] + rest[1..];
      }
    }
  }

  /** Removing the `|`s from marked text without `|` gives the text back. */
  lemma {:induction false} UnmarkMarked(cmds: string, s: string)
    requires '|' !in s
    ensures Unmarked(Marked(cmds, s)) == s
  {
    if s != [] {
      UnmarkMarked(cmds, s[1..]);
      var head := if s[0] in cmds then ['|', s[0]] else [s[0]];
      UnmarkedAppend(head, Marked(cmds, s[1..]));
      if s[0] in cmds {
        assert head[1..] == [s[0]] && head[1..][1..] == [];
      }
    }
  }

  lemma {:induction false} UnmarkedAppend(a: string, b: string)
    ensures Unmarked(a + b) == Unmarked(a) + Unmarked(b)
  {
    if a == [] {
      assert a + b == b;
    } else {
      assert (a + b)[1..] == a[1..] + b;
      UnmarkedAppend(a[1..], b);
    }
  }

  /** The loop of `ParseSegmentsFromSVG` that puts a `|` before each command letter, one letter at a time. */
  method MarkCommands(svgData: string) returns (marked: string)
    ensures marked == Marked(ValidCommands, svgData)
  {
    marked := svgData;
    MarkedNothing(svgData);
    var k := 0;
    while k < |ValidCommands|
      invariant 0 <= k <= |ValidCommands|
      invariant marked == Marked(ValidCommands[..k], svgData)
    {
      ValidCommandsDistinct(k);
      MarkOneMore(ValidCommands[..k], ValidCommands[k], svgData);
      assert ValidCommands[..k + 1] == ValidCommands[..k] + [ValidCommands[k]];
      marked := ReplaceAll(marked, ValidCommands[k], ['|', ValidCommands[k]]);
      k := k + 1;
    }
    assert ValidCommands[..k] == ValidCommands;
  }

  /** The loop that reads the numbers of one piece, appending 0 for each that fails to parse. */
  method ScanCoordinates(sc: Scanner, segmentPtsStr: string) returns (coords: seq<real>)
    ensures coords == Coordinates(sc, sc.find(segmentPtsStr))
  {
    var tokens := sc.find(segmentPtsStr);
    coords := [];
    var j := 0;
    while j < |tokens|
      invariant 0 <= j <= |tokens|
      invariant coords == Coordinates(sc, tokens[..j])
    {
      var v := sc.parseFloat(tokens[j]);
      if v.None? {
        coords := coords + [0.0];
      } else {
        coords := coords + [v.value];
      }
      j := j + 1;
    }
    assert tokens[..j] == tokens;
  }

  /** The `for len(coords) > 0` loop of one chunk. */
  method RepeatCommand(m: Measures, segs: seq<Segment>, cp: Position, cmdChar: char, coords: seq<real>)
    returns (r: Outcome<State>)
    ensures r == RunRepeats(m, segs, cp, cmdChar, coords)
  {
    var segments, pen, letter, rest := segs, cp, cmdChar, coords;
    while |rest| > 0
      invariant RunRepeats(m, segments, pen, letter, rest) == RunRepeats(m, segs, cp, cmdChar, coords)
      decreases |rest|
    {
      var step := Repeat(m, segments, pen, letter, rest);
      if step.Panic? {
        return Panic(step.reason);
      }
      segments := segments + step.v.emitted;
      pen := step.v.cp;
      letter := step.v.cmdChar;
      rest := step.v.coords;
    }
    return Value(State(segments, pen, letter));
  }

  /** The chunks from piece `i` on: that piece's chunk, if it is not empty, then the rest. */
  lemma ChunksFrom(sc: Scanner, pieces: seq<string>, i: nat)
    requires i < |pieces|
    ensures pieces[i] == [] ==> Chunks(sc, pieces[i..]) == Chunks(sc, pieces[i + 1..])
    ensures pieces[i] != [] ==>
              Chunks(sc, pieces[i..]) == [Chunk(pieces[i][0], Coordinates(sc, sc.find(pieces[i][1..])))] + Chunks(sc, pieces[i + 1..])
  {
    assert pieces[i..][1..] == pieces[i + 1..];
  }

  /** Running a chunk in front of others: its repetitions, then the others from the state they leave. */
  lemma RunChunksCons(m: Measures, c: Chunk, rest: seq<Chunk>, segs: seq<Segment>, cp: Position)
    ensures RunRepeats(m, segs, cp, c.command, c.coords).Panic? ==>
              RunChunks(m, [c] + rest, segs, cp) == Panic(RunRepeats(m, segs, cp, c.command, c.coords).reason)
    ensures RunRepeats(m, segs, cp, c.command, c.coords).Value? ==>
              var st := RunRepeats(m, segs, cp, c.command, c.coords).v;
              RunChunks(m, [c] + rest, segs, cp) == RunChunks(m, rest, AfterChunk(st), st.cp)
  {
    assert ([c] + rest)[0] == c && ([c] + rest)[1..] == rest;
  }

  /**
   * `ParseSegmentsFromSVG`: no records for empty data; otherwise the records
   * the chunk loop produces from the marked and split text, or the panic it
   * runs into.
   */
  method ParseSegmentsFromSVG(m: Measures, sc: Scanner, svgData: string) returns (r: Outcome<seq<Segment>>)
    ensures svgData == "" ==> r == Value([])
    ensures r == ParseSvg(m, sc, svgData)
    ensures r.Value? ==> Produced(r.v)
  {
    if svgData == "" {
      return Value([]);
    }
    var data := ReplaceAll(svgData, ' ', ",");
    data := MarkCommands(data);
    var segmentsData := Split(data);
    ghost var chunks := Chunks(sc, segmentsData);
    var segments: seq<Segment> := [];
    var cp := Origin;
    var i := 0;
    while i < |segmentsData|
      invariant 0 <= i <= |segmentsData|
      invariant RunChunks(m, chunks, [], Origin) == RunChunks(m, Chunks(sc, segmentsData[i..]), segments, cp)
    {
      ChunksFrom(sc, segmentsData, i);
      var segmentStr := segmentsData[i];
      if segmentStr == "" {
        i := i + 1;
        continue;
      }
      var cmdChar := segmentStr[0];
      var coords := ScanCoordinates(sc, segmentStr[1..]);
      var run := RepeatCommand(m, segments, cp, cmdChar, coords);
      RunChunksCons(m, Chunk(cmdChar, coords), Chunks(sc, segmentsData[i + 1..]), segments, cp);
      if run.Panic? {
        return Panic(run.reason);
      }
      segments := AfterChunk(run.v);
      cp := run.v.cp;
      i := i + 1;
    }
    ParseProduced(m, chunks);
    return Value(segments);
  }
}
