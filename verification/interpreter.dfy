/** The command interpreter: the render state, one step per parsed command, and the run over
    the command section of an input file. */
module Interpreter {
  import opened Results
  import opened Raster
  import opened Geometry
  import opened Transform
  import opened Tokens
  import opened Images
  import opened Variants
  import opened Commands

  /** `MAX_SIZE`: the largest width and height an input may declare. */
  const MaxSize := 1024

  /** The first command line is line 3, after the magic string and the dimensions. */
  const FirstCommandLine := 3

  /** What the loop keeps between commands: the transform, the draw colour, the background
      colour and the image, whose size never changes. */
  datatype RenderState = RenderState(width: int, height: int, matrix: Mat3,
                                     color: Color, background: Color, image: Image)

  predicate Valid(st: RenderState)
  {
    && 1 <= st.width <= MaxSize && 1 <= st.height <= MaxSize
    && Shaped(st.image, st.width, st.height)
  }

  /** The state before the first command: identity transform, black ink, white image. */
  function Initial(width: int, height: int): (st: RenderState)
    requires 1 <= width <= MaxSize && 1 <= height <= MaxSize
    ensures Valid(st) && st.width == width && st.height == height
    ensures st.matrix == Identity && st.color == Black && st.background == White
    ensures forall i, j :: 0 <= i < height && 0 <= j < width ==> st.image[i][j] == White
  {
    RenderState(width, height, Identity, Black, White, Fill(width, height, White))
  }

  /** The segments a drawing command hands to `draw_line`, in order. */
  function Segments(cmd: Command): seq<Segment>
    requires cmd.Draws() && cmd.WellFormed()
  {
    match cmd
    case Line(a, b) => [Segment(a, b)]
    case Polyline(pts) => Chain(pts)
    case Polygon(pts) => Loop(pts)
  }

  /** The segments of a `P` or `R` through the points of `flat` are those of TrabCG.py's slice
      loop over `flat`, followed for `R` by its closing segment. */
  lemma SliceLoopSegments(cmd: Command, flat: seq<int>)
    requires (cmd.Polyline? || cmd.Polygon?) && |flat| % 2 == 0 && cmd.points == Pairs(flat)
    requires cmd.Polygon? ==> |flat| >= 2
    ensures cmd.WellFormed()
    ensures Segments(cmd) == if cmd.Polyline? then SliceSegments(flat, 0) else SliceSegments(flat, 0) + [SliceClosing(flat)]
  {
    if cmd.Polyline? {
      SliceSegmentsIsChain(flat);
    } else {
      SliceClosingIsLoopEnd(flat);
    }
  }

  /** A parsed `P` or `R` of TrabCG.py hands `draw_line` exactly the segments of the source's
      slice loop over the converted coordinates after the count N, followed for `R` by the
      closing segment from `parameters[-2:]` to `parameters[:2]`. */
  lemma PointCommandSegmentsTrabCG(rd: Readers, op: char, toks: seq<string>)
    requires op == 'P' || op == 'R'
    ensures var r := ParseCommand(TrabCG, rd, op, toks);
            r.Ok? ==>
              && ReadAll(rd.toInt, toks).Some? && |toks| % 2 == 1
              && var flat := ReadAll(rd.toInt, toks).value[1..];
                 Segments(r.value) ==
                   if op == 'P' then SliceSegments(flat, 0) else SliceSegments(flat, 0) + [SliceClosing(flat)]
  {
    var r := ParseCommand(TrabCG, rd, op, toks);
    if r.Ok? {
      PointsOfTrabCG(rd, op, toks);
      var flat := ReadAll(rd.toInt, toks).value[1..];
      EvenLength(|flat|, |r.value.points|);
      SliceLoopSegments(r.value, flat);
    }
  }

  /** A parsed `P` or `R` of draw_line.py that reads its coordinates hands `draw_line` exactly
      the segments of the source's `b += 2` loop over all converted parameters, N included,
      followed for `R` by the closing segment from (params[-2], params[-1]) to
      (params[1], params[2]). */
  lemma PointCommandSegmentsDrawLinePy(rd: Readers, op: char, toks: seq<string>)
    requires op == 'P' || op == 'R'
    ensures var r := ParseCommand(DrawLinePy, rd, op, toks);
            r.Ok? && (op == 'R' || |toks| > 3) ==>
              && ReadAll(rd.toInt, toks).Some? && |toks| >= 3
              && var ints := ReadAll(rd.toInt, toks).value;
                 var n := ints[0];
                 && n >= 1 && |ints| == 2 * n + 1
                 && Segments(r.value) ==
                      if op == 'P' then StrideSegments(ints, 1, n - 1)
                      else StrideSegments(ints, 1, n - 1) + [StrideClosing(ints)]
  {
    var r := ParseCommand(DrawLinePy, rd, op, toks);
    if r.Ok? && (op == 'R' || |toks| > 3) {
      var ints := ReadAll(rd.toInt, toks).value;
      var coords := ReadAll(rd.toInt, toks[1..]).value;
      assert coords == ints[1..];
      assert r.value.points == Pairs(ints[1..]);
      if op == 'P' {
        StrideSegmentsIsChain(ints, ints[0]);
      } else {
        StrideClosingIsLoopEnd(ints, ints[0]);
      }
    }
  }

  /** `apply_matrix` would divide by a zero w at this point. */
  predicate Degenerate(m: Mat3, p: Point)
  {
    Project(m, p.x, p.y).w == 0.0
  }

  /** Where a model point is drawn: through `apply_matrix` in TrabCG.py, as given in
      draw_line.py; `None` when the homogeneous divide is by zero. */
  function DevicePoint(v: Variant, m: Mat3, p: Point): (r: Option<Point>)
    ensures !v.TransformsPoints() ==> r == Some(p)
    ensures v.TransformsPoints() ==> (r.None? <==> Degenerate(m, p))
    ensures m == Identity ==> r == Some(p)
  {
    ApplyIdentity(p.x, p.y);
    if !v.TransformsPoints() then Some(p)
    else if Degenerate(m, p) then None
    else
      var (x, y) := ApplyMatrix(m, p.x, p.y);
      Some(Point(x, y))
  }

  predicate InCanvas(p: Pixel, width: int, height: int)
  {
    0 <= p.row < height && 0 <= p.col < width
  }

  /** The error a drawing can meet in this variant. */
  predicate DrawFault(v: Variant, f: Fault)
  {
    (f == DegenerateTransform && v.TransformsPoints()) || (f == IndexOutOfRange && !v.Wraps())
  }

  /** The writes of one `draw_line` call for the segment `s`, or the error that stops it. */
  function SegmentWrites(v: Variant, m: Mat3, width: int, height: int, s: Segment): (r: Result<seq<Pixel>, Fault>)
    requires width > 0 && height > 0
    ensures r.Ok? ==> forall k :: 0 <= k < |r.value| ==> InCanvas(r.value[k], width, height)
    ensures r.Err? ==> DrawFault(v, r.error)
    ensures v.Wraps() ==> r.Ok? || r.error == DegenerateTransform
  {
    var a, b := DevicePoint(v, m, s.from), DevicePoint(v, m, s.to);
    if a.None? || b.None? then Err(DegenerateTransform)
    else if v.Wraps() then Ok(WrappedPath(width, height, a.value.x, a.value.y, b.value.x, b.value.y))
    else
      var raw := RawPath(width, height, a.value.x, a.value.y, b.value.x, b.value.y);
      if raw.None? then Err(IndexOutOfRange) else Ok(raw.value)
  }

  /** In draw_line.py a segment fails exactly when numpy rejects one of its indices, and
      otherwise writes what TrabCG.py's wrapped line would. */
  lemma SegmentWritesDrawLinePy(m: Mat3, width: int, height: int, s: Segment)
    requires width > 0 && height > 0
    ensures var r := SegmentWrites(DrawLinePy, m, width, height, s);
            && (r.Ok? <==> RawPath(width, height, s.from.x, s.from.y, s.to.x, s.to.y).Some?)
            && (r.Err? ==> r.error == IndexOutOfRange)
            && (r.Ok? ==> r.value == WrappedPath(width, height, s.from.x, s.from.y, s.to.x, s.to.y))
  {
    RawPathIsWrappedPath(width, height, s.from.x, s.from.y, s.to.x, s.to.y);
  }

  /** The writes of the `draw_line` calls for `segs`, one after the other, or the first error. */
  function Writes(v: Variant, m: Mat3, width: int, height: int, segs: seq<Segment>): (r: Result<seq<Pixel>, Fault>)
    requires width > 0 && height > 0
    ensures r.Ok? ==> forall k :: 0 <= k < |r.value| ==> InCanvas(r.value[k], width, height)
    ensures r.Err? ==> DrawFault(v, r.error)
    decreases |segs|
  {
    if segs == [] then Ok([])
    else
      match SegmentWrites(v, m, width, height, segs[0])
      case Err(f) => Err(f)
      case Ok(first) =>
        match Writes(v, m, width, height, segs[1..])
        case Err(f) => Err(f)
        case Ok(rest) => Ok(first + rest)
  }

  /** Positions inside width x height are inside an image of that shape. */
  lemma CanvasBounds(img: Image, width: int, height: int, ws: seq<Pixel>)
    requires Shaped(img, width, height)
    requires forall k :: 0 <= k < |ws| ==> InCanvas(ws[k], width, height)
    ensures AllInBounds(img, ws)
  {
  }

  /** The `draw_line` calls of a drawing command: every write of its segments in the current
      colour, or the first segment's error. */
  function Draw(v: Variant, st: RenderState, segs: seq<Segment>): (r: Result<RenderState, Fault>)
    requires Valid(st)
    ensures r.Ok? ==> Valid(r.value) && r.value.width == st.width && r.value.height == st.height
    ensures r.Err? ==> DrawFault(v, r.error)
  {
    match Writes(v, st.matrix, st.width, st.height, segs)
    case Err(f) => Err(f)
    case Ok(ws) =>
      CanvasBounds(st.image, st.width, st.height, ws);
      Ok(st.(image := Paint(st.image, ws, st.color)))
  }

  /** Drawing changes nothing but the pixels written, which take the current colour. */
  lemma DrawPaints(v: Variant, st: RenderState, segs: seq<Segment>)
    requires Valid(st)
    ensures var ws := Writes(v, st.matrix, st.width, st.height, segs);
            && (ws.Err? ==> Draw(v, st, segs) == Err(ws.error))
            && (ws.Ok? ==>
                  AllInBounds(st.image, ws.value) &&
                  Draw(v, st, segs) == Ok(st.(image := Paint(st.image, ws.value, st.color))))
  {
    var ws := Writes(v, st.matrix, st.width, st.height, segs);
    if ws.Ok? {
      CanvasBounds(st.image, st.width, st.height, ws.value);
    }
  }

  /** One command applied to the state, or the error that stops the run. */
  function Step(v: Variant, st: RenderState, cmd: Command): (r: Result<RenderState, Fault>)
    requires Valid(st) && cmd.WellFormed()
    ensures r.Ok? ==> Valid(r.value) && r.value.width == st.width && r.value.height == st.height
    ensures r.Err? ==> cmd.Draws() && DrawFault(v, r.error)
  {
    match cmd
    case Clear(c) => Ok(st.(image := Fill(st.width, st.height, c), background := c))
    case SetColor(c) => Ok(st.(color := c))
    case SetMatrix(m) => Ok(st.(matrix := m))
    case Compose(m) => Ok(st.(matrix := if v.PostMultiplies() then Mul(st.matrix, m) else Mul(m, st.matrix)))
    case _ => Draw(v, st, Segments(cmd))
  }

  /** What parsing a line can yield: an error, nothing to do, or a well-formed command. */
  predicate Parsed(p: Result<Option<Command>, Fault>)
  {
    p.Ok? && p.value.Some? ==> p.value.value.WellFormed()
  }

  /** One pass of the main loop once its line is parsed: carry out the command, if any. */
  function Perform(v: Variant, st: RenderState, p: Result<Option<Command>, Fault>): (r: Result<RenderState, Fault>)
    requires Valid(st) && Parsed(p)
    ensures r.Ok? ==> Valid(r.value) && r.value.width == st.width && r.value.height == st.height
    ensures p.Err? ==> r == Err(p.error)
    ensures p == Ok(None) ==> r == Ok(st)
    ensures p.Ok? && p.value.Some? ==> r == Step(v, st, p.value.value)
  {
    match p
    case Err(f) => Err(f)
    case Ok(None) => Ok(st)
    case Ok(Some(cmd)) => Step(v, st, cmd)
  }

  /** An error of a whole run: the line and the reason. */
  datatype Failure = Failure(line: int, fault: Fault)

  /** `readlines()` never yields an empty line. */
  predicate NonEmptyLines(lines: seq<string>)
  {
    forall i :: 0 <= i < |lines| ==> |lines[i]| > 0
  }

  /** How each line parses; a line's parse depends on nothing but the line. */
  function ParseAll(v: Variant, rd: Readers, lines: seq<string>): (ps: seq<Result<Option<Command>, Fault>>)
    requires NonEmptyLines(lines)
    ensures |ps| == |lines|
    ensures forall i :: 0 <= i < |ps| ==> Parsed(ps[i])
    decreases |lines|
  {
    if lines == [] then []
    else
      assert forall i :: 0 <= i < |lines| - 1 ==> lines[1..][i] == lines[i + 1];
      [ParseLine(v, rd, lines[0])] + ParseAll(v, rd, lines[1..])
  }

  /** Each line's entry is that line's own parse. */
  lemma {:induction false} ParseAllAt(v: Variant, rd: Readers, lines: seq<string>)
    requires NonEmptyLines(lines)
    ensures forall i :: 0 <= i < |lines| ==> ParseAll(v, rd, lines)[i] == ParseLine(v, rd, lines[i])
    decreases |lines|
  {
    if lines != [] {
      var tail := lines[1..];
      assert forall i :: 0 <= i < |tail| ==> tail[i] == lines[i + 1];
      ParseAllAt(v, rd, tail);
    }
  }

  /** The main loop over parsed lines, `lineNo` numbering the first of them; it stops at the
      first error, reporting that line. */
  function RunParsed(v: Variant, st: RenderState, ps: seq<Result<Option<Command>, Fault>>, lineNo: int): (r: Result<RenderState, Failure>)
    requires Valid(st) && forall i :: 0 <= i < |ps| ==> Parsed(ps[i])
    ensures r.Ok? ==> Valid(r.value) && r.value.width == st.width && r.value.height == st.height
    ensures r.Err? ==> lineNo <= r.error.line < lineNo + |ps|
    decreases |ps|
  {
    if ps == [] then Ok(st)
    else
      assert forall i :: 0 <= i < |ps| - 1 ==> ps[1..][i] == ps[i + 1];
      match Perform(v, st, ps[0])
      case Err(f) => Err(Failure(lineNo, f))
      case Ok(next) => RunParsed(v, next, ps[1..], lineNo + 1)
  }

  /** The main loop over the command lines: each line is parsed and carried out in turn. */
  function Run(v: Variant, rd: Readers, st: RenderState, lines: seq<string>, lineNo: int): (r: Result<RenderState, Failure>)
    requires Valid(st) && NonEmptyLines(lines)
    ensures r.Ok? ==> Valid(r.value) && r.value.width == st.width && r.value.height == st.height
    ensures r.Err? ==> lineNo <= r.error.line < lineNo + |lines|
  {
    RunParsed(v, st, ParseAll(v, rd, lines), lineNo)
  }

  /** The command section of an input whose header declared `width` x `height`. */
  function Render(v: Variant, rd: Readers, width: int, height: int, lines: seq<string>): (r: Result<RenderState, Failure>)
    requires 1 <= width <= MaxSize && 1 <= height <= MaxSize && NonEmptyLines(lines)
    ensures r.Ok? ==> Valid(r.value) && r.value.width == width && r.value.height == height
    ensures r.Err? ==> FirstCommandLine <= r.error.line < FirstCommandLine + |lines|
    ensures lines == [] ==> r == Ok(Initial(width, height))
  {
    Run(v, rd, Initial(width, height), lines, FirstCommandLine)
  }

  /** One pass of the loop over parsed lines: the first parse is performed and the rest run
      from the resulting state and the next line number; a failing first pass stops the run
      with its own line number. */
  lemma RunParsedFirst(v: Variant, st: RenderState, ps: seq<Result<Option<Command>, Fault>>, lineNo: int)
    requires Valid(st) && |ps| > 0 && forall i :: 0 <= i < |ps| ==> Parsed(ps[i])
    ensures forall i :: 0 <= i < |ps[1..]| ==> Parsed(ps[1..][i])
    ensures RunParsed(v, st, ps, lineNo) ==
              match Perform(v, st, ps[0])
              case Err(f) => Err(Failure(lineNo, f))
              case Ok(next) => RunParsed(v, next, ps[1..], lineNo + 1)
  {
    assert forall i :: 0 <= i < |ps| - 1 ==> ps[1..][i] == ps[i + 1];
  }

  /** The parse of a line in front of others is that line's parse in front of theirs. */
  lemma ParseAllFirst(v: Variant, rd: Readers, line: string, rest: seq<string>)
    requires |line| > 0 && NonEmptyLines(rest)
    ensures NonEmptyLines([line] + rest)
    ensures ParseAll(v, rd, [line] + rest) == [ParseLine(v, rd, line)] + ParseAll(v, rd, rest)
  {
    var lines := [line] + rest;
    assert lines[0] == line && lines[1..] == rest;
  }

  /** The main loop carries out each line in turn: a line that fails to parse, or whose
      command fails, stops the run with that line's number; a skipped line leaves the state
      alone; otherwise the command's step gives the state the remaining lines run from. */
  lemma RunFirstLine(v: Variant, rd: Readers, st: RenderState, line: string, rest: seq<string>, lineNo: int)
    requires Valid(st) && |line| > 0 && NonEmptyLines(rest)
    ensures NonEmptyLines([line] + rest)
    ensures Run(v, rd, st, [line] + rest, lineNo) ==
              match ParseLine(v, rd, line)
              case Err(f) => Err(Failure(lineNo, f))
              case Ok(None) => Run(v, rd, st, rest, lineNo + 1)
              case Ok(Some(cmd)) =>
                match Step(v, st, cmd)
                case Err(f) => Err(Failure(lineNo, f))
                case Ok(next) => Run(v, rd, next, rest, lineNo + 1)
  {
    ParseAllFirst(v, rd, line, rest);
    var ps := ParseAll(v, rd, [line] + rest);
    RunParsedFirst(v, st, ps, lineNo);
    assert ps[0] == ParseLine(v, rd, line) && ps[1..] == ParseAll(v, rd, rest);
  }

  /** The first line of a command section is read against the initial state (identity
      transform, black ink, white image) with line number 3: it stops the run with its own
      fault, is skipped, or is carried out by `Step`, and the rest of the section runs from the
      state it leaves, numbered from 4. */
  lemma RenderFirstLine(v: Variant, rd: Readers, width: int, height: int, line: string, rest: seq<string>)
    requires 1 <= width <= MaxSize && 1 <= height <= MaxSize && |line| > 0 && NonEmptyLines(rest)
    ensures NonEmptyLines([line] + rest)
    ensures Render(v, rd, width, height, [line] + rest) ==
              match ParseLine(v, rd, line)
              case Err(f) => Err(Failure(FirstCommandLine, f))
              case Ok(None) => Run(v, rd, Initial(width, height), rest, FirstCommandLine + 1)
              case Ok(Some(cmd)) =>
                match Step(v, Initial(width, height), cmd)
                case Err(f) => Err(Failure(FirstCommandLine, f))
                case Ok(next) => Run(v, rd, next, rest, FirstCommandLine + 1)
  {
    RunFirstLine(v, rd, Initial(width, height), line, rest, FirstCommandLine);
  }

  /** The four writes of the line from model (0, 0) to (3, 3) on a 4 x 4 image. */
  const Diagonal: seq<Pixel> := [Pixel(3, 0), Pixel(2, 1), Pixel(1, 2), Pixel(0, 3)]

  /** TrabCG.py's wrapped writes of that line are the line's own writes. */
  lemma DiagonalWrapped()
    ensures WrappedPath(4, 4, 0, 0, 3, 3) == Diagonal
  {
    DiagonalOnFourByFour();
    var w := WrappedPath(4, 4, 0, 0, 3, 3);
    forall k | 0 <= k < 4
      ensures w[k] == Diagonal[k]
    {
      WrapInside(Diagonal[k], 4, 4);
    }
  }

  /** Under the identity on a 4 x 4 image, both programs write the line from (0, 0) to (3, 3)
      as those four pixels. */
  lemma DiagonalWrites(v: Variant)
    ensures SegmentWrites(v, Identity, 4, 4, Segment(Point(0, 0), Point(3, 3))) == Ok(Diagonal)
  {
    var s := Segment(Point(0, 0), Point(3, 3));
    DiagonalWrapped();
    if !v.Wraps() {
      SegmentWritesDrawLinePy(Identity, 4, 4, s);
      DiagonalOnFourByFour();
      RawPathInside(4, 4, 0, 0, 3, 3);
    }
  }

  /** Under the identity on a 4 x 4 image, `L 0 0 3 3` paints the anti-diagonal of storage
      rows in the current colour, in both programs. */
  lemma DiagonalLineStep(v: Variant, st: RenderState)
    requires Valid(st) && st.width == 4 && st.height == 4 && st.matrix == Identity
    ensures AllInBounds(st.image, Diagonal)
    ensures Step(v, st, Line(Point(0, 0), Point(3, 3))) == Ok(st.(image := Paint(st.image, Diagonal, st.color)))
  {
    LineStepPaints(v, st, Segment(Point(0, 0), Point(3, 3)));
    DiagonalWrites(v);
  }

  /** The text of `C 255 0 0` as `readlines` returns it mid-file, written as opcode, words and
      newline. */
  lemma RedLineText()
    ensures CommandLine('C', ["255", "0", "0"], "\n") == "C 255 0 0\n"
    ensures forall i :: 0 <= i < 3 ==> IsWord(["255", "0", "0"][i])
  {
    assert Join(["0"]) == "0";
    assert Join(["0", "0"]) == "0 0";
    assert Join(["255", "0", "0"]) == "255 0 0";
  }

  /** The text of `L 0 0 3 3` as `readlines` returns it mid-file, written as opcode, words and
      newline. */
  lemma DiagonalLineText()
    ensures CommandLine('L', ["0", "0", "3", "3"], "\n") == "L 0 0 3 3\n"
    ensures forall i :: 0 <= i < 4 ==> IsWord(["0", "0", "3", "3"][i])
  {
    assert Join(["3"]) == "3";
    assert Join(["3", "3"]) == "3 3";
    assert Join(["0", "3", "3"]) == "0 3 3";
    assert Join(["0", "0", "3", "3"]) == "0 0 3 3";
  }

  /** A written command line that fits parses to whatever its opcode and words parse to. Stated
      with the line as a variable, so that the concrete lines below are not unfolded by the
      parser's definitions, which keeps their proofs within the resource limit. */
  lemma LineParsesAs(v: Variant, rd: Readers, line: string, op: char, toks: seq<string>, end: string, cmd: Command)
    requires IsBlank(end) && line == CommandLine(op, toks, end) && |line| <= MaxLineLen
    requires op != '#' && !IsSpace(op)
    requires forall i :: 0 <= i < |toks| ==> IsWord(toks[i])
    requires ParseCommand(v, rd, op, toks) == Ok(cmd)
    ensures ParseLine(v, rd, line) == Ok(Some(cmd))
  {
    ParseCommandLine(v, rd, op, toks, end);
  }

  /** The words of `C 255 0 0` give red. */
  lemma RedCommand(v: Variant, rd: Readers)
    requires rd.toChannel("255") == Some(255) && rd.toChannel("0") == Some(0)
    ensures ParseCommand(v, rd, 'C', ["255", "0", "0"]) == Ok(SetColor(Color(255, 0, 0)))
  {
    ColorCommandValue(v, rd, 'C', ["255", "0", "0"]);
  }

  /** `C 255 0 0` sets red, in both programs. */
  lemma RedLineParses(v: Variant, rd: Readers)
    requires rd.toChannel("255") == Some(255) && rd.toChannel("0") == Some(0)
    ensures ParseLine(v, rd, "C 255 0 0\n") == Ok(Some(SetColor(Color(255, 0, 0))))
  {
    RedLineText();
    RedCommand(v, rd);
    LineParsesAs(v, rd, "C 255 0 0\n", 'C', ["255", "0", "0"], "\n", SetColor(Color(255, 0, 0)));
  }

  /** The words of `L 0 0 3 3` give the segment from (0, 0) to (3, 3). */
  lemma DiagonalCommand(v: Variant, rd: Readers)
    requires rd.toInt("0") == Some(0) && rd.toInt("3") == Some(3)
    ensures ParseCommand(v, rd, 'L', ["0", "0", "3", "3"]) == Ok(Line(Point(0, 0), Point(3, 3)))
  {
    LineCommandValue(v, rd, ["0", "0", "3", "3"]);
  }

  /** `L 0 0 3 3` reads its four integers, in both programs. */
  lemma DiagonalLineParses(v: Variant, rd: Readers)
    requires rd.toInt("0") == Some(0) && rd.toInt("3") == Some(3)
    ensures ParseLine(v, rd, "L 0 0 3 3\n") == Ok(Some(Line(Point(0, 0), Point(3, 3))))
  {
    DiagonalLineText();
    DiagonalCommand(v, rd);
    LineParsesAs(v, rd, "L 0 0 3 3\n", 'L', ["0", "0", "3", "3"], "\n", Line(Point(0, 0), Point(3, 3)));
  }

  /** The run of the single line `L 0 0 3 3` from a 4 x 4 state under the identity. */
  lemma RunDiagonalLine(v: Variant, rd: Readers, st: RenderState, lineNo: int)
    requires rd.toInt("0") == Some(0) && rd.toInt("3") == Some(3)
    requires Valid(st) && st.width == 4 && st.height == 4 && st.matrix == Identity
    ensures AllInBounds(st.image, Diagonal)
    ensures Run(v, rd, st, ["L 0 0 3 3\n"], lineNo) == Ok(st.(image := Paint(st.image, Diagonal, st.color)))
  {
    DiagonalLineParses(v, rd);
    DiagonalLineStep(v, st);
    RunFirstLine(v, rd, st, "L 0 0 3 3\n", [], lineNo);
    assert ["L 0 0 3 3\n"] == ["L 0 0 3 3\n"] + [];
    var next := st.(image := Paint(st.image, Diagonal, st.color));
    assert Run(v, rd, next, [], lineNo + 1) == Ok(next);
  }

  /** Painting the four writes of the line in `c` over an all-white 4 x 4 image. */
  lemma DiagonalOnWhite(img: Image, c: Color)
    requires Shaped(img, 4, 4) && forall i, j :: 0 <= i < 4 && 0 <= j < 4 ==> img[i][j] == White
    requires AllInBounds(img, Diagonal)
    ensures var r := Paint(img, Diagonal, c);
            Shaped(r, 4, 4) && forall i, j :: 0 <= i < 4 && 0 <= j < 4 ==> r[i][j] == if i + j == 3 then c else White
  {
    DiagonalCells();
  }

  /** The four writes are exactly the positions of the 4 x 4 image whose row and column add up
      to 3. */
  lemma DiagonalCells()
    ensures forall i, j :: 0 <= i < 4 && 0 <= j < 4 ==> (Pixel(i, j) in Diagonal <==> i + j == 3)
  {
    forall i, j | 0 <= i < 4 && 0 <= j < 4
      ensures Pixel(i, j) in Diagonal <==> i + j == 3
    {
    }
  }

  /** The whole run of a 4 x 4 input holding `C 255 0 0` and `L 0 0 3 3`: starting from the
      white initial image, exactly the four pixels of the line are red. */
  lemma RenderDiagonal(v: Variant, rd: Readers)
    requires rd.toChannel("255") == Some(255) && rd.toChannel("0") == Some(0)
    requires rd.toInt("0") == Some(0) && rd.toInt("3") == Some(3)
    ensures var r := Render(v, rd, 4, 4, ["C 255 0 0\n", "L 0 0 3 3\n"]);
            && r.Ok?
            && forall i, j :: 0 <= i < 4 && 0 <= j < 4 ==>
                 r.value.image[i][j] == if i + j == 3 then Color(255, 0, 0) else White
  {
    var st0 := Initial(4, 4);
    RenderDiagonalState(v, rd);
    DiagonalOnWhite(st0.image, Color(255, 0, 0));
  }

  /** The state that run ends in: red ink, and the line's writes painted red over the initial
      image. */
  lemma RenderDiagonalState(v: Variant, rd: Readers)
    requires rd.toChannel("255") == Some(255) && rd.toChannel("0") == Some(0)
    requires rd.toInt("0") == Some(0) && rd.toInt("3") == Some(3)
    ensures AllInBounds(Initial(4, 4).image, Diagonal)
    ensures Render(v, rd, 4, 4, ["C 255 0 0\n", "L 0 0 3 3\n"]) ==
              Ok(Initial(4, 4).(color := Color(255, 0, 0),
                                image := Paint(Initial(4, 4).image, Diagonal, Color(255, 0, 0))))
  {
    var red := Color(255, 0, 0);
    var st0 := Initial(4, 4);
    RedLineParses(v, rd);
    RunDiagonalLine(v, rd, st0.(color := red), FirstCommandLine + 1);
    RenderColorThenLine(v, rd, 4, 4, "C 255 0 0\n", "L 0 0 3 3\n", red, st0.(color := red, image := Paint(st0.image, Diagonal, red)));
  }

  /** Drawing before any `C` uses the default black ink under the identity transform: a 4 x 4
      input holding only `L 0 0 3 3` leaves exactly the four pixels of the line black on the
      white initial image. */
  lemma RenderBlackDiagonal(v: Variant, rd: Readers)
    requires rd.toInt("0") == Some(0) && rd.toInt("3") == Some(3)
    ensures var r := Render(v, rd, 4, 4, ["L 0 0 3 3\n"]);
            && r.Ok?
            && forall i, j :: 0 <= i < 4 && 0 <= j < 4 ==>
                 r.value.image[i][j] == if i + j == 3 then Black else White
  {
    BlackDiagonalState(v, rd);
    DiagonalOnWhite(Initial(4, 4).image, Black);
  }

  /** The state that run ends in: the line's writes painted black over the initial image. */
  lemma BlackDiagonalState(v: Variant, rd: Readers)
    requires rd.toInt("0") == Some(0) && rd.toInt("3") == Some(3)
    ensures AllInBounds(Initial(4, 4).image, Diagonal)
    ensures Render(v, rd, 4, 4, ["L 0 0 3 3\n"]) ==
              Ok(Initial(4, 4).(image := Paint(Initial(4, 4).image, Diagonal, Black)))
  {
    RunDiagonalLine(v, rd, Initial(4, 4), FirstCommandLine);
  }

  /** Two lines are the first line followed by the second; stated apart so that this sequence
      equality is proved without `Run` in scope, which keeps `RenderColorThenLine` within the
      resource limit. */
  lemma TwoLines(first: string, second: string)
    ensures [first, second] == [first] + [second]
  {
  }

  /** An input whose section sets the colour on its first line and then has one more line
      renders as that line run from the initial state in the new colour. */
  lemma RenderColorThenLine(v: Variant, rd: Readers, width: int, height: int, first: string, second: string,
                            c: Color, st: RenderState)
    requires 1 <= width <= MaxSize && 1 <= height <= MaxSize && |first| > 0 && |second| > 0
    requires ParseLine(v, rd, first) == Ok(Some(SetColor(c)))
    requires Run(v, rd, Initial(width, height).(color := c), [second], FirstCommandLine + 1) == Ok(st)
    ensures NonEmptyLines([first, second])
    ensures Render(v, rd, width, height, [first, second]) == Ok(st)
  {
    TwoLines(first, second);
    RunSetColorFirst(v, rd, Initial(width, height), c, first, [second], FirstCommandLine);
  }

  /** A first line that sets the colour changes only the colour before the rest runs. */
  lemma RunSetColorFirst(v: Variant, rd: Readers, st: RenderState, c: Color, line: string, rest: seq<string>, lineNo: int)
    requires Valid(st) && |line| > 0 && NonEmptyLines(rest)
    requires ParseLine(v, rd, line) == Ok(Some(SetColor(c)))
    ensures NonEmptyLines([line] + rest)
    ensures Run(v, rd, st, [line] + rest, lineNo) == Run(v, rd, st.(color := c), rest, lineNo + 1)
  {
    RunFirstLine(v, rd, st, line, rest, lineNo);
    assert Step(v, st, SetColor(c)) == Ok(st.(color := c));
  }

  /** `c`: every position of the image takes the colour, which also becomes the background;
      the transform and the draw colour stay. */
  lemma ClearFillsImage(v: Variant, st: RenderState, c: Color)
    requires Valid(st)
    ensures var r := Step(v, st, Clear(c));
            && r.Ok? && r.value.background == c
            && r.value.matrix == st.matrix && r.value.color == st.color
            && forall i, j :: 0 <= i < st.height && 0 <= j < st.width ==> r.value.image[i][j] == c
  {
  }

  /** `C`, `M` and `m` change only their own field of the state; the image is untouched. */
  lemma SettingsKeepImage(v: Variant, st: RenderState, cmd: Command)
    requires Valid(st) && (cmd.SetColor? || cmd.SetMatrix? || cmd.Compose?)
    ensures var r := Step(v, st, cmd);
            && r.Ok? && r.value.image == st.image && r.value.background == st.background
            && (cmd.SetColor? ==> r.value == st.(color := cmd.color))
            && (!cmd.SetColor? ==> r.value.color == st.color)
            && (cmd.SetMatrix? ==> r.value == st.(matrix := cmd.matrix))
  {
  }

  /** Composing with the identity leaves the state as it was, in either multiplication order. */
  lemma ComposeWithIdentity(v: Variant, st: RenderState)
    requires Valid(st)
    ensures Step(v, st, Compose(Identity)) == Ok(st)
  {
    MulIdentity(st.matrix);
  }

  /** After `m a` then `m b`, TrabCG.py's product applies `b` to a point first, then `a`, then
      the earlier transform; draw_line.py's pre-multiplied product applies the earlier
      transform first, then `a`, then `b`. */
  lemma {:induction false} ComposeOrder(v: Variant, st: RenderState, a: Mat3, b: Mat3, p: Vec3)
    requires Valid(st)
    ensures var s1 := Step(v, st, Compose(a));
            s1.Ok? &&
            var s2 := Step(v, s1.value, Compose(b));
            && s2.Ok?
            && (v.PostMultiplies() ==> Apply(s2.value.matrix, p) == Apply(st.matrix, Apply(a, Apply(b, p))))
            && (!v.PostMultiplies() ==> Apply(s2.value.matrix, p) == Apply(b, Apply(a, Apply(st.matrix, p))))
  {
    var m := st.matrix;
    if v.PostMultiplies() {
      MulIsComposition(Mul(m, a), b, p);
      MulIsComposition(m, a, Apply(b, p));
    } else {
      MulIsComposition(b, Mul(a, m), p);
      MulIsComposition(a, m, p);
    }
  }

  /** Without the transform, the writes of a command do not depend on the matrix. */
  lemma {:induction false} RawWritesIgnoreMatrix(m1: Mat3, m2: Mat3, width: int, height: int, segs: seq<Segment>)
    requires width > 0 && height > 0
    ensures Writes(DrawLinePy, m1, width, height, segs) == Writes(DrawLinePy, m2, width, height, segs)
    decreases |segs|
  {
    if segs != [] {
      RawWritesIgnoreMatrix(m1, m2, width, height, segs[1..]);
    }
  }

  /** draw_line.py never applies the transform: a drawing command has the same outcome whatever
      matrix the state holds. */
  lemma DrawLinePyIgnoresMatrix(st: RenderState, m: Mat3, cmd: Command)
    requires Valid(st) && cmd.Draws() && cmd.WellFormed()
    ensures Step(DrawLinePy, st.(matrix := m), cmd) ==
              match Step(DrawLinePy, st, cmd)
              case Err(f) => Err(f)
              case Ok(next) => Ok(next.(matrix := m))
  {
    RawWritesIgnoreMatrix(st.matrix, m, st.width, st.height, Segments(cmd));
  }

  /** The writes of a single segment are that segment's writes. */
  lemma WritesOfOne(v: Variant, m: Mat3, width: int, height: int, s: Segment)
    requires width > 0 && height > 0
    ensures Writes(v, m, width, height, [s]) == SegmentWrites(v, m, width, height, s)
  {
    var segs := [s];
    assert segs[1..] == [];
    match SegmentWrites(v, m, width, height, s)
    case Err(f) =>
    case Ok(first) =>
      assert first + [] == first;
  }

  /** An `L` command paints the writes of its one segment. */
  lemma LineStepPaints(v: Variant, st: RenderState, s: Segment)
    requires Valid(st)
    ensures var ws := SegmentWrites(v, st.matrix, st.width, st.height, s);
            && (ws.Err? ==> Step(v, st, Line(s.from, s.to)) == Err(ws.error))
            && (ws.Ok? ==>
                  AllInBounds(st.image, ws.value) &&
                  Step(v, st, Line(s.from, s.to)) == Ok(st.(image := Paint(st.image, ws.value, st.color))))
  {
    var cmd := Line(s.from, s.to);
    assert Segments(cmd) == [s];
    assert Step(v, st, cmd) == Draw(v, st, [s]);
    WritesOfOne(v, st.matrix, st.width, st.height, s);
    DrawPaints(v, st, [s]);
  }

  /** `L` in TrabCG.py: both endpoints go through `apply_matrix`, then the wrapped line is drawn
      in the current colour; a zero homogeneous w at either endpoint stops the run. */
  lemma LineStepTrabCG(st: RenderState, a: Point, b: Point)
    requires Valid(st)
    ensures var r := Step(TrabCG, st, Line(a, b));
            && (r.Err? <==> Degenerate(st.matrix, a) || Degenerate(st.matrix, b))
            && (r.Err? ==> r.error == DegenerateTransform)
            && (r.Ok? ==>
                  var (x0, y0) := ApplyMatrix(st.matrix, a.x, a.y);
                  var (x1, y1) := ApplyMatrix(st.matrix, b.x, b.y);
                  r.value == st.(image := DrawWrapped(st.image, st.width, st.height, x0, y0, x1, y1, st.color)))
  {
    LineStepPaints(TrabCG, st, Segment(a, b));
  }

  /** `L` in draw_line.py: the line between the given endpoints as numpy indexes it, in the
      current colour; an index numpy rejects stops the run. */
  lemma LineStepDrawLinePy(st: RenderState, a: Point, b: Point)
    requires Valid(st)
    ensures Step(DrawLinePy, st, Line(a, b)) ==
              match DrawRaw(st.image, st.width, st.height, a.x, a.y, b.x, b.y, st.color)
              case None => Err(IndexOutOfRange)
              case Some(img) => Ok(st.(image := img))
  {
    LineStepPaints(DrawLinePy, st, Segment(a, b));
  }

  /** Under the identity transform, wherever draw_line.py's `L` succeeds TrabCG.py's draws the
      same image. */
  lemma LineVariantsAgree(st: RenderState, a: Point, b: Point)
    requires Valid(st) && st.matrix == Identity
    ensures Step(DrawLinePy, st, Line(a, b)).Ok? ==> Step(TrabCG, st, Line(a, b)) == Step(DrawLinePy, st, Line(a, b))
  {
    var s := Segment(a, b);
    LineStepPaints(DrawLinePy, st, s);
    LineStepPaints(TrabCG, st, s);
    SegmentWritesDrawLinePy(st.matrix, st.width, st.height, s);
    assert SegmentWrites(TrabCG, st.matrix, st.width, st.height, s) == Ok(WrappedPath(st.width, st.height, a.x, a.y, b.x, b.y));
  }

  /** The segments drawn one `L` command at a time. */
  function DrawSegments(v: Variant, st: RenderState, segs: seq<Segment>): (r: Result<RenderState, Fault>)
    requires Valid(st)
    ensures r.Ok? ==> Valid(r.value) && r.value.width == st.width && r.value.height == st.height
    ensures r.Ok? ==> r.value.matrix == st.matrix && r.value.color == st.color
    decreases |segs|
  {
    if segs == [] then Ok(st)
    else
      match Step(v, st, Line(segs[0].from, segs[0].to))
      case Err(f) => Err(f)
      case Ok(next) => DrawSegments(v, next, segs[1..])
  }

  /** Drawing segment by segment paints, in order, exactly the writes of all the segments, and
      stops with the first segment's error. */
  lemma {:induction false} DrawSegmentsPaintsWrites(v: Variant, st: RenderState, segs: seq<Segment>)
    requires Valid(st)
    ensures var ws := Writes(v, st.matrix, st.width, st.height, segs);
            && (ws.Err? ==> DrawSegments(v, st, segs) == Err(ws.error))
            && (ws.Ok? ==>
                  AllInBounds(st.image, ws.value) &&
                  DrawSegments(v, st, segs) == Ok(st.(image := Paint(st.image, ws.value, st.color))))
    decreases |segs|
  {
    var ws := Writes(v, st.matrix, st.width, st.height, segs);
    if ws.Ok? {
      CanvasBounds(st.image, st.width, st.height, ws.value);
    }
    if segs != [] {
      LineStepPaints(v, st, segs[0]);
      var first := SegmentWrites(v, st.matrix, st.width, st.height, segs[0]);
      if first.Ok? {
        var next := st.(image := Paint(st.image, first.value, st.color));
        DrawSegmentsPaintsWrites(v, next, segs[1..]);
        var rest := Writes(v, st.matrix, st.width, st.height, segs[1..]);
        if rest.Ok? {
          CanvasBounds(st.image, st.width, st.height, rest.value);
          PaintConcat(st.image, first.value, rest.value, st.color);
        }
      }
    }
  }

  /** `P` and `R` draw like the `L` commands of their segments issued one after the other. */
  lemma PointCommandIsLines(v: Variant, st: RenderState, cmd: Command)
    requires Valid(st) && cmd.Draws() && cmd.WellFormed()
    ensures Step(v, st, cmd) == DrawSegments(v, st, Segments(cmd))
  {
    DrawSegmentsPaintsWrites(v, st, Segments(cmd));
  }

  /** Drawing `a + b` segment by segment is drawing `a`, then `b` from where `a` left off. */
  lemma {:induction false} DrawSegmentsAppend(v: Variant, st: RenderState, a: seq<Segment>, b: seq<Segment>)
    requires Valid(st)
    ensures DrawSegments(v, st, a + b) ==
              match DrawSegments(v, st, a)
              case Err(f) => Err(f)
              case Ok(mid) => DrawSegments(v, mid, b)
    decreases |a|
  {
    if a == [] {
      assert a + b == b;
    } else {
      assert (a + b)[0] == a[0] && (a + b)[1..] == a[1..] + b;
      match Step(v, st, Line(a[0].from, a[0].to))
      case Err(f) =>
      case Ok(next) =>
        DrawSegmentsAppend(v, next, a[1..], b);
    }
  }

  /** `R` draws the polyline through its points and then the closing segment from the last
      point back to the first. */
  lemma PolygonIsPolylineThenClosing(v: Variant, st: RenderState, pts: seq<Point>)
    requires Valid(st) && |pts| >= 1
    ensures Step(v, st, Polygon(pts)) ==
              match Step(v, st, Polyline(pts))
              case Err(f) => Err(f)
              case Ok(mid) => Step(v, mid, Line(pts[|pts| - 1], pts[0]))
  {
    var chain, closing := Chain(pts), [Segment(pts[|pts| - 1], pts[0])];
    assert Segments(Polygon(pts)) == chain + closing;
    assert Segments(Polyline(pts)) == chain;
    PointCommandIsLines(v, st, Polygon(pts));
    PointCommandIsLines(v, st, Polyline(pts));
    DrawSegmentsAppend(v, st, chain, closing);
    match Step(v, st, Polyline(pts))
    case Err(f) =>
    case Ok(mid) =>
      assert closing[1..] == [];
      match Step(v, mid, Line(pts[|pts| - 1], pts[0]))
      case Err(f) =>
      case Ok(last) =>
  }

  /** Parsed lines stay parsed when put one after the other. */
  lemma ParsedConcat(a: seq<Result<Option<Command>, Fault>>, b: seq<Result<Option<Command>, Fault>>)
    requires forall i :: 0 <= i < |a| ==> Parsed(a[i])
    requires forall i :: 0 <= i < |b| ==> Parsed(b[i])
    ensures forall i :: 0 <= i < |a + b| ==> Parsed((a + b)[i])
  {
    forall i | 0 <= i < |a + b|
      ensures Parsed((a + b)[i])
    {
      if i >= |a| {
        assert (a + b)[i] == b[i - |a|];
      }
    }
  }

  /** Running the parsed lines `a + b` runs `a`, then `b` from the state `a` left and the line
      after it. */
  lemma {:induction false} RunParsedAppend(v: Variant, st: RenderState, a: seq<Result<Option<Command>, Fault>>,
                                           b: seq<Result<Option<Command>, Fault>>, lineNo: int)
    requires Valid(st)
    requires forall i :: 0 <= i < |a| ==> Parsed(a[i])
    requires forall i :: 0 <= i < |b| ==> Parsed(b[i])
    ensures forall i :: 0 <= i < |a + b| ==> Parsed((a + b)[i])
    ensures RunParsed(v, st, a + b, lineNo) ==
              match RunParsed(v, st, a, lineNo)
              case Err(f) => Err(f)
              case Ok(mid) => RunParsed(v, mid, b, lineNo + |a|)
    decreases |a|
  {
    ParsedConcat(a, b);
    if a == [] {
      assert a + b == b;
    } else {
      var tail := a[1..];
      assert (a + b)[0] == a[0] && (a + b)[1..] == tail + b;
      assert forall i :: 0 <= i < |tail| ==> tail[i] == a[i + 1];
      var first := Perform(v, st, a[0]);
      if first.Ok? {
        RunParsedAppend(v, first.value, tail, b, lineNo + 1);
      }
    }
  }

  /** A parsed line that is an error stops the run there, reporting its own line number and
      fault, whatever follows it, once the lines before it have run through. */
  lemma {:induction false} RunParsedStopsAt(v: Variant, st: RenderState, ps: seq<Result<Option<Command>, Fault>>,
                                            k: nat, lineNo: int)
    requires Valid(st) && forall i :: 0 <= i < |ps| ==> Parsed(ps[i])
    requires k < |ps| && ps[k].Err?
    requires RunParsed(v, st, ps[..k], lineNo).Ok?
    ensures RunParsed(v, st, ps, lineNo) == Err(Failure(lineNo + k, ps[k].error))
    decreases k
  {
    if k > 0 {
      var tail := ps[1..];
      assert forall i :: 0 <= i < |tail| ==> tail[i] == ps[i + 1];
      assert ps[..k][0] == ps[0] && ps[..k][1..] == tail[..k - 1];
      var next := Perform(v, st, ps[0]).value;
      RunParsedStopsAt(v, next, tail, k - 1, lineNo + 1);
    }
  }

  /** The parse of the first lines is the start of the parse of all of them. */
  lemma ParseAllPrefix(v: Variant, rd: Readers, lines: seq<string>, k: nat)
    requires NonEmptyLines(lines) && k <= |lines|
    ensures NonEmptyLines(lines[..k])
    ensures ParseAll(v, rd, lines[..k]) == ParseAll(v, rd, lines)[..k]
  {
    ParseAllAt(v, rd, lines);
    ParseAllAt(v, rd, lines[..k]);
  }

  /** A line that does not parse stops the run there, reporting its own line number and the
      fault, whatever follows it. */
  lemma RunStopsAtBadLine(v: Variant, rd: Readers, st: RenderState, lines: seq<string>, k: nat, lineNo: int)
    requires Valid(st) && NonEmptyLines(lines)
    requires k < |lines| && ParseLine(v, rd, lines[k]).Err?
    requires Run(v, rd, st, lines[..k], lineNo).Ok?
    ensures Run(v, rd, st, lines, lineNo) == Err(Failure(lineNo + k, ParseLine(v, rd, lines[k]).error))
  {
    var ps := ParseAll(v, rd, lines);
    ParseAllPrefix(v, rd, lines, k);
    ParseAllAt(v, rd, lines);
    RunParsedStopsAt(v, st, ps, k, lineNo);
  }

  /** Comment lines (`#` first) and blank lines leave the state as it was. */
  lemma {:induction false} RunParsedSkipsNothing(v: Variant, st: RenderState, ps: seq<Result<Option<Command>, Fault>>, lineNo: int)
    requires Valid(st) && forall i :: 0 <= i < |ps| ==> ps[i] == Ok(None)
    ensures RunParsed(v, st, ps, lineNo) == Ok(st)
    decreases |ps|
  {
    if ps != [] {
      assert forall i :: 0 <= i < |ps| - 1 ==> ps[1..][i] == ps[i + 1];
      RunParsedSkipsNothing(v, st, ps[1..], lineNo + 1);
    }
  }

  /** Comment lines (`#` first) and blank lines leave the state as it was. */
  lemma RunSkipsComments(v: Variant, rd: Readers, st: RenderState, lines: seq<string>, lineNo: int)
    requires Valid(st)
    requires forall i :: 0 <= i < |lines| ==>
               |lines[i]| > 0 && (lines[i][0] == '#' || (|lines[i]| <= MaxLineLen && IsBlank(lines[i])))
    ensures Run(v, rd, st, lines, lineNo) == Ok(st)
  {
    ParseAllAt(v, rd, lines);
    RunParsedSkipsNothing(v, st, ParseAll(v, rd, lines), lineNo);
  }
}
