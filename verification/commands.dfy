/** Reading one input line into a command: comment, blank and over-long lines, the opcode, and
    the per-opcode parameter count. */
module Commands {
  import opened Results
  import opened Geometry
  import opened Transform
  import opened Tokens
  import opened Images
  import opened Variants

  /** `MAX_LINE_LEN`: 10240 characters minus the C string terminator. */
  const MaxLineLen := 10239

  /** `CHANNELS_N`: parameters of `c` and `C`. */
  const ChannelsN := 3

  /** Parameters of `M` and `m`. */
  const MatrixN := 9

  /** Parameters of `L`. */
  const LineN := 4

  /** Conversion of one token: Python's `int()`, numpy's float64 and uint8 conversions.
      `None` stands for the exception a malformed token raises. */
  datatype Readers = Readers(toInt: string -> Option<int>,
                             toReal: string -> Option<real>,
                             toChannel: string -> Option<Channel>)

  datatype Command =
    | Clear(color: Color)               // c
    | SetColor(color: Color)            // C
    | SetMatrix(matrix: Mat3)           // M
    | Compose(matrix: Mat3)             // m
    | Line(from: Point, to: Point)      // L
    | Polyline(points: seq<Point>)      // P
    | Polygon(points: seq<Point>)       // R
  {
    function Opcode(): char
    {
      match this
      case Clear(_) => 'c'
      case SetColor(_) => 'C'
      case SetMatrix(_) => 'M'
      case Compose(_) => 'm'
      case Line(_, _) => 'L'
      case Polyline(_) => 'P'
      case Polygon(_) => 'R'
    }

    /** The drawing commands, which end in `draw_line` calls. */
    predicate Draws()
    {
      Line? || Polyline? || Polygon?
    }

    /** A polygon has at least one point (with none, both sources fail on the closing segment). */
    predicate WellFormed()
    {
      Polygon? ==> |points| >= 1
    }
  }

  /** Why a run stops. Every one ends the program with an error and no image. */
  datatype Fault =
    | LineTooLong
    | WrongArity(op: char, expected: int, got: int)
    | UnknownCommand(op: char)
    | Malformed(op: char)            // an exception: a token that does not convert, a missing count, `R 0`
    | DegenerateTransform            // apply_matrix with w == 0: int() of an infinity or a NaN
    | IndexOutOfRange                // draw_line.py writing outside numpy's accepted index range

  /** Every token converted, or `None` if any conversion fails. */
  function ReadAll<T>(read: string -> Option<T>, toks: seq<string>): (r: Option<seq<T>>)
    ensures r.Some? <==> forall i :: 0 <= i < |toks| ==> read(toks[i]).Some?
    ensures r.Some? ==> |r.value| == |toks| && forall i :: 0 <= i < |toks| ==> r.value[i] == read(toks[i]).value
    decreases |toks|
  {
    if toks == [] then Some([])
    else
      match read(toks[0])
      case None => None
      case Some(x) =>
        match ReadAll(read, toks[1..])
        case None =>
          assert forall i :: 0 <= i < |toks| - 1 ==> toks[1..][i] == toks[i + 1];
          None
        case Some(xs) => Some([x] + xs)
  }

  /** The fixed parameter count of `c`, `C`, `M`, `m` and `L`. */
  function FixedArity(op: char): int
  {
    if op == 'c' || op == 'C' then ChannelsN
    else if op == 'M' || op == 'm' then MatrixN
    else LineN
  }

  /** The token converts as a parameter of `op` (`c`/`C`: channel, `M`/`m`: real, else integer). */
  predicate Reads(rd: Readers, op: char, tok: string)
  {
    if op == 'c' || op == 'C' then rd.toChannel(tok).Some?
    else if op == 'M' || op == 'm' then rd.toReal(tok).Some?
    else rd.toInt(tok).Some?
  }

  /** `P` and `R` in TrabCG.py: every parameter converted to int first, then the count N is
      taken off and the rest must hold exactly 2N values. */
  function ParsePointsTrabCG(rd: Readers, op: char, params: seq<string>): (r: Result<Command, Fault>)
    requires op == 'P' || op == 'R'
  {
    match ReadAll(rd.toInt, params)
    case None => Err(Malformed(op))
    case Some(nums) =>
      if |nums| == 0 then Err(Malformed(op))
      else
        var expected, coords := nums[0] * 2, nums[1..];
        if |coords| != expected then Err(WrongArity(op, expected, |coords|))
        else if op == 'P' then Ok(Polyline(Pairs(coords)))
        else if |coords| == 0 then Err(Malformed(op))
        else Ok(Polygon(Pairs(coords)))
  }

  /** `P` and `R` in draw_line.py: the count N is converted, all 2N + 1 parameters are counted,
      and the coordinates are converted as the segment loop reads them. A polyline of fewer
      than two points reads no coordinate and draws nothing. */
  function ParsePointsDrawLinePy(rd: Readers, op: char, params: seq<string>): (r: Result<Command, Fault>)
    requires op == 'P' || op == 'R'
  {
    if |params| == 0 then Err(Malformed(op))
    else
      match rd.toInt(params[0])
      case None => Err(Malformed(op))
      case Some(n) =>
        if |params| != 2 * n + 1 then Err(WrongArity(op, 2 * n + 1, |params|))
        else if op == 'P' && n <= 1 then Ok(Polyline([]))
        else if n == 0 then Err(Malformed(op))
        else
          match ReadAll(rd.toInt, params[1..])
          case None => Err(Malformed(op))
          case Some(coords) => Ok(if op == 'P' then Polyline(Pairs(coords)) else Polygon(Pairs(coords)))
  }

  /** The opcode dispatch with its parameter-count checks. */
  function ParseCommand(v: Variant, rd: Readers, op: char, params: seq<string>): (r: Result<Command, Fault>)
    ensures r.Ok? ==> r.value.Opcode() == op && r.value.WellFormed()
  {
    if op == 'c' || op == 'C' then
      if |params| != ChannelsN then Err(WrongArity(op, ChannelsN, |params|))
      else
        match ReadAll(rd.toChannel, params)
        case None => Err(Malformed(op))
        case Some(ch) =>
          var c := Color(ch[0], ch[1], ch[2]);
          Ok(if op == 'c' then Clear(c) else SetColor(c))
    else if op == 'M' || op == 'm' then
      if |params| != MatrixN then Err(WrongArity(op, MatrixN, |params|))
      else
        match ReadAll(rd.toReal, params)
        case None => Err(Malformed(op))
        case Some(vs) => Ok(if op == 'M' then SetMatrix(FromRowMajor(vs)) else Compose(FromRowMajor(vs)))
    else if op == 'L' then
      if |params| != LineN then Err(WrongArity(op, LineN, |params|))
      else
        match ReadAll(rd.toInt, params)
        case None => Err(Malformed(op))
        case Some(ns) => Ok(Line(Point(ns[0], ns[1]), Point(ns[2], ns[3])))
    else if op == 'P' || op == 'R' then
      if v.CountIncludesN() then ParsePointsDrawLinePy(rd, op, params)
      else ParsePointsTrabCG(rd, op, params)
    else Err(UnknownCommand(op))
  }

  /** One line of the command section (as `readlines` returns it, so never empty). `None` is a
      skipped line: a comment is skipped before the length check, a blank line after it. */
  function ParseLine(v: Variant, rd: Readers, line: string): (r: Result<Option<Command>, Fault>)
    requires |line| > 0
    ensures line[0] == '#' ==> r == Ok(None)
    ensures line[0] != '#' && |line| > MaxLineLen ==> r == Err(LineTooLong)
    ensures line[0] != '#' && |line| <= MaxLineLen && IsBlank(line) ==> r == Ok(None)
    ensures r.Ok? && r.value.Some? ==> r.value.value.Opcode() == line[0] && r.value.value.WellFormed()
    ensures r.Ok? && r.value.None? ==> line[0] == '#' || IsBlank(line)
  {
    if line[0] == '#' then Ok(None)
    else if |line| > MaxLineLen then Err(LineTooLong)
    else if IsBlank(line) then Ok(None)
    else
      match ParseCommand(v, rd, line[0], Split(line[1..]))
      case Ok(cmd) => Ok(Some(cmd))
      case Err(f) => Err(f)
  }

  /** A command line written as the opcode, a space and the tokens separated by single spaces,
      ended by `end`: the newline `readlines` keeps, nothing on a last line without one, or any
      other trailing whitespace. */
  function CommandLine(op: char, toks: seq<string>, end: string): string
  {
    [op, ' '] + Join(toks) + end
  }

  /** The parameters the interpreter sees on such a line are exactly the tokens written. */
  lemma CommandLineParameters(op: char, toks: seq<string>, end: string)
    requires forall i :: 0 <= i < |toks| ==> IsWord(toks[i])
    requires IsBlank(end)
    ensures CommandLine(op, toks, end)[1..] == [' '] + (Join(toks) + end)
    ensures Split(CommandLine(op, toks, end)[1..]) == toks
  {
    var rest := Join(toks) + end;
    DropOpcode(op, Join(toks), end);
    SplitAfterSpace(rest);
    SplitTrailingBlank(Join(toks), end);
    SplitJoin(toks);
  }

  /** The text after the opcode of `op`, a space and `rest`. Stated apart so that
      `CommandLineParameters` proves this slice without `Split` in scope. */
  lemma DropOpcode(op: char, words: string, end: string)
    ensures ([op, ' '] + words + end)[1..] == [' '] + (words + end)
  {
  }

  /** A parse result with the skipped-line case added. */
  function Lift(r: Result<Command, Fault>): Result<Option<Command>, Fault>
  {
    match r
    case Ok(cmd) => Ok(Some(cmd))
    case Err(f) => Err(f)
  }

  /** A command line that fits is dispatched on its opcode with the tokens written on it. */
  lemma ParseCommandLine(v: Variant, rd: Readers, op: char, toks: seq<string>, end: string)
    requires op != '#' && !IsSpace(op)
    requires forall i :: 0 <= i < |toks| ==> IsWord(toks[i])
    requires IsBlank(end) && |CommandLine(op, toks, end)| <= MaxLineLen
    ensures ParseLine(v, rd, CommandLine(op, toks, end)) == Lift(ParseCommand(v, rd, op, toks))
  {
    var line := CommandLine(op, toks, end);
    CommandLineParameters(op, toks, end);
    assert line[0] == op;
    assert !IsBlank(line);
  }

  lemma FixedArityCommand(v: Variant, rd: Readers, op: char, toks: seq<string>)
    requires op in {'c', 'C', 'M', 'm', 'L'}
    ensures var r := ParseCommand(v, rd, op, toks);
            && (|toks| != FixedArity(op) ==> r == Err(WrongArity(op, FixedArity(op), |toks|)))
            && (r.Ok? <==> |toks| == FixedArity(op) && forall i :: 0 <= i < |toks| ==> Reads(rd, op, toks[i]))
  {
  }

  /** `c`, `C`, `M`, `m` and `L` accept exactly their fixed number of parameters: any other
      count is a parameter-count error naming the expected and the actual count, and with the
      right count the line parses exactly when every token converts. */
  lemma FixedArityEnforced(v: Variant, rd: Readers, op: char, toks: seq<string>, end: string)
    requires op in {'c', 'C', 'M', 'm', 'L'}
    requires forall i :: 0 <= i < |toks| ==> IsWord(toks[i])
    requires IsBlank(end) && |CommandLine(op, toks, end)| <= MaxLineLen
    ensures var r := ParseLine(v, rd, CommandLine(op, toks, end));
            && (|toks| != FixedArity(op) ==> r == Err(WrongArity(op, FixedArity(op), |toks|)))
            && (r.Ok? <==> |toks| == FixedArity(op) && forall i :: 0 <= i < |toks| ==> Reads(rd, op, toks[i]))
            && (r.Ok? ==> r.value.Some? && r.value.value.Opcode() == op)
  {
    ParseCommandLine(v, rd, op, toks, end);
    FixedArityCommand(v, rd, op, toks);
  }

  /** `c` and `C` carry the colour of their three converted channels, in the order written. */
  lemma ColorCommandValue(v: Variant, rd: Readers, op: char, toks: seq<string>)
    requires op == 'c' || op == 'C'
    requires |toks| == ChannelsN && forall i :: 0 <= i < |toks| ==> rd.toChannel(toks[i]).Some?
    ensures var c := Color(rd.toChannel(toks[0]).value, rd.toChannel(toks[1]).value, rd.toChannel(toks[2]).value);
            ParseCommand(v, rd, op, toks) == Ok(if op == 'c' then Clear(c) else SetColor(c))
  {
  }

  /** `M` and `m` carry the matrix whose entries, read row by row, are the nine converted reals
      in the order written. */
  lemma MatrixCommandValue(v: Variant, rd: Readers, op: char, toks: seq<string>)
    requires op == 'M' || op == 'm'
    requires |toks| == MatrixN && forall i :: 0 <= i < |toks| ==> rd.toReal(toks[i]).Some?
    ensures var r := ParseCommand(v, rd, op, toks);
            && r.Ok? && r.value.Opcode() == op
            && |ToRowMajor(r.value.matrix)| == MatrixN
            && forall i :: 0 <= i < MatrixN ==> ToRowMajor(r.value.matrix)[i] == rd.toReal(toks[i]).value
  {
    RowMajorRoundTrip(ReadAll(rd.toReal, toks).value);
  }

  /** `L x0 y0 x1 y1` carries the segment from (x0, y0) to (x1, y1). */
  lemma LineCommandValue(v: Variant, rd: Readers, toks: seq<string>)
    requires |toks| == LineN && forall i :: 0 <= i < |toks| ==> rd.toInt(toks[i]).Some?
    ensures ParseCommand(v, rd, 'L', toks) ==
              Ok(Line(Point(rd.toInt(toks[0]).value, rd.toInt(toks[1]).value),
                      Point(rd.toInt(toks[2]).value, rd.toInt(toks[3]).value)))
  {
  }

  /** A parsed `P` or `R` of TrabCG.py carries point i as the converted tokens 2i + 1 and
      2i + 2, the count N being token 0. */
  lemma PointValuesTrabCG(rd: Readers, op: char, toks: seq<string>)
    requires op == 'P' || op == 'R'
    ensures var r := ParseCommand(TrabCG, rd, op, toks);
            r.Ok? ==> && 2 * |r.value.points| + 1 == |toks|
                      && forall i :: 0 <= i < |r.value.points| ==>
                           r.value.points[i] == Point(rd.toInt(toks[2 * i + 1]).value, rd.toInt(toks[2 * i + 2]).value)
  {
    var r := ParseCommand(TrabCG, rd, op, toks);
    if r.Ok? {
      var nums := ReadAll(rd.toInt, toks).value;
      var coords := nums[1..];
      assert r.value.points == Pairs(coords);
      forall i | 0 <= i < |r.value.points|
        ensures r.value.points[i] == Point(rd.toInt(toks[2 * i + 1]).value, rd.toInt(toks[2 * i + 2]).value)
      {
        assert coords[2 * i] == nums[2 * i + 1] && coords[2 * i + 1] == nums[2 * i + 2];
      }
    }
  }

  /** A parsed `P` or `R` of TrabCG.py holds the points of the converted coordinates after N. */
  lemma PointsOfTrabCG(rd: Readers, op: char, toks: seq<string>)
    requires op == 'P' || op == 'R'
    ensures var r := ParseCommand(TrabCG, rd, op, toks);
            r.Ok? ==>
              && ReadAll(rd.toInt, toks).Some? && |toks| % 2 == 1 && |toks| == 2 * |r.value.points| + 1
              && (r.value.Polyline? <==> op == 'P') && (r.value.Polygon? <==> op == 'R')
              && (op == 'R' ==> |toks| >= 3)
              && r.value.points == Pairs(ReadAll(rd.toInt, toks).value[1..])
  {
    assert ParseCommand(TrabCG, rd, op, toks) == ParsePointsTrabCG(rd, op, toks);
    var nums := ReadAll(rd.toInt, toks);
    var r := ParsePointsTrabCG(rd, op, toks);
    if r.Ok? {
      var n := nums.value[0];
      assert |toks| == 2 * n + 1;
      OddLength(|toks|, n);
    }
  }

  /** 2n is even; stated apart so that callers do not mix this modular fact with the parser's
      definitions, which keeps their proofs within the resource limit. */
  lemma EvenLength(len: int, n: int)
    requires len == 2 * n
    ensures len % 2 == 0
  {
  }

  /** 2n + 1 is odd (stated apart for the same reason). */
  lemma OddLength(len: int, n: int)
    requires len == 2 * n + 1
    ensures len % 2 == 1
  {
  }

  /** A parsed `P` or `R` of draw_line.py that reads its coordinates (a polygon, or a polyline
      of two or more points) carries point i as the converted tokens 2i + 1 and 2i + 2. */
  lemma PointValuesDrawLinePy(rd: Readers, op: char, toks: seq<string>)
    requires op == 'P' || op == 'R'
    ensures var r := ParseCommand(DrawLinePy, rd, op, toks);
            r.Ok? && (op == 'R' || |toks| > 3) ==>
              && 2 * |r.value.points| + 1 == |toks|
              && forall i :: 0 <= i < |r.value.points| ==>
                   r.value.points[i] == Point(rd.toInt(toks[2 * i + 1]).value, rd.toInt(toks[2 * i + 2]).value)
  {
    var r := ParseCommand(DrawLinePy, rd, op, toks);
    if r.Ok? && (op == 'R' || |toks| > 3) {
      var coords := ReadAll(rd.toInt, toks[1..]).value;
      assert r.value.points == Pairs(coords);
      forall i | 0 <= i < |r.value.points|
        ensures r.value.points[i] == Point(rd.toInt(toks[2 * i + 1]).value, rd.toInt(toks[2 * i + 2]).value)
      {
        assert toks[1..][2 * i] == toks[2 * i + 1] && toks[1..][2 * i + 1] == toks[2 * i + 2];
      }
    }
  }

  lemma PointArityTrabCGCommand(rd: Readers, op: char, toks: seq<string>)
    requires op == 'P' || op == 'R'
    ensures var r := ParseCommand(TrabCG, rd, op, toks);
            r.Ok? <==> && |toks| >= 1
                       && (forall i :: 0 <= i < |toks| ==> rd.toInt(toks[i]).Some?)
                       && |toks| - 1 == 2 * rd.toInt(toks[0]).value
                       && (op == 'R' ==> |toks| >= 3)
    ensures var r := ParseCommand(TrabCG, rd, op, toks);
            r.Ok? ==> |r.value.points| == rd.toInt(toks[0]).value
    ensures var r := ParseCommand(TrabCG, rd, op, toks);
            && |toks| >= 1
            && (forall i :: 0 <= i < |toks| ==> rd.toInt(toks[i]).Some?)
            && |toks| - 1 != 2 * rd.toInt(toks[0]).value
            ==> r == Err(WrongArity(op, 2 * rd.toInt(toks[0]).value, |toks| - 1))
  {
  }

  /** `P` and `R` in TrabCG.py: the first parameter N must convert, and exactly 2N parameters
      must follow it; a polyline then has N points, and so does a polygon, which needs N >= 1. */
  lemma PointArityTrabCG(rd: Readers, op: char, toks: seq<string>, end: string)
    requires op == 'P' || op == 'R'
    requires forall i :: 0 <= i < |toks| ==> IsWord(toks[i])
    requires IsBlank(end) && |CommandLine(op, toks, end)| <= MaxLineLen
    ensures var r := ParseLine(TrabCG, rd, CommandLine(op, toks, end));
            r.Ok? <==> && |toks| >= 1
                       && (forall i :: 0 <= i < |toks| ==> rd.toInt(toks[i]).Some?)
                       && |toks| - 1 == 2 * rd.toInt(toks[0]).value
                       && (op == 'R' ==> |toks| >= 3)
    ensures var r := ParseLine(TrabCG, rd, CommandLine(op, toks, end));
            r.Ok? ==> r.value.Some? && |r.value.value.points| == rd.toInt(toks[0]).value
    ensures var r := ParseLine(TrabCG, rd, CommandLine(op, toks, end));
            && |toks| >= 1
            && (forall i :: 0 <= i < |toks| ==> rd.toInt(toks[i]).Some?)
            && |toks| - 1 != 2 * rd.toInt(toks[0]).value
            ==> r == Err(WrongArity(op, 2 * rd.toInt(toks[0]).value, |toks| - 1))
  {
    ParseCommandLine(TrabCG, rd, op, toks, end);
    PointArityTrabCGCommand(rd, op, toks);
  }

  lemma PointArityDrawLinePyCommand(rd: Readers, op: char, toks: seq<string>)
    requires op == 'P' || op == 'R'
    ensures var r := ParseCommand(DrawLinePy, rd, op, toks);
            r.Ok? ==> && |toks| >= 1 && rd.toInt(toks[0]).Some?
                      && |toks| == 2 * rd.toInt(toks[0]).value + 1
    ensures var r := ParseCommand(DrawLinePy, rd, op, toks);
            && |toks| >= 1 && rd.toInt(toks[0]).Some?
            && |toks| != 2 * rd.toInt(toks[0]).value + 1
            ==> r == Err(WrongArity(op, 2 * rd.toInt(toks[0]).value + 1, |toks|))
    ensures var r := ParseCommand(DrawLinePy, rd, op, toks);
            r.Ok? && (op == 'R' || |toks| > 3) ==> |r.value.points| == rd.toInt(toks[0]).value
    ensures var r := ParseCommand(DrawLinePy, rd, op, toks);
            |toks| >= 1 && rd.toInt(toks[0]).Some? && |toks| == 2 * rd.toInt(toks[0]).value + 1 ==>
              (r.Ok? <==> || (op == 'P' && rd.toInt(toks[0]).value <= 1)
                          || (rd.toInt(toks[0]).value >= 1 && forall i :: 1 <= i < |toks| ==> rd.toInt(toks[i]).Some?))
    ensures var r := ParseCommand(DrawLinePy, rd, op, toks);
            |toks| == 0 || rd.toInt(toks[0]).None? ==> r == Err(Malformed(op))
    ensures var r := ParseCommand(DrawLinePy, rd, op, toks);
            op == 'R' && |toks| == 1 && rd.toInt(toks[0]) == Some(0) ==> r == Err(Malformed(op))
  {
  }

  /** `P` and `R` in draw_line.py: the first parameter N must convert, and the whole parameter
      list, N included, must hold exactly 2N + 1 values; a polygon then has N points (N >= 1),
      and so does a polyline of two or more points (one of fewer reads no coordinate and keeps
      none, which draws the same nothing). */
  lemma PointArityDrawLinePy(rd: Readers, op: char, toks: seq<string>, end: string)
    requires op == 'P' || op == 'R'
    requires forall i :: 0 <= i < |toks| ==> IsWord(toks[i])
    requires IsBlank(end) && |CommandLine(op, toks, end)| <= MaxLineLen
    ensures |CommandLine(op, toks, end)| > 0 && CommandLine(op, toks, end)[0] == op
    ensures var r := ParseLine(DrawLinePy, rd, CommandLine(op, toks, end));
            r.Ok? ==> && r.value.Some? && |toks| >= 1 && rd.toInt(toks[0]).Some?
                      && |toks| == 2 * rd.toInt(toks[0]).value + 1
    ensures var r := ParseLine(DrawLinePy, rd, CommandLine(op, toks, end));
            && |toks| >= 1 && rd.toInt(toks[0]).Some?
            && |toks| != 2 * rd.toInt(toks[0]).value + 1
            ==> r == Err(WrongArity(op, 2 * rd.toInt(toks[0]).value + 1, |toks|))
    ensures var r := ParseLine(DrawLinePy, rd, CommandLine(op, toks, end));
            r.Ok? && (op == 'R' || |toks| > 3) ==> |r.value.value.points| == rd.toInt(toks[0]).value
    ensures var r := ParseLine(DrawLinePy, rd, CommandLine(op, toks, end));
            |toks| >= 1 && rd.toInt(toks[0]).Some? && |toks| == 2 * rd.toInt(toks[0]).value + 1 ==>
              (r.Ok? <==> || (op == 'P' && rd.toInt(toks[0]).value <= 1)
                          || (rd.toInt(toks[0]).value >= 1 && forall i :: 1 <= i < |toks| ==> rd.toInt(toks[i]).Some?))
    ensures var r := ParseLine(DrawLinePy, rd, CommandLine(op, toks, end));
            |toks| == 0 || rd.toInt(toks[0]).None? ==> r == Err(Malformed(op))
    ensures var r := ParseLine(DrawLinePy, rd, CommandLine(op, toks, end));
            op == 'R' && |toks| == 1 && rd.toInt(toks[0]) == Some(0) ==> r == Err(Malformed(op))
  {
    ParseCommandLine(DrawLinePy, rd, op, toks, end);
    PointArityDrawLinePyCommand(rd, op, toks);
  }

  /** Any opcode outside `c C M m L P R` (and `#`) is an error. */
  lemma UnknownOpcodeRejected(v: Variant, rd: Readers, line: string)
    requires |line| > 0 && line[0] !in {'#', 'c', 'C', 'M', 'm', 'L', 'P', 'R'}
    ensures ParseLine(v, rd, line).Ok? <==> |line| <= MaxLineLen && IsBlank(line)
    ensures |line| <= MaxLineLen && !IsBlank(line) ==> ParseLine(v, rd, line) == Err(UnknownCommand(line[0]))
  {
  }
}
