# EA979 2D renderer: a Dafny model of the command interpreter and the midpoint rasterizer

The renderer reads a text file of drawing commands and draws lines, polylines and polygon
outlines into a fixed-size RGB image, under an accumulating 3x3 homogeneous transform. The
image has a header with its size, and the command section starts on line 3.

- `c r g b` clears the image to a colour.
- `C r g b` sets the draw colour.
- `M` followed by nine reals sets the transform.
- `m` followed by nine reals composes a matrix with the current transform.
- `L x0 y0 x1 y1` draws a line.
- `P N x y ...` draws a polyline, and `R N x y ...` a closed polygon.
- `#` starts a comment line, and blank lines are skipped.

Every line is drawn by `draw_line`, an integer midpoint (Bresenham-style) rasterizer. It flips
model Y into storage rows (`row = height - y - 1`).

The repository holds two versions of the program. One model covers both, configured by a
`Variant`:

| | TrabCG.py | draw_line.py |
|---|---|---|
| writes `image[y][x]` | wrapped modulo the image size | numpy indexing: a negative index counts from the end, one out of range raises |
| points of `L`/`P`/`R` | through `apply_matrix` | drawn as given (the transform is kept but never used) |
| `m` | `matrix . delta` | `delta . M` |
| `P`/`R` parameter count | 2N after N is removed | 2N + 1 with N included |

## Modules

- `Results` (`results.dfy`): `Option` and `Result`.
- `Raster` (`raster.dfy`): `draw_line`, in three forms:
  - `LinePath`, the list of (row, col) writes, built on the recursive `Walk` that mirrors both loops;
  - `RasterizeLine`, the source's loops as a method proved to produce `LinePath`;
  - the endpoint, length and connectivity facts.
- `Geometry` (`geometry.dfy`): points, segments, and the reference polyline and polygon segment lists (`Chain`, `Loop`). It also holds each source file's own index loops over the flat coordinate list, proved equal to the reference.
- `Transform` (`transform.dfy`): 3x3 real matrices, the product, `apply_matrix` (homogeneous divide, then truncation toward zero), and the row-major reading of nine parameters.
- `Tokens` (`tokens.dfy`): Python's `str.split()` with its whitespace set, and its inverse on words.
- `Images` (`images.dfy`): colours, images, painting a list of writes, TrabCG.py's wrapped writes and draw_line.py's numpy-indexed writes.
- `Variants` (`variants.dfy`): the two programs and their four differences.
- `Commands` (`commands.dfy`): reading one line into a command, with its error cases.
- `Interpreter` (`interpreter.dfy`): the render state, one step per command, and the run over the command lines.

Conversion of a parameter token is a parameter of the model (`Readers`). It covers Python's
`int()`, numpy's float64 conversion and numpy's uint8 conversion. A token that does not convert
is an error.

Each line is taken as `readlines()` returns it, with its newline, except perhaps the last line.
The newline counts toward the 10239-character limit (TrabCG.py:151), and `split()` drops it.

Three behaviours of the code are easy to get wrong, and the model follows the code in each:

- **Zero homogeneous `w`.** A zero `w` is not harmless. In TrabCG.py's `apply_matrix` the numpy division yields an infinity or a NaN, and `int()` of either raises, which stops the program. The model makes this the `DegenerateTransform` error.
- **Direction.** The two drawing directions of a segment can plot different pixels. The midpoint loops of both files break ties toward the start point, so swapping the endpoints can move a pixel: `Raster.LinePathDependsOnDirection` gives a three-pixel counterexample.
- **Out-of-range writes.** Only TrabCG.py wraps them modulo the image size. draw_line.py uses numpy's own index rule, so a row one past the top wraps to the bottom row while a row one past the bottom raises (`Images.RawPathAsymmetricEdges`).

## Model

| member | source | states |
|---|---|---|
| Raster.Walk | TrabCG.py:79-112 | n iterations of either midpoint loop give n writes, the first at the current position |
| Raster.WalkAdvances | TrabCG.py:86-112 | each step of a walk moves the driving coordinate one unit and the other by 0 or one unit in its step direction |
| Raster.LinePath | TrabCG.py:61-112 | `draw_line` writes max(dx, dy) + 1 positions. The first is the start point with its row flipped |
| Raster.LinePathAdvances | TrabCG.py:62-112 | consecutive writes step as the shallow or the steep loop dictates, with stepX/stepY -1 toward a smaller end and +1 otherwise, ties included |
| Raster.DecisionStep | TrabCG.py:80-112 | one loop iteration keeps the decision-variable invariant `d == 2*dB*(k+1) - dA - 2*dA*j` with `2dB - 2dA < d <= 2dB`, counting a diagonal move exactly when d > 0 |
| Raster.DecisionEnd | TrabCG.py:80-112 | when the invariant holds after the last of dA + 1 plots, exactly dB diagonal moves were made |
| Raster.ShallowWalkReachesEnd | TrabCG.py:79-95 | under the decision-variable invariant, the last write of the remaining shallow loop lies n - 1 columns and dy - j rows further on |
| Raster.SteepWalkReachesEnd | TrabCG.py:96-112 | under the decision-variable invariant, the last write of the remaining steep loop lies n - 1 rows and dx - j columns further on |
| Raster.LinePathEndsAtEnd | TrabCG.py:61-112 | the last write of `draw_line` is the end point with its row flipped, so both endpoints are drawn |
| Raster.LinePathIsEightConnected | TrabCG.py:86-112 | consecutive writes are distinct 8-connected neighbours |
| Raster.RasterizeLine | TrabCG.py:61-112 | the source's loop structure (step directions, row flip, branch on dy <= dx) performs exactly the writes of `LinePath` |
| Raster.ShallowLoop | TrabCG.py:79-95 | the `dy <= dx` loop with deltaE = 2dy, deltaNE = 2(dy - dx) and d = 2dy - dx performs exactly the shallow `Walk` |
| Raster.SteepLoop | TrabCG.py:96-112 | the `dy > dx` loop with deltaE = 2dx, deltaNE = 2(dx - dy) and d = 2dx - dy performs exactly the steep `Walk` |
| Raster.DiagonalOnFourByFour | TrabCG.py:61-112 | on a 4-row image, (0,0) to (3,3) writes rows 3, 2, 1, 0 in columns 0, 1, 2, 3 |
| Raster.LinePathDependsOnDirection | draw_line.py:48-94 | (0,0) to (2,1) and (2,1) to (0,0) write different pixel sets |
| Geometry.Pairs | TrabCG.py:201-202 | the flat list x0 y0 x1 y1 ... becomes half as many points, point i being (flat[2i], flat[2i+1]) |
| Geometry.ChainJoinsNeighbours | TrabCG.py:205-208 | a polyline through N points has N - 1 segments (none for fewer than two), segment i joining point i to point i + 1 |
| Geometry.LoopClosesChain | TrabCG.py:210-223 | a polygon outline is the polyline's segments followed by one from the last point back to the first |
| Geometry.SliceSegmentsIsChain | TrabCG.py:205-208 | `for ind in range(0, 2N - 2, 2)` with the slices [ind:ind+2] and [ind+2:ind+4] draws exactly the polyline's segments |
| Geometry.SliceClosingIsLoopEnd | TrabCG.py:216-223 | that loop, then the segment from `parameters[-2:]` to `parameters[:2]`, draws exactly the polygon outline |
| Geometry.StrideIsSlice | draw_line.py:181-185 | the loop over `params[b]` with `b += 2`, started past N, draws the same segments as the slice loop on the list without N |
| Geometry.StrideSegmentsIsChain | draw_line.py:181-185 | the loop `b += 2` over `range(N - 1)` on the parameters with N still at index 0 draws exactly the polyline's segments |
| Geometry.StrideClosingIsLoopEnd | draw_line.py:189-194 | that loop, then the segment from (params[-2], params[-1]) to (params[1], params[2]), draws exactly the polygon outline |
| Transform.RowMajorRoundTrip | TrabCG.py:183 | `reshape(3, 3)` of nine values and reading them back row by row gives the nine values |
| Transform.RowMajorRoundTripMatrix | TrabCG.py:183 | reading a matrix's nine values row by row and reshaping them gives the matrix back |
| Transform.Trunc | TrabCG.py:58 | `int()` of a float truncates toward zero: the result lies within one unit of the value on the side of zero |
| Transform.TruncOfInt | TrabCG.py:58 | truncation leaves whole numbers unchanged |
| Transform.MulIdentity | TrabCG.py:17 | the initial identity matrix is neutral on both sides of the product |
| Transform.MulIsComposition | TrabCG.py:52-58 | applying a product to a homogeneous vector applies the right factor first, then the left |
| Transform.ApplyIdentity | TrabCG.py:52-58 | under the identity, `apply_matrix` has w = 1 and returns integer points unchanged |
| Transform.ApplyTranslation | TrabCG.py:52-58 | under an integer translation, `apply_matrix` moves integer points by exactly that offset |
| Transform.CompositionOrderMatters | TrabCG.py:188 | a translation and a scaling do not commute, so post- and pre-multiplying `m` give different transforms |
| Tokens.SplitEmptyIffBlank | TrabCG.py:161 | `split()` of a string gives no words exactly when the string is all whitespace |
| Tokens.SplitYieldsWords | TrabCG.py:161 | every piece `split()` returns is non-empty and contains no whitespace |
| Tokens.SplitSkipsLeadingSpace | TrabCG.py:161 | leading whitespace does not change what `split()` returns, which is why `strip()` before it is immaterial |
| Tokens.SplitJoin | TrabCG.py:161 | `split()` recovers any list of words from the words joined by single spaces |
| Tokens.SplitTrailingBlank | TrabCG.py:161 | trailing whitespace, such as the newline `readlines()` keeps, does not change what `split()` returns |
| Images.Fill | TrabCG.py:144 | `np.full` and `image[:, :] = color` give a height x width image with every position that colour |
| Images.Plot | TrabCG.py:87 | one write changes exactly the one position |
| Images.Paint | TrabCG.py:86-87 | after a list of writes in one colour, a position has that colour exactly when it was written, and keeps its old colour otherwise |
| Images.PaintConcat | TrabCG.py:205-208 | painting two lists of writes one after the other is painting their concatenation |
| Images.Wrap | TrabCG.py:87 | `y % height` and `x % width` always land inside the image |
| Images.WrapInside | TrabCG.py:87 | positions already inside the image are left where they are |
| Images.WrappedPath | TrabCG.py:86-87 | TrabCG.py writes one position per midpoint step, each inside the image and equal to the wrapped unwrapped write |
| Images.DrawWrapped | TrabCG.py:61-112 | TrabCG.py's `draw_line` gives a position the colour exactly when a wrapped write hits it; every other position keeps its colour |
| Images.DrawWrappedPaintsEndpoints | TrabCG.py:61-112 | both endpoints, wrapped, get the colour |
| Images.AxisIndex | draw_line.py:71 | numpy's accepted index in [-n, n) lands in [0, n): a negative one counts from the end |
| Images.RawIndexIsWrap | draw_line.py:71 | wherever numpy accepts an index, it lands where TrabCG.py's modulo wrap would |
| Images.RawPath | draw_line.py:48-94 | draw_line.py's line raises exactly when some midpoint write lies outside numpy's accepted range; otherwise every write lands inside the image, one per step |
| Images.RawPathIsWrappedPath | draw_line.py:71 | when draw_line.py's line does not raise, its writes are exactly TrabCG.py's wrapped writes |
| Images.RawPathInside | draw_line.py:71 | a line that stays inside the image is written position for position |
| Images.RawPathAsymmetricEdges | draw_line.py:57-71 | model row y = -1 raises, while y = height wraps to the bottom row |
| Images.DrawRaw | draw_line.py:48-94 | draw_line.py's `draw_line` fails exactly when its writes raise; otherwise a position gets the colour exactly when the line hits it |
| Images.DrawRawPaintsEndpoints | draw_line.py:48-94 | a line inside the image colours both endpoints and changes nothing off its path |
| Commands.ReadAll | TrabCG.py:193 | converting every token succeeds exactly when each one converts, and then yields each converted value in order |
| Commands.ParseCommand | TrabCG.py:167-227 | a parsed command has the line's opcode, and a polygon has at least one point |
| Commands.ColorCommandValue | TrabCG.py:167-178 | `c`/`C` with three converted channels gives a clear or a colour command with exactly those channels, in order |
| Commands.MatrixCommandValue | TrabCG.py:180-188 | `M`/`m` with nine converted reals gives a matrix whose row-major reading is exactly those nine values |
| Commands.LineCommandValue | TrabCG.py:190-196 | `L` with four integers gives the segment from (t0, t1) to (t2, t3) |
| Commands.PointValuesTrabCG | TrabCG.py:199-214 | a parsed `P`/`R` in TrabCG.py has N points, point i being the integers at positions 2i + 1 and 2i + 2 |
| Commands.PointsOfTrabCG | TrabCG.py:199-214 | a parsed `P`/`R` in TrabCG.py is a polyline for `P` and a polygon for `R`, through the points paired from the integers after N |
| Commands.PointValuesDrawLinePy | draw_line.py:179-194 | a parsed `R`, or `P` with more than one point, in draw_line.py has N points, point i being the integers at positions 2i + 1 and 2i + 2 |
| Commands.ParseLine | TrabCG.py:148-166 | a `#` line is skipped before the length check. A line longer than 10239 characters is an error. A blank line is skipped. A parsed command carries the line's first character as opcode |
| Commands.CommandLineParameters | TrabCG.py:159-161 | on a line written as opcode, space and words, ended by a newline or any other whitespace or by nothing, the parameters are exactly those words |
| Commands.ParseCommandLine | TrabCG.py:148-166 | a written command line that fits, with or without its newline, goes to the opcode dispatch with exactly its words |
| Commands.FixedArityEnforced | TrabCG.py:162-197 | `c`, `C`, `M`, `m`, `L` with any count other than 3, 3, 9, 9, 4 is the parameter-count error naming both counts. With the right count the line parses exactly when every token converts |
| Commands.PointArityTrabCG | TrabCG.py:199-223 | `P`/`R` parse exactly when every token is an integer and 2N follow the count N (a polygon needs N >= 1). Otherwise, with all tokens integers, the error names 2N and the count after N. A parsed command has N points |
| Commands.PointArityDrawLinePy | draw_line.py:179-194 | `P`/`R` parse only when N converts and the whole list, N included, holds 2N + 1 values; otherwise the error names 2N + 1 and the count. With 2N + 1 values the line parses exactly when it is `P` with N <= 1 or N >= 1 and every value converts; `R 0` is an error. A polygon, and a polyline of two or more points, has N points |
| Commands.UnknownOpcodeRejected | TrabCG.py:225-227 | any other first character makes a non-blank line an unrecognized-command error |
| Interpreter.Initial | TrabCG.py:14-17 | the run starts with the identity transform, black ink, a white background and an all-white image |
| Interpreter.DevicePoint | TrabCG.py:195-196 | TrabCG.py sends each point through `apply_matrix`, failing exactly on a zero w; draw_line.py uses it as given; under the identity both agree |
| Interpreter.SegmentWrites | TrabCG.py:195-197 | one segment's writes lie inside the image, or fail with the variant's drawing error; TrabCG.py fails only on a zero w |
| Interpreter.SegmentWritesDrawLinePy | draw_line.py:177 | in draw_line.py a segment fails exactly when numpy rejects one of its writes, and otherwise writes what TrabCG.py's wrapped line would |
| Interpreter.Writes | TrabCG.py:205-208 | the writes of several `draw_line` calls lie inside the image, or the run fails with the variant's drawing error |
| Interpreter.Draw | TrabCG.py:195-197 | drawing segments keeps the image size and validity, and fails only with the variant's drawing error |
| Interpreter.DrawPaints | TrabCG.py:195-208 | drawing segments fails exactly when computing their writes fails, and otherwise paints those writes, all inside the image, in the current colour |
| Interpreter.Step | TrabCG.py:167-223 | each command keeps the image size and the state valid; only a drawing command can fail, and only with the variant's drawing error |
| Interpreter.Perform | TrabCG.py:148-227 | a parse error is the step's error, a skipped line leaves the state as it was, and a parsed command is carried out by `Step` |
| Interpreter.RunParsed | TrabCG.py:148-227 | the main loop keeps the image size, and on an error the model records the line of the section where the run stopped |
| Interpreter.Run | TrabCG.py:148-227 | the main loop over command lines keeps the image size, and on an error the model records the line of the section where the run stopped |
| Interpreter.RunFirstLine | TrabCG.py:148-227 | the first line is skipped, carried out by `Step`, or stops the run with its own number and fault; the rest runs from the resulting state |
| Interpreter.Render | TrabCG.py:143-148 | the run keeps the image size, an empty section gives the initial state, and on an error the model records the line, numbered from 3, where the run stopped |
| Interpreter.RenderFirstLine | TrabCG.py:143-227 | the first line of the section is read against the initial state (identity, black ink, white image) as line 3: it stops the run with its fault, is skipped, or goes through `Step`, and the rest runs from the resulting state as lines 4 onwards |
| Interpreter.PointCommandSegmentsTrabCG | TrabCG.py:199-223 | a parsed `P` in TrabCG.py draws exactly the segments of the slice loop over the integers after N; `R` adds the closing segment from `parameters[-2:]` to `parameters[:2]` |
| Interpreter.PointCommandSegmentsDrawLinePy | draw_line.py:179-194 | a parsed `R`, or `P` with more than one point, in draw_line.py has N >= 1 with 2N + 1 values and draws exactly the segments of the `b += 2` loop; `R` adds the segment from (params[-2], params[-1]) to (params[1], params[2]) |
| Interpreter.RedLineParses | TrabCG.py:148-178 | the line `C 255 0 0` with its newline sets the draw colour to red |
| Interpreter.DiagonalLineParses | TrabCG.py:148-193 | the line `L 0 0 3 3` with its newline is the line command from (0, 0) to (3, 3) |
| Interpreter.DiagonalLineStep | TrabCG.py:190-197 | on a 4 x 4 image under the identity, `L 0 0 3 3` paints rows 3, 2, 1, 0 in columns 0, 1, 2, 3 in the current colour |
| Interpreter.RunDiagonalLine | TrabCG.py:148-197 | the one-line section `L 0 0 3 3` runs to that painted state |
| Interpreter.RenderDiagonal | TrabCG.py:143-197 | rendering the lines `C 255 0 0` then `L 0 0 3 3`, newlines included, on a 4 x 4 image gives red on the anti-diagonal (in storage rows) and white everywhere else |
| Interpreter.RenderBlackDiagonal | TrabCG.py:14-17 | rendering `L 0 0 3 3` alone on a 4 x 4 image draws with the default black ink under the identity: black on the anti-diagonal and white everywhere else |
| Interpreter.ClearFillsImage | TrabCG.py:167-173 | `c` colours every position and becomes the background; the transform and the draw colour stay |
| Interpreter.SettingsKeepImage | TrabCG.py:175-188 | `C`, `M`, `m` leave the image and the background alone. `C` sets only the colour and `M` only the matrix |
| Interpreter.ComposeWithIdentity | draw_line.py:169-172 | composing with the identity changes nothing, in either multiplication order |
| Interpreter.ComposeOrder | TrabCG.py:185-188 | after `m a` then `m b`, TrabCG.py applies b, then a, then the earlier transform to a point; draw_line.py applies them in the reverse order |
| Interpreter.DrawLinePyIgnoresMatrix | draw_line.py:174-194 | in draw_line.py a drawing command has the same outcome whatever the current matrix |
| Interpreter.LineStepPaints | TrabCG.py:190-197 | `L` paints exactly its segment's writes in the current colour, or fails with that segment's error |
| Interpreter.LineStepTrabCG | TrabCG.py:190-197 | TrabCG.py's `L` fails exactly when an endpoint has w = 0; otherwise it draws the wrapped line between the transformed endpoints in the current colour |
| Interpreter.LineStepDrawLinePy | draw_line.py:174-177 | draw_line.py's `L` draws the line between the given endpoints, failing exactly when numpy rejects a write |
| Interpreter.LineVariantsAgree | draw_line.py:174-177 | under the identity transform, wherever draw_line.py's `L` succeeds, TrabCG.py's gives the same state |
| Interpreter.DrawSegmentsPaintsWrites | TrabCG.py:205-208 | drawing segments one `L` at a time paints exactly all their writes in order, or stops with the first segment's error |
| Interpreter.PointCommandIsLines | TrabCG.py:199-223 | `P` and `R` have the same outcome as the `L` commands of their segments issued in order |
| Interpreter.DrawSegmentsAppend | TrabCG.py:216-223 | drawing a + b one segment at a time is drawing a, then b from where a left off |
| Interpreter.PolygonIsPolylineThenClosing | TrabCG.py:210-223 | `R` is `P` through the same points followed by the line from the last point back to the first |
| Interpreter.RunParsedAppend | TrabCG.py:148-227 | running two blocks of parsed lines is running the first, then the second from its state and line number, unless the first stopped |
| Interpreter.ParseAllAt | TrabCG.py:148-161 | the line at position i is read on its own: the parse of a block holds, at i, the parse of line i |
| Interpreter.ParseAllPrefix | TrabCG.py:148-161 | parsing the first k lines gives the first k parses of the whole block |
| Interpreter.RunParsedStopsAt | TrabCG.py:151-166 | when the parsed lines before k run without error and line k is a parse error, the run fails with line number start + k and that error, whatever follows |
| Interpreter.RunStopsAtBadLine | TrabCG.py:151-166 | when the lines before k run without error and line k does not parse, the run stops with line k's own number and fault, whatever follows |
| Interpreter.RunParsedSkipsNothing | TrabCG.py:149-157 | a block of skipped lines leaves the state as it was |
| Interpreter.RunSkipsComments | TrabCG.py:149-157 | comment and blank lines leave the state as it was |

Where a row cites only TrabCG.py, draw_line.py has the same code at the corresponding lines,
except for the four differences in the table at the top. The
rasterizer is at draw_line.py:48-94, the main loop at draw_line.py:133-151, and `c`/`C`/`M` at
draw_line.py:153-167.

## Left out

- Reading the command line, the input file and its two header lines (magic string, dimensions and their range check): a `Render` call starts where those have succeeded. Writing the PPM file (`save_ppm`, `put_string`) is also left out: these are byte-level I/O.
- Float64 rounding and special values: the transform is computed over exact reals, so the truncated coordinates can differ from the program's when float64 rounding crosses an integer. numpy's float64 conversion also accepts `inf` and `nan`, which `Readers.toReal` cannot return; TrabCG.py then divides by an infinite `w`, so `M 1 0 0 0 1 0 0 0 inf` draws every point at (0, 0).
- Converting a token to `int`, float64 or uint8 is the `Readers` parameter. In particular, how numpy's uint8 conversion treats values above 255 or below 0 depends on the numpy version; `Channel` holds 0..255.
- Which error is reported when a drawing line has two problems: draw_line.py converts its coordinates as it draws, so a bad token late on a line can be preceded by an IndexError from an earlier segment. The model reports the conversion error. Either way the program stops before writing any output, and the line number is the same.
- Partly drawn images after an error: the program exits before writing the image, so the model keeps no state after an error.
- `Images.Wrap`: states the range of the wrapped position, not its congruence to the unwrapped one.
- `Transform.ApplyMatrix`: requires a non-zero w; the interpreter checks for a zero w first and turns it into the `DegenerateTransform` error.
- `Commands.PointArityDrawLinePy`: for a polyline with N <= 1, draw_line.py reads no coordinate and draws nothing, so the parsed command keeps no points. Its point count is stated only for N >= 2 and for polygons.
- `R 0` is an uncaught exception in both files, and the model reports it as `Malformed`. draw_line.py raises an IndexError at `params[-2]` (draw_line.py:194). TrabCG.py's slice `parameters[-2:]` is empty, so `apply_matrix(matrix)` raises a TypeError for its missing arguments (TrabCG.py:221). Uncaught exceptions print no line number; the model still records the line where the run stopped.
- 3-polilinhas-transform-alunos/draw_2d_model.c is not part of this model: its drawing routines are empty stubs.
