/** The integer midpoint line rasterizer (`draw_line`), as a pure function that returns the
    sequence of (row, col) writes it performs, and as a loop method that mirrors the source. */
module Raster {

  /** A storage position: `row` counts rows from the top of the image, `col` columns from the left. */
  datatype Pixel = Pixel(row: int, col: int)

  function Abs(n: int): nat
  {
    if n < 0 then -n else n
  }

  function Max(a: int, b: int): int
  {
    if a < b then b else a
  }

  /** stepX / stepY: -1 when the end coordinate is smaller than the start, +1 otherwise (ties too). */
  function Direction(from: int, to: int): int
  {
    if to < from then -1 else 1
  }

  /** Model Y grows upward; storage rows grow downward. */
  function RowOf(height: int, y: int): int
  {
    height - y - 1
  }

  /** One iteration of the midpoint loop moves from `p` to `q`: in the shallow loop the column
      always advances by `stepX` and the row moves by 0 or `-stepY`; in the steep loop the row
      always advances by `-stepY` and the column moves by 0 or `stepX`. */
  predicate Advances(steep: bool, p: Pixel, q: Pixel, stepX: int, stepY: int)
  {
    if steep then
      q.row == p.row - stepY && (q.col == p.col || q.col == p.col + stepX)
    else
      q.col == p.col + stepX && (q.row == p.row || q.row == p.row - stepY)
  }

  /** Every pair of consecutive writes in `r` is one iteration of the loop. */
  predicate Stepwise(steep: bool, r: seq<Pixel>, stepX: int, stepY: int)
  {
    forall i :: 0 <= i < |r| - 1 ==> Advances(steep, r[i], r[i + 1], stepX, stepY)
  }

  /** The `n` remaining iterations of the midpoint loop from column `x`, storage row `y` and
      decision variable `d`. The shallow loop (`steep == false`) is driven by x, the steep
      loop by y; a positive `d` also moves the other coordinate and adds `deltaNE`, otherwise
      `deltaE` is added. */
  function Walk(steep: bool, x: int, y: int, d: int, n: nat, stepX: int, stepY: int, dx: int, dy: int): (r: seq<Pixel>)
    ensures |r| == n
    ensures n > 0 ==> r[0] == Pixel(y, x)
    decreases n
  {
    if n == 0 then []
    else if !steep then
      if d <= 0 then [Pixel(y, x)] + Walk(steep, x + stepX, y, d + 2 * dy, n - 1, stepX, stepY, dx, dy)
      else [Pixel(y, x)] + Walk(steep, x + stepX, y - stepY, d + 2 * (dy - dx), n - 1, stepX, stepY, dx, dy)
    else
      if d <= 0 then [Pixel(y, x)] + Walk(steep, x, y - stepY, d + 2 * dx, n - 1, stepX, stepY, dx, dy)
      else [Pixel(y, x)] + Walk(steep, x + stepX, y - stepY, d + 2 * (dx - dy), n - 1, stepX, stepY, dx, dy)
  }

  /** Putting `p` in front of a walk that `p` advances to keeps every step an advance. */
  lemma ConsAdvances(steep: bool, p: Pixel, rest: seq<Pixel>, stepX: int, stepY: int)
    requires |rest| > 0 ==> Advances(steep, p, rest[0], stepX, stepY)
    requires Stepwise(steep, rest, stepX, stepY)
    ensures Stepwise(steep, [p] + rest, stepX, stepY)
  {
    var r := [p] + rest;
    forall i | 0 <= i < |r| - 1
      ensures Advances(steep, r[i], r[i + 1], stepX, stepY)
    {
      if i > 0 {
        assert r[i] == rest[i - 1] && r[i + 1] == rest[i];
      }
    }
  }

  /** Every step of a walk is one iteration of its loop. */
  lemma {:induction false} WalkAdvances(steep: bool, x: int, y: int, d: int, n: nat, stepX: int, stepY: int,
                                        dx: int, dy: int)
    ensures Stepwise(steep, Walk(steep, x, y, d, n, stepX, stepY, dx, dy), stepX, stepY)
    decreases n
  {
    if n > 0 {
      var x', y', d' :=
        if !steep then x + stepX else if d <= 0 then x else x + stepX,
        if !steep && d <= 0 then y else y - stepY,
        if !steep then (if d <= 0 then d + 2 * dy else d + 2 * (dy - dx))
        else (if d <= 0 then d + 2 * dx else d + 2 * (dx - dy));
      var rest := Walk(steep, x', y', d', n - 1, stepX, stepY, dx, dy);
      assert Walk(steep, x, y, d, n, stepX, stepY, dx, dy) == [Pixel(y, x)] + rest;
      WalkAdvances(steep, x', y', d', n - 1, stepX, stepY, dx, dy);
      ConsAdvances(steep, Pixel(y, x), rest, stepX, stepY);
    }
  }

  /** True when the line from (x0, y0) to (x1, y1) takes the steep loop (`dy > dx`). */
  predicate Steep(x0: int, y0: int, x1: int, y1: int)
  {
    Abs(y1 - y0) > Abs(x1 - x0)
  }

  /** The writes `draw_line` performs, in order, for model endpoints (x0, y0) and (x1, y1) on an
      image `height` rows tall, before any wrap-around of the indices. */
  function LinePath(height: int, x0: int, y0: int, x1: int, y1: int): (r: seq<Pixel>)
    ensures |r| == Max(Abs(x1 - x0), Abs(y1 - y0)) + 1
    ensures r[0] == Pixel(RowOf(height, y0), x0)
  {
    var stepX, stepY := Direction(x0, x1), Direction(y0, y1);
    var dx, dy := Abs(x1 - x0), Abs(y1 - y0);
    if dy <= dx then
      Walk(false, x0, RowOf(height, y0), 2 * dy - dx, dx + 1, stepX, stepY, dx, dy)
    else
      Walk(true, x0, RowOf(height, y0), 2 * dx - dy, dy + 1, stepX, stepY, dx, dy)
  }

  /** Every step of the line's writes is one iteration of the loop its slope selects. */
  lemma LinePathAdvances(height: int, x0: int, y0: int, x1: int, y1: int)
    ensures Stepwise(Steep(x0, y0, x1, y1), LinePath(height, x0, y0, x1, y1), Direction(x0, x1), Direction(y0, y1))
  {
    var r := LinePath(height, x0, y0, x1, y1);
    var stepX, stepY := Direction(x0, x1), Direction(y0, y1);
    var dx: int, dy: int := Abs(x1 - x0), Abs(y1 - y0);
    if Steep(x0, y0, x1, y1) {
      var w := Walk(true, x0, RowOf(height, y0), 2 * dx - dy, dy + 1, stepX, stepY, dx, dy);
      WalkAdvances(true, x0, RowOf(height, y0), 2 * dx - dy, dy + 1, stepX, stepY, dx, dy);
      StepwiseSame(true, w, r, stepX, stepY);
    } else {
      var w := Walk(false, x0, RowOf(height, y0), 2 * dy - dx, dx + 1, stepX, stepY, dx, dy);
      WalkAdvances(false, x0, RowOf(height, y0), 2 * dy - dx, dx + 1, stepX, stepY, dx, dy);
      StepwiseSame(false, w, r, stepX, stepY);
    }
  }

  /** Equal write lists are stepwise together. Stated apart so that `LinePathAdvances` does not
      unfold `Stepwise` on both lists, which keeps its proof within the resource limit. */
  lemma StepwiseSame(steep: bool, w: seq<Pixel>, r: seq<Pixel>, stepX: int, stepY: int)
    requires Stepwise(steep, w, stepX, stepY) && r == w
    ensures Stepwise(steep, r, stepX, stepY)
  {
  }

  /** `a` moved `k` units in the direction `step` (+1 or -1). */
  function Toward(a: int, step: int, k: int): int
  {
    if step < 0 then a - k else a + k
  }

  /** An error term strictly above -a/2 and at most a/2, in units of a, is zero. */
  lemma ErrorForcesZero(a: int, e: int)
    requires a > 0
    requires -a < 2 * a * e <= a
    ensures e == 0
  {
  }

  /** The decision-variable invariant of the midpoint loop, with driving distance dA and other
      distance dB, after k + 1 plots of which j were followed by a diagonal move. */
  predicate DecisionInvariant(dA: int, dB: int, k: int, j: int, d: int)
  {
    && 0 < dA && 0 <= dB <= dA
    && d == 2 * dB * (k + 1) - dA - 2 * dA * j
    && 2 * dB - 2 * dA < d <= 2 * dB
  }

  /** One iteration keeps the invariant: a positive d means a diagonal move and adds
      2*(dB - dA), otherwise 2*dB is added. */
  lemma DecisionStep(dA: int, dB: int, k: int, j: int, d: int)
    requires DecisionInvariant(dA, dB, k, j, d)
    ensures d > 0 ==> DecisionInvariant(dA, dB, k + 1, j + 1, d + 2 * (dB - dA))
    ensures d <= 0 ==> DecisionInvariant(dA, dB, k + 1, j, d + 2 * dB)
  {
    assert 2 * dB * (k + 2) == 2 * dB * (k + 1) + 2 * dB;
    assert 2 * dA * (j + 1) == 2 * dA * j + 2 * dA;
  }

  /** After the last plot (k == dA) exactly dB diagonal moves have been made. */
  lemma DecisionEnd(dA: int, dB: int, j: int, d: int)
    requires DecisionInvariant(dA, dB, dA, j, d)
    ensures j == dB
  {
    assert 2 * dB * (dA + 1) - 2 * dA * j == 2 * dA * (dB - j) + 2 * dB;
    ErrorForcesZero(dA, dB - j);
  }

  /** The shallow midpoint loop reaches its end point. Driven by x over dx + 1 plots, after k
      plots of which j were followed by a diagonal move, with the decision invariant holding,
      the last of the remaining n = dx + 1 - k plots lies n - 1 columns and dy - j rows further
      on. */
  lemma {:induction false} ShallowWalkReachesEnd(x: int, y: int, d: int, n: nat, stepX: int, stepY: int,
                                                  dx: int, dy: int, k: int, j: int)
    requires n >= 1 && (stepX == 1 || stepX == -1) && (stepY == 1 || stepY == -1)
    requires k + n == dx + 1 && DecisionInvariant(dx, dy, k, j, d)
    ensures Walk(false, x, y, d, n, stepX, stepY, dx, dy)[n - 1] ==
              Pixel(Toward(y, -stepY, dy - j), Toward(x, stepX, n - 1))
    decreases n
  {
    if n == 1 {
      DecisionEnd(dx, dy, j, d);
    } else {
      DecisionStep(dx, dy, k, j, d);
      if d <= 0 {
        var rest := Walk(false, x + stepX, y, d + 2 * dy, n - 1, stepX, stepY, dx, dy);
        assert Walk(false, x, y, d, n, stepX, stepY, dx, dy) == [Pixel(y, x)] + rest;
        ShallowWalkReachesEnd(x + stepX, y, d + 2 * dy, n - 1, stepX, stepY, dx, dy, k + 1, j);
        assert Toward(x + stepX, stepX, n - 2) == Toward(x, stepX, n - 1);
      } else {
        var rest := Walk(false, x + stepX, y - stepY, d + 2 * (dy - dx), n - 1, stepX, stepY, dx, dy);
        assert Walk(false, x, y, d, n, stepX, stepY, dx, dy) == [Pixel(y, x)] + rest;
        ShallowWalkReachesEnd(x + stepX, y - stepY, d + 2 * (dy - dx), n - 1, stepX, stepY, dx, dy, k + 1, j + 1);
        assert Toward(x + stepX, stepX, n - 2) == Toward(x, stepX, n - 1);
        assert Toward(y - stepY, -stepY, dy - (j + 1)) == Toward(y, -stepY, dy - j);
      }
    }
  }

  /** The steep midpoint loop reaches its end point: as the shallow case with the roles of x
      and y exchanged. */
  lemma {:induction false} SteepWalkReachesEnd(x: int, y: int, d: int, n: nat, stepX: int, stepY: int,
                                                dx: int, dy: int, k: int, j: int)
    requires n >= 1 && (stepX == 1 || stepX == -1) && (stepY == 1 || stepY == -1)
    requires k + n == dy + 1 && DecisionInvariant(dy, dx, k, j, d)
    ensures Walk(true, x, y, d, n, stepX, stepY, dx, dy)[n - 1] ==
              Pixel(Toward(y, -stepY, n - 1), Toward(x, stepX, dx - j))
    decreases n
  {
    if n == 1 {
      DecisionEnd(dy, dx, j, d);
    } else {
      DecisionStep(dy, dx, k, j, d);
      if d <= 0 {
        var rest := Walk(true, x, y - stepY, d + 2 * dx, n - 1, stepX, stepY, dx, dy);
        assert Walk(true, x, y, d, n, stepX, stepY, dx, dy) == [Pixel(y, x)] + rest;
        SteepWalkReachesEnd(x, y - stepY, d + 2 * dx, n - 1, stepX, stepY, dx, dy, k + 1, j);
        assert Toward(y - stepY, -stepY, n - 2) == Toward(y, -stepY, n - 1);
      } else {
        var rest := Walk(true, x + stepX, y - stepY, d + 2 * (dx - dy), n - 1, stepX, stepY, dx, dy);
        assert Walk(true, x, y, d, n, stepX, stepY, dx, dy) == [Pixel(y, x)] + rest;
        SteepWalkReachesEnd(x + stepX, y - stepY, d + 2 * (dx - dy), n - 1, stepX, stepY, dx, dy, k + 1, j + 1);
        assert Toward(y - stepY, -stepY, n - 2) == Toward(y, -stepY, n - 1);
        assert Toward(x + stepX, stepX, dx - (j + 1)) == Toward(x, stepX, dx - j);
      }
    }
  }

  /** Both endpoints are plotted: the last write of `draw_line` is the end point (x1, y1). */
  lemma LinePathEndsAtEnd(height: int, x0: int, y0: int, x1: int, y1: int)
    ensures var r := LinePath(height, x0, y0, x1, y1);
            r[|r| - 1] == Pixel(RowOf(height, y1), x1)
  {
    if Steep(x0, y0, x1, y1) {
      SteepPathEnds(height, x0, y0, x1, y1);
    } else {
      ShallowPathEnds(height, x0, y0, x1, y1);
    }
  }

  /** The end point of a shallow line is its write number dx. */
  lemma ShallowPathEnds(height: int, x0: int, y0: int, x1: int, y1: int)
    requires !Steep(x0, y0, x1, y1)
    ensures LinePath(height, x0, y0, x1, y1)[Abs(x1 - x0)] == Pixel(RowOf(height, y1), x1)
  {
    var stepX, stepY := Direction(x0, x1), Direction(y0, y1);
    var dx: int, dy: int := Abs(x1 - x0), Abs(y1 - y0);
    var row0 := RowOf(height, y0);
    var r := Walk(false, x0, row0, 2 * dy - dx, dx + 1, stepX, stepY, dx, dy);
    assert LinePath(height, x0, y0, x1, y1) == r;
    if dx > 0 {
      assert DecisionInvariant(dx, dy, 0, 0, 2 * dy - dx);
      ShallowWalkReachesEnd(x0, row0, 2 * dy - dx, dx + 1, stepX, stepY, dx, dy, 0, 0);
      assert r[dx] == Pixel(Toward(row0, -stepY, dy), Toward(x0, stepX, dx));
    }
  }

  /** The end point of a steep line is its write number dy. */
  lemma SteepPathEnds(height: int, x0: int, y0: int, x1: int, y1: int)
    requires Steep(x0, y0, x1, y1)
    ensures LinePath(height, x0, y0, x1, y1)[Abs(y1 - y0)] == Pixel(RowOf(height, y1), x1)
  {
    var stepX, stepY := Direction(x0, x1), Direction(y0, y1);
    var dx: int, dy: int := Abs(x1 - x0), Abs(y1 - y0);
    var row0 := RowOf(height, y0);
    var r := Walk(true, x0, row0, 2 * dx - dy, dy + 1, stepX, stepY, dx, dy);
    assert LinePath(height, x0, y0, x1, y1) == r;
    assert DecisionInvariant(dy, dx, 0, 0, 2 * dx - dy);
    SteepWalkReachesEnd(x0, row0, 2 * dx - dy, dy + 1, stepX, stepY, dx, dy, 0, 0);
    assert r[dy] == Pixel(Toward(row0, -stepY, dy), Toward(x0, stepX, dx));
  }

  /** Consecutive writes are 8-connected neighbours: each coordinate moves by at most one
      unit and at least one of them moves. */
  lemma LinePathIsEightConnected(height: int, x0: int, y0: int, x1: int, y1: int, i: int)
    requires 0 <= i < |LinePath(height, x0, y0, x1, y1)| - 1
    ensures var r := LinePath(height, x0, y0, x1, y1);
            && Abs(r[i + 1].row - r[i].row) <= 1
            && Abs(r[i + 1].col - r[i].col) <= 1
            && r[i + 1] != r[i]
  {
    LinePathAdvances(height, x0, y0, x1, y1);
  }

  /** `draw_line` written as in the source: pick the step directions, flip the rows, and run
      the shallow or the steep loop. */
  method RasterizeLine(height: int, x0: int, y0: int, x1: int, y1: int) returns (writes: seq<Pixel>)
    ensures writes == LinePath(height, x0, y0, x1, y1)
  {
    var stepX := if x1 < x0 then -1 else 1;
    var stepY := if y1 < y0 then -1 else 1;
    var dx: int, dy: int := Abs(x1 - x0), Abs(y1 - y0);
    var yInit := height - y0 - 1;
    if dy <= dx {
      writes := ShallowLoop(x0, yInit, stepX, stepY, dx, dy);
    } else {
      writes := SteepLoop(x0, yInit, stepX, stepY, dx, dy);
    }
  }

  /** Moving the head of the unplotted rest onto the plotted prefix keeps their concatenation. */
  lemma MoveHead<T>(done: seq<T>, p: T, rest: seq<T>, whole: seq<T>)
    requires done + ([p] + rest) == whole
    ensures (done + [p]) + rest == whole
  {
    assert (done + [p]) + rest == done + ([p] + rest);
  }

  /** The `slope < 1` loop: dx + 1 plots, x advancing every iteration. */
  method ShallowLoop(xInit: int, yInit: int, stepX: int, stepY: int, dx: int, dy: int) returns (writes: seq<Pixel>)
    requires dx >= 0
    ensures writes == Walk(false, xInit, yInit, 2 * dy - dx, dx + 1, stepX, stepY, dx, dy)
  {
    ghost var whole := Walk(false, xInit, yInit, 2 * dy - dx, dx + 1, stepX, stepY, dx, dy);
    var deltaE, deltaNE := 2 * dy, 2 * (dy - dx);
    var d := 2 * dy - dx;
    var x, y := xInit, yInit;
    var k := 0;
    writes := [];
    while k < dx + 1
      invariant 0 <= k <= dx + 1
      invariant writes + Walk(false, x, y, d, dx + 1 - k, stepX, stepY, dx, dy) == whole
    {
      ghost var before, p := writes, Pixel(y, x);
      ghost var here := Walk(false, x, y, d, dx + 1 - k, stepX, stepY, dx, dy);
      writes := writes + [Pixel(y, x)];
      if d <= 0 {
        x := x + stepX;
        d := d + deltaE;
      } else {
        x := x + stepX;
        y := y - stepY;
        d := d + deltaNE;
      }
      k := k + 1;
      assert here == [p] + Walk(false, x, y, d, dx + 1 - k, stepX, stepY, dx, dy);
      MoveHead(before, p, Walk(false, x, y, d, dx + 1 - k, stepX, stepY, dx, dy), whole);
    }
    assert writes + [] == writes;
  }

  /** The `slope > 1` loop: dy + 1 plots, the storage row moving every iteration. */
  method SteepLoop(xInit: int, yInit: int, stepX: int, stepY: int, dx: int, dy: int) returns (writes: seq<Pixel>)
    requires dy >= 0
    ensures writes == Walk(true, xInit, yInit, 2 * dx - dy, dy + 1, stepX, stepY, dx, dy)
  {
    ghost var whole := Walk(true, xInit, yInit, 2 * dx - dy, dy + 1, stepX, stepY, dx, dy);
    var deltaE, deltaNE := 2 * dx, 2 * (dx - dy);
    var d := 2 * dx - dy;
    var x, y := xInit, yInit;
    var k := 0;
    writes := [];
    while k < dy + 1
      invariant 0 <= k <= dy + 1
      invariant writes + Walk(true, x, y, d, dy + 1 - k, stepX, stepY, dx, dy) == whole
    {
      ghost var before, p := writes, Pixel(y, x);
      ghost var here := Walk(true, x, y, d, dy + 1 - k, stepX, stepY, dx, dy);
      writes := writes + [Pixel(y, x)];
      if d <= 0 {
        y := y - stepY;
        d := d + deltaE;
      } else {
        y := y - stepY;
        x := x + stepX;
        d := d + deltaNE;
      }
      k := k + 1;
      assert here == [p] + Walk(true, x, y, d, dy + 1 - k, stepX, stepY, dx, dy);
      MoveHead(before, p, Walk(true, x, y, d, dy + 1 - k, stepX, stepY, dx, dy), whole);
    }
    assert writes + [] == writes;
  }

  /** The 4 x 4 diagonal from model (0, 0) to (3, 3): one write per column, climbing from the
      bottom-left storage position to the top-right one. */
  lemma DiagonalOnFourByFour()
    ensures LinePath(4, 0, 0, 3, 3) == [Pixel(3, 0), Pixel(2, 1), Pixel(1, 2), Pixel(0, 3)]
  {
    assert Walk(false, 3, 0, 3, 1, 1, 1, 3, 3) == [Pixel(0, 3)];
    assert Walk(false, 2, 1, 3, 2, 1, 1, 3, 3) == [Pixel(1, 2), Pixel(0, 3)];
    assert Walk(false, 1, 2, 3, 3, 1, 1, 3, 3) == [Pixel(2, 1), Pixel(1, 2), Pixel(0, 3)];
  }

  /** The writes depend on the direction a segment is drawn in: from model (0, 0) to (2, 1)
      the middle write stays on the start row, from (2, 1) back to (0, 0) it stays on the
      other end's row, so the two directions paint different pixel sets. */
  lemma LinePathDependsOnDirection()
    ensures LinePath(3, 0, 0, 2, 1) == [Pixel(2, 0), Pixel(2, 1), Pixel(1, 2)]
    ensures LinePath(3, 2, 1, 0, 0) == [Pixel(1, 2), Pixel(1, 1), Pixel(2, 0)]
    ensures Pixel(2, 1) in LinePath(3, 0, 0, 2, 1) && Pixel(2, 1) !in LinePath(3, 2, 1, 0, 0)
  {
    assert Walk(false, 2, 1, 0, 1, 1, 1, 2, 1) == [Pixel(1, 2)];
    assert Walk(false, 1, 2, 2, 2, 1, 1, 2, 1) == [Pixel(2, 1), Pixel(1, 2)];
    assert Walk(false, 0, 2, 0, 1, -1, -1, 2, 1) == [Pixel(2, 0)];
    assert Walk(false, 1, 1, 2, 2, -1, -1, 2, 1) == [Pixel(1, 1), Pixel(2, 0)];
    var back := LinePath(3, 2, 1, 0, 0);
    assert back[0] != Pixel(2, 1) && back[1] != Pixel(2, 1) && back[2] != Pixel(2, 1);
  }
}
