/** Geometry expansion: how the `P` (polyline) and `R` (polygon) commands turn a flat list of
    coordinates into an ordered list of segments, in each source file's own indexing scheme,
    and the reference definitions both schemes agree with. */
module Geometry {

  /** A point in model coordinates, Y growing upward. */
  datatype Point = Point(x: int, y: int)

  /** One call of `draw_line`, from `from` to `to`. */
  datatype Segment = Segment(from: Point, to: Point)

  /** The flat coordinate list x0 y0 x1 y1 ... read as points. */
  function Pairs(flat: seq<int>): (pts: seq<Point>)
    requires |flat| % 2 == 0
    ensures 2 * |pts| == |flat|
    ensures forall i :: 0 <= i < |pts| ==> pts[i] == Point(flat[2 * i], flat[2 * i + 1])
    decreases |flat|
  {
    if flat == [] then [] else [Point(flat[0], flat[1])] + Pairs(flat[2..])
  }

  /** Reference definition of an open polyline: the segments p[i] -> p[i+1], in order. */
  function Chain(pts: seq<Point>): seq<Segment>
  {
    if |pts| <= 1 then []
    else seq(|pts| - 1, i requires 0 <= i < |pts| - 1 => Segment(pts[i], pts[i + 1]))
  }

  /** Reference definition of a polygon outline: the polyline, then the closing segment from
      the last point back to the first. */
  function Loop(pts: seq<Point>): seq<Segment>
    requires |pts| >= 1
  {
    Chain(pts) + [Segment(pts[|pts| - 1], pts[0])]
  }

  /** The segment loop of TrabCG.py over the coordinates left after the count has been
      removed: `for ind in range(0, 2N - 2, 2)` joins (flat[ind], flat[ind+1]) to
      (flat[ind+2], flat[ind+3]). */
  function SliceSegments(flat: seq<int>, ind: nat): (r: seq<Segment>)
    requires |flat| % 2 == 0 && ind % 2 == 0
    decreases |flat| - ind
  {
    if ind + 2 >= |flat| then []
    else [Segment(Point(flat[ind], flat[ind + 1]), Point(flat[ind + 2], flat[ind + 3]))]
         + SliceSegments(flat, ind + 2)
  }

  /** The closing segment of TrabCG.py: from the last pair `flat[-2:]` to the first `flat[:2]`. */
  function SliceClosing(flat: seq<int>): Segment
    requires |flat| >= 2
  {
    Segment(Point(flat[|flat| - 2], flat[|flat| - 1]), Point(flat[0], flat[1]))
  }

  /** The segment loop of draw_line.py over all the parameters, the count N included:
      `count` more iterations, the current one joining (params[b], params[b+1]) to
      (params[b+2], params[b+3]). */
  function StrideSegments(params: seq<int>, b: nat, count: nat): seq<Segment>
    requires count == 0 || b + 2 * count + 2 <= |params|
    decreases count
  {
    if count == 0 then []
    else [Segment(Point(params[b], params[b + 1]), Point(params[b + 2], params[b + 3]))]
         + StrideSegments(params, b + 2, count - 1)
  }

  /** The closing segment of draw_line.py: from (params[-2], params[-1]) to (params[1], params[2]). */
  function StrideClosing(params: seq<int>): Segment
    requires |params| >= 3
  {
    Segment(Point(params[|params| - 2], params[|params| - 1]), Point(params[1], params[2]))
  }

  /** A polyline through N points has N - 1 segments (none for fewer than two points), each
      joining a point to the next. */
  lemma ChainJoinsNeighbours(pts: seq<Point>)
    ensures |Chain(pts)| == if |pts| == 0 then 0 else |pts| - 1
    ensures forall i :: 0 <= i < |Chain(pts)| ==> Chain(pts)[i] == Segment(pts[i], pts[i + 1])
  {
  }

  /** A polygon draws exactly the polyline's segments followed by one closing segment. */
  lemma LoopClosesChain(pts: seq<Point>)
    requires |pts| >= 1
    ensures |Loop(pts)| == |pts|
    ensures Loop(pts)[..|pts| - 1] == Chain(pts)
    ensures Loop(pts)[|pts| - 1] == Segment(pts[|pts| - 1], pts[0])
  {
  }

  /** The TrabCG.py loop from index 2*i draws exactly the chain segments from point i on. */
  lemma {:induction false} SliceSegmentsFrom(flat: seq<int>, i: nat)
    requires |flat| % 2 == 0 && 2 * i + 2 <= |flat|
    ensures SliceSegments(flat, 2 * i) == Chain(Pairs(flat))[i..]
    decreases |flat| - 2 * i
  {
    var pts := Pairs(flat);
    var c := Chain(pts);
    if 2 * i + 2 < |flat| {
      SliceSegmentsFrom(flat, i + 1);
      assert c[i] == Segment(Point(flat[2 * i], flat[2 * i + 1]), Point(flat[2 * i + 2], flat[2 * i + 3])) by {
        assert pts[i + 1] == Point(flat[2 * (i + 1)], flat[2 * (i + 1) + 1]);
      }
      assert c[i..] == [c[i]] + c[i + 1..];
    }
  }

  /** TrabCG.py's polyline loop draws exactly the reference polyline through the points. */
  lemma SliceSegmentsIsChain(flat: seq<int>)
    requires |flat| % 2 == 0
    ensures SliceSegments(flat, 0) == Chain(Pairs(flat))
  {
    if |flat| >= 2 {
      SliceSegmentsFrom(flat, 0);
    }
  }

  /** TrabCG.py's closing segment joins the last point to the first. */
  lemma SliceClosingIsLoopEnd(flat: seq<int>)
    requires |flat| % 2 == 0 && |flat| >= 2
    ensures SliceSegments(flat, 0) + [SliceClosing(flat)] == Loop(Pairs(flat))
  {
    SliceSegmentsIsChain(flat);
    var pts := Pairs(flat);
    var n := |pts|;
    assert 2 * (n - 1) == |flat| - 2;
    assert pts[n - 1] == Point(flat[2 * (n - 1)], flat[2 * (n - 1) + 1]);
    assert SliceClosing(flat) == Segment(pts[n - 1], pts[0]);
  }

  /** The draw_line.py loop from parameter index b = 2*i + 1 draws what the TrabCG.py loop
      draws from index 2*i of the parameters after the count. */
  lemma {:induction false} StrideIsSlice(params: seq<int>, i: nat, count: nat)
    requires 2 * i + 2 * count + 3 == |params|
    ensures StrideSegments(params, 2 * i + 1, count) == SliceSegments(params[1..], 2 * i)
    decreases count
  {
    var flat := params[1..];
    if count > 0 {
      StrideIsSlice(params, i + 1, count - 1);
      assert flat[2 * i] == params[2 * i + 1] && flat[2 * i + 1] == params[2 * i + 2];
      assert flat[2 * i + 2] == params[2 * i + 3] && flat[2 * i + 3] == params[2 * i + 4];
    }
  }

  /** draw_line.py's polyline loop (`b = 1, 3, ...`, N - 1 iterations) draws exactly the
      reference polyline through the N points after the count. */
  lemma StrideSegmentsIsChain(params: seq<int>, n: int)
    requires n >= 1 && |params| == 2 * n + 1
    ensures StrideSegments(params, 1, n - 1) == Chain(Pairs(params[1..]))
  {
    StrideIsSlice(params, 0, n - 1);
    SliceSegmentsIsChain(params[1..]);
  }

  /** draw_line.py's closing segment joins the last point to the first. */
  lemma StrideClosingIsLoopEnd(params: seq<int>, n: int)
    requires n >= 1 && |params| == 2 * n + 1
    ensures StrideSegments(params, 1, n - 1) + [StrideClosing(params)] == Loop(Pairs(params[1..]))
  {
    StrideSegmentsIsChain(params, n);
    var pts := Pairs(params[1..]);
    assert pts[|pts| - 1] == Point(params[|params| - 2], params[|params| - 1]);
    assert pts[0] == Point(params[1], params[2]);
  }
}
