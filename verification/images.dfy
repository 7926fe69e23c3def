/** The pixel buffer: `image[row][col]`, one RGB colour per pixel, and the two ways the source
    files store a rasterized line into it (TrabCG.py wraps indices, draw_line.py does not). */
module Images {
  import opened Results
  import opened Raster

  /** One 8-bit channel (numpy `uint8`). */
  type Channel = n: int | 0 <= n <= 255

  datatype Color = Color(red: Channel, green: Channel, blue: Channel)

  /** The initial background (`DEFAULT_BACKGROUND = 255` in every channel). */
  const White: Color := Color(255, 255, 255)

  /** The initial draw colour (`DEFAULT_COLOR = (0, 0, 0)`). */
  const Black: Color := Color(0, 0, 0)

  /** Rows top to bottom, each row left to right. */
  type Image = seq<seq<Color>>

  predicate Shaped(img: Image, width: int, height: int)
  {
    |img| == height && forall i :: 0 <= i < |img| ==> |img[i]| == width
  }

  predicate InBounds(img: Image, p: Pixel)
  {
    0 <= p.row < |img| && 0 <= p.col < |img[p.row]|
  }

  predicate AllInBounds(img: Image, ps: seq<Pixel>)
  {
    forall k :: 0 <= k < |ps| ==> InBounds(img, ps[k])
  }

  predicate SameShape(a: Image, b: Image)
  {
    |a| == |b| && forall i :: 0 <= i < |a| ==> |a[i]| == |b[i]|
  }

  /** Two images of the same shape that agree on every pixel are equal. */
  lemma PixelwiseEqual(a: Image, b: Image)
    requires SameShape(a, b)
    requires forall i, j :: 0 <= i < |a| && 0 <= j < |a[i]| ==> a[i][j] == b[i][j]
    ensures a == b
  {
    forall i | 0 <= i < |a|
      ensures a[i] == b[i]
    {
    }
  }

  /** `image[:, :] = color` on a fresh width x height image. */
  function Fill(width: nat, height: nat, c: Color): (img: Image)
    ensures Shaped(img, width, height)
    ensures forall i, j :: 0 <= i < height && 0 <= j < width ==> img[i][j] == c
  {
    seq(height, _ => seq(width, _ => c))
  }

  /** One write `image[p.row][p.col] = c`. */
  function Plot(img: Image, p: Pixel, c: Color): (r: Image)
    requires InBounds(img, p)
    ensures SameShape(r, img)
    ensures forall i, j :: 0 <= i < |r| && 0 <= j < |r[i]| ==>
              r[i][j] == if Pixel(i, j) == p then c else img[i][j]
  {
    img[p.row := img[p.row][p.col := c]]
  }

  /** The writes `ws`, in order, all with colour `c`. */
  function Paint(img: Image, ws: seq<Pixel>, c: Color): (r: Image)
    requires AllInBounds(img, ws)
    ensures SameShape(r, img)
    ensures forall i, j :: 0 <= i < |r| && 0 <= j < |r[i]| ==>
              r[i][j] == if Pixel(i, j) in ws then c else img[i][j]
    decreases |ws|
  {
    if ws == [] then img
    else
      var next := Plot(img, ws[0], c);
      assert AllInBounds(next, ws[1..]) by {
        forall k | 0 <= k < |ws| - 1
          ensures InBounds(next, ws[1..][k])
        {
          assert ws[1..][k] == ws[k + 1];
        }
      }
      assert forall p :: p in ws <==> p == ws[0] || p in ws[1..] by {
        assert ws == [ws[0]] + ws[1..];
      }
      Paint(next, ws[1..], c)
  }

  /** Painting two lists of writes one after the other is painting their concatenation. */
  lemma PaintConcat(img: Image, a: seq<Pixel>, b: seq<Pixel>, c: Color)
    requires AllInBounds(img, a) && AllInBounds(img, b)
    ensures AllInBounds(Paint(img, a, c), b)
    ensures AllInBounds(img, a + b)
    ensures Paint(Paint(img, a, c), b, c) == Paint(img, a + b, c)
  {
    var mid := Paint(img, a, c);
    assert AllInBounds(mid, b) by {
      forall k | 0 <= k < |b|
        ensures InBounds(mid, b[k])
      {
        assert InBounds(img, b[k]);
      }
    }
    assert AllInBounds(img, a + b) by {
      forall k | 0 <= k < |a + b|
        ensures InBounds(img, (a + b)[k])
      {
        if k < |a| {
          assert (a + b)[k] == a[k];
        } else {
          assert (a + b)[k] == b[k - |a|];
        }
      }
    }
    var left, right := Paint(mid, b, c), Paint(img, a + b, c);
    assert forall p :: p in a + b <==> p in a || p in b;
    PixelwiseEqual(left, right);
  }

  /** TrabCG.py's `image[y % height][x % width]`: Python's `%` by a positive modulus, like
      Dafny's, never returns a negative remainder. */
  function Wrap(p: Pixel, width: int, height: int): (q: Pixel)
    requires width > 0 && height > 0
    ensures 0 <= q.row < height && 0 <= q.col < width
  {
    Pixel(p.row % height, p.col % width)
  }

  /** Wrapping leaves positions that are already inside the image where they are. */
  lemma WrapInside(p: Pixel, width: int, height: int)
    requires 0 <= p.row < height && 0 <= p.col < width
    ensures Wrap(p, width, height) == p
  {
  }

  /** The writes of TrabCG.py's `draw_line`: the midpoint path with every index wrapped. */
  function WrappedPath(width: int, height: int, x0: int, y0: int, x1: int, y1: int): (r: seq<Pixel>)
    requires width > 0 && height > 0
    ensures |r| == Max(Abs(x1 - x0), Abs(y1 - y0)) + 1
    ensures forall k :: 0 <= k < |r| ==> 0 <= r[k].row < height && 0 <= r[k].col < width
    ensures forall k :: 0 <= k < |r| ==> r[k] == Wrap(LinePath(height, x0, y0, x1, y1)[k], width, height)
  {
    var path := LinePath(height, x0, y0, x1, y1);
    seq(|path|, k requires 0 <= k < |path| => Wrap(path[k], width, height))
  }

  /** Every wrapped write lands inside an image of that shape. */
  lemma WrappedPathInBounds(img: Image, width: int, height: int, x0: int, y0: int, x1: int, y1: int)
    requires width > 0 && height > 0 && Shaped(img, width, height)
    ensures AllInBounds(img, WrappedPath(width, height, x0, y0, x1, y1))
  {
  }

  /** TrabCG.py's `draw_line` on the image. */
  function DrawWrapped(img: Image, width: int, height: int, x0: int, y0: int, x1: int, y1: int, c: Color): (r: Image)
    requires width > 0 && height > 0 && Shaped(img, width, height)
    ensures Shaped(r, width, height)
    ensures forall i, j :: 0 <= i < height && 0 <= j < width ==>
              r[i][j] == if Pixel(i, j) in WrappedPath(width, height, x0, y0, x1, y1) then c else img[i][j]
  {
    WrappedPathInBounds(img, width, height, x0, y0, x1, y1);
    Paint(img, WrappedPath(width, height, x0, y0, x1, y1), c)
  }

  /** Both endpoints, wrapped, get the colour. */
  lemma DrawWrappedPaintsEndpoints(img: Image, width: int, height: int, x0: int, y0: int, x1: int, y1: int, c: Color)
    requires width > 0 && height > 0 && Shaped(img, width, height)
    ensures var r := DrawWrapped(img, width, height, x0, y0, x1, y1, c);
            && r[RowOf(height, y0) % height][x0 % width] == c
            && r[RowOf(height, y1) % height][x1 % width] == c
  {
    var path := WrappedPath(width, height, x0, y0, x1, y1);
    LinePathEndsAtEnd(height, x0, y0, x1, y1);
    assert path[0] == Pixel(RowOf(height, y0) % height, x0 % width);
    assert path[|path| - 1] == Pixel(RowOf(height, y1) % height, x1 % width);
  }

  /** Every position of the unwrapped path lies inside a width x height image. */
  predicate PathInside(width: int, height: int, x0: int, y0: int, x1: int, y1: int)
  {
    var path := LinePath(height, x0, y0, x1, y1);
    forall k :: 0 <= k < |path| ==> 0 <= path[k].row < height && 0 <= path[k].col < width
  }

  /** numpy accepts an index into an axis of length n when it lies in [-n, n). */
  predicate Indexable(p: Pixel, width: int, height: int)
  {
    -height <= p.row < height && -width <= p.col < width
  }

  /** numpy's `a[i]` on an axis of length n, for an accepted index: a negative index counts
      from the end. */
  function AxisIndex(i: int, n: int): (r: int)
    requires -n <= i < n
    ensures 0 <= r < n
    ensures i >= 0 ==> r == i
    ensures i < 0 ==> r == i + n
  {
    if i < 0 then i + n else i
  }

  /** draw_line.py's `image[y][x]` for an accepted position. */
  function RawIndex(p: Pixel, width: int, height: int): (q: Pixel)
    requires Indexable(p, width, height)
    ensures 0 <= q.row < height && 0 <= q.col < width
  {
    Pixel(AxisIndex(p.row, height), AxisIndex(p.col, width))
  }

  /** Where numpy accepts an index it lands where the modulo wrap would put it. */
  lemma RawIndexIsWrap(p: Pixel, width: int, height: int)
    requires width > 0 && height > 0 && Indexable(p, width, height)
    ensures RawIndex(p, width, height) == Wrap(p, width, height)
  {
    ModOfNegative(p.row, height);
    ModOfNegative(p.col, width);
  }

  /** A remainder by a positive n: an index in [-n, 0) goes up by n, one in [0, n) stays. */
  lemma ModOfNegative(i: int, n: int)
    requires 0 < n && -n <= i < n
    ensures i % n == if i < 0 then i + n else i
  {
  }

  /** The writes of draw_line.py's `draw_line`, or `None` when one of them raises IndexError
      (which ends the program before any output is written). */
  function RawPath(width: int, height: int, x0: int, y0: int, x1: int, y1: int): (r: Option<seq<Pixel>>)
    requires width > 0 && height > 0
    ensures var path := LinePath(height, x0, y0, x1, y1);
            && (r.Some? <==> forall k :: 0 <= k < |path| ==> Indexable(path[k], width, height))
            && (r.Some? ==> |r.value| == |path|)
            && (r.Some? ==> forall k :: 0 <= k < |r.value| ==> 0 <= r.value[k].row < height && 0 <= r.value[k].col < width)
  {
    var path := LinePath(height, x0, y0, x1, y1);
    if forall k :: 0 <= k < |path| ==> Indexable(path[k], width, height) then
      Some(seq(|path|, k requires 0 <= k < |path| => RawIndex(path[k], width, height)))
    else
      None
  }

  /** When draw_line.py's line does not raise, it writes exactly the positions TrabCG.py's
      wrapped line writes. */
  lemma RawPathIsWrappedPath(width: int, height: int, x0: int, y0: int, x1: int, y1: int)
    requires width > 0 && height > 0
    ensures RawPath(width, height, x0, y0, x1, y1).Some? ==>
              RawPath(width, height, x0, y0, x1, y1).value == WrappedPath(width, height, x0, y0, x1, y1)
  {
    var path := LinePath(height, x0, y0, x1, y1);
    var r := RawPath(width, height, x0, y0, x1, y1);
    if r.Some? {
      forall k | 0 <= k < |path|
        ensures r.value[k] == WrappedPath(width, height, x0, y0, x1, y1)[k]
      {
        RawIndexIsWrap(path[k], width, height);
      }
    }
  }

  /** A path that stays inside the image is written unchanged. */
  lemma RawPathInside(width: int, height: int, x0: int, y0: int, x1: int, y1: int)
    requires width > 0 && height > 0 && PathInside(width, height, x0, y0, x1, y1)
    ensures RawPath(width, height, x0, y0, x1, y1) == Some(LinePath(height, x0, y0, x1, y1))
  {
    var path := LinePath(height, x0, y0, x1, y1);
    assert RawPath(width, height, x0, y0, x1, y1).value == path;
  }

  /** A line starting a row below the image (model y == -1) raises instead of wrapping, while
      one starting a row above it (model y == height) wraps to the bottom row. */
  lemma RawPathAsymmetricEdges(width: int, height: int)
    requires width > 0 && height > 0
    ensures RawPath(width, height, 0, -1, 0, -1).None?
    ensures RawPath(width, height, 0, height, 0, height) == Some([Pixel(height - 1, 0)])
  {
    var below := LinePath(height, 0, -1, 0, -1);
    assert below[0] == Pixel(height, 0);
    var above := LinePath(height, 0, height, 0, height);
    assert |above| == 1 && above[0] == Pixel(-1, 0);
    assert Indexable(above[0], width, height);
    var r := RawPath(width, height, 0, height, 0, height);
    assert r.Some? && |r.value| == 1;
    assert r.value[0] == Pixel(height - 1, 0);
    assert r.value == [Pixel(height - 1, 0)];
  }

  /** draw_line.py's `draw_line` on the image, or `None` when a write raises IndexError. */
  function DrawRaw(img: Image, width: int, height: int, x0: int, y0: int, x1: int, y1: int, c: Color): (r: Option<Image>)
    requires width > 0 && height > 0 && Shaped(img, width, height)
    ensures r.Some? <==> RawPath(width, height, x0, y0, x1, y1).Some?
    ensures r.Some? ==> Shaped(r.value, width, height)
    ensures r.Some? ==> forall i, j :: 0 <= i < height && 0 <= j < width ==>
              r.value[i][j] == if Pixel(i, j) in WrappedPath(width, height, x0, y0, x1, y1) then c else img[i][j]
  {
    match RawPath(width, height, x0, y0, x1, y1)
    case None => None
    case Some(ws) =>
      RawPathIsWrappedPath(width, height, x0, y0, x1, y1);
      Some(Paint(img, ws, c))
  }

  /** Inside the image, both endpoints get the colour and nothing off the midpoint path
      changes. */
  lemma DrawRawPaintsEndpoints(img: Image, width: int, height: int, x0: int, y0: int, x1: int, y1: int, c: Color)
    requires width > 0 && height > 0 && Shaped(img, width, height) && PathInside(width, height, x0, y0, x1, y1)
    ensures var r := DrawRaw(img, width, height, x0, y0, x1, y1, c);
            && r.Some?
            && 0 <= RowOf(height, y0) < height && 0 <= x0 < width
            && 0 <= RowOf(height, y1) < height && 0 <= x1 < width
            && r.value[RowOf(height, y0)][x0] == c
            && r.value[RowOf(height, y1)][x1] == c
            && forall i, j :: 0 <= i < height && 0 <= j < width && Pixel(i, j) !in LinePath(height, x0, y0, x1, y1) ==>
                 r.value[i][j] == img[i][j]
  {
    var path := LinePath(height, x0, y0, x1, y1);
    RawPathInside(width, height, x0, y0, x1, y1);
    RawPathIsWrappedPath(width, height, x0, y0, x1, y1);
    LinePathEndsAtEnd(height, x0, y0, x1, y1);
    assert path[0] in path;
    assert path[|path| - 1] in path;
  }
}
