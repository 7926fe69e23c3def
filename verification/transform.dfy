/** The 3x3 homogeneous transform: `M` sets it, `m` composes it, and `apply_matrix` maps a
    model point to integer device coordinates. Float64 arithmetic is modelled over `real`. */
module Transform {

  /** A 3x3 matrix stored row-major as numpy's `reshape(3, 3)` lays it out. */
  type Mat3 = m: seq<seq<real>> | |m| == 3 && |m[0]| == 3 && |m[1]| == 3 && |m[2]| == 3
    witness [[0.0, 0.0, 0.0], [0.0, 0.0, 0.0], [0.0, 0.0, 0.0]]

  /** A homogeneous vector (x, y, w). */
  datatype Vec3 = Vec3(x: real, y: real, w: real)

  const Identity: Mat3 := [[1.0, 0.0, 0.0], [0.0, 1.0, 0.0], [0.0, 0.0, 1.0]]

  /** Nine parameters read row by row into a matrix. */
  function FromRowMajor(v: seq<real>): (m: Mat3)
    requires |v| == 9
  {
    [[v[0], v[1], v[2]], [v[3], v[4], v[5]], [v[6], v[7], v[8]]]
  }

  /** The matrix read back row by row. */
  function ToRowMajor(m: Mat3): seq<real>
  {
    m[0] + m[1] + m[2]
  }

  /** Row `i` of `a` times column `j` of `b`. */
  function Entry(a: Mat3, b: Mat3, i: nat, j: nat): real
    requires i < 3 && j < 3
  {
    a[i][0] * b[0][j] + a[i][1] * b[1][j] + a[i][2] * b[2][j]
  }

  /** The matrix product `a . b` (numpy's `a.dot(b)`). */
  function Mul(a: Mat3, b: Mat3): (c: Mat3)
  {
    seq(3, i requires 0 <= i < 3 => seq(3, j requires 0 <= j < 3 => Entry(a, b, i, j)))
  }

  /** The homogeneous image `m . v`. */
  function Apply(m: Mat3, v: Vec3): Vec3
  {
    Vec3(m[0][0] * v.x + m[0][1] * v.y + m[0][2] * v.w,
         m[1][0] * v.x + m[1][1] * v.y + m[1][2] * v.w,
         m[2][0] * v.x + m[2][1] * v.y + m[2][2] * v.w)
  }

  /** The homogeneous image of the model point (x, y), i.e. of (x, y, 1). */
  function Project(m: Mat3, x: int, y: int): Vec3
  {
    Apply(m, Vec3(x as real, y as real, 1.0))
  }

  /** Python's `int()` of a float: truncation toward zero. */
  function Trunc(r: real): (n: int)
    ensures r >= 0.0 ==> n >= 0 && n as real <= r < n as real + 1.0
    ensures r < 0.0 ==> n <= 0 && n as real - 1.0 < r <= n as real
  {
    if r >= 0.0 then r.Floor else -((-r).Floor)
  }

  /** `apply_matrix`: the homogeneous divide by w, then each coordinate truncated toward zero.
      The source divides by whatever w is; a zero w is excluded here (see the interpreter). */
  function ApplyMatrix(m: Mat3, x: int, y: int): (r: (int, int))
    requires Project(m, x, y).w != 0.0
  {
    var v := Project(m, x, y);
    (Trunc(v.x / v.w), Trunc(v.y / v.w))
  }

  /** Reading nine values into a matrix and back gives the nine values. */
  lemma RowMajorRoundTrip(v: seq<real>)
    requires |v| == 9
    ensures ToRowMajor(FromRowMajor(v)) == v
  {
  }

  /** ... and reading back any matrix's nine values gives the matrix. */
  lemma RowMajorRoundTripMatrix(m: Mat3)
    ensures |ToRowMajor(m)| == 9 && FromRowMajor(ToRowMajor(m)) == m
  {
    assert m[0] == [m[0][0], m[0][1], m[0][2]];
    assert m[1] == [m[1][0], m[1][1], m[1][2]];
    assert m[2] == [m[2][0], m[2][1], m[2][2]];
  }

  /** The identity is neutral on both sides, so composing with it changes nothing. */
  lemma MulIdentity(a: Mat3)
    ensures Mul(a, Identity) == a
    ensures Mul(Identity, a) == a
  {
    var r, l := Mul(a, Identity), Mul(Identity, a);
    forall i, j | 0 <= i < 3 && 0 <= j < 3
      ensures r[i][j] == a[i][j] && l[i][j] == a[i][j]
    {
    }
    assert r[0] == a[0] && r[1] == a[1] && r[2] == a[2];
    assert l[0] == a[0] && l[1] == a[1] && l[2] == a[2];
  }

  /** One coordinate of `(a . b) . v` regrouped as the row of `a` against `b . v`: with
      c_j = sum_k a_k * b_kj and p_k = sum_j b_kj * v_j, sum_j c_j * v_j == sum_k a_k * p_k. */
  lemma Regroup(a0: real, a1: real, a2: real,
                b00: real, b01: real, b02: real, b10: real, b11: real, b12: real, b20: real, b21: real, b22: real,
                x: real, y: real, w: real, c0: real, c1: real, c2: real, p0: real, p1: real, p2: real)
    requires c0 == a0 * b00 + a1 * b10 + a2 * b20
    requires c1 == a0 * b01 + a1 * b11 + a2 * b21
    requires c2 == a0 * b02 + a1 * b12 + a2 * b22
    requires p0 == b00 * x + b01 * y + b02 * w
    requires p1 == b10 * x + b11 * y + b12 * w
    requires p2 == b20 * x + b21 * y + b22 * w
    ensures c0 * x + c1 * y + c2 * w == a0 * p0 + a1 * p1 + a2 * p2
  {
  }

  /** The product acts as the composition of its factors, right factor first:
      `(a . b) . v == a . (b . v)`. */
  lemma MulIsComposition(a: Mat3, b: Mat3, v: Vec3)
    ensures Apply(Mul(a, b), v) == Apply(a, Apply(b, v))
  {
    var c, bv := Mul(a, b), Apply(b, v);
    RowOfProduct(a, b, v, 0);
    RowOfProduct(a, b, v, 1);
    RowOfProduct(a, b, v, 2);
    var l, r := Apply(c, v), Apply(a, bv);
    assert l.x == r.x && l.y == r.y && l.w == r.w;
  }

  /** Row `i` of `(a . b) . v` equals row `i` of `a . (b . v)`. */
  lemma RowOfProduct(a: Mat3, b: Mat3, v: Vec3, i: nat)
    requires i < 3
    ensures var c, bv := Mul(a, b), Apply(b, v);
            c[i][0] * v.x + c[i][1] * v.y + c[i][2] * v.w == a[i][0] * bv.x + a[i][1] * bv.y + a[i][2] * bv.w
  {
    var c, bv := Mul(a, b), Apply(b, v);
    assert c[i][0] == Entry(a, b, i, 0) && c[i][1] == Entry(a, b, i, 1) && c[i][2] == Entry(a, b, i, 2);
    Regroup(a[i][0], a[i][1], a[i][2], b[0][0], b[0][1], b[0][2], b[1][0], b[1][1], b[1][2], b[2][0], b[2][1], b[2][2],
            v.x, v.y, v.w, c[i][0], c[i][1], c[i][2], bv.x, bv.y, bv.w);
  }

  /** Truncation leaves whole numbers alone. */
  lemma TruncOfInt(n: int)
    ensures Trunc(n as real) == n
  {
  }

  /** Under the identity, `apply_matrix` returns integer inputs unchanged. */
  lemma ApplyIdentity(x: int, y: int)
    ensures Project(Identity, x, y).w == 1.0
    ensures ApplyMatrix(Identity, x, y) == (x, y)
  {
    var v := Project(Identity, x, y);
    assert v == Vec3(x as real, y as real, 1.0);
    TruncOfInt(x);
    TruncOfInt(y);
  }

  /** The matrix of the translation by (tx, ty). */
  function Translation(tx: real, ty: real): Mat3
  {
    [[1.0, 0.0, tx], [0.0, 1.0, ty], [0.0, 0.0, 1.0]]
  }

  /** `apply_matrix` of an integer translation moves integer points by exactly that offset. */
  lemma ApplyTranslation(tx: int, ty: int, x: int, y: int)
    ensures Project(Translation(tx as real, ty as real), x, y).w == 1.0
    ensures ApplyMatrix(Translation(tx as real, ty as real), x, y) == (x + tx, y + ty)
  {
    var v := Project(Translation(tx as real, ty as real), x, y);
    assert v == Vec3((x + tx) as real, (y + ty) as real, 1.0);
    TruncOfInt(x + tx);
    TruncOfInt(y + ty);
  }

  /** The order of composition matters: translating by (1, 0) and scaling by 2 do not commute,
      so the two source files' `m` (post- versus pre-multiplication) disagree in general. */
  lemma CompositionOrderMatters()
    ensures var t: Mat3 := [[1.0, 0.0, 1.0], [0.0, 1.0, 0.0], [0.0, 0.0, 1.0]];
            var s: Mat3 := [[2.0, 0.0, 0.0], [0.0, 2.0, 0.0], [0.0, 0.0, 1.0]];
            Mul(t, s) != Mul(s, t)
  {
    var t: Mat3 := [[1.0, 0.0, 1.0], [0.0, 1.0, 0.0], [0.0, 0.0, 1.0]];
    var s: Mat3 := [[2.0, 0.0, 0.0], [0.0, 2.0, 0.0], [0.0, 0.0, 1.0]];
    assert Mul(t, s)[0][2] == 1.0;
    assert Mul(s, t)[0][2] == 2.0;
  }
}
