/** Where a square marker is, from the pixels of its four corners, over the real numbers. */
module Pose {
  import opened Prelude
  import opened LinearSystem

  /** A pinhole camera without distortion, in pixels. */
  datatype Camera = Camera(fx: real, fy: real, cx: real, cy: real)

  datatype Point = Point(x: real, y: real)

  /** Camera axes: x to the right, y down, z forward. */
  datatype Vec = Vec(x: real, y: real, z: real)

  datatype PoseError = InvalidArguments | Degenerate

  /** The corners of the black square: top-left, top-right, bottom-right, bottom-left. */
  type Corners = s: seq<Point> | |s| == 4 witness [Point(0.0, 0.0), Point(0.0, 0.0), Point(0.0, 0.0), Point(0.0, 0.0)]

  /** Marker plane coordinates in units of half the marker size: x to the right, y down. */
  function PlaneX(i: nat): real {
    if i == 0 || i == 3 then -1.0 else 1.0
  }

  function PlaneY(i: nat): real {
    if i < 2 then -1.0 else 1.0
  }

  /** The nonnegative root of the sum of two squares. */
  ghost predicate IsHypot(hypot: (real, real) -> real) {
    forall a: real, b: real :: hypot(a, b) >= 0.0 && hypot(a, b) * hypot(a, b) == a * a + b * b
  }

  // ---- What the camera sees ----

  /** A marker: its center, and the axes of its plane. */
  datatype Scene = Scene(t: Vec, r1: Vec, r2: Vec)

  function Norm2(v: Vec): real {
    v.x * v.x + v.y * v.y + v.z * v.z
  }

  function Ratio(p: real, z: real): real
    requires z != 0.0
  {
    p / z
  }

  function Mix(a: real, b: real, p1: real, p2: real, pt: real): real {
    a * p1 + b * p2 + pt
  }

  /** One coordinate of a point of the marker plane, `h` being half the marker size. */
  function Along(a: real, b: real, h: real, r1: real, r2: real, t: real): real {
    Mix(a, b, Times(h, r1), Times(h, r2), t)
  }

  function CornerOf(s: Scene, h: real, i: nat): Vec {
    var a, b := PlaneX(i), PlaneY(i);
    Vec(Along(a, b, h, s.r1.x, s.r2.x, s.t.x), Along(a, b, h, s.r1.y, s.r2.y, s.t.y), Along(a, b, h, s.r1.z, s.r2.z, s.t.z))
  }

  function Project(cam: Camera, p: Vec): Point
    requires p.z != 0.0
  {
    Point(cam.cx + cam.fx * Ratio(p.x, p.z), cam.cy + cam.fy * Ratio(p.y, p.z))
  }

  /** The corners are the image of this marker: unit axes, and everything in front of the camera. */
  ghost predicate Shows(corners: Corners, size: real, cam: Camera, s: Scene) {
    && Norm2(s.r1) == 1.0 && Norm2(s.r2) == 1.0 && s.t.z > 0.0
    && forall i :: 0 <= i < 4 ==> ShowsCorner(corners, size, cam, s, i)
  }

  ghost predicate ShowsCorner(corners: Corners, size: real, cam: Camera, s: Scene, i: nat)
    requires i < 4
  {
    var p := CornerOf(s, size / 2.0, i);
    p.z > 0.0 && corners[i] == Project(cam, p)
  }

  // ---- The equations of the homography ----

  function RowX(a: real, b: real, x: real): Row {
    [a, b, 1.0, 0.0, 0.0, 0.0, -Times(x, a), -Times(x, b), x]
  }

  function RowY(a: real, b: real, y: real): Row {
    [0.0, 0.0, 0.0, a, b, 1.0, -Times(y, a), -Times(y, b), y]
  }

  function NormalizedX(cam: Camera, c: Point): real
    requires cam.fx > 0.0
  {
    (c.x - cam.cx) / cam.fx
  }

  function NormalizedY(cam: Camera, c: Point): real
    requires cam.fy > 0.0
  {
    (c.y - cam.cy) / cam.fy
  }

  /** The equations of all corners, two for each. */
  function EquationsOf(corners: Corners, cam: Camera): (m: Matrix)
    requires cam.fx > 0.0 && cam.fy > 0.0
  {
    seq(N, r requires 0 <= r < N => EquationOf(corners, cam, r))
  }

  function EquationOf(corners: Corners, cam: Camera, r: nat): Row
    requires cam.fx > 0.0 && cam.fy > 0.0 && r < N
  {
    var i := r / 2;
    if r % 2 == 0 then RowX(PlaneX(i), PlaneY(i), NormalizedX(cam, corners[i]))
    else RowY(PlaneX(i), PlaneY(i), NormalizedY(cam, corners[i]))
  }

  method BuildEquations(corners: Corners, cam: Camera) returns (m: Matrix)
    requires cam.fx > 0.0 && cam.fy > 0.0
    ensures m == EquationsOf(corners, cam)
  {
    hide Times, NormalizedX, NormalizedY, PlaneX, PlaneY;
    m := ZERO_MATRIX;
    for i := 0 to 4
      invariant forall k :: 0 <= k < 2 * i ==> m[k] == EquationOf(corners, cam, k)
    {
      var a, b := PlaneX(i), PlaneY(i);
      var x, y := NormalizedX(cam, corners[i]), NormalizedY(cam, corners[i]);
      m := m[2 * i := [a, b, 1.0, 0.0, 0.0, 0.0, -Times(x, a), -Times(x, b), x]];
      m := m[2 * i + 1 := [0.0, 0.0, 0.0, a, b, 1.0, -Times(y, a), -Times(y, b), y]];
    }
    assert m == EquationsOf(corners, cam);
  }

  /** The homography of a scene, scaled so that its last entry is 1. */
  function HomographyOf(s: Scene, h: real): Vector
    requires s.t.z != 0.0
  {
    var z := s.t.z;
    [Ratio(Times(h, s.r1.x), z), Ratio(Times(h, s.r2.x), z), Ratio(s.t.x, z),
     Ratio(Times(h, s.r1.y), z), Ratio(Times(h, s.r2.y), z), Ratio(s.t.y, z),
     Ratio(Times(h, s.r1.z), z), Ratio(Times(h, s.r2.z), z)]
  }

  lemma Projected(f: real, c: real, p: real, z: real)
    requires f > 0.0 && z != 0.0
    ensures (c + f * Ratio(p, z) - c) / f == Ratio(p, z)
  {
    hide Ratio;
    var q := Ratio(p, z);
    assert (f * q) / f == q;
  }

  /** One equation, multiplied out: `x` is the image of the point with numerator `p` and depth `q`. */
  lemma EquationHolds(a: real, b: real, x: real, p1: real, p2: real, pt: real, q1: real, q2: real, z: real)
    requires z != 0.0 && Mix(a, b, q1, q2, z) != 0.0
    requires x == Ratio(Mix(a, b, p1, p2, pt), Mix(a, b, q1, q2, z))
    ensures Times(a, Ratio(p1, z)) + Times(b, Ratio(p2, z)) + Ratio(pt, z) + Times(-Times(x, a), Ratio(q1, z)) + Times(-Times(x, b), Ratio(q2, z)) == x
  {
    var u := 1.0 / z;
    assert z * u == 1.0;
    Quotients(p1, z); Quotients(p2, z); Quotients(pt, z); Quotients(q1, z); Quotients(q2, z);
    var num, den := a * p1 + b * p2 + pt, a * q1 + b * q2 + z;
    assert x * den == num;
    Expand(a, b, x, p1, p2, pt, q1, q2, z, u);
  }

  lemma Quotients(p: real, z: real)
    requires z != 0.0
    ensures p / z == p * (1.0 / z)
  {
  }

  lemma Expand(a: real, b: real, x: real, p1: real, p2: real, pt: real, q1: real, q2: real, z: real, u: real)
    requires x * (a * q1 + b * q2 + z) == a * p1 + b * p2 + pt && z * u == 1.0
    ensures a * (p1 * u) + b * (p2 * u) + pt * u + (-(x * a)) * (q1 * u) + (-(x * b)) * (q2 * u) == x
  {
    calc {
      a * (p1 * u) + b * (p2 * u) + pt * u + (-(x * a)) * (q1 * u) + (-(x * b)) * (q2 * u);
      (a * p1 + b * p2 + pt) * u - (x * (a * q1 + b * q2)) * u;
      (x * (a * q1 + b * q2 + z)) * u - (x * (a * q1 + b * q2)) * u;
      x * (z * u);
      x;
    }
  }

  lemma DotOf(row: Row, g: Vector)
    ensures Dot(row, g, 0) ==
            Times(row[0], g[0]) + Times(row[1], g[1]) + Times(row[2], g[2]) + Times(row[3], g[3])
            + Times(row[4], g[4]) + Times(row[5], g[5]) + Times(row[6], g[6]) + Times(row[7], g[7])
  {
    hide Times;
    assert Dot(row, g, 6) == Times(row[6], g[6]) + Times(row[7], g[7]);
    assert Dot(row, g, 4) == Times(row[4], g[4]) + Times(row[5], g[5]) + Dot(row, g, 6);
    assert Dot(row, g, 2) == Times(row[2], g[2]) + Times(row[3], g[3]) + Dot(row, g, 4);
    assert Dot(row, g, 0) == Times(row[0], g[0]) + Times(row[1], g[1]) + Dot(row, g, 2);
  }

  lemma RowsHold(s: Scene, h: real, a: real, b: real, x: real, y: real)
    requires s.t.z != 0.0 && Along(a, b, h, s.r1.z, s.r2.z, s.t.z) != 0.0
    requires x == Ratio(Along(a, b, h, s.r1.x, s.r2.x, s.t.x), Along(a, b, h, s.r1.z, s.r2.z, s.t.z))
    requires y == Ratio(Along(a, b, h, s.r1.y, s.r2.y, s.t.y), Along(a, b, h, s.r1.z, s.r2.z, s.t.z))
    ensures Holds(RowX(a, b, x), HomographyOf(s, h), 1.0) && Holds(RowY(a, b, y), HomographyOf(s, h), 1.0)
  {
    hide Times, Dot, Mix, Ratio;
    var g := HomographyOf(s, h);
    EquationHolds(a, b, x, Times(h, s.r1.x), Times(h, s.r2.x), s.t.x, Times(h, s.r1.z), Times(h, s.r2.z), s.t.z);
    EquationHolds(a, b, y, Times(h, s.r1.y), Times(h, s.r2.y), s.t.y, Times(h, s.r1.z), Times(h, s.r2.z), s.t.z);
    DotOf(RowX(a, b, x), g);
    DotOf(RowY(a, b, y), g);
    UnitTimes(g[2]);
    UnitTimes(g[5]);
    UnitTimes(x);
    UnitTimes(y);
    TimesZero(g[0]); TimesZero(g[1]); TimesZero(g[2]); TimesZero(g[3]); TimesZero(g[4]); TimesZero(g[5]);
    assert RowX(a, b, x)[8] == x && RowY(a, b, y)[8] == y;
    assert g[0] == Ratio(Times(h, s.r1.x), s.t.z);
    assert g[6] == Ratio(Times(h, s.r1.z), s.t.z);
    assert Dot(RowX(a, b, x), g, 0) == x;
    assert Dot(RowY(a, b, y), g, 0) == y;
  }

  /** The normalized coordinates of a corner are those of the point of the scene. */
  lemma SeenCorner(corners: Corners, size: real, cam: Camera, s: Scene, i: nat)
    requires cam.fx > 0.0 && cam.fy > 0.0 && Shows(corners, size, cam, s) && i < 4
    ensures var p := CornerOf(s, size / 2.0, i);
            && p.z > 0.0
            && NormalizedX(cam, corners[i]) == Ratio(p.x, p.z) && NormalizedY(cam, corners[i]) == Ratio(p.y, p.z)
  {
    hide Along, Ratio, Times, Norm2, CornerOf;
    var p := CornerOf(s, size / 2.0, i);
    assert ShowsCorner(corners, size, cam, s, i);
    Projected(cam.fx, cam.cx, p.x, p.z);
    Projected(cam.fy, cam.cy, p.y, p.z);
  }

  /** The homography of a scene solves the equations of its image. */
  lemma SceneSolves(corners: Corners, size: real, cam: Camera, s: Scene)
    requires cam.fx > 0.0 && cam.fy > 0.0 && Shows(corners, size, cam, s)
    ensures Solves(EquationsOf(corners, cam), HomographyOf(s, size / 2.0))
  {
    hide Shows, Along, Holds, HomographyOf, Ratio, Times, RowX, RowY, NormalizedX, NormalizedY;
    var h, m := size / 2.0, EquationsOf(corners, cam);
    FrontOfCamera(corners, size, cam, s, h);
    forall r | 0 <= r < N ensures Holds(m[r], HomographyOf(s, h), 1.0) {
      var i := r / 2;
      SeenCorner(corners, size, cam, s, i);
      RowsHold(s, h, PlaneX(i), PlaneY(i), NormalizedX(cam, corners[i]), NormalizedY(cam, corners[i]));
      assert m[r] == EquationOf(corners, cam, r);
    }
  }

  lemma FrontOfCamera(corners: Corners, size: real, cam: Camera, s: Scene, h: real)
    requires Shows(corners, size, cam, s) && h == size / 2.0
    ensures s.t.z > 0.0 && forall i :: 0 <= i < 4 ==> CornerOf(s, h, i).z > 0.0
  {
    hide CornerOf;
    forall i | 0 <= i < 4 ensures CornerOf(s, h, i).z > 0.0 {
      assert ShowsCorner(corners, size, cam, s, i);
    }
  }

  // ---- When the equations determine the homography ----

  function Cross(u: Vec, v: Vec): Vec {
    Vec(u.y * v.z - u.z * v.y, u.z * v.x - u.x * v.z, u.x * v.y - u.y * v.x)
  }

  function Inner(u: Vec, v: Vec): real {
    u.x * v.x + u.y * v.y + u.z * v.z
  }

  /** Zero exactly if the plane of the marker goes through the camera: the marker is seen edge-on. */
  function Facing(s: Scene): real {
    Inner(s.r1, Cross(s.r2, s.t))
  }

  function Sum3(a: real, b: real, c: real, u: real, v: real, w: real): real {
    a * u + b * v + c * w
  }

  predicate Vanishes(a: real, b: real, c: real, u: Vec, v: Vec, w: Vec) {
    Sum3(a, b, c, u.x, v.x, w.x) == 0.0 && Sum3(a, b, c, u.y, v.y, w.y) == 0.0 && Sum3(a, b, c, u.z, v.z, w.z) == 0.0
  }

  lemma CrossNormal(u: Vec, v: Vec)
    ensures Inner(u, Cross(u, v)) == 0.0 == Inner(v, Cross(u, v))
  {
  }

  lemma InnerOfSum(a: real, b: real, c: real, u: Vec, v: Vec, w: Vec, n: Vec)
    requires Vanishes(a, b, c, u, v, w)
    ensures a * Inner(u, n) + b * Inner(v, n) + c * Inner(w, n) == 0.0
  {
    var x, y, z := Sum3(a, b, c, u.x, v.x, w.x), Sum3(a, b, c, u.y, v.y, w.y), Sum3(a, b, c, u.z, v.z, w.z);
    assert x * n.x + y * n.y + z * n.z == a * Inner(u, n) + b * Inner(v, n) + c * Inner(w, n);
  }

  /** Cramer's rule for the first coefficient. */
  lemma FirstCoefficient(a: real, b: real, c: real, u: Vec, v: Vec, w: Vec)
    requires Vanishes(a, b, c, u, v, w) && Inner(u, Cross(v, w)) != 0.0
    ensures a == 0.0
  {
    hide Vanishes, Inner, Cross;
    var n := Cross(v, w);
    CrossNormal(v, w);
    InnerOfSum(a, b, c, u, v, w, n);
    NoZeroProduct(a, Inner(u, n));
  }

  lemma NoZeroProduct(a: real, b: real)
    requires a * b == 0.0 && b != 0.0
    ensures a == 0.0
  {
    assert a == (a * b) / b;
  }

  function Product3(a: real, b: real, c: real): real {
    a * b * c
  }

  lemma Product3Turns(a: real, b: real, c: real)
    ensures Product3(a, b, c) == Product3(b, c, a) == Product3(c, a, b)
  {
  }

  lemma Spread3(a: real, b: real, c: real, d: real, e: real)
    ensures a * (b * c - d * e) == Product3(a, b, c) - Product3(a, d, e)
  {
  }

  lemma TripleProduct(u: Vec, v: Vec, w: Vec)
    ensures Inner(u, Cross(v, w)) ==
            Product3(u.x, v.y, w.z) - Product3(u.x, v.z, w.y) + (Product3(u.y, v.z, w.x) - Product3(u.y, v.x, w.z))
            + (Product3(u.z, v.x, w.y) - Product3(u.z, v.y, w.x))
  {
    hide Product3;
    Spread3(u.x, v.y, w.z, v.z, w.y);
    Spread3(u.y, v.z, w.x, v.x, w.z);
    Spread3(u.z, v.x, w.y, v.y, w.x);
  }

  lemma Cyclic(u: Vec, v: Vec, w: Vec)
    ensures Inner(u, Cross(v, w)) == Inner(v, Cross(w, u)) == Inner(w, Cross(u, v))
  {
    hide Inner, Cross, Product3;
    TripleProduct(u, v, w);
    TripleProduct(v, w, u);
    TripleProduct(w, u, v);
    Product3Turns(u.x, v.y, w.z);
    Product3Turns(u.x, v.z, w.y);
    Product3Turns(u.y, v.z, w.x);
    Product3Turns(u.y, v.x, w.z);
    Product3Turns(u.z, v.x, w.y);
    Product3Turns(u.z, v.y, w.x);
  }

  lemma Independent(s: Scene, a: real, b: real, c: real)
    requires Facing(s) != 0.0 && Vanishes(a, b, c, s.r1, s.r2, s.t)
    ensures a == b == c == 0.0
  {
    hide Inner, Cross;
    Cyclic(s.r1, s.r2, s.t);
    FirstCoefficient(a, b, c, s.r1, s.r2, s.t);
    FirstCoefficient(b, c, a, s.r2, s.t, s.r1);
    FirstCoefficient(c, a, b, s.t, s.r1, s.r2);
  }

  /** The image of a corner of the marker plane under the matrix with the entries `v` and a last entry 0. */
  function Image(v: Vector, a: real, b: real): Vec {
    Vec(Mix(a, b, v[0], v[1], v[2]), Mix(a, b, v[3], v[4], v[5]), Mix(a, b, v[6], v[7], 0.0))
  }

  function Scale(k: real, v: Vec): Vec {
    Vec(Times(k, v.x), Times(k, v.y), Times(k, v.z))
  }

  /** One homogeneous equation, multiplied out. */
  lemma NullTerm(a: real, b: real, x: real, p: real, z: real, u0: real, u1: real, u2: real, w: real)
    requires z != 0.0 && x == Ratio(p, z)
    ensures Mix(a, b, u0, u1, u2) - Times(x, w) == 0.0 <==> Mix(a, b, u0, u1, u2) == Times(Ratio(w, z), p)
  {
    var k := 1.0 / z;
    Quotients(p, z);
    Quotients(w, z);
    assert (p * k) * w == (w * k) * p;
  }

  lemma DotRowX(a: real, b: real, x: real, v: Vector)
    ensures Dot(RowX(a, b, x), v, 0) == Mix(a, b, v[0], v[1], v[2]) - Times(x, Mix(a, b, v[6], v[7], 0.0))
  {
    DotOf(RowX(a, b, x), v);
    Spread(x, a, b, v[6], v[7]);
  }

  lemma DotRowY(a: real, b: real, y: real, v: Vector)
    ensures Dot(RowY(a, b, y), v, 0) == Mix(a, b, v[3], v[4], v[5]) - Times(y, Mix(a, b, v[6], v[7], 0.0))
  {
    DotOf(RowY(a, b, y), v);
    Spread(y, a, b, v[6], v[7]);
  }

  lemma NullRowX(a: real, b: real, x: real, v: Vector)
    ensures Holds(RowX(a, b, x), v, 0.0) <==> Mix(a, b, v[0], v[1], v[2]) - Times(x, Mix(a, b, v[6], v[7], 0.0)) == 0.0
  {
    hide Dot, Mix;
    DotRowX(a, b, x, v);
  }

  lemma NullRowY(a: real, b: real, y: real, v: Vector)
    ensures Holds(RowY(a, b, y), v, 0.0) <==> Mix(a, b, v[3], v[4], v[5]) - Times(y, Mix(a, b, v[6], v[7], 0.0)) == 0.0
  {
    hide Dot, Mix;
    DotRowY(a, b, y, v);
  }

  lemma Spread(x: real, a: real, b: real, p: real, q: real)
    ensures Times(x, Mix(a, b, p, q, 0.0)) == -(Times(-Times(x, a), p) + Times(-Times(x, b), q))
  {
    assert x * (a * p + b * q) == (x * a) * p + (x * b) * q;
  }

  /** The two homogeneous equations of a corner say that its image is a multiple of the point seen. */
  lemma CornerNull(a: real, b: real, p: Vec, v: Vector)
    requires p.z != 0.0
    ensures Holds(RowX(a, b, Ratio(p.x, p.z)), v, 0.0) && Holds(RowY(a, b, Ratio(p.y, p.z)), v, 0.0)
       <==> Image(v, a, b) == Scale(Ratio(Image(v, a, b).z, p.z), p)
  {
    hide Holds, Mix, Ratio, Times, RowX, RowY;
    var w := Image(v, a, b).z;
    NullRowX(a, b, Ratio(p.x, p.z), v);
    NullRowY(a, b, Ratio(p.y, p.z), v);
    NullTerm(a, b, Ratio(p.x, p.z), p.x, p.z, v[0], v[1], v[2], w);
    NullTerm(a, b, Ratio(p.y, p.z), p.y, p.z, v[3], v[4], v[5], w);
    RatioTimes(w, p.z);
  }

  lemma RatioTimes(w: real, z: real)
    requires z != 0.0
    ensures Times(Ratio(w, z), z) == w
  {
  }

  /** The images of all corners are multiples of the points seen. */
  predicate Maps(v: Vector, s: Scene, h: real, c: seq<real>)
    requires |c| == 4
  {
    forall i :: 0 <= i < 4 ==> Image(v, PlaneX(i), PlaneY(i)) == Scale(c[i], CornerOf(s, h, i))
  }

  lemma CornerMapped(corners: Corners, size: real, cam: Camera, s: Scene, v: Vector, i: nat)
    requires cam.fx > 0.0 && cam.fy > 0.0 && Shows(corners, size, cam, s) && i < 4
    ensures CornerOf(s, size / 2.0, i).z > 0.0
    ensures var w := Image(v, PlaneX(i), PlaneY(i));
            Holds(EquationOf(corners, cam, 2 * i), v, 0.0) && Holds(EquationOf(corners, cam, 2 * i + 1), v, 0.0)
            <==> w == Scale(Ratio(w.z, CornerOf(s, size / 2.0, i).z), CornerOf(s, size / 2.0, i))
  {
    hide Shows, Holds, Image, Ratio, Times, RowX, RowY, CornerOf, NormalizedX, NormalizedY;
    var p := CornerOf(s, size / 2.0, i);
    SeenCorner(corners, size, cam, s, i);
    CornerNull(PlaneX(i), PlaneY(i), p, v);
    assert (2 * i) / 2 == i && (2 * i + 1) / 2 == i;
  }

  /** The multiple is found in the third coordinate. */
  lemma OnlyMultiple(w: Vec, c: real, p: Vec)
    requires p.z != 0.0 && w == Scale(c, p)
    ensures w == Scale(Ratio(w.z, p.z), p)
  {
    assert (c * p.z) / p.z == c;
  }

  lemma MapsIsNull(corners: Corners, size: real, cam: Camera, s: Scene, v: Vector, c: seq<real>)
    requires cam.fx > 0.0 && cam.fy > 0.0 && Shows(corners, size, cam, s) && |c| == 4 && Maps(v, s, size / 2.0, c)
    ensures Satisfies(EquationsOf(corners, cam), v, 0.0)
  {
    hide Shows, Holds, Image, Ratio, Times, Scale, CornerOf, EquationOf;
    forall r | 0 <= r < N ensures Holds(EquationsOf(corners, cam)[r], v, 0.0) {
      var i := r / 2;
      CornerMapped(corners, size, cam, s, v, i);
      OnlyMultiple(Image(v, PlaneX(i), PlaneY(i)), c[i], CornerOf(s, size / 2.0, i));
      assert r == 2 * i || r == 2 * i + 1;
    }
  }

  lemma NullIsMaps(corners: Corners, size: real, cam: Camera, s: Scene, v: Vector) returns (c: seq<real>)
    requires cam.fx > 0.0 && cam.fy > 0.0 && Shows(corners, size, cam, s) && Satisfies(EquationsOf(corners, cam), v, 0.0)
    ensures |c| == 4 && Maps(v, s, size / 2.0, c)
  {
    hide Shows, Holds, Image, Ratio, Times, Scale, CornerOf, EquationOf;
    c := [];
    for i := 0 to 4
      invariant |c| == i
      invariant forall k :: 0 <= k < i ==> Image(v, PlaneX(k), PlaneY(k)) == Scale(c[k], CornerOf(s, size / 2.0, k))
    {
      CornerMapped(corners, size, cam, s, v, i);
      var m := EquationsOf(corners, cam);
      assert Holds(m[2 * i], v, 0.0) && Holds(m[2 * i + 1], v, 0.0);
      c := c + [Ratio(Image(v, PlaneX(i), PlaneY(i)).z, CornerOf(s, size / 2.0, i).z)];
    }
  }

  /** One coordinate of the four corners: of the images on the left, of the multiples of the points on the right. */
  predicate Spans(a: real, b: real, c: real, r1: real, r2: real, t: real, k: seq<real>)
    requires |k| == 4
  {
    && -a - b + c == Times(k[0], -r1 - r2 + t)
    && a - b + c == Times(k[1], r1 - r2 + t)
    && a + b + c == Times(k[2], r1 + r2 + t)
    && -a + b + c == Times(k[3], -r1 + r2 + t)
  }

  lemma Signs(u: real, v: real, w: real)
    ensures Mix(PlaneX(0), PlaneY(0), u, v, w) == -u - v + w && Mix(PlaneX(1), PlaneY(1), u, v, w) == u - v + w
    ensures Mix(PlaneX(2), PlaneY(2), u, v, w) == u + v + w && Mix(PlaneX(3), PlaneY(3), u, v, w) == -u + v + w
  {
  }

  predicate SpansAll(v: Vector, s: Scene, h: real, k: seq<real>)
    requires |k| == 4
  {
    && Spans(v[0], v[1], v[2], Times(h, s.r1.x), Times(h, s.r2.x), s.t.x, k)
    && Spans(v[3], v[4], v[5], Times(h, s.r1.y), Times(h, s.r2.y), s.t.y, k)
    && Spans(v[6], v[7], 0.0, Times(h, s.r1.z), Times(h, s.r2.z), s.t.z, k)
  }

  lemma MapsCoordinatewise(v: Vector, s: Scene, h: real, k: seq<real>)
    requires |k| == 4
    ensures Maps(v, s, h, k) <==> SpansAll(v, s, h, k)
  {
    hide Mix, Times, PlaneX, PlaneY;
    Signs(v[0], v[1], v[2]);
    Signs(v[3], v[4], v[5]);
    Signs(v[6], v[7], 0.0);
    Signs(Times(h, s.r1.x), Times(h, s.r2.x), s.t.x);
    Signs(Times(h, s.r1.y), Times(h, s.r2.y), s.t.y);
    Signs(Times(h, s.r1.z), Times(h, s.r2.z), s.t.z);
    assert Maps(v, s, h, k) <==>
      && Image(v, PlaneX(0), PlaneY(0)) == Scale(k[0], CornerOf(s, h, 0))
      && Image(v, PlaneX(1), PlaneY(1)) == Scale(k[1], CornerOf(s, h, 1))
      && Image(v, PlaneX(2), PlaneY(2)) == Scale(k[2], CornerOf(s, h, 2))
      && Image(v, PlaneX(3), PlaneY(3)) == Scale(k[3], CornerOf(s, h, 3));
  }

  /** The diagonals of a square share their middle, so the four multiples are tied together. */
  lemma Diagonals(a: real, b: real, c: real, h: real, r1: real, r2: real, t: real, k: seq<real>)
    requires |k| == 4 && Spans(a, b, c, Times(h, r1), Times(h, r2), t, k)
    ensures Sum3(Times(h, k[2] - k[0] - k[1] + k[3]), Times(h, k[2] - k[0] + k[1] - k[3]), k[0] + k[2] - k[1] - k[3], r1, r2, t) == 0.0
  {
    DiagonalSum(k[0], k[1], k[2], k[3], h * r1, h * r2, t);
    var d, e := k[2] - k[0] - k[1] + k[3], k[2] - k[0] + k[1] - k[3];
    assert (h * d) * r1 == d * (h * r1) && (h * e) * r2 == e * (h * r2);
  }

  lemma DiagonalSum(c0: real, c1: real, c2: real, c3: real, r1: real, r2: real, t: real)
    ensures c0 * (-r1 - r2 + t) + c2 * (r1 + r2 + t) - c1 * (r1 - r2 + t) - c3 * (-r1 + r2 + t)
         == Sum3(c2 - c0 - c1 + c3, c2 - c0 + c1 - c3, c0 + c2 - c1 - c3, r1, r2, t)
  {
  }

  /** Not edge-on: all multiples are the same, and then zero. */
  lemma FacingRegular(v: Vector, s: Scene, h: real, k: seq<real>)
    requires |k| == 4 && SpansAll(v, s, h, k) && Facing(s) != 0.0 && h > 0.0 && s.t.z > 0.0
    ensures v == ZERO_VECTOR
  {
    hide Facing, Times, Sum3, Spans;
    Diagonals(v[0], v[1], v[2], h, s.r1.x, s.r2.x, s.t.x, k);
    Diagonals(v[3], v[4], v[5], h, s.r1.y, s.r2.y, s.t.y, k);
    Diagonals(v[6], v[7], 0.0, h, s.r1.z, s.r2.z, s.t.z, k);
    var d, e := k[2] - k[0] - k[1] + k[3], k[2] - k[0] + k[1] - k[3];
    Independent(s, Times(h, d), Times(h, e), k[0] + k[2] - k[1] - k[3]);
    ScaledZero(h, d);
    ScaledZero(h, e);
    assert k[0] == k[1] == k[2] == k[3];
    SameMultiple(v[6], v[7], 0.0, Times(h, s.r1.z), Times(h, s.r2.z), s.t.z, k);
    ScaledZero(s.t.z, k[0]);
    SameMultiple(v[0], v[1], v[2], Times(h, s.r1.x), Times(h, s.r2.x), s.t.x, k);
    SameMultiple(v[3], v[4], v[5], Times(h, s.r1.y), Times(h, s.r2.y), s.t.y, k);
    TimesZero(Times(h, s.r1.x)); TimesZero(Times(h, s.r2.x)); TimesZero(s.t.x);
    TimesZero(Times(h, s.r1.y)); TimesZero(Times(h, s.r2.y)); TimesZero(s.t.y);
    TimesZero(Times(h, s.r1.z)); TimesZero(Times(h, s.r2.z));
    assert v == ZERO_VECTOR;
  }

  lemma ScaledZero(h: real, d: real)
    requires h > 0.0 
    ensures Times(h, d) == 0.0 ==> d == 0.0
    ensures Times(d, h) == 0.0 ==> d == 0.0
  {
    if d * h == 0.0 {
      NoZeroProduct(d, h);
    }
  }

  lemma SameMultiple(a: real, b: real, c: real, r1: real, r2: real, t: real, k: seq<real>)
    requires |k| == 4 && k[0] == k[1] == k[2] == k[3] && Spans(a, b, c, r1, r2, t, k)
    ensures a == Times(k[0], r1) && b == Times(k[0], r2) && c == Times(k[0], t)
  {
    var q := k[0];
    assert q * (-r1 - r2 + t) == -(q * r1) - q * r2 + q * t;
    assert q * (r1 - r2 + t) == q * r1 - q * r2 + q * t;
    assert q * (r1 + r2 + t) == q * r1 + q * r2 + q * t;
  }

  /** A coordinate of an axis, with a multiple of the center taken off that leaves no depth. */
  function Flat(x1: real, z1: real, x: real, z: real): real {
    z * x1 - z1 * x
  }

  /** Edge-on: the axes and the center are linearly dependent. */
  lemma EdgeOnDependent(s: Scene) returns (a: real, b: real, c: real)
    requires Facing(s) == 0.0 && s.t.z > 0.0
    ensures Vanishes(a, b, c, s.r1, s.r2, s.t) && (a != 0.0 || b != 0.0)
  {
    hide Inner, Cross, Sum3, Flat, Times;
    var r1, r2, t := s.r1, s.r2, s.t;
    Flattened(r1, r2, t);
    TimesZero(t.z);
    var p, q := Parallel(Flat(r1.x, r1.z, t.x, t.z), Flat(r1.y, r1.z, t.y, t.z), Flat(r2.x, r2.z, t.x, t.z), Flat(r2.y, r2.z, t.y, t.z));
    a, b, c := Times(t.z, p), Times(t.z, q), -(Times(p, r1.z) + Times(q, r2.z));
    Lifted(p, q, r1.x, r2.x, t.x, r1.z, r2.z, t.z);
    Lifted(p, q, r1.y, r2.y, t.y, r1.z, r2.z, t.z);
    Lifted(p, q, r1.z, r2.z, t.z, r1.z, r2.z, t.z);
    NoDepth(r1.z, t.z);
    NoDepth(r2.z, t.z);
    TimesZero(p);
    TimesZero(q);
    ScaledZero(t.z, p);
    ScaledZero(t.z, q);
  }

  lemma Parallel(ux: real, uy: real, wx: real, wy: real) returns (p: real, q: real)
    requires Times(ux, wy) - Times(uy, wx) == 0.0
    ensures Times(p, ux) + Times(q, wx) == 0.0 && Times(p, uy) + Times(q, wy) == 0.0 && (p != 0.0 || q != 0.0)
  {
    p, q := 1.0, 0.0;
    if ux != 0.0 {
      p, q := wx, -ux;
    } else if uy != 0.0 {
      p, q := wy, -uy;
    }
  }

  lemma NoDepth(z1: real, z: real)
    ensures Flat(z1, z1, z, z) == 0.0
  {
  }

  lemma Lifted(p: real, q: real, x1: real, x2: real, x: real, z1: real, z2: real, z: real)
    ensures Sum3(Times(z, p), Times(z, q), -(Times(p, z1) + Times(q, z2)), x1, x2, x) == Times(p, Flat(x1, z1, x, z)) + Times(q, Flat(x2, z2, x, z))
  {
  }

  lemma Flattened(r1: Vec, r2: Vec, t: Vec)
    ensures Times(Flat(r1.x, r1.z, t.x, t.z), Flat(r2.y, r2.z, t.y, t.z)) - Times(Flat(r1.y, r1.z, t.y, t.z), Flat(r2.x, r2.z, t.x, t.z))
         == Times(t.z, Inner(r1, Cross(r2, t)))
  {
  }

  /** Multiples that the diagonals tie together as `a`, `b`, `c` say, all moved by `e`. */
  function Multiples(a: real, b: real, c: real, e: real): seq<real> {
    [(c - a - b) / 4.0 + e, (b - a - c) / 4.0 + e, (a + b + c) / 4.0 + e, (a - b - c) / 4.0 + e]
  }

  /** The first two columns and the last, in one coordinate. */
  function Columns(r1: real, r2: real, t: real, k: seq<real>): (real, real, real)
    requires |k| == 4
  {
    var i0, i1, i2 := Times(k[0], -r1 - r2 + t), Times(k[1], r1 - r2 + t), Times(k[2], r1 + r2 + t);
    ((i1 - i0) / 2.0, (i2 - i1) / 2.0, (i0 + i2) / 2.0)
  }

  lemma ColumnsSpan(r1: real, r2: real, t: real, a: real, b: real, c: real, e: real)
    requires Sum3(a, b, c, r1, r2, t) == 0.0
    ensures var k := Multiples(a, b, c, e);
            var (x, y, z) := Columns(r1, r2, t, k);
            Spans(x, y, z, r1, r2, t, k)
  {
    var k := Multiples(a, b, c, e);
    DiagonalSum(k[0], k[1], k[2], k[3], r1, r2, t);
  }

  /** The multiples can be moved so that the last entry is zero. */
  lemma LastEntryZero(r1: real, r2: real, t: real, a: real, b: real, c: real) returns (e: real)
    requires t > 0.0
    ensures Columns(r1, r2, t, Multiples(a, b, c, e)).2 == 0.0
  {
    var k := Multiples(a, b, c, 0.0);
    var p, q := -r1 - r2 + t, r1 + r2 + t;
    var sum := k[0] * p + k[2] * q;
    e := -sum / (p + q);
    assert e * (p + q) == -sum;
    assert (k[0] + e) * p + (k[2] + e) * q == sum + e * (p + q);
  }

  lemma ScaledSum(h: real, a: real, b: real, c: real, r1: real, r2: real, t: real)
    requires Sum3(a, b, c, r1, r2, t) == 0.0
    ensures Sum3(a, b, Times(h, c), Times(h, r1), Times(h, r2), t) == 0.0
  {
    assert a * (h * r1) + b * (h * r2) + (h * c) * t == h * (a * r1 + b * r2 + c * t);
  }

  /** Edge-on: there is a null vector. */
  lemma EdgeOnSingular(s: Scene, h: real) returns (v: Vector, k: seq<real>)
    requires Facing(s) == 0.0 && s.t.z > 0.0 && forall i :: 0 <= i < 4 ==> CornerOf(s, h, i).z > 0.0
    ensures |k| == 4 && SpansAll(v, s, h, k) && v != ZERO_VECTOR
  {
    hide Facing, Times, Sum3, Spans, Columns, Mix, PlaneX, PlaneY;
    var a, b, c := EdgeOnDependent(s);
    var e := LastEntryZero(Times(h, s.r1.z), Times(h, s.r2.z), s.t.z, a, b, Times(h, c));
    k := Multiples(a, b, Times(h, c), e);
    ScaledSum(h, a, b, c, s.r1.x, s.r2.x, s.t.x);
    ScaledSum(h, a, b, c, s.r1.y, s.r2.y, s.t.y);
    ScaledSum(h, a, b, c, s.r1.z, s.r2.z, s.t.z);
    ColumnsSpan(Times(h, s.r1.x), Times(h, s.r2.x), s.t.x, a, b, Times(h, c), e);
    ColumnsSpan(Times(h, s.r1.y), Times(h, s.r2.y), s.t.y, a, b, Times(h, c), e);
    ColumnsSpan(Times(h, s.r1.z), Times(h, s.r2.z), s.t.z, a, b, Times(h, c), e);
    var (x1, x2, x) := Columns(Times(h, s.r1.x), Times(h, s.r2.x), s.t.x, k);
    var (y1, y2, y) := Columns(Times(h, s.r1.y), Times(h, s.r2.y), s.t.y, k);
    var (z1, z2, z) := Columns(Times(h, s.r1.z), Times(h, s.r2.z), s.t.z, k);
    v := [x1, x2, x, y1, y2, y, z1, z2];
    if z1 == 0.0 && z2 == 0.0 {
      Signs(Times(h, s.r1.z), Times(h, s.r2.z), s.t.z);
      assert CornerOf(s, h, 0).z > 0.0 && CornerOf(s, h, 1).z > 0.0 && CornerOf(s, h, 2).z > 0.0 && CornerOf(s, h, 3).z > 0.0;
      NoMultiples(Times(h, s.r1.z), Times(h, s.r2.z), s.t.z, k);
      assert false;
    }
    assert v[6] != ZERO_VECTOR[6] || v[7] != ZERO_VECTOR[7];
  }

  lemma NoMultiples(r1: real, r2: real, t: real, k: seq<real>)
    requires |k| == 4 && Spans(0.0, 0.0, 0.0, r1, r2, t, k)
    requires -r1 - r2 + t > 0.0 && r1 - r2 + t > 0.0 && r1 + r2 + t > 0.0 && -r1 + r2 + t > 0.0
    ensures k == [0.0, 0.0, 0.0, 0.0]
  {
    NoZeroProduct(k[0], -r1 - r2 + t);
    NoZeroProduct(k[1], r1 - r2 + t);
    NoZeroProduct(k[2], r1 + r2 + t);
    NoZeroProduct(k[3], -r1 + r2 + t);
  }

  /**
    The equations of a scene have the homography as their only solution exactly if the marker is not seen
    edge-on.
   */
  lemma SingularExactly(corners: Corners, size: real, cam: Camera, s: Scene)
    requires ValidArguments(size, cam) && Shows(corners, size, cam, s)
    ensures s.t.z > 0.0
    ensures Singular(EquationsOf(corners, cam)) <==> Facing(s) == 0.0
    ensures Facing(s) != 0.0 <==> forall g: Vector :: Solves(EquationsOf(corners, cam), g) <==> g == HomographyOf(s, size / 2.0)
  {
    hide Satisfies, EquationsOf, Facing, Shows, CornerOf, HomographyOf, Maps, SpansAll;
    var m, h := EquationsOf(corners, cam), size / 2.0;
    FrontOfCamera(corners, size, cam, s, h);
    if Facing(s) == 0.0 {
      var v, k := EdgeOnSingular(s, h);
      MapsCoordinatewise(v, s, h, k);
      MapsIsNull(corners, size, cam, s, v, k);
      assert Null(m, v);
    } else {
      forall v: Vector | Satisfies(m, v, 0.0) ensures v == ZERO_VECTOR {
        var k := NullIsMaps(corners, size, cam, s, v);
        MapsCoordinatewise(v, s, h, k);
        FacingRegular(v, s, h, k);
      }
    }
    SceneSolves(corners, size, cam, s);
    OnlySolution(m, HomographyOf(s, h));
  }

  // ---- The scale ----

  lemma Scaled(h: real, r: real, z: real)
    requires z != 0.0
    ensures Ratio(Times(h, r), z) * Ratio(Times(h, r), z) == (h / z) * (h / z) * (r * r)
  {
    var u := 1.0 / z;
    Quotients(h * r, z);
    Quotients(h, z);
    var k := h * u;
    assert h * r * u == k * r;
    assert Ratio(Times(h, r), z) == k * r && h / z == k;
    assert (k * r) * (k * r) == (k * k) * (r * r);
  }

  lemma EqualRoots(a: real, b: real)
    requires a >= 0.0 && b > 0.0 && a * a == b * b
    ensures a == b
  {
    var d, e := a - b, a + b;
    assert d * e == a * a - b * b == 0.0;
    assert d == (d * e) / e;
  }

  /** A column of the homography has length `h / z`, because the axis has unit length. */
  lemma ColumnLength(hypot: (real, real) -> real, h: real, z: real, r: Vec)
    requires IsHypot(hypot) && h > 0.0 && z > 0.0 && Norm2(r) == 1.0
    ensures hypot(hypot(Ratio(Times(h, r.x), z), Ratio(Times(h, r.y), z)), Ratio(Times(h, r.z), z)) == h / z > 0.0
  {
    var a, b, c := Ratio(Times(h, r.x), z), Ratio(Times(h, r.y), z), Ratio(Times(h, r.z), z);
    var inner := hypot(a, b);
    var n := hypot(inner, c);
    assert inner * inner == a * a + b * b && n * n == inner * inner + c * c && n >= 0.0;
    Scaled(h, r.x, z);
    Scaled(h, r.y, z);
    Scaled(h, r.z, z);
    UnitScaled(h / z, r);
    Recovered(h, z, 0.0);
    EqualRoots(n, h / z);
  }

  lemma UnitScaled(k: real, r: Vec)
    requires Norm2(r) == 1.0
    ensures k * k * (r.x * r.x) + k * k * (r.y * r.y) + k * k * (r.z * r.z) == k * k
  {
    var q, x, y, z := k * k, r.x * r.x, r.y * r.y, r.z * r.z;
    assert q * x + q * y + q * z == q * (x + y + z);
  }

  lemma Recovered(h: real, z: real, t: real)
    requires h > 0.0 && z > 0.0
    ensures h / z > 0.0 && 2.0 * h / (h / z + h / z) == z && z * Ratio(t, z) == t
  {
    var k := h / z;
    assert k * z == h;
    assert 2.0 * h == z * (k + k);
    assert (z * (k + k)) / (k + k) == z;
  }

  /** The equations can be solved, and their solution has this position. */
  ghost predicate Estimated(corners: Corners, size: real, cam: Camera, hypot: (real, real) -> real, t: Vec)
    requires cam.fx > 0.0 && cam.fy > 0.0
  {
    Solvable(EquationsOf(corners, cam)) && exists g :: Solves(EquationsOf(corners, cam), g) && Locates(g, hypot, size / 2.0, t)
  }

  predicate ValidArguments(size: real, cam: Camera) {
    cam.fx > 0.0 && cam.fy > 0.0 && size > 0.0
  }

  /**
    The position of the marker center. Over the reals the estimate is exact: if the corners are the image of
    a marker in front of the camera, the center of that marker is returned, unless the marker is seen edge-on
    or the solver stops at a pivot that is not zero but below 1e-12; and then there is no estimate.
   */
  method EstimatePosition(corners: Corners, size: real, cam: Camera, hypot: (real, real) -> real) returns (r: Result<Vec, PoseError>)
    requires IsHypot(hypot)
    ensures r == Failure(InvalidArguments) <==> !ValidArguments(size, cam)
    ensures ValidArguments(size, cam) ==> forall s :: Shows(corners, size, cam, s) ==>
              r == if Facing(s) != 0.0 && !StopsShort(EquationsOf(corners, cam)) then Success(s.t) else Failure(Degenerate)
    ensures ValidArguments(size, cam) ==> forall t ::
              r == Success(t) <==> Estimated(corners, size, cam, hypot, t)
  {
    hide Solves, IsHypot, Shows, EquationsOf, HomographyOf, Solvable, Singular, StopsShort, Facing;
    if !(cam.fx > 0.0) || !(cam.fy > 0.0) || !(size > 0.0) {
      return Failure(InvalidArguments);
    }
    var m := BuildEquations(corners, cam);
    var g, ok := Solve8(m);
    forall s | Shows(corners, size, cam, s) ensures ok <==> Facing(s) != 0.0 && !StopsShort(m) {
      SingularExactly(corners, size, cam, s);
    }
    if !ok {
      return Failure(Degenerate);
    }
    var n1 := hypot(hypot(g[0], g[3]), g[6]);
    var n2 := hypot(hypot(g[1], g[4]), g[7]);
    forall s | Shows(corners, size, cam, s) ensures Locates(g, hypot, size / 2.0, s.t) {
      SceneSolves(corners, size, cam, s);
      SceneFits(hypot, corners, size, cam, s, g);
    }
    assert Solves(m, g);
    if !(n1 > 0.0) || !(n2 > 0.0) {
      return Failure(Degenerate);
    }
    var h := size / 2.0;
    var tz := 2.0 * h / (n1 + n2);
    r := Success(Vec(tz * g[2], tz * g[5], tz));
    assert Locates(g, hypot, size / 2.0, r.value);
    assert forall t :: Locates(g, hypot, h, t) <==> t == r.value;
  }

  /** Both columns of the homography have a length, and these lengths fix the scale of the position. */
  predicate Locates(g: Vector, hypot: (real, real) -> real, h: real, t: Vec) {
    var n1, n2 := hypot(hypot(g[0], g[3]), g[6]), hypot(hypot(g[1], g[4]), g[7]);
    && n1 > 0.0 && n2 > 0.0
    && var tz := 2.0 * h / (n1 + n2); Vec(tz * g[2], tz * g[5], tz) == t
  }

  lemma SceneFits(hypot: (real, real) -> real, corners: Corners, size: real, cam: Camera, s: Scene, g: Vector)
    requires IsHypot(hypot) && size > 0.0 && Shows(corners, size, cam, s) && g == HomographyOf(s, size / 2.0)
    ensures Locates(g, hypot, size / 2.0, s.t)
  {
    hide IsHypot, Norm2, CornerOf, Ratio, Times;
    var h := size / 2.0;
    ColumnLength(hypot, h, s.t.z, s.r1);
    ColumnLength(hypot, h, s.t.z, s.r2);
    Recovered(h, s.t.z, s.t.x);
    Recovered(h, s.t.z, s.t.y);
  }

  // ---- What holds for any corners ----

  /** The same quadrilateral, with the names of its corners moved on by one place. */
  function Rotated(corners: Corners): Corners {
    [corners[1], corners[2], corners[3], corners[0]]
  }

  /** The homography of the plane turned by a right angle. */
  function Turned(g: Vector): Vector {
    [g[1], -g[0], g[2], g[4], -g[3], g[5], g[7], -g[6]]
  }

  lemma TurnedMix(i: nat, u: real, v: real, w: real)
    requires i < 4
    ensures Mix(PlaneX(i), PlaneY(i), v, -u, w) == Mix(PlaneX((i + 1) % 4), PlaneY((i + 1) % 4), u, v, w)
  {
    Signs(v, -u, w);
    Signs(u, v, w);
    assert i == 0 || i == 1 || i == 2 || i == 3;
  }

  lemma TurnedRows(corners: Corners, cam: Camera, g: Vector, i: nat)
    requires cam.fx > 0.0 && cam.fy > 0.0 && i < 4
    ensures var j := (i + 1) % 4;
            && (Holds(EquationOf(Rotated(corners), cam, 2 * i), Turned(g), 1.0) <==> Holds(EquationOf(corners, cam, 2 * j), g, 1.0))
            && (Holds(EquationOf(Rotated(corners), cam, 2 * i + 1), Turned(g), 1.0) <==> Holds(EquationOf(corners, cam, 2 * j + 1), g, 1.0))
  {
    hide Mix, Dot, Times, PlaneX, PlaneY, NormalizedX, NormalizedY;
    var j, h := (i + 1) % 4, Turned(g);
    assert (2 * i) / 2 == i && (2 * i + 1) / 2 == i && (2 * j) / 2 == j && (2 * j + 1) / 2 == j;
    assert Rotated(corners)[i] == corners[j];
    TurnedMix(i, g[0], g[1], g[2]);
    TurnedMix(i, g[3], g[4], g[5]);
    TurnedMix(i, g[6], g[7], 0.0);
    var x, y := NormalizedX(cam, corners[j]), NormalizedY(cam, corners[j]);
    DotRowX(PlaneX(i), PlaneY(i), x, h);
    DotRowX(PlaneX(j), PlaneY(j), x, g);
    DotRowY(PlaneX(i), PlaneY(i), y, h);
    DotRowY(PlaneX(j), PlaneY(j), y, g);
  }

  /** The turned homography solves the equations of the rotated corners. */
  lemma TurnedSolves(corners: Corners, cam: Camera, g: Vector)
    requires cam.fx > 0.0 && cam.fy > 0.0 && Solves(EquationsOf(corners, cam), g)
    ensures Solves(EquationsOf(Rotated(corners), cam), Turned(g))
  {
    hide Holds, EquationOf, Turned;
    var m, m' := EquationsOf(corners, cam), EquationsOf(Rotated(corners), cam);
    forall r | 0 <= r < N ensures Holds(m'[r], Turned(g), 1.0) {
      var i := r / 2;
      var j := (i + 1) % 4;
      TurnedRows(corners, cam, g, i);
      assert Holds(m[2 * j], g, 1.0) && Holds(m[2 * j + 1], g, 1.0);
      assert r == 2 * i || r == 2 * i + 1;
    }
  }

  lemma SameRoot(a: real, b: real)
    requires a >= 0.0 && b >= 0.0 && a * a == b * b
    ensures a == b
  {
    if b > 0.0 {
      EqualRoots(a, b);
    } else if a > 0.0 {
      EqualRoots(b, a);
    }
  }

  lemma SignFree(hypot: (real, real) -> real, a: real, b: real, c: real)
    requires IsHypot(hypot)
    ensures hypot(hypot(-a, -b), -c) == hypot(hypot(a, b), c)
  {
    var m, n := hypot(-a, -b), hypot(a, b);
    SquareSign(a);
    SquareSign(b);
    SquareSign(c);
    SameRoot(m, n);
    SameRoot(hypot(m, -c), hypot(n, c));
  }

  lemma SquareSign(a: real)
    ensures (-a) * (-a) == a * a
  {
  }

  lemma TurnedLocates(g: Vector, hypot: (real, real) -> real, h: real, t: Vec)
    requires IsHypot(hypot) && Locates(g, hypot, h, t)
    ensures Locates(Turned(g), hypot, h, t)
  {
    hide IsHypot;
    SignFree(hypot, g[0], g[3], g[6]);
    var n1, n2 := hypot(hypot(g[0], g[3]), g[6]), hypot(hypot(g[1], g[4]), g[7]);
    assert n1 + n2 == n2 + n1;
  }

  /** Which corner is called the first does not matter: the two estimates of a quadrilateral are the same. */
  lemma RotationInvariant(corners: Corners, size: real, cam: Camera, hypot: (real, real) -> real, t: Vec, t': Vec)
    requires IsHypot(hypot) && ValidArguments(size, cam)
    requires Estimated(corners, size, cam, hypot, t) && Estimated(Rotated(corners), size, cam, hypot, t')
    ensures t == t'
  {
    hide Solves, IsHypot, EquationsOf, Solvable, Rotated, Turned, Locates;
    var h := size / 2.0;
    var g :| Solves(EquationsOf(corners, cam), g) && Locates(g, hypot, h, t);
    var g' :| Solves(EquationsOf(Rotated(corners), cam), g') && Locates(g', hypot, h, t');
    TurnedSolves(corners, cam, g);
    TurnedLocates(g, hypot, h, t);
    SolvedOnce(EquationsOf(Rotated(corners), cam), Turned(g), g');
    LocatedOnce(g', hypot, h, t, t');
  }

  lemma SolvedOnce(m: Matrix, x: Vector, y: Vector)
    requires Solvable(m) && Solves(m, x) && Solves(m, y)
    ensures x == y
  {
    hide Solves, Singular, StopsShort, Solvable;
    SolvableExactly(m);
    OnlySolution(m, x);
  }

  lemma LocatedOnce(g: Vector, hypot: (real, real) -> real, h: real, t: Vec, t': Vec)
    requires Locates(g, hypot, h, t) && Locates(g, hypot, h, t')
    ensures t == t'
  {
  }

  /** Three points on a line. */
  predicate OnLine(x0: real, y0: real, x: real, y: real, x1: real, y1: real) {
    Times(x0 - x, y1 - y) == Times(y0 - y, x1 - x)
  }

  /** A point that two weights balance is on the line through the others. */
  lemma Between(w0: real, w1: real, u0: real, u1: real, v0: real, v1: real)
    requires w0 + w1 == 2.0 && w0 * u0 == -(w1 * u1) && w0 * v0 == -(w1 * v1)
    ensures u0 * v1 == v0 * u1
  {
    var d := u0 * v1 - v0 * u1;
    assert w0 * d == 0.0 by {
      assert w0 * d == (w0 * u0) * v1 - (w0 * v0) * u1;
      assert (w1 * u1) * v1 == (w1 * v1) * u1;
    }
    assert w1 * d == 0.0 by {
      assert w1 * d == (w1 * v1) * u0 - (w1 * u1) * v0;
      assert (w0 * v0) * u0 == (w0 * u0) * v0;
    }
    assert 2.0 * d == w0 * d + w1 * d;
  }

  /** What an equation says about its corner: `w` times its coordinate is the image of the plane point. */
  lemma EquationSays(m: real, x: real, w: real)
    requires m - Times(x, w) == Times(1.0, x)
    ensures (w + 1.0) * x == m
  {
  }

  lemma CornerSays(corners: Corners, cam: Camera, g: Vector, i: nat)
    requires cam.fx > 0.0 && cam.fy > 0.0 && i < 4 && Solves(EquationsOf(corners, cam), g)
    ensures var w := Mix(PlaneX(i), PlaneY(i), g[6], g[7], 0.0) + 1.0;
            && w * NormalizedX(cam, corners[i]) == Mix(PlaneX(i), PlaneY(i), g[0], g[1], g[2])
            && w * NormalizedY(cam, corners[i]) == Mix(PlaneX(i), PlaneY(i), g[3], g[4], g[5])
  {
    hide Mix, Dot, Times, NormalizedX, NormalizedY;
    var m := EquationsOf(corners, cam);
    var a, b, x, y := PlaneX(i), PlaneY(i), NormalizedX(cam, corners[i]), NormalizedY(cam, corners[i]);
    assert (2 * i) / 2 == i && (2 * i + 1) / 2 == i;
    assert m[2 * i] == RowX(a, b, x) && m[2 * i + 1] == RowY(a, b, y);
    assert Holds(m[2 * i], g, 1.0) && Holds(m[2 * i + 1], g, 1.0);
    DotRowX(a, b, x, g);
    DotRowY(a, b, y, g);
    EquationSays(Mix(a, b, g[0], g[1], g[2]), x, Mix(a, b, g[6], g[7], 0.0));
    EquationSays(Mix(a, b, g[3], g[4], g[5]), y, Mix(a, b, g[6], g[7], 0.0));
  }

  lemma Balanced(w0: real, w1: real, x0: real, x1: real, c: real)
    requires w0 + w1 == 2.0 && w0 * x0 + w1 * x1 == 2.0 * c
    ensures w0 * (x0 - c) == -(w1 * (x1 - c))
  {
    assert w0 * (x0 - c) == w0 * x0 - w0 * c;
    assert w1 * (x1 - c) == w1 * x1 - w1 * c;
    assert w0 * c + w1 * c == (w0 + w1) * c;
  }

  lemma OppositeCorners(corners: Corners, cam: Camera, g: Vector, i: nat)
    requires cam.fx > 0.0 && cam.fy > 0.0 && i < 2 && Solves(EquationsOf(corners, cam), g)
    ensures OnLine(NormalizedX(cam, corners[i]), NormalizedY(cam, corners[i]), g[2], g[5], NormalizedX(cam, corners[i + 2]), NormalizedY(cam, corners[i + 2]))
  {
    hide Mix, NormalizedX, NormalizedY, Solves, EquationsOf, PlaneX, PlaneY;
    CornerSays(corners, cam, g, i);
    CornerSays(corners, cam, g, i + 2);
    Signs(g[0], g[1], g[2]);
    Signs(g[3], g[4], g[5]);
    Signs(g[6], g[7], 0.0);
    var w0 := Mix(PlaneX(i), PlaneY(i), g[6], g[7], 0.0) + 1.0;
    var w1 := Mix(PlaneX(i + 2), PlaneY(i + 2), g[6], g[7], 0.0) + 1.0;
    var x0, x1 := NormalizedX(cam, corners[i]), NormalizedX(cam, corners[i + 2]);
    var y0, y1 := NormalizedY(cam, corners[i]), NormalizedY(cam, corners[i + 2]);
    assert i == 0 || i == 1;
    Balanced(w0, w1, x0, x1, g[2]);
    Balanced(w0, w1, y0, y1, g[5]);
    Between(w0, w1, x0 - g[2], x1 - g[2], y0 - g[5], y1 - g[5]);
  }

  /** Any estimate is in front of the camera, and is seen where the diagonals of the quadrilateral cross. */
  lemma CenterOnDiagonals(corners: Corners, size: real, cam: Camera, hypot: (real, real) -> real, t: Vec)
    requires ValidArguments(size, cam) && Estimated(corners, size, cam, hypot, t)
    ensures t.z > 0.0
    ensures forall i :: 0 <= i < 2 ==>
              OnLine(NormalizedX(cam, corners[i]), NormalizedY(cam, corners[i]), Ratio(t.x, t.z), Ratio(t.y, t.z),
                     NormalizedX(cam, corners[i + 2]), NormalizedY(cam, corners[i + 2]))
  {
    hide Solves, EquationsOf, Solvable, OnLine, NormalizedX, NormalizedY, Ratio;
    var g :| Solves(EquationsOf(corners, cam), g) && Locates(g, hypot, size / 2.0, t);
    LocatedInFront(g, hypot, size / 2.0, t);
    OppositeCorners(corners, cam, g, 0);
    OppositeCorners(corners, cam, g, 1);
  }

  lemma LocatedInFront(g: Vector, hypot: (real, real) -> real, h: real, t: Vec)
    requires h > 0.0 && Locates(g, hypot, h, t)
    ensures t.z > 0.0 && Ratio(t.x, t.z) == g[2] && Ratio(t.y, t.z) == g[5]
  {
    var n := hypot(hypot(g[0], g[3]), g[6]) + hypot(hypot(g[1], g[4]), g[7]);
    PositiveQuotient(2.0 * h, n);
    BackFromProduct(t.z, g[2]);
    BackFromProduct(t.z, g[5]);
  }

  lemma PositiveQuotient(a: real, b: real)
    requires a > 0.0 && b > 0.0
    ensures a / b > 0.0
  {
    var q := a / b;
    assert q * b == a;
  }

  lemma BackFromProduct(z: real, c: real)
    requires z > 0.0
    ensures Ratio(z * c, z) == c
  {
  }
}
