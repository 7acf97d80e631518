/**
 * Projective helpers of the renderer: the viewport matrix and the
 * barycentric weights of a point with respect to a screen-space triangle.
 */
module MathUtils {
  import opened Linalg

  const DEPTH_MIN: real := 0.0
  const DEPTH_MAX: real := 1.0

  /** Below this absolute doubled area a triangle counts as degenerate (`1e-2`). */
  const DEGENERATE_EPSILON: real := 0.01

  /** The weights returned for a degenerate triangle: negative first component, so every inside test fails. */
  const Sentinel: Vec3 := Vec3(-1.0, 1.0, 1.0)

  function Abs(v: real): real { if v < 0.0 then -v else v }

  /**
   * The viewport matrix: a scale by half the box size on x and y and by half
   * the depth range on z, followed by a translation to the box centre and the
   * middle of the depth range; w is kept.
   */
  function CreateViewport(x: int, y: int, width: int, height: int): (m: Mat4)
    ensures m.m11 * 2.0 == width as real && m.m22 * 2.0 == height as real && m.m33 * 2.0 == DEPTH_MAX - DEPTH_MIN
    ensures m.m14 == x as real + m.m11 && m.m24 == y as real + m.m22 && m.m34 == DEPTH_MIN + m.m33
    ensures m.m44 == 1.0
    ensures m.m12 == m.m13 == m.m21 == m.m23 == m.m31 == m.m32 == m.m41 == m.m42 == m.m43 == 0.0
  {
    // The source fills a zero matrix entry by entry; this is the same matrix written out.
    var w, h := width as real, height as real;
    Mat4(w / 2.0, 0.0, 0.0, x as real + w / 2.0,
         0.0, h / 2.0, 0.0, y as real + h / 2.0,
         0.0, 0.0, (DEPTH_MAX - DEPTH_MIN) / 2.0, (DEPTH_MAX + DEPTH_MIN) / 2.0,
         0.0, 0.0, 0.0, 1.0)
  }

  /** Over real box coordinates: the affine map the viewport matrix applies to a point. */
  lemma ViewportAffine(m: Mat4, x: real, y: real, width: real, height: real, p: Vec3)
    requires m.m11 * 2.0 == width && m.m22 * 2.0 == height && m.m33 * 2.0 == DEPTH_MAX - DEPTH_MIN
    requires m.m14 == x + m.m11 && m.m24 == y + m.m22 && m.m34 == DEPTH_MIN + m.m33 && m.m44 == 1.0
    requires m.m12 == m.m13 == m.m21 == m.m23 == m.m31 == m.m32 == m.m41 == m.m42 == m.m43 == 0.0
    ensures MulVec(m, Point(p)) == Vec4(
      x + (width / 2.0) * (p.x + 1.0),
      y + (height / 2.0) * (p.y + 1.0),
      DEPTH_MIN + (DEPTH_MAX - DEPTH_MIN) / 2.0 * (p.z + 1.0),
      1.0)
  {
  }

  /**
   * The viewport matrix maps the clip cube [-1, 1]^3 onto the pixel box at
   * (x, y) of size width x height, and depth onto [DEPTH_MIN, DEPTH_MAX].
   */
  lemma ViewportMaps(x: int, y: int, width: int, height: int, p: Vec3)
    ensures MulVec(CreateViewport(x, y, width, height), Point(p)) == Vec4(
      x as real + (width as real / 2.0) * (p.x + 1.0),
      y as real + (height as real / 2.0) * (p.y + 1.0),
      DEPTH_MIN + (DEPTH_MAX - DEPTH_MIN) / 2.0 * (p.z + 1.0),
      1.0)
  {
    ViewportAffine(CreateViewport(x, y, width, height), x as real, y as real, width as real, height as real, p);
  }

  /** The two opposite corners of the clip cube land on the corners of the viewport box. */
  lemma ViewportCorners(x: int, y: int, width: int, height: int)
    ensures MulVec(CreateViewport(x, y, width, height), Vec4(-1.0, -1.0, -1.0, 1.0))
         == Vec4(x as real, y as real, 0.0, 1.0)
    ensures MulVec(CreateViewport(x, y, width, height), Vec4(1.0, 1.0, 1.0, 1.0))
         == Vec4((x + width) as real, (y + height) as real, 1.0, 1.0)
  {
    ViewportMaps(x, y, width, height, Vec3(-1.0, -1.0, -1.0));
    ViewportMaps(x, y, width, height, Vec3(1.0, 1.0, 1.0));
    assert Vec4(-1.0, -1.0, -1.0, 1.0) == Point(Vec3(-1.0, -1.0, -1.0));
    assert Vec4(1.0, 1.0, 1.0, 1.0) == Point(Vec3(1.0, 1.0, 1.0));
  }

  /** Twice the signed area of (a, b, c); the z component of the cross product in ToBarycentric. */
  function DoubleArea(a: Vec2, b: Vec2, c: Vec2): real {
    (b.x - a.x) * (c.y - a.y) - (c.x - a.x) * (b.y - a.y)
  }

  predicate Degenerate(a: Vec2, b: Vec2, c: Vec2) {
    Abs(DoubleArea(a, b, c)) < DEGENERATE_EPSILON
  }

  /** The point weighted by `l` over the corners a, b, c. */
  function Combine(l: Vec3, a: Vec2, b: Vec2, c: Vec2): Vec2 {
    Vec2(l.x * a.x + l.y * b.x + l.z * c.x, l.x * a.y + l.y * b.y + l.z * c.y)
  }

  /** `to_barycentric`: weights of `p` by the cross-product method, or the sentinel for a degenerate triangle. */
  function ToBarycentric(p: Vec2, a: Vec2, b: Vec2, c: Vec2): (r: Vec3)
    ensures Degenerate(a, b, c) ==> r == Sentinel
    ensures !Degenerate(a, b, c) ==> r.x + r.y + r.z == 1.0
  {
    var ab := Sub2(b, a);
    var ac := Sub2(c, a);
    var pa := Sub2(a, p);
    var r := Cross(Vec3(ab.x, ac.x, pa.x), Vec3(ab.y, ac.y, pa.y));
    assert r.z == DoubleArea(a, b, c);
    if Abs(r.z) < DEGENERATE_EPSILON then
      Sentinel
    else
      var s := Vec3(r.x / r.z, r.y / r.z, r.z / r.z);
      Vec3(1.0 - s.x - s.y, s.x, s.y)
  }

  /** The cross-product identity behind BarycentricReconstructs, on plain numbers. */
  lemma CrossIdentity(abx: real, aby: real, acx: real, acy: real, pax: real, pay: real)
    ensures (acx * pay - pax * acy) * abx + (pax * aby - abx * pay) * acx == -pax * (abx * acy - acx * aby)
    ensures (acx * pay - pax * acy) * aby + (pax * aby - abx * pay) * acy == -pay * (abx * acy - acx * aby)
  {
  }

  /** Dividing both weights by the area: `a + u/d * ab + v/d * ac == a - pa` once `u*ab + v*ac == -pa*d`. */
  lemma DivideThrough(ax: real, abx: real, acx: real, pax: real, u: real, v: real, d: real)
    requires d != 0.0 && u * abx + v * acx == -pax * d
    ensures ax + (u / d) * abx + (v / d) * acx == ax - pax
  {
    calc {
      (u / d) * abx + (v / d) * acx;
      (u * abx + v * acx) / d;
      (-pax * d) / d;
      -pax;
    }
  }

  /** For a proper triangle the weights rebuild the point. */
  lemma BarycentricReconstructs(p: Vec2, a: Vec2, b: Vec2, c: Vec2)
    requires !Degenerate(a, b, c)
    ensures Combine(ToBarycentric(p, a, b, c), a, b, c) == p
  {
    var ab, ac, pa := Sub2(b, a), Sub2(c, a), Sub2(a, p);
    var d := DoubleArea(a, b, c);
    var u := ac.x * pa.y - pa.x * ac.y;
    var v := pa.x * ab.y - ab.x * pa.y;
    CrossIdentity(ab.x, ab.y, ac.x, ac.y, pa.x, pa.y);
    DivideThrough(a.x, ab.x, ac.x, pa.x, u, v, d);
    DivideThrough(a.y, ab.y, ac.y, pa.y, u, v, d);
    var w := ToBarycentric(p, a, b, c);
    assert w == Vec3(1.0 - u / d - v / d, u / d, v / d);
    assert Combine(w, a, b, c).x == a.x + w.y * ab.x + w.z * ac.x;
    assert Combine(w, a, b, c).y == a.y + w.y * ab.y + w.z * ac.y;
  }

  /** For a proper triangle the weights are the only affine weights that rebuild the point. */
  lemma BarycentricUnique(p: Vec2, a: Vec2, b: Vec2, c: Vec2, l: Vec3)
    requires !Degenerate(a, b, c)
    requires l.x + l.y + l.z == 1.0 && Combine(l, a, b, c) == p
    ensures ToBarycentric(p, a, b, c) == l
  {
    var ab, ac, pa := Sub2(b, a), Sub2(c, a), Sub2(a, p);
    var d := DoubleArea(a, b, c);
    assert pa.x == -(l.y * ab.x + l.z * ac.x);
    assert pa.y == -(l.y * ab.y + l.z * ac.y);
    WeightIdentity(ab.x, ab.y, ac.x, ac.y, l.y, l.z);
    var rx := ac.x * pa.y - pa.x * ac.y;
    var ry := pa.x * ab.y - ab.x * pa.y;
    assert d == ab.x * ac.y - ac.x * ab.y;
    assert rx == l.y * d;
    assert ry == l.z * d;
    assert d != 0.0;
  }

  /** The cross-product numerators of a point with weights (_, ly, lz) are those weights times the double area. */
  lemma WeightIdentity(abx: real, aby: real, acx: real, acy: real, ly: real, lz: real)
    ensures acx * -(ly * aby + lz * acy) - -(ly * abx + lz * acx) * acy == ly * (abx * acy - acx * aby)
    ensures -(ly * abx + lz * acx) * aby - abx * -(ly * aby + lz * acy) == lz * (abx * acy - acx * aby)
  {
  }

  /** The corners of a proper triangle get unit weights. */
  lemma BarycentricAtCorners(a: Vec2, b: Vec2, c: Vec2)
    requires !Degenerate(a, b, c)
    ensures ToBarycentric(a, a, b, c) == Vec3(1.0, 0.0, 0.0)
    ensures ToBarycentric(b, a, b, c) == Vec3(0.0, 1.0, 0.0)
    ensures ToBarycentric(c, a, b, c) == Vec3(0.0, 0.0, 1.0)
  {
    BarycentricUnique(a, a, b, c, Vec3(1.0, 0.0, 0.0));
    BarycentricUnique(b, a, b, c, Vec3(0.0, 1.0, 0.0));
    BarycentricUnique(c, a, b, c, Vec3(0.0, 0.0, 1.0));
  }

  predicate NonNegative(w: Vec3) {
    w.x >= 0.0 && w.y >= 0.0 && w.z >= 0.0
  }

  /** Weights of a convex combination: non-negative, summing to one. */
  predicate Convex(w: Vec3) {
    NonNegative(w) && w.x + w.y + w.z == 1.0
  }

  /**
   * The inside test: for a proper triangle, the weights are all non-negative
   * exactly when the point is a convex combination of the corners.
   */
  lemma InsideIffConvexCombination(p: Vec2, a: Vec2, b: Vec2, c: Vec2)
    requires !Degenerate(a, b, c)
    ensures NonNegative(ToBarycentric(p, a, b, c)) <==>
            exists l: Vec3 :: NonNegative(l) && l.x + l.y + l.z == 1.0 && Combine(l, a, b, c) == p
  {
    var w := ToBarycentric(p, a, b, c);
    BarycentricReconstructs(p, a, b, c);
    if exists l: Vec3 :: NonNegative(l) && l.x + l.y + l.z == 1.0 && Combine(l, a, b, c) == p {
      var l: Vec3 :| NonNegative(l) && l.x + l.y + l.z == 1.0 && Combine(l, a, b, c) == p;
      BarycentricUnique(p, a, b, c, l);
    }
  }

  /** A degenerate triangle covers no point: its sentinel fails the inside test. */
  lemma DegenerateCoversNothing(p: Vec2, a: Vec2, b: Vec2, c: Vec2)
    requires Degenerate(a, b, c)
    ensures !NonNegative(ToBarycentric(p, a, b, c))
  {
  }
}
